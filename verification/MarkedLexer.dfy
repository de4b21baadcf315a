/** marked: the block lexer over an oracle for its rules; it terminates and emits the flattening of a tree. */
module MarkedLexer {
  import opened Texts
  import opened Wrappers
  import opened MarkedParser
  import opened MarkedBlocks

  /** The first block rule that matches, what it consumes and what it leaves to lex again. */
  datatype Match =
    | LeafRule(token: Token, consumed: nat)
    | TextRule(text: string, consumed: nat)
    | DefRule(consumed: nat)
    | QuoteRule(inner: string, consumed: nat)
    | ListRule(ordered: bool, items: seq<RawItem>, rest: string)   // the rest may hold items given back
    | NoRule

  datatype RawItem = RawItem(loose: bool, text: string)

  /** The regular expressions, uninterpreted: `strip` blanks empty lines, `newline` measures leading newlines. */
  datatype Rules = Rules(
    strip: string -> string,
    newline: string -> nat,
    block: (string, bool, bool) -> Match)

  /** Every rule consumes a non-empty prefix and hands down strictly shorter text. */
  ghost predicate Progressing(ru: Rules) {
    && (forall s :: |ru.strip(s)| <= |s|)
    && (forall s :: ru.newline(s) <= |s|)
    && forall s, top, bq :: Shrinks(ru.block(s, top, bq), s)
  }

  ghost predicate Shrinks(m: Match, s: string) {
    match m
    case LeafRule(t, n) => IsLeaf(t) && 0 < n <= |s|
    case TextRule(_, n) => 0 < n <= |s|
    case DefRule(n) => 0 < n <= |s|
    case QuoteRule(inner, n) => 0 < n <= |s| && |inner| < |s|
    case ListRule(_, items, rest) => |rest| < |s| && forall i :: 0 <= i < |items| ==> |items[i].text| < |s|
    case NoRule => true
  }

  // ----- the tree a source text stands for; None is the "Infinite loop" error -----

  ghost function Tree(ru: Rules, src: string, top: bool, bq: bool): Option<seq<Block>>
    requires Progressing(ru)
    decreases |src|, 4
  {
    Blocks(ru, ru.strip(src), top, bq)
  }

  ghost function Blocks(ru: Rules, src: string, top: bool, bq: bool): Option<seq<Block>>
    requires Progressing(ru)
    decreases |src|, 3
  {
    if src == "" then Some([])
    else
      var (found, rest) :- Round(ru, src, top, bq);
      Before(found, Blocks(ru, rest, top, bq))
  }

  /** One round of the loop: newlines first, then a rule on whatever is left. */
  ghost function Round(ru: Rules, src: string, top: bool, bq: bool): (r: Option<(seq<Block>, string)>)
    requires Progressing(ru) && src != ""
    ensures r.Some? ==> |r.value.1| < |src|
    decreases |src|, 2, 1
  {
    var n := ru.newline(src);
    var s := src[n..];
    if s == "" then Some((SpaceOf(n), s))
    else
      var (found, rest) :- Found(ru, s, top, bq);
      Some((SpaceOf(n) + found, rest))
  }

  // a blank line leaves a space token, a single newline nothing
  function SpaceOf(n: nat): seq<Block> {
    if n > 1 then [Leaf(Space)] else []
  }

  function Before(done: seq<Block>, rest: Option<seq<Block>>): Option<seq<Block>> {
    if rest.None? then None else Some(done + rest.value)
  }

  /** What the matching rule contributes and the text after it. */
  ghost function Found(ru: Rules, s: string, top: bool, bq: bool): (r: Option<(seq<Block>, string)>)
    requires Progressing(ru) && s != ""
    ensures r.Some? ==> |r.value.1| < |s|
    decreases |s|, 2, 0
  {
    var m := ru.block(s, top, bq);
    assert Shrinks(m, s);
    match m
    case LeafRule(t, k) => Some(([Leaf(t)], s[k..]))
    case TextRule(t, k) => Some(([TextBlock(t)], s[k..]))
    case DefRule(k) => Some(([], s[k..]))
    case QuoteRule(inner, k) =>
      var kids :- Tree(ru, inner, top, true);
      Some(([Quote(kids)], s[k..]))
    case ListRule(ordered, items, rest) =>
      var trees :- Items(ru, items, bq, |s|);
      Some(([List(ordered, trees)], rest))
    case NoRule => None
  }

  ghost function Items(ru: Rules, items: seq<RawItem>, bq: bool, bound: nat): (r: Option<seq<Item>>)
    requires Progressing(ru) && forall i :: 0 <= i < |items| ==> |items[i].text| < bound
    decreases bound, 1, |items|
  {
    if items == [] then Some([])
    else
      var kids :- Tree(ru, items[0].text, false, bq);
      AfterItems([Item(items[0].loose, kids)], Items(ru, items[1..], bq, bound))
  }

  // ----- the object -----

  lemma {:induction false} FlattenConcat(a: seq<Block>, b: seq<Block>)
    ensures Flatten(a + b) == Flatten(a) + Flatten(b)
    decreases |a|
  {
    if a == [] {
      assert a + b == b;
    } else {
      assert (a + b)[0] == a[0] && (a + b)[1..] == a[1..] + b;
      FlattenConcat(a[1..], b);
    }
  }

  lemma FlattenOne(b: Block)
    ensures Flatten([b]) == FlattenBlock(b)
  {
    assert [b][1..] == [];
    assert Flatten([]) == [];
  }

  lemma {:induction false} ItemsConcat(a: seq<Item>, i: Item)
    ensures FlattenItems(a + [i]) == FlattenItems(a) + FlattenItem(i)
    decreases |a|
  {
    if a == [] {
      assert a + [i] == [i] && [i][1..] == [];
      assert FlattenItems([]) == [];
    } else {
      assert (a + [i])[0] == a[0] && (a + [i])[1..] == a[1..] + [i];
      ItemsConcat(a[1..], i);
    }
  }

  lemma BeforeBefore(a: seq<Block>, b: seq<Block>, rest: Option<seq<Block>>)
    ensures Before(a, Before(b, rest)) == Before(a + b, rest) && Before([], rest) == rest
  {
    if rest.Some? {
      assert a + (b + rest.value) == a + b + rest.value && [] + rest.value == rest.value;
    }
  }

  lemma Grow(before: seq<Token>, done: seq<Block>, more: seq<Block>)
    ensures before + Flatten(done) + Flatten(more) == before + Flatten(done + more)
  {
    FlattenConcat(done, more);
  }

  lemma GrowItems(before: seq<Token>, done: seq<Item>, loose: bool, kids: seq<Block>)
    ensures before + FlattenItems(done) + [ItemStart(loose)] + Flatten(kids) + [ItemEnd] ==
            before + FlattenItems(done + [Item(loose, kids)])
  {
    ItemsConcat(done, Item(loose, kids));
  }

  function AfterItems(done: seq<Item>, rest: Option<seq<Item>>): Option<seq<Item>> {
    if rest.None? then None else Some(done + rest.value)
  }

  lemma AfterAfter(a: seq<Item>, i: Item, rest: Option<seq<Item>>)
    ensures AfterItems(a, AfterItems([i], rest)) == AfterItems(a + [i], rest) && AfterItems([], rest) == rest
  {
    if rest.Some? {
      assert a + ([i] + rest.value) == a + [i] + rest.value && [] + rest.value == rest.value;
    }
  }

  lemma AfterNone(rest: Option<seq<Item>>)
    ensures AfterItems([], rest) == rest
  {
    AfterAfter([], Item(false, []), rest);
  }

  lemma {:induction false} ItemsStep(ru: Rules, items: seq<RawItem>, rest: seq<RawItem>, bq: bool, bound: nat, done: seq<Item>, whole: Option<seq<Item>>)
    requires Progressing(ru) && forall i :: 0 <= i < |items| ==> |items[i].text| < bound
    requires items != [] && rest == items[1..] && whole == AfterItems(done, Items(ru, items, bq, bound))
    ensures var kids := Tree(ru, items[0].text, false, bq);
            whole == if kids.None? then None else AfterItems(done + [Item(items[0].loose, kids.value)], Items(ru, rest, bq, bound))
  {
    var kids := Tree(ru, items[0].text, false, bq);
    if kids.Some? {
      AfterAfter(done, Item(items[0].loose, kids.value), Items(ru, rest, bq, bound));
    }
  }

  lemma ListGrows(ts: seq<Token>, ts': seq<Token>, started: seq<Token>, done: seq<Item>, loose: bool, kids: seq<Block>)
    requires ts == started + FlattenItems(done) && ts' == ts + [ItemStart(loose)] + Flatten(kids) + [ItemEnd]
    ensures ts' == started + FlattenItems(done + [Item(loose, kids)])
  {
    GrowItems(started, done, loose, kids);
  }

  lemma ListDone(before: seq<Token>, ordered: bool, done: seq<Item>, ts: seq<Token>)
    requires ts == before + [ListStart(ordered)] + FlattenItems(done) + [ListEnd]
    ensures ts == before + Flatten([List(ordered, done)])
  {
    FlattenOne(List(ordered, done));
    Framed(before, ListStart(ordered), FlattenItems(done), ListEnd);
  }

  lemma Framed(before: seq<Token>, start: Token, inner: seq<Token>, end: Token)
    ensures before + [start] + inner + [end] == before + ([start] + inner + [end])
  {
  }

  // ----- the tokens a source text gives, rule by rule -----

  /** `ts` is what a text gives, once its empty lines are blanked. */
  ghost predicate Lexed(ru: Rules, text: string, top: bool, bq: bool, ts: seq<Token>)
    requires Progressing(ru)
    decreases |text|, 4
  {
    Gives(ru, ru.strip(text), top, bq, ts)
  }

  /** More than one newline gives a space; a rule is applied to what follows the newlines. */
  ghost predicate Gives(ru: Rules, src: string, top: bool, bq: bool, ts: seq<Token>)
    requires Progressing(ru)
    decreases |src|, 3
  {
    if src == "" then ts == []
    else
      var n := ru.newline(src);
      if n > 1 then ts != [] && ts[0] == MarkedParser.Space && RuleGives(ru, src[n..], top, bq, ts[1..])
      else RuleGives(ru, src[n..], top, bq, ts)
  }

  /** The tokens of the rule that matches and then those of the text after it: a leaf or a text its own, a definition none. */
  ghost predicate RuleGives(ru: Rules, s: string, top: bool, bq: bool, ts: seq<Token>)
    requires Progressing(ru)
    decreases |s|, 2
  {
    if s == "" then ts == []
    else
      var m := ru.block(s, top, bq);
      assert Shrinks(m, s);
      match m
      case LeafRule(t, k) => ts != [] && ts[0] == t && Gives(ru, s[k..], top, bq, ts[1..])
      case TextRule(t, k) => ts != [] && ts[0] == Text(t) && Gives(ru, s[k..], top, bq, ts[1..])
      case DefRule(k) => Gives(ru, s[k..], top, bq, ts)
      case QuoteRule(inner, k) => QuoteGives(ru, inner, s[k..], top, bq, |s|, ts)
      case ListRule(ordered, items, rest) => ListGives(ru, ordered, items, rest, top, bq, |s|, ts)
      case NoRule => false
  }

  /** A quote gives what its inner text does as part of a quote, between its two tokens. */
  ghost predicate QuoteGives(ru: Rules, inner: string, rest: string, top: bool, bq: bool, bound: nat, ts: seq<Token>)
    requires Progressing(ru) && |inner| < bound && |rest| < bound
    decreases bound, 1
  {
    exists within, after :: ts == Between(QuoteStart, within, QuoteEnd, after) &&
      Lexed(ru, inner, top, true, within) && Gives(ru, rest, top, bq, after)
  }

  /** A list gives what its items do, between its two tokens, the first with the list's own flag. */
  ghost predicate ListGives(ru: Rules, ordered: bool, items: seq<RawItem>, rest: string, top: bool, bq: bool, bound: nat, ts: seq<Token>)
    requires Progressing(ru) && |rest| < bound && forall i :: 0 <= i < |items| ==> |items[i].text| < bound
    decreases bound, 1, |items| + 1
  {
    exists within, after :: ts == Between(ListStart(ordered), within, ListEnd, after) &&
      ItemsGive(ru, items, bq, bound, within) && Gives(ru, rest, top, bq, after)
  }

  /** Each item in order under its own looseness, lexed below the top level. */
  ghost predicate ItemsGive(ru: Rules, items: seq<RawItem>, bq: bool, bound: nat, ts: seq<Token>)
    requires Progressing(ru) && forall i :: 0 <= i < |items| ==> |items[i].text| < bound
    decreases bound, 1, |items|
  {
    if items == [] then ts == []
    else
      exists within, after :: ts == Between(ItemStart(items[0].loose), within, ItemEnd, after) &&
        Lexed(ru, items[0].text, false, bq, within) && ItemsGive(ru, items[1..], bq, bound, after)
  }

  function Between(start: Token, within: seq<Token>, end: Token, after: seq<Token>): seq<Token> {
    [start] + within + [end] + after
  }

  /** What is derived is just the flattening of the tree. */
  lemma {:induction false} LexedExactly(ru: Rules, text: string, top: bool, bq: bool, ts: seq<Token>)
    requires Progressing(ru)
    ensures Lexed(ru, text, top, bq, ts) <==> Tree(ru, text, top, bq).Some? && ts == Flatten(Tree(ru, text, top, bq).value)
    decreases |text|, 4
  {
    GivesExactly(ru, ru.strip(text), top, bq, ts);
  }

  ghost predicate IsFlat(ts: seq<Token>, bs: Option<seq<Block>>) {
    bs.Some? && ts == Flatten(bs.value)
  }

  /** Found and what follows it. */
  ghost predicate FlatAfter(ru: Rules, ts: seq<Token>, found: Option<(seq<Block>, string)>, top: bool, bq: bool)
    requires Progressing(ru)
  {
    found.Some? && Blocks(ru, found.value.1, top, bq).Some? &&
    ts == Flatten(found.value.0) + Flatten(Blocks(ru, found.value.1, top, bq).value)
  }

  lemma {:induction false} GivesExactly(ru: Rules, src: string, top: bool, bq: bool, ts: seq<Token>)
    requires Progressing(ru)
    ensures Gives(ru, src, top, bq, ts) <==> IsFlat(ts, Blocks(ru, src, top, bq))
    decreases |src|, 3
  {
    if src != "" {
      var n := ru.newline(src);
      var s := src[n..];
      var own := if n > 1 && ts != [] then ts[1..] else ts;
      if s != "" {
        RuleExactly(ru, s, top, bq, own);
        FlatRound(ru, src, s, top, bq, ts, own);
      } else {
        FlatBlank(ru, src, top, bq, ts);
      }
    }
  }

  lemma {:induction false} FlatBlank(ru: Rules, src: string, top: bool, bq: bool, ts: seq<Token>)
    requires Progressing(ru) && src != "" && ru.newline(src) == |src|
    ensures Gives(ru, src, top, bq, ts) <==> IsFlat(ts, Blocks(ru, src, top, bq))
  {
    var n := ru.newline(src);
    assert src[n..] == "" && Blocks(ru, "", top, bq) == Some([]);
    assert SpaceOf(n) + [] == SpaceOf(n);
    FlattenOne(Leaf(Space));
    assert Blocks(ru, src, top, bq) == Some(SpaceOf(n));
    assert ts != [] ==> ts == [ts[0]] + ts[1..];
  }

  lemma {:induction false} FlatRound(ru: Rules, src: string, s: string, top: bool, bq: bool, ts: seq<Token>, own: seq<Token>)
    requires Progressing(ru) && src != "" && s == src[ru.newline(src)..] && s != ""
    requires own == if ru.newline(src) > 1 && ts != [] then ts[1..] else ts
    requires RuleGives(ru, s, top, bq, own) <==> FlatAfter(ru, own, Found(ru, s, top, bq), top, bq)
    ensures Gives(ru, src, top, bq, ts) <==> IsFlat(ts, Blocks(ru, src, top, bq))
  {
    var n, found := ru.newline(src), Found(ru, s, top, bq);
    if found.Some? && Blocks(ru, found.value.1, top, bq).Some? {
      var later := Blocks(ru, found.value.1, top, bq).value;
      FlattenOne(Leaf(Space));
      FlattenConcat(SpaceOf(n), found.value.0);
      FlattenConcat(SpaceOf(n) + found.value.0, later);
      assert Blocks(ru, src, top, bq) == Some(SpaceOf(n) + found.value.0 + later);
      SpaceFirst(ts, own, n, Flatten(found.value.0), Flatten(later));
    }
  }

  lemma SpaceFirst(ts: seq<Token>, own: seq<Token>, n: nat, found: seq<Token>, later: seq<Token>)
    requires own == if n > 1 && ts != [] then ts[1..] else ts
    ensures ts == (if n > 1 then [MarkedParser.Space] else []) + found + later <==>
            own == found + later && (n > 1 ==> ts != [] && ts[0] == MarkedParser.Space)
  {
    if n > 1 {
      assert ts != [] ==> ts == [ts[0]] + ts[1..];
      assert ([MarkedParser.Space] + found + later)[1..] == found + later;
    } else {
      assert [] + found + later == found + later;
    }
  }

  lemma {:induction false} RuleExactly(ru: Rules, s: string, top: bool, bq: bool, ts: seq<Token>)
    requires Progressing(ru) && s != ""
    ensures RuleGives(ru, s, top, bq, ts) <==> FlatAfter(ru, ts, Found(ru, s, top, bq), top, bq)
    decreases |s|, 2
  {
    var m := ru.block(s, top, bq);
    assert Shrinks(m, s);
    match m
    case LeafRule(t, k) => OneExactly(ru, Leaf(t), t, s[k..], top, bq, ts);
    case TextRule(t, k) => OneExactly(ru, TextBlock(t), Text(t), s[k..], top, bq, ts);
    case DefRule(k) => GivesExactly(ru, s[k..], top, bq, ts);
    case QuoteRule(inner, k) => QuoteExactly(ru, inner, s[k..], top, bq, |s|, ts);
    case ListRule(ordered, items, rest) => ListExactly(ru, ordered, items, rest, top, bq, |s|, ts);
    case NoRule =>
  }

  lemma {:induction false} OneExactly(ru: Rules, b: Block, t: Token, rest: string, top: bool, bq: bool, ts: seq<Token>)
    requires Progressing(ru) && FlattenBlock(b) == [t]
    ensures ts != [] && ts[0] == t && Gives(ru, rest, top, bq, ts[1..]) <==> FlatAfter(ru, ts, Some(([b], rest)), top, bq)
    decreases |rest|, 5
  {
    FlattenOne(b);
    if ts != [] {
      GivesExactly(ru, rest, top, bq, ts[1..]);
      assert ts == [ts[0]] + ts[1..];
    }
  }

  lemma {:induction false} QuoteExactly(ru: Rules, inner: string, rest: string, top: bool, bq: bool, bound: nat, ts: seq<Token>)
    requires Progressing(ru) && |inner| < bound && |rest| < bound
    ensures var kids := Tree(ru, inner, top, true);
            QuoteGives(ru, inner, rest, top, bq, bound, ts) <==>
            FlatAfter(ru, ts, if kids.None? then None else Some(([Quote(kids.value)], rest)), top, bq)
    decreases bound, 1
  {
    var kids, later := Tree(ru, inner, top, true), Blocks(ru, rest, top, bq);
    if QuoteGives(ru, inner, rest, top, bq, bound, ts) {
      var within, after :| ts == Between(QuoteStart, within, QuoteEnd, after) &&
                           Lexed(ru, inner, top, true, within) && Gives(ru, rest, top, bq, after);
      LexedExactly(ru, inner, top, true, within);
      GivesExactly(ru, rest, top, bq, after);
      FlattenOne(Quote(kids.value));
    }
    if kids.Some? && later.Some? && ts == Flatten([Quote(kids.value)]) + Flatten(later.value) {
      LexedExactly(ru, inner, top, true, Flatten(kids.value));
      GivesExactly(ru, rest, top, bq, Flatten(later.value));
      FlattenOne(Quote(kids.value));
      assert ts == Between(QuoteStart, Flatten(kids.value), QuoteEnd, Flatten(later.value));
    }
  }

  lemma {:induction false} ListExactly(ru: Rules, ordered: bool, items: seq<RawItem>, rest: string, top: bool, bq: bool,
                                       bound: nat, ts: seq<Token>)
    requires Progressing(ru) && |rest| < bound && forall i :: 0 <= i < |items| ==> |items[i].text| < bound
    ensures var trees := Items(ru, items, bq, bound);
            ListGives(ru, ordered, items, rest, top, bq, bound, ts) <==>
            FlatAfter(ru, ts, if trees.None? then None else Some(([List(ordered, trees.value)], rest)), top, bq)
    decreases bound, 1, |items| + 2
  {
    var trees, later := Items(ru, items, bq, bound), Blocks(ru, rest, top, bq);
    if ListGives(ru, ordered, items, rest, top, bq, bound, ts) {
      var within, after :| ts == Between(ListStart(ordered), within, ListEnd, after) &&
                           ItemsGive(ru, items, bq, bound, within) && Gives(ru, rest, top, bq, after);
      ListParts(ru, bound, ordered, items, rest, top, bq, within, after);
    }
    if trees.Some? && later.Some? {
      var within, after := FlattenItems(trees.value), Flatten(later.value);
      ListParts(ru, bound, ordered, items, rest, top, bq, within, after);
      assert ts == Between(ListStart(ordered), within, ListEnd, after) ==> ListGives(ru, ordered, items, rest, top, bq, bound, ts);
    }
  }

  lemma {:induction false} ListParts(ru: Rules, bound: nat, ordered: bool, items: seq<RawItem>, rest: string, top: bool, bq: bool,
                                     within: seq<Token>, after: seq<Token>)
    requires Progressing(ru) && |rest| < bound && forall i :: 0 <= i < |items| ==> |items[i].text| < bound
    ensures var trees, later := Items(ru, items, bq, bound), Blocks(ru, rest, top, bq);
            && (ItemsGive(ru, items, bq, bound, within) && Gives(ru, rest, top, bq, after) <==>
                trees.Some? && later.Some? && within == FlattenItems(trees.value) && after == Flatten(later.value))
            && (trees.Some? && later.Some? ==>
                Flatten([List(ordered, trees.value)]) + Flatten(later.value) ==
                Between(ListStart(ordered), FlattenItems(trees.value), ListEnd, Flatten(later.value)))
    decreases bound, 1, |items| + 1
  {
    ItemsExactly(ru, items, bq, bound, within);
    GivesExactly(ru, rest, top, bq, after);
    var trees, later := Items(ru, items, bq, bound), Blocks(ru, rest, top, bq);
    if trees.Some? && later.Some? {
      ListFlat(ordered, trees.value, later.value);
    }
  }

  lemma ListFlat(ordered: bool, trees: seq<Item>, later: seq<Block>)
    ensures Flatten([List(ordered, trees)]) + Flatten(later) ==
            Between(ListStart(ordered), FlattenItems(trees), ListEnd, Flatten(later))
  {
    FlattenOne(List(ordered, trees));
  }

  lemma {:induction false} ItemsExactly(ru: Rules, items: seq<RawItem>, bq: bool, bound: nat, ts: seq<Token>)
    requires Progressing(ru) && forall i :: 0 <= i < |items| ==> |items[i].text| < bound
    ensures ItemsGive(ru, items, bq, bound, ts) <==>
            Items(ru, items, bq, bound).Some? && ts == FlattenItems(Items(ru, items, bq, bound).value)
    decreases bound, 1, |items|
  {
    if items != [] {
      var kids, later := Tree(ru, items[0].text, false, bq), Items(ru, items[1..], bq, bound);
      if ItemsGive(ru, items, bq, bound, ts) {
        var within, after :| ts == Between(ItemStart(items[0].loose), within, ItemEnd, after) &&
                             Lexed(ru, items[0].text, false, bq, within) && ItemsGive(ru, items[1..], bq, bound, after);
        LexedExactly(ru, items[0].text, false, bq, within);
        ItemsExactly(ru, items[1..], bq, bound, after);
        ItemFirst(Item(items[0].loose, kids.value), later.value);
      }
      if kids.Some? && later.Some? {
        var within, after := Flatten(kids.value), FlattenItems(later.value);
        LexedExactly(ru, items[0].text, false, bq, within);
        ItemsExactly(ru, items[1..], bq, bound, after);
        ItemFirst(Item(items[0].loose, kids.value), later.value);
        assert ts == Between(ItemStart(items[0].loose), within, ItemEnd, after) ==> ItemsGive(ru, items, bq, bound, ts);
      }
    }
  }

  lemma ItemFirst(i: Item, rest: seq<Item>)
    ensures FlattenItems([i] + rest) == Between(ItemStart(i.loose), Flatten(i.kids), ItemEnd, FlattenItems(rest))
  {
    assert ([i] + rest)[1..] == rest;
  }

  /** A text gives one token list at most. */
  lemma LexedOnce(ru: Rules, text: string, top: bool, bq: bool, ts: seq<Token>, ts': seq<Token>)
    requires Progressing(ru) && Lexed(ru, text, top, bq, ts) && Lexed(ru, text, top, bq, ts')
    ensures ts == ts'
  {
    LexedExactly(ru, text, top, bq, ts);
    LexedExactly(ru, text, top, bq, ts');
  }

  class Lexer {
    const rules: Rules
    var tokens: seq<Token>

    constructor (rules: Rules)
      ensures this.rules == rules && tokens == []
    {
      this.rules := rules;
      tokens := [];
    }

    /** `token`: it ends in the error exactly when nothing can be derived, and else adds what is derived. */
    method Lex(text: string, top: bool, bq: bool) returns (ok: bool)
      requires Progressing(rules)
      modifies this
      ensures ok <==> exists ts :: Lexed(rules, text, top, bq, ts)
      ensures ok ==> exists ts :: Lexed(rules, text, top, bq, ts) && tokens == old(tokens) + ts
    {
      ok := LexBlocks(text, top, bq);
      ghost var spec := Tree(rules, text, top, bq);
      if ok {
        LexedExactly(rules, text, top, bq, Flatten(spec.value));
      } else {
        forall ts ensures !Lexed(rules, text, top, bq, ts) {
          LexedExactly(rules, text, top, bq, ts);
        }
      }
    }

    /** The loop over the rules. */
    method LexBlocks(text: string, top: bool, bq: bool) returns (ok: bool)
      requires Progressing(rules)
      modifies this
      ensures var spec := Tree(rules, text, top, bq);
              (ok <==> spec.Some?) && (ok ==> tokens == old(tokens) + Flatten(spec.value))
      decreases |text|, 4
    {
      var src := rules.strip(text);
      ghost var before, done := tokens, [];
      BeforeBefore([], [], Blocks(rules, src, top, bq));
      while src != ""
        invariant |src| <= |text|
        invariant tokens == before + Flatten(done)
        invariant Tree(rules, text, top, bq) == Before(done, Blocks(rules, src, top, bq))
        decreases |src|
      {
        ghost var spec := Round(rules, src, top, bq);
        var rest := LexRound(src, top, bq);
        if rest.None? {
          return false;
        }
        Grow(before, done, spec.value.0);
        BeforeBefore(done, spec.value.0, Blocks(rules, rest.value, top, bq));
        src, done := rest.value, done + spec.value.0;
      }
      assert done + [] == done;
      return true;
    }

    method LexRound(src: string, top: bool, bq: bool) returns (rest: Option<string>)
      requires Progressing(rules) && src != ""
      modifies this
      ensures match Round(rules, src, top, bq)
              case None => rest == None
              case Some((found, after)) => rest == Some(after) && tokens == old(tokens) + Flatten(found)
      decreases |src|, 3
    {
      ghost var before := tokens;
      var n := rules.newline(src);
      var s := src[n..];
      if n > 1 {
        tokens := tokens + [MarkedParser.Space];
        FlattenOne(Leaf(Space));
      }
      assert tokens == before + Flatten(SpaceOf(n));
      if s == "" {
        return Some(s);
      }
      rest := LexRule(s, top, bq);
      ghost var spec := Found(rules, s, top, bq);
      if spec.Some? {
        Grow(before, SpaceOf(n), spec.value.0);
      }
    }

    /** One round: push what the matching rule emits, recursing for quotes and items. */
    method LexRule(s: string, top: bool, bq: bool) returns (rest: Option<string>)
      requires Progressing(rules) && s != ""
      modifies this
      ensures match Found(rules, s, top, bq)
              case None => rest == None
              case Some((found, after)) => rest == Some(after) && tokens == old(tokens) + Flatten(found)
      decreases |s|, 2
    {
      var m := rules.block(s, top, bq);
      assert Shrinks(m, s);
      match m
      case LeafRule(t, k) =>
        tokens := tokens + [t];
        FlattenOne(Leaf(t));
        return Some(s[k..]);
      case TextRule(t, k) =>
        tokens := tokens + [Text(t)];
        FlattenOne(TextBlock(t));
        return Some(s[k..]);
      case DefRule(k) =>
        return Some(s[k..]);
      case QuoteRule(inner, k) =>
        var ok := LexQuote(inner, top, |s|);
        return if ok then Some(s[k..]) else None;
      case ListRule(ordered, items, after) =>
        var ok := LexList(ordered, items, bq, |s|);
        return if ok then Some(after) else None;
      case NoRule =>
        return None;
    }

    method LexQuote(inner: string, top: bool, bound: nat) returns (ok: bool)
      requires Progressing(rules) && |inner| < bound
      modifies this
      ensures var spec := Tree(rules, inner, top, true);
              (ok <==> spec.Some?) && (ok ==> tokens == old(tokens) + Flatten([Quote(spec.value)]))
      decreases bound, 1
    {
      ghost var before := tokens;
      tokens := tokens + [QuoteStart];
      ok := LexBlocks(inner, top, true);
      if ok {
        tokens := tokens + [QuoteEnd];
        ghost var kids := Tree(rules, inner, top, true).value;
        FlattenOne(Quote(kids));
        Framed(before, QuoteStart, Flatten(kids), QuoteEnd);
      }
    }

    method LexItem(item: RawItem, bq: bool, bound: nat) returns (ok: bool)
      requires Progressing(rules) && |item.text| < bound
      modifies this
      ensures var kids := Tree(rules, item.text, false, bq);
              && (ok <==> kids.Some?)
              && (ok ==> tokens == old(tokens) + [ItemStart(item.loose)] + Flatten(kids.value) + [ItemEnd])
      decreases bound, 0
    {
      tokens := tokens + [ItemStart(item.loose)];
      ok := LexBlocks(item.text, false, bq);
      if ok {
        tokens := tokens + [ItemEnd];
      }
    }

    method LexItems(items: seq<RawItem>, bq: bool, bound: nat) returns (ok: bool)
      requires Progressing(rules) && forall i :: 0 <= i < |items| ==> |items[i].text| < bound
      modifies this
      ensures var spec := Items(rules, items, bq, bound);
              (ok <==> spec.Some?) && (ok ==> tokens == old(tokens) + FlattenItems(spec.value))
      decreases bound, 1, 0
    {
      ghost var started, done, whole := tokens, [], Items(rules, items, bq, bound);
      AfterNone(whole);
      assert items[0..] == items;
      var i := 0;
      while i < |items|
        invariant 0 <= i <= |items|
        invariant tokens == started + FlattenItems(done)
        invariant whole == AfterItems(done, Items(rules, items[i..], bq, bound))
      {
        ghost var ts, kids := tokens, Tree(rules, items[i].text, false, bq);
        ItemsStep(rules, items[i..], items[i + 1..], bq, bound, done, whole);
        ok := LexItem(items[i], bq, bound);
        if !ok {
          return;
        }
        ListGrows(ts, tokens, started, done, items[i].loose, kids.value);
        done := done + [Item(items[i].loose, kids.value)];
        i := i + 1;
      }
      assert done + [] == done;
      return true;
    }

    method LexList(ordered: bool, items: seq<RawItem>, bq: bool, bound: nat) returns (ok: bool)
      requires Progressing(rules) && forall i :: 0 <= i < |items| ==> |items[i].text| < bound
      modifies this
      ensures var spec := Items(rules, items, bq, bound);
              (ok <==> spec.Some?) && (ok ==> tokens == old(tokens) + Flatten([List(ordered, spec.value)]))
      decreases bound, 1, 1
    {
      ghost var before := tokens;
      tokens := tokens + [ListStart(ordered)];
      ok := LexItems(items, bq, bound);
      if ok {
        tokens := tokens + [ListEnd];
        ListDone(before, ordered, Items(rules, items, bq, bound).value, tokens);
      }
    }
  }

  // ----- lexer and parser together -----

  lemma {:induction false} TreeProper(ru: Rules, src: string, top: bool, bq: bool)
    requires Progressing(ru) && Tree(ru, src, top, bq).Some?
    ensures Proper(Tree(ru, src, top, bq).value)
    decreases |src|, 4
  {
    BlocksProper(ru, ru.strip(src), top, bq);
  }

  lemma {:induction false} ProperConcat(a: seq<Block>, b: seq<Block>)
    requires Proper(a) && Proper(b)
    ensures Proper(a + b)
    decreases |a|
  {
    if a == [] {
      assert a + b == b;
    } else {
      assert (a + b)[0] == a[0] && (a + b)[1..] == a[1..] + b;
      ProperConcat(a[1..], b);
    }
  }

  lemma ProperOne(b: Block)
    requires ProperBlock(b)
    ensures Proper([b])
  {
    assert [b][1..] == [];
  }

  lemma {:induction false} BlocksProper(ru: Rules, src: string, top: bool, bq: bool)
    requires Progressing(ru) && Blocks(ru, src, top, bq).Some?
    ensures Proper(Blocks(ru, src, top, bq).value)
    decreases |src|, 3
  {
    if src != "" {
      var n := ru.newline(src);
      var s := src[n..];
      ProperOne(Leaf(Space));
      if s != "" {
        FoundProper(ru, s, top, bq);
        var (found, rest) := Found(ru, s, top, bq).value;
        ProperConcat(SpaceOf(n), found);
        BlocksProper(ru, rest, top, bq);
        ProperConcat(SpaceOf(n) + found, Blocks(ru, rest, top, bq).value);
      } else {
        ProperConcat(SpaceOf(n), []);
        BlocksProper(ru, s, top, bq);
      }
    }
  }

  lemma {:induction false} FoundProper(ru: Rules, s: string, top: bool, bq: bool)
    requires Progressing(ru) && s != "" && Found(ru, s, top, bq).Some?
    ensures Proper(Found(ru, s, top, bq).value.0)
    decreases |s|, 2
  {
    var m := ru.block(s, top, bq);
    assert Shrinks(m, s);
    match m
    case LeafRule(t, _) => ProperOne(Leaf(t));
    case TextRule(t, _) => ProperOne(TextBlock(t));
    case QuoteRule(inner, _) =>
      TreeProper(ru, inner, top, true);
      ProperOne(Quote(Tree(ru, inner, top, true).value));
    case ListRule(ordered, items, _) =>
      ItemsProper(ru, items, bq, |s|);
      ProperOne(List(ordered, Items(ru, items, bq, |s|).value));
    case _ =>
  }

  lemma {:induction false} ItemsProper(ru: Rules, items: seq<RawItem>, bq: bool, bound: nat)
    requires Progressing(ru) && (forall i :: 0 <= i < |items| ==> |items[i].text| < bound) && Items(ru, items, bq, bound).Some?
    ensures ProperItems(Items(ru, items, bq, bound).value)
    decreases bound, 1, |items|
  {
    if items != [] {
      TreeProper(ru, items[0].text, false, bq);
      ItemsProper(ru, items[1..], bq, bound);
    }
  }

  // ----- `lex` -----

  /** Carriage returns, alone or before a newline, become newlines. */
  function Newlines(src: string): string {
    if src == "" then ""
    else if At(src, "\r\n") then "\n" + Newlines(src[2..])
    else (if src[0] == '\r' then "\n" else [src[0]]) + Newlines(src[1..])
  }

  /** Four spaces for a tab, a space and a newline for the two symbols. */
  function Spaced(s: string): string {
    ReplaceChar(ReplaceChar(ReplaceChar(s, '\t', "    "), '\U{a0}', " "), '\U{2424}', "\n")
  }

  /** The text `lex` hands to the lexer. */
  function Prepared(src: string): string {
    Spaced(Newlines(src))
  }

  predicate Plain(s: string) {
    '\r' !in s && '\t' !in s && '\U{a0}' !in s && '\U{2424}' !in s
  }

  /** None of the four is left, and a text without them is not touched. */
  lemma PreparedIsPlain(src: string)
    ensures Plain(Prepared(src))
    ensures Prepared(src) == src <==> Plain(src)
  {
    var lines := Newlines(src);
    var tabs := ReplaceChar(lines, '\t', "    ");
    var spaces := ReplaceChar(tabs, '\U{a0}', " ");
    NewlinesPlain(src);
    ReplacedGone(lines, '\t', "    ", '\r');
    ReplacedGone(tabs, '\U{a0}', " ", '\r');
    ReplacedGone(tabs, '\U{a0}', " ", '\t');
    ReplacedGone(spaces, '\U{2424}', "\n", '\r');
    ReplacedGone(spaces, '\U{2424}', "\n", '\t');
    ReplacedGone(spaces, '\U{2424}', "\n", '\U{a0}');
    if Plain(src) {
      ReplaceAbsent(src, '\t', "    ");
      ReplaceAbsent(src, '\U{a0}', " ");
      ReplaceAbsent(src, '\U{2424}', "\n");
    }
  }

  lemma {:induction false} NewlinesAfter(a: string, rest: string)
    requires '\r' !in a
    ensures Newlines(a + rest) == a + Newlines(rest)
    decreases |a|
  {
    if a == "" {
      assert a + rest == rest;
    } else {
      assert (a + rest)[0] == a[0] && (a + rest)[1..] == a[1..] + rest;
      assert a == [a[0]] + a[1..];
      NewlinesAfter(a[1..], rest);
    }
  }

  /** `y` is what stands for `x` before `b`: any line end becomes a newline. */
  predicate Becomes(x: string, y: string, b: string) {
    || (x == "\r\n" && y == "\n")
    || (x == "\r" && y == "\n" && !At(b, "\n"))
    || (x == "\t" && y == "    ")
    || (x == "\U{a0}" && y == " ")
    || (x == "\U{2424}" && y == "\n")
  }

  lemma SpacedConcat(a: string, b: string)
    ensures Spaced(a + b) == Spaced(a) + Spaced(b)
  {
    var ta, tb := ReplaceChar(a, '\t', "    "), ReplaceChar(b, '\t', "    ");
    ReplaceConcat(a, b, '\t', "    ");
    ReplaceConcat(ta, tb, '\U{a0}', " ");
    ReplaceConcat(ReplaceChar(ta, '\U{a0}', " "), ReplaceChar(tb, '\U{a0}', " "), '\U{2424}', "\n");
  }

  lemma SpacedPlain(s: string)
    requires Plain(s)
    ensures Spaced(s) == s
  {
    ReplaceAbsent(s, '\t', "    ");
    ReplaceAbsent(s, '\U{a0}', " ");
    ReplaceAbsent(s, '\U{2424}', "\n");
  }

  lemma SpacedOne(c: char)
    requires c in "\t\U{a0}\U{2424}"
    ensures Spaced([c]) == if c == '\t' then "    " else if c == '\U{a0}' then " " else "\n"
  {
    ReplaceOne(c, '\t', "    ");
    if c == '\t' {
      ReplaceAbsent("    ", '\U{a0}', " ");
      ReplaceAbsent("    ", '\U{2424}', "\n");
    } else {
      ReplaceOne(c, '\U{a0}', " ");
      ReplaceOne(c, '\U{2424}', "\n");
      ReplaceAbsent(" ", '\U{2424}', "\n");
    }
  }

  lemma NewlinesBecome(x: string, y: string, b: string)
    requires Becomes(x, y, b)
    ensures Newlines(x + b) == (if '\r' in x then y else x) + Newlines(b)
  {
    var s := x + b;
    if x == "\r\n" {
      assert At(s, "\r\n") && s[2..] == b;
    } else {
      assert s[1..] == b && !At(s, "\r\n") by {
        assert At(s, "\r\n") ==> s[0] == '\r' && s[1] == '\n' by { assert At(s, "\r\n") ==> s[..2][1] == '\n'; }
      }
    }
  }

  lemma SpacedBecomes(x: string, y: string, b: string)
    requires Becomes(x, y, b)
    ensures Spaced(if '\r' in x then y else x) == y
  {
    if '\r' in x {
      SpacedPlain(y);
    } else {
      SpacedOne(x[0]);
      assert x == [x[0]];
    }
  }

  lemma SpacedParts(a: string, z: string, rest: string)
    ensures Spaced(a + (z + rest)) == Spaced(a) + Spaced(z) + Spaced(rest)
  {
    SpacedConcat(a, z + rest);
    SpacedConcat(z, rest);
    var x, y, w := Spaced(a), Spaced(z), Spaced(rest);
    assert x + (y + w) == x + y + w;
  }

  /** What each of them becomes, after any text without them. */
  lemma PreparedStep(a: string, x: string, y: string, b: string)
    requires Plain(a) && Becomes(x, y, b)
    ensures Prepared(a + x + b) == a + y + Prepared(b)
  {
    var lines, z := Newlines(b), if '\r' in x then y else x;
    assert a + x + b == a + (x + b);
    NewlinesAfter(a, x + b);
    NewlinesBecome(x, y, b);
    SpacedParts(a, z, lines);
    SpacedPlain(a);
    SpacedBecomes(x, y, b);
  }

  lemma {:induction false} NewlinesPlain(src: string)
    ensures '\r' !in Newlines(src)
    ensures '\r' !in src ==> Newlines(src) == src
    decreases |src|
  {
    if src != "" {
      assert src == [src[0]] + src[1..];
      NewlinesPlain(if At(src, "\r\n") then src[2..] else src[1..]);
    }
  }

  lemma {:induction false} ReplacedGone(s: string, c: char, with: string, other: char)
    requires c !in with && other !in with && (other == c || other !in s)
    ensures c !in ReplaceChar(s, c, with) && other !in ReplaceChar(s, c, with)
    decreases |s|
  {
    if s != "" {
      ReplacedGone(s[1..], c, with, other);
    }
  }

  /** The document: a proper tree whose flat token stream is what the text gives. */
  ghost predicate Document(ru: Rules, src: string, bs: seq<Block>)
    requires Progressing(ru)
  {
    Proper(bs) && Lexed(ru, Prepared(src), true, false, Flatten(bs))
  }

  /** `Parser.parse(Lexer.lex(src))`: whatever the rules match, there is a document, which the output renders, or the error. */
  method Marked(ru: Rules, rd: Renderer, src: string) returns (out: Option<string>)
    requires Progressing(ru)
    ensures out.Some? <==> exists ts :: Lexed(ru, Prepared(src), true, false, ts)
    ensures out.Some? ==> exists bs :: Document(ru, src, bs)
    ensures forall bs :: Document(ru, src, bs) ==> out == Some(RenderEach(rd, Join(bs), false))
  {
    var text := Prepared(src);
    var lexer := new Lexer(ru);
    var ok := lexer.LexBlocks(text, true, false);
    ghost var spec := Tree(ru, text, true, false);
    forall bs | Document(ru, src, bs) ensures ok && lexer.tokens == Flatten(bs) && Parse(rd, Flatten(bs)) == Some(RenderEach(rd, Join(bs), false)) {
      LexedExactly(ru, text, true, false, Flatten(bs));
      ParseRenders(rd, bs);
      RenderJoins(rd, bs, false);
    }
    if !ok {
      forall ts ensures !Lexed(ru, text, true, false, ts) {
        LexedExactly(ru, text, true, false, ts);
      }
      return None;
    }
    LexedExactly(ru, text, true, false, Flatten(spec.value));
    TreeProper(ru, text, true, false);
    assert Document(ru, src, spec.value);
    var parser := new Parser(rd);
    out := parser.ParseAll(lexer.tokens);
  }
}
