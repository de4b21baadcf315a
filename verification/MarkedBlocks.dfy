/** marked: block trees, their flat token streams, and the theorem that the parser undoes the flattening. */
module MarkedBlocks {
  import opened Wrappers
  import opened MarkedParser

  datatype Block =
    | Leaf(token: Token)
    | TextBlock(text: string)
    | Quote(kids: seq<Block>)
    | List(ordered: bool, items: seq<Item>)

  datatype Item = Item(loose: bool, kids: seq<Block>)

  predicate Proper(bs: seq<Block>)
    decreases bs
  {
    bs == [] || (ProperBlock(bs[0]) && Proper(bs[1..]))
  }

  predicate ProperBlock(b: Block)
    decreases b
  {
    match b
    case Leaf(t) => IsLeaf(t)
    case TextBlock(_) => true
    case Quote(kids) => Proper(kids)
    case List(_, items) => ProperItems(items)
  }

  predicate ProperItems(items: seq<Item>)
    decreases items
  {
    items == [] || (Proper(items[0].kids) && ProperItems(items[1..]))
  }

  // ----- flattening -----

  function Flatten(bs: seq<Block>): seq<Token>
    decreases bs
  {
    if bs == [] then [] else FlattenBlock(bs[0]) + Flatten(bs[1..])
  }

  function FlattenBlock(b: Block): seq<Token>
    decreases b
  {
    match b
    case Leaf(t) => [t]
    case TextBlock(s) => [Text(s)]
    case Quote(kids) => [QuoteStart] + Flatten(kids) + [QuoteEnd]
    case List(ordered, items) => [ListStart(ordered)] + FlattenItems(items) + [ListEnd]
  }

  function FlattenItems(items: seq<Item>): seq<Token>
    decreases items
  {
    if items == [] then [] else FlattenItem(items[0]) + FlattenItems(items[1..])
  }

  function FlattenItem(i: Item): seq<Token>
    decreases i
  {
    [ItemStart(i.loose)] + Flatten(i.kids) + [ItemEnd]
  }

  // ----- rendering a tree, block by block -----

  function ShowText(rd: Renderer, s: string, tight: bool): string {
    if tight then rd.inline(s) else rd.paragraph(rd.inline(s))
  }

  function RenderBlock(rd: Renderer, b: Block, tight: bool): string
    decreases b
  {
    match b
    case Leaf(t) => rd.leaf(t)
    case TextBlock(s) => ShowText(rd, s, tight)
    case Quote(kids) => rd.quote(Render(rd, kids, false))
    case List(ordered, items) => rd.list(RenderItems(rd, items), ordered)
  }

  function RenderItems(rd: Renderer, items: seq<Item>): string
    decreases items
  {
    if items == [] then "" else rd.item(Render(rd, items[0].kids, !items[0].loose)) + RenderItems(rd, items[1..])
  }

  /** Siblings one after the other, where a run of adjacent texts is a single text. */
  function Render(rd: Renderer, bs: seq<Block>, tight: bool): string
    decreases bs, 1
  {
    if bs == [] then ""
    else if bs[0].TextBlock? then RenderText(rd, bs[0].text, bs[1..], tight)
    else RenderBlock(rd, bs[0], tight) + Render(rd, bs[1..], tight)
  }

  function RenderText(rd: Renderer, text: string, bs: seq<Block>, tight: bool): string
    decreases bs, 2
  {
    if bs != [] && bs[0].TextBlock? then RenderText(rd, text + "\n" + bs[0].text, bs[1..], tight)
    else ShowText(rd, text, tight) + Render(rd, bs, tight)
  }

  /** The same document with every run of adjacent texts joined into one block. */
  function Join(bs: seq<Block>): seq<Block>
    decreases |bs|
  {
    if bs == [] then []
    else if |bs| >= 2 && bs[0].TextBlock? && bs[1].TextBlock? then
      Join([TextBlock(bs[0].text + "\n" + bs[1].text)] + bs[2..])
    else [bs[0]] + Join(bs[1..])
  }

  predicate Joined(bs: seq<Block>) {
    forall i :: 0 <= i < |bs| - 1 ==> !(bs[i].TextBlock? && bs[i + 1].TextBlock?)
  }

  lemma {:induction false} JoinJoins(bs: seq<Block>)
    ensures Joined(Join(bs)) && (bs != [] ==> Join(bs) != [] && Join(bs)[0].TextBlock? == bs[0].TextBlock?)
    decreases |bs|
  {
    if bs != [] {
      if |bs| >= 2 && bs[0].TextBlock? && bs[1].TextBlock? {
        JoinJoins([TextBlock(bs[0].text + "\n" + bs[1].text)] + bs[2..]);
      } else {
        JoinJoins(bs[1..]);
      }
    }
  }

  /** On a joined list rendering is plain concatenation. */
  function RenderEach(rd: Renderer, bs: seq<Block>, tight: bool): string {
    if bs == [] then "" else RenderBlock(rd, bs[0], tight) + RenderEach(rd, bs[1..], tight)
  }

  lemma {:induction false} RenderJoins(rd: Renderer, bs: seq<Block>, tight: bool)
    ensures Render(rd, bs, tight) == RenderEach(rd, Join(bs), tight)
    decreases |bs|
  {
    if bs != [] {
      if |bs| >= 2 && bs[0].TextBlock? && bs[1].TextBlock? {
        var merged := [TextBlock(bs[0].text + "\n" + bs[1].text)] + bs[2..];
        assert merged[1..] == bs[2..] && bs[1..][1..] == bs[2..];
        RenderJoins(rd, merged, tight);
      } else {
        RenderJoins(rd, bs[1..], tight);
        assert ([bs[0]] + Join(bs[1..]))[1..] == Join(bs[1..]);
      }
    }
  }

  // ----- the parser rebuilds the tree -----

  lemma Regroup(a: seq<Token>, b: seq<Token>, c: seq<Token>)
    ensures a + b + c == a + (b + c)
  {
  }

  predicate EndToken(t: Token) {
    t.QuoteEnd? || t.ListEnd? || t.ItemEnd?
  }

  lemma FirstToken(b: Block)
    requires ProperBlock(b)
    ensures FlattenBlock(b) != [] && !EndToken(FlattenBlock(b)[0])
    ensures FlattenBlock(b)[0].Text? <==> b.TextBlock?
  {
  }

  /** A block that is not a text is one call of `tok`. */
  lemma {:induction false} TokRenders(rd: Renderer, b: Block, rest: seq<Token>)
    requires ProperBlock(b) && !b.TextBlock?
    ensures var ts := FlattenBlock(b) + rest;
            Tok(rd, ts[0], ts[1..]) == Some((RenderBlock(rd, b, false), rest))
    decreases b
  {
    var ts := FlattenBlock(b) + rest;
    match b
    case Leaf(t) => assert ts[1..] == rest;
    case Quote(kids) =>
      assert ts[1..] == Flatten(kids) + ([QuoteEnd] + rest);
      BodyRenders(rd, kids, QuoteEnd, false, rest);
    case List(ordered, items) =>
      assert ts[1..] == FlattenItems(items) + ([ListEnd] + rest);
      ItemsRender(rd, items, rest);
  }

  lemma {:induction false} ItemRenders(rd: Renderer, item: Item, later: seq<Token>)
    requires Proper(item.kids)
    ensures var inner := Flatten(item.kids) + ([ItemEnd] + later);
            Tok(rd, ItemStart(item.loose), inner) == Some((rd.item(Render(rd, item.kids, !item.loose)), later))
    decreases item, 0
  {
    BodyRenders(rd, item.kids, ItemEnd, !item.loose, later);
  }

  lemma {:induction false} ItemsRender(rd: Renderer, items: seq<Item>, rest: seq<Token>)
    requires ProperItems(items)
    ensures Body(rd, ListEnd, false, FlattenItems(items) + ([ListEnd] + rest)) == Some((RenderItems(rd, items), rest))
    decreases items
  {
    var end := [ListEnd] + rest;
    if items == [] {
      assert [] + end == end && end[1..] == rest;
    } else {
      var later := FlattenItems(items[1..]) + end;
      var ts := FlattenItem(items[0]) + later;
      Regroup(FlattenItem(items[0]), FlattenItems(items[1..]), end);
      assert ts[1..] == Flatten(items[0].kids) + ([ItemEnd] + later);
      ItemRenders(rd, items[0], later);
      ItemsRender(rd, items[1..], rest);
    }
  }

  lemma {:induction false} RunRenders(rd: Renderer, text: string, bs: seq<Block>, end: Token, tight: bool, rest: seq<Token>)
    requires Proper(bs) && EndToken(end)
    ensures var ts := Flatten(bs) + ([end] + rest);
            var (whole, after) := TextRun(text, ts);
            Prefix(ShowText(rd, whole, tight), Body(rd, end, tight, after)) == Some((RenderText(rd, text, bs, tight), rest))
    decreases bs, 2
  {
    var ts := Flatten(bs) + ([end] + rest);
    if bs != [] && bs[0].TextBlock? {
      assert FlattenBlock(bs[0]) == [Text(bs[0].text)];
      Regroup([Text(bs[0].text)], Flatten(bs[1..]), [end] + rest);
      assert ts[1..] == Flatten(bs[1..]) + ([end] + rest);
      RunRenders(rd, text + "\n" + bs[0].text, bs[1..], end, tight, rest);
    } else {
      if bs != [] {
        FirstToken(bs[0]);
      } else {
        assert ts == [end] + rest;
      }
      assert TextRun(text, ts) == (text, ts);
      BodyRenders(rd, bs, end, tight, rest);
    }
  }

  /** The loop of a container consumes exactly the tokens of its children and their end token. */
  lemma {:induction false} BodyRenders(rd: Renderer, bs: seq<Block>, end: Token, tight: bool, rest: seq<Token>)
    requires Proper(bs) && EndToken(end)
    ensures Body(rd, end, tight, Flatten(bs) + ([end] + rest)) == Some((Render(rd, bs, tight), rest))
    decreases bs, 1
  {
    var tail := [end] + rest;
    var ts := Flatten(bs) + tail;
    if bs == [] {
      assert ts == tail && tail[1..] == rest;
    } else {
      var later := Flatten(bs[1..]) + tail;
      Regroup(FlattenBlock(bs[0]), Flatten(bs[1..]), tail);
      assert ts == FlattenBlock(bs[0]) + later;
      FirstToken(bs[0]);
      if bs[0].TextBlock? {
        assert ts[1..] == later;
        RunRenders(rd, bs[0].text, bs[1..], end, tight, rest);
      } else {
        TokRenders(rd, bs[0], later);
        BodyRenders(rd, bs[1..], end, tight, rest);
      }
    }
  }

  lemma {:induction false} TopRun(rd: Renderer, text: string, bs: seq<Block>)
    requires Proper(bs)
    ensures var (whole, after) := TextRun(text, Flatten(bs));
            Parse(rd, after).Some? &&
            ShowText(rd, whole, false) + Parse(rd, after).value == RenderText(rd, text, bs, false)
    decreases |bs|, 1
  {
    if bs != [] && bs[0].TextBlock? {
      assert Flatten(bs) == [Text(bs[0].text)] + Flatten(bs[1..]);
      assert Flatten(bs)[1..] == Flatten(bs[1..]);
      TopRun(rd, text + "\n" + bs[0].text, bs[1..]);
    } else {
      if bs != [] {
        FirstToken(bs[0]);
      }
      ParseRenders(rd, bs);
    }
  }

  /** For every document the parser consumes the flat stream exactly and renders the tree it came from. */
  lemma {:induction false} ParseRenders(rd: Renderer, bs: seq<Block>)
    requires Proper(bs)
    ensures Parse(rd, Flatten(bs)) == Some(Render(rd, bs, false))
    decreases |bs|, 0
  {
    if bs != [] {
      var ts, later := Flatten(bs), Flatten(bs[1..]);
      FirstToken(bs[0]);
      if bs[0].TextBlock? {
        assert ts[1..] == later;
        TopRun(rd, bs[0].text, bs[1..]);
      } else {
        TokRenders(rd, bs[0], later);
        ParseRenders(rd, bs[1..]);
      }
    }
  }
}
