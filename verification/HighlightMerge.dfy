/** highlight.js: merging two nested tag streams over one text. */
module HighlightMerge {
  import opened Wrappers

  datatype Node = Node(name: string, attributes: seq<(string, string)>, identity: nat)

  datatype Event = Start(offset: nat, node: Node) | Stop(offset: nat, node: Node)

  /** What the merge writes: tags, and the characters of the text one by one. */
  datatype Token = Open(node: Node) | Close(node: Node) | Char(c: char)

  // ----- the merge, from any state on -----

  /** `t`: does the next event come from the first stream? */
  predicate TakeFirst(x: seq<Event>, v: seq<Event>)
    requires x != [] || v != []
  {
    if x == [] then false
    else if v == [] then true
    else if x[0].offset != v[0].offset then x[0].offset < v[0].offset
    else v[0].Start?
  }

  function Clamp(w: string, p: nat): (q: nat)
    ensures q <= |w|
  {
    if p <= |w| then p else |w|
  }

  function Chars(s: string): (ts: seq<Token>)
    ensures |ts| == |s| && forall i :: 0 <= i < |s| ==> ts[i] == Char(s[i])
  {
    seq(|s|, i requires 0 <= i < |s| => Char(s[i]))
  }

  /** `w.substr(p, q - p)`, empty when q lies before p. */
  function Substr(w: string, p: nat, q: nat): string {
    if Clamp(w, p) <= Clamp(w, q) then w[Clamp(w, p)..Clamp(w, q)] else ""
  }

  function LastIndex(r: seq<Node>, n: Node): (q: Option<nat>)
    ensures q.Some? ==> q.value < |r| && r[q.value] == n && n !in r[q.value + 1..]
    ensures q.None? ==> n !in r
  {
    if r == [] then None
    else if r[|r| - 1] == n then Some(|r| - 1)
    else LastIndex(r[..|r| - 1], n)
  }

  function Closes(r: seq<Node>): seq<Token> {
    if r == [] then [] else [Close(r[|r| - 1])] + Closes(r[..|r| - 1])
  }

  function Opens(r: seq<Node>): seq<Token> {
    if r == [] then [] else [Open(r[0])] + Opens(r[1..])
  }

  /** The stack and the tags of one event. */
  function AfterEvent(r: seq<Node>, u: Event): Option<(seq<Node>, seq<Token>)> {
    match u
    case Start(_, node) => Some((r + [node], [Open(node)]))
    case Stop(_, node) =>
      var q := LastIndex(r, node);
      if q.None? then None
      else Some((r[..q.value] + r[q.value + 1..], Closes(r[q.value..]) + Opens(r[q.value + 1..])))
  }

  /** Everything written from here on; None is the type error raised when `r` runs out. */
  function Merge(w: string, x: seq<Event>, v: seq<Event>, p: nat, r: seq<Node>): Option<seq<Token>>
    decreases |x| + |v|
  {
    if x == [] && v == [] then Some(Chars(w[Clamp(w, p)..]))
    else
      var first := TakeFirst(x, v);
      var u := if first then x[0] else v[0];
      var x', v' := if first then x[1..] else x, if first then v else v[1..];
      var text := Chars(Substr(w, p, u.offset));
      match AfterEvent(r, u)
      case None => None
      case Some((r', tags)) => Then(text + tags, Merge(w, x', v', u.offset, r'))
  }

  function Then(written: seq<Token>, rest: Option<seq<Token>>): Option<seq<Token>> {
    if rest.None? then None else Some(written + rest.value)
  }

  lemma ThenThen(a: seq<Token>, b: seq<Token>, c: seq<Token>, rest: Option<seq<Token>>)
    ensures Then(a, Then(b + c, rest)) == Then(a + b + c, rest)
  {
    if rest.Some? {
      assert a + (b + c + rest.value) == a + b + c + rest.value;
    }
  }

  lemma CloseOneMore(r: seq<Node>, q: nat)
    requires q < |r|
    ensures Closes(r[q..]) == Closes(r[q + 1..]) + [Close(r[q])]
    decreases |r|
  {
    if q + 1 < |r| {
      var init := r[..|r| - 1];
      CloseOneMore(init, q);
      assert r[q..][..|r[q..]| - 1] == init[q..] && r[q + 1..][..|r[q + 1..]| - 1] == init[q + 1..];
    }
  }

  /** Closes open tags, last first, until the node's own tag is closed; None when it is not open. */
  method CloseDown(r: seq<Node>, node: Node) returns (y: seq<Token>, found: Option<nat>)
    ensures found == LastIndex(r, node)
    ensures found.Some? ==> y == Closes(r[found.value..])
  {
    var q := |r|;
    y := [];
    while q > 0
      invariant 0 <= q <= |r| && node !in r[q..] && y == Closes(r[q..])
      decreases q
    {
      q := q - 1;
      CloseOneMore(r, q);
      y := y + [Close(r[q])];
      if r[q] == node {
        return y, Some(q);
      }
    }
    return y, None;
  }

  method Reopen(r: seq<Node>, from: nat) returns (y: seq<Token>)
    requires from <= |r|
    ensures y == Opens(r[from..])
  {
    y := [];
    var q := from;
    while q < |r|
      invariant from <= q <= |r| && y + Opens(r[q..]) == Opens(r[from..])
    {
      assert r[q..][1..] == r[q + 1..];
      assert y + ([Open(r[q])] + Opens(r[q + 1..])) == (y + [Open(r[q])]) + Opens(r[q + 1..]);
      y := y + [Open(r[q])];
      q := q + 1;
    }
    assert r[q..] == [] && y + [] == y;
  }

  /** The stop branch: close down to `node`, drop it, reopen what was above it. */
  method CloseAndReopen(stack: seq<Node>, node: Node) returns (tags: Option<(seq<Token>, seq<Node>)>)
    ensures tags == var k := LastIndex(stack, node);
                    if k.None? then None
                    else Some((Closes(stack[k.value..]) + Opens(stack[k.value + 1..]), stack[..k.value] + stack[k.value + 1..]))
  {
    var closes, found := CloseDown(stack, node);
    if found.None? {
      return None;
    }
    var q := found.value;
    var r := stack[..q] + stack[q + 1..];
    assert r[q..] == stack[q + 1..];
    var opens := Reopen(r, q);
    return Some((closes + opens, r));
  }

  method Apply(r: seq<Node>, u: Event) returns (after: Option<(seq<Node>, seq<Token>)>)
    ensures after == AfterEvent(r, u)
  {
    match u {
      case Start(_, node) =>
        return Some((r + [node], [Open(node)]));
      case Stop(_, node) =>
        var tags :- CloseAndReopen(r, node);
        return Some((tags.1, tags.0));
    }
  }

  /** `j`: the loops as written, over the two streams and the stack `r`. */
  method MergeStreams(first: seq<Event>, second: seq<Event>, w: string) returns (y: Option<seq<Token>>)
    ensures y == Merge(w, first, second, 0, [])
  {
    var x, v, p, r := first, second, 0, [];
    var out := [];
    ghost var all := Merge(w, x, v, p, r);
    assert all == Then(out, all) by { NothingWritten(all); }
    while x != [] || v != []
      invariant all == Then(out, Merge(w, x, v, p, r))
      decreases |x| + |v|
    {
      ghost var x0, v0, p0, r0, was := x, v, p, r, out;
      var u;
      if TakeFirst(x, v) {
        u, x := x[0], x[1..];
      } else {
        u, v := v[0], v[1..];
      }
      var text := Chars(Substr(w, p, u.offset));
      out := out + text;
      p := u.offset;
      var after :- Apply(r, u);
      out := out + after.1;
      r := after.0;
      assert Merge(w, x0, v0, p0, r0) == Then(text + after.1, Merge(w, x, v, p, r));
      ThenThen(was, text, after.1, Merge(w, x, v, p, r));
    }
    return Some(out + Chars(w[Clamp(w, p)..]));
  }

  lemma NothingWritten(rest: Option<seq<Token>>)
    ensures Then([], rest) == rest
  {
    assert rest.Some? ==> [] + rest.value == rest.value;
  }

  // ----- reading tags back -----

  /** A reader of the output: the tags still open, the text, and the nodes open around each character. */
  datatype Reading = Reading(open: seq<Node>, text: string, covers: seq<multiset<Node>>)

  function Read(ts: seq<Token>, open: seq<Node>): (r: Option<Reading>)
    ensures r.Some? ==> |r.value.text| == |r.value.covers|
    decreases |ts|
  {
    if ts == [] then Some(Reading(open, "", []))
    else
      match ts[0]
      case Open(n) => Read(ts[1..], open + [n])
      case Close(n) =>
        if open == [] || open[|open| - 1] != n then None else Read(ts[1..], open[..|open| - 1])
      case Char(c) =>
        var rest :- Read(ts[1..], open);
        Some(Reading(rest.open, [c] + rest.text, [multiset(open)] + rest.covers))
  }

  function Append(a: Option<Reading>, b: Reading): Option<Reading> {
    if a.None? then None else Some(Reading(b.open, a.value.text + b.text, a.value.covers + b.covers))
  }

  lemma Regroup<T>(a: seq<T>, b: seq<T>, c: seq<T>)
    ensures a + b + c == a + (b + c)
  {
  }

  lemma {:induction false} ReadConcat(a: seq<Token>, b: seq<Token>, open: seq<Node>)
    requires Read(a, open).Some? && Read(b, Read(a, open).value.open).Some?
    ensures Read(a + b, open) == Append(Read(a, open), Read(b, Read(a, open).value.open).value)
    decreases |a|
  {
    if a == [] {
      assert a + b == b;
      var r := Read(b, open).value;
      assert "" + r.text == r.text && [] + r.covers == r.covers;
    } else {
      assert (a + b)[0] == a[0] && (a + b)[1..] == a[1..] + b;
      match a[0]
      case Open(n) => ReadConcat(a[1..], b, open + [n]);
      case Close(n) => ReadConcat(a[1..], b, open[..|open| - 1]);
      case Char(c) =>
        ReadConcat(a[1..], b, open);
        var ra := Read(a[1..], open).value;
        var rb := Read(b, ra.open).value;
        Regroup([c], ra.text, rb.text);
        Regroup([multiset(open)], ra.covers, rb.covers);
    }
  }

  lemma {:induction false} ReadChars(s: string, open: seq<Node>)
    ensures Read(Chars(s), open) == Some(Reading(open, s, seq(|s|, i => multiset(open))))
    decreases |s|
  {
    if s == "" {
      assert Chars(s) == [] && seq(0, i => multiset(open)) == [];
    } else {
      assert Chars(s)[1..] == Chars(s[1..]);
      ReadChars(s[1..], open);
      assert [s[0]] + s[1..] == s;
      assert [multiset(open)] + seq(|s| - 1, i => multiset(open)) == seq(|s|, i => multiset(open));
    }
  }

  lemma {:induction false} ReadCloses(below: seq<Node>, r: seq<Node>)
    ensures Read(Closes(r), below + r) == Some(Reading(below, "", []))
    decreases |r|
  {
    if r == [] {
      assert below + r == below;
    } else {
      var init := r[..|r| - 1];
      assert (below + r)[..|below + r| - 1] == below + init;
      assert Closes(r)[1..] == Closes(init);
      ReadCloses(below, init);
    }
  }

  lemma {:induction false} ReadOpens(below: seq<Node>, r: seq<Node>)
    ensures Read(Opens(r), below) == Some(Reading(below + r, "", []))
    decreases |r|
  {
    if r == [] {
      assert below + r == below;
    } else {
      assert Opens(r)[1..] == Opens(r[1..]);
      assert below + [r[0]] + r[1..] == below + r;
      ReadOpens(below + [r[0]], r[1..]);
    }
  }

  /** Closing down to position q and reopening the rest leaves the stack without that one node. */
  lemma ReadReopening(r: seq<Node>, q: nat)
    requires q < |r|
    ensures Read(Closes(r[q..]) + Opens(r[q + 1..]), r) == Some(Reading(r[..q] + r[q + 1..], "", []))
  {
    assert r[..q] + r[q..] == r;
    ReadCloses(r[..q], r[q..]);
    ReadOpens(r[..q], r[q + 1..]);
    ReadConcat(Closes(r[q..]), Opens(r[q + 1..]), r);
  }

  // ----- the streams -----

  /** Started from `stack`, every stop closes the innermost open node and nothing stays open. */
  predicate Nested(es: seq<Event>, stack: seq<Node>)
    decreases |es|
  {
    if es == [] then stack == []
    else
      match es[0]
      case Start(_, n) => Nested(es[1..], stack + [n])
      case Stop(_, n) => stack != [] && stack[|stack| - 1] == n && Nested(es[1..], stack[..|stack| - 1])
  }

  predicate Sorted(es: seq<Event>, p: nat)
    decreases |es|
  {
    es == [] || (p <= es[0].offset && Sorted(es[1..], es[0].offset))
  }

  function Shift(e: Event, stack: seq<Node>): seq<Node> {
    match e
    case Start(_, n) => stack + [n]
    case Stop(_, _) => if stack == [] then [] else stack[..|stack| - 1]
  }

  /** The nodes of one stream around character i: all its events up to offset i have happened. */
  function Around(es: seq<Event>, stack: seq<Node>, i: nat): seq<Node>
    decreases |es|
  {
    if es == [] || es[0].offset > i then stack else Around(es[1..], Shift(es[0], stack), i)
  }

  /** From offset p on, each character is covered by the open elements of both streams. */
  ghost predicate Covers(covers: seq<multiset<Node>>, w: string, p: nat, x: seq<Event>, sx: seq<Node>, v: seq<Event>, sv: seq<Node>) {
    && |covers| == |w| - Clamp(w, p)
    && forall i :: Clamp(w, p) <= i < |w| ==> covers[i - Clamp(w, p)] == multiset(Around(x, sx, i)) + multiset(Around(v, sv, i))
  }

  /** Reading `ts` closes everything, spells w from p on, and shows both streams around every character. */
  ghost predicate Faithful(w: string, ts: seq<Token>, r: seq<Node>, p: nat, x: seq<Event>, sx: seq<Node>, v: seq<Event>, sv: seq<Node>) {
    && Read(ts, r).Some?
    && Read(ts, r).value.open == []
    && Read(ts, r).value.text == w[Clamp(w, p)..]
    && Covers(Read(ts, r).value.covers, w, p, x, sx, v, sv)
  }

  lemma AroundBefore(es: seq<Event>, stack: seq<Node>, p: nat, i: nat)
    requires Sorted(es, p) && i < p
    ensures Around(es, stack, i) == stack
  {
  }

  lemma RoundCovers(w: string, p: nat, q: nat, r: seq<Node>, later: seq<multiset<Node>>,
                    x: seq<Event>, sx: seq<Node>, v: seq<Event>, sv: seq<Node>,
                    x': seq<Event>, sx': seq<Node>, v': seq<Event>, sv': seq<Node>)
    requires p <= q && multiset(r) == multiset(sx) + multiset(sv)
    requires Covers(later, w, q, x', sx', v', sv')
    requires forall i :: p <= i < q ==> Around(x, sx, i) == sx && Around(v, sv, i) == sv
    requires forall i :: q <= i ==> Around(x, sx, i) == Around(x', sx', i) && Around(v, sv, i) == Around(v', sv', i)
    ensures Covers(seq(|Substr(w, p, q)|, i => multiset(r)) + later, w, p, x, sx, v, sv)
  {
    var covers := seq(|Substr(w, p, q)|, i => multiset(r)) + later;
    forall i | Clamp(w, p) <= i < |w|
      ensures covers[i - Clamp(w, p)] == multiset(Around(x, sx, i)) + multiset(Around(v, sv, i))
    {
      if i >= q {
        assert covers[i - Clamp(w, p)] == later[i - Clamp(w, q)];
      }
    }
  }

  /** One round of the loop: the text before the event, its tags, and then a faithful rest. */
  lemma Round(w: string, p: nat, q: nat, r: seq<Node>, tags: seq<Token>, r': seq<Node>, rest: seq<Token>,
              x: seq<Event>, sx: seq<Node>, v: seq<Event>, sv: seq<Node>,
              x': seq<Event>, sx': seq<Node>, v': seq<Event>, sv': seq<Node>)
    requires p <= q && multiset(r) == multiset(sx) + multiset(sv)
    requires Read(tags, r) == Some(Reading(r', "", []))
    requires Faithful(w, rest, r', q, x', sx', v', sv')
    requires forall i :: p <= i < q ==> Around(x, sx, i) == sx && Around(v, sv, i) == sv
    requires forall i :: q <= i ==> Around(x, sx, i) == Around(x', sx', i) && Around(v, sv, i) == Around(v', sv', i)
    ensures Faithful(w, Chars(Substr(w, p, q)) + tags + rest, r, p, x, sx, v, sv)
  {
    var text := Substr(w, p, q);
    RoundReads(text, tags, rest, r, r');
    assert text + w[Clamp(w, q)..] == w[Clamp(w, p)..];
    RoundCovers(w, p, q, r, Read(rest, r').value.covers, x, sx, v, sv, x', sx', v', sv');
  }

  lemma RoundReads(text: string, tags: seq<Token>, rest: seq<Token>, r: seq<Node>, r': seq<Node>)
    requires Read(tags, r) == Some(Reading(r', "", [])) && Read(rest, r').Some?
    ensures var all, later := Read(Chars(text) + tags + rest, r), Read(rest, r').value;
            all == Some(Reading(later.open, text + later.text, seq(|text|, i => multiset(r)) + later.covers))
  {
    ReadChars(text, r);
    ReadConcat(Chars(text), tags, r);
    ReadConcat(Chars(text) + tags, rest, r);
    var covers := seq(|text|, i => multiset(r));
    assert text + "" == text && covers + [] == covers;
  }

  /** The streams and their stacks after the event that is taken first. */
  predicate Taken(x: seq<Event>, sx: seq<Node>, v: seq<Event>, sv: seq<Node>, u: Event,
                  x': seq<Event>, sx': seq<Node>, v': seq<Event>, sv': seq<Node>)
  {
    && (x != [] || v != [])
    && if TakeFirst(x, v) then x != [] && u == x[0] && x' == x[1..] && v' == v && sx' == Shift(u, sx) && sv' == sv
       else v != [] && u == v[0] && x' == x && v' == v[1..] && sx' == sx && sv' == Shift(u, sv)
  }

  lemma TakenRound(w: string, p: nat, r: seq<Node>, u: Event, tags: seq<Token>, r': seq<Node>, rest: seq<Token>, ts: seq<Token>,
                   x: seq<Event>, sx: seq<Node>, v: seq<Event>, sv: seq<Node>,
                   x': seq<Event>, sx': seq<Node>, v': seq<Event>, sv': seq<Node>)
    requires Taken(x, sx, v, sv, u, x', sx', v', sv') && Sorted(x, p) && Sorted(v, p) && multiset(r) == multiset(sx) + multiset(sv)
    requires Read(tags, r) == Some(Reading(r', "", [])) && Faithful(w, rest, r', u.offset, x', sx', v', sv')
    requires ts == Chars(Substr(w, p, u.offset)) + tags + rest
    ensures Faithful(w, ts, r, p, x, sx, v, sv)
  {
    assert Sorted(x, u.offset) && Sorted(v, u.offset);
    forall i | p <= i < u.offset ensures Around(x, sx, i) == sx && Around(v, sv, i) == sv {
      AroundBefore(x, sx, u.offset, i);
      AroundBefore(v, sv, u.offset, i);
    }
    Round(w, p, u.offset, r, tags, r', rest, x, sx, v, sv, x', sx', v', sv');
  }

  lemma {:induction false} MergeStep(w: string, x: seq<Event>, v: seq<Event>, p: nat, r: seq<Node>, u: Event, r': seq<Node>, tags: seq<Token>,
                                     sx: seq<Node>, sv: seq<Node>, x': seq<Event>, sx': seq<Node>, v': seq<Event>, sv': seq<Node>)
    returns (ts: seq<Token>)
    requires Taken(x, sx, v, sv, u, x', sx', v', sv') && AfterEvent(r, u) == Some((r', tags)) && Merge(w, x', v', u.offset, r').Some?
    ensures ts == Chars(Substr(w, p, u.offset)) + tags + Merge(w, x', v', u.offset, r').value
    ensures Merge(w, x, v, p, r) == Some(ts)
  {
    ts := Chars(Substr(w, p, u.offset)) + tags + Merge(w, x', v', u.offset, r').value;
  }

  lemma NothingLeft(w: string, p: nat, r: seq<Node>, sx: seq<Node>, sv: seq<Node>)
    requires Nested([], sx) && Nested([], sv) && multiset(r) == multiset(sx) + multiset(sv)
    ensures Merge(w, [], [], p, r) == Some(Chars(w[Clamp(w, p)..])) && Faithful(w, Chars(w[Clamp(w, p)..]), r, p, [], sx, [], sv)
  {
    ReadChars(w[Clamp(w, p)..], r);
    assert |multiset(r)| == |r| == 0;
  }

  lemma {:induction false} MergeFaithful(w: string, x: seq<Event>, v: seq<Event>, p: nat, r: seq<Node>, sx: seq<Node>, sv: seq<Node>)
    requires Nested(x, sx) && Nested(v, sv) && Sorted(x, p) && Sorted(v, p)
    requires multiset(r) == multiset(sx) + multiset(sv)
    ensures var ts := Merge(w, x, v, p, r);
            ts.Some? && Faithful(w, ts.value, r, p, x, sx, v, sv)
    decreases |x| + |v|
  {
    if x == [] && v == [] {
      NothingLeft(w, p, r, sx, sv);
    } else {
      var first := TakeFirst(x, v);
      var u := if first then x[0] else v[0];
      var x', v' := if first then x[1..] else x, if first then v else v[1..];
      var sx', sv' := if first then Shift(u, sx) else sx, if first then sv else Shift(u, sv);
      EventReads(r, sx, sv, first, u);
      var r', tags := AfterEvent(r, u).value.0, AfterEvent(r, u).value.1;
      MergeFaithful(w, x', v', u.offset, r', sx', sv');
      var ts := MergeStep(w, x, v, p, r, u, r', tags, sx, sv, x', sx', v', sv');
      TakenRound(w, p, r, u, tags, r', Merge(w, x', v', u.offset, r').value, ts, x, sx, v, sv, x', sx', v', sv');
    }
  }

  lemma Without(s: seq<Node>, q: nat)
    requires q < |s|
    ensures multiset(s[..q] + s[q + 1..]) == multiset(s) - multiset{s[q]}
  {
    assert s == s[..q] + [s[q]] + s[q + 1..];
  }

  lemma LastFound(r: seq<Node>, node: Node)
    requires node in multiset(r)
    ensures LastIndex(r, node).Some?
  {
  }

  lemma MinusFromSum<T>(a: multiset<T>, b: multiset<T>, n: T)
    requires n in a
    ensures (a + b) - multiset{n} == (a - multiset{n}) + b && (b + a) - multiset{n} == b + (a - multiset{n})
  {
  }

  lemma StopReads(r: seq<Node>, s: seq<Node>, other: multiset<Node>, node: Node)
    requires multiset(r) == multiset(s) + other && s != [] && s[|s| - 1] == node
    ensures var q := LastIndex(r, node);
            && q.Some?
            && multiset(r[..q.value] + r[q.value + 1..]) == multiset(s[..|s| - 1]) + other
  {
    Without(s, |s| - 1);
    assert s[..|s| - 1] + s[|s|..] == s[..|s| - 1];
    assert s[|s| - 1] in s;
    LastFound(r, node);
    Without(r, LastIndex(r, node).value);
    MinusFromSum(multiset(s), other, node);
  }

  /** One event of a stream whose stack is s, while the other stream has `other` open. */
  lemma OwnEventReads(r: seq<Node>, s: seq<Node>, other: multiset<Node>, u: Event)
    requires multiset(r) == multiset(s) + other
    requires u.Stop? ==> s != [] && s[|s| - 1] == u.node
    ensures AfterEvent(r, u).Some?
    ensures Read(AfterEvent(r, u).value.1, r) == Some(Reading(AfterEvent(r, u).value.0, "", []))
    ensures multiset(AfterEvent(r, u).value.0) == multiset(Shift(u, s)) + other
  {
    match u
    case Start(_, node) =>
    case Stop(_, node) =>
      StopReads(r, s, other, node);
      ReadReopening(r, LastIndex(r, node).value);
  }

  /** The node to close is open, and one event keeps the stack the union of the two streams' stacks. */
  lemma EventReads(r: seq<Node>, sx: seq<Node>, sv: seq<Node>, first: bool, u: Event)
    requires multiset(r) == multiset(sx) + multiset(sv)
    requires u.Stop? ==> var s := if first then sx else sv; s != [] && s[|s| - 1] == u.node
    ensures AfterEvent(r, u).Some?
    ensures Read(AfterEvent(r, u).value.1, r) == Some(Reading(AfterEvent(r, u).value.0, "", []))
    ensures multiset(AfterEvent(r, u).value.0) ==
            if first then multiset(Shift(u, sx)) + multiset(sv) else multiset(sx) + multiset(Shift(u, sv))
  {
    if first {
      OwnEventReads(r, sx, multiset(sv), u);
    } else {
      OwnEventReads(r, sv, multiset(sx), u);
    }
  }

  /** Nothing stays open, the text is the whole text, and each character has both streams' open elements around it. */
  ghost predicate Renders(ts: Option<seq<Token>>, w: string, x: seq<Event>, v: seq<Event>) {
    ts.Some? && Faithful(w, ts.value, [], 0, x, [], v, [])
  }

  lemma RendersAll(ts: seq<Token>, w: string, x: seq<Event>, v: seq<Event>)
    requires Renders(Some(ts), w, x, v)
    ensures Read(ts, []).Some? && Read(ts, []).value.open == [] && Read(ts, []).value.text == w
    ensures forall i :: 0 <= i < |w| ==> Read(ts, []).value.covers[i] == multiset(Around(x, [], i)) + multiset(Around(v, [], i))
  {
    assert w[0..] == w;
    forall i | 0 <= i < |w|
      ensures Read(ts, []).value.covers[i] == multiset(Around(x, [], i)) + multiset(Around(v, [], i))
    {
      assert Read(ts, []).value.covers[i - Clamp(w, 0)] == multiset(Around(x, [], i)) + multiset(Around(v, [], i));
    }
  }

  /** Merging two nested, ordered streams never fails and loses nothing of the text or of either stream. */
  lemma MergeCorrect(w: string, x: seq<Event>, v: seq<Event>)
    requires Nested(x, []) && Nested(v, []) && Sorted(x, 0) && Sorted(v, 0)
    ensures Renders(Merge(w, x, v, 0, []), w, x, v)
  {
    MergeFaithful(w, x, v, 0, [], [], []);
  }

  // ----- events at one offset -----

  lemma StepGives(w: string, x: seq<Event>, v: seq<Event>, p: nat, r: seq<Node>, u: Event, x': seq<Event>, v': seq<Event>,
                  r': seq<Node>, tags: seq<Token>, rest: seq<Token>)
    requires x != [] || v != []
    requires if TakeFirst(x, v) then x != [] && u == x[0] && x' == x[1..] && v' == v else v != [] && u == v[0] && x' == x && v' == v[1..]
    requires AfterEvent(r, u) == Some((r', tags)) && Merge(w, x', v', u.offset, r') == Some(rest) && p <= u.offset <= |w|
    ensures Merge(w, x, v, p, r) == Some(Chars(w[p..u.offset]) + tags + rest)
  {
  }

  lemma CloseTop(below: seq<Node>, n: Node)
    ensures AfterEvent(below + [n], Stop(0, n)) == Some((below, [Close(n)]))
  {
    var r := below + [n];
    assert r[..|r| - 1] == below && r[|r| - 1..] == [n] && r[|r|..] == [] && below + [] == below;
    assert Closes([n]) == [Close(n)] by { assert [n][..0] == []; }
  }

  lemma LastClosed(w: string, p: nat, q: nat, a: Node)
    requires p <= q <= |w|
    ensures Merge(w, [Stop(q, a)], [], p, [a]) == Some(Chars(w[p..q]) + [Close(a)] + Chars(w[q..]))
  {
    CloseTop([], a);
    assert [] + [a] == [a];
    StepGives(w, [Stop(q, a)], [], p, [a], Stop(q, a), [], [], [], [Close(a)], Chars(w[q..]));
  }

  lemma BothClosed(w: string, p: nat, q: nat, a: Node, b: Node)
    requires p <= q <= |w|
    ensures Merge(w, [Stop(q, a)], [Stop(q, b)], p, [a, b]) == Some(Chars(w[p..q]) + [Close(b), Close(a)] + Chars(w[q..]))
  {
    LastClosed(w, q, q, a);
    CloseTop([a], b);
    assert [a] + [b] == [a, b];
    var rest := Chars(w[q..q]) + [Close(a)] + Chars(w[q..]);
    StepGives(w, [Stop(q, a)], [Stop(q, b)], p, [a, b], Stop(q, b), [Stop(q, a)], [], [a], [Close(b)], rest);
    assert Chars(w[p..q]) + [Close(b)] + rest == Chars(w[p..q]) + [Close(b), Close(a)] + Chars(w[q..]);
  }

  lemma Spread<T>(a: seq<T>, none: seq<T>, x: T, y: T, b: seq<T>)
    requires none == []
    ensures a + [x] + (none + [y] + b) == a + [x, y] + b
  {
  }

  lemma BothOpened(w: string, p: nat, q: nat, a: Node, b: Node, inner: seq<Token>)
    requires p < q <= |w| && Merge(w, [Stop(q, a)], [Stop(q, b)], p, [a, b]) == Some(inner)
    ensures Merge(w, [Start(p, a), Stop(q, a)], [Start(p, b), Stop(q, b)], 0, []) == Some(Chars(w[..p]) + [Open(a), Open(b)] + inner)
  {
    var x, v, x1, v1 := [Start(p, a), Stop(q, a)], [Start(p, b), Stop(q, b)], [Stop(q, a)], [Stop(q, b)];
    assert x[1..] == x1 && v[1..] == v1 && [] + [a] == [a] && [a] + [b] == [a, b];
    var none := Chars(w[p..p]);
    StepGives(w, x1, v, p, [a], Start(p, b), x1, v1, [a, b], [Open(b)], inner);
    StepGives(w, x, v, 0, [], Start(p, a), x1, v, [a], [Open(a)], none + [Open(b)] + inner);
    Spread(Chars(w[..p]), none, Open(a), Open(b), inner);
  }

  /** One element of each stream over the same stretch: the first stream's is outside, and neither is reopened. */
  lemma SameStretch(w: string, p: nat, q: nat, a: Node, b: Node)
    requires p < q <= |w|
    ensures var inner := Chars(w[p..q]) + [Close(b), Close(a)] + Chars(w[q..]);
            Merge(w, [Start(p, a), Stop(q, a)], [Start(p, b), Stop(q, b)], 0, []) == Some(Chars(w[..p]) + [Open(a), Open(b)] + inner)
  {
    BothClosed(w, p, q, a, b);
    BothOpened(w, p, q, a, b, Chars(w[p..q]) + [Close(b), Close(a)] + Chars(w[q..]));
  }

  lemma FirstOpened(w: string, p: nat, q: nat, s: nat, a: Node, b: Node, inner: seq<Token>)
    requires p < q < s <= |w|
    requires Merge(w, [Stop(q, a)], [Start(q, b), Stop(s, b)], p, [a]) == Some(inner)
    requires Merge(w, [Start(q, b), Stop(s, b)], [Stop(q, a)], p, [a]) == Some(inner)
    ensures Merge(w, [Start(p, a), Stop(q, a)], [Start(q, b), Stop(s, b)], 0, []) == Some(Chars(w[..p]) + [Open(a)] + inner)
    ensures Merge(w, [Start(q, b), Stop(s, b)], [Start(p, a), Stop(q, a)], 0, []) == Some(Chars(w[..p]) + [Open(a)] + inner)
  {
    var one, two := [Start(p, a), Stop(q, a)], [Start(q, b), Stop(s, b)];
    assert one[1..] == [Stop(q, a)] && [] + [a] == [a];
    StepGives(w, one, two, 0, [], Start(p, a), [Stop(q, a)], two, [a], [Open(a)], inner);
    StepGives(w, two, one, 0, [], Start(p, a), two, [Stop(q, a)], [a], [Open(a)], inner);
  }

  /** Where one element ends and the other stream's begins, the first is closed before the second is opened. */
  lemma NextStretch(w: string, p: nat, q: nat, s: nat, a: Node, b: Node)
    requires p < q < s <= |w|
    ensures var last := Chars(w[q..s]) + [Close(b)] + Chars(w[s..]);
            var ts := Some(Chars(w[..p]) + [Open(a)] + (Chars(w[p..q]) + [Close(a), Open(b)] + last));
            && Merge(w, [Start(p, a), Stop(q, a)], [Start(q, b), Stop(s, b)], 0, []) == ts
            && Merge(w, [Start(q, b), Stop(s, b)], [Start(p, a), Stop(q, a)], 0, []) == ts
  {
    var last := Chars(w[q..s]) + [Close(b)] + Chars(w[s..]);
    SecondStretch(w, q, s, b);
    Touching(w, p, q, s, a, b, last);
    FirstOpened(w, p, q, s, a, b, Chars(w[p..q]) + [Close(a), Open(b)] + last);
  }

  lemma SecondStretch(w: string, q: nat, s: nat, b: Node)
    requires q < s <= |w|
    ensures var last := Chars(w[q..s]) + [Close(b)] + Chars(w[s..]);
            && Merge(w, [Start(q, b), Stop(s, b)], [], q, []) == Some(Chars(w[q..q]) + [Open(b)] + last)
            && Merge(w, [], [Start(q, b), Stop(s, b)], q, []) == Some(Chars(w[q..q]) + [Open(b)] + last)
  {
    var last := Chars(w[q..s]) + [Close(b)] + Chars(w[s..]);
    StopAlone(w, q, s, b);
    StartAlone(w, q, s, b, last);
  }

  lemma StopAlone(w: string, q: nat, s: nat, b: Node)
    requires q <= s <= |w|
    ensures var last := Chars(w[q..s]) + [Close(b)] + Chars(w[s..]);
            Merge(w, [Stop(s, b)], [], q, [b]) == Some(last) && Merge(w, [], [Stop(s, b)], q, [b]) == Some(last)
  {
    CloseTop([], b);
    assert [] + [b] == [b];
    StepGives(w, [Stop(s, b)], [], q, [b], Stop(s, b), [], [], [], [Close(b)], Chars(w[s..]));
    StepGives(w, [], [Stop(s, b)], q, [b], Stop(s, b), [], [], [], [Close(b)], Chars(w[s..]));
  }

  lemma StartAlone(w: string, q: nat, s: nat, b: Node, last: seq<Token>)
    requires q < s <= |w|
    requires Merge(w, [Stop(s, b)], [], q, [b]) == Some(last) && Merge(w, [], [Stop(s, b)], q, [b]) == Some(last)
    ensures Merge(w, [Start(q, b), Stop(s, b)], [], q, []) == Some(Chars(w[q..q]) + [Open(b)] + last)
    ensures Merge(w, [], [Start(q, b), Stop(s, b)], q, []) == Some(Chars(w[q..q]) + [Open(b)] + last)
  {
    var two, two1 := [Start(q, b), Stop(s, b)], [Stop(s, b)];
    assert two[1..] == two1 && [] + [b] == [b];
    StepGives(w, two, [], q, [], Start(q, b), two1, [], [b], [Open(b)], last);
    StepGives(w, [], two, q, [], Start(q, b), [], two1, [b], [Open(b)], last);
  }

  lemma Touching(w: string, p: nat, q: nat, s: nat, a: Node, b: Node, last: seq<Token>)
    requires p < q < s <= |w|
    requires Merge(w, [Start(q, b), Stop(s, b)], [], q, []) == Some(Chars(w[q..q]) + [Open(b)] + last)
    requires Merge(w, [], [Start(q, b), Stop(s, b)], q, []) == Some(Chars(w[q..q]) + [Open(b)] + last)
    ensures Merge(w, [Stop(q, a)], [Start(q, b), Stop(s, b)], p, [a]) == Some(Chars(w[p..q]) + [Close(a), Open(b)] + last)
    ensures Merge(w, [Start(q, b), Stop(s, b)], [Stop(q, a)], p, [a]) == Some(Chars(w[p..q]) + [Close(a), Open(b)] + last)
  {
    var two, later := [Start(q, b), Stop(s, b)], Chars(w[q..q]) + [Open(b)] + last;
    CloseTop([], a);
    assert [] + [a] == [a];
    StepGives(w, [Stop(q, a)], two, p, [a], Stop(q, a), [], two, [], [Close(a)], later);
    StepGives(w, two, [Stop(q, a)], p, [a], Stop(q, a), two, [], [], [Close(a)], later);
    Spread(Chars(w[p..q]), Chars(w[q..q]), Close(a), Open(b), last);
  }
}
