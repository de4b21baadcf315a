/** highlight.js: the tag stream of a DOM tree, the escaping of text, and the merge of two trees. */
module HighlightStream {
  import opened HighlightMerge
  import opened Texts

  datatype Dom = Element(node: Node, kids: seq<Dom>) | TextNode(text: string) | Break | Ignored

  /** The events of the children of an element whose text starts at offset s, and the offset after it. */
  function Stream(kids: seq<Dom>, s: nat): (seq<Event>, nat)
    decreases kids
  {
    if kids == [] then ([], s)
    else
      var (first, s1) := StreamOne(kids[0], s);
      var (rest, s2) := Stream(kids[1..], s1);
      (first + rest, s2)
  }

  function StreamOne(t: Dom, s: nat): (seq<Event>, nat)
    decreases t
  {
    match t
    case TextNode(text) => ([], s + |text|)
    case Break => ([], s + 1)
    case Ignored => ([], s)
    case Element(node, kids) =>
      var (inner, s1) := Stream(kids, s);
      ([Start(s, node)] + inner + [Stop(s1, node)], s1)
  }

  // ----- the text of a tree -----

  /** The text nodes in order, and a newline for each line break. */
  function PlainText(kids: seq<Dom>): string
    decreases kids
  {
    if kids == [] then "" else PlainOne(kids[0]) + PlainText(kids[1..])
  }

  function PlainOne(t: Dom): string
    decreases t
  {
    match t
    case TextNode(text) => text
    case Break => "\n"
    case Ignored => ""
    case Element(_, kids) => PlainText(kids)
  }

  /** The elements that contain character i of that text, outermost first. */
  function Ancestors(kids: seq<Dom>, i: nat): seq<Node>
    decreases kids
  {
    if kids == [] then []
    else if i < |PlainOne(kids[0])| then AncestorsOne(kids[0], i)
    else Ancestors(kids[1..], i - |PlainOne(kids[0])|)
  }

  function AncestorsOne(t: Dom, i: nat): seq<Node>
    decreases t
  {
    if t.Element? then [t.node] + Ancestors(t.kids, i) else []
  }

  /** Offsets count the characters of the text. */
  lemma {:induction false} OffsetsCount(kids: seq<Dom>, s: nat)
    ensures Stream(kids, s).1 == s + |PlainText(kids)|
    decreases kids
  {
    if kids != [] {
      OneCounts(kids[0], s);
      OffsetsCount(kids[1..], s + |PlainOne(kids[0])|);
    }
  }

  lemma {:induction false} OneCounts(t: Dom, s: nat)
    ensures StreamOne(t, s).1 == s + |PlainOne(t)|
    decreases t
  {
    if t.Element? {
      OffsetsCount(t.kids, s);
    }
  }

  /** `c`: the recursive walk pushes every event on one shared list. */
  class NodeStream {
    var events: seq<Event>

    constructor ()
      ensures events == []
    {
      events := [];
    }

    method Walk(kids: seq<Dom>, offset: nat) returns (s: nat)
      modifies this
      ensures events == old(events) + Stream(kids, offset).0 && s == Stream(kids, offset).1
      ensures s == offset + |PlainText(kids)|
      decreases kids
    {
      OffsetsCount(kids, offset);
      s := offset;
      var i := 0;
      while i < |kids|
        invariant 0 <= i <= |kids|
        invariant events + Stream(kids[i..], s).0 == old(events) + Stream(kids, offset).0
        invariant Stream(kids[i..], s).1 == Stream(kids, offset).1
      {
        ghost var before, s0 := events, s;
        assert kids[i..][1..] == kids[i + 1..];
        match kids[i] {
          case TextNode(text) => s := s + |text|;
          case Break => s := s + 1;
          case Ignored =>
          case Element(node, inner) =>
            events := events + [Start(s, node)];
            s := Walk(inner, s);
            events := events + [Stop(s, node)];
            assert events == before + ([Start(s0, node)] + Stream(inner, s0).0 + [Stop(s, node)]);
        }
        assert events == before + StreamOne(kids[i], s0).0;
        Regroup(before, StreamOne(kids[i], s0).0, Stream(kids[i + 1..], s).0);
        i := i + 1;
      }
    }
  }

  lemma {:induction false} StreamNests(kids: seq<Dom>, s: nat, rest: seq<Event>, stack: seq<Node>)
    ensures Nested(Stream(kids, s).0 + rest, stack) == Nested(rest, stack)
    decreases kids
  {
    if kids == [] {
      assert [] + rest == rest;
    } else {
      var (first, s1) := StreamOne(kids[0], s);
      var later := Stream(kids[1..], s1).0;
      Regroup(first, later, rest);
      OneNests(kids[0], s, later + rest, stack);
      StreamNests(kids[1..], s1, rest, stack);
    }
  }

  lemma {:induction false} OneNests(t: Dom, s: nat, rest: seq<Event>, stack: seq<Node>)
    ensures Nested(StreamOne(t, s).0 + rest, stack) == Nested(rest, stack)
    decreases t
  {
    if t.Element? {
      var (inner, s1) := Stream(t.kids, s);
      var tail := [Stop(s1, t.node)] + rest;
      StreamNests(t.kids, s, tail, stack + [t.node]);
      var whole := [Start(s, t.node)] + inner + [Stop(s1, t.node)] + rest;
      assert whole[0] == Start(s, t.node) && whole[1..] == inner + tail;
      assert tail[1..] == rest && (stack + [t.node])[..|stack|] == stack;
    } else {
      assert [] + rest == rest;
    }
  }

  lemma {:induction false} StreamSorts(kids: seq<Dom>, s: nat, rest: seq<Event>)
    requires Sorted(rest, Stream(kids, s).1)
    ensures s <= Stream(kids, s).1 && Sorted(Stream(kids, s).0 + rest, s)
    decreases kids
  {
    if kids == [] {
      assert [] + rest == rest;
    } else {
      var (first, s1) := StreamOne(kids[0], s);
      var later := Stream(kids[1..], s1).0;
      Regroup(first, later, rest);
      StreamSorts(kids[1..], s1, rest);
      OneSorts(kids[0], s, later + rest);
    }
  }

  lemma {:induction false} OneSorts(t: Dom, s: nat, rest: seq<Event>)
    requires Sorted(rest, StreamOne(t, s).1)
    ensures s <= StreamOne(t, s).1 && Sorted(StreamOne(t, s).0 + rest, s)
    decreases t
  {
    if t.Element? {
      var (inner, s1) := Stream(t.kids, s);
      var tail := [Stop(s1, t.node)] + rest;
      assert tail[1..] == rest;
      StreamSorts(t.kids, s, tail);
      var whole := [Start(s, t.node)] + inner + [Stop(s1, t.node)] + rest;
      assert whole[0] == Start(s, t.node) && whole[1..] == inner + tail;
    } else {
      assert [] + rest == rest;
    }
  }

  /** Inside the forest the stream has open just the elements around character i, outermost first; from its end on, what follows it. */
  lemma {:induction false} StreamShows(kids: seq<Dom>, s: nat, rest: seq<Event>, stack: seq<Node>, i: nat)
    requires s <= i && Sorted(rest, s + |PlainText(kids)|)
    ensures Around(Stream(kids, s).0 + rest, stack, i) ==
            if i < s + |PlainText(kids)| then stack + Ancestors(kids, i - s) else Around(rest, stack, i)
    decreases kids
  {
    if kids == [] {
      assert [] + rest == rest;
    } else {
      var s1 := s + |PlainOne(kids[0])|;
      OneCounts(kids[0], s);
      OffsetsCount(kids[1..], s1);
      var first, later := StreamOne(kids[0], s).0, Stream(kids[1..], s1).0;
      Regroup(first, later, rest);
      StreamSorts(kids[1..], s1, rest);
      OneShows(kids[0], s, later + rest, stack, i);
      if s1 <= i {
        StreamShows(kids[1..], s1, rest, stack, i);
      }
    }
  }

  lemma {:induction false} OneShows(t: Dom, s: nat, rest: seq<Event>, stack: seq<Node>, i: nat)
    requires s <= i && Sorted(rest, s + |PlainOne(t)|)
    ensures Around(StreamOne(t, s).0 + rest, stack, i) ==
            if i < s + |PlainOne(t)| then stack + AncestorsOne(t, i - s) else Around(rest, stack, i)
    decreases t
  {
    OneCounts(t, s);
    if t.Element? {
      ElementShows(t, s, rest, stack, i);
    } else {
      assert [] + rest == rest;
      if i < s + |PlainOne(t)| {
        assert Around(rest, stack, i) == stack;
        assert stack + [] == stack;
      }
    }
  }

  lemma {:induction false} ElementShows(t: Dom, s: nat, rest: seq<Event>, stack: seq<Node>, i: nat)
    requires t.Element? && s <= i && Sorted(rest, s + |PlainText(t.kids)|)
    ensures Around(StreamOne(t, s).0 + rest, stack, i) ==
            if i < s + |PlainText(t.kids)| then stack + [t.node] + Ancestors(t.kids, i - s) else Around(rest, stack, i)
    decreases t, 0
  {
    var (inner, s1) := Stream(t.kids, s);
    OffsetsCount(t.kids, s);
    var tail, open := [Stop(s1, t.node)] + rest, stack + [t.node];
    assert tail[1..] == rest && open[..|stack|] == stack;
    StreamShows(t.kids, s, tail, open, i);
    var whole := StreamOne(t, s).0 + rest;
    assert whole[0] == Start(s, t.node) && whole[1..] == inner + tail;
    assert Around(whole, stack, i) == Around(inner + tail, open, i);
  }

  /** Around a character of the text the stream has open the elements that contain it, and none beyond the text. */
  lemma AroundIsAncestors(kids: seq<Dom>, i: nat)
    ensures Around(Stream(kids, 0).0, [], i) == Ancestors(kids, i)
  {
    var events := Stream(kids, 0).0;
    assert events + [] == events;
    StreamShows(kids, 0, [], [], i);
    if |PlainText(kids)| <= i {
      NoneBeyond(kids, i);
    }
  }

  lemma {:induction false} NoneBeyond(kids: seq<Dom>, i: nat)
    requires |PlainText(kids)| <= i
    ensures Ancestors(kids, i) == []
    decreases kids
  {
    if kids != [] {
      NoneBeyond(kids[1..], i - |PlainOne(kids[0])|);
    }
  }

  /** Read back, the output has no tag left open, spells the text, and has both trees' elements around each character. */
  ghost predicate ShowsBoth(ts: seq<Token>, w: string, a: seq<Dom>, b: seq<Dom>) {
    && Read(ts, []).Some?
    && Read(ts, []).value.open == []
    && Read(ts, []).value.text == w
    && forall i :: 0 <= i < |w| ==> Read(ts, []).value.covers[i] == multiset(Ancestors(a, i)) + multiset(Ancestors(b, i))
  }

  /** The merge of any two trees over any text never fails and shows both. */
  lemma TreesMerge(a: seq<Dom>, b: seq<Dom>, w: string)
    ensures var ts := Merge(w, Stream(a, 0).0, Stream(b, 0).0, 0, []);
            ts.Some? && ShowsBoth(ts.value, w, a, b)
  {
    var x, v := Stream(a, 0).0, Stream(b, 0).0;
    StreamIsSound(a);
    StreamIsSound(b);
    MergeCorrect(w, x, v);
    var ts := Merge(w, x, v, 0, []).value;
    RendersAll(ts, w, x, v);
    forall i | 0 <= i < |w| ensures Read(ts, []).value.covers[i] == multiset(Ancestors(a, i)) + multiset(Ancestors(b, i)) {
      AroundIsAncestors(a, i);
      AroundIsAncestors(b, i);
    }
  }

  lemma StreamIsSound(kids: seq<Dom>)
    ensures Nested(Stream(kids, 0).0, []) && Sorted(Stream(kids, 0).0, 0)
  {
    StreamNests(kids, 0, [], []);
    StreamSorts(kids, 0, []);
    assert Stream(kids, 0).0 + [] == Stream(kids, 0).0;
  }

  // ----- escaping -----

  /** `l`: three global replacements, the ampersand first. */
  function Escape(s: string): string {
    ReplaceChar(ReplaceChar(ReplaceChar(s, '&', "&amp;"), '<', "&lt;"), '>', "&gt;")
  }

  function EscapeChar(c: char): string {
    if c == '&' then "&amp;" else if c == '<' then "&lt;" else if c == '>' then "&gt;" else [c]
  }

  function EscapeEach(s: string): string {
    if s == "" then "" else EscapeChar(s[0]) + EscapeEach(s[1..])
  }

  lemma EscapeOne(c: char)
    ensures Escape([c]) == EscapeChar(c)
  {
    ReplaceOne(c, '&', "&amp;");
    ReplaceOne(c, '<', "&lt;");
    ReplaceOne(c, '>', "&gt;");
    ReplaceAbsent("&amp;", '<', "&lt;");
    ReplaceAbsent("&amp;", '>', "&gt;");
    ReplaceAbsent("&lt;", '>', "&gt;");
  }

  /** Replacing in sequence never touches what an earlier replacement wrote. */
  lemma {:induction false} EscapeIsOnePass(s: string)
    ensures Escape(s) == EscapeEach(s)
    decreases |s|
  {
    if s != "" {
      assert s == [s[0]] + s[1..];
      EscapeConcat([s[0]], s[1..]);
      EscapeOne(s[0]);
      EscapeIsOnePass(s[1..]);
    }
  }

  /** Escaping chunk by chunk, as the merge does, is escaping the whole text. */
  lemma EscapeConcat(s: string, t: string)
    ensures Escape(s + t) == Escape(s) + Escape(t)
  {
    ReplaceConcat(s, t, '&', "&amp;");
    ReplaceConcat(ReplaceChar(s, '&', "&amp;"), ReplaceChar(t, '&', "&amp;"), '<', "&lt;");
    ReplaceConcat(ReplaceChar(ReplaceChar(s, '&', "&amp;"), '<', "&lt;"), ReplaceChar(ReplaceChar(t, '&', "&amp;"), '<', "&lt;"), '>', "&gt;");
  }

  /** The output with its tags taken out. */
  function Visible(ts: seq<Token>): string {
    if ts == [] then "" else (if ts[0].Char? then EscapeChar(ts[0].c) else "") + Visible(ts[1..])
  }

  lemma {:induction false} VisibleIsEscaped(ts: seq<Token>, open: seq<Node>)
    requires Read(ts, open).Some?
    ensures Visible(ts) == Escape(Read(ts, open).value.text)
    decreases |ts|
  {
    EscapeIsOnePass(Read(ts, open).value.text);
    if ts != [] {
      var open' := match ts[0]
        case Open(n) => open + [n]
        case Close(_) => open[..|open| - 1]
        case Char(_) => open;
      VisibleIsEscaped(ts[1..], open');
      EscapeIsOnePass(Read(ts[1..], open').value.text);
    }
  }
}
