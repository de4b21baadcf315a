/** marked: the parser that rebuilds a document from a flat token stream by popping a reversed list. */
module MarkedParser {
  import opened Wrappers

  datatype Token =
    | Space
    | Hr
    | Heading(depth: nat, text: string)
    | Code(text: string, lang: string)
    | Table(header: seq<string>, align: seq<string>, cells: seq<seq<string>>)
    | Html(pre: bool, text: string)
    | Paragraph(text: string)
    | Text(text: string)
    | QuoteStart
    | QuoteEnd
    | ListStart(ordered: bool)
    | ListEnd
    | ItemStart(loose: bool)
    | ItemEnd

  predicate IsLeaf(t: Token) {
    t.Space? || t.Hr? || t.Heading? || t.Code? || t.Table? || t.Html? || t.Paragraph?
  }

  /** The renderer and the inline lexer, uninterpreted. */
  datatype Renderer = Renderer(
    inline: string -> string,
    leaf: Token -> string,
    paragraph: string -> string,
    quote: string -> string,
    list: (string, bool) -> string,
    item: string -> string)

  // ----- the parser on the tokens still to come -----

  /** `parseText`: a run of text tokens is one text. */
  function TextRun(body: string, ts: seq<Token>): (r: (string, seq<Token>))
    ensures |r.1| <= |ts|
    decreases |ts|
  {
    if ts != [] && ts[0].Text? then TextRun(body + "\n" + ts[0].text, ts[1..]) else (body, ts)
  }

  /** `tok`, with the current token and those to come; None is the type error of reading past the end. */
  function Tok(rd: Renderer, t: Token, ts: seq<Token>): (r: Option<(string, seq<Token>)>)
    ensures r.Some? ==> |r.value.1| <= |ts|
    decreases |ts|, 1
  {
    match t
    case Text(body) =>
      var (text, rest) := TextRun(body, ts);
      Some((rd.paragraph(rd.inline(text)), rest))
    case QuoteStart =>
      var (body, rest) :- Body(rd, QuoteEnd, false, ts);
      Some((rd.quote(body), rest))
    case ListStart(ordered) =>
      var (body, rest) :- Body(rd, ListEnd, false, ts);
      Some((rd.list(body, ordered), rest))
    case ItemStart(loose) =>
      var (body, rest) :- Body(rd, ItemEnd, !loose, ts);
      Some((rd.item(body), rest))
    case QuoteEnd => Some(("undefined", ts))
    case ListEnd => Some(("undefined", ts))
    case ItemEnd => Some(("undefined", ts))
    case _ => Some((rd.leaf(t), ts))
  }

  /** The loop of a container up to its end token; in a tight item a text is not wrapped in a paragraph. */
  function Body(rd: Renderer, end: Token, tight: bool, ts: seq<Token>): (r: Option<(string, seq<Token>)>)
    ensures r.Some? ==> |r.value.1| < |ts|
    decreases |ts|, 0
  {
    if ts == [] then None
    else if ts[0] == end then Some(("", ts[1..]))
    else
      var (first, ts1) :- if tight && ts[0].Text? then TightText(rd, ts[0].text, ts[1..]) else Tok(rd, ts[0], ts[1..]);
      Prefix(first, Body(rd, end, tight, ts1))
  }

  function Prefix(s: string, r: Option<(string, seq<Token>)>): Option<(string, seq<Token>)> {
    if r.None? then None else Some((s + r.value.0, r.value.1))
  }

  lemma PrefixPrefix(a: string, b: string, r: Option<(string, seq<Token>)>)
    ensures Prefix(a, Prefix(b, r)) == Prefix(a + b, r)
    ensures Prefix("", r) == r
  {
    if r.Some? {
      assert a + (b + r.value.0) == a + b + r.value.0 && "" + r.value.0 == r.value.0;
    }
  }

  function TightText(rd: Renderer, body: string, ts: seq<Token>): (r: Option<(string, seq<Token>)>)
    ensures r.Some? && |r.value.1| <= |ts|
  {
    var (text, rest) := TextRun(body, ts);
    Some((rd.inline(text), rest))
  }

  function Parse(rd: Renderer, ts: seq<Token>): Option<string>
    decreases |ts|
  {
    if ts == [] then Some("")
    else
      var (first, rest) :- Tok(rd, ts[0], ts[1..]);
      var later :- Parse(rd, rest);
      Some(first + later)
  }

  // ----- the object -----

  function Reverse(ts: seq<Token>): (r: seq<Token>)
    ensures |r| == |ts|
  {
    if ts == [] then [] else Reverse(ts[1..]) + [ts[0]]
  }

  lemma {:induction false} ReversePop(ts: seq<Token>)
    requires ts != []
    ensures Reverse(ts) == [ts[|ts| - 1]] + Reverse(ts[..|ts| - 1])
    decreases |ts|
  {
    if |ts| > 1 {
      ReversePop(ts[1..]);
      assert ts[1..][..|ts| - 2] == ts[..|ts| - 1][1..];
    }
  }

  lemma {:induction false} ReverseTwice(ts: seq<Token>)
    ensures Reverse(Reverse(ts)) == ts
    decreases |ts|
  {
    if ts != [] {
      var r := Reverse(ts);
      ReversePop(r);
      assert r[..|r| - 1] == Reverse(ts[1..]);
      ReverseTwice(ts[1..]);
    }
  }

  class Parser {
    const renderer: Renderer
    var tokens: seq<Token>       // reversed: the next token is the last one
    var token: Option<Token>

    ghost function Coming(): seq<Token>
      reads this
    {
      Reverse(tokens)
    }

    constructor (renderer: Renderer)
      ensures this.renderer == renderer && tokens == [] && token == None
    {
      this.renderer := renderer;
      tokens, token := [], None;
    }

    method Next() returns (t: Option<Token>)
      modifies this
      ensures t == token
      ensures old(tokens) == [] ==> t == None && tokens == []
      ensures old(tokens) != [] ==> t.Some? && old(Coming()) == [t.value] + Coming() && |tokens| == |old(tokens)| - 1
    {
      if tokens == [] {
        token := None;
      } else {
        ReversePop(tokens);
        token := Some(tokens[|tokens| - 1]);
        tokens := tokens[..|tokens| - 1];
      }
      t := token;
    }

    method Peek() returns (t: Option<Token>)
      ensures t == if tokens == [] then None else Some(Coming()[0])
    {
      if tokens == [] {
        return None;
      }
      ReversePop(tokens);
      return Some(tokens[|tokens| - 1]);
    }

    method ParseText() returns (text: string)
      requires token.Some? && token.value.Text?
      modifies this
      ensures (renderer.inline(TextRun(old(token).value.text, old(Coming())).0), TextRun(old(token).value.text, old(Coming())).1) ==
              (text, Coming())
      ensures |tokens| <= |old(tokens)|
    {
      ghost var t0, ts0 := token.value.text, Coming();
      var body := token.value.text;
      var ahead := Peek();
      while ahead.Some? && ahead.value.Text?
        invariant TextRun(body, Coming()) == TextRun(t0, ts0)
        invariant ahead == if tokens == [] then None else Some(Coming()[0])
        invariant |tokens| <= |old(tokens)|
        decreases |tokens|
      {
        ghost var ts := Coming();
        var t := Next();
        assert ts[1..] == Coming();
        body := body + "\n" + t.value.text;
        ahead := Peek();
      }
      return renderer.inline(body);
    }

    method ParseCurrent() returns (out: Option<string>)
      requires token.Some?
      modifies this
      ensures var spec := Tok(renderer, old(token).value, old(Coming()));
              match spec
              case None => out == None
              case Some((text, rest)) => out == Some(text) && Coming() == rest
      ensures |tokens| <= |old(tokens)|
      decreases |tokens|, 1
    {
      match token.value
      case Text(_) =>
        var text := ParseText();
        return Some(renderer.paragraph(text));
      case QuoteStart =>
        var body :- ParseBody(QuoteEnd, false);
        return Some(renderer.quote(body));
      case ListStart(ordered) =>
        var body :- ParseBody(ListEnd, false);
        return Some(renderer.list(body, ordered));
      case ItemStart(loose) =>
        var body :- ParseBody(ItemEnd, !loose);
        return Some(renderer.item(body));
      case QuoteEnd => return Some("undefined");
      case ListEnd => return Some("undefined");
      case ItemEnd => return Some("undefined");
      case _ => return Some(renderer.leaf(token.value));
    }

    /** The `while (this.next().type !== ...)` loop shared by the container cases. */
    method ParseBody(end: Token, tight: bool) returns (out: Option<string>)
      modifies this
      ensures match Body(renderer, end, tight, old(Coming()))
              case None => out == None
              case Some((text, rest)) => out == Some(text) && Coming() == rest
      ensures |tokens| <= |old(tokens)|
      decreases |tokens|, 0
    {
      ghost var spec := Body(renderer, end, tight, Coming());
      var body := "";
      PrefixPrefix("", "", spec);
      while true
        invariant |tokens| <= |old(tokens)|
        invariant spec == Prefix(body, Body(renderer, end, tight, Coming()))
        decreases |tokens|
      {
        ghost var ts := Coming();
        var t :- Next();
        assert ts[1..] == Coming();
        if t == end {
          assert body + "" == body;
          return Some(body);
        }
        var text;
        if tight && t.Text? {
          text := ParseText();
        } else {
          text :- ParseCurrent();
        }
        PrefixPrefix(body, text, Body(renderer, end, tight, Coming()));
        body := body + text;
      }
    }

    method ParseAll(src: seq<Token>) returns (out: Option<string>)
      modifies this
      ensures out == Parse(renderer, src)
    {
      tokens := Reverse(src);
      ReverseTwice(src);
      var text := "";
      ghost var spec := Parse(renderer, src);
      assert spec.Some? ==> text + spec.value == spec.value;
      var t := Next();
      while t.Some?
        invariant t == token
        invariant var rest := Parse(renderer, if t.None? then [] else [t.value] + Coming());
                  spec == if rest.None? then None else Some(text + rest.value)
        invariant t.None? ==> tokens == []
        decreases |tokens|, t.Some?
      {
        ghost var was, ts := text, [t.value] + Coming();
        assert ts[1..] == Coming();
        var piece :- ParseCurrent();
        text := text + piece;
        ghost var rest := Parse(renderer, Coming());
        assert rest.Some? ==> text + rest.value == was + (piece + rest.value);
        t := Next();
      }
      assert text + "" == text;
      return Some(text);
    }
  }
}
