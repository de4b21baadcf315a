/** What a reader recovers from the printed JSON: exactly when it is the intended tree. */
module JsonXmlReading {
  import opened JsonXml
  import opened Texts
  import opened Wrappers

  /** Text that a CDATA section carries unchanged. */
  predicate Carried(text: string) {
    Legal(text) && '\r' !in text && IndexOf(text, END) == |text|
  }

  /** Every element has a name and every section carries its text. */
  predicate Sound(n: Node)
    decreases n
  {
    match n
    case Element(name, kids) => IsName(name) && SoundAll(kids)
    case Section(text) => Carried(text)
    case Text(text) => true
  }

  predicate SoundAll(ns: seq<Node>)
    decreases ns
  {
    ns == [] || (Sound(ns[0]) && SoundAll(ns[1..]))
  }

  /** The only character data is the word of the error element, on its own. */
  predicate Shaped(n: Node)
    decreases n
  {
    match n
    case Element(name, kids) => ShapedAll(kids)
    case Section(text) => true
    case Text(text) => text == "empty"
  }

  predicate ShapedAll(ns: seq<Node>)
    decreases ns
  {
    ns == [] || (Shaped(ns[0]) && ShapedAll(ns[1..]) && (ns[0].Text? ==> ns[1..] == []))
  }

  // ----- whatever is read is sound -----

  predicate SoundToken(t: Token) {
    match t
    case Open(name) => IsName(name)
    case Close(name) => true
    case Literal(text) => Carried(text)
    case Chars(text) => true
  }

  predicate SoundTokens(ts: seq<Token>) {
    ts == [] || (SoundToken(ts[0]) && SoundTokens(ts[1..]))
  }

  predicate SoundStack(stack: seq<Frame>) {
    stack == [] ||
    (SoundStack(stack[..|stack| - 1]) && (|stack| > 1 ==> IsName(stack[|stack| - 1].name)) && SoundAll(stack[|stack| - 1].kids))
  }

  lemma {:induction false} SoundConcat(a: seq<Node>, b: seq<Node>)
    requires SoundAll(a) && SoundAll(b)
    ensures SoundAll(a + b)
  {
    if a == [] {
      assert a + b == b;
    } else {
      assert (a + b)[1..] == a[1..] + b;
      SoundConcat(a[1..], b);
    }
  }

  lemma {:induction false} NormalizedHasNoReturn(s: string)
    ensures '\r' !in Normalize(s)
    decreases |s|
  {
    if s != [] {
      NormalizedHasNoReturn(s[1..]);
      if At(s, "\r\n") {
        NormalizedHasNoReturn(s[2..]);
      }
    }
  }

  /** The text up to the first occurrence of a pattern does not hold it. */
  lemma {:induction false} BeforeFirst(s: string, pattern: string)
    requires pattern != []
    ensures IndexOf(s[..IndexOf(s, pattern)], pattern) == IndexOf(s, pattern)
  {
    if s != [] && !At(s, pattern) {
      BeforeFirst(s[1..], pattern);
      var k := IndexOf(s, pattern);
      assert s[..k][1..] == s[1..][..k - 1];
    }
  }

  lemma {:induction false} TokensAreSound(s: string)
    requires '\r' !in s
    ensures Tokenize(s).Some? ==> SoundTokens(Tokenize(s).value)
    decreases |s|
  {
    if s == [] {
    } else if s[0] != '<' {
      var end := 1 + IndexOf(s[1..], "<");
      TokensAreSound(s[end..]);
    } else if At(s, CDATA) {
      SectionIsSound(s);
    } else if At(s, "</") {
      var end := IndexOf(s[2..], ">");
      if end < |s| - 2 {
        TokensAreSound(s[2..][end + 1..]);
      }
    } else {
      TagIsSound(s[1..]);
    }
  }

  lemma {:induction false} SectionIsSound(s: string)
    requires '\r' !in s && At(s, CDATA)
    ensures ReadSection(s).Some? ==> SoundTokens(ReadSection(s).value)
    decreases |s|, 0
  {
    var rest := s[|CDATA|..];
    var end := IndexOf(rest, END);
    if end < |rest| && Legal(rest[..end]) {
      BeforeFirst(rest, END);
      TokensAreSound(rest[end + |END|..]);
    }
  }

  lemma {:induction false} TagIsSound(s: string)
    requires '\r' !in s
    ensures ReadTag(s).Some? ==> SoundTokens(ReadTag(s).value)
    decreases |s|, 1
  {
    var end := IndexOf(s, ">");
    if end < |s| && IsName(s[..end]) {
      TokensAreSound(s[end + 1..]);
    }
  }

  lemma AddSound(stack: seq<Frame>, n: Node)
    requires stack != [] && SoundStack(stack) && Sound(n)
    ensures SoundStack(Add(stack, n))
  {
    var top := stack[|stack| - 1];
    SoundConcat(top.kids, [n]);
    assert Add(stack, n)[..|stack| - 1] == stack[..|stack| - 1];
  }

  lemma {:induction false} BuiltIsSound(ts: seq<Token>, stack: seq<Frame>)
    requires stack != [] && SoundTokens(ts) && SoundStack(stack)
    ensures Build(ts, stack).Some? ==> SoundAll(Build(ts, stack).value)
    decreases |ts|
  {
    if ts != [] && Build(ts, stack).Some? {
      match ts[0]
      case Literal(text) =>
        AddSound(stack, Section(text));
        BuiltIsSound(ts[1..], Add(stack, Section(text)));
      case Chars(text) =>
        AddSound(stack, Text(text));
        BuiltIsSound(ts[1..], Add(stack, Text(text)));
      case Open(name) =>
        var opened_ := stack + [Frame(name, [])];
        assert opened_[..|opened_| - 1] == stack;
        BuiltIsSound(ts[1..], opened_);
      case Close(name) =>
        var top, below := stack[|stack| - 1], stack[..|stack| - 1];
        AddSound(below, Element(name, top.kids));
        BuiltIsSound(ts[1..], Add(below, Element(name, top.kids)));
    }
  }

  lemma ReadIsSound(s: string)
    ensures Read(s).Some? ==> Sound(Read(s).value)
  {
    if Read(s).Some? {
      var rest := Normalize(s[|PROLOG|..]);
      NormalizedHasNoReturn(s[|PROLOG|..]);
      TokensAreSound(rest);
      BuiltIsSound(Tokenize(rest).value, [Frame("", [])]);
    }
  }

  // ----- a sound tree is read back -----

  function Tokens(n: Node): seq<Token>
    decreases n
  {
    match n
    case Element(name, kids) => [Open(name)] + TokensAll(kids) + [Close(name)]
    case Section(text) => [Literal(text)]
    case Text(text) => [Chars(text)]
  }

  function TokensAll(ns: seq<Node>): seq<Token>
    decreases ns
  {
    if ns == [] then [] else Tokens(ns[0]) + TokensAll(ns[1..])
  }

  lemma ThenThen(a: seq<Token>, b: seq<Token>, o: Option<seq<Token>>)
    ensures Then(a, Then(b, o)) == Then(a + b, o)
  {
    if o.Some? {
      assert a + (b + o.value) == a + b + o.value;
    }
  }

  lemma IndexOfMark(name: string, rest: string)
    requires '>' !in name
    ensures IndexOf(name + (">" + rest), ">") == |name|
  {
    IndexSkips(name, ">" + rest, ">");
    assert At(">" + rest, ">");
  }

  lemma TagRead(name: string, rest: string)
    requires IsName(name)
    ensures ReadTag(name + (">" + rest)) == Then([Open(name)], Tokenize(rest))
    ensures ReadEndTag(name + (">" + rest)) == Then([Close(name)], Tokenize(rest))
  {
    var s := name + (">" + rest);
    IndexOfMark(name, rest);
    assert s[..|name|] == name && s[|name| + 1..] == rest;
  }

  lemma NoSection(s: string)
    requires |s| >= 2 && s[1] != '!'
    ensures !At(s, CDATA)
  {
    assert |s| >= |CDATA| ==> s[..|CDATA|][1] == s[1];
  }

  lemma TokenizeTag(name: string, rest: string)
    requires IsName(name)
    ensures Tokenize(Tag(name) + rest) == Then([Open(name)], Tokenize(rest))
  {
    var s := Tag(name) + rest;
    var after := name + (">" + rest);
    assert s[1..] == after && s[0] == '<' && s[1] == name[0] == s[..2][1];
    NoSection(s);
    TagRead(name, rest);
    assert Tokenize(s) == ReadTag(after);
  }

  lemma TokenizeEndTag(name: string, rest: string)
    requires IsName(name)
    ensures Tokenize(EndTag(name) + rest) == Then([Close(name)], Tokenize(rest))
  {
    var s := EndTag(name) + rest;
    var after := name + (">" + rest);
    assert s == "</" + after;
    assert s[2..] == after && At(s, "</") && s[0] == '<' && s[1] == '/';
    NoSection(s);
    TagRead(name, rest);
    assert Tokenize(s) == ReadEndTag(after);
  }

  /** The end mark after a text without one is the first. */
  lemma {:induction false} FirstEnd(text: string, rest: string)
    requires IndexOf(text, END) == |text|
    ensures IndexOf(text + (END + rest), END) == |text|
  {
    var s := text + (END + rest);
    if text == [] {
      assert s == END + rest;
    } else {
      assert s[1..] == text[1..] + (END + rest);
      FirstEnd(text[1..], rest);
      NoEarlyEnd(text, rest);
    }
  }

  lemma NoEarlyEnd(text: string, rest: string)
    requires text != [] && !At(text, END)
    ensures !At(text + (END + rest), END)
  {
    var s := text + (END + rest);
    if |text| >= 3 {
      assert s[..3] == text[..3];
    } else {
      assert s[..3][2] == s[2] == ']';
    }
  }

  lemma TokenizeSection(text: string, rest: string)
    requires Carried(text)
    ensures Tokenize(Show(Section(text)) + rest) == Then([Literal(text)], Tokenize(rest))
  {
    var s := Show(Section(text)) + rest;
    var after := text + (END + rest);
    assert s == CDATA + after;
    FirstEnd(text, rest);
    assert s[|CDATA|..] == after && At(s, CDATA);
    assert after[..|text|] == text && after[|text| + |END|..] == rest;
    assert Tokenize(s) == ReadSection(s);
  }

  lemma TokenizeWord(rest: string)
    requires rest != [] && rest[0] == '<'
    ensures Tokenize("empty" + rest) == Then([Chars("empty")], Tokenize(rest))
  {
    var s := "empty" + rest;
    assert s[0] == 'e';
    assert s[1..] == "mpty" + rest;
    IndexSkips("mpty", rest, "<");
    assert At(rest, "<");
    assert s[..5] == "empty" && s[5..] == rest;
    WordIsCharData();
    assert Tokenize(s) == ReadChars(s);
  }

  lemma WordIsCharData()
    ensures IsCharData("empty")
  {
    IndexSkips("empty", "", END);
    assert "empty" + "" == "empty";
  }

  lemma {:induction false} TokenizeShow(n: Node, rest: string)
    requires Sound(n) && Shaped(n) && (n.Text? ==> rest != [] && rest[0] == '<')
    ensures Tokenize(Show(n) + rest) == Then(Tokens(n), Tokenize(rest))
    decreases n
  {
    match n
    case Section(text) => TokenizeSection(text, rest);
    case Text(text) => TokenizeWord(rest);
    case Element(name, kids) =>
      var close := EndTag(name) + rest;
      assert Show(n) + rest == Tag(name) + (ShowAll(kids) + close);
      TokenizeTag(name, ShowAll(kids) + close);
      TokenizeShowAll(kids, close);
      TokenizeEndTag(name, rest);
      ThenThen(TokensAll(kids), [Close(name)], Tokenize(rest));
      ThenThen([Open(name)], TokensAll(kids) + [Close(name)], Tokenize(rest));
      assert [Open(name)] + (TokensAll(kids) + [Close(name)]) == Tokens(n);
  }

  lemma {:induction false} TokenizeShowAll(ns: seq<Node>, rest: string)
    requires SoundAll(ns) && ShapedAll(ns) && rest != [] && rest[0] == '<'
    ensures Tokenize(ShowAll(ns) + rest) == Then(TokensAll(ns), Tokenize(rest))
    decreases ns
  {
    if ns == [] {
      assert [] + rest == rest;
      assert Tokenize(rest).Some? ==> [] + Tokenize(rest).value == Tokenize(rest).value;
    } else {
      var after := ShowAll(ns[1..]) + rest;
      assert ShowAll(ns) + rest == Show(ns[0]) + after;
      assert ns[0].Text? ==> after == [] + rest == rest;
      TokenizeShow(ns[0], after);
      TokenizeShowAll(ns[1..], rest);
      ThenThen(Tokens(ns[0]), TokensAll(ns[1..]), Tokenize(rest));
    }
  }

  lemma {:induction false} BuildTokens(n: Node, rest: seq<Token>, stack: seq<Frame>)
    requires stack != []
    ensures Build(Tokens(n) + rest, stack) == Build(rest, Add(stack, n))
    decreases n
  {
    var ts := Tokens(n) + rest;
    match n
    case Section(text) => assert ts[1..] == rest;
    case Text(text) => assert ts[1..] == rest;
    case Element(name, kids) =>
      var after := [Close(name)] + rest;
      var inner := stack + [Frame(name, [])];
      assert ts[1..] == TokensAll(kids) + after && ts[0] == Open(name);
      BuildTokensAll(kids, after, inner);
      var full := AddAll(inner, kids);
      AddAllKids(stack, name, [], kids);
      assert [] + kids == kids;
      assert after[1..] == rest && full[..|full| - 1] == stack;
  }

  function AddAll(stack: seq<Frame>, ns: seq<Node>): (r: seq<Frame>)
    requires stack != []
    ensures |r| == |stack|
    decreases |ns|
  {
    if ns == [] then stack else AddAll(Add(stack, ns[0]), ns[1..])
  }

  lemma {:induction false} AddAllKids(stack: seq<Frame>, name: string, kids: seq<Node>, ns: seq<Node>)
    ensures AddAll(stack + [Frame(name, kids)], ns) == stack + [Frame(name, kids + ns)]
    decreases |ns|
  {
    var top := stack + [Frame(name, kids)];
    if ns == [] {
      assert kids + ns == kids;
    } else {
      assert top[..|top| - 1] == stack;
      assert Add(top, ns[0]) == stack + [Frame(name, kids + [ns[0]])];
      AddAllKids(stack, name, kids + [ns[0]], ns[1..]);
      assert kids + [ns[0]] + ns[1..] == kids + ns;
    }
  }

  lemma {:induction false} BuildTokensAll(ns: seq<Node>, rest: seq<Token>, stack: seq<Frame>)
    requires stack != []
    ensures Build(TokensAll(ns) + rest, stack) == Build(rest, AddAll(stack, ns))
    decreases ns
  {
    if ns == [] {
      assert [] + rest == rest;
    } else {
      assert TokensAll(ns) + rest == Tokens(ns[0]) + (TokensAll(ns[1..]) + rest);
      BuildTokens(ns[0], TokensAll(ns[1..]) + rest, stack);
      BuildTokensAll(ns[1..], rest, Add(stack, ns[0]));
    }
  }

  lemma {:induction false} NothingToNormalize(s: string)
    requires '\r' !in s
    ensures Normalize(s) == s
  {
    if s != [] {
      assert !At(s, "\r\n") by { assert s[0] != '\r'; assert |s| >= 2 ==> s[..2][0] == s[0]; }
      NothingToNormalize(s[1..]);
    }
  }

  lemma {:induction false} ShowHasNoReturn(n: Node)
    requires Sound(n) && Shaped(n)
    ensures '\r' !in Show(n)
    decreases n
  {
    match n
    case Element(name, kids) =>
      ShowAllHasNoReturn(kids);
      assert '\r' !in name;
    case Section(text) =>
    case Text(text) =>
  }

  lemma {:induction false} ShowAllHasNoReturn(ns: seq<Node>)
    requires SoundAll(ns) && ShapedAll(ns)
    ensures '\r' !in ShowAll(ns)
    decreases ns
  {
    if ns != [] {
      ShowHasNoReturn(ns[0]);
      ShowAllHasNoReturn(ns[1..]);
    }
  }

  /** A document is read back as the tree it was printed from exactly when that tree is sound. */
  lemma ReadBackExactly(n: Node)
    requires n.Element? && Shaped(n)
    ensures Read(PROLOG + Show(n)) == Some(n) <==> Sound(n)
  {
    var s := PROLOG + Show(n);
    ReadIsSound(s);
    if Sound(n) {
      ShowHasNoReturn(n);
      NothingToNormalize(Show(n));
      assert At(s, PROLOG) && s[|PROLOG|..] == Show(n);
      ReadsShown(n);
    }
  }

  lemma ReadsShown(n: Node)
    requires n.Element? && Shaped(n) && Sound(n)
    ensures ReadContent(Show(n)) == Some(n)
  {
    TokenizeShow(n, []);
    NothingFollows(Show(n), Tokens(n));
    BuildTokens(n, [], [Frame("", [])]);
    assert Tokens(n) + [] == Tokens(n);
  }

  lemma NothingFollows(s: string, ts: seq<Token>)
    ensures s + [] == s && Then(ts, Tokenize([])) == Some(ts)
  {
    assert ts + [] == ts;
  }

  // ----- the JSON for which that holds -----

  /** Every key that becomes an element is a name, every scalar's text is carried. A null's key is never printed. */
  predicate Printable(key: string, json: Json)
    decreases json
  {
    match json
    case Null => true
    case Scalar(text) => IsName(key) && Carried(text)
    case Array(items) => IsName(key + "s") && PrintableItems(key, items)
    case Object(entries) => IsName(key) && PrintableEntries(entries)
  }

  predicate PrintableItems(key: string, items: seq<Json>)
    decreases items
  {
    items == [] || (Printable(key, items[0]) && PrintableItems(key, items[1..]))
  }

  predicate PrintableEntries(entries: seq<Entry>)
    decreases entries
  {
    entries == [] || (Printable(entries[0].key, entries[0].value) && PrintableEntries(entries[1..]))
  }

  lemma {:induction false} IntendedIsSound(key: string, json: Json)
    ensures Shaped(Intended(key, json)) && Intended(key, json).Element?
    ensures Sound(Intended(key, json)) <==> Printable(key, json)
    decreases json
  {
    match json
    case Null =>
      assert [Text("empty")][1..] == [] && IsName("error");
    case Scalar(text) => OneSection(text);
    case Array(items) => ItemsAreSound(key, items);
    case Object(entries) => EntriesAreSound(entries);
  }

  lemma OneSection(text: string)
    ensures ShapedAll([Section(text)]) && (SoundAll([Section(text)]) <==> Carried(text))
  {
    var ts := [Section(text)];
    assert ts[1..] == [] && ShapedAll([]) && SoundAll([]);
    assert Shaped(ts[0]) && Sound(ts[0]) == Carried(text);
    assert ShapedAll(ts) == (Shaped(ts[0]) && ShapedAll(ts[1..]));
    assert SoundAll(ts) == (Sound(ts[0]) && SoundAll(ts[1..]));
  }

  lemma {:induction false} ItemsAreSound(key: string, items: seq<Json>)
    ensures ShapedAll(IntendedItems(key, items))
    ensures SoundAll(IntendedItems(key, items)) <==> PrintableItems(key, items)
    decreases items
  {
    if items != [] {
      IntendedIsSound(key, items[0]);
      ItemsAreSound(key, items[1..]);
      assert IntendedItems(key, items)[1..] == IntendedItems(key, items[1..]);
    }
  }

  lemma {:induction false} EntriesAreSound(entries: seq<Entry>)
    ensures ShapedAll(IntendedEntries(entries))
    ensures SoundAll(IntendedEntries(entries)) <==> PrintableEntries(entries)
    decreases entries
  {
    if entries != [] {
      IntendedIsSound(entries[0].key, entries[0].value);
      EntriesAreSound(entries[1..]);
      assert IntendedEntries(entries)[1..] == IntendedEntries(entries[1..]);
    }
  }

  /** What a response must be for its wrapper to be read as intended. */
  predicate Readable(parse: Parser, response: Option<string>) {
    response.None? || response.value == "" ||
    (if parse(response.value).Some? then Printable("obj", parse(response.value).value) else Carried(response.value))
  }

  /** Every JSON response, empty and unparsable ones included: a reader recovers its wrapper exactly when the response is readable. */
  lemma ResponseReadExactly(parse: Parser, response: Option<string>, root: Node)
    requires Wraps(root, parse, response)
    ensures Read(PROLOG + Show(root)) == Some(root) <==> Readable(parse, response)
  {
    var kids := root.kids;
    assert IsName("root");
    ContentWraps(root, parse, response);
    if kids != [] {
      assert kids[1..] == [] && SoundAll(kids[1..]) && ShapedAll(kids[1..]);
      if parse(response.value).Some? {
        IntendedIsSound("obj", parse(response.value).value);
      } else {
        OneSection(response.value);
      }
    }
    assert SoundAll(kids) <==> Readable(parse, response);
    ReadBackExactly(root);
  }
}
