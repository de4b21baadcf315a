/** LowLevelRestApi: a JSON response printed as XML, and what a reader of XML 1.0 makes of it. */
module JsonXml {
  import opened Texts
  import opened Wrappers

  /** Parsed JSON; a scalar is its `toString`, an object's entries are in the order of its map. */
  datatype Json = Null | Scalar(text: string) | Array(items: seq<Json>) | Object(entries: seq<Entry>)

  datatype Entry = Entry(key: string, value: Json)

  /** A DOM tree that keeps CDATA sections as nodes. */
  datatype Node = Element(name: string, kids: seq<Node>) | Section(text: string) | Text(text: string)

  const CDATA: string := "<![CDATA["
  const END: string := "]]>"
  const PROLOG: string := "<?xml version=\"1.0\" encoding=\"UTF-8\" standalone=\"yes\"?>"

  // ----- what is meant -----

  /** The element a value is to become. */
  function Intended(key: string, json: Json): Node
    decreases json
  {
    match json
    case Null => Element("error", [Text("empty")])
    case Scalar(text) => Element(key, [Section(text)])
    case Array(items) => Element(key + "s", IntendedItems(key, items))
    case Object(entries) => Element(key, IntendedEntries(entries))
  }

  function IntendedItems(key: string, items: seq<Json>): seq<Node>
    decreases items
  {
    if items == [] then [] else [Intended(key, items[0])] + IntendedItems(key, items[1..])
  }

  function IntendedEntries(entries: seq<Entry>): seq<Node>
    decreases entries
  {
    if entries == [] then [] else [Intended(entries[0].key, entries[0].value)] + IntendedEntries(entries[1..])
  }

  /** `n` is what a value is to become: the error element for null, a section for a scalar, and for a list or an object one kid
      for each item or entry, in order. */
  ghost predicate StandsFor(n: Node, key: string, json: Json)
    decreases json
  {
    match json
    case Null => n == Element("error", [Text("empty")])
    case Scalar(text) => n == Element(key, [Section(text)])
    case Array(items) =>
      && n.Element? && n.name == key + "s" && |n.kids| == |items|
      && forall i :: 0 <= i < |items| ==> StandsFor(n.kids[i], key, items[i])
    case Object(entries) =>
      && n.Element? && n.name == key && |n.kids| == |entries|
      && forall i :: 0 <= i < |entries| ==> StandsFor(n.kids[i], entries[i].key, entries[i].value)
  }

  lemma {:induction false} ItemAt(key: string, items: seq<Json>, i: nat)
    requires i < |items|
    ensures |IntendedItems(key, items)| == |items| && IntendedItems(key, items)[i] == Intended(key, items[i])
    decreases |items|
  {
    if |items| > 1 {
      ItemAt(key, items[1..], if i > 0 then i - 1 else 0);
    }
  }

  lemma {:induction false} EntryAt(entries: seq<Entry>, i: nat)
    requires i < |entries|
    ensures |IntendedEntries(entries)| == |entries| && IntendedEntries(entries)[i] == Intended(entries[i].key, entries[i].value)
    decreases |entries|
  {
    if |entries| > 1 {
      EntryAt(entries[1..], if i > 0 then i - 1 else 0);
    }
  }

  /** Every value stands for one element. */
  lemma {:induction false} IntendedStands(n: Node, key: string, json: Json)
    ensures StandsFor(n, key, json) <==> n == Intended(key, json)
    decreases json
  {
    match json
    case Array(items) => ItemsStand(n, key, items);
    case Object(entries) => EntriesStand(n, key, entries);
    case _ =>
  }

  lemma {:induction false} ItemsStand(n: Node, key: string, items: seq<Json>)
    ensures StandsFor(n, key, Array(items)) <==> n == Element(key + "s", IntendedItems(key, items))
    decreases items
  {
    var kids := IntendedItems(key, items);
    assert items == [] ==> kids == [];
    forall i | 0 <= i < |items| ensures |kids| == |items| && kids[i] == Intended(key, items[i]) {
      ItemAt(key, items, i);
    }
    assert |kids| == |items|;
    if n.Element? && |n.kids| == |items| {
      forall i | 0 <= i < |items| ensures StandsFor(n.kids[i], key, items[i]) <==> n.kids[i] == kids[i] {
        IntendedStands(n.kids[i], key, items[i]);
      }
    }
  }

  lemma {:induction false} EntriesStand(n: Node, key: string, entries: seq<Entry>)
    ensures StandsFor(n, key, Object(entries)) <==> n == Element(key, IntendedEntries(entries))
    decreases entries
  {
    var kids := IntendedEntries(entries);
    assert entries == [] ==> kids == [];
    forall i | 0 <= i < |entries| ensures |kids| == |entries| && kids[i] == Intended(entries[i].key, entries[i].value) {
      EntryAt(entries, i);
    }
    assert |kids| == |entries|;
    if n.Element? && |n.kids| == |entries| {
      forall i | 0 <= i < |entries| ensures StandsFor(n.kids[i], entries[i].key, entries[i].value) <==> n.kids[i] == kids[i] {
        IntendedStands(n.kids[i], entries[i].key, entries[i].value);
      }
    }
  }

  function Tag(name: string): string {
    "<" + name + ">"
  }

  function EndTag(name: string): string {
    "</" + name + ">"
  }

  function Show(n: Node): string
    decreases n
  {
    match n
    case Element(name, kids) => Tag(name) + ShowAll(kids) + EndTag(name)
    case Section(text) => CDATA + text + END
    case Text(text) => text
  }

  function ShowAll(ns: seq<Node>): string
    decreases ns
  {
    if ns == [] then [] else Show(ns[0]) + ShowAll(ns[1..])
  }

  // ----- the printer -----

  class StringBuilder {
    var text: string

    constructor ()
      ensures text == []
    {
      text := [];
    }

    method Append(s: string)
      modifies this
      ensures text == old(text) + s
    {
      text := text + s;
    }

    method AppendTag(name: string)
      modifies this
      ensures text == old(text) + Tag(name)
    {
      Append("<");
      Append(name);
      Append(">");
    }

    method AppendEndTag(name: string)
      modifies this
      ensures text == old(text) + EndTag(name)
    {
      Append("</");
      Append(name);
      Append(">");
    }

    method AppendSection(s: string)
      modifies this
      ensures text == old(text) + Show(Section(s)) && Show(Section(s)) == "<![CDATA[" + s + "]]>"
    {
      Append(CDATA);
      Append(s);
      Append(END);
    }
  }

  lemma Assoc(a: string, b: string, c: string)
    ensures (a + b) + c == a + (b + c)
  {
  }

  lemma AroundKids(before: string, name: string, kids: seq<Node>)
    ensures before + Tag(name) + ShowAll(kids) + EndTag(name) == before + Show(Element(name, kids))
  {
  }

  method Json2Xml(sb: StringBuilder, key: string, json: Json)
    modifies sb
    ensures sb.text == old(sb.text) + Show(Intended(key, json)) && StandsFor(Intended(key, json), key, json)
    decreases json
  {
    ghost var before := sb.text;
    IntendedStands(Intended(key, json), key, json);
    match json {
      case Null =>
        sb.Append("<error>empty</error>");
      case Scalar(text) =>
        sb.AppendTag(key);
        sb.AppendSection(text);
        sb.AppendEndTag(key);
        AroundKids(before, key, [Section(text)]);
      case Array(items) =>
        sb.AppendTag(key + "s");
        AppendItems(sb, key, items);
        sb.AppendEndTag(key + "s");
        AroundKids(before, key + "s", IntendedItems(key, items));
      case Object(entries) =>
        sb.AppendTag(key);
        AppendEntries(sb, entries);
        sb.AppendEndTag(key);
        AroundKids(before, key, IntendedEntries(entries));
    }
  }

  method AppendItems(sb: StringBuilder, key: string, items: seq<Json>)
    modifies sb
    ensures sb.text == old(sb.text) + ShowAll(IntendedItems(key, items))
    decreases items
  {
    var i := 0;
    while i < |items|
      invariant 0 <= i <= |items|
      invariant sb.text + ShowAll(IntendedItems(key, items[i..])) == old(sb.text) + ShowAll(IntendedItems(key, items))
    {
      ghost var before, rest := sb.text, IntendedItems(key, items[i + 1..]);
      assert items[i..][1..] == items[i + 1..];
      assert ([Intended(key, items[i])] + rest)[1..] == rest;
      Json2Xml(sb, key, items[i]);
      Assoc(before, Show(Intended(key, items[i])), ShowAll(rest));
      i := i + 1;
    }
  }

  method AppendEntries(sb: StringBuilder, entries: seq<Entry>)
    modifies sb
    ensures sb.text == old(sb.text) + ShowAll(IntendedEntries(entries))
    decreases entries
  {
    var i := 0;
    while i < |entries|
      invariant 0 <= i <= |entries|
      invariant sb.text + ShowAll(IntendedEntries(entries[i..])) == old(sb.text) + ShowAll(IntendedEntries(entries))
    {
      ghost var before, rest := sb.text, IntendedEntries(entries[i + 1..]);
      var e := entries[i];
      assert entries[i..][1..] == entries[i + 1..];
      assert ([Intended(e.key, e.value)] + rest)[1..] == rest;
      Json2Xml(sb, e.key, e.value);
      Assoc(before, Show(Intended(e.key, e.value)), ShowAll(rest));
      i := i + 1;
    }
  }

  /** `JSONParser.parse`; None is an exception. */
  type Parser = string -> Option<Json>

  /** What the wrapper's root holds: nothing for an empty response, the raw response when it is no JSON. */
  function Content(parse: Parser, response: Option<string>): seq<Node> {
    if response.None? || response.value == "" then []
    else if parse(response.value).Some? then [Intended("obj", parse(response.value).value)]
    else [Section(response.value)]
  }

  /** The wrapper of a response, its root and what that holds. */
  ghost predicate Wraps(root: Node, parse: Parser, response: Option<string>) {
    && root.Element? && root.name == "root"
    && if response == None || response == Some("") then root.kids == []
       else if parse(response.value).Some? then |root.kids| == 1 && StandsFor(root.kids[0], "obj", parse(response.value).value)
       else root.kids == [Section(response.value)]
  }

  lemma ContentWraps(root: Node, parse: Parser, response: Option<string>)
    ensures Wraps(root, parse, response) <==> root == Element("root", Content(parse, response))
  {
    if response.Some? && response.value != "" && parse(response.value).Some? && root.Element? && |root.kids| == 1 {
      IntendedStands(root.kids[0], "obj", parse(response.value).value);
      assert root.kids == [root.kids[0]];
    }
    if response.Some? && response.value != "" && parse(response.value).Some? {
      IntendedStands(Intended("obj", parse(response.value).value), "obj", parse(response.value).value);
    }
  }

  /** `getResponseBody`: a request without an Accept header is a null dereference. */
  method GetResponseBody(parse: Parser, accept: Option<string>, response: Option<string>) returns (r: Result<Option<string>, ()>)
    ensures accept.None? ==> r == Err(())
    ensures accept.Some? && accept.value != "application/json" ==> r == Ok(response)
    ensures accept == Some("application/json") ==>
              exists root :: Wraps(root, parse, response) &&
                r == Ok(Some("<?xml version=\"1.0\" encoding=\"UTF-8\" standalone=\"yes\"?>" + Show(root)))
  {
    if accept.None? {
      return Err(());
    }
    if accept.value != "application/json" {
      return Ok(response);
    }
    var sb := new StringBuilder();
    sb.Append(PROLOG);
    sb.AppendTag("root");
    assert sb.text == PROLOG + Tag("root");
    ghost var before := sb.text;
    if response.Some? && response.value != "" {
      var json := parse(response.value);
      if json.Some? {
        Json2Xml(sb, "obj", json.value);
      } else {
        sb.AppendSection(response.value);
      }
    }
    assert sb.text == before + ShowAll(Content(parse, response));
    sb.AppendEndTag("root");
    AroundKids(PROLOG, "root", Content(parse, response));
    ContentWraps(Element("root", Content(parse, response)), parse, response);
    return Ok(Some(sb.text));
  }

  // ----- a tag-stack reader of XML 1.0 -----

  predicate In(c: char, lo: int, hi: int) {
    lo <= c as int <= hi
  }

  /** NameStartChar of section 2.3. */
  predicate NameStart(c: char) {
    || c == ':' || c == '_' || In(c, 0x41, 0x5A) || In(c, 0x61, 0x7A) || In(c, 0xC0, 0xD6) || In(c, 0xD8, 0xF6)
    || In(c, 0xF8, 0x2FF) || In(c, 0x370, 0x37D) || In(c, 0x37F, 0x1FFF) || In(c, 0x200C, 0x200D)
    || In(c, 0x2070, 0x218F) || In(c, 0x2C00, 0x2FEF) || In(c, 0x3001, 0xD7FF) || In(c, 0xF900, 0xFDCF)
    || In(c, 0xFDF0, 0xFFFD) || In(c, 0x10000, 0xEFFFF)
  }

  /** NameChar of section 2.3. */
  predicate NameChar(c: char) {
    NameStart(c) || c == '-' || c == '.' || In(c, 0x30, 0x39) || In(c, 0xB7, 0xB7) || In(c, 0x300, 0x36F) || In(c, 0x203F, 0x2040)
  }

  predicate IsName(s: string) {
    s != [] && NameStart(s[0]) && forall c :: c in s ==> NameChar(c)
  }

  /** Char of section 2.2. */
  predicate LegalChar(c: char) {
    In(c, 0x9, 0xA) || In(c, 0xD, 0xD) || In(c, 0x20, 0xD7FF) || In(c, 0xE000, 0xFFFD) || In(c, 0x10000, 0x10FFFF)
  }

  predicate Legal(s: string) {
    forall c :: c in s ==> LegalChar(c)
  }

  /** End-of-line handling of section 2.11: carriage returns are read as line feeds. */
  function Normalize(s: string): string {
    if s == [] then []
    else if At(s, "\r\n") then ['\n'] + Normalize(s[2..])
    else [if s[0] == '\r' then '\n' else s[0]] + Normalize(s[1..])
  }

  datatype Token = Open(name: string) | Close(name: string) | Literal(text: string) | Chars(text: string)

  function Then(ts: seq<Token>, rest: Option<seq<Token>>): Option<seq<Token>> {
    if rest.None? then None else Some(ts + rest.value)
  }

  /** Tags, CDATA sections (section 2.7) and character data (section 2.4); nothing else is read. */
  function Tokenize(s: string): Option<seq<Token>>
    decreases |s|, 1
  {
    if s == [] then Some([])
    else if s[0] != '<' then ReadChars(s)
    else if At(s, CDATA) then ReadSection(s)
    else if At(s, "</") then ReadEndTag(s[2..])
    else ReadTag(s[1..])
  }

  function ReadChars(s: string): Option<seq<Token>>
    requires s != []
    decreases |s|, 0
  {
    var end := 1 + IndexOf(s[1..], "<");
    if !IsCharData(s[..end]) then None else Then([Chars(s[..end])], Tokenize(s[end..]))
  }

  function ReadSection(s: string): Option<seq<Token>>
    requires At(s, CDATA)
    decreases |s|, 0
  {
    var rest := s[|CDATA|..];
    var end := IndexOf(rest, END);
    if end == |rest| || !Legal(rest[..end]) then None
    else Then([Literal(rest[..end])], Tokenize(rest[end + |END|..]))
  }

  /** What follows `</`. */
  function ReadEndTag(s: string): Option<seq<Token>>
    decreases |s|, 2
  {
    var end := IndexOf(s, ">");
    if end == |s| || !IsName(s[..end]) then None else Then([Close(s[..end])], Tokenize(s[end + 1..]))
  }

  /** What follows `<`. */
  function ReadTag(s: string): Option<seq<Token>>
    decreases |s|, 2
  {
    var end := IndexOf(s, ">");
    if end == |s| || !IsName(s[..end]) then None else Then([Open(s[..end])], Tokenize(s[end + 1..]))
  }

  predicate IsCharData(s: string) {
    Legal(s) && '&' !in s && IndexOf(s, END) == |s|
  }

  /** An open element and the nodes read inside it so far. */
  datatype Frame = Frame(name: string, kids: seq<Node>)

  function Add(stack: seq<Frame>, n: Node): (r: seq<Frame>)
    requires stack != []
    ensures |r| == |stack|
  {
    var top := stack[|stack| - 1];
    stack[..|stack| - 1] + [Frame(top.name, top.kids + [n])]
  }

  /** Every end tag must match the open element (section 2.1); the first frame is the document. */
  function Build(ts: seq<Token>, stack: seq<Frame>): Option<seq<Node>>
    requires stack != []
    decreases |ts|
  {
    if ts == [] then if |stack| == 1 then Some(stack[0].kids) else None
    else
      match ts[0]
      case Literal(text) => Build(ts[1..], Add(stack, Section(text)))
      case Chars(text) => Build(ts[1..], Add(stack, Text(text)))
      case Open(name) => Build(ts[1..], stack + [Frame(name, [])])
      case Close(name) =>
        var top := stack[|stack| - 1];
        if |stack| == 1 || top.name != name then None
        else Build(ts[1..], Add(stack[..|stack| - 1], Element(name, top.kids)))
  }

  /** A document: the prolog, which has no line end, and exactly one element. */
  function Read(s: string): Option<Node> {
    if At(s, PROLOG) then ReadContent(Normalize(s[|PROLOG|..])) else None
  }

  function ReadContent(s: string): Option<Node> {
    var ts := Tokenize(s);
    if ts.None? then None
    else
      var nodes := Build(ts.value, [Frame("", [])]);
      if nodes.None? || |nodes.value| != 1 || !nodes.value[0].Element? then None else Some(nodes.value[0])
  }
}
