/** The kinds of mustaches and what decides between them, said without the evaluator's own tests. */
module HandlebarsForms {
  import opened Wrappers
  import opened HandlebarsAst
  import opened HandlebarsMeaning

  // ----- lookups -----

  predicate Nil(v: Value) {
    v == Undefined || v == Null
  }

  function Falsy(rt: Runtime): Value -> bool {
    v => !rt.truthy(v)
  }

  /** Each value is a property of the one before; the last has nothing left to look up or stops the lookup. */
  predicate Walk(rt: Runtime, names: seq<string>, vs: seq<Value>, stops: Value -> bool) {
    && 0 < |vs| <= |names| + 1
    && (forall i :: 0 <= i < |vs| - 1 ==> !stops(vs[i]) && vs[i + 1] == rt.property(vs[i], names[i]))
    && (|vs| == |names| + 1 || stops(vs[|vs| - 1]))
  }

  function Last(vs: seq<Value>): Value
    requires vs != []
  {
    vs[|vs| - 1]
  }

  lemma {:induction false} WalkFollows(rt: Runtime, names: seq<string>, vs: seq<Value>, falsy: bool)
    requires Walk(rt, names, vs, if falsy then Falsy(rt) else Nil)
    ensures Follow(rt, vs[0], names, falsy) == Last(vs)
    decreases |names|
  {
    if names != [] {
      if |vs| == 1 {
        StoppedFollows(rt, vs[0], names, falsy);
      } else {
        WalkFollows(rt, names[1..], vs[1..], falsy);
      }
    }
  }

  lemma {:induction false} StoppedFollows(rt: Runtime, v: Value, names: seq<string>, falsy: bool)
    requires if falsy then !rt.truthy(v) else Nil(v)
    ensures Follow(rt, v, names, falsy) == v
    decreases |names|
  {
    if names != [] {
      StoppedFollows(rt, v, names[1..], falsy);
    }
  }

  function Parents(up: nat): seq<string> {
    seq(up, _ => "_parent")
  }

  lemma {:induction false} WalkGoesUp(rt: Runtime, up: nat, vs: seq<Value>)
    requires Walk(rt, Parents(up), vs, Falsy(rt))
    ensures DataUp(rt, vs[0], up) == Last(vs)
    decreases up
  {
    if |vs| > 1 {
      assert Parents(up)[1..] == Parents(up - 1);
      WalkGoesUp(rt, up - 1, vs[1..]);
    }
  }

  // ----- data frames -----

  /** Inside a block `@name` is the name's value in the truthy frame it was called with; without one it is what it was outside. */
  lemma FrameRead(rt: Runtime, sc: Scope, c: Value, d: Option<Value>, name: string)
    ensures EvalData(rt, sc.Enter(rt, c, d), 0, [name]) ==
            if d.Some? && rt.truthy(d.value) then rt.property(d.value, name) else EvalData(rt, sc, 0, [name])
  {
    if d.Some? && rt.truthy(d.value) {
      WalkFollows(rt, [name], [d.value, rt.property(d.value, name)], true);
    }
  }

  /** In a frame made from the data outside, by `createFrame`, `@../` is outside. */
  lemma FrameLeft(rt: Runtime, sc: Scope, c: Value, d: Value, up: nat, names: seq<string>)
    requires rt.truthy(d) && rt.property(d, "_parent") == sc.data
    ensures EvalData(rt, sc.Enter(rt, c, Some(d)), up + 1, names) == EvalData(rt, sc, up, names)
  {
  }

  // ----- forms -----

  function Applied(rt: Runtime, context: Value, v: Value): Value {
    if rt.isFunction(v) then rt.callOn(v, context) else v
  }

  function AtDepth(contexts: seq<Value>, depth: nat): Value {
    if depth < |contexts| then contexts[depth] else Undefined
  }

  /** Nothing to look up: no parts, or an empty first one. */
  function Names(p: Path): seq<string> {
    if p.parts == [] || p.parts[0] == "" then [] else p.parts
  }

  predicate Single(p: Path) {
    |p.parts| == 1 && p.depth == 0 && !p.scoped
  }

  predicate Known(cfg: Settings, p: Path) {
    p.parts != [] && p.parts[0] in cfg.known
  }

  /** With parameters, with a hash, or under a single known name a helper is called. */
  predicate Calls(cfg: Settings, c: Call) {
    c.params != [] || c.hash.Hash? || (Single(c.path) && Known(cfg, c.path))
  }

  /** Any other path but a single name is looked up, and no helper asked for. */
  predicate Reads(c: Call) {
    c.params == [] && c.hash.NoHash? && !Single(c.path)
  }

  /** A single name that is not known may be a helper's or a field's. */
  predicate Either(cfg: Settings, c: Call) {
    c.params == [] && c.hash.NoHash? && Single(c.path) && !Known(cfg, c.path)
  }

  /** The helper a call runs: a known one by the first part of its path alone; else the first truthy of the helper of that name, if
      the path is a single name, and of what the path leads to; else `helperMissing`. */
  function Chosen(rt: Runtime, cfg: Settings, p: Path, led: Value): Value {
    if Known(cfg, p) then rt.helper(p.parts[0])
    else if Single(p) && rt.truthy(rt.helper(p.original)) then rt.helper(p.original)
    else if rt.truthy(led) then led
    else rt.helper("helperMissing")
  }

  function CalledAs(cfg: Settings, p: Path): string {
    if Known(cfg, p) then p.parts[0] else p.original
  }

  /** What a single name stands for: its helper if there is a truthy one, the field else, `helperMissing` for undefined and null. */
  function Found(rt: Runtime, name: string, led: Value): Value {
    var h := if rt.truthy(rt.helper(name)) then rt.helper(name) else led;
    if Nil(h) then rt.helper("helperMissing") else h
  }

  lemma CallForm(rt: Runtime, cfg: Settings, sc: Scope, c: Call, b: Option<Block>, d: Option<Block>, vs: seq<Value>)
    requires sc.contexts != []
    requires Walk(rt, Names(c.path), vs, Falsy(rt)) && vs[0] == AtDepth(sc.contexts, c.path.depth)
    ensures Calls(cfg, c) ==> Classify(cfg, Apply(c)).HelperClass?
    ensures EvalCall(rt, cfg, sc, c, b, d) ==
            rt.invoke(Chosen(rt, cfg, c.path, Last(vs)), sc.contexts[0], EvalExprs(rt, cfg, sc, c.params),
                      WithBlocks(CalledAs(cfg, c.path), EvalHash(rt, cfg, sc, c.hash), b, d, sc.data))
  {
    WalkFollows(rt, Names(c.path), vs, true);
    assert EvalPath(rt, sc, c.path, true) == Last(vs);
  }

  // ----- parameters and hashes -----

  /** A path as a parameter is only looked up: no helper is asked for and a function is not called. */
  lemma PathParam(rt: Runtime, cfg: Settings, sc: Scope, p: Path, vs: seq<Value>)
    requires sc.contexts != [] && Walk(rt, Names(p), vs, Nil) && vs[0] == AtDepth(sc.contexts, p.depth)
    ensures EvalExpr(rt, cfg, sc, PathExpr(p)) == Last(vs)
  {
    WalkFollows(rt, Names(p), vs, false);
  }

  /** A call as a parameter asks the helper that a mustache would, with no blocks. */
  lemma CallParam(rt: Runtime, cfg: Settings, sc: Scope, c: Call, vs: seq<Value>)
    requires sc.contexts != []
    requires Walk(rt, Names(c.path), vs, Falsy(rt)) && vs[0] == AtDepth(sc.contexts, c.path.depth)
    ensures EvalExpr(rt, cfg, sc, SubExpr(c)) ==
            rt.invoke(Chosen(rt, cfg, c.path, Last(vs)), sc.contexts[0], EvalExprs(rt, cfg, sc, c.params),
                      Options(CalledAs(cfg, c.path), EvalHash(rt, cfg, sc, c.hash), None, None, sc.data))
  {
    CallForm(rt, cfg, sc, c, None, None, vs);
  }

  /** Parameters are evaluated one by one, in order. */
  lemma {:induction false} ParamsInOrder(rt: Runtime, cfg: Settings, sc: Scope, xs: seq<Expr>)
    ensures |EvalExprs(rt, cfg, sc, xs)| == |xs|
    ensures forall i :: 0 <= i < |xs| ==> EvalExprs(rt, cfg, sc, xs)[i] == EvalExpr(rt, cfg, sc, xs[i])
    decreases |xs|
  {
    if xs != [] {
      ParamsInOrder(rt, cfg, sc, xs[1..]);
    }
  }

  /** Pair i is the first with its key. */
  predicate FirstPair(ps: seq<Pair>, i: nat) {
    i < |ps| && forall j :: 0 <= j < i ==> ps[j].key != ps[i].key
  }

  lemma FirstOfRest(ps: seq<Pair>, rest: seq<Pair>, i: nat)
    requires ps != [] && rest == ps[1..] && 0 < i < |ps|
    ensures FirstPair(ps, i) <==> FirstPair(rest, i - 1) && ps[i].key != ps[0].key
  {
    assert forall j :: 0 < j < |ps| ==> ps[j] == rest[j - 1];
    if FirstPair(rest, i - 1) && ps[i].key != ps[0].key {
      forall j | 0 <= j < i ensures ps[j].key != ps[i].key {
        assert j > 0 ==> rest[j - 1].key != rest[i - 1].key;
      }
    }
    if FirstPair(ps, i) {
      forall j | 0 <= j < i - 1 ensures rest[j].key != rest[i - 1].key {
        assert ps[j + 1].key != ps[i].key;
      }
    }
  }

  /** Among the pairs with a key there is a first. */
  lemma {:induction false} FirstExists(ps: seq<Pair>, k: string) returns (i: nat)
    requires exists j :: 0 <= j < |ps| && ps[j].key == k
    ensures FirstPair(ps, i) && ps[i].key == k
    decreases |ps|
  {
    if ps[0].key == k {
      i := 0;
    } else {
      var j :| 0 <= j < |ps| && ps[j].key == k;
      assert ps[1..][j - 1].key == k;
      var m := FirstExists(ps[1..], k);
      i := m + 1;
      FirstOfRest(ps, ps[1..], i);
    }
  }

  lemma {:induction false} KeysHeld(rt: Runtime, cfg: Settings, sc: Scope, ps: seq<Pair>, k: string)
    ensures k in EvalPairs(rt, cfg, sc, ps) <==> exists i :: 0 <= i < |ps| && ps[i].key == k
    decreases |ps|
  {
    if ps != [] {
      KeysHeld(rt, cfg, sc, ps[1..], k);
      if i :| 0 <= i < |ps| && ps[i].key == k {
        assert i > 0 ==> ps[1..][i - 1].key == k;
      }
      if i :| 0 <= i < |ps[1..]| && ps[1..][i].key == k {
        assert ps[i + 1].key == k;
      }
    }
  }

  lemma {:induction false} FirstHeld(rt: Runtime, cfg: Settings, sc: Scope, ps: seq<Pair>, i: nat)
    requires FirstPair(ps, i)
    ensures ps[i].key in EvalPairs(rt, cfg, sc, ps) && EvalPairs(rt, cfg, sc, ps)[ps[i].key] == EvalExpr(rt, cfg, sc, ps[i].value)
    decreases |ps|
  {
    if i > 0 {
      FirstOfRest(ps, ps[1..], i);
      FirstHeld(rt, cfg, sc, ps[1..], i - 1);
    }
  }

  /** A hash holds its keys and no others, each with the value of its first pair. */
  lemma FirstPairWins(rt: Runtime, cfg: Settings, sc: Scope, ps: seq<Pair>)
    ensures var fields := EvalPairs(rt, cfg, sc, ps);
            && EvalHash(rt, cfg, sc, Hash(ps)) == Record(fields)
            && (forall k :: k in fields <==> exists i: nat :: FirstPair(ps, i) && ps[i].key == k)
            && forall i: nat :: FirstPair(ps, i) ==> fields[ps[i].key] == EvalExpr(rt, cfg, sc, ps[i].value)
  {
    var fields := EvalPairs(rt, cfg, sc, ps);
    forall i: nat | FirstPair(ps, i) ensures ps[i].key in fields && fields[ps[i].key] == EvalExpr(rt, cfg, sc, ps[i].value) {
      FirstHeld(rt, cfg, sc, ps, i);
    }
    forall k | k in fields ensures exists i: nat :: FirstPair(ps, i) && ps[i].key == k {
      KeysHeld(rt, cfg, sc, ps, k);
      var i := FirstExists(ps, k);
    }
  }

  // ----- mustaches and blocks -----

  lemma ReadForm(rt: Runtime, cfg: Settings, sc: Scope, c: Call, vs: seq<Value>)
    requires Reads(c) && sc.contexts != []
    requires Walk(rt, Names(c.path), vs, Nil) && vs[0] == AtDepth(sc.contexts, c.path.depth)
    ensures Classify(cfg, Apply(c)).SimpleClass?
    ensures EvalSimple(rt, sc, Apply(c)) == Applied(rt, sc.contexts[0], Last(vs))
  {
    WalkFollows(rt, Names(c.path), vs, false);
  }

  lemma DataForm(rt: Runtime, cfg: Settings, sc: Scope, up: nat, names: seq<string>, ups: seq<Value>, vs: seq<Value>)
    requires sc.contexts != []
    requires Walk(rt, Parents(up), ups, Falsy(rt)) && ups[0] == sc.data
    requires Walk(rt, names, vs, Falsy(rt)) && vs[0] == Last(ups)
    ensures Classify(cfg, DataRef(up, names)).SimpleClass?
    ensures EvalSimple(rt, sc, DataRef(up, names)) == Applied(rt, sc.contexts[0], Last(vs))
  {
    WalkGoesUp(rt, up, ups);
    WalkFollows(rt, names, vs, true);
  }

  lemma EitherForm(rt: Runtime, cfg: Settings, sc: Scope, c: Call, b: Option<Block>, d: Option<Block>, vs: seq<Value>)
    requires Either(cfg, c) && sc.contexts != []
    requires Walk(rt, Names(c.path), vs, Nil) && vs[0] == sc.contexts[0]
    ensures Classify(cfg, Apply(c)).AmbiguousClass?
    ensures var name := c.path.parts[0];
            var h := Found(rt, name, Last(vs));
            EvalAmbiguous(rt, sc, c.path, b, d) ==
            if rt.isFunction(h) then rt.invoke(h, sc.contexts[0], [], WithBlocks(name, Record(map[]), b, d, sc.data)) else h
  {
    WalkFollows(rt, Names(c.path), vs, false);
  }

  /** The answer of a single name's helper, or of `blockHelperMissing` given that of what is found instead. */
  function Answer(rt: Runtime, name: string, h: Value, context: Value, o: Options): Value {
    var v := if rt.isFunction(h) then rt.invoke(h, context, [], o) else h;
    if rt.truthy(rt.helper(name)) then v else rt.invoke(rt.helper("blockHelperMissing"), context, [v], o)
  }

  lemma NameBlockForm(rt: Runtime, cfg: Settings, sc: Scope, c: Call, b: Option<Block>, d: Option<Block>, vs: seq<Value>)
    requires Either(cfg, c) && sc.contexts != []
    requires Walk(rt, Names(c.path), vs, Nil) && vs[0] == sc.contexts[0]
    ensures var name := c.path.parts[0];
            EvalBlock(rt, cfg, sc, c, b, d) ==
            Answer(rt, name, Found(rt, name, Last(vs)), sc.contexts[0], WithBlocks(name, Record(map[]), b, d, sc.data))
  {
    EitherForm(rt, cfg, sc, c, b, d, vs);
  }

  lemma AnswersAlike(rt: Runtime, name: string, h: Value, context: Value, o: Options, o': Options)
    requires Extensional(rt) && SameOptions(o, o')
    ensures Answer(rt, name, h, context, o) == Answer(rt, name, h, context, o')
  {
    assert rt.invoke(h, context, [], o) == rt.invoke(h, context, [], o');
  }

  lemma InvokesAlike(rt: Runtime, f: Value, context: Value, args: seq<Value>, o: Options, o': Options)
    requires Extensional(rt) && SameOptions(o, o')
    ensures rt.invoke(f, context, args, o) == rt.invoke(f, context, args, o')
  {
  }

  // ----- escaped text -----

  /** A reader of the six entities. */
  function Unescape(s: string): string
    decreases |s|
  {
    if s == "" then ""
    else if "&amp;" <= s then "&" + Unescape(s[5..])
    else if "&lt;" <= s then "<" + Unescape(s[4..])
    else if "&gt;" <= s then ">" + Unescape(s[4..])
    else if "&quot;" <= s then "\"" + Unescape(s[6..])
    else if "&#x27;" <= s then "'" + Unescape(s[6..])
    else if "&#x60;" <= s then "`" + Unescape(s[6..])
    else [s[0]] + Unescape(s[1..])
  }

  predicate Entity(e: string, c: char) {
    || (e == "&amp;" && c == '&') || (e == "&lt;" && c == '<') || (e == "&gt;" && c == '>')
    || (e == "&quot;" && c == '\"') || (e == "&#x27;" && c == '\'') || (e == "&#x60;" && c == '`')
  }

  lemma EntityRead(e: string, c: char, rest: string)
    requires Entity(e, c)
    ensures Unescape(e + rest) == [c] + Unescape(rest)
  {
    var s := e + rest;
    assert e <= s && s[|e|..] == rest;
    assert s[1] == e[1] && s[2] == e[2] && s[3] == e[3];
  }

  lemma PlainRead(c: char, rest: string)
    requires c != '&'
    ensures Unescape([c] + rest) == [c] + Unescape(rest)
  {
    var s := [c] + rest;
    assert s[0] == c && s[1..] == rest;
  }

  lemma EscapedChar(c: char, rest: string)
    ensures Unescape(EscapeChar(c) + rest) == [c] + Unescape(rest)
  {
    var e := EscapeChar(c);
    if c in "&<>\"'`" {
      assert Entity(e, c);
      EntityRead(e, c, rest);
    } else {
      assert e == [c];
      PlainRead(c, rest);
    }
  }

  /** Escaped text is read back as what it was. */
  lemma {:induction false} EscapedIsRead(s: string)
    ensures Unescape(EscapeText(s)) == s
    decreases |s|
  {
    if s != "" {
      EscapedIsRead(s[1..]);
      EscapedChar(s[0], EscapeText(s[1..]));
      assert s == [s[0]] + s[1..];
    }
  }
}
