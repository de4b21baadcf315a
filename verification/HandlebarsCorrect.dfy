/** Compiler correctness: the emitted code computes what direct evaluation of the template computes. */
module HandlebarsCorrect {
  import opened Wrappers
  import opened HandlebarsAst
  import opened HandlebarsMeaning
  import opened HandlebarsCodegen
  import opened HandlebarsStack
  import opened HandlebarsStatements
  import opened HandlebarsExecution

  /** The value of `e` is `v` whatever the temporaries and registers hold. */
  ghost predicate Denotes(m: Machine, e: JExpr, v: Value) {
    forall st :: Eval(m, e, st).0 == v
  }

  ghost predicate DenotesAll(m: Machine, es: seq<JExpr>, vs: seq<Value>) {
    forall st :: EvalArgs(m, es, st).0 == vs
  }

  /** The frame shows the scope as far as its own context, its data and the outer contexts `ds` go. */
  ghost predicate Fits(m: Machine, sc: Scope, ds: set<nat>) {
    && sc.contexts != []
    && m.frame.context == sc.contexts[0]
    && m.frame.data == sc.data
    && forall k :: k in ds ==> m.frame.depths.Some? && Context(m, k) == sc.At(k)
  }

  // ----- expressions -----

  lemma SelectOnceEval(m: Machine, e: Entry, v: Value, name: string, and: bool, st: State)
    requires Denotes(m, e.e, v)
    ensures Eval(m, SelectOnce(e, name, and).e, st).0 == FollowOne(m.rt, v, name, and)
  {
    match e
    case Literal(l) =>
      var s1 := Eval(m, l, st).1;
      assert Eval(m, l, st).0 == v && Eval(m, l, s1).0 == v;
    case Inline(l) =>
      var (w, s0) := Eval(m, l, st);
      assert w == v;
      var s1 := s0.(stack := s0.stack[1 := v]);
      assert Eval(m, JSetStack(1, l), st) == (v, s1);
      assert Eval(m, JStack(1), s1) == (v, s1);
  }

  lemma SelectOnceDenotes(m: Machine, e: Entry, v: Value, name: string, and: bool)
    requires Denotes(m, e.e, v)
    ensures Denotes(m, SelectOnce(e, name, and).e, FollowOne(m.rt, v, name, and))
  {
    forall st ensures Eval(m, SelectOnce(e, name, and).e, st).0 == FollowOne(m.rt, v, name, and) {
      SelectOnceEval(m, e, v, name, and, st);
    }
  }

  lemma {:induction false} SelectDenotes(m: Machine, e: Entry, v: Value, parts: seq<string>, and: bool)
    requires Denotes(m, e.e, v)
    ensures Denotes(m, TranslateSelect(e, parts, and).e, Follow(m.rt, v, parts, and))
    decreases |parts|
  {
    if parts != [] {
      SelectOnceDenotes(m, e, v, parts[0], and);
      SelectDenotes(m, SelectOnce(e, parts[0], and), FollowOne(m.rt, v, parts[0], and), parts[1..], and);
    }
  }

  lemma PathDenotes(m: Machine, sc: Scope, p: Path, falsy: bool)
    requires Fits(m, sc, PathDepths(p))
    ensures Denotes(m, TranslatePath(p, falsy).e, EvalPath(m.rt, sc, p, falsy))
  {
    assert p.depth != 0 ==> p.depth in PathDepths(p);
    assert Denotes(m, JDepth(p.depth), sc.At(p.depth));
    SelectDenotes(m, Literal(JDepth(p.depth)), sc.At(p.depth), p.parts, falsy);
  }

  lemma DataDenotes(m: Machine, sc: Scope, up: nat, parts: seq<string>)
    requires Fits(m, sc, {})
    ensures Denotes(m, TranslateData(up, parts).e, EvalData(m.rt, sc, up, parts))
  {
    assert Denotes(m, JData(up), DataUp(m.rt, sc.data, up));
    SelectDenotes(m, Literal(JData(up)), DataUp(m.rt, sc.data, up), parts, true);
  }

  lemma {:induction false} ExprDenotes(m: Machine, cfg: Settings, sc: Scope, x: Expr)
    requires Fits(m, sc, ExprDepths(cfg, x))
    ensures Denotes(m, Translate(cfg, x).e, EvalExpr(m.rt, cfg, sc, x))
    decreases x
  {
    match x
    case PathExpr(p) => PathDenotes(m, sc, p, false);
    case DataExpr(up, parts) => DataDenotes(m, sc, up, parts);
    case SubExpr(c) => PlainCallDenotes(m, cfg, sc, c);
    case _ =>
  }

  lemma {:induction false} UnwrapConcat(e: Entry, es: seq<Entry>)
    ensures Unwrap([e] + es) == [e.e] + Unwrap(es)
    decreases |es|
  {
    if es == [] {
      assert [e] + es == [] + [e];
    } else {
      var before, last := es[..|es| - 1], es[|es| - 1];
      UnwrapConcat(e, before);
      assert [e] + es == [e] + before + [last];
    }
  }

  /** The first argument is evaluated before the others. */
  lemma {:induction false} ArgsSplit(m: Machine, e: JExpr, es: seq<JExpr>, st: State)
    ensures EvalArgs(m, [e] + es, st) ==
            (var (v, s1) := Eval(m, e, st); var (vs, s2) := EvalArgs(m, es, s1); ([v] + vs, s2))
    decreases |es|
  {
    var (v, s1) := Eval(m, e, st);
    if es == [] {
      assert [e] + es == [e] && [e][..0] == [];
      assert EvalArgs(m, [], st) == ([], st);
      assert [] + [v] == [v] + [];
    } else {
      var before, last := es[..|es| - 1], es[|es| - 1];
      ArgsSplit(m, e, before, st);
      assert ([e] + es)[..|es|] == [e] + before && ([e] + es)[|es|] == last;
      var (vs, s2) := EvalArgs(m, before, s1);
      var w := Eval(m, last, s2).0;
      assert EvalArgs(m, [e] + es, st).0 == ([v] + vs) + [w];
      assert ([v] + vs) + [w] == [v] + (vs + [w]);
    }
  }

  lemma {:induction false} ExprsDenote(m: Machine, cfg: Settings, sc: Scope, xs: seq<Expr>)
    requires Fits(m, sc, ExprsDepths(cfg, xs))
    ensures DenotesAll(m, Unwrap(TranslateAll(cfg, xs)), EvalExprs(m.rt, cfg, sc, xs))
    decreases xs
  {
    if xs != [] {
      ExprDenotes(m, cfg, sc, xs[0]);
      ExprsDenote(m, cfg, sc, xs[1..]);
      var e, es := Translate(cfg, xs[0]), TranslateAll(cfg, xs[1..]);
      UnwrapConcat(e, es);
      forall st ensures EvalArgs(m, Unwrap([e] + es), st).0 == EvalExprs(m.rt, cfg, sc, xs) {
        ArgsSplit(m, e.e, Unwrap(es), st);
        assert Eval(m, e.e, st).0 == EvalExpr(m.rt, cfg, sc, xs[0]);
      }
    }
  }

  lemma {:induction false} PairsDenote(m: Machine, cfg: Settings, sc: Scope, ps: seq<Pair>, st: State)
    requires Fits(m, sc, PairsDepths(cfg, ps))
    ensures EvalFields(m, TranslatePairs(cfg, ps), map[], st).0 == EvalPairs(m.rt, cfg, sc, ps)
    decreases ps
  {
    if ps != [] {
      ExprDenotes(m, cfg, sc, ps[0].value);
      PairsDenote(m, cfg, sc, ps[1..], st);
      var before, last := TranslatePairs(cfg, ps[1..]), JPair(ps[0].key, Translate(cfg, ps[0].value).e);
      assert (before + [last])[..|before|] == before;
    }
  }

  lemma {:induction false} HashDenotes(m: Machine, cfg: Settings, sc: Scope, h: Hash)
    requires Fits(m, sc, HashDepths(cfg, h))
    ensures Denotes(m, TranslateHash(cfg, h).e, EvalHash(m.rt, cfg, sc, h))
    decreases h
  {
    if h.Hash? {
      forall st ensures EvalFields(m, TranslatePairs(cfg, h.pairs), map[], st).0 == EvalPairs(m.rt, cfg, sc, h.pairs) {
        PairsDenote(m, cfg, sc, h.pairs, st);
      }
    }
  }

  lemma OrEval(m: Machine, a: JExpr, v: Value, b: JExpr, w: Value)
    requires Denotes(m, a, v) && Denotes(m, b, w)
    ensures Denotes(m, JOr(a, b), Or(m.rt, v, w))
  {
  }

  lemma CalleeDenotes(m: Machine, cfg: Settings, sc: Scope, p: Path)
    requires !KnownHead(cfg, p) && Fits(m, sc, PathDepths(p))
    ensures var found := TranslatePath(p, true).e;
            Denotes(m, JOr(if p.Simple() then JOr(JHelper(p.original), found) else found, JHelper("helperMissing")),
                    Callee(m.rt, cfg, sc, p))
  {
    PathDenotes(m, sc, p, true);
    var found, v := TranslatePath(p, true).e, EvalPath(m.rt, sc, p, true);
    assert Denotes(m, JHelper("helperMissing"), m.rt.helper("helperMissing"));
    if p.Simple() {
      assert Denotes(m, JHelper(p.original), m.rt.helper(p.original));
      OrEval(m, JHelper(p.original), m.rt.helper(p.original), found, v);
      OrEval(m, JOr(JHelper(p.original), found), Or(m.rt, m.rt.helper(p.original), v), JHelper("helperMissing"), m.rt.helper("helperMissing"));
    } else {
      OrEval(m, found, v, JHelper("helperMissing"), m.rt.helper("helperMissing"));
    }
  }

  /** An invocation whose callee, arguments and hash are known; the blocks follow the options literal. */
  lemma InvokeEval(m: Machine, callee: JExpr, f: Value, args: seq<JExpr>, vs: seq<Value>, name: string, hash: JExpr, h: Value,
                   main: JExpr, inverse: JExpr, st: State)
    requires Denotes(m, callee, f) && DenotesAll(m, args, vs) && Denotes(m, hash, h)
    ensures Eval(m, JInvoke(callee, args, JOptions(name, hash, main, inverse)), st).0 ==
            m.rt.invoke(f, m.frame.context, vs, Options(name, h, BlockValueOf(m, main), BlockValueOf(m, inverse), m.frame.data))
  {
    var s1 := Eval(m, callee, st).1;
    var s2 := EvalArgs(m, args, s1).1;
    assert EvalArgs(m, args, s1).0 == vs;
    var o := JOptions(name, hash, main, inverse);
    assert EvalOptions(m, o, s2).0 == Options(name, h, BlockValueOf(m, main), BlockValueOf(m, inverse), m.frame.data);
  }

  function HelperName(cfg: Settings, p: Path): string {
    if KnownHead(cfg, p) then p.parts[0] else p.original
  }

  function BlocksOf(m: Machine, name: string, h: Value, main: JExpr, inverse: JExpr): Options {
    var o := BlockOptions(name, JNull, main, inverse);
    Options(name, h, BlockValueOf(m, o.main), BlockValueOf(m, o.inverse), m.frame.data)
  }

  /** What stands for the helper in a call. */
  function CalleeExpr(cfg: Settings, p: Path): JExpr {
    if KnownHead(cfg, p) then JHelper(p.parts[0])
    else
      var found := TranslatePath(p, true).e;
      JOr(if p.Simple() then JOr(JHelper(p.original), found) else found, JHelper("helperMissing"))
  }

  lemma CalleeExprDenotes(m: Machine, cfg: Settings, sc: Scope, p: Path)
    requires Fits(m, sc, if KnownHead(cfg, p) then {} else PathDepths(p))
    ensures Denotes(m, CalleeExpr(cfg, p), Callee(m.rt, cfg, sc, p))
  {
    if !KnownHead(cfg, p) {
      CalleeDenotes(m, cfg, sc, p);
    }
  }

  lemma CallShape(cfg: Settings, c: Call, main: JExpr, inverse: JExpr)
    ensures TranslateCall(cfg, c, main, inverse) ==
            JInvoke(CalleeExpr(cfg, c.path), Unwrap(TranslateAll(cfg, c.params)),
                    BlockOptions(HelperName(cfg, c.path), TranslateHash(cfg, c.hash).e, main, inverse))
  {
  }

  /** The invocation of `InvokeEval`, with the blocks as `BlockOptions` sets them. */
  lemma CallNodeEval(m: Machine, callee: JExpr, f: Value, args: seq<JExpr>, vs: seq<Value>, name: string, hash: JExpr, h: Value,
                     main: JExpr, inverse: JExpr, st: State)
    requires Denotes(m, callee, f) && DenotesAll(m, args, vs) && Denotes(m, hash, h)
    ensures Eval(m, JInvoke(callee, args, BlockOptions(name, hash, main, inverse)), st).0 ==
            m.rt.invoke(f, m.frame.context, vs, BlocksOf(m, name, h, main, inverse))
  {
    var o := BlockOptions(name, hash, main, inverse);
    InvokeEval(m, callee, f, args, vs, name, hash, h, o.main, o.inverse, st);
  }

  /** A call is its callee, its arguments and its hash, each evaluated on its own. */
  lemma {:induction false} CallEval(m: Machine, cfg: Settings, sc: Scope, c: Call, main: JExpr, inverse: JExpr, st: State)
    requires Fits(m, sc, CallDepths(cfg, c))
    ensures Eval(m, TranslateCall(cfg, c, main, inverse), st).0 ==
            m.rt.invoke(Callee(m.rt, cfg, sc, c.path), sc.At(0), EvalExprs(m.rt, cfg, sc, c.params),
                        BlocksOf(m, HelperName(cfg, c.path), EvalHash(m.rt, cfg, sc, c.hash), main, inverse))
    decreases c, 0
  {
    ExprsDenote(m, cfg, sc, c.params);
    HashDenotes(m, cfg, sc, c.hash);
    CalleeExprDenotes(m, cfg, sc, c.path);
    CallShape(cfg, c, main, inverse);
    CallNodeEval(m, CalleeExpr(cfg, c.path), Callee(m.rt, cfg, sc, c.path),
                 Unwrap(TranslateAll(cfg, c.params)), EvalExprs(m.rt, cfg, sc, c.params), HelperName(cfg, c.path),
                 TranslateHash(cfg, c.hash).e, EvalHash(m.rt, cfg, sc, c.hash), main, inverse, st);
  }

  lemma {:induction false} PlainCallDenotes(m: Machine, cfg: Settings, sc: Scope, c: Call)
    requires Fits(m, sc, CallDepths(cfg, c))
    ensures Denotes(m, TranslateCall(cfg, c, JNull, JNull), EvalCall(m.rt, cfg, sc, c, None, None))
    decreases c, 1
  {
    forall st ensures Eval(m, TranslateCall(cfg, c, JNull, JNull), st).0 == EvalCall(m.rt, cfg, sc, c, None, None) {
      CallEval(m, cfg, sc, c, JNull, JNull, st);
    }
  }

  // ----- blocks -----

  /** The block expression `e` behaves as the block `b` of the direct evaluation. */
  ghost predicate BlockMatches(m: Machine, e: JExpr, b: Option<Block>) {
    (e.JNull? <==> b.None?) && (b.Some? ==> SameBlock(BlockValueOf(m, e), b))
  }

  lemma OptionsMatch(m: Machine, name: string, h: Value, main: JExpr, inverse: JExpr, b: Option<Block>, d: Option<Block>)
    requires BlockMatches(m, main, b) && BlockMatches(m, inverse, d)
    ensures SameOptions(BlocksOf(m, name, h, main, inverse), WithBlocks(name, h, b, d, m.frame.data))
  {
    assert SameBlock(Some(Noop()), Some(Noop()));
  }

  lemma SexprCallEval(m: Machine, cfg: Settings, sc: Scope, c: Call, main: JExpr, inverse: JExpr, b: Option<Block>, d: Option<Block>, st: State)
    requires Extensional(m.rt) && Fits(m, sc, CallDepths(cfg, c)) && BlockMatches(m, main, b) && BlockMatches(m, inverse, d)
    ensures Eval(m, TranslateCall(cfg, c, main, inverse), st).0 == EvalCall(m.rt, cfg, sc, c, b, d)
  {
    CallEval(m, cfg, sc, c, main, inverse, st);
    OptionsMatch(m, HelperName(cfg, c.path), EvalHash(m.rt, cfg, sc, c.hash), main, inverse, b, d);
  }

  lemma SimpleEval(m: Machine, sc: Scope, s: Sexpr, st: State)
    requires Fits(m, sc, if s.Apply? then PathDepths(s.call.path) else {})
    ensures Eval(m, TranslateSimple(s), st).0 == EvalSimple(m.rt, sc, s)
  {
    match s
    case DataRef(up, parts) => DataDenotes(m, sc, up, parts);
    case Apply(c) => PathDenotes(m, sc, c.path, false);
  }

  /** The options literal of a sexpr without a hash. */
  lemma EmptyOptionsEval(m: Machine, name: string, main: JExpr, inverse: JExpr, st: State)
    ensures EvalOptions(m, BlockOptions(name, JEmptyHash, main, inverse), st) == (BlocksOf(m, name, Record(map[]), main, inverse), st)
  {
    assert Eval(m, JEmptyHash, st) == (Record(map[]), st);
  }

  /** The helper an ambiguous sexpr settles on. */
  function SettledHelper(rt: Runtime, name: string, v: Value): Value {
    var found := Or(rt, rt.helper(name), v);
    if Nullish(found) then rt.helper("helperMissing") else found
  }

  lemma AmbiguousNodeEval(m: Machine, name: string, lookup: JExpr, v: Value, main: JExpr, inverse: JExpr, register: bool, st: State)
    requires Denotes(m, lookup, v)
    ensures var r := Eval(m, JAmbiguous(name, lookup, BlockOptions(name, JEmptyHash, main, inverse), register), st);
            var h, o := SettledHelper(m.rt, name, v), BlocksOf(m, name, Record(map[]), main, inverse);
            && r.0 == (if m.rt.isFunction(h) then m.rt.invoke(h, m.frame.context, [], o) else h)
            && (register ==> r.1.options == o)
  {
    var s1 := if m.rt.truthy(m.rt.helper(name)) then st else Eval(m, lookup, st).1;
    assert Eval(m, lookup, st).0 == v;
    EmptyOptionsEval(m, name, main, inverse, s1.(helper := SettledHelper(m.rt, name, v)));
  }

  lemma AmbiguousEval(m: Machine, sc: Scope, p: Path, main: JExpr, inverse: JExpr, register: bool, b: Option<Block>, d: Option<Block>, st: State)
    requires Extensional(m.rt) && Fits(m, sc, {}) && p.Simple() && BlockMatches(m, main, b) && BlockMatches(m, inverse, d)
    ensures var r := Eval(m, TranslateAmbiguous(p, main, inverse, register), st);
            && r.0 == EvalAmbiguous(m.rt, sc, p, b, d)
            && (register ==> SameOptions(r.1.options, WithBlocks(p.parts[0], Record(map[]), b, d, sc.data)))
  {
    PathDenotes(m, sc, p, false);
    AmbiguousNodeEval(m, p.parts[0], TranslatePath(p, false).e, EvalPath(m.rt, sc, p, false), main, inverse, register, st);
    OptionsMatch(m, p.parts[0], Record(map[]), main, inverse, b, d);
  }

  lemma SexprSimpleEval(m: Machine, cfg: Settings, sc: Scope, s: Sexpr, main: JExpr, inverse: JExpr, register: bool,
                        b: Option<Block>, d: Option<Block>, st: State)
    requires Fits(m, sc, SexprDepths(cfg, s)) && Classify(cfg, s).SimpleClass?
    ensures Eval(m, TranslateSexpr(cfg, s, main, inverse, register), st).0 == EvalSexpr(m.rt, cfg, sc, s, b, d)
  {
    SimpleEval(m, sc, s, st);
  }

  lemma SexprHelperEval(m: Machine, cfg: Settings, sc: Scope, s: Sexpr, main: JExpr, inverse: JExpr, register: bool,
                        b: Option<Block>, d: Option<Block>, st: State)
    requires Extensional(m.rt) && Fits(m, sc, SexprDepths(cfg, s)) && BlockMatches(m, main, b) && BlockMatches(m, inverse, d)
    requires Classify(cfg, s).HelperClass?
    ensures Eval(m, TranslateSexpr(cfg, s, main, inverse, register), st).0 == EvalSexpr(m.rt, cfg, sc, s, b, d)
  {
    SexprCallEval(m, cfg, sc, s.call, main, inverse, b, d, st);
  }

  lemma SexprAmbiguousEval(m: Machine, cfg: Settings, sc: Scope, s: Sexpr, main: JExpr, inverse: JExpr, register: bool,
                           b: Option<Block>, d: Option<Block>, st: State)
    requires Extensional(m.rt) && Fits(m, sc, SexprDepths(cfg, s)) && BlockMatches(m, main, b) && BlockMatches(m, inverse, d)
    requires Classify(cfg, s).AmbiguousClass?
    ensures Eval(m, TranslateSexpr(cfg, s, main, inverse, register), st).0 == EvalSexpr(m.rt, cfg, sc, s, b, d)
  {
    AmbiguousEval(m, sc, s.call.path, main, inverse, register, b, d, st);
  }

  lemma SexprEval(m: Machine, cfg: Settings, sc: Scope, s: Sexpr, main: JExpr, inverse: JExpr, register: bool,
                  b: Option<Block>, d: Option<Block>, st: State)
    requires Extensional(m.rt) && Fits(m, sc, SexprDepths(cfg, s)) && BlockMatches(m, main, b) && BlockMatches(m, inverse, d)
    ensures Eval(m, TranslateSexpr(cfg, s, main, inverse, register), st).0 == EvalSexpr(m.rt, cfg, sc, s, b, d)
  {
    match Classify(cfg, s)
    case SimpleClass => SexprSimpleEval(m, cfg, sc, s, main, inverse, register, b, d, st);
    case HelperClass => SexprHelperEval(m, cfg, sc, s, main, inverse, register, b, d, st);
    case AmbiguousClass => SexprAmbiguousEval(m, cfg, sc, s, main, inverse, register, b, d, st);
  }

  // ----- statements -----

  /** Running `code` returns `v` from a simple program and appends its text in any other. */
  ghost predicate Contributes(m: Machine, isSimple: bool, code: seq<Stmt>, v: Option<Value>) {
    forall out: Output | out.done.None? ::
      var r := PerformAll(m, isSimple, code, out);
      if isSimple then r.done == Some(v.GetOr(Text(""))) else r.done.None? && r.text == out.text + Shown(m.rt, v)
  }

  lemma {:induction false} PerformConcat(m: Machine, isSimple: bool, a: seq<Stmt>, b: seq<Stmt>, out: Output)
    ensures PerformAll(m, isSimple, a + b, out) == PerformAll(m, isSimple, b, PerformAll(m, isSimple, a, out))
    decreases |a|
  {
    if a == [] {
      assert a + b == b;
    } else if out.done.None? {
      assert (a + b)[0] == a[0] && (a + b)[1..] == a[1..] + b;
      PerformConcat(m, isSimple, a[1..], b, Perform(m, isSimple, a[0], out));
    }
  }

  /** The last statement of every unescaped output: append the stack variable when it is not null. */
  lemma ShowVariable(m: Machine, isSimple: bool, v: Value, out: Output)
    requires out.done.None? && 1 in out.state.stack && out.state.stack[1] == v
    ensures var r := PerformAll(m, isSimple, [IfPresent(JStack(1), JStack(1))], out);
            if isSimple then r.done == Some(Present(v).GetOr(Text(""))) else r.done.None? && r.text == out.text + Shown(m.rt, Present(v))
  {
    assert [IfPresent(JStack(1), JStack(1))] + [] == [IfPresent(JStack(1), JStack(1))];
    assert out.text + "" == out.text;
  }

  lemma ShowContributes(m: Machine, isSimple: bool, e: JExpr, v: Value)
    requires Denotes(m, e, v)
    ensures Contributes(m, isSimple, Show(e), Present(v))
  {
    forall out: Output | out.done.None?
      ensures var r := PerformAll(m, isSimple, Show(e), out);
              if isSimple then r.done == Some(Present(v).GetOr(Text(""))) else r.done.None? && r.text == out.text + Shown(m.rt, Present(v))
    {
      var out1 := Perform(m, isSimple, SetStack(1, e), out);
      assert Eval(m, e, out.state).0 == v;
      ShowVariable(m, isSimple, v, out1);
    }
  }

  lemma MustacheContributes(m: Machine, isSimple: bool, cfg: Settings, sc: Scope, s: Statement, next: nat, useDepths: bool)
    requires Extensional(m.rt) && s.Mustache? && Fits(m, sc, StatementDepths(cfg, s))
    ensures Contributes(m, isSimple, TranslateStatement(cfg, s, next, useDepths), EvalStatement(m.rt, cfg, sc, s))
  {
    var e, v := TranslateSexpr(cfg, s.sexpr, JNull, JNull, false), EvalSexpr(m.rt, cfg, sc, s.sexpr, None, None);
    forall st ensures Eval(m, e, st).0 == v {
      SexprEval(m, cfg, sc, s.sexpr, JNull, JNull, false, None, None, st);
    }
    if s.escaped && !cfg.noEscape {
      assert Denotes(m, JEscape(e), Text(m.rt.escape(v)));
    } else {
      ShowContributes(m, isSimple, e, v);
    }
  }

  lemma PartialNode(m: Machine, name: string, indent: string, context: JExpr, c: Value, hash: JExpr, h: Value)
    requires Denotes(m, context, c) && Denotes(m, hash, h)
    ensures Denotes(m, JPartial(name, indent, context, hash), m.rt.partial(name, indent, c, h, m.frame.data))
  {
    forall st ensures Eval(m, JPartial(name, indent, context, hash), st).0 == m.rt.partial(name, indent, c, h, m.frame.data) {
      assert Eval(m, context, st).0 == c;
    }
  }

  lemma PartialDenotes(m: Machine, cfg: Settings, sc: Scope, s: Statement)
    requires s.PartialStatement? && Fits(m, sc, StatementDepths(cfg, s))
    ensures Denotes(m, TranslatePartial(cfg, s), EvalPartial(m.rt, cfg, sc, s))
  {
    if s.context.Some? {
      ExprDenotes(m, cfg, sc, s.context.value);
    }
    HashDenotes(m, cfg, sc, s.hash);
    var context := if s.context.Some? then Translate(cfg, s.context.value).e else JDepth(0);
    var hash := if s.hash.Hash? then TranslateHash(cfg, s.hash).e else JUndefined;
    var c := if s.context.Some? then EvalExpr(m.rt, cfg, sc, s.context.value) else sc.At(0);
    var h := if s.hash.Hash? then EvalHash(m.rt, cfg, sc, s.hash) else Undefined;
    assert Denotes(m, context, c) && Denotes(m, hash, h);
    PartialNode(m, s.name, s.indent, context, c, hash, h);
  }

  lemma MissingNode(m: Machine, e: JExpr, v: Value, options: JOptions, o: Options, st: State)
    requires Eval(m, e, st).0 == v && EvalOptions(m, options, Eval(m, e, st).1).0 == o
    ensures Eval(m, JBlockMissing(e, options), st).0 == m.rt.invoke(m.rt.helper("blockHelperMissing"), m.frame.context, [v], o)
  {
  }

  lemma MissingNodeEval(m: Machine, e: JExpr, v: Value, name: string, main: JExpr, inverse: JExpr, st: State)
    requires Denotes(m, e, v)
    ensures Eval(m, JBlockMissing(e, BlockOptions(name, JEmptyHash, main, inverse)), st).0 ==
            m.rt.invoke(m.rt.helper("blockHelperMissing"), m.frame.context, [v], BlocksOf(m, name, Record(map[]), main, inverse))
  {
    assert Eval(m, e, st).0 == v;
    EmptyOptionsEval(m, name, main, inverse, Eval(m, e, st).1);
    MissingNode(m, e, v, BlockOptions(name, JEmptyHash, main, inverse), BlocksOf(m, name, Record(map[]), main, inverse), st);
  }

  /** Invoking with options that are the same for any helper. */
  lemma MissingSame(m: Machine, sc: Scope, v: Value, o: Options, o': Options)
    requires Extensional(m.rt) && Fits(m, sc, {}) && SameOptions(o, o')
    ensures m.rt.invoke(m.rt.helper("blockHelperMissing"), m.frame.context, [v], o) == BlockMissing(m.rt, sc, v, o')
  {
  }

  lemma MissingDenotes(m: Machine, sc: Scope, e: JExpr, v: Value, name: string, main: JExpr, inverse: JExpr, b: Option<Block>, d: Option<Block>)
    requires Extensional(m.rt) && Fits(m, sc, {}) && Denotes(m, e, v) && BlockMatches(m, main, b) && BlockMatches(m, inverse, d)
    ensures Denotes(m, JBlockMissing(e, BlockOptions(name, JEmptyHash, main, inverse)),
                    BlockMissing(m.rt, sc, v, WithBlocks(name, Record(map[]), b, d, sc.data)))
  {
    var node := JBlockMissing(e, BlockOptions(name, JEmptyHash, main, inverse));
    var value := BlockMissing(m.rt, sc, v, WithBlocks(name, Record(map[]), b, d, sc.data));
    OptionsMatch(m, name, Record(map[]), main, inverse, b, d);
    MissingSame(m, sc, v, BlocksOf(m, name, Record(map[]), main, inverse), WithBlocks(name, Record(map[]), b, d, sc.data));
    forall st ensures Eval(m, node, st).0 == value {
      MissingNodeEval(m, e, v, name, main, inverse, st);
    }
  }

  lemma MissingEval(m: Machine, sc: Scope, v: Value, o: Options, st: State)
    requires Extensional(m.rt) && Fits(m, sc, {})
    requires 1 in st.stack && st.stack[1] == v && SameOptions(st.options, o)
    ensures Eval(m, JBlockMissing(JStack(1), JOptionsRegister), st).0 == BlockMissing(m.rt, sc, v, o)
  {
    assert Eval(m, JStack(1), st) == (v, st);
    MissingNode(m, JStack(1), v, JOptionsRegister, st.options, st);
    MissingSame(m, sc, v, st.options, o);
  }

  /** What an ambiguous block gives once its sexpr has the value `v` and the register the options `o`. */
  function Unless(m: Machine, sc: Scope, name: string, v: Value, o: Options): Value {
    if m.rt.truthy(m.rt.helper(name)) then v else BlockMissing(m.rt, sc, v, o)
  }

  function UnlessBlock(e: JExpr, name: string): (code: seq<Stmt>)
    ensures |code| == 3
  {
    [SetStack(1, e), UnlessHelper(name, 1, JBlockMissing(JStack(1), JOptionsRegister)), IfPresent(JStack(1), JStack(1))]
  }

  lemma UnlessRuns(m: Machine, isSimple: bool, sc: Scope, e: JExpr, name: string, v: Value, o: Options, out: Output)
    requires Extensional(m.rt) && Fits(m, sc, {}) && out.done.None?
    requires Eval(m, e, out.state).0 == v && SameOptions(Eval(m, e, out.state).1.options, o)
    ensures var result := Present(Unless(m, sc, name, v, o));
            var r := PerformAll(m, isSimple, UnlessBlock(e, name), out);
            if isSimple then r.done == Some(result.GetOr(Text(""))) else r.done.None? && r.text == out.text + Shown(m.rt, result)
  {
    var code := UnlessBlock(e, name);
    var out1 := Perform(m, isSimple, code[0], out);
    MissingEval(m, sc, v, o, out1.state);
    var out2 := Perform(m, isSimple, code[1], out1);
    assert out2.state.stack[1] == Unless(m, sc, name, v, o);
    assert code == [code[0]] + [code[1], code[2]] && [code[1], code[2]] == [code[1]] + [code[2]];
    ShowVariable(m, isSimple, Unless(m, sc, name, v, o), out2);
  }

  lemma AmbiguousBlockShape(m: Machine, cfg: Settings, sc: Scope, c: Call, main: JExpr, inverse: JExpr, b: Option<Block>, d: Option<Block>)
    requires Classify(cfg, Apply(c)).AmbiguousClass?
    ensures TranslateBlock(cfg, c, main, inverse, true) == UnlessBlock(TranslateAmbiguous(c.path, main, inverse, true), c.path.parts[0])
    ensures EvalBlock(m.rt, cfg, sc, c, b, d) ==
            Unless(m, sc, c.path.parts[0], EvalAmbiguous(m.rt, sc, c.path, b, d), WithBlocks(c.path.parts[0], Record(map[]), b, d, sc.data))
  {
  }

  lemma AmbiguousBlockContributes(m: Machine, isSimple: bool, cfg: Settings, sc: Scope, c: Call, main: JExpr, inverse: JExpr,
                                  b: Option<Block>, d: Option<Block>)
    requires Extensional(m.rt) && Fits(m, sc, {}) && Classify(cfg, Apply(c)).AmbiguousClass?
    requires BlockMatches(m, main, b) && BlockMatches(m, inverse, d)
    ensures Contributes(m, isSimple, TranslateBlock(cfg, c, main, inverse, true), Present(EvalBlock(m.rt, cfg, sc, c, b, d)))
  {
    AmbiguousBlockShape(m, cfg, sc, c, main, inverse, b, d);
    var e, name, v := TranslateAmbiguous(c.path, main, inverse, true), c.path.parts[0], EvalAmbiguous(m.rt, sc, c.path, b, d);
    var o := WithBlocks(name, Record(map[]), b, d, sc.data);
    var code, result := UnlessBlock(e, name), Present(Unless(m, sc, name, v, o));
    forall out: Output | out.done.None?
      ensures var r := PerformAll(m, isSimple, code, out);
              if isSimple then r.done == Some(result.GetOr(Text(""))) else r.done.None? && r.text == out.text + Shown(m.rt, result)
    {
      AmbiguousEval(m, sc, c.path, main, inverse, true, b, d, out.state);
      UnlessRuns(m, isSimple, sc, e, name, v, o, out);
    }
  }

  lemma BlockContributes(m: Machine, isSimple: bool, cfg: Settings, sc: Scope, c: Call, main: JExpr, inverse: JExpr,
                         register: bool, b: Option<Block>, d: Option<Block>)
    requires Extensional(m.rt) && Fits(m, sc, SexprDepths(cfg, Apply(c)))
    requires BlockMatches(m, main, b) && BlockMatches(m, inverse, d) && (Classify(cfg, Apply(c)).AmbiguousClass? ==> register)
    ensures Contributes(m, isSimple, TranslateBlock(cfg, c, main, inverse, register), Present(EvalBlock(m.rt, cfg, sc, c, b, d)))
  {
    var e, v := TranslateSexpr(cfg, Apply(c), main, inverse, register), EvalSexpr(m.rt, cfg, sc, Apply(c), b, d);
    forall st ensures Eval(m, e, st).0 == v {
      SexprEval(m, cfg, sc, Apply(c), main, inverse, register, b, d, st);
    }
    match Classify(cfg, Apply(c))
    case HelperClass => ShowContributes(m, isSimple, e, v);
    case SimpleClass =>
      MissingDenotes(m, sc, e, v, c.path.original, main, inverse, b, d);
      ShowContributes(m, isSimple, JBlockMissing(e, BlockOptions(c.path.original, JEmptyHash, main, inverse)),
                      BlockMissing(m.rt, sc, v, WithBlocks(c.path.original, Record(map[]), b, d, sc.data)));
    case AmbiguousClass => AmbiguousBlockContributes(m, isSimple, cfg, sc, c, main, inverse, b, d);
  }
}
