/** When does compiled code raise the exception of a lost `depths`? Exactly when one of its statements reads an outer context. */
module HandlebarsThrowing {
  import opened HandlebarsAst
  import opened HandlebarsMeaning
  import opened HandlebarsCodegen
  import opened HandlebarsStack
  import opened HandlebarsStatements
  import opened HandlebarsExecution
  import opened HandlebarsCorrect

  /** Outer contexts are read and none were passed. */
  predicate Lost(m: Machine, ds: set<nat>) {
    m.frame.depths.None? && ds != {}
  }

  /** Evaluating `e` raises the exception if `b`, and only then. */
  ghost predicate Throws(m: Machine, e: JExpr, b: bool) {
    forall st :: Eval(m, e, st).1.thrown == (st.thrown || b)
  }

  ghost predicate AllThrow(m: Machine, es: seq<JExpr>, b: bool) {
    forall st :: EvalArgs(m, es, st).1.thrown == (st.thrown || b)
  }

  ghost predicate FieldsThrow(m: Machine, ps: seq<JPair>, b: bool) {
    forall st :: EvalFields(m, ps, map[], st).1.thrown == (st.thrown || b)
  }

  lemma LostUnion(m: Machine, a: set<nat>, b: set<nat>)
    ensures Lost(m, a + b) == (Lost(m, a) || Lost(m, b))
  {
    if k :| k in a + b {
      assert a + b != {};
    }
  }

  // ----- expressions -----

  lemma {:induction false} SelectOnceThrows(m: Machine, e: Entry, b: bool, name: string, and: bool)
    requires Throws(m, e.e, b)
    ensures Throws(m, SelectOnce(e, name, and).e, b)
  {
    forall st ensures Eval(m, SelectOnce(e, name, and).e, st).1.thrown == (st.thrown || b) {
      SelectOnceThrown(m, e, b, name, and, st);
    }
  }

  lemma {:induction false} SelectOnceThrown(m: Machine, e: Entry, b: bool, name: string, and: bool, st: State)
    requires Throws(m, e.e, b)
    ensures Eval(m, SelectOnce(e, name, and).e, st).1.thrown == (st.thrown || b)
  {
    match e
    case Literal(l) =>
      var s1 := Eval(m, l, st).1;
      assert s1.thrown == (st.thrown || b) && Eval(m, l, s1).1.thrown == (s1.thrown || b);
    case Inline(l) =>
      var (v, s0) := Eval(m, l, st);
      var s1 := s0.(stack := s0.stack[1 := v]);
      assert s0.thrown == (st.thrown || b);
      assert Eval(m, JSetStack(1, l), st) == (v, s1);
      assert Eval(m, JStack(1), s1) == (v, s1);
  }

  lemma {:induction false} SelectThrows(m: Machine, e: Entry, b: bool, parts: seq<string>, and: bool)
    requires Throws(m, e.e, b)
    ensures Throws(m, TranslateSelect(e, parts, and).e, b)
    decreases |parts|
  {
    if parts != [] {
      SelectOnceThrows(m, e, b, parts[0], and);
      SelectThrows(m, SelectOnce(e, parts[0], and), b, parts[1..], and);
    }
  }

  lemma {:induction false} PathThrows(m: Machine, p: Path, falsy: bool)
    ensures Throws(m, TranslatePath(p, falsy).e, Lost(m, PathDepths(p)))
  {
    assert Throws(m, JDepth(p.depth), Lost(m, PathDepths(p)));
    SelectThrows(m, Literal(JDepth(p.depth)), Lost(m, PathDepths(p)), p.parts, falsy);
  }

  lemma {:induction false} DataThrows(m: Machine, up: nat, parts: seq<string>)
    ensures Throws(m, TranslateData(up, parts).e, false)
  {
    assert Throws(m, JData(up), false);
    SelectThrows(m, Literal(JData(up)), false, parts, true);
  }

  lemma {:induction false} ExprThrows(m: Machine, cfg: Settings, x: Expr)
    ensures Throws(m, Translate(cfg, x).e, Lost(m, ExprDepths(cfg, x)))
    decreases x
  {
    match x
    case PathExpr(p) => PathThrows(m, p, false);
    case DataExpr(up, parts) => DataThrows(m, up, parts);
    case SubExpr(c) => CallThrows(m, cfg, c, JNull, JNull);
    case _ =>
  }

  lemma {:induction false} FirstThrows(m: Machine, e: JExpr, b: bool, es: seq<JExpr>, c: bool)
    requires Throws(m, e, b) && AllThrow(m, es, c)
    ensures AllThrow(m, [e] + es, b || c)
  {
    forall st ensures EvalArgs(m, [e] + es, st).1.thrown == (st.thrown || b || c) {
      ArgsSplit(m, e, es, st);
    }
  }

  lemma {:induction false} ExprsThrow(m: Machine, cfg: Settings, xs: seq<Expr>)
    ensures AllThrow(m, Unwrap(TranslateAll(cfg, xs)), Lost(m, ExprsDepths(cfg, xs)))
    decreases xs
  {
    if xs != [] {
      var e, es := Translate(cfg, xs[0]), TranslateAll(cfg, xs[1..]);
      ExprThrows(m, cfg, xs[0]);
      ExprsThrow(m, cfg, xs[1..]);
      LostUnion(m, ExprDepths(cfg, xs[0]), ExprsDepths(cfg, xs[1..]));
      UnwrapConcat(e, es);
      FirstThrows(m, e.e, Lost(m, ExprDepths(cfg, xs[0])), Unwrap(es), Lost(m, ExprsDepths(cfg, xs[1..])));
    }
  }

  lemma {:induction false} LastThrows(m: Machine, ps: seq<JPair>, b: bool, key: string, e: JExpr, c: bool)
    requires FieldsThrow(m, ps, b) && Throws(m, e, c)
    ensures FieldsThrow(m, ps + [JPair(key, e)], b || c)
  {
    assert (ps + [JPair(key, e)])[..|ps|] == ps;
  }

  lemma {:induction false} PairsThrow(m: Machine, cfg: Settings, ps: seq<Pair>)
    ensures FieldsThrow(m, TranslatePairs(cfg, ps), Lost(m, PairsDepths(cfg, ps)))
    decreases ps
  {
    if ps != [] {
      ExprThrows(m, cfg, ps[0].value);
      PairsThrow(m, cfg, ps[1..]);
      LostUnion(m, ExprDepths(cfg, ps[0].value), PairsDepths(cfg, ps[1..]));
      LastThrows(m, TranslatePairs(cfg, ps[1..]), Lost(m, PairsDepths(cfg, ps[1..])), ps[0].key,
                 Translate(cfg, ps[0].value).e, Lost(m, ExprDepths(cfg, ps[0].value)));
    }
  }

  lemma {:induction false} HashThrows(m: Machine, cfg: Settings, h: Hash)
    ensures Throws(m, TranslateHash(cfg, h).e, Lost(m, HashDepths(cfg, h)))
    decreases h
  {
    if h.Hash? {
      PairsThrow(m, cfg, h.pairs);
    }
  }

  lemma {:induction false} OrState(m: Machine, a: JExpr, c: JExpr, st: State)
    ensures Eval(m, JOr(a, c), st).1 ==
            if m.rt.truthy(Eval(m, a, st).0) then Eval(m, a, st).1 else Eval(m, c, Eval(m, a, st).1).1
  {
  }

  /** The right side is reached or not. */
  lemma {:induction false} OrThrows(m: Machine, a: JExpr, b: bool, c: JExpr)
    requires Throws(m, a, b) && Throws(m, c, false)
    ensures Throws(m, JOr(a, c), b)
  {
    forall st ensures Eval(m, JOr(a, c), st).1.thrown == (st.thrown || b) {
      OrState(m, a, c, st);
    }
  }

  lemma {:induction false} OptionsState(m: Machine, o: JOptions, st: State)
    requires o.JOptions?
    ensures EvalOptions(m, o, st).1 == Eval(m, o.hash, st).1
  {
  }

  lemma {:induction false} CalleeThrows(m: Machine, cfg: Settings, p: Path)
    ensures Throws(m, CalleeExpr(cfg, p), Lost(m, if KnownHead(cfg, p) then {} else PathDepths(p)))
  {
    if !KnownHead(cfg, p) {
      var found, b := TranslatePath(p, true).e, Lost(m, PathDepths(p));
      PathThrows(m, p, true);
      if p.Simple() {
        OrThrows(m, JHelper(p.original), false, found);
        OrThrows(m, JOr(JHelper(p.original), found), false, JHelper("helperMissing"));
      } else {
        OrThrows(m, found, b, JHelper("helperMissing"));
      }
    }
  }

  lemma {:induction false} InvokeState(m: Machine, callee: JExpr, args: seq<JExpr>, o: JOptions, st: State)
    ensures var s1 := Eval(m, callee, st).1;
            Eval(m, JInvoke(callee, args, o), st).1 == EvalOptions(m, o, EvalArgs(m, args, s1).1).1
  {
  }

  /** The blocks of an invocation are closures: making them reads nothing. */
  lemma {:induction false} InvokeThrows(m: Machine, callee: JExpr, b: bool, args: seq<JExpr>, c: bool, o: JOptions, d: bool)
    requires Throws(m, callee, b) && AllThrow(m, args, c) && o.JOptions? && Throws(m, o.hash, d)
    ensures Throws(m, JInvoke(callee, args, o), b || c || d)
  {
    forall st ensures Eval(m, JInvoke(callee, args, o), st).1.thrown == (st.thrown || b || c || d) {
      InvokeState(m, callee, args, o, st);
      OptionsState(m, o, EvalArgs(m, args, Eval(m, callee, st).1).1);
    }
  }

  lemma {:induction false} CallThrows(m: Machine, cfg: Settings, c: Call, main: JExpr, inverse: JExpr)
    ensures Throws(m, TranslateCall(cfg, c, main, inverse), Lost(m, CallDepths(cfg, c)))
    decreases c
  {
    var params, hash := ExprsDepths(cfg, c.params), HashDepths(cfg, c.hash);
    var path := if KnownHead(cfg, c.path) then {} else PathDepths(c.path);
    ExprsThrow(m, cfg, c.params);
    HashThrows(m, cfg, c.hash);
    CalleeThrows(m, cfg, c.path);
    LostUnion(m, params, hash);
    LostUnion(m, params + hash, path);
    CallShape(cfg, c, main, inverse);
    InvokeThrows(m, CalleeExpr(cfg, c.path), Lost(m, path), Unwrap(TranslateAll(cfg, c.params)), Lost(m, params),
                 BlockOptions(HelperName(cfg, c.path), TranslateHash(cfg, c.hash).e, main, inverse), Lost(m, hash));
  }

  lemma {:induction false} AmbiguousThrows(m: Machine, p: Path, main: JExpr, inverse: JExpr, register: bool)
    requires p.Simple()
    ensures Throws(m, TranslateAmbiguous(p, main, inverse, register), false)
  {
    PathThrows(m, p, false);
    forall st ensures Eval(m, TranslateAmbiguous(p, main, inverse, register), st).1.thrown == st.thrown {
      AmbiguousThrown(m, p.parts[0], TranslatePath(p, false).e, main, inverse, register, st);
    }
  }

  lemma {:induction false} AmbiguousThrown(m: Machine, name: string, lookup: JExpr, main: JExpr, inverse: JExpr, register: bool, st: State)
    requires Throws(m, lookup, false)
    ensures Eval(m, JAmbiguous(name, lookup, BlockOptions(name, JEmptyHash, main, inverse), register), st).1.thrown == st.thrown
  {
    AmbiguousState(m, name, lookup, BlockOptions(name, JEmptyHash, main, inverse), register, st);
    var (found, s1) := Found(m, name, lookup, st);
    assert Eval(m, lookup, st).1.thrown == st.thrown;
    EmptyOptionsEval(m, name, main, inverse, s1.(helper := if Nullish(found) then m.rt.helper("helperMissing") else found));
  }

  function Found(m: Machine, name: string, lookup: JExpr, st: State): (Value, State) {
    if m.rt.truthy(m.rt.helper(name)) then (m.rt.helper(name), st) else Eval(m, lookup, st)
  }

  lemma {:induction false} AmbiguousState(m: Machine, name: string, lookup: JExpr, options: JOptions, register: bool, st: State)
    ensures var (found, s1) := Found(m, name, lookup, st);
            var s2 := s1.(helper := if Nullish(found) then m.rt.helper("helperMissing") else found);
            var r := Eval(m, JAmbiguous(name, lookup, options, register), st).1.thrown;
            r == EvalOptions(m, options, s2).1.thrown || r == s1.thrown
  {
  }

  lemma {:induction false} MissingState(m: Machine, e: JExpr, o: JOptions, st: State)
    ensures Eval(m, JBlockMissing(e, o), st).1 == EvalOptions(m, o, Eval(m, e, st).1).1
  {
  }

  lemma {:induction false} MissingThrows(m: Machine, e: JExpr, b: bool, name: string, main: JExpr, inverse: JExpr)
    requires Throws(m, e, b)
    ensures Throws(m, JBlockMissing(e, BlockOptions(name, JEmptyHash, main, inverse)), b)
  {
    var o := BlockOptions(name, JEmptyHash, main, inverse);
    forall st ensures Eval(m, JBlockMissing(e, o), st).1.thrown == (st.thrown || b) {
      MissingState(m, e, o, st);
      OptionsState(m, o, Eval(m, e, st).1);
      assert Eval(m, JEmptyHash, Eval(m, e, st).1).1 == Eval(m, e, st).1;
    }
  }

  lemma {:induction false} SexprThrows(m: Machine, cfg: Settings, s: Sexpr, main: JExpr, inverse: JExpr, register: bool)
    ensures Throws(m, TranslateSexpr(cfg, s, main, inverse, register), Lost(m, SexprDepths(cfg, s)))
  {
    match Classify(cfg, s)
    case SimpleClass => if s.Apply? { PathThrows(m, s.call.path, false); } else { DataThrows(m, s.up, s.parts); }
    case HelperClass => CallThrows(m, cfg, s.call, main, inverse);
    case AmbiguousClass => AmbiguousThrows(m, s.call.path, main, inverse, register);
  }

  lemma {:induction false} PartialThrows(m: Machine, cfg: Settings, s: Statement)
    requires s.PartialStatement?
    ensures Throws(m, TranslatePartial(cfg, s), Lost(m, OwnDepths(cfg, s)))
  {
    HashThrows(m, cfg, s.hash);
    if s.context.Some? {
      ExprThrows(m, cfg, s.context.value);
    }
    LostUnion(m, HashDepths(cfg, s.hash), if s.context.Some? then ExprDepths(cfg, s.context.value) else {});
  }

  // ----- statements -----

  /** Running the code raises the exception if `b`, and only then. */
  ghost predicate Raises(m: Machine, isSimple: bool, code: seq<Stmt>, b: bool) {
    forall out: Output | out.done.None? :: PerformAll(m, isSimple, code, out).state.thrown == (out.state.thrown || b)
  }

  lemma {:induction false} ShowRaises(m: Machine, isSimple: bool, e: JExpr, b: bool)
    requires Throws(m, e, b)
    ensures Raises(m, isSimple, Show(e), b)
  {
    forall out: Output | out.done.None? ensures PerformAll(m, isSimple, Show(e), out).state.thrown == (out.state.thrown || b) {
      var out1 := Perform(m, isSimple, SetStack(1, e), out);
      assert Show(e)[1..] == [IfPresent(JStack(1), JStack(1))] && [IfPresent(JStack(1), JStack(1))][1..] == [];
      assert PerformAll(m, isSimple, Show(e), out) == Perform(m, isSimple, IfPresent(JStack(1), JStack(1)), out1);
    }
  }

  lemma {:induction false} OneRaises(m: Machine, isSimple: bool, e: JExpr, b: bool)
    requires Throws(m, e, b)
    ensures Raises(m, isSimple, [AppendText(e)], b)
  {
    forall out: Output | out.done.None? ensures PerformAll(m, isSimple, [AppendText(e)], out).state.thrown == (out.state.thrown || b) {
      assert PerformAll(m, isSimple, [AppendText(e)], out) == Perform(m, isSimple, AppendText(e), out);
    }
  }

  lemma {:induction false} UnlessRaises(m: Machine, isSimple: bool, e: JExpr, name: string)
    requires Throws(m, e, false)
    ensures Raises(m, isSimple, UnlessBlock(e, name), false)
  {
    var code := UnlessBlock(e, name);
    forall out: Output | out.done.None? ensures PerformAll(m, isSimple, code, out).state.thrown == out.state.thrown {
      var out1 := Perform(m, isSimple, code[0], out);
      assert Eval(m, e, out.state).1.thrown == out.state.thrown;
      assert code == [code[0]] + [code[1], code[2]];
      TailRaises(m, isSimple, name, [code[1], code[2]], out1);
    }
  }

  lemma {:induction false} TailRaises(m: Machine, isSimple: bool, name: string, tail: seq<Stmt>, out: Output)
    requires tail == [UnlessHelper(name, 1, JBlockMissing(JStack(1), JOptionsRegister)), IfPresent(JStack(1), JStack(1))]
    requires out.done.None?
    ensures PerformAll(m, isSimple, tail, out).state.thrown == out.state.thrown
  {
    var out2 := Perform(m, isSimple, tail[0], out);
    MissingState(m, JStack(1), JOptionsRegister, out.state);
    assert out2.done.None? && out2.state.thrown == out.state.thrown;
    assert tail[1..] == [tail[1]] && [tail[1]][1..] == [];
    assert PerformAll(m, isSimple, [tail[1]], out2) == Perform(m, isSimple, tail[1], out2);
  }

  lemma {:induction false} BlockRaises(m: Machine, isSimple: bool, cfg: Settings, c: Call, main: JExpr, inverse: JExpr, register: bool)
    ensures Raises(m, isSimple, TranslateBlock(cfg, c, main, inverse, register), Lost(m, SexprDepths(cfg, Apply(c))))
  {
    var e := TranslateSexpr(cfg, Apply(c), main, inverse, register);
    SexprThrows(m, cfg, Apply(c), main, inverse, register);
    match Classify(cfg, Apply(c))
    case HelperClass => ShowRaises(m, isSimple, e, Lost(m, SexprDepths(cfg, Apply(c))));
    case SimpleClass =>
      var missing := JBlockMissing(e, BlockOptions(c.path.original, JEmptyHash, main, inverse));
      MissingThrows(m, e, Lost(m, SexprDepths(cfg, Apply(c))), c.path.original, main, inverse);
      ShowRaises(m, isSimple, missing, Lost(m, SexprDepths(cfg, Apply(c))));
    case AmbiguousClass => UnlessRaises(m, isSimple, e, c.path.parts[0]);
  }

  /** The code of a statement raises the exception exactly when the statement reads an outer context that was not passed. */
  lemma {:induction false} StatementRaises(m: Machine, isSimple: bool, cfg: Settings, s: Statement, next: nat, useDepths: bool)
    requires Outputs(s)
    ensures Raises(m, isSimple, TranslateStatement(cfg, s, next, useDepths), Lost(m, OwnDepths(cfg, s)))
  {
    match s
    case Mustache(x, escaped) =>
      var e := TranslateSexpr(cfg, x, JNull, JNull, false);
      SexprThrows(m, cfg, x, JNull, JNull, false);
      if escaped && !cfg.noEscape {
        OneRaises(m, isSimple, JEscape(e), Lost(m, OwnDepths(cfg, s)));
      } else {
        ShowRaises(m, isSimple, e, Lost(m, OwnDepths(cfg, s)));
      }
    case BlockStatement(c, _, _) =>
      BlockRaises(m, isSimple, cfg, c, Reference(MainGuid(s, next), useDepths), Reference(InverseGuid(s, next), useDepths),
                  s.program.Some? || s.inverse.Some?);
    case PartialStatement(_, _, _, _) =>
      PartialThrows(m, cfg, s);
      ShowRaises(m, isSimple, TranslatePartial(cfg, s), Lost(m, OwnDepths(cfg, s)));
  }

  /** A program of several statements goes on to the end. */
  lemma {:induction false} NeverDone(m: Machine, code: seq<Stmt>, out: Output)
    requires out.done.None?
    ensures PerformAll(m, false, code, out).done.None?
    decreases |code|
  {
    if code != [] {
      NeverDone(m, code[1..], Perform(m, false, code[0], out));
    }
  }

  lemma {:induction false} RaisesThen(m: Machine, a: seq<Stmt>, b: bool, c: seq<Stmt>, d: bool)
    requires Raises(m, false, a, b) && Raises(m, false, c, d)
    ensures Raises(m, false, a + c, b || d)
  {
    forall out: Output | out.done.None? ensures PerformAll(m, false, a + c, out).state.thrown == (out.state.thrown || b || d) {
      PerformConcat(m, false, a, c, out);
      NeverDone(m, a, out);
    }
  }

  lemma {:induction false} PendingRaises(m: Machine, isSimple: bool, pending: string)
    ensures Raises(m, isSimple, Pending(pending), false)
  {
    if pending != "" {
      assert Throws(m, JText(pending), false);
      OneRaises(m, isSimple, JText(pending), false);
    }
  }

  lemma {:induction false} OutputRaises(m: Machine, pending: string, code: seq<Stmt>, b: bool, later: seq<Stmt>, c: bool, whole: seq<Stmt>, d: bool)
    requires Raises(m, false, code, b) && Raises(m, false, later, c)
    requires whole == Pending(pending) + code + later && d == (b || c)
    ensures Raises(m, false, whole, d)
  {
    PendingRaises(m, false, pending);
    RaisesThen(m, Pending(pending), false, code, b);
    RaisesThen(m, Pending(pending) + code, b, later, c);
  }

  predicate SomeLost(m: Machine, cfg: Settings, ss: seq<Statement>) {
    m.frame.depths.None? && ReadsOuter(cfg, ss)
  }

  lemma {:induction false} LostFirst(m: Machine, cfg: Settings, ss: seq<Statement>, rest: seq<Statement>)
    requires ss != [] && rest == ss[1..]
    ensures SomeLost(m, cfg, ss) == (Lost(m, OwnDepths(cfg, ss[0])) || SomeLost(m, cfg, rest))
    ensures !Outputs(ss[0]) ==> !Lost(m, OwnDepths(cfg, ss[0]))
  {
  }

  ghost predicate RaiseLost(m: Machine, cfg: Settings, ss: seq<Statement>, next: nat, useDepths: bool, pending: string) {
    Raises(m, false, TranslateStatements(cfg, ss, next, useDepths, pending), SomeLost(m, cfg, ss))
  }

  lemma {:induction false} QuietRaises(m: Machine, cfg: Settings, ss: seq<Statement>, rest: seq<Statement>, next: nat, useDepths: bool,
                                      pending: string, later: string)
    requires ss != [] && rest == ss[1..] && !Outputs(ss[0]) && later == pending + QuietText(ss[0])
    requires RaiseLost(m, cfg, rest, next, useDepths, later)
    ensures RaiseLost(m, cfg, ss, next, useDepths, pending)
  {
    LostFirst(m, cfg, ss, rest);
    QuietUnfolds(cfg, ss, next, useDepths, pending);
  }

  lemma {:induction false} OutputRaisesLost(m: Machine, cfg: Settings, ss: seq<Statement>, rest: seq<Statement>, next: nat, after: nat,
                                           useDepths: bool, pending: string)
    requires ss != [] && rest == ss[1..] && Outputs(ss[0]) && after == next + |Children(ss[0])|
    requires RaiseLost(m, cfg, rest, after, useDepths, "")
    ensures RaiseLost(m, cfg, ss, next, useDepths, pending)
  {
    var own, code := Lost(m, OwnDepths(cfg, ss[0])), TranslateStatement(cfg, ss[0], next, useDepths);
    var others, later := SomeLost(m, cfg, rest), TranslateStatements(cfg, rest, after, useDepths, "");
    var all, whole := SomeLost(m, cfg, ss), TranslateStatements(cfg, ss, next, useDepths, pending);
    LostFirst(m, cfg, ss, rest);
    OutputUnfolds(cfg, ss, rest, next, useDepths, pending);
    StatementRaises(m, false, cfg, ss[0], next, useDepths);
    OutputRaises(m, pending, code, own, later, others, whole, all);
  }

  lemma {:induction false} EmptyRaises(m: Machine, cfg: Settings, next: nat, useDepths: bool, pending: string)
    ensures RaiseLost(m, cfg, [], next, useDepths, pending)
  {
    PendingRaises(m, false, pending);
  }

  lemma {:induction false} StatementsRaise(m: Machine, cfg: Settings, ss: seq<Statement>, next: nat, useDepths: bool, pending: string)
    ensures RaiseLost(m, cfg, ss, next, useDepths, pending)
    decreases |ss|
  {
    if ss == [] {
      EmptyRaises(m, cfg, next, useDepths, pending);
    } else {
      var rest := ss[1..];
      if Outputs(ss[0]) {
        var after := next + |Children(ss[0])|;
        StatementsRaise(m, cfg, rest, after, useDepths, "");
        OutputRaisesLost(m, cfg, ss, rest, next, after, useDepths, pending);
      } else {
        var later := pending + QuietText(ss[0]);
        StatementsRaise(m, cfg, rest, next, useDepths, later);
        QuietRaises(m, cfg, ss, rest, next, useDepths, pending, later);
      }
    }
  }

  lemma {:induction false} SingleRaises(m: Machine, cfg: Settings, s: Statement, useDepths: bool)
    ensures Raises(m, true, TranslateStatements(cfg, [s], 0, useDepths, ""), SomeLost(m, cfg, [s]))
  {
    assert [s][1..] == [] && !ReadsOuter(cfg, []);
    if Outputs(s) {
      var code := TranslateStatement(cfg, s, 0, useDepths);
      assert TranslateStatements(cfg, [s], 0, useDepths, "") == [] + code + [] == code;
      StatementRaises(m, true, cfg, s, 0, useDepths);
    } else {
      PendingRaises(m, true, if s.Content? then "" + s.text else "");
    }
  }

  /** Activated without `depths`, a function raises the exception exactly when a statement of its own reads an outer context. */
  lemma {:induction false} CodeRaises(m: Machine, cfg: Settings, p: Program, isSimple: bool, useDepths: bool)
    requires isSimple ==> |p.statements| == 1
    ensures PerformAll(m, isSimple, TranslateStatements(cfg, p.statements, 0, useDepths, ""), Start(m.rt)).state.thrown ==
            SomeLost(m, cfg, p.statements)
  {
    if isSimple {
      assert p.statements == [p.statements[0]];
      SingleRaises(m, cfg, p.statements[0], useDepths);
    } else {
      StatementsRaise(m, cfg, p.statements, 0, useDepths, "");
    }
  }
}
