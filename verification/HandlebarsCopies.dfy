/** The functions that sharing can give a program: its own code or an equal program's, flagged and shaped by where it came from. */
module HandlebarsCopies {
  import opened Wrappers
  import opened HandlebarsAst
  import opened HandlebarsMeaning
  import opened HandlebarsCodegen
  import opened HandlebarsStatements
  import opened HandlebarsExecution
  import opened HandlebarsCorrect
  import opened HandlebarsDepths
  import opened HandlebarsOpen
  import opened HandlebarsTheorem
  import opened HandlebarsSharing

  // ----- templates and what they hold -----

  lemma {:induction false} ChildrenGood(cfg: Settings, ss: seq<Statement>)
    requires WellFormedAll(cfg, ss)
    ensures forall i :: 0 <= i < |ChildPrograms(ss)| ==> WellFormed(cfg, ChildPrograms(ss)[i])
    decreases |ss|
  {
    if ss != [] {
      ChildrenGood(cfg, ss[1..]);
      assert forall i :: 0 <= i < |Children(ss[0])| ==> WellFormed(cfg, Children(ss[0])[i]);
    }
  }

  ghost predicate GoodTemplate(cfg: Settings, e: Environment) {
    exists p :: WellFormed(cfg, p) && e == Compile(cfg, p)
  }

  lemma GoodChildren(cfg: Settings, e: Environment)
    requires GoodTemplate(cfg, e)
    ensures FromTemplate(cfg, e) && forall i :: 0 <= i < |e.children| ==> GoodTemplate(cfg, e.children[i])
  {
    var p :| WellFormed(cfg, p) && e == Compile(cfg, p);
    ChildrenCompiled(cfg, p.statements);
    ChildrenGood(cfg, p.statements);
  }

  // ----- copies -----

  /** The code is that of an equal program, with that program's shape; the flag is set where the program itself reads depths. */
  ghost predicate Written(cfg: Settings, f: Compiled, e: Environment, q: Program, flag: bool) {
    && WellFormed(cfg, q) && SameCode(Compile(cfg, q), e)
    && f.isSimple == (|q.statements| == 1)
    && f.code == TranslateStatements(cfg, q.statements, 0, flag, "")
    && (flag ==> UseDepths(e))
    && (e.depths != {} ==> flag)
  }

  ghost predicate Copies(cfg: Settings, f: Compiled, e: Environment)
    decreases e
  {
    && (exists q, flag :: Written(cfg, f, e, q, flag))
    && AllCopies(cfg, f.kids, e.children)
  }

  ghost predicate AllCopies(cfg: Settings, fs: seq<Compiled>, es: seq<Environment>)
    decreases es
  {
    |fs| == |es| && forall i :: 0 <= i < |es| ==> Copies(cfg, fs[i], es[i])
  }

  lemma {:induction false} CopiesMove(cfg: Settings, f: Compiled, a: Environment, b: Environment)
    requires SameCode(a, b) && FromTemplate(cfg, a) && FromTemplate(cfg, b) && Copies(cfg, f, a)
    ensures Copies(cfg, f, b)
    decreases a
  {
    SameCodeSameDepths(cfg, a, b);
    ChildrenFromTemplate(cfg, a);
    ChildrenFromTemplate(cfg, b);
    var q, flag :| Written(cfg, f, a, q, flag);
    SameCodeTransitive(Compile(cfg, q), a, b);
    assert Written(cfg, f, b, q, flag);
    forall i | 0 <= i < |a.children| ensures Copies(cfg, f.kids[i], b.children[i]) {
      CopiesMove(cfg, f.kids[i], a.children[i], b.children[i]);
    }
  }

  ghost predicate RowsCopy(cfg: Settings, rows: seq<Row>) {
    forall i :: 0 <= i < |rows| ==> GoodTemplate(cfg, rows[i].env) && Copies(cfg, rows[i].compiled, rows[i].env)
  }

  lemma CopiesCons(cfg: Settings, f: Compiled, fs: seq<Compiled>, e: Environment, es: seq<Environment>)
    requires Copies(cfg, f, e) && AllCopies(cfg, fs, es)
    ensures AllCopies(cfg, [f] + fs, [e] + es)
  {
  }

  lemma {:induction false} ShareCopies(cfg: Settings, env: Environment, rows: seq<Row>)
    requires GoodTemplate(cfg, env) && RowsCopy(cfg, rows) && Share(env, rows).Ok?
    ensures var r := Share(env, rows).value;
            && Copies(cfg, r.compiled, env) && RowsCopy(cfg, r.rows) && (r.useDepths ==> UseDepths(env))
    decreases env
  {
    GoodChildren(cfg, env);
    ShareAllCopies(cfg, env.children, rows);
    var r := Share(env, rows).value;
    var p :| WellFormed(cfg, p) && env == Compile(cfg, p);
    GenerateSucceeds(cfg, p, r.useDepths);
    SameCodeReflexive(env);
    assert Written(cfg, r.compiled, env, p, r.useDepths);
  }

  ghost predicate AllGood(cfg: Settings, envs: seq<Environment>) {
    forall i :: 0 <= i < |envs| ==> GoodTemplate(cfg, envs[i]) && FromTemplate(cfg, envs[i])
  }

  ghost predicate SomeUses(envs: seq<Environment>) {
    exists i :: 0 <= i < |envs| && UseDepths(envs[i])
  }

  /** What sharing a list leaves behind. */
  ghost predicate CopiedAll(cfg: Settings, envs: seq<Environment>, r: BuiltAll) {
    AllCopies(cfg, r.kids, envs) && RowsCopy(cfg, r.rows) && (r.useDepths ==> SomeUses(envs))
  }

  lemma CopiedThen(cfg: Settings, envs: seq<Environment>, rest: seq<Environment>, f: Compiled, uses: bool, r: BuiltAll)
    requires envs != [] && rest == envs[1..] && Copies(cfg, f, envs[0]) && (uses ==> UseDepths(envs[0]))
    requires CopiedAll(cfg, rest, r)
    ensures CopiedAll(cfg, envs, BuiltAll([f] + r.kids, uses || r.useDepths, r.rows))
  {
    assert envs == [envs[0]] + rest;
    CopiesCons(cfg, f, r.kids, envs[0], rest);
    RestUses(envs, rest);
  }

  lemma FoundCopies(cfg: Settings, rows: seq<Row>, h: nat, e: Environment)
    requires RowsCopy(cfg, rows) && h < |rows| && SameCode(rows[h].env, e) && FromTemplate(cfg, e)
    ensures Copies(cfg, rows[h].compiled, e)
  {
    GoodChildren(cfg, rows[h].env);
    CopiesMove(cfg, rows[h].compiled, rows[h].env, e);
  }

  lemma RowCopies(cfg: Settings, rows: seq<Row>, row: Row)
    requires RowsCopy(cfg, rows) && GoodTemplate(cfg, row.env) && Copies(cfg, row.compiled, row.env)
    ensures RowsCopy(cfg, rows + [row])
  {
  }

  lemma RestGood(cfg: Settings, envs: seq<Environment>, rest: seq<Environment>)
    requires envs != [] && rest == envs[1..] && AllGood(cfg, envs)
    ensures AllGood(cfg, rest) && GoodTemplate(cfg, envs[0]) && FromTemplate(cfg, envs[0])
  {
  }

  lemma {:induction false} ShareAllCopies(cfg: Settings, envs: seq<Environment>, rows: seq<Row>)
    requires AllGood(cfg, envs) && RowsCopy(cfg, rows) && ShareAll(envs, rows).Ok?
    ensures CopiedAll(cfg, envs, ShareAll(envs, rows).value)
    decreases envs
  {
    if envs != [] {
      var rest := envs[1..];
      RestGood(cfg, envs, rest);
      ShareAllSteps(envs, rows);
      var found := Match(Envs(rows), envs[0]);
      if found.Some? {
        FoundCopies(cfg, rows, found.value, envs[0]);
        ShareAllCopies(cfg, rest, rows);
        CopiedThen(cfg, envs, rest, rows[found.value].compiled, false, ShareAll(rest, rows).value);
      } else {
        ShareCopies(cfg, envs[0], rows);
        var first := Share(envs[0], rows).value;
        var rows1 := first.rows + [Row(envs[0], first.compiled)];
        RowCopies(cfg, first.rows, Row(envs[0], first.compiled));
        ShareAllCopies(cfg, rest, rows1);
        CopiedThen(cfg, envs, rest, first.compiled, first.useDepths, ShareAll(rest, rows1).value);
      }
    }
  }

  lemma RestUses(envs: seq<Environment>, rest: seq<Environment>)
    requires envs != [] && rest == envs[1..]
    ensures (exists i :: 0 <= i < |rest| && UseDepths(rest[i])) ==> exists i :: 0 <= i < |envs| && UseDepths(envs[i])
  {
    if i :| 0 <= i < |rest| && UseDepths(rest[i]) {
      assert UseDepths(envs[i + 1]);
    }
  }

  // ----- running a copy -----

  /** Written for one program, run as the code of any program with the same opcodes. */
  lemma CodeOf(cfg: Settings, f: Compiled, e: Environment, q: Program, flag: bool, r: Program)
    requires Written(cfg, f, e, q, flag) && StatementsOps(cfg, r.statements, 0) == e.opcodes
    ensures f.code == TranslateStatements(cfg, r.statements, 0, flag, "") && Generate(flag, e.opcodes) == Ok(f.code)
  {
    GenerateSucceeds(cfg, q, flag);
    GenerateSucceeds(cfg, r, flag);
  }

  lemma OpsFit(m: Machine, cfg: Settings, sc: Scope, r: Program)
    requires Extensional(m.rt) && WellFormed(cfg, r) && Fits(m, sc, OpsDepths(StatementsOps(cfg, r.statements, 0)))
    ensures Placed(m, cfg, sc, r.statements)
  {
    forall i | 0 <= i < |r.statements| ensures Fits(m, sc, OwnDepths(cfg, r.statements[i])) {
      OwnInOps(cfg, r.statements, 0, i);
    }
  }

  /** Where its own reads are served, a copy gives what such a program gives with the copy's closures as children. */
  lemma RunCopy(rt: Runtime, cfg: Settings, f: Compiled, e: Environment, q: Program, flag: bool, r: Program, sc: Scope, frame: Frame)
    requires Extensional(rt) && Written(cfg, f, e, q, flag)
    requires WellFormed(cfg, r) && StatementsOps(cfg, r.statements, 0) == e.opcodes && (f.isSimple ==> |r.statements| == 1)
    requires Fits(Machine(rt, KidsOf(rt, f), frame), sc, OpsDepths(e.opcodes))
    ensures Activate(rt, f, frame.context, frame.data, frame.depths) ==
            ProgramAs(rt, cfg, sc, r, Closures(Machine(rt, KidsOf(rt, f), frame), flag), f.isSimple)
  {
    CodeOf(cfg, f, e, q, flag, r);
    OpsFit(Machine(rt, KidsOf(rt, f), frame), cfg, sc, r);
    ActivationOpen(rt, cfg, r, f, flag, sc, frame);
  }

  /** Where `depths` are missing that it reads itself, it raises the exception. */
  lemma LoseCopy(rt: Runtime, cfg: Settings, f: Compiled, e: Environment, q: Program, flag: bool, r: Program, frame: Frame)
    requires Written(cfg, f, e, q, flag)
    requires StatementsOps(cfg, r.statements, 0) == e.opcodes && (f.isSimple ==> |r.statements| == 1)
    requires frame.depths.None? && OpsDepths(e.opcodes) != {}
    ensures Activate(rt, f, frame.context, frame.data, frame.depths) == Thrown
  {
    CodeOf(cfg, f, e, q, flag, r);
    ReadsShow(cfg, r.statements, 0);
    ActivationLost(rt, cfg, r, f, flag, frame);
  }

  // ----- one output that is text in any case -----

  lemma {:induction false} FollowUndefined(rt: Runtime, parts: seq<string>)
    ensures Follow(rt, Undefined, parts, false) == Undefined
    decreases |parts|
  {
    if parts != [] {
      FollowUndefined(rt, parts[1..]);
    }
  }

  predicate InvokesHelper(op: Opcode) {
    op.InvokeHelper? || op.InvokeKnownHelper?
  }

  lemma CallOpsLast(cfg: Settings, c: Call, main: Option<nat>, inverse: Option<nat>)
    ensures var ops := CallOps(cfg, c, main, inverse); |ops| >= 4 && InvokesHelper(ops[|ops| - 1])
  {
    assert c.hash.Hash? ==> OptionalHashOps(cfg, c.hash) == HashOps(cfg, c.hash.pairs);
    assert |OptionalHashOps(cfg, c.hash)| >= 1;
  }

  lemma MustacheAnyway(rt: Runtime, cfg: Settings, sc: Scope, s: Statement)
    requires Typed(rt) && s.Mustache? && TextAnyway(StatementOps(cfg, s, 0), |sc.contexts|)
    ensures var v := EvalStatement(rt, cfg, sc, s); v.None? || v.value.Text?
  {
    if !(s.escaped && !cfg.noEscape) {
      match Classify(cfg, s.sexpr)
      case SimpleClass =>
        if s.sexpr.Apply? {
          FollowUndefined(rt, s.sexpr.call.path.parts);
        }
      case HelperClass =>
        CallOpsLast(cfg, s.sexpr.call, None, None);
        assert false;
      case AmbiguousClass =>
        assert false;
    }
  }

  lemma BlockNotAnyway(cfg: Settings, s: Statement, n: nat)
    requires s.BlockStatement?
    ensures !TextAnyway(StatementOps(cfg, s, 0), n)
  {
    var ops := SexprOps(cfg, Apply(s.call), MainGuid(s, 0), InverseGuid(s, 0));
    match Classify(cfg, Apply(s.call))
    case SimpleClass =>
    case HelperClass => CallOpsLast(cfg, s.call, MainGuid(s, 0), InverseGuid(s, 0));
    case AmbiguousClass =>
  }

  lemma StatementAnyway(rt: Runtime, cfg: Settings, sc: Scope, s: Statement, kids: Kids)
    requires Typed(rt) && TextAnyway(StatementOps(cfg, s, 0), |sc.contexts|)
    ensures var v := StatementWith(rt, cfg, sc, s, 0, kids); v.None? || v.value.Text?
  {
    match s
    case Mustache(_, _) => MustacheAnyway(rt, cfg, sc, s);
    case BlockStatement(_, _, _) =>
      BlockNotAnyway(cfg, s, |sc.contexts|);
      assert false;
    case _ =>
  }

  lemma SingleOps(cfg: Settings, r: Program)
    requires |r.statements| == 1
    ensures StatementsOps(cfg, r.statements, 0) == StatementOps(cfg, r.statements[0], 0)
    ensures ChildPrograms(r.statements) == Children(r.statements[0])
  {
    var s := r.statements[0];
    assert r.statements == [s] && [s][1..] == [];
    assert StatementsOps(cfg, [s], 0) == StatementOps(cfg, s, 0) + [] == StatementOps(cfg, s, 0);
    OnlyChildren(r.statements);
  }

  lemma ProgramAnyway(rt: Runtime, cfg: Settings, sc: Scope, r: Program, kids: Kids)
    requires Typed(rt) && |r.statements| == 1 && TextAnyway(StatementsOps(cfg, r.statements, 0), |sc.contexts|)
    ensures ProgramAs(rt, cfg, sc, r, kids, true) == ProgramAs(rt, cfg, sc, r, kids, false)
  {
    var s := r.statements[0];
    SingleOps(cfg, r);
    StatementAnyway(rt, cfg, sc, s, kids);
    assert r.statements == [s] && [s][1..] == [];
    TextsHead(rt, Gives(rt, cfg, sc, kids), [s], [], 0);
    assert Texts(rt, Gives(rt, cfg, sc, kids), [], 0 + |Children(s)|) == "";
    assert Shown(rt, StatementWith(rt, cfg, sc, s, 0, kids)) + "" == Shown(rt, StatementWith(rt, cfg, sc, s, 0, kids));
  }

  // ----- a right copy means its program -----

  lemma AnywayRuns(rt: Runtime, cfg: Settings, f: Compiled, r: Program, flag: bool, sc: Scope, frame: Frame)
    requires Extensional(rt) && Typed(rt) && Placed(Machine(rt, KidsOf(rt, f), frame), cfg, sc, r.statements)
    requires |r.statements| == 1 && TextAnyway(StatementsOps(cfg, r.statements, 0), |sc.contexts|)
    requires f.code == TranslateStatements(cfg, r.statements, 0, flag, "")
    ensures Activate(rt, f.(isSimple := true), frame.context, frame.data, frame.depths) ==
            Activate(rt, f.(isSimple := false), frame.context, frame.data, frame.depths)
  {
    var m := Machine(rt, KidsOf(rt, f), frame);
    var g, h := f.(isSimple := true), f.(isSimple := false);
    assert KidsOf(rt, g) == KidsOf(rt, f) == KidsOf(rt, h);
    ActivationOpen(rt, cfg, r, g, flag, sc, frame);
    ActivationOpen(rt, cfg, r, h, flag, sc, frame);
    ProgramAnyway(rt, cfg, sc, r, Closures(m, flag));
  }

  lemma DepthsFit(m: Machine, cfg: Settings, sc: Scope, p: Program, e: Environment)
    requires e == Compile(cfg, p) && Shows(m.frame, sc, UseDepths(e))
    ensures Fits(m, sc, OpsDepths(e.opcodes))
  {
    StatementsOpsDepths(cfg, p.statements, 0);
    forall k | k in OpsDepths(e.opcodes) ensures m.frame.depths.Some? && Context(m, k) == sc.At(k) {
      assert k in e.depths;
    }
  }

  /** With another shape than its program's, the function still does the same where that cannot be told. */
  lemma ShapeUnseen(rt: Runtime, cfg: Settings, f: Compiled, p: Program, e: Environment, frame: Frame, sc: Scope)
    requires Extensional(rt) && Typed(rt) && WellFormed(cfg, p) && e == Compile(cfg, p) && Copies(cfg, f, e)
    requires Generate(UseDepths(e), e.opcodes) == Ok(f.code) && Shows(frame, sc, UseDepths(e))
    requires f.isSimple != (|p.statements| == 1) && TextAnyway(e.opcodes, |sc.contexts|)
    ensures Activate(rt, f, frame.context, frame.data, frame.depths) ==
            Activate(rt, f.(isSimple := |p.statements| == 1), frame.context, frame.data, frame.depths)
  {
    var m := Machine(rt, KidsOf(rt, f), frame);
    var q, flag :| Written(cfg, f, e, q, flag);
    DepthsFit(m, cfg, sc, p, e);
    if f.isSimple {
      OpsFit(m, cfg, sc, q);
      AnywayRuns(rt, cfg, f, q, flag, sc, frame);
      assert f == f.(isSimple := true);
    } else {
      OpsFit(m, cfg, sc, p);
      GenerateSucceeds(cfg, p, UseDepths(e));
      AnywayRuns(rt, cfg, f, p, UseDepths(e), sc, frame);
      assert f == f.(isSimple := false);
    }
  }

  lemma {:induction false} RightMeans(rt: Runtime, cfg: Settings, f: Compiled, p: Program, e: Environment, n: nat)
    requires Extensional(rt) && Typed(rt) && WellFormed(cfg, p) && e == Compile(cfg, p)
    requires Copies(cfg, f, e) && Right(false, f, e, n)
    ensures ActivationMeans(rt, cfg, f, p, n)
    decreases e
  {
    var ps := ChildPrograms(p.statements);
    ChildrenCompiled(cfg, p.statements);
    ChildrenGood(cfg, p.statements);
    forall i | 0 <= i < |ps| ensures ActivationMeans(rt, cfg, f.kids[i], ps[i], n + 1) {
      RightMeans(rt, cfg, f.kids[i], ps[i], e.children[i], n + 1);
    }
    GenerateSucceeds(cfg, p, UseDepths(e));
    var g := f.(isSimple := |p.statements| == 1);
    forall frame, sc | Shows(frame, sc, UseDepths(e)) && |sc.contexts| == n
      ensures Activate(rt, f, frame.context, frame.data, frame.depths) == EvalProgram(rt, cfg, sc, p)
    {
      ProgramBody(rt, cfg, p, g, frame, sc);
      if f.isSimple != g.isSimple {
        ShapeUnseen(rt, cfg, f, p, e, frame, sc);
      }
    }
  }
}
