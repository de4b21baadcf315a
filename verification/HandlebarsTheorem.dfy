/** The main theorem: for every template, compiling never fails and the result renders what the template means. */
module HandlebarsTheorem {
  import opened Wrappers
  import opened HandlebarsAst
  import opened HandlebarsMeaning
  import opened HandlebarsStatements
  import opened HandlebarsExecution
  import opened HandlebarsCorrect
  import opened HandlebarsOpen

  // ----- compiling never fails -----

  function CompiledProgram(cfg: Settings, p: Program): Compiled
    decreases p
  {
    Compiled(TranslateStatements(cfg, p.statements, 0, UseDepths(Compile(cfg, p)), ""), CompiledAll(cfg, p.statements), |p.statements| == 1)
  }

  function CompiledAll(cfg: Settings, ss: seq<Statement>): seq<Compiled>
    decreases ss
  {
    if ss == [] then [] else CompiledStatement(cfg, ss[0]) + CompiledAll(cfg, ss[1..])
  }

  function CompiledStatement(cfg: Settings, s: Statement): seq<Compiled>
    decreases s
  {
    if !s.BlockStatement? then []
    else
      (if s.program.Some? then [CompiledProgram(cfg, s.program.value)] else []) +
      (if s.inverse.Some? then [CompiledProgram(cfg, s.inverse.value)] else [])
  }

  lemma {:induction false} BuildConcat(a: seq<Environment>, b: seq<Environment>)
    requires BuildAll(a).Ok? && BuildAll(b).Ok?
    ensures BuildAll(a + b) == Ok(BuildAll(a).value + BuildAll(b).value)
    decreases a
  {
    if a == [] {
      assert a + b == b && [] + BuildAll(b).value == BuildAll(b).value;
    } else {
      assert (a + b)[0] == a[0] && (a + b)[1..] == a[1..] + b;
      BuildConcat(a[1..], b);
      var x, xs, ys := Build(a[0]).value, BuildAll(a[1..]).value, BuildAll(b).value;
      assert [x] + (xs + ys) == ([x] + xs) + ys;
    }
  }

  lemma BuildOne(env: Environment)
    requires Build(env).Ok?
    ensures BuildAll([env]) == Ok([Build(env).value])
  {
    assert [env][1..] == [];
    assert BuildAll([]) == Ok([]);
    assert [Build(env).value] + [] == [Build(env).value];
  }

  /** For every template the two compiler passes succeed: no stack error is ever thrown, at any depth. */
  lemma {:induction false} CompileSucceeds(cfg: Settings, p: Program)
    ensures Build(Compile(cfg, p)) == Ok(CompiledProgram(cfg, p))
    decreases p
  {
    BuildChildren(cfg, p.statements);
    GenerateSucceeds(cfg, p, UseDepths(Compile(cfg, p)));
  }

  lemma {:induction false} BuildChildren(cfg: Settings, ss: seq<Statement>)
    ensures BuildAll(ChildEnvironments(cfg, ss)) == Ok(CompiledAll(cfg, ss))
    decreases ss
  {
    if ss != [] {
      BuildStatement(cfg, ss[0]);
      BuildChildren(cfg, ss[1..]);
      BuildConcat(StatementEnvironments(cfg, ss[0]), ChildEnvironments(cfg, ss[1..]));
    }
  }

  lemma {:induction false} BuildOptional(cfg: Settings, p: Option<Program>, s: Statement)
    requires p.Some? ==> p.value < s
    ensures BuildAll(if p.Some? then [Compile(cfg, p.value)] else []) == Ok(if p.Some? then [CompiledProgram(cfg, p.value)] else [])
    decreases s, 0
  {
    if p.Some? {
      CompileSucceeds(cfg, p.value);
      BuildOne(Compile(cfg, p.value));
    }
  }

  lemma {:induction false} BuildStatement(cfg: Settings, s: Statement)
    ensures BuildAll(StatementEnvironments(cfg, s)) == Ok(CompiledStatement(cfg, s))
    decreases s, 1
  {
    if s.BlockStatement? {
      BuildOptional(cfg, s.program, s);
      BuildOptional(cfg, s.inverse, s);
      BuildConcat(if s.program.Some? then [Compile(cfg, s.program.value)] else [],
                  if s.inverse.Some? then [Compile(cfg, s.inverse.value)] else []);
    }
  }

  // ----- depths -----

  lemma {:induction false} DepthsGathered(cfg: Settings, ss: seq<Statement>, i: nat)
    requires i < |ss|
    ensures StatementDepths(cfg, ss[i]) <= StatementsDepths(cfg, ss)
    ensures forall env :: env in StatementEnvironments(cfg, ss[i]) ==> env in ChildEnvironments(cfg, ss)
    decreases |ss|
  {
    if i > 0 {
      DepthsGathered(cfg, ss[1..], i - 1);
    }
  }

  /** `useDepths` covers every depth read in `s` and in the programs it holds. */
  ghost predicate Covered(cfg: Settings, s: Statement, useDepths: bool) {
    && (StatementDepths(cfg, s) != {} ==> useDepths)
    && forall env :: env in StatementEnvironments(cfg, s) && UseDepths(env) ==> useDepths
  }

  /** A program that reads an outer context, or holds one that does, is compiled with `useDepths`. */
  lemma UseDepthsCovers(cfg: Settings, p: Program, i: nat)
    requires i < |p.statements|
    ensures Covered(cfg, p.statements[i], UseDepths(Compile(cfg, p)))
  {
    DepthsGathered(cfg, p.statements, i);
    var all := Compile(cfg, p);
    forall env | env in StatementEnvironments(cfg, p.statements[i]) && UseDepths(env) ensures UseDepths(all) {
      assert env in all.children;
      var k :| 0 <= k < |all.children| && all.children[k] == env;
    }
  }

  // ----- programs -----

  /** The frame shows the scope, with `depths` when the program was compiled with `useDepths`. */
  ghost predicate Shows(frame: Frame, sc: Scope, useDepths: bool) {
    && sc.contexts != []
    && frame.context == sc.contexts[0]
    && frame.data == sc.data
    && (useDepths ==> frame.depths == Some(sc.contexts))
  }

  /** In every frame that shows n nested contexts the function gives what the program means there. */
  ghost predicate ActivationMeans(rt: Runtime, cfg: Settings, f: Compiled, p: Program, n: nat) {
    forall frame, sc :: Shows(frame, sc, UseDepths(Compile(cfg, p))) && |sc.contexts| == n ==>
      Activate(rt, f, frame.context, frame.data, frame.depths) == EvalProgram(rt, cfg, sc, p)
  }

  lemma OwnIncluded(cfg: Settings, s: Statement)
    ensures OwnDepths(cfg, s) <= StatementDepths(cfg, s)
  {
  }

  lemma ShowsFits(m: Machine, cfg: Settings, sc: Scope, s: Statement, useDepths: bool)
    requires Shows(m.frame, sc, useDepths) && Covered(cfg, s, useDepths)
    ensures Fits(m, sc, OwnDepths(cfg, s))
  {
    OwnIncluded(cfg, s);
    forall k | k in OwnDepths(cfg, s) ensures m.frame.depths.Some? && Context(m, k) == sc.At(k) {
      assert useDepths;
    }
  }

  ghost predicate EachCompiled(cfg: Settings, envs: seq<Environment>, ps: seq<Program>) {
    |envs| == |ps| && forall i :: 0 <= i < |ps| ==> envs[i] == Compile(cfg, ps[i])
  }

  lemma CompiledConcat(cfg: Settings, a: seq<Environment>, x: seq<Environment>, b: seq<Program>, y: seq<Program>)
    requires EachCompiled(cfg, a, b) && EachCompiled(cfg, x, y)
    ensures EachCompiled(cfg, a + x, b + y)
  {
  }

  lemma StatementCompiled(cfg: Settings, s: Statement)
    ensures EachCompiled(cfg, StatementEnvironments(cfg, s), Children(s))
  {
  }

  /** The children of a program in order, each compiled on its own. */
  lemma {:induction false} ChildrenCompiled(cfg: Settings, ss: seq<Statement>)
    ensures EachCompiled(cfg, ChildEnvironments(cfg, ss), ChildPrograms(ss))
    decreases |ss|
  {
    if ss != [] {
      StatementCompiled(cfg, ss[0]);
      ChildrenCompiled(cfg, ss[1..]);
      CompiledConcat(cfg, StatementEnvironments(cfg, ss[0]), ChildEnvironments(cfg, ss[1..]), Children(ss[0]), ChildPrograms(ss[1..]));
    }
  }

  lemma ChildUsesDepths(cfg: Settings, p: Program, i: nat)
    requires i < |ChildPrograms(p.statements)| && UseDepths(Compile(cfg, ChildPrograms(p.statements)[i]))
    ensures UseDepths(Compile(cfg, p))
  {
    ChildrenCompiled(cfg, p.statements);
    assert UseDepths(Compile(cfg, p).children[i]);
  }

  /** Calling a closure runs the child in a frame that shows the scope entered. */
  lemma ClosureShows(rt: Runtime, cfg: Settings, f: Compiled, p: Program, frame: Frame, sc: Scope, g: nat, c: Value, d: Option<Value>)
    returns (inner: Frame)
    requires Shows(frame, sc, UseDepths(Compile(cfg, p))) && g < |f.kids| == |ChildPrograms(p.statements)|
    ensures Shows(inner, sc.Enter(rt, c, d), UseDepths(Compile(cfg, ChildPrograms(p.statements)[g])))
    ensures Closure(Machine(rt, KidsOf(rt, f), frame), g, UseDepths(Compile(cfg, p)))(c, d) ==
            Activate(rt, f.kids[g], inner.context, inner.data, inner.depths)
  {
    var useDepths := UseDepths(Compile(cfg, p));
    if UseDepths(Compile(cfg, ChildPrograms(p.statements)[g])) {
      ChildUsesDepths(cfg, p, g);
    }
    inner := Frame(c, InnerData(rt, frame.data, d), if useDepths && frame.depths.Some? then Some([c] + frame.depths.value) else None);
    assert KidsOf(rt, f)[g](inner.context, inner.data, inner.depths) == Activate(rt, f.kids[g], inner.context, inner.data, inner.depths);
  }

  /** A closure over a child that means its program is the block of the direct evaluation. */
  lemma ClosureMeans(rt: Runtime, cfg: Settings, f: Compiled, p: Program, frame: Frame, sc: Scope, g: nat)
    requires Shows(frame, sc, UseDepths(Compile(cfg, p)))
    requires g < |f.kids| == |ChildPrograms(p.statements)|
    requires ActivationMeans(rt, cfg, f.kids[g], ChildPrograms(p.statements)[g], |sc.contexts| + 1)
    ensures SameBlock(Some(Closure(Machine(rt, KidsOf(rt, f), frame), g, UseDepths(Compile(cfg, p)))),
                      Some(Direct(rt, cfg, sc, ChildPrograms(p.statements))(g)))
  {
    var child, useDepths := ChildPrograms(p.statements)[g], UseDepths(Compile(cfg, p));
    forall c, d
      ensures Closure(Machine(rt, KidsOf(rt, f), frame), g, useDepths)(c, d) == EvalProgram(rt, cfg, sc.Enter(rt, c, d), child)
    {
      var inner := ClosureShows(rt, cfg, f, p, frame, sc, g, c, d);
    }
  }

  /** A function with a program's code and children that mean the program's children. */
  lemma ProgramBody(rt: Runtime, cfg: Settings, p: Program, f: Compiled, frame: Frame, sc: Scope)
    requires Extensional(rt) && WellFormed(cfg, p) && Shows(frame, sc, UseDepths(Compile(cfg, p)))
    requires f.code == TranslateStatements(cfg, p.statements, 0, UseDepths(Compile(cfg, p)), "") && f.isSimple == (|p.statements| == 1)
    requires |f.kids| == |ChildPrograms(p.statements)|
    requires forall i :: 0 <= i < |f.kids| ==> ActivationMeans(rt, cfg, f.kids[i], ChildPrograms(p.statements)[i], |sc.contexts| + 1)
    ensures Activate(rt, f, frame.context, frame.data, frame.depths) == EvalProgram(rt, cfg, sc, p)
  {
    var useDepths, ps := UseDepths(Compile(cfg, p)), ChildPrograms(p.statements);
    var m := Machine(rt, KidsOf(rt, f), frame);
    forall i | 0 <= i < |p.statements| ensures Fits(m, sc, OwnDepths(cfg, p.statements[i])) {
      UseDepthsCovers(cfg, p, i);
      ShowsFits(m, cfg, sc, p.statements[i], useDepths);
    }
    ActivationOpen(rt, cfg, p, f, useDepths, sc, frame);
    DirectProgram(rt, cfg, sc, p);
    var closures, direct := Closures(m, useDepths), Direct(rt, cfg, sc, ps);
    forall g: nat | 0 <= g < |ps| ensures SameBlock(Some(closures(g)), Some(direct(g))) {
      ClosureMeans(rt, cfg, f, p, frame, sc, g);
    }
    ProgramAgrees(rt, cfg, sc, p, closures, direct);
  }

  /** Running a compiled program in a frame that shows a scope is evaluating the program in that scope. */
  lemma {:induction false} ActivationCorrect(rt: Runtime, cfg: Settings, p: Program, n: nat)
    requires Extensional(rt) && WellFormed(cfg, p)
    ensures ActivationMeans(rt, cfg, CompiledProgram(cfg, p), p, n)
    decreases p
  {
    KidsCorrect(rt, cfg, p.statements, n + 1);
    forall frame, sc | Shows(frame, sc, UseDepths(Compile(cfg, p))) && |sc.contexts| == n
      ensures Activate(rt, CompiledProgram(cfg, p), frame.context, frame.data, frame.depths) == EvalProgram(rt, cfg, sc, p)
    {
      ProgramBody(rt, cfg, p, CompiledProgram(cfg, p), frame, sc);
    }
  }

  lemma {:induction false} KidsCorrect(rt: Runtime, cfg: Settings, ss: seq<Statement>, n: nat)
    requires Extensional(rt) && WellFormedAll(cfg, ss)
    ensures |CompiledAll(cfg, ss)| == |ChildPrograms(ss)|
    ensures forall i :: 0 <= i < |ChildPrograms(ss)| ==> ActivationMeans(rt, cfg, CompiledAll(cfg, ss)[i], ChildPrograms(ss)[i], n)
    decreases ss
  {
    if ss != [] {
      StatementKidsCorrect(rt, cfg, ss[0], n);
      KidsCorrect(rt, cfg, ss[1..], n);
    }
  }

  lemma {:induction false} StatementKidsCorrect(rt: Runtime, cfg: Settings, s: Statement, n: nat)
    requires Extensional(rt) && WellFormedStatement(cfg, s)
    ensures |CompiledStatement(cfg, s)| == |Children(s)|
    ensures forall i :: 0 <= i < |Children(s)| ==> ActivationMeans(rt, cfg, CompiledStatement(cfg, s)[i], Children(s)[i], n)
    decreases s
  {
    if s.BlockStatement? {
      if s.program.Some? {
        ActivationCorrect(rt, cfg, s.program.value, n);
      }
      if s.inverse.Some? {
        ActivationCorrect(rt, cfg, s.inverse.value, n);
      }
    }
  }

  /** Compiler correctness: both passes succeed and rendering the result is evaluating the template. */
  lemma CompilerCorrect(rt: Runtime, cfg: Settings, p: Program, context: Value, data: Value)
    requires Extensional(rt) && WellFormed(cfg, p)
    ensures var env := Compile(cfg, p);
            var f := Build(env);
            f.Ok? && Render(rt, f.value, UseDepths(env), context, data) == EvalProgram(rt, cfg, Scope([context], data), p)
  {
    CompileSucceeds(cfg, p);
    ActivationCorrect(rt, cfg, p, 1);
    var frame := Frame(context, data, if UseDepths(Compile(cfg, p)) then Some([context]) else None);
    assert Shows(frame, Scope([context], data), UseDepths(Compile(cfg, p)));
  }
}
