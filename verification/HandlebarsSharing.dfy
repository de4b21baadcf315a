/** `matchExistingProgram`: equal programs share one compiled function. When does that change the result? */
module HandlebarsSharing {
  import opened Wrappers
  import opened HandlebarsAst
  import opened HandlebarsCodegen
  import opened HandlebarsStatements
  import opened HandlebarsExecution
  import opened HandlebarsDepths
  import opened HandlebarsReferences
  import opened HandlebarsTheorem

  /** The same opcodes and, child by child, equal children; nothing else is compared. On templates this is `equals`, as
      `EqualsIsSameCode` shows. */
  predicate SameCode(a: Environment, b: Environment)
    decreases a
  {
    && a.opcodes == b.opcodes
    && |a.children| == |b.children|
    && forall i :: 0 <= i < |a.children| ==> SameCode(a.children[i], b.children[i])
  }

  /** `equals` as it is written: it walks as many children as the first program has, and reading past the second's is a type error. */
  function Equals(a: Environment, b: Environment): Option<bool>
    decreases a
  {
    if a.opcodes != b.opcodes then Some(false) else EqualsFrom(a.children, b.children, 0)
  }

  function EqualsFrom(xs: seq<Environment>, ys: seq<Environment>, c: nat): Option<bool>
    requires c <= |xs|
    decreases xs, |xs| - c
  {
    if c == |xs| then Some(true)
    else if c >= |ys| then None
    else
      var same :- Equals(xs[c], ys[c]);
      if same then EqualsFrom(xs, ys, c + 1) else Some(false)
  }

  /** One slot of `context.environments` and `context.programs`. */
  datatype Row = Row(env: Environment, compiled: Compiled)

  function Envs(rows: seq<Row>): (es: seq<Environment>)
    ensures |es| == |rows| && forall i :: 0 <= i < |rows| ==> es[i] == rows[i].env
  {
    seq(|rows|, i requires 0 <= i < |rows| => rows[i].env)
  }

  /** `matchExistingProgram`: the first environment that equals `env`. */
  function Match(seen: seq<Environment>, env: Environment): (h: Option<nat>)
    ensures h.Some? ==> h.value < |seen| && SameCode(seen[h.value], env)
    ensures h.None? ==> forall i :: 0 <= i < |seen| ==> !SameCode(seen[i], env)
  {
    MatchFrom(seen, env, 0)
  }

  function MatchFrom(seen: seq<Environment>, env: Environment, b: nat): (h: Option<nat>)
    requires b <= |seen|
    ensures h.Some? ==> b <= h.value < |seen| && SameCode(seen[h.value], env)
    ensures h.None? ==> forall i :: b <= i < |seen| ==> !SameCode(seen[i], env)
    decreases |seen| - b
  {
    if b == |seen| then None
    else if SameCode(seen[b], env) then Some(b)
    else MatchFrom(seen, env, b + 1)
  }

  lemma MatchOne(e: Environment, c: Environment)
    ensures Match([], c) == None && Match([e], c) == if SameCode(e, c) then Some(0) else None
  {
    assert [e][0] == e;
    assert MatchFrom([e], c, 1) == None;
  }

  datatype Built = Built(compiled: Compiled, useDepths: bool, rows: seq<Row>)

  datatype BuiltAll = BuiltAll(kids: seq<Compiled>, useDepths: bool, rows: seq<Row>)

  /** `compile` with sharing. A child that was found again does not pass its `useDepths` on. */
  function Share(env: Environment, rows: seq<Row>): Result<Built, Failure>
    decreases env
  {
    var all :- ShareAll(env.children, rows);
    var useDepths := all.useDepths || env.depths != {};
    var code :- Generate(useDepths, env.opcodes);
    Ok(Built(Compiled(code, all.kids, env.isSimple), useDepths, all.rows))
  }

  function ShareAll(envs: seq<Environment>, rows: seq<Row>): Result<BuiltAll, Failure>
    decreases envs
  {
    if envs == [] then Ok(BuiltAll([], false, rows))
    else
      match Match(Envs(rows), envs[0])
      case Some(h) =>
        var rest :- ShareAll(envs[1..], rows);
        Ok(BuiltAll([rows[h].compiled] + rest.kids, rest.useDepths, rest.rows))
      case None =>
        var first :- Share(envs[0], rows);
        var rest :- ShareAll(envs[1..], first.rows + [Row(envs[0], first.compiled)]);
        Ok(BuiltAll([first.compiled] + rest.kids, first.useDepths || rest.useDepths, rest.rows))
  }

  // ----- one child after the other -----

  /** One child: found again, or compiled and entered. */
  function ShareChild(child: Environment, rows: seq<Row>): Result<Built, Failure> {
    match Match(Envs(rows), child)
    case Some(h) => Ok(Built(rows[h].compiled, false, rows))
    case None =>
      var first :- Share(child, rows);
      Ok(Built(first.compiled, first.useDepths, first.rows + [Row(child, first.compiled)]))
  }

  /** A child's result before those of the rest. */
  function Prepend(f: Compiled, uses: bool, rest: Result<BuiltAll, Failure>): Result<BuiltAll, Failure> {
    if rest.Err? then rest else Ok(BuiltAll([f] + rest.value.kids, uses || rest.value.useDepths, rest.value.rows))
  }

  lemma {:induction false} ShareAllSteps(envs: seq<Environment>, rows: seq<Row>)
    requires envs != []
    ensures var one := ShareChild(envs[0], rows);
            ShareAll(envs, rows) ==
            if one.Err? then Err(one.error)
            else Prepend(one.value.compiled, one.value.useDepths, ShareAll(envs[1..], one.value.rows))
  {
  }

  // ----- the condition, on the template alone -----

  /** The programs met so far, in the order in which they are completed. */
  function Seen(env: Environment, seen: seq<Environment>): seq<Environment>
    decreases env
  {
    SeenAll(env.children, seen)
  }

  function SeenAll(envs: seq<Environment>, seen: seq<Environment>): seq<Environment>
    decreases envs
  {
    if envs == [] then seen
    else if Match(seen, envs[0]).Some? then SeenAll(envs[1..], seen)
    else SeenAll(envs[1..], Seen(envs[0], seen) + [envs[0]])
  }

  /** Some child that is new at its turn reads an outer context. */
  predicate NewChildUsesDepths(envs: seq<Environment>, seen: seq<Environment>)
    decreases envs
  {
    envs != [] &&
    if Match(seen, envs[0]).Some? then NewChildUsesDepths(envs[1..], seen)
    else UseDepths(envs[0]) || NewChildUsesDepths(envs[1..], Seen(envs[0], seen) + [envs[0]])
  }

  /** No program depends on `depths` only through programs that occurred before. */
  predicate FlagsSafe(env: Environment, seen: seq<Environment>)
    decreases env
  {
    && AllFlagsSafe(env.children, seen)
    && (UseDepths(env) ==> env.depths != {} || NewChildUsesDepths(env.children, seen))
  }

  predicate AllFlagsSafe(envs: seq<Environment>, seen: seq<Environment>)
    decreases envs
  {
    envs == [] ||
    if Match(seen, envs[0]).Some? then AllFlagsSafe(envs[1..], seen)
    else FlagsSafe(envs[0], seen) && AllFlagsSafe(envs[1..], Seen(envs[0], seen) + [envs[0]])
  }

  datatype Resolved = Resolved(env: Environment, seen: seq<Environment>)

  datatype ResolvedAll = ResolvedAll(envs: seq<Environment>, seen: seq<Environment>)

  /** The template with every repeated program replaced by the one met first, whose function it gets; `seen` holds those. */
  function Resolve(env: Environment, seen: seq<Environment>): Resolved
    decreases env
  {
    var all := ResolveAll(env.children, seen);
    Resolved(env.(children := all.envs), all.seen)
  }

  function ResolveAll(envs: seq<Environment>, seen: seq<Environment>): ResolvedAll
    decreases envs
  {
    if envs == [] then ResolvedAll([], seen)
    else
      match Match(seen, envs[0])
      case Some(h) =>
        var rest := ResolveAll(envs[1..], seen);
        ResolvedAll([seen[h]] + rest.envs, rest.seen)
      case None =>
        var first := Resolve(envs[0], seen);
        var rest := ResolveAll(envs[1..], first.seen + [first.env]);
        ResolvedAll([first.env] + rest.envs, rest.seen)
  }

  /** The output is text by the last opcode: no code, a content, or an escaped value. */
  predicate TextOnly(ops: seq<Opcode>) {
    ops == [] || ops[|ops| - 1] != Append
  }

  /** The one output is a text or nothing, whatever the helpers do, so returning it and appending it come to the same: it is
      text only, or a plain path to a context beyond the n there are, or a partial that `invokePartial` indents. */
  predicate TextAnyway(ops: seq<Opcode>, n: nat) {
    || TextOnly(ops)
    || (|ops| == 4 && ops[0].GetContext? && ops[0].depth >= n && ops[2] == ResolvePossibleLambda)
    || (|ops| >= 2 && ops[|ops| - 2].InvokePartial? && ops[|ops| - 2].indent != "")
  }

  /** Under n contexts the program `a` can stand for `e`: they agree on having one statement, all the way down; unless
      `strict`, only where that can be told apart. */
  predicate Alike(strict: bool, a: Environment, e: Environment, n: nat)
    decreases e
  {
    && (a.isSimple == e.isSimple || (!strict && TextAnyway(e.opcodes, n)))
    && |a.children| == |e.children|
    && forall i :: 0 <= i < |e.children| ==> Alike(strict, a.children[i], e.children[i], n + 1)
  }

  /** Each program gets a function that passes `depths` where it must and that was made from a program like it. */
  predicate Safe(strict: bool, env: Environment) {
    FlagsSafe(env, []) && Alike(strict, Resolve(env, []).env, env, 1)
  }

  // ----- functions that are right -----

  /** Every function in the tree has the code of its program compiled on its own. */
  predicate CodeRight(f: Compiled, e: Environment)
    decreases e
  {
    && Generate(UseDepths(e), e.opcodes) == Ok(f.code)
    && |f.kids| == |e.children|
    && forall i :: 0 <= i < |e.children| ==> CodeRight(f.kids[i], e.children[i])
  }

  predicate ShapeRight(strict: bool, f: Compiled, e: Environment, n: nat)
    decreases e
  {
    && (f.isSimple == e.isSimple || (!strict && TextAnyway(e.opcodes, n)))
    && |f.kids| == |e.children|
    && forall i :: 0 <= i < |e.children| ==> ShapeRight(strict, f.kids[i], e.children[i], n + 1)
  }

  /** `f` is what compiling `e` on its own gives; unless `strict`, up to shapes that cannot be told apart under n contexts. */
  predicate Right(strict: bool, f: Compiled, e: Environment, n: nat) {
    CodeRight(f, e) && ShapeRight(strict, f, e, n)
  }

  predicate HasShape(f: Compiled, a: Environment)
    decreases a
  {
    && f.isSimple == a.isSimple
    && |f.kids| == |a.children|
    && forall i :: 0 <= i < |a.children| ==> HasShape(f.kids[i], a.children[i])
  }

  lemma {:induction false} ShapeMoves(strict: bool, f: Compiled, a: Environment, e: Environment, n: nat)
    requires HasShape(f, a)
    ensures ShapeRight(strict, f, e, n) <==> Alike(strict, a, e, n)
    decreases e
  {
    if |a.children| == |e.children| {
      forall i | 0 <= i < |e.children|
        ensures ShapeRight(strict, f.kids[i], e.children[i], n + 1) <==> Alike(strict, a.children[i], e.children[i], n + 1)
      {
        ShapeMoves(strict, f.kids[i], a.children[i], e.children[i], n + 1);
      }
    }
  }

  lemma {:induction false} StrictShape(f: Compiled, e: Environment, n: nat)
    ensures ShapeRight(true, f, e, n) <==> HasShape(f, e)
    decreases e
  {
    if |f.kids| == |e.children| {
      forall i | 0 <= i < |e.children| ensures ShapeRight(true, f.kids[i], e.children[i], n + 1) <==> HasShape(f.kids[i], e.children[i]) {
        StrictShape(f.kids[i], e.children[i], n + 1);
      }
    }
  }

  // ----- `equals` is an equivalence -----

  lemma {:induction false} SameCodeTransitive(a: Environment, b: Environment, c: Environment)
    requires SameCode(a, b) && SameCode(b, c)
    ensures SameCode(a, c)
    decreases a
  {
    forall i | 0 <= i < |a.children| ensures SameCode(a.children[i], c.children[i]) {
      SameCodeTransitive(a.children[i], b.children[i], c.children[i]);
    }
  }

  lemma {:induction false} SameCodeReflexive(a: Environment)
    ensures SameCode(a, a)
    decreases a
  {
    forall i | 0 <= i < |a.children| ensures SameCode(a.children[i], a.children[i]) {
      SameCodeReflexive(a.children[i]);
    }
  }

  lemma {:induction false} SameCodeSymmetric(a: Environment, b: Environment)
    requires SameCode(a, b)
    ensures SameCode(b, a)
    decreases a
  {
    forall i | 0 <= i < |a.children| ensures SameCode(b.children[i], a.children[i]) {
      SameCodeSymmetric(a.children[i], b.children[i]);
    }
  }

  // ----- what equality of code says about two templates -----

  ghost predicate FromTemplate(cfg: Settings, env: Environment) {
    exists p :: env == Compile(cfg, p)
  }

  lemma {:induction false} ChildrenFromStatements(cfg: Settings, ss: seq<Statement>)
    ensures forall i :: 0 <= i < |ChildEnvironments(cfg, ss)| ==> FromTemplate(cfg, ChildEnvironments(cfg, ss)[i])
    decreases |ss|
  {
    if ss != [] {
      ChildrenFromStatements(cfg, ss[1..]);
      var s := ss[0];
      forall env | env in StatementEnvironments(cfg, s) ensures FromTemplate(cfg, env) {
        if s.program.Some? && env == Compile(cfg, s.program.value) {
        } else {
          assert env == Compile(cfg, s.inverse.value);
        }
      }
    }
  }

  lemma ChildrenFromTemplate(cfg: Settings, env: Environment)
    requires FromTemplate(cfg, env)
    ensures forall i :: 0 <= i < |env.children| ==> FromTemplate(cfg, env.children[i])
  {
    var p :| env == Compile(cfg, p);
    assert env.children == ChildEnvironments(cfg, p.statements);
    ChildrenFromStatements(cfg, p.statements);
  }

  lemma {:induction false} SameOuter(a: seq<Environment>, b: seq<Environment>)
    requires |a| == |b| && forall i :: 0 <= i < |a| ==> a[i].depths == b[i].depths
    ensures OuterAll(a) == OuterAll(b)
    decreases |a|
  {
    if a != [] {
      SameOuter(a[1..], b[1..]);
    }
  }

  /** Equal code reads equal depths, although `equals` does not look at them. */
  lemma {:induction false} SameCodeSameDepths(cfg: Settings, a: Environment, b: Environment)
    requires SameCode(a, b) && FromTemplate(cfg, a) && FromTemplate(cfg, b)
    ensures a.depths == b.depths && UseDepths(a) == UseDepths(b)
    decreases a
  {
    ChildrenFromTemplate(cfg, a);
    ChildrenFromTemplate(cfg, b);
    forall i | 0 <= i < |a.children|
      ensures a.children[i].depths == b.children[i].depths && UseDepths(a.children[i]) == UseDepths(b.children[i])
    {
      SameCodeSameDepths(cfg, a.children[i], b.children[i]);
    }
    SameOuter(a.children, b.children);
    var p :| a == Compile(cfg, p);
    var q :| b == Compile(cfg, q);
    StatementsOpsDepths(cfg, p.statements, 0);
    StatementsOpsDepths(cfg, q.statements, 0);
  }

  lemma TemplateBuilds(cfg: Settings, env: Environment, useDepths: bool)
    requires FromTemplate(cfg, env)
    ensures Build(env).Ok? && Generate(useDepths, env.opcodes).Ok?
  {
    var p :| env == Compile(cfg, p);
    CompileSucceeds(cfg, p);
    GenerateSucceeds(cfg, p, useDepths);
  }

  lemma {:induction false} BuildAllAt(envs: seq<Environment>, i: nat)
    requires BuildAll(envs).Ok? && i < |envs|
    ensures |BuildAll(envs).value| == |envs| && Build(envs[i]) == Ok(BuildAll(envs).value[i])
    decreases |envs|
  {
    if i > 0 {
      BuildAllAt(envs[1..], i - 1);
    } else if |envs| > 1 {
      BuildAllAt(envs[1..], 0);
    }
  }

  lemma SameLists<T>(a: seq<T>, b: seq<T>)
    requires |a| == |b| && forall i :: 0 <= i < |a| ==> a[i] == b[i]
    ensures a == b
  {
  }

  /** Equal programs have the same right code. */
  lemma {:induction false} CodeMoves(cfg: Settings, f: Compiled, a: Environment, b: Environment)
    requires SameCode(a, b) && FromTemplate(cfg, a) && FromTemplate(cfg, b) && CodeRight(f, a)
    ensures CodeRight(f, b)
    decreases a
  {
    SameCodeSameDepths(cfg, a, b);
    ChildrenFromTemplate(cfg, a);
    ChildrenFromTemplate(cfg, b);
    forall i | 0 <= i < |a.children| ensures CodeRight(f.kids[i], b.children[i]) {
      CodeMoves(cfg, f.kids[i], a.children[i], b.children[i]);
    }
  }

  /** Right code and shape all the way down means: the very function that compiling the program on its own gives. */
  lemma {:induction false} BuildIsRight(f: Compiled, e: Environment)
    requires Build(e).Ok?
    ensures CodeRight(f, e) && HasShape(f, e) <==> Build(e) == Ok(f)
    decreases e
  {
    var kids := BuildAll(e.children).value;
    BuildAllSize(e.children);
    if |f.kids| == |e.children| {
      forall i | 0 <= i < |e.children|
        ensures CodeRight(f.kids[i], e.children[i]) && HasShape(f.kids[i], e.children[i]) <==> kids[i] == f.kids[i]
      {
        BuildAllAt(e.children, i);
        BuildIsRight(f.kids[i], e.children[i]);
      }
      if CodeRight(f, e) && HasShape(f, e) {
        SameLists(kids, f.kids);
      }
    }
  }

  lemma {:induction false} BuildAllSize(envs: seq<Environment>)
    requires BuildAll(envs).Ok?
    ensures |BuildAll(envs).value| == |envs|
    decreases |envs|
  {
    if envs != [] {
      BuildAllSize(envs[1..]);
    }
  }

  /** Programs with equal code compile to the same function exactly when they agree on having one statement, all the way down. */
  lemma SameBuild(cfg: Settings, a: Environment, b: Environment)
    requires SameCode(a, b) && FromTemplate(cfg, a) && FromTemplate(cfg, b)
    ensures Build(a) == Build(b) <==> Alike(true, a, b, 0)
  {
    TemplateBuilds(cfg, a, true);
    TemplateBuilds(cfg, b, true);
    var f := Build(a).value;
    BuildIsRight(f, a);
    BuildIsRight(f, b);
    CodeMoves(cfg, f, a, b);
    ShapeMoves(true, f, a, b, 0);
    StrictShape(f, b, 0);
  }

  // ----- `equals` on templates -----

  /** Equal opcodes refer to the same numbers, so to equally many children. */
  lemma SameOpsSameCount(cfg: Settings, a: Environment, b: Environment)
    requires FromTemplate(cfg, a) && FromTemplate(cfg, b) && a.opcodes == b.opcodes
    ensures |a.children| == |b.children|
  {
    var p :| a == Compile(cfg, p);
    var q :| b == Compile(cfg, q);
    ChildrenCompiled(cfg, p.statements);
    ChildrenCompiled(cfg, q.statements);
    StatementsRefer(cfg, p.statements, 0, |b.children|);
    StatementsRefer(cfg, q.statements, 0, |b.children|);
    StatementsRefer(cfg, p.statements, 0, |a.children|);
    StatementsRefer(cfg, q.statements, 0, |a.children|);
  }

  /** Comparing two programs of templates never fails, and says whether they have the same code. */
  lemma {:induction false} EqualsIsSameCode(cfg: Settings, a: Environment, b: Environment)
    requires FromTemplate(cfg, a) && FromTemplate(cfg, b)
    ensures Equals(a, b) == Some(SameCode(a, b))
    decreases a
  {
    if a.opcodes == b.opcodes {
      SameOpsSameCount(cfg, a, b);
      ChildrenFromTemplate(cfg, a);
      ChildrenFromTemplate(cfg, b);
      EqualsWalks(cfg, a.children, b.children, 0);
    }
  }

  predicate SameFrom(xs: seq<Environment>, ys: seq<Environment>, c: nat)
    requires |xs| == |ys|
  {
    forall i :: c <= i < |xs| ==> SameCode(xs[i], ys[i])
  }

  lemma SameFromNext(xs: seq<Environment>, ys: seq<Environment>, c: nat)
    requires c < |xs| == |ys|
    ensures SameFrom(xs, ys, c) <==> SameCode(xs[c], ys[c]) && SameFrom(xs, ys, c + 1)
  {
  }

  lemma {:induction false} EqualsWalks(cfg: Settings, xs: seq<Environment>, ys: seq<Environment>, c: nat)
    requires c <= |xs| == |ys|
    requires forall i :: 0 <= i < |xs| ==> FromTemplate(cfg, xs[i]) && FromTemplate(cfg, ys[i])
    ensures EqualsFrom(xs, ys, c) == Some(SameFrom(xs, ys, c))
    decreases xs, |xs| - c
  {
    if c < |xs| {
      EqualsIsSameCode(cfg, xs[c], ys[c]);
      EqualsWalks(cfg, xs, ys, c + 1);
      SameFromNext(xs, ys, c);
    }
  }

  // ----- the flag shows in the code of every program that holds another -----

  lemma SplitDiffers<T>(p: seq<T>, a: seq<T>, x: seq<T>, b: seq<T>, y: seq<T>)
    requires |a| == |b| && p + a + x == p + b + y
    ensures a == b && x == y
  {
    assert a == (p + a + x)[|p|..|p| + |a|] && b == (p + b + y)[|p|..|p| + |b|];
    assert x == (p + a + x)[|p| + |a|..] && y == (p + b + y)[|p| + |b|..];
  }

  lemma {:induction false} FlagShows(cfg: Settings, ss: seq<Statement>, next: nat, pending: string)
    requires TranslateStatements(cfg, ss, next, true, pending) == TranslateStatements(cfg, ss, next, false, pending)
    ensures ChildEnvironments(cfg, ss) == []
    decreases |ss|
  {
    if ss != [] {
      var rest := next + |Children(ss[0])|;
      if Outputs(ss[0]) {
        var a, b := TranslateStatement(cfg, ss[0], next, true), TranslateStatement(cfg, ss[0], next, false);
        SplitDiffers(Pending(pending), a, TranslateStatements(cfg, ss[1..], rest, true, ""),
                     b, TranslateStatements(cfg, ss[1..], rest, false, ""));
        FlagShows(cfg, ss[1..], rest, "");
      } else {
        FlagShows(cfg, ss[1..], next, if ss[0].Content? then pending + ss[0].text else pending);
      }
    }
  }

  lemma FlagMatters(cfg: Settings, env: Environment, used: bool)
    requires FromTemplate(cfg, env) && env.children != []
    ensures Generate(used, env.opcodes) == Generate(UseDepths(env), env.opcodes) <==> used == UseDepths(env)
  {
    var p :| env == Compile(cfg, p);
    assert env.children == ChildEnvironments(cfg, p.statements);
    GenerateSucceeds(cfg, p, true);
    GenerateSucceeds(cfg, p, false);
    if TranslateStatements(cfg, p.statements, 0, true, "") == TranslateStatements(cfg, p.statements, 0, false, "") {
      FlagShows(cfg, p.statements, 0, "");
    }
  }

  // ----- sharing is harmless exactly on the safe templates -----

  lemma {:induction false} ShareSucceeds(cfg: Settings, env: Environment, rows: seq<Row>)
    requires FromTemplate(cfg, env)
    ensures Share(env, rows).Ok?
    decreases env
  {
    ChildrenFromTemplate(cfg, env);
    ShareAllSucceeds(cfg, env.children, rows);
    TemplateBuilds(cfg, env, ShareAll(env.children, rows).value.useDepths || env.depths != {});
  }

  lemma {:induction false} ShareAllSucceeds(cfg: Settings, envs: seq<Environment>, rows: seq<Row>)
    requires forall i :: 0 <= i < |envs| ==> FromTemplate(cfg, envs[i])
    ensures ShareAll(envs, rows).Ok?
    decreases envs
  {
    if envs != [] {
      if Match(Envs(rows), envs[0]).Some? {
        ShareAllSucceeds(cfg, envs[1..], rows);
      } else {
        ShareSucceeds(cfg, envs[0], rows);
        var first := Share(envs[0], rows).value;
        ShareAllSucceeds(cfg, envs[1..], first.rows + [Row(envs[0], first.compiled)]);
      }
    }
  }

  ghost predicate RowsRight(cfg: Settings, rows: seq<Row>) {
    forall i :: 0 <= i < |rows| ==> FromTemplate(cfg, rows[i].env) && CodeRight(rows[i].compiled, rows[i].env)
  }

  lemma RowAdded(cfg: Settings, rows: seq<Row>, row: Row)
    requires RowsRight(cfg, rows) && FromTemplate(cfg, row.env) && CodeRight(row.compiled, row.env)
    ensures RowsRight(cfg, rows + [row]) && Envs(rows + [row]) == Envs(rows) + [row.env]
  {
  }

  predicate AllCodeRight(fs: seq<Compiled>, es: seq<Environment>) {
    |fs| == |es| && forall i :: 0 <= i < |es| ==> CodeRight(fs[i], es[i])
  }

  lemma CodeRightCons(f: Compiled, fs: seq<Compiled>, e: Environment, es: seq<Environment>)
    ensures AllCodeRight([f] + fs, [e] + es) <==> CodeRight(f, e) && AllCodeRight(fs, es)
  {
    var gs, ds := [f] + fs, [e] + es;
    if AllCodeRight(gs, ds) {
      assert gs[0] == f && ds[0] == e;
      forall i | 0 <= i < |es| ensures CodeRight(fs[i], es[i]) {
        assert gs[i + 1] == fs[i] && ds[i + 1] == es[i];
      }
    }
  }

  lemma {:induction false} NewChildCounts(envs: seq<Environment>, seen: seq<Environment>)
    requires NewChildUsesDepths(envs, seen)
    ensures exists i :: 0 <= i < |envs| && UseDepths(envs[i])
    decreases |envs|
  {
    if Match(seen, envs[0]).Some? {
      NewChildCounts(envs[1..], seen);
      var i :| 0 <= i < |envs[1..]| && UseDepths(envs[1..][i]);
      assert UseDepths(envs[i + 1]);
    } else if !UseDepths(envs[0]) {
      var seen1 := Seen(envs[0], seen) + [envs[0]];
      NewChildCounts(envs[1..], seen1);
      var i :| 0 <= i < |envs[1..]| && UseDepths(envs[1..][i]);
      assert UseDepths(envs[i + 1]);
    }
  }

  /** The flag that sharing computes is right where the template is safe, and the code then is as well. */
  lemma FlagDecides(cfg: Settings, env: Environment, seen: seq<Environment>, kids: seq<Compiled>, uses: bool, used: bool, f: Compiled)
    requires FromTemplate(cfg, env) && used == (uses || env.depths != {})
    requires Generate(used, env.opcodes) == Ok(f.code) && f.kids == kids
    requires AllFlagsSafe(env.children, seen) <==> AllCodeRight(kids, env.children)
    requires AllFlagsSafe(env.children, seen) ==> uses == NewChildUsesDepths(env.children, seen)
    ensures FlagsSafe(env, seen) <==> CodeRight(f, env)
    ensures FlagsSafe(env, seen) ==> used == UseDepths(env)
  {
    if env.children == [] {
      assert UseDepths(env) == (env.depths != {});
    } else {
      FlagMatters(cfg, env, used);
    }
    if AllFlagsSafe(env.children, seen) && NewChildUsesDepths(env.children, seen) {
      NewChildCounts(env.children, seen);
    }
  }

  lemma {:induction false} ShareFlags(cfg: Settings, env: Environment, rows: seq<Row>)
    requires FromTemplate(cfg, env) && RowsRight(cfg, rows) && Share(env, rows).Ok?
    ensures var r := Share(env, rows).value;
            && (FlagsSafe(env, Envs(rows)) <==> CodeRight(r.compiled, env))
            && (FlagsSafe(env, Envs(rows)) ==>
                  r.useDepths == UseDepths(env) && RowsRight(cfg, r.rows) && Envs(r.rows) == Seen(env, Envs(rows)))
    decreases env
  {
    ChildrenFromTemplate(cfg, env);
    ShareAllFlags(cfg, env.children, rows);
    var all, r := ShareAll(env.children, rows).value, Share(env, rows).value;
    FlagDecides(cfg, env, Envs(rows), all.kids, all.useDepths, r.useDepths, r.compiled);
  }

  lemma {:induction false} ShareAllFlags(cfg: Settings, envs: seq<Environment>, rows: seq<Row>)
    requires forall i :: 0 <= i < |envs| ==> FromTemplate(cfg, envs[i])
    requires RowsRight(cfg, rows) && ShareAll(envs, rows).Ok?
    ensures var r := ShareAll(envs, rows).value;
            && (AllFlagsSafe(envs, Envs(rows)) <==> AllCodeRight(r.kids, envs))
            && (AllFlagsSafe(envs, Envs(rows)) ==>
                  r.useDepths == NewChildUsesDepths(envs, Envs(rows)) && RowsRight(cfg, r.rows) && Envs(r.rows) == SeenAll(envs, Envs(rows)))
    decreases envs
  {
    if envs != [] {
      var seen, rest := Envs(rows), envs[1..];
      assert envs == [envs[0]] + rest;
      var found := Match(seen, envs[0]);
      if found.Some? {
        CodeMoves(cfg, rows[found.value].compiled, rows[found.value].env, envs[0]);
        ShareAllFlags(cfg, rest, rows);
        CodeRightCons(rows[found.value].compiled, ShareAll(rest, rows).value.kids, envs[0], rest);
      } else {
        ShareFlags(cfg, envs[0], rows);
        var first := Share(envs[0], rows).value;
        var rows1 := first.rows + [Row(envs[0], first.compiled)];
        CodeRightCons(first.compiled, ShareAll(rest, rows1).value.kids, envs[0], rest);
        if FlagsSafe(envs[0], seen) {
          RowAdded(cfg, first.rows, Row(envs[0], first.compiled));
          ShareAllFlags(cfg, rest, rows1);
        }
      }
    }
  }

  // ----- the shape of every function is that of the program met first -----

  predicate RowShaped(row: Row, a: Environment) {
    HasShape(row.compiled, a) && SameCode(a, row.env) && SameCode(row.env, a)
  }

  predicate RowsShaped(rows: seq<Row>, seen: seq<Environment>) {
    |rows| == |seen| && forall i :: 0 <= i < |rows| ==> RowShaped(rows[i], seen[i])
  }

  lemma RowShapedAdded(rows: seq<Row>, seen: seq<Environment>, row: Row, a: Environment)
    requires RowsShaped(rows, seen) && RowShaped(row, a)
    ensures RowsShaped(rows + [row], seen + [a])
  {
  }

  lemma {:induction false} SameMatchFrom(rows: seq<Row>, seen: seq<Environment>, es: seq<Environment>, e: Environment, b: nat)
    requires RowsShaped(rows, seen) && es == Envs(rows) && b <= |rows|
    ensures MatchFrom(seen, e, b) == MatchFrom(es, e, b)
    decreases |rows| - b
  {
    if b < |rows| {
      assert RowShaped(rows[b], seen[b]);
      if SameCode(seen[b], e) {
        SameCodeTransitive(rows[b].env, seen[b], e);
      } else if SameCode(rows[b].env, e) {
        SameCodeTransitive(seen[b], rows[b].env, e);
      }
      SameMatchFrom(rows, seen, es, e, b + 1);
    }
  }

  predicate AllShaped(fs: seq<Compiled>, es: seq<Environment>, like: seq<Environment>) {
    |fs| == |es| == |like| && forall i :: 0 <= i < |es| ==> RowShaped(Row(es[i], fs[i]), like[i])
  }

  lemma ShapedCons(f: Compiled, fs: seq<Compiled>, e: Environment, es: seq<Environment>, a: Environment, like: seq<Environment>)
    requires RowShaped(Row(e, f), a) && AllShaped(fs, es, like)
    ensures AllShaped([f] + fs, [e] + es, [a] + like)
  {
  }

  lemma {:induction false} ShareShapes(env: Environment, rows: seq<Row>, seen: seq<Environment>)
    requires RowsShaped(rows, seen) && Share(env, rows).Ok?
    ensures var r, a := Share(env, rows).value, Resolve(env, seen);
            RowShaped(Row(env, r.compiled), a.env) && RowsShaped(r.rows, a.seen)
    decreases env
  {
    ShareAllShapes(env.children, rows, seen);
    ChildrenShaped(env, ShareAll(env.children, rows).value.kids, ResolveAll(env.children, seen).envs, Share(env, rows).value.compiled);
  }

  lemma ChildrenShaped(env: Environment, fs: seq<Compiled>, like: seq<Environment>, f: Compiled)
    requires AllShaped(fs, env.children, like) && f.kids == fs && f.isSimple == env.isSimple
    ensures RowShaped(Row(env, f), env.(children := like))
  {
    var a := env.(children := like);
    forall i | 0 <= i < |like|
      ensures HasShape(f.kids[i], a.children[i]) && SameCode(a.children[i], env.children[i]) && SameCode(env.children[i], a.children[i])
    {
      assert RowShaped(Row(env.children[i], fs[i]), like[i]);
    }
  }

  lemma {:induction false} ShareAllShapes(envs: seq<Environment>, rows: seq<Row>, seen: seq<Environment>)
    requires RowsShaped(rows, seen) && ShareAll(envs, rows).Ok?
    ensures var r, a := ShareAll(envs, rows).value, ResolveAll(envs, seen);
            AllShaped(r.kids, envs, a.envs) && RowsShaped(r.rows, a.seen)
    decreases envs
  {
    if envs != [] {
      var e, rest := envs[0], envs[1..];
      assert envs == [e] + rest;
      ShareAllSteps(envs, rows);
      SameMatchFrom(rows, seen, Envs(rows), e, 0);
      var found := Match(Envs(rows), e);
      if found.Some? {
        var row, a := rows[found.value], seen[found.value];
        SameCodeTransitive(a, row.env, e);
        SameCodeSymmetric(a, e);
        ShareAllShapes(rest, rows, seen);
        ShapedCons(row.compiled, ShareAll(rest, rows).value.kids, e, rest, a, ResolveAll(rest, seen).envs);
      } else {
        ShareShapes(e, rows, seen);
        var first, a := Share(e, rows).value, Resolve(e, seen);
        var rows1, seen1 := first.rows + [Row(e, first.compiled)], a.seen + [a.env];
        RowShapedAdded(first.rows, a.seen, Row(e, first.compiled), a.env);
        ShareAllShapes(rest, rows1, seen1);
        ShapedCons(first.compiled, ShareAll(rest, rows1).value.kids, e, rest, a.env, ResolveAll(rest, seen1).envs);
      }
    }
  }

  /** For every template: sharing yields what compiling one by one yields if and only if the template is safe. */
  lemma SharedRight(strict: bool, cfg: Settings, p: Program)
    ensures var env := Compile(cfg, p);
            Share(env, []).Ok? &&
            var shared := Share(env, []).value;
            && (Right(strict, shared.compiled, env, 1) <==> Safe(strict, env))
            && (CodeRight(shared.compiled, env) ==> shared.useDepths == UseDepths(env))
  {
    var env := Compile(cfg, p);
    ShareSucceeds(cfg, env, []);
    ShareFlags(cfg, env, []);
    ShareShapes(env, [], []);
    assert Envs([]) == [];
    ShapeMoves(strict, Share(env, []).value.compiled, Resolve(env, []).env, env, 1);
  }

  /** In particular the very same functions exactly when it is strictly safe. */
  lemma SharingExact(cfg: Settings, p: Program)
    ensures var env := Compile(cfg, p);
            && Share(env, []).Ok? && Build(env).Ok?
            && (Share(env, []).value.compiled == Build(env).value <==> Safe(true, env))
  {
    var env := Compile(cfg, p);
    SharedRight(true, cfg, p);
    TemplateBuilds(cfg, env, true);
    BuildIsRight(Share(env, []).value.compiled, env);
    StrictShape(Share(env, []).value.compiled, env, 1);
  }
}
