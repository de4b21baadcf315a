/** With functions shared between equal programs, which templates still render what they mean? */
module HandlebarsRendering {
  import opened Wrappers
  import opened HandlebarsAst
  import opened HandlebarsMeaning
  import opened HandlebarsCodegen
  import opened HandlebarsExecution
  import opened HandlebarsOpen
  import opened HandlebarsTheorem
  import opened HandlebarsSharing
  import opened HandlebarsCopies
  import opened HandlebarsProper
  import opened HandlebarsTracer

  /** `template(context)` as the source compiles it, with sharing. */
  function RenderShared(rt: Runtime, cfg: Settings, p: Program, context: Value, data: Value): Result<Value, Failure> {
    var shared :- Share(Compile(cfg, p), []);
    Ok(Render(rt, shared.compiled, shared.useDepths, context, data))
  }

  ghost predicate RendersRight(rt: Runtime, cfg: Settings, p: Program, context: Value, data: Value) {
    RenderShared(rt, cfg, p, context, data) == Ok(EvalProgram(rt, cfg, Scope([context], data), p))
  }

  /** What sharing makes of a template is a copy of it. */
  lemma SharedCopies(cfg: Settings, p: Program)
    requires WellFormed(cfg, p)
    ensures Share(Compile(cfg, p), []).Ok? && Copies(cfg, Share(Compile(cfg, p), []).value.compiled, Compile(cfg, p))
  {
    SharedRight(false, cfg, p);
    ShareCopies(cfg, Compile(cfg, p), []);
  }

  lemma SharedMeans(rt: Runtime, cfg: Settings, p: Program)
    requires Extensional(rt) && Typed(rt) && WellFormed(cfg, p) && Safe(false, Compile(cfg, p))
    ensures var shared := Share(Compile(cfg, p), []);
            shared.Ok? && ActivationMeans(rt, cfg, shared.value.compiled, p, 1) && shared.value.useDepths == UseDepths(Compile(cfg, p))
  {
    SharedRight(false, cfg, p);
    SharedCopies(cfg, p);
    RightMeans(rt, cfg, Share(Compile(cfg, p), []).value.compiled, p, Compile(cfg, p), 1);
  }

  lemma TopShows(e: Environment, context: Value, data: Value)
    ensures Shows(Frame(context, data, if UseDepths(e) then Some([context]) else None), Scope([context], data), UseDepths(e))
  {
  }

  /** A safe template renders what it means, whatever the helpers do. */
  lemma SharedCompilerCorrect(rt: Runtime, cfg: Settings, p: Program, context: Value, data: Value)
    requires Extensional(rt) && Typed(rt) && WellFormed(cfg, p) && Safe(false, Compile(cfg, p))
    ensures RendersRight(rt, cfg, p, context, data)
  {
    SharedMeans(rt, cfg, p);
    TopShows(Compile(cfg, p), context, data);
  }

  /** Wherever a function lost depths or the shape of its program, the tracer shows it. */
  lemma SharedDiffers(cfg: Settings, p: Program, env: Environment, f: Compiled, flag: bool)
    requires WellFormed(cfg, p) && env == Compile(cfg, p) && Copies(cfg, f, env) && !Right(false, f, env, 1)
    ensures Render(Tracer(), f, flag, Host(), Host()) != EvalProgram(Tracer(), cfg, Scope([Host()], Host()), p)
  {
    var sc := Scope([Host()], Host());
    var frame := Frame(Host(), Host(), if flag then Some([Host()]) else None);
    if UseDepths(env) && !flag {
      LostDiffers(cfg, f, p, env, frame, sc);
    } else {
      WrongDiffers(cfg, f, p, env, frame, sc);
    }
  }

  /** Any unsafe template is rendered wrong by the tracing runtime, whose helpers only call their blocks. */
  lemma UnsafeRendersWrong(cfg: Settings, p: Program)
    requires WellFormed(cfg, p) && !Safe(false, Compile(cfg, p))
    ensures Extensional(Tracer()) && JavaScript(Tracer()) && !RendersRight(Tracer(), cfg, p, Host(), Host())
  {
    TracerIsJavaScript();
    SharedRight(false, cfg, p);
    SharedCopies(cfg, p);
    var shared := Share(Compile(cfg, p), []).value;
    SharedDiffers(cfg, p, Compile(cfg, p), shared.compiled, shared.useDepths);
  }

  /** Rendering with sharing is right under every runtime, for every context, if and only if the template is safe. It makes no
      difference whether host functions may do whatever they like or are held to what JavaScript fixes. */
  lemma RenderingExact(cfg: Settings, p: Program)
    requires WellFormed(cfg, p)
    ensures (forall rt, context, data | Extensional(rt) && Typed(rt) :: RendersRight(rt, cfg, p, context, data)) <==>
            Safe(false, Compile(cfg, p))
    ensures (forall rt, context, data | Extensional(rt) && JavaScript(rt) :: RendersRight(rt, cfg, p, context, data)) <==>
            Safe(false, Compile(cfg, p))
  {
    if Safe(false, Compile(cfg, p)) {
      forall rt, context, data | Extensional(rt) && Typed(rt) ensures RendersRight(rt, cfg, p, context, data) {
        SharedCompilerCorrect(rt, cfg, p, context, data);
      }
    } else {
      UnsafeRendersWrong(cfg, p);
    }
  }

  /** A safe template never raises the exception of lost `depths`, nor does any block of it, so no helper has one to pass on. */
  lemma SafeNeverRaises(rt: Runtime, cfg: Settings, p: Program, context: Value, data: Value)
    requires Extensional(rt) && JavaScript(rt) && WellFormed(cfg, p) && Safe(false, Compile(cfg, p))
    requires Proper(context) && Proper(data)
    ensures RenderShared(rt, cfg, p, context, data).Ok? && Proper(RenderShared(rt, cfg, p, context, data).value)
  {
    SharedCompilerCorrect(rt, cfg, p, context, data);
    ProgramProper(rt, cfg, Scope([context], data), p);
  }

  // ----- a template whose outer context is lost -----

  function Name(name: string): Call {
    Call(Path([name], 0, false, name), [], NoHash)
  }

  /** `{{../x}}` */
  function Inner(): Program {
    Program([Mustache(Apply(Call(Path(["x"], 1, false, "../x"), [], NoHash)), true)])
  }

  /** `{{#a}}{{../x}}{{/a}}` */
  function BlockA(): Statement {
    BlockStatement(Name("a"), Some(Inner()), None)
  }

  /** `{{#a}}{{../x}}{{/a}}{{#b}}{{#a}}{{../x}}{{/a}}{{/b}}` */
  function Lossy(): Program {
    Program([BlockA(), BlockStatement(Name("b"), Some(Program([BlockA()])), None)])
  }

  lemma LossyDepths(cfg: Settings)
    ensures Compile(cfg, Inner()).depths == {1} && UseDepths(Compile(cfg, Inner())) && Compile(cfg, Inner()).children == []
    ensures var b := Compile(cfg, Program([BlockA()]));
            b.children == [Compile(cfg, Inner())] && b.depths == {} && UseDepths(b)
    ensures Compile(cfg, Lossy()).children == [Compile(cfg, Inner()), Compile(cfg, Program([BlockA()]))]
  {
    var inner, m := Compile(cfg, Inner()), Inner().statements[0];
    assert Inner().statements[1..] == [];
    assert StatementsDepths(cfg, []) == {} && StatementDepths(cfg, m) == {1};
    assert StatementEnvironments(cfg, m) == [] && ChildEnvironments(cfg, []) == [];
    var b := Compile(cfg, Program([BlockA()]));
    assert [BlockA()][1..] == [];
    assert Outer(inner.depths) == {};
    assert b.depths == StatementDepths(cfg, BlockA()) == {};
    assert b.children[0] == inner;
    var second := Lossy().statements[1];
    assert Lossy().statements[1..] == [second];
    assert StatementEnvironments(cfg, BlockA()) == [inner];
  }

  lemma LossyForm(cfg: Settings)
    ensures WellFormed(cfg, Lossy())
  {
    assert Inner().statements[1..] == [] && [BlockA()][1..] == [] && Lossy().statements[1..] == [Lossy().statements[1]];
    assert WellFormed(cfg, Inner());
    assert WellFormedStatement(cfg, BlockA());
    assert WellFormed(cfg, Program([BlockA()]));
  }

  /** The second `{{#a}}` finds its program again, so the program of `b` is compiled without `depths` and cannot pass them on. */
  lemma LossyUnsafe(cfg: Settings)
    ensures !Safe(false, Compile(cfg, Lossy()))
  {
    LossyDepths(cfg);
    RepeatForgets(Compile(cfg, Lossy()), Compile(cfg, Inner()), Compile(cfg, Program([BlockA()])));
  }

  lemma RepeatForgets(env: Environment, inner: Environment, b: Environment)
    requires env.children == [inner, b] && inner.children == [] && b.children == [inner] && b.depths == {} && UseDepths(b)
    ensures !FlagsSafe(env, [])
  {
    assert env.children[1..] == [b] && [b][1..] == [] && [inner][1..] == [];
    SameCodeReflexive(inner);
    MatchOne(inner, inner);
    MatchOne(inner, b);
    assert Seen(inner, []) == [] && [] + [inner] == [inner];
    assert |inner.children| != |b.children| && !SameCode(inner, b);
    assert !NewChildUsesDepths([], [inner]) && !NewChildUsesDepths(b.children, [inner]);
    assert !FlagsSafe(b, [inner]);
    assert !AllFlagsSafe([b], [inner]);
  }

  /** Whatever the settings, this template renders wrong: `../x` raises an exception where direct evaluation finds a value. */
  lemma SharingLosesDepths(cfg: Settings)
    ensures Extensional(Tracer()) && JavaScript(Tracer()) && !RendersRight(Tracer(), cfg, Lossy(), Host(), Host())
  {
    LossyForm(cfg);
    LossyUnsafe(cfg);
    UnsafeRendersWrong(cfg, Lossy());
  }

  // ----- templates with programs of different shapes -----

  /** Two blocks, the second with a comment after the statement of the first. */
  function Pair(s: Statement): Program {
    Program([BlockStatement(Name("a"), Some(Program([s])), None), BlockStatement(Name("b"), Some(Program([s, Comment])), None)])
  }

  lemma LeafCompiles(cfg: Settings, s: Statement)
    requires !s.BlockStatement?
    ensures Compile(cfg, Program([s])) == Environment(StatementOps(cfg, s, 0), [], OwnDepths(cfg, s), true)
    ensures Compile(cfg, Program([s, Comment])) == Environment(StatementOps(cfg, s, 0), [], OwnDepths(cfg, s), false)
  {
    assert [s][1..] == [] && [s, Comment][1..] == [Comment] && [Comment][1..] == [];
    assert StatementsOps(cfg, [], 0) == [] && StatementsOps(cfg, [Comment], 0) == [];
    assert StatementOps(cfg, s, 0) + [] == StatementOps(cfg, s, 0);
    assert StatementsOps(cfg, [s], 0) == StatementOps(cfg, s, 0) == StatementsOps(cfg, [s, Comment], 0);
    assert StatementDepths(cfg, s) == OwnDepths(cfg, s) && StatementsDepths(cfg, []) == {} && StatementsDepths(cfg, [Comment]) == {};
    assert StatementsDepths(cfg, [s]) == OwnDepths(cfg, s) == StatementsDepths(cfg, [s, Comment]);
    assert ChildEnvironments(cfg, []) == [] && ChildEnvironments(cfg, [Comment]) == [];
    assert StatementEnvironments(cfg, s) == [] && StatementEnvironments(cfg, Comment) == [];
    assert ChildEnvironments(cfg, [s]) == [] + [];
    assert ChildEnvironments(cfg, [s, Comment]) == [] + ChildEnvironments(cfg, [Comment]);
  }

  lemma PairCompiles(cfg: Settings, s: Statement)
    requires !s.BlockStatement?
    ensures var e := Environment(StatementOps(cfg, s, 0), [], OwnDepths(cfg, s), true);
            Compile(cfg, Pair(s)).children == [e, e.(isSimple := false)]
  {
    LeafCompiles(cfg, s);
    var ss := Pair(s).statements;
    assert ss[1..] == [ss[1]] && [ss[1]][1..] == [];
    var e := Compile(cfg, Program([s]));
    var c := Compile(cfg, Program([s, Comment]));
    assert StatementEnvironments(cfg, ss[0]) == [e] && StatementEnvironments(cfg, ss[1]) == [c];
    assert ChildEnvironments(cfg, [ss[1]]) == [c] && ChildEnvironments(cfg, ss) == [e, c];
  }

  lemma PairForm(cfg: Settings, s: Statement)
    requires !s.BlockStatement?
    ensures WellFormed(cfg, Pair(s))
  {
    var ss := Pair(s).statements;
    assert [s][1..] == [] && [s, Comment][1..] == [Comment] && [Comment][1..] == [];
    assert ss[1..] == [ss[1]] && [ss[1]][1..] == [];
    assert WellFormedAll(cfg, []) && WellFormedStatement(cfg, s) && WellFormedStatement(cfg, Comment);
    assert WellFormed(cfg, Program([s])) && WellFormed(cfg, Program([s, Comment]));
    assert WellFormedStatement(cfg, ss[0]) && WellFormedStatement(cfg, ss[1]);
  }

  /** The second child gets the function of the first; it is safe where the shapes cannot be told apart. */
  lemma RepeatSafe(strict: bool, env: Environment, e: Environment)
    requires env.children == [e, e.(isSimple := false)] && e.children == [] && e.isSimple
    ensures Safe(strict, env) <==> !strict && TextAnyway(e.opcodes, 2)
  {
    var c := e.(isSimple := false);
    assert SameCode(e, c);
    assert UseDepths(e) == (e.depths != {}) && UseDepths(c) == UseDepths(e);
    RepeatFlags(env, e, c);
    RepeatResolves(env, e, c);
    var a := env.(children := [e, e]);
    assert Alike(strict, e, e, 2);
    assert Alike(strict, e, c, 2) <==> !strict && TextAnyway(e.opcodes, 2);
    assert Alike(strict, a, env, 1) <==> Alike(strict, a.children[0], env.children[0], 2) && Alike(strict, a.children[1], env.children[1], 2);
  }

  lemma RepeatFlags(env: Environment, e: Environment, c: Environment)
    requires env.children == [e, c] && e.children == [] && SameCode(e, c) && UseDepths(c) == UseDepths(e)
    ensures FlagsSafe(env, [])
  {
    assert env.children[1..] == [c] && [c][1..] == [];
    MatchOne(e, e);
    MatchOne(e, c);
    assert Seen(e, []) == [] && [] + [e] == [e];
    assert FlagsSafe(e, []) && AllFlagsSafe([], [e]) && AllFlagsSafe([c], [e]);
    assert AllFlagsSafe(env.children, []);
    assert UseDepths(e) ==> NewChildUsesDepths(env.children, []);
    if i :| 0 <= i < |env.children| && UseDepths(env.children[i]) {
      assert UseDepths(e);
    }
  }

  lemma RepeatResolves(env: Environment, e: Environment, c: Environment)
    requires env.children == [e, c] && e.children == [] && SameCode(e, c)
    ensures Resolve(env, []).env == env.(children := [e, e])
  {
    assert env.children[1..] == [c] && [c][1..] == [];
    MatchOne(e, e);
    MatchOne(e, c);
    assert ResolveAll([], []) == ResolvedAll([], []) && Resolve(e, []) == Resolved(e, []);
    assert [] + [e] == [e] && ResolveAll([], [e]) == ResolvedAll([], [e]);
    assert ResolveAll([c], [e]) == ResolvedAll([e] + [], [e]);
    assert ResolveAll(env.children, []).envs == [e] + ([e] + []);
  }

  /** Whether the pair is safe depends only on whether its statement gives text in any case. */
  lemma PairSafe(cfg: Settings, s: Statement, strict: bool)
    requires !s.BlockStatement?
    ensures Safe(strict, Compile(cfg, Pair(s))) <==> !strict && TextAnyway(StatementOps(cfg, s, 0), 2)
  {
    PairCompiles(cfg, s);
    RepeatSafe(strict, Compile(cfg, Pair(s)), Environment(StatementOps(cfg, s, 0), [], OwnDepths(cfg, s), true));
  }

  /** `{{#a}}x{{/a}}{{#b}}x{{! c}}{{/b}}` shares a function of another shape, yet always renders right. */
  lemma TextsMayShare(rt: Runtime, cfg: Settings, context: Value, data: Value)
    requires Extensional(rt) && Typed(rt)
    ensures !Safe(true, Compile(cfg, Pair(Content("x")))) && RendersRight(rt, cfg, Pair(Content("x")), context, data)
  {
    PairForm(cfg, Content("x"));
    PairSafe(cfg, Content("x"), true);
    PairSafe(cfg, Content("x"), false);
    SharedCompilerCorrect(rt, cfg, Pair(Content("x")), context, data);
  }

  function Original(depth: nat): string {
    if depth == 0 then "x" else "../" + Original(depth - 1)
  }

  /** `{{{x}}}`, `{{{../x}}}` and so on */
  function RawX(depth: nat): Statement {
    Mustache(Apply(Call(Path(["x"], depth, false, Original(depth)), [], NoHash)), false)
  }

  lemma RawXOps(cfg: Settings, depth: nat)
    ensures TextAnyway(StatementOps(cfg, RawX(depth), 0), 2) <==> depth >= 2
  {
    var s := RawX(depth);
    if depth > 0 {
      assert StatementOps(cfg, s, 0) == [GetContext(depth), LookupOnContext(["x"], false, false), ResolvePossibleLambda, Append];
    }
  }

  /** `{{#a}}{{{../../x}}}{{/a}}{{#b}}{{{../../x}}}{{! c}}{{/b}}` renders right as well: beyond the two contexts there is nothing to show. */
  lemma DeepPathsMayShare(rt: Runtime, cfg: Settings, context: Value, data: Value)
    requires Extensional(rt) && Typed(rt)
    ensures !Safe(true, Compile(cfg, Pair(RawX(2)))) && RendersRight(rt, cfg, Pair(RawX(2)), context, data)
  {
    PairForm(cfg, RawX(2));
    RawXOps(cfg, 2);
    PairSafe(cfg, RawX(2), true);
    PairSafe(cfg, RawX(2), false);
    SharedCompilerCorrect(rt, cfg, Pair(RawX(2)), context, data);
  }

  /** `{{#a}}{{{x}}}{{/a}}{{#b}}{{{x}}}{{! c}}{{/b}}` renders wrong, and so it does with `../x`: the block of `b` returns the
      value of `x` where a text is meant. */
  lemma SharingLosesText(cfg: Settings, depth: nat)
    requires depth < 2
    ensures Extensional(Tracer()) && JavaScript(Tracer()) && !RendersRight(Tracer(), cfg, Pair(RawX(depth)), Host(), Host())
  {
    RawXOps(cfg, depth);
    PairForm(cfg, RawX(depth));
    PairSafe(cfg, RawX(depth), false);
    UnsafeRendersWrong(cfg, Pair(RawX(depth)));
  }
}
