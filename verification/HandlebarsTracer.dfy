/** A runtime in which every helper returns an object that records what its blocks gave, so that no difference is lost. */
module HandlebarsTracer {
  import opened Wrappers
  import opened HandlebarsAst
  import opened HandlebarsMeaning
  import opened HandlebarsCodegen
  import opened HandlebarsExecution
  import opened HandlebarsCorrect
  import opened HandlebarsDepths
  import opened HandlebarsOpen
  import opened HandlebarsTheorem
  import opened HandlebarsSharing
  import opened HandlebarsCopies

  // ----- texts that can be taken apart again -----

  function Quote(s: string): string {
    if s == "" then "0" else "1" + [s[0]] + Quote(s[1..])
  }

  lemma {:induction false} QuoteCut(a: string, x: string, b: string, y: string)
    requires Quote(a) + x == Quote(b) + y
    ensures a == b && x == y
    decreases |a|
  {
    var whole := Quote(a) + x;
    if a == "" {
      assert whole[0] == '0';
      assert x == whole[1..] && y == whole[1..];
    } else {
      assert whole[0] == '1' && b != "" && whole[1] == a[0] == b[0];
      assert whole[2..] == Quote(a[1..]) + x && whole[2..] == Quote(b[1..]) + y;
      QuoteCut(a[1..], x, b[1..], y);
      assert a == [a[0]] + a[1..] && b == [b[0]] + b[1..];
    }
  }

  predicate Plain(v: Value) {
    v.Text? || v.HostObject? || v.Thrown?
  }

  function Tag(v: Value): char {
    if v.Text? then 't' else if v.HostObject? then 'o' else 'e'
  }

  function Body(v: Value): string {
    if v.Text? then v.text else if v.HostObject? then v.id else ""
  }

  function Code(v: Value): string {
    [Tag(v)] + Quote(Body(v))
  }

  lemma HeadCut(c: char, p: string, x: string, d: char, q: string, y: string)
    requires [c] + p + x == [d] + q + y
    ensures c == d && p + x == q + y
  {
    var whole := [c] + p + x;
    assert whole[0] == c && whole[1..] == p + x;
    assert ([d] + q + y)[0] == d && ([d] + q + y)[1..] == q + y;
  }

  lemma CodeCut(v: Value, x: string, w: Value, y: string)
    requires Plain(v) && Plain(w) && Code(v) + x == Code(w) + y
    ensures v == w && x == y
  {
    HeadCut(Tag(v), Quote(Body(v)), x, Tag(w), Quote(Body(w)), y);
    QuoteCut(Body(v), x, Body(w), y);
  }

  // ----- the runtime -----

  /** The one object that contexts, data, helpers and their properties are: a function. */
  function Host(): Value {
    HostObject("")
  }

  function Probe(b: Option<Block>): Value {
    if b.Some? then b.value(Host(), None) else Host()
  }

  function Traced(o: Options): Value {
    HostObject(Code(Probe(o.main)) + Code(Probe(o.inverse)))
  }

  predicate NonZero(numeral: string) {
    exists i :: 0 <= i < |numeral| && '1' <= numeral[i] <= '9'
  }

  predicate TracerTruth(v: Value) {
    if v.Number? then NonZero(v.numeral) else Truthy(v)
  }

  function TracerProperty(v: Value, name: string): Value {
    if v.Record? && name in v.fields then v.fields[name] else if v.HostObject? then Host() else Undefined
  }

  function TracerText(v: Value): string {
    match v
    case Boolean(b) => Word(b)
    case Number(n) => n
    case HostObject(id) => Quote(id)
    case _ => ""
  }

  function TracerEscape(v: Value): string {
    match v
    case Text(t) => EscapeText(t)
    case Record(_) => ""
    case HostObject(id) => EscapeText(Quote(id))
    case _ => TracerText(v)
  }

  function Tracer(): Runtime {
    Runtime(v => TracerTruth(v), v => v == Host(), (v, name) => TracerProperty(v, name),
            (_, _) => Host(), _ => Host(), (_, _, _, o) => Traced(o),
            (_, indent, _, _, _) => if indent != "" then Text("") else Host(), v => TracerText(v), v => TracerEscape(v))
  }

  lemma TracerReads()
    ensures Typed(Tracer()) && ReadsAsJavaScript(Tracer())
  {
  }

  lemma TracerWrites()
    ensures WritesAsJavaScript(Tracer())
  {
  }

  lemma TracerPasses()
    ensures PassesOn(Tracer())
  {
  }

  lemma TracerExtensional()
    ensures Extensional(Tracer())
  {
  }

  lemma TracerIsJavaScript()
    ensures Extensional(Tracer()) && JavaScript(Tracer())
  {
    TracerReads();
    TracerWrites();
    TracerPasses();
    TracerExtensional();
  }

  // ----- helpers that pass exceptions on are within the bounds -----

  /** As shipped helpers do that return what their block returns: `blockHelperMissing` where it is given true. */
  function Through(c: Value, o: Options): Value {
    if o.main.Some? then o.main.value(c, None) else Undefined
  }

  function PassThrough(): Runtime {
    Tracer().(invoke := (_, c, _, o) => Through(c, o))
  }

  lemma PassThroughPasses()
    ensures PassesOn(PassThrough())
  {
    TracerPasses();
    var rt := PassThrough();
    forall f, c, args, o | Proper(f) && Proper(c) && ProperAll(args) && ProperOptions(o) ensures Proper(rt.invoke(f, c, args, o)) {
      assert rt.invoke(f, c, args, o) == Through(c, o);
    }
  }

  lemma PassThroughExtensional()
    ensures Extensional(PassThrough())
  {
  }

  /** They raise the exception of their block, and have JavaScript's values all the same. */
  lemma PassThroughIsJavaScript(f: Value, c: Value, args: seq<Value>, o: Options)
    ensures Extensional(PassThrough()) && JavaScript(PassThrough())
    ensures o.main.Some? && o.main.value(c, None) == Thrown ==> PassThrough().invoke(f, c, args, o) == Thrown
  {
    TracerReads();
    TracerWrites();
    PassThroughPasses();
    PassThroughExtensional();
  }

  // ----- looking up in clean scopes -----

  predicate Clean(sc: Scope) {
    sc.contexts != [] && (forall k :: 0 <= k < |sc.contexts| ==> sc.contexts[k] == Host()) && sc.data == Host()
  }

  lemma {:induction false} FollowHost(parts: seq<string>, falsy: bool)
    ensures Follow(Tracer(), Host(), parts, falsy) == Host()
    decreases |parts|
  {
    if parts != [] {
      FollowHost(parts[1..], falsy);
    }
  }

  /** A plain path gives the object where there is a context, and nothing beyond. */
  lemma PathClean(sc: Scope, p: Path)
    requires Clean(sc) && p.depth < |sc.contexts|
    ensures EvalPath(Tracer(), sc, p, false) == Host()
  {
    FollowHost(p.parts, false);
  }

  lemma {:induction false} UpClean(n: nat)
    ensures DataUp(Tracer(), Host(), n) == Host()
    decreases n
  {
    if n > 0 {
      UpClean(n - 1);
    }
  }

  lemma DataClean(sc: Scope, up: nat, parts: seq<string>)
    requires Clean(sc)
    ensures EvalData(Tracer(), sc, up, parts) == Host()
  {
    UpClean(up);
    FollowHost(parts, true);
  }

  // ----- what a template gives under it -----

  function Filled(main: Option<Block>, inverse: Option<Block>): Options {
    WithBlocks("", Undefined, main, inverse, Undefined)
  }

  lemma BlockGives(cfg: Settings, sc: Scope, c: Call, main: Option<Block>, inverse: Option<Block>)
    ensures EvalBlock(Tracer(), cfg, sc, c, main, inverse) == Traced(Filled(main, inverse))
  {
  }

  predicate Given(v: Value) {
    v.Text? || v.HostObject?
  }

  lemma SimpleGives(sc: Scope, s: Sexpr)
    requires Clean(sc)
    ensures var v := EvalSimple(Tracer(), sc, s); v == Undefined || v == Host()
    ensures (s.Apply? ==> s.call.path.depth < |sc.contexts|) ==> EvalSimple(Tracer(), sc, s) == Host()
  {
    match s
    case DataRef(up, parts) => DataClean(sc, up, parts);
    case Apply(c) =>
      if c.path.depth < |sc.contexts| {
        PathClean(sc, c.path);
      } else {
        FollowUndefined(Tracer(), c.path.parts);
      }
  }

  lemma SexprGives(cfg: Settings, sc: Scope, s: Sexpr)
    requires Clean(sc)
    ensures var v := EvalSexpr(Tracer(), cfg, sc, s, None, None); v == Undefined || v.HostObject?
    ensures (Classify(cfg, s).SimpleClass? && s.Apply? ==> s.call.path.depth < |sc.contexts|) ==>
              EvalSexpr(Tracer(), cfg, sc, s, None, None).HostObject?
  {
    if Classify(cfg, s).SimpleClass? {
      SimpleGives(sc, s);
    }
  }

  lemma OtherGives(cfg: Settings, sc: Scope, s: Statement)
    requires Clean(sc) && !s.BlockStatement?
    ensures Given(EvalStatement(Tracer(), cfg, sc, s).GetOr(Text("")))
  {
    if s.Mustache? {
      SexprGives(cfg, sc, s.sexpr);
    }
  }

  lemma ProgramGives(cfg: Settings, sc: Scope, p: Program, kids: Kids, isSimple: bool)
    requires Clean(sc) && (isSimple ==> |p.statements| == 1)
    ensures Given(ProgramAs(Tracer(), cfg, sc, p, kids, isSimple))
  {
    if isSimple {
      var s := p.statements[0];
      if s.BlockStatement? {
        BlockGives(cfg, sc, s.call, KidAt(kids, MainGuid(s, 0)), KidAt(kids, InverseGuid(s, 0)));
      } else {
        OtherGives(cfg, sc, s);
      }
    }
  }

  /** A single statement whose output is not text in any case gives something that is no text. */
  lemma RawIsNoText(cfg: Settings, sc: Scope, p: Program, kids: Kids)
    requires Clean(sc) && |p.statements| == 1 && !TextAnyway(StatementsOps(cfg, p.statements, 0), |sc.contexts|)
    ensures !ProgramAs(Tracer(), cfg, sc, p, kids, true).Text?
  {
    var s := p.statements[0];
    SingleOps(cfg, p);
    match s
    case BlockStatement(c, _, _) => BlockGives(cfg, sc, c, KidAt(kids, MainGuid(s, 0)), KidAt(kids, InverseGuid(s, 0)));
    case Mustache(x, _) =>
      SexprGives(cfg, sc, x);
    case _ =>
  }

  // ----- nothing is lost -----

  ghost predicate KidsPlain(a: Kids, from: nat, to: nat) {
    forall g: nat :: from <= g < to ==> Plain(Probe(Some(a(g))))
  }

  ghost predicate SameProbes(a: Kids, b: Kids, from: nat, to: nat) {
    forall g: nat :: from <= g < to ==> Probe(Some(a(g))) == Probe(Some(b(g)))
  }

  lemma BlockReveals(s: Statement, next: nat, a: Kids, b: Kids)
    requires s.BlockStatement? && KidsPlain(a, next, next + |Children(s)|) && KidsPlain(b, next, next + |Children(s)|)
    requires Traced(Filled(KidAt(a, MainGuid(s, next)), KidAt(a, InverseGuid(s, next)))) ==
             Traced(Filled(KidAt(b, MainGuid(s, next)), KidAt(b, InverseGuid(s, next))))
    ensures SameProbes(a, b, next, next + |Children(s)|)
  {
    var o := Filled(KidAt(a, MainGuid(s, next)), KidAt(a, InverseGuid(s, next)));
    var o' := Filled(KidAt(b, MainGuid(s, next)), KidAt(b, InverseGuid(s, next)));
    CodeCut(Probe(o.main), Code(Probe(o.inverse)), Probe(o'.main), Code(Probe(o'.inverse)));
    assert Code(Probe(o.inverse)) + "" == Code(Probe(o'.inverse)) + "";
    CodeCut(Probe(o.inverse), "", Probe(o'.inverse), "");
  }

  predicate Comparable(p: string, q: string) {
    p <= q || q <= p
  }

  lemma Compared(p: string, x: string, q: string, y: string)
    requires p + x == q + y
    ensures Comparable(p, q) && (p == q ==> x == y)
  {
    var whole := p + x;
    assert p == whole[..|p|] && q == whole[..|q|] && x == whole[|p|..] && y == whole[|q|..];
  }

  lemma QuotePrefix(a: string, b: string)
    requires Quote(a) <= Quote(b)
    ensures a == b
  {
    QuoteCut(a, Quote(b)[|Quote(a)|..], b, "");
  }

  lemma QuoteComparable(a: string, b: string)
    requires Comparable(Quote(a), Quote(b))
    ensures a == b
  {
    if Quote(a) <= Quote(b) {
      QuotePrefix(a, b);
    }
    if Quote(b) <= Quote(a) {
      QuotePrefix(b, a);
    }
  }

  /** The part of a statement in the text determines what its blocks gave, even as the beginning of another part. */
  lemma StatementReveals(cfg: Settings, sc: Scope, s: Statement, next: nat, a: Kids, b: Kids)
    requires KidsPlain(a, next, next + |Children(s)|) && KidsPlain(b, next, next + |Children(s)|)
    requires Comparable(Shown(Tracer(), StatementWith(Tracer(), cfg, sc, s, next, a)), Shown(Tracer(), StatementWith(Tracer(), cfg, sc, s, next, b)))
    ensures StatementWith(Tracer(), cfg, sc, s, next, a) == StatementWith(Tracer(), cfg, sc, s, next, b)
    ensures SameProbes(a, b, next, next + |Children(s)|)
  {
    if s.BlockStatement? {
      var o := Filled(KidAt(a, MainGuid(s, next)), KidAt(a, InverseGuid(s, next)));
      var o' := Filled(KidAt(b, MainGuid(s, next)), KidAt(b, InverseGuid(s, next)));
      BlockGives(cfg, sc, s.call, KidAt(a, MainGuid(s, next)), KidAt(a, InverseGuid(s, next)));
      BlockGives(cfg, sc, s.call, KidAt(b, MainGuid(s, next)), KidAt(b, InverseGuid(s, next)));
      QuoteComparable(Traced(o).id, Traced(o').id);
      BlockReveals(s, next, a, b);
    }
  }

  /** A part that is comparable under two givers is the same under both, and has the same children. */
  ghost predicate RevealsAt(rt: Runtime, v: Option<Value>, w: Option<Value>, a: Kids, b: Kids, from: nat, to: nat) {
    Comparable(Shown(rt, v), Shown(rt, w)) ==> v == w && SameProbes(a, b, from, to)
  }

  predicate Within(s: Statement, n: nat, to: nat) {
    n + |Children(s)| <= to
  }

  lemma {:induction false} GiversReveal(rt: Runtime, f: Giver, g: Giver, a: Kids, b: Kids, ss: seq<Statement>, next: nat, to: nat)
    requires forall s, n: nat :: Within(s, n, to) ==> RevealsAt(rt, f(s, n), g(s, n), a, b, n, n + |Children(s)|)
    requires next + |ChildPrograms(ss)| <= to && Texts(rt, f, ss, next) == Texts(rt, g, ss, next)
    ensures SameProbes(a, b, next, next + |ChildPrograms(ss)|)
    decreases |ss|
  {
    if ss != [] {
      var rest, after := ss[1..], next + |Children(ss[0])|;
      assert Within(ss[0], next, to) && RevealsAt(rt, f(ss[0], next), g(ss[0], next), a, b, next, after);
      Compared(Shown(rt, f(ss[0], next)), Texts(rt, f, rest, after), Shown(rt, g(ss[0], next)), Texts(rt, g, rest, after));
      GiversReveal(rt, f, g, a, b, rest, after, to);
    }
  }

  lemma OneReveals(rt: Runtime, cfg: Settings, sc: Scope, to: nat, a: Kids, b: Kids, s: Statement, n: nat, v: Option<Value>, w: Option<Value>)
    requires KidsPlain(a, 0, to) && KidsPlain(b, 0, to) && Within(s, n, to) && rt == Tracer()
    requires v == StatementWith(rt, cfg, sc, s, n, a) && w == StatementWith(rt, cfg, sc, s, n, b)
    ensures RevealsAt(rt, v, w, a, b, n, n + |Children(s)|)
  {
    if Comparable(Shown(rt, v), Shown(rt, w)) {
      StatementReveals(cfg, sc, s, n, a, b);
    }
  }

  lemma TextsReveal(rt: Runtime, cfg: Settings, sc: Scope, ss: seq<Statement>, a: Kids, b: Kids, f: Giver, g: Giver, to: nat)
    requires rt == Tracer() && f == Gives(rt, cfg, sc, a) && g == Gives(rt, cfg, sc, b)
    requires to == |ChildPrograms(ss)| && KidsPlain(a, 0, to) && KidsPlain(b, 0, to)
    requires Texts(rt, f, ss, 0) == Texts(rt, g, ss, 0)
    ensures SameProbes(a, b, 0, to)
  {
    forall s, n: nat | Within(s, n, to) ensures RevealsAt(rt, f(s, n), g(s, n), a, b, n, n + |Children(s)|) {
      OneReveals(rt, cfg, sc, to, a, b, s, n, f(s, n), g(s, n));
    }
    GiversReveal(rt, f, g, a, b, ss, 0, to);
  }

  lemma ProgramReveals(cfg: Settings, sc: Scope, p: Program, a: Kids, b: Kids)
    requires KidsPlain(a, 0, |ChildPrograms(p.statements)|) && KidsPlain(b, 0, |ChildPrograms(p.statements)|)
    requires ProgramWith(Tracer(), cfg, sc, p, a) == ProgramWith(Tracer(), cfg, sc, p, b)
    ensures SameProbes(a, b, 0, |ChildPrograms(p.statements)|)
  {
    if |p.statements| == 1 {
      var s := p.statements[0];
      OnlyChildren(p.statements);
      if s.BlockStatement? {
        BlockGives(cfg, sc, s.call, KidAt(a, MainGuid(s, 0)), KidAt(a, InverseGuid(s, 0)));
        BlockGives(cfg, sc, s.call, KidAt(b, MainGuid(s, 0)), KidAt(b, InverseGuid(s, 0)));
        BlockReveals(s, 0, a, b);
      }
    } else {
      TextsReveal(Tracer(), cfg, sc, p.statements, a, b, Gives(Tracer(), cfg, sc, a), Gives(Tracer(), cfg, sc, b), |ChildPrograms(p.statements)|);
    }
  }

  // ----- running a copy -----

  /** A frame that shows a clean scope, with or without its outer contexts. */
  predicate Probed(frame: Frame, sc: Scope) {
    && Clean(sc)
    && frame.context == Host() && frame.data == Host()
    && (frame.depths.Some? ==> frame.depths == Some(sc.contexts))
  }

  /** The program itself, or one with the same opcodes of the copy's shape. */
  ghost predicate StandsFor(cfg: Settings, f: Compiled, p: Program, r: Program) {
    && WellFormed(cfg, r) && StatementsOps(cfg, r.statements, 0) == StatementsOps(cfg, p.statements, 0)
    && (f.isSimple ==> |r.statements| == 1)
    && (f.isSimple == (|p.statements| == 1) ==> r == p)
  }

  lemma StandIn(cfg: Settings, f: Compiled, p: Program, q: Program, flag: bool) returns (r: Program)
    requires WellFormed(cfg, p) && Written(cfg, f, Compile(cfg, p), q, flag)
    ensures StandsFor(cfg, f, p, r)
  {
    r := if f.isSimple && |p.statements| != 1 then q else p;
  }

  ghost predicate Runs(cfg: Settings, f: Compiled, p: Program, r: Program, flag: bool, frame: Frame, sc: Scope) {
    var result := Activate(Tracer(), f, frame.context, frame.data, frame.depths);
    && (f.isSimple ==> |r.statements| == 1)
    && if frame.depths.None? && ReadsOuter(cfg, p.statements) then result == Thrown
       else result == ProgramAs(Tracer(), cfg, sc, r, Closures(Machine(Tracer(), KidsOf(Tracer(), f), frame), flag), f.isSimple)
  }

  lemma CopyRuns(cfg: Settings, f: Compiled, p: Program, q: Program, flag: bool, r: Program, frame: Frame, sc: Scope)
    requires Written(cfg, f, Compile(cfg, p), q, flag) && StandsFor(cfg, f, p, r) && Probed(frame, sc)
    ensures Runs(cfg, f, p, r, flag, frame, sc)
  {
    var m, e := Machine(Tracer(), KidsOf(Tracer(), f), frame), Compile(cfg, p);
    ReadsShow(cfg, p.statements, 0);
    if frame.depths.None? && ReadsOuter(cfg, p.statements) {
      LoseCopy(Tracer(), cfg, f, e, q, flag, r, frame);
    } else {
      TracerIsJavaScript();
      assert Fits(m, sc, OpsDepths(e.opcodes));
      RunCopy(Tracer(), cfg, f, e, q, flag, r, sc, frame);
    }
  }

  lemma CopyPlain(cfg: Settings, f: Compiled, p: Program, frame: Frame, sc: Scope)
    requires WellFormed(cfg, p) && Copies(cfg, f, Compile(cfg, p)) && Probed(frame, sc)
    ensures Plain(Activate(Tracer(), f, frame.context, frame.data, frame.depths))
  {
    var q, flag :| Written(cfg, f, Compile(cfg, p), q, flag);
    var r := StandIn(cfg, f, p, q, flag);
    CopyRuns(cfg, f, p, q, flag, r, frame, sc);
    ProgramGives(cfg, sc, r, Closures(Machine(Tracer(), KidsOf(Tracer(), f), frame), flag), f.isSimple);
  }

  /** The frame in which a closure runs its child when the helper probes it. */
  function ProbeFrame(frame: Frame, flag: bool): Frame {
    Frame(Host(), frame.data, if flag && frame.depths.Some? then Some([Host()] + frame.depths.value) else None)
  }

  function Entered(sc: Scope): Scope {
    sc.Enter(Tracer(), Host(), None)
  }

  lemma InnerProbed(frame: Frame, sc: Scope, flag: bool)
    requires Probed(frame, sc)
    ensures Probed(ProbeFrame(frame, flag), Entered(sc)) && |Entered(sc).contexts| == |sc.contexts| + 1
  {
  }

  lemma ClosureProbe(f: Compiled, frame: Frame, flag: bool, g: nat)
    requires g < |f.kids|
    ensures var inner := ProbeFrame(frame, flag);
            Probe(Some(Closures(Machine(Tracer(), KidsOf(Tracer(), f), frame), flag)(g))) ==
            Activate(Tracer(), f.kids[g], inner.context, inner.data, inner.depths)
  {
    var inner := ProbeFrame(frame, flag);
    assert KidsOf(Tracer(), f)[g](inner.context, inner.data, inner.depths) == Activate(Tracer(), f.kids[g], inner.context, inner.data, inner.depths);
  }

  lemma DirectProbe(cfg: Settings, sc: Scope, ps: seq<Program>, g: nat)
    requires g < |ps|
    ensures Probe(Some(Direct(Tracer(), cfg, sc, ps)(g))) == EvalProgram(Tracer(), cfg, Entered(sc), ps[g])
  {
  }

  lemma ClosuresPlain(cfg: Settings, f: Compiled, p: Program, flag: bool, frame: Frame, sc: Scope)
    requires WellFormed(cfg, p) && Copies(cfg, f, Compile(cfg, p)) && Probed(frame, sc)
    ensures KidsPlain(Closures(Machine(Tracer(), KidsOf(Tracer(), f), frame), flag), 0, |ChildPrograms(p.statements)|)
  {
    var ps, kids := ChildPrograms(p.statements), Closures(Machine(Tracer(), KidsOf(Tracer(), f), frame), flag);
    ChildrenCompiled(cfg, p.statements);
    ChildrenGood(cfg, p.statements);
    InnerProbed(frame, sc, flag);
    forall g: nat | 0 <= g < |ps| ensures Plain(Probe(Some(kids(g)))) {
      ClosureProbe(f, frame, flag, g);
      CopyPlain(cfg, f.kids[g], ps[g], ProbeFrame(frame, flag), Entered(sc));
    }
  }

  /** Direct evaluation never gives the exception. */
  lemma DirectGivesPlain(cfg: Settings, sc: Scope, p: Program)
    requires Clean(sc)
    ensures Given(EvalProgram(Tracer(), cfg, sc, p))
  {
    TracerIsJavaScript();
    DirectProgram(Tracer(), cfg, sc, p);
    ProgramGives(cfg, sc, p, Direct(Tracer(), cfg, sc, ChildPrograms(p.statements)), |p.statements| == 1);
  }

  lemma DirectPlain(cfg: Settings, sc: Scope, ps: seq<Program>)
    requires Clean(sc)
    ensures KidsPlain(Direct(Tracer(), cfg, sc, ps), 0, |ps|)
  {
    forall g: nat | 0 <= g < |ps| ensures Plain(Probe(Some(Direct(Tracer(), cfg, sc, ps)(g)))) {
      DirectProbe(cfg, sc, ps, g);
      DirectGivesPlain(cfg, Entered(sc), ps[g]);
    }
  }

  // ----- a difference anywhere shows -----

  /** In this frame the function gives something else than its program means. */
  predicate Differs(cfg: Settings, f: Compiled, p: Program, frame: Frame, sc: Scope) {
    Activate(Tracer(), f, frame.context, frame.data, frame.depths) != EvalProgram(Tracer(), cfg, sc, p)
  }

  lemma DifferingProbes(cfg: Settings, sc: Scope, p: Program, a: Kids, b: Kids, i: nat)
    requires KidsPlain(a, 0, |ChildPrograms(p.statements)|) && KidsPlain(b, 0, |ChildPrograms(p.statements)|)
    requires i < |ChildPrograms(p.statements)| && Probe(Some(a(i))) != Probe(Some(b(i)))
    ensures ProgramWith(Tracer(), cfg, sc, p, a) != ProgramWith(Tracer(), cfg, sc, p, b)
  {
    if ProgramWith(Tracer(), cfg, sc, p, a) == ProgramWith(Tracer(), cfg, sc, p, b) {
      ProgramReveals(cfg, sc, p, a, b);
      assert false;
    }
  }

  /** A child that differs makes its parent differ, if that has its program's shape. */
  lemma KidDiffers(cfg: Settings, f: Compiled, p: Program, flag: bool, i: nat, frame: Frame, sc: Scope)
    requires WellFormed(cfg, p) && Copies(cfg, f, Compile(cfg, p)) && Probed(frame, sc)
    requires f.isSimple == (|p.statements| == 1) && Runs(cfg, f, p, p, flag, frame, sc)
    requires !(frame.depths.None? && ReadsOuter(cfg, p.statements))
    requires i < |f.kids| == |ChildPrograms(p.statements)|
    requires Differs(cfg, f.kids[i], ChildPrograms(p.statements)[i], ProbeFrame(frame, flag), Entered(sc))
    ensures Differs(cfg, f, p, frame, sc)
  {
    var ps := ChildPrograms(p.statements);
    var a, b := Closures(Machine(Tracer(), KidsOf(Tracer(), f), frame), flag), Direct(Tracer(), cfg, sc, ps);
    ClosuresPlain(cfg, f, p, flag, frame, sc);
    DirectPlain(cfg, sc, ps);
    ClosureProbe(f, frame, flag, i);
    DirectProbe(cfg, sc, ps, i);
    DifferingProbes(cfg, sc, p, a, b, i);
    TracerIsJavaScript();
    DirectProgram(Tracer(), cfg, sc, p);
  }

  /** A wrong shape where it can be told: a text on one side only. */
  lemma RawDiffers(cfg: Settings, f: Compiled, p: Program, r: Program, flag: bool, frame: Frame, sc: Scope)
    requires StandsFor(cfg, f, p, r) && Probed(frame, sc) && Runs(cfg, f, p, r, flag, frame, sc)
    requires !(frame.depths.None? && ReadsOuter(cfg, p.statements))
    requires f.isSimple != (|p.statements| == 1) && !TextAnyway(StatementsOps(cfg, p.statements, 0), |sc.contexts|)
    ensures Differs(cfg, f, p, frame, sc)
  {
    var direct := Direct(Tracer(), cfg, sc, ChildPrograms(p.statements));
    TracerIsJavaScript();
    DirectProgram(Tracer(), cfg, sc, p);
    if f.isSimple {
      RawIsNoText(cfg, sc, r, Closures(Machine(Tracer(), KidsOf(Tracer(), f), frame), flag));
    } else {
      RawIsNoText(cfg, sc, p, direct);
    }
  }

  /** A single statement that holds a program is a block, and a block can be told. */
  lemma HoldersTell(cfg: Settings, p: Program, r: Program, n: nat)
    requires |r.statements| == 1 && StatementsOps(cfg, r.statements, 0) == StatementsOps(cfg, p.statements, 0)
    requires ChildPrograms(r.statements) != []
    ensures !TextAnyway(StatementsOps(cfg, p.statements, 0), n)
  {
    SingleOps(cfg, r);
    BlockNotAnyway(cfg, r.statements[0], n);
  }

  lemma {:induction false} OuterSource(envs: seq<Environment>) returns (i: nat)
    requires OuterAll(envs) != {}
    ensures i < |envs| && envs[i].depths != {}
    decreases |envs|
  {
    if envs[0].depths != {} {
      i := 0;
    } else {
      assert Outer(envs[0].depths) == {};
      var rest := OuterSource(envs[1..]);
      i := rest + 1;
    }
  }

  /** Of a program that uses depths, a statement reads one itself, or a child uses them. */
  lemma DepthUser(cfg: Settings, p: Program, e: Environment) returns (i: nat)
    requires e == Compile(cfg, p) && UseDepths(e) && !ReadsOuter(cfg, p.statements)
    ensures i < |e.children| && UseDepths(e.children[i])
  {
    if e.depths != {} {
      StatementsOpsDepths(cfg, p.statements, 0);
      ReadsShow(cfg, p.statements, 0);
      i := OuterSource(e.children);
    } else {
      i :| 0 <= i < |e.children| && UseDepths(e.children[i]);
    }
  }

  lemma ShapeTells(cfg: Settings, f: Compiled, p: Program, e: Environment, q: Program, flag: bool, n: nat)
    requires e == Compile(cfg, p) && Written(cfg, f, e, q, flag) && e.children != [] && f.isSimple != (|p.statements| == 1)
    ensures !TextAnyway(StatementsOps(cfg, p.statements, 0), n)
  {
    ChildrenCompiled(cfg, p.statements);
    ChildrenCompiled(cfg, q.statements);
    HoldersTell(cfg, p, if f.isSimple then q else p, n);
  }

  lemma KidReady(cfg: Settings, f: Compiled, p: Program, e: Environment, i: nat)
    requires WellFormed(cfg, p) && e == Compile(cfg, p) && Copies(cfg, f, e) && i < |e.children|
    ensures |f.kids| == |e.children| == |ChildPrograms(p.statements)| && WellFormed(cfg, ChildPrograms(p.statements)[i])
    ensures e.children[i] == Compile(cfg, ChildPrograms(p.statements)[i]) && Copies(cfg, f.kids[i], e.children[i])
  {
    ChildrenCompiled(cfg, p.statements);
    ChildrenGood(cfg, p.statements);
  }

  /** Run without its outer contexts, a copy of a program that uses them differs from it. */
  lemma {:induction false} LostDiffers(cfg: Settings, f: Compiled, p: Program, e: Environment, frame: Frame, sc: Scope)
    requires WellFormed(cfg, p) && e == Compile(cfg, p) && Copies(cfg, f, e) && UseDepths(e)
    requires Probed(frame, sc) && frame.depths.None?
    ensures Differs(cfg, f, p, frame, sc)
    decreases e
  {
    var q, flag :| Written(cfg, f, e, q, flag);
    var r := StandIn(cfg, f, p, q, flag);
    CopyRuns(cfg, f, p, q, flag, r, frame, sc);
    if ReadsOuter(cfg, p.statements) {
      DirectGivesPlain(cfg, sc, p);
    } else {
      var i := DepthUser(cfg, p, e);
      if f.isSimple != (|p.statements| == 1) {
        ShapeTells(cfg, f, p, e, q, flag, |sc.contexts|);
        RawDiffers(cfg, f, p, r, flag, frame, sc);
      } else {
        KidReady(cfg, f, p, e, i);
        InnerProbed(frame, sc, flag);
        LostDiffers(cfg, f.kids[i], ChildPrograms(p.statements)[i], e.children[i], ProbeFrame(frame, flag), Entered(sc));
        KidDiffers(cfg, f, p, flag, i, frame, sc);
      }
    }
  }

  /** The flag of a copy is right but where it drops depths that only its children use. */
  lemma FlagOf(cfg: Settings, f: Compiled, p: Program, e: Environment, q: Program, flag: bool)
    requires e == Compile(cfg, p) && Written(cfg, f, e, q, flag)
    ensures flag == UseDepths(e) ==> Generate(UseDepths(e), e.opcodes) == Ok(f.code)
    ensures flag != UseDepths(e) ==> !flag && !ReadsOuter(cfg, p.statements) && e.children != []
    ensures ReadsOuter(cfg, p.statements) ==> UseDepths(e)
  {
    CodeOf(cfg, f, e, q, flag, p);
    StatementsOpsDepths(cfg, p.statements, 0);
    ReadsShow(cfg, p.statements, 0);
  }

  lemma WrongKid(f: Compiled, e: Environment, n: nat) returns (i: nat)
    requires Generate(UseDepths(e), e.opcodes) == Ok(f.code) && f.isSimple == e.isSimple && |f.kids| == |e.children|
    requires !Right(false, f, e, n)
    ensures i < |e.children| && !Right(false, f.kids[i], e.children[i], n + 1)
  {
    if CodeRight(f, e) {
      i :| 0 <= i < |e.children| && !ShapeRight(false, f.kids[i], e.children[i], n + 1);
    } else {
      i :| 0 <= i < |e.children| && !CodeRight(f.kids[i], e.children[i]);
    }
  }

  /** A wrong shape makes a copy differ, unless it cannot be told; then there is nothing else to be wrong. */
  lemma ShapeDiffers(cfg: Settings, f: Compiled, p: Program, e: Environment, frame: Frame, sc: Scope)
    requires WellFormed(cfg, p) && e == Compile(cfg, p) && Copies(cfg, f, e) && !Right(false, f, e, |sc.contexts|)
    requires Probed(frame, sc) && (UseDepths(e) ==> frame.depths.Some?) && f.isSimple != (|p.statements| == 1)
    ensures Differs(cfg, f, p, frame, sc)
  {
    var q, flag :| Written(cfg, f, e, q, flag);
    var r := StandIn(cfg, f, p, q, flag);
    CopyRuns(cfg, f, p, q, flag, r, frame, sc);
    FlagOf(cfg, f, p, e, q, flag);
    if e.children != [] {
      ShapeTells(cfg, f, p, e, q, flag, |sc.contexts|);
    } else if TextAnyway(e.opcodes, |sc.contexts|) {
      assert CodeRight(f, e);
      assert false;
    }
    RawDiffers(cfg, f, p, r, flag, frame, sc);
  }

  /** The child that is not right, or that is run without the outer contexts it uses. */
  lemma WrongChild(cfg: Settings, f: Compiled, p: Program, e: Environment, q: Program, flag: bool, frame: Frame, n: nat) returns (i: nat)
    requires WellFormed(cfg, p) && e == Compile(cfg, p) && Written(cfg, f, e, q, flag) && |f.kids| == |e.children|
    requires !Right(false, f, e, n) && (UseDepths(e) ==> frame.depths.Some?) && f.isSimple == (|p.statements| == 1)
    ensures i < |e.children|
    ensures ProbeFrame(frame, flag).depths.Some? || !UseDepths(e.children[i]) ==> !Right(false, f.kids[i], e.children[i], n + 1)
  {
    FlagOf(cfg, f, p, e, q, flag);
    if flag == UseDepths(e) {
      i := WrongKid(f, e, n);
    } else {
      i := DepthUser(cfg, p, e);
    }
  }

  lemma KidDecides(cfg: Settings, f: Compiled, p: Program, e: Environment, q: Program, flag: bool, i: nat, frame: Frame, sc: Scope)
    requires WellFormed(cfg, p) && e == Compile(cfg, p) && Copies(cfg, f, e) && Written(cfg, f, e, q, flag)
    requires Probed(frame, sc) && (UseDepths(e) ==> frame.depths.Some?) && f.isSimple == (|p.statements| == 1)
    requires i < |f.kids| == |ChildPrograms(p.statements)|
    requires Differs(cfg, f.kids[i], ChildPrograms(p.statements)[i], ProbeFrame(frame, flag), Entered(sc))
    ensures Differs(cfg, f, p, frame, sc)
  {
    CopyRuns(cfg, f, p, q, flag, p, frame, sc);
    FlagOf(cfg, f, p, e, q, flag);
    KidDiffers(cfg, f, p, flag, i, frame, sc);
  }

  lemma {:induction false} KidWrong(cfg: Settings, f: Compiled, p: Program, e: Environment, flag: bool, i: nat, frame: Frame, sc: Scope)
    requires WellFormed(cfg, p) && e == Compile(cfg, p) && Copies(cfg, f, e) && Probed(frame, sc) && i < |e.children| == |f.kids|
    requires var inner := ProbeFrame(frame, flag);
             inner.depths.Some? || !UseDepths(e.children[i]) ==> !Right(false, f.kids[i], e.children[i], |sc.contexts| + 1)
    ensures |f.kids| == |ChildPrograms(p.statements)|
    ensures Differs(cfg, f.kids[i], ChildPrograms(p.statements)[i], ProbeFrame(frame, flag), Entered(sc))
    decreases e, 0
  {
    KidReady(cfg, f, p, e, i);
    InnerProbed(frame, sc, flag);
    var kid, child, env, inner, entered := f.kids[i], ChildPrograms(p.statements)[i], e.children[i], ProbeFrame(frame, flag), Entered(sc);
    if inner.depths.None? && UseDepths(env) {
      LostDiffers(cfg, kid, child, env, inner, entered);
    } else {
      WrongDiffers(cfg, kid, child, env, inner, entered);
    }
  }

  /** A copy that is not right, in itself or in any function it holds, differs from its program. */
  lemma {:induction false} WrongDiffers(cfg: Settings, f: Compiled, p: Program, e: Environment, frame: Frame, sc: Scope)
    requires WellFormed(cfg, p) && e == Compile(cfg, p) && Copies(cfg, f, e) && !Right(false, f, e, |sc.contexts|)
    requires Probed(frame, sc) && (UseDepths(e) ==> frame.depths.Some?)
    ensures Differs(cfg, f, p, frame, sc)
    decreases e, 1
  {
    if f.isSimple != (|p.statements| == 1) {
      ShapeDiffers(cfg, f, p, e, frame, sc);
    } else {
      var q, flag :| Written(cfg, f, e, q, flag);
      var i := WrongChild(cfg, f, p, e, q, flag, frame, |sc.contexts|);
      KidWrong(cfg, f, p, e, flag, i, frame, sc);
      KidDecides(cfg, f, p, e, q, flag, i, frame, sc);
    }
  }
}
