/** What compiled code computes with any functions at all in the place of its children. */
module HandlebarsOpen {
  import opened Wrappers
  import opened HandlebarsAst
  import opened HandlebarsMeaning
  import opened HandlebarsCodegen
  import opened HandlebarsStatements
  import opened HandlebarsExecution
  import opened HandlebarsCorrect
  import opened HandlebarsThrowing

  /** The grammar gives every block a program or an inverse; only ambiguous blocks depend on it. */
  predicate WellFormed(cfg: Settings, p: Program)
    decreases p
  {
    WellFormedAll(cfg, p.statements)
  }

  predicate WellFormedAll(cfg: Settings, ss: seq<Statement>)
    decreases ss
  {
    ss == [] || (WellFormedStatement(cfg, ss[0]) && WellFormedAll(cfg, ss[1..]))
  }

  predicate WellFormedStatement(cfg: Settings, s: Statement)
    decreases s
  {
    s.BlockStatement? ==>
      && (Classify(cfg, Apply(s.call)).AmbiguousClass? ==> s.program.Some? || s.inverse.Some?)
      && (s.program.Some? ==> WellFormed(cfg, s.program.value))
      && (s.inverse.Some? ==> WellFormed(cfg, s.inverse.value))
  }

  // ----- evaluation with given children -----

  /** The blocks that stand for the children, by guid. */
  type Kids = nat -> Block

  function KidAt(kids: Kids, guid: Option<nat>): Option<Block> {
    if guid.Some? then Some(kids(guid.value)) else None
  }

  function StatementWith(rt: Runtime, cfg: Settings, sc: Scope, s: Statement, next: nat, kids: Kids): Option<Value> {
    if s.BlockStatement? then
      Present(EvalBlock(rt, cfg, sc, s.call, KidAt(kids, MainGuid(s, next)), KidAt(kids, InverseGuid(s, next))))
    else EvalStatement(rt, cfg, sc, s)
  }

  /** What a statement contributes, with the guid of its first child. */
  type Giver = (Statement, nat) -> Option<Value>

  function Texts(rt: Runtime, give: Giver, ss: seq<Statement>, next: nat): string
    decreases |ss|
  {
    if ss == [] then "" else Shown(rt, give(ss[0], next)) + Texts(rt, give, ss[1..], next + |Children(ss[0])|)
  }

  function Gives(rt: Runtime, cfg: Settings, sc: Scope, kids: Kids): Giver {
    (s: Statement, n: nat) => StatementWith(rt, cfg, sc, s, n, kids)
  }

  function StatementsWith(rt: Runtime, cfg: Settings, sc: Scope, ss: seq<Statement>, next: nat, kids: Kids): string {
    Texts(rt, Gives(rt, cfg, sc, kids), ss, next)
  }

  lemma TextsHead(rt: Runtime, give: Giver, ss: seq<Statement>, rest: seq<Statement>, next: nat)
    requires ss != [] && rest == ss[1..]
    ensures Texts(rt, give, ss, next) == Shown(rt, give(ss[0], next)) + Texts(rt, give, rest, next + |Children(ss[0])|)
  {
  }

  function ProgramWith(rt: Runtime, cfg: Settings, sc: Scope, p: Program, kids: Kids): Value {
    ProgramAs(rt, cfg, sc, p, kids, |p.statements| == 1)
  }

  /** What the program gives in a function that returns the value of its one statement, or in one that concatenates texts. */
  function ProgramAs(rt: Runtime, cfg: Settings, sc: Scope, p: Program, kids: Kids, isSimple: bool): Value
    requires isSimple ==> |p.statements| == 1
  {
    if isSimple then StatementWith(rt, cfg, sc, p.statements[0], 0, kids).GetOr(Text(""))
    else Text(StatementsWith(rt, cfg, sc, p.statements, 0, kids))
  }

  // ----- children that answer alike -----

  ghost predicate KidsAgree(a: Kids, b: Kids, from: nat, to: nat) {
    forall g: nat :: from <= g < to ==> SameBlock(Some(a(g)), Some(b(g)))
  }

  lemma SameOptionsWith(name: string, h: Value, b: Option<Block>, d: Option<Block>, b': Option<Block>, d': Option<Block>, data: Value)
    requires SameBlock(b, b') && SameBlock(d, d')
    ensures SameOptions(WithBlocks(name, h, b, d, data), WithBlocks(name, h, b', d', data))
  {
  }

  lemma SameInvoke(rt: Runtime, f: Value, c: Value, args: seq<Value>, name: string, h: Value, data: Value,
                   b: Option<Block>, d: Option<Block>, b': Option<Block>, d': Option<Block>)
    requires Extensional(rt) && SameBlock(b, b') && SameBlock(d, d')
    ensures rt.invoke(f, c, args, WithBlocks(name, h, b, d, data)) == rt.invoke(f, c, args, WithBlocks(name, h, b', d', data))
  {
    SameOptionsWith(name, h, b, d, b', d', data);
  }

  lemma SameCall(rt: Runtime, cfg: Settings, sc: Scope, c: Call, b: Option<Block>, d: Option<Block>, b': Option<Block>, d': Option<Block>)
    requires Extensional(rt) && SameBlock(b, b') && SameBlock(d, d')
    ensures EvalCall(rt, cfg, sc, c, b, d) == EvalCall(rt, cfg, sc, c, b', d')
  {
    SameInvoke(rt, Callee(rt, cfg, sc, c.path), sc.At(0), EvalExprs(rt, cfg, sc, c.params), HelperName(cfg, c.path),
               EvalHash(rt, cfg, sc, c.hash), sc.data, b, d, b', d');
  }

  lemma SameAmbiguous(rt: Runtime, sc: Scope, p: Path, b: Option<Block>, d: Option<Block>, b': Option<Block>, d': Option<Block>)
    requires Extensional(rt) && SameBlock(b, b') && SameBlock(d, d') && p.Simple()
    ensures EvalAmbiguous(rt, sc, p, b, d) == EvalAmbiguous(rt, sc, p, b', d')
  {
    SameInvoke(rt, SettledHelper(rt, p.parts[0], EvalPath(rt, sc, p, false)), sc.At(0), [], p.parts[0], Record(map[]), sc.data, b, d, b', d');
  }

  lemma SameMissing(rt: Runtime, sc: Scope, v: Value, name: string, b: Option<Block>, d: Option<Block>, b': Option<Block>, d': Option<Block>)
    requires Extensional(rt) && SameBlock(b, b') && SameBlock(d, d')
    ensures BlockMissing(rt, sc, v, WithBlocks(name, Record(map[]), b, d, sc.data)) ==
            BlockMissing(rt, sc, v, WithBlocks(name, Record(map[]), b', d', sc.data))
  {
    SameInvoke(rt, rt.helper("blockHelperMissing"), sc.At(0), [v], name, Record(map[]), sc.data, b, d, b', d');
  }

  lemma SameEvalBlock(rt: Runtime, cfg: Settings, sc: Scope, c: Call, b: Option<Block>, d: Option<Block>, b': Option<Block>, d': Option<Block>)
    requires Extensional(rt) && SameBlock(b, b') && SameBlock(d, d')
    ensures EvalBlock(rt, cfg, sc, c, b, d) == EvalBlock(rt, cfg, sc, c, b', d')
  {
    match Classify(cfg, Apply(c))
    case HelperClass => SameCall(rt, cfg, sc, c, b, d, b', d');
    case SimpleClass => SameMissing(rt, sc, EvalSimple(rt, sc, Apply(c)), c.path.original, b, d, b', d');
    case AmbiguousClass =>
      SameAmbiguous(rt, sc, c.path, b, d, b', d');
      SameMissing(rt, sc, EvalAmbiguous(rt, sc, c.path, b, d), c.path.parts[0], b, d, b', d');
  }

  lemma StatementAgrees(rt: Runtime, cfg: Settings, sc: Scope, s: Statement, next: nat, a: Kids, b: Kids)
    requires Extensional(rt) && KidsAgree(a, b, next, next + |Children(s)|)
    ensures StatementWith(rt, cfg, sc, s, next, a) == StatementWith(rt, cfg, sc, s, next, b)
  {
    if s.BlockStatement? {
      SameEvalBlock(rt, cfg, sc, s.call, KidAt(a, MainGuid(s, next)), KidAt(a, InverseGuid(s, next)),
                    KidAt(b, MainGuid(s, next)), KidAt(b, InverseGuid(s, next)));
    }
  }

  /** A statement's own children are `all` from guid n on. */
  predicate Lies(s: Statement, n: nat, all: seq<Program>) {
    n + |Children(s)| <= |all| && all[n..n + |Children(s)|] == Children(s)
  }

  ghost predicate SameOn(f: Giver, g: Giver, all: seq<Program>) {
    forall s, n: nat :: Lies(s, n, all) ==> f(s, n) == g(s, n)
  }

  lemma SliceParts<T>(all: seq<T>, next: nat, whole: seq<T>, a: seq<T>, b: seq<T>)
    requires whole == a + b && next + |whole| <= |all| && all[next..next + |whole|] == whole
    ensures all[next..next + |a|] == a && all[next + |a|..next + |a| + |b|] == b
  {
    assert whole[..|a|] == a && whole[|a|..] == b;
    assert all[next..next + |a|] == all[next..next + |whole|][..|a|];
    assert all[next + |a|..next + |a| + |b|] == all[next..next + |whole|][|a|..];
  }

  lemma {:induction false} TextsAgree(rt: Runtime, f: Giver, g: Giver, ss: seq<Statement>, next: nat, all: seq<Program>)
    requires SameOn(f, g, all) && next + |ChildPrograms(ss)| <= |all| && all[next..next + |ChildPrograms(ss)|] == ChildPrograms(ss)
    ensures Texts(rt, f, ss, next) == Texts(rt, g, ss, next)
    decreases |ss|
  {
    if ss != [] {
      var rest, after := ss[1..], next + |Children(ss[0])|;
      SliceParts(all, next, ChildPrograms(ss), Children(ss[0]), ChildPrograms(rest));
      assert Lies(ss[0], next, all) && f(ss[0], next) == g(ss[0], next);
      TextsAgree(rt, f, g, rest, after, all);
      TextsHead(rt, f, ss, rest, next);
      TextsHead(rt, g, ss, rest, next);
    }
  }

  lemma OnlyChildren(ss: seq<Statement>)
    requires |ss| == 1
    ensures ChildPrograms(ss) == Children(ss[0])
  {
    assert ss[1..] == [] && ChildPrograms([]) == [];
    assert Children(ss[0]) + [] == Children(ss[0]);
  }

  lemma ProgramAgrees(rt: Runtime, cfg: Settings, sc: Scope, p: Program, a: Kids, b: Kids)
    requires Extensional(rt) && KidsAgree(a, b, 0, |ChildPrograms(p.statements)|)
    ensures ProgramWith(rt, cfg, sc, p, a) == ProgramWith(rt, cfg, sc, p, b)
  {
    var all := ChildPrograms(p.statements);
    if |p.statements| == 1 {
      OnlyChildren(p.statements);
      StatementAgrees(rt, cfg, sc, p.statements[0], 0, a, b);
    } else {
      GivesAgree(rt, cfg, sc, all, a, b);
      assert all[0..|all|] == all;
      TextsAgree(rt, Gives(rt, cfg, sc, a), Gives(rt, cfg, sc, b), p.statements, 0, all);
    }
  }

  lemma GivesAgree(rt: Runtime, cfg: Settings, sc: Scope, all: seq<Program>, a: Kids, b: Kids)
    requires Extensional(rt) && KidsAgree(a, b, 0, |all|)
    ensures SameOn(Gives(rt, cfg, sc, a), Gives(rt, cfg, sc, b), all)
  {
    forall s, n: nat | Lies(s, n, all) ensures Gives(rt, cfg, sc, a)(s, n) == Gives(rt, cfg, sc, b)(s, n) {
      StatementAgrees(rt, cfg, sc, s, n, a, b);
    }
  }

  /** The children of the direct evaluation. */
  function Direct(rt: Runtime, cfg: Settings, sc: Scope, ps: seq<Program>): Kids {
    g => DirectBlock(rt, cfg, sc, ps, g)
  }

  function DirectBlock(rt: Runtime, cfg: Settings, sc: Scope, ps: seq<Program>, g: nat): Block {
    if g < |ps| then (c, d) => EvalProgram(rt, cfg, sc.Enter(rt, c, d), ps[g]) else Noop()
  }

  function Evaluates(rt: Runtime, cfg: Settings, sc: Scope): Giver {
    (s: Statement, n: nat) => EvalStatement(rt, cfg, sc, s)
  }

  lemma EvalHead(rt: Runtime, cfg: Settings, sc: Scope, ss: seq<Statement>, rest: seq<Statement>, v: Option<Value>)
    requires ss != [] && rest == ss[1..] && v == EvalStatement(rt, cfg, sc, ss[0])
    ensures EvalStatements(rt, cfg, sc, ss) == Shown(rt, v) + EvalStatements(rt, cfg, sc, rest)
  {
  }

  lemma {:induction false} EvalIsTexts(rt: Runtime, cfg: Settings, sc: Scope, ss: seq<Statement>, next: nat)
    ensures EvalStatements(rt, cfg, sc, ss) == Texts(rt, Evaluates(rt, cfg, sc), ss, next)
    decreases |ss|
  {
    if ss != [] {
      var rest, evaluates := ss[1..], Evaluates(rt, cfg, sc);
      EvalIsTexts(rt, cfg, sc, rest, next + |Children(ss[0])|);
      TextsHead(rt, evaluates, ss, rest, next);
      EvalHead(rt, cfg, sc, ss, rest, evaluates(ss[0], next));
    }
  }

  lemma DirectStatement(rt: Runtime, cfg: Settings, sc: Scope, s: Statement, next: nat, all: seq<Program>)
    requires Extensional(rt) && Lies(s, next, all)
    ensures EvalStatement(rt, cfg, sc, s) == StatementWith(rt, cfg, sc, s, next, Direct(rt, cfg, sc, all))
  {
    if s.BlockStatement? {
      var kids, own := Direct(rt, cfg, sc, all), Children(s);
      assert s.program.Some? ==> all[next] == own[0] == s.program.value;
      assert s.inverse.Some? ==> var last := |own| - 1; all[next + last] == own[last] == s.inverse.value;
      SameEvalBlock(rt, cfg, sc, s.call, BlockFor(rt, cfg, sc, s.program), BlockFor(rt, cfg, sc, s.inverse),
                    KidAt(kids, MainGuid(s, next)), KidAt(kids, InverseGuid(s, next)));
    }
  }

  lemma DirectGives(rt: Runtime, cfg: Settings, sc: Scope, all: seq<Program>)
    requires Extensional(rt)
    ensures SameOn(Evaluates(rt, cfg, sc), Gives(rt, cfg, sc, Direct(rt, cfg, sc, all)), all)
  {
    forall s, n: nat | Lies(s, n, all)
      ensures Evaluates(rt, cfg, sc)(s, n) == Gives(rt, cfg, sc, Direct(rt, cfg, sc, all))(s, n)
    {
      DirectStatement(rt, cfg, sc, s, n, all);
    }
  }

  lemma DirectProgram(rt: Runtime, cfg: Settings, sc: Scope, p: Program)
    requires Extensional(rt)
    ensures EvalProgram(rt, cfg, sc, p) == ProgramWith(rt, cfg, sc, p, Direct(rt, cfg, sc, ChildPrograms(p.statements)))
  {
    var all := ChildPrograms(p.statements);
    assert all[0..|all|] == all;
    if |p.statements| == 1 {
      OnlyChildren(p.statements);
      DirectStatement(rt, cfg, sc, p.statements[0], 0, all);
    } else {
      EvalIsTexts(rt, cfg, sc, p.statements, 0);
      DirectGives(rt, cfg, sc, all);
      TextsAgree(rt, Evaluates(rt, cfg, sc), Gives(rt, cfg, sc, Direct(rt, cfg, sc, all)), p.statements, 0, all);
    }
  }

  // ----- one statement -----

  /** The closures a program makes of its compiled children. */
  function Closures(m: Machine, passDepths: bool): Kids {
    g => Closure(m, g, passDepths)
  }

  lemma StatementContributes(m: Machine, isSimple: bool, cfg: Settings, sc: Scope, s: Statement, next: nat, useDepths: bool)
    requires Extensional(m.rt) && Outputs(s) && WellFormedStatement(cfg, s) && Fits(m, sc, OwnDepths(cfg, s))
    ensures Contributes(m, isSimple, TranslateStatement(cfg, s, next, useDepths),
                        StatementWith(m.rt, cfg, sc, s, next, Closures(m, useDepths)))
  {
    match s
    case Mustache(_, _) => MustacheContributes(m, isSimple, cfg, sc, s, next, useDepths);
    case BlockStatement(c, program, inverse) =>
      var kids := Closures(m, useDepths);
      BlockContributes(m, isSimple, cfg, sc, c, Reference(MainGuid(s, next), useDepths), Reference(InverseGuid(s, next), useDepths),
                       program.Some? || inverse.Some?, KidAt(kids, MainGuid(s, next)), KidAt(kids, InverseGuid(s, next)));
    case PartialStatement(_, _, _, _) =>
      PartialDenotes(m, cfg, sc, s);
      ShowContributes(m, isSimple, TranslatePartial(cfg, s), EvalPartial(m.rt, cfg, sc, s));
  }

  // ----- several statements -----

  /** Run in a program of several statements, `code` adds exactly `text` to the buffer. */
  ghost predicate Appends(m: Machine, code: seq<Stmt>, text: string) {
    forall out: Output | out.done.None? ::
      var r := PerformAll(m, false, code, out);
      r.done.None? && r.text == out.text + text
  }

  lemma PendingAppends(m: Machine, pending: string)
    ensures Appends(m, Pending(pending), pending)
  {
    if pending != "" {
      assert Denotes(m, JText(pending), Text(pending));
    } else {
      assert forall out: Output :: out.text + pending == out.text;
    }
  }

  lemma Assoc(a: string, b: string, c: string)
    ensures (a + b) + c == a + (b + c)
  {
  }

  lemma AppendsConcat(m: Machine, a: seq<Stmt>, s: string, b: seq<Stmt>, t: string)
    requires Appends(m, a, s) && Appends(m, b, t)
    ensures Appends(m, a + b, s + t)
  {
    forall out: Output | out.done.None?
      ensures PerformAll(m, false, a + b, out).done.None? && PerformAll(m, false, a + b, out).text == out.text + (s + t)
    {
      PerformConcat(m, false, a, b, out);
      var out1 := PerformAll(m, false, a, out);
      var out2 := PerformAll(m, false, b, out1);
      assert out1.text == out.text + s && out2.text == out1.text + t;
      Assoc(out.text, s, t);
    }
  }

  /** Everything the run of `ss` relies on: helpers that only call their blocks, and the depths the statements read. */
  ghost predicate Placed(m: Machine, cfg: Settings, sc: Scope, ss: seq<Statement>) {
    && Extensional(m.rt) && WellFormedAll(cfg, ss)
    && forall i :: 0 <= i < |ss| ==> Fits(m, sc, OwnDepths(cfg, ss[i]))
  }

  lemma PlacedRest(m: Machine, cfg: Settings, sc: Scope, ss: seq<Statement>, rest: seq<Statement>)
    requires ss != [] && rest == ss[1..] && Placed(m, cfg, sc, ss)
    ensures Placed(m, cfg, sc, rest) && WellFormedStatement(cfg, ss[0]) && Fits(m, sc, OwnDepths(cfg, ss[0]))
  {
    forall i | 0 <= i < |rest| ensures Fits(m, sc, OwnDepths(cfg, rest[i])) {
      assert rest[i] == ss[i + 1];
    }
  }

  // A compiler of statements, what it is to write, and both for a single statement: by name only, so that nothing is unfolded.

  type Coder = (seq<Statement>, nat, string) -> seq<Stmt>

  type Writer = (seq<Statement>, nat) -> string

  /** From the statements `ss` on, the code is that of the first one and of the rest; what outputs nothing stays pending. */
  ghost predicate CodeProceeds(t: Coder, code: (Statement, nat) -> seq<Stmt>, ss: seq<Statement>, next: nat, pending: string) {
    if ss == [] then t(ss, next, pending) == Pending(pending)
    else if Outputs(ss[0]) then
      t(ss, next, pending) == Pending(pending) + code(ss[0], next) + t(ss[1..], next + |Children(ss[0])|, "")
    else t(ss, next, pending) == t(ss[1..], next, pending + QuietText(ss[0]))
  }

  /** So is the text. */
  ghost predicate TextProceeds(w: Writer, text: (Statement, nat) -> string, ss: seq<Statement>, next: nat) {
    if ss == [] then w(ss, next) == ""
    else if Outputs(ss[0]) then w(ss, next) == text(ss[0], next) + w(ss[1..], next + |Children(ss[0])|)
    else w(ss, next) == QuietText(ss[0]) + w(ss[1..], next)
  }

  lemma OutputThen(m: Machine, pending: string, code: seq<Stmt>, own: string, after: seq<Stmt>, later: string, whole: seq<Stmt>, text: string)
    requires Appends(m, code, own) && Appends(m, after, "" + later)
    requires whole == Pending(pending) + code + after && text == own + later
    ensures Appends(m, whole, pending + text)
  {
    PendingAppends(m, pending);
    AppendsConcat(m, Pending(pending), pending, code, own);
    AppendsConcat(m, Pending(pending) + code, pending + own, after, "" + later);
    assert "" + later == later;
    Assoc(pending, own, later);
  }

  ghost predicate Proceeds(t: Coder, w: Writer, code: (Statement, nat) -> seq<Stmt>, text: (Statement, nat) -> string) {
    && (forall ss, n, p :: CodeProceeds(t, code, ss, n, p))
    && (forall ss, n :: TextProceeds(w, text, ss, n))
  }

  ghost predicate EachAppends(m: Machine, code: (Statement, nat) -> seq<Stmt>, text: (Statement, nat) -> string, ss: seq<Statement>) {
    forall i, n :: 0 <= i < |ss| && Outputs(ss[i]) ==> Appends(m, code(ss[i], n), text(ss[i], n))
  }

  lemma EachRest(m: Machine, code: (Statement, nat) -> seq<Stmt>, text: (Statement, nat) -> string, ss: seq<Statement>, next: nat)
    requires ss != [] && EachAppends(m, code, text, ss)
    ensures EachAppends(m, code, text, ss[1..])
    ensures Outputs(ss[0]) ==> Appends(m, code(ss[0], next), text(ss[0], next))
  {
    assert forall i :: 0 <= i < |ss| - 1 ==> ss[1..][i] == ss[i + 1];
  }

  lemma FirstAppends(m: Machine, t: Coder, w: Writer, code: (Statement, nat) -> seq<Stmt>, text: (Statement, nat) -> string,
                     ss: seq<Statement>, next: nat, after: nat, pending: string)
    requires Proceeds(t, w, code, text) && ss != [] && Outputs(ss[0]) && after == next + |Children(ss[0])|
    requires Appends(m, code(ss[0], next), text(ss[0], next)) && Appends(m, t(ss[1..], after, ""), "" + w(ss[1..], after))
    ensures Appends(m, t(ss, next, pending), pending + w(ss, next))
  {
    assert CodeProceeds(t, code, ss, next, pending) && TextProceeds(w, text, ss, next);
    OutputThen(m, pending, code(ss[0], next), text(ss[0], next), t(ss[1..], after, ""), w(ss[1..], after), t(ss, next, pending), w(ss, next));
  }

  lemma FirstPends(m: Machine, t: Coder, w: Writer, code: (Statement, nat) -> seq<Stmt>, text: (Statement, nat) -> string,
                   ss: seq<Statement>, next: nat, pending: string, later: string)
    requires Proceeds(t, w, code, text) && (ss != [] ==> !Outputs(ss[0]) && later == pending + QuietText(ss[0]))
    requires ss != [] ==> Appends(m, t(ss[1..], next, later), later + w(ss[1..], next))
    ensures Appends(m, t(ss, next, pending), pending + w(ss, next))
  {
    assert CodeProceeds(t, code, ss, next, pending) && TextProceeds(w, text, ss, next);
    if ss == [] {
      PendingAppends(m, pending);
      assert pending + "" == pending;
    } else {
      Assoc(pending, QuietText(ss[0]), w(ss[1..], next));
    }
  }

  lemma {:induction false} CodeAppends(m: Machine, t: Coder, w: Writer, code: (Statement, nat) -> seq<Stmt>, text: (Statement, nat) -> string,
                                       ss: seq<Statement>, next: nat, pending: string)
    requires Proceeds(t, w, code, text) && EachAppends(m, code, text, ss)
    ensures Appends(m, t(ss, next, pending), pending + w(ss, next))
    decreases |ss|
  {
    if ss == [] {
      FirstPends(m, t, w, code, text, ss, next, pending, "");
    } else {
      EachRest(m, code, text, ss, next);
      if Outputs(ss[0]) {
        var after := next + |Children(ss[0])|;
        CodeAppends(m, t, w, code, text, ss[1..], after, "");
        FirstAppends(m, t, w, code, text, ss, next, after, pending);
      } else {
        var later := pending + QuietText(ss[0]);
        CodeAppends(m, t, w, code, text, ss[1..], next, later);
        FirstPends(m, t, w, code, text, ss, next, pending, later);
      }
    }
  }

  function Codes(cfg: Settings, useDepths: bool): Coder {
    (ss: seq<Statement>, n: nat, p: string) => TranslateStatements(cfg, ss, n, useDepths, p)
  }

  function Writes(rt: Runtime, give: Giver): Writer {
    (ss: seq<Statement>, n: nat) => Texts(rt, give, ss, n)
  }

  function CodesOne(cfg: Settings, useDepths: bool): (Statement, nat) -> seq<Stmt> {
    (s: Statement, n: nat) => TranslateStatement(cfg, s, n, useDepths)
  }

  function WritesOne(rt: Runtime, give: Giver): (Statement, nat) -> string {
    (s: Statement, n: nat) => Shown(rt, give(s, n))
  }

  /** What gives the contents as they are, and nothing for comments. */
  ghost predicate Plainly(rt: Runtime, give: Giver) {
    forall s, n: nat :: !Outputs(s) ==> Shown(rt, give(s, n)) == QuietText(s)
  }

  lemma {:induction false} TranslationProceeds(cfg: Settings, useDepths: bool, ss: seq<Statement>, next: nat, pending: string)
    ensures CodeProceeds(Codes(cfg, useDepths), CodesOne(cfg, useDepths), ss, next, pending)
  {
    if ss != [] {
      if Outputs(ss[0]) {
        OutputUnfolds(cfg, ss, ss[1..], next, useDepths, pending);
      } else {
        QuietUnfolds(cfg, ss, next, useDepths, pending);
      }
    }
  }

  lemma {:induction false} WritingProceeds(rt: Runtime, give: Giver, ss: seq<Statement>, next: nat)
    requires Plainly(rt, give)
    ensures TextProceeds(Writes(rt, give), WritesOne(rt, give), ss, next)
  {
    if ss != [] {
      TextsHead(rt, give, ss, ss[1..], next);
    }
  }

  lemma GivesPlainly(rt: Runtime, cfg: Settings, sc: Scope, kids: Kids)
    ensures Plainly(rt, Gives(rt, cfg, sc, kids))
  {
  }

  lemma OneAppends(m: Machine, cfg: Settings, sc: Scope, s: Statement, next: nat, useDepths: bool, code: seq<Stmt>, v: Option<Value>)
    requires Extensional(m.rt) && Outputs(s) && WellFormedStatement(cfg, s) && Fits(m, sc, OwnDepths(cfg, s))
    requires code == TranslateStatement(cfg, s, next, useDepths) && v == StatementWith(m.rt, cfg, sc, s, next, Closures(m, useDepths))
    ensures Appends(m, code, Shown(m.rt, v))
  {
    StatementContributes(m, false, cfg, sc, s, next, useDepths);
  }

  lemma {:induction false} WellFormedAt(cfg: Settings, ss: seq<Statement>, i: nat)
    requires WellFormedAll(cfg, ss) && i < |ss|
    ensures WellFormedStatement(cfg, ss[i])
    decreases |ss|
  {
    if i > 0 {
      WellFormedAt(cfg, ss[1..], i - 1);
    }
  }

  /** A program of several statements appends the texts of its statements in order. */
  lemma StatementsAppend(m: Machine, cfg: Settings, sc: Scope, ss: seq<Statement>, useDepths: bool)
    requires Placed(m, cfg, sc, ss)
    ensures Appends(m, TranslateStatements(cfg, ss, 0, useDepths, ""), "" + StatementsWith(m.rt, cfg, sc, ss, 0, Closures(m, useDepths)))
  {
    var give := Gives(m.rt, cfg, sc, Closures(m, useDepths));
    var t, w, code, text := Codes(cfg, useDepths), Writes(m.rt, give), CodesOne(cfg, useDepths), WritesOne(m.rt, give);
    GivesPlainly(m.rt, cfg, sc, Closures(m, useDepths));
    forall rest, n, p ensures CodeProceeds(t, code, rest, n, p) {
      TranslationProceeds(cfg, useDepths, rest, n, p);
    }
    forall rest, n ensures TextProceeds(w, text, rest, n) {
      WritingProceeds(m.rt, give, rest, n);
    }
    forall i, n | 0 <= i < |ss| && Outputs(ss[i]) ensures Appends(m, code(ss[i], n), text(ss[i], n)) {
      WellFormedAt(cfg, ss, i);
      OneAppends(m, cfg, sc, ss[i], n, useDepths, code(ss[i], n), give(ss[i], n));
    }
    CodeAppends(m, t, w, code, text, ss, 0, "");
  }

  /** A program of one statement returns that statement's value. */
  lemma SingleReturns(m: Machine, cfg: Settings, sc: Scope, s: Statement, useDepths: bool, out: Output)
    requires Extensional(m.rt) && WellFormedStatement(cfg, s) && Fits(m, sc, OwnDepths(cfg, s)) && out.done.None? && out.text == ""
    ensures var r := PerformAll(m, true, TranslateStatements(cfg, [s], 0, useDepths, ""), out);
            r.done.GetOr(Text(r.text)) == StatementWith(m.rt, cfg, sc, s, 0, Closures(m, useDepths)).GetOr(Text(""))
  {
    assert [s][1..] == [];
    if Outputs(s) {
      var code := TranslateStatement(cfg, s, 0, useDepths);
      assert TranslateStatements(cfg, [s], 0, useDepths, "") == [] + code + [] == code;
      StatementContributes(m, true, cfg, sc, s, 0, useDepths);
    } else if s.Content? {
      assert "" + s.text == s.text;
      assert TranslateStatements(cfg, [s], 0, useDepths, "") == Pending(s.text);
      if s.text != "" {
        assert Denotes(m, JText(s.text), Text(s.text));
      }
    } else {
      assert TranslateStatements(cfg, [s], 0, useDepths, "") == [];
    }
  }

  /** The depths that are read were passed. */
  lemma {:induction false} NothingLost(m: Machine, cfg: Settings, sc: Scope, ss: seq<Statement>)
    requires Placed(m, cfg, sc, ss)
    ensures !SomeLost(m, cfg, ss)
    decreases |ss|
  {
    if ss != [] {
      PlacedRest(m, cfg, sc, ss, ss[1..]);
      NothingLost(m, cfg, sc, ss[1..]);
      if k :| k in OwnDepths(cfg, ss[0]) {
        assert m.frame.depths.Some?;
      }
    }
  }

  /** A compiled function in any frame: what its program gives with its own closures as children. */
  lemma ActivationOpen(rt: Runtime, cfg: Settings, p: Program, f: Compiled, useDepths: bool, sc: Scope, frame: Frame)
    requires Placed(Machine(rt, KidsOf(rt, f), frame), cfg, sc, p.statements)
    requires f.code == TranslateStatements(cfg, p.statements, 0, useDepths, "") && (f.isSimple ==> |p.statements| == 1)
    ensures Activate(rt, f, frame.context, frame.data, frame.depths) ==
            ProgramAs(rt, cfg, sc, p, Closures(Machine(rt, KidsOf(rt, f), frame), useDepths), f.isSimple)
  {
    var m, ss := Machine(rt, KidsOf(rt, f), frame), p.statements;
    assert frame == Frame(frame.context, frame.data, frame.depths);
    NothingLost(m, cfg, sc, ss);
    CodeRaises(m, cfg, p, f.isSimple, useDepths);
    if f.isSimple {
      assert ss == [ss[0]];
      PlacedRest(m, cfg, sc, ss, ss[1..]);
      SingleReturns(m, cfg, sc, ss[0], useDepths, Start(rt));
    } else {
      StatementsAppend(m, cfg, sc, ss, useDepths);
      var text := StatementsWith(rt, cfg, sc, ss, 0, Closures(m, useDepths));
      assert "" + ("" + text) == text;
    }
  }

  /** Without the depths that a statement of its own reads, it raises the exception. */
  lemma ActivationLost(rt: Runtime, cfg: Settings, p: Program, f: Compiled, useDepths: bool, frame: Frame)
    requires frame.depths.None? && ReadsOuter(cfg, p.statements)
    requires f.code == TranslateStatements(cfg, p.statements, 0, useDepths, "") && (f.isSimple ==> |p.statements| == 1)
    ensures Activate(rt, f, frame.context, frame.data, frame.depths) == Thrown
  {
    var m := Machine(rt, KidsOf(rt, f), frame);
    assert frame == Frame(frame.context, frame.data, frame.depths);
    CodeRaises(m, cfg, p, f.isSimple, useDepths);
  }
}
