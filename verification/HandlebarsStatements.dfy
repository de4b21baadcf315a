/** Stack safety of whole programs: every statement leaves both stacks empty and no stack error is thrown. */
module HandlebarsStatements {
  import opened Wrappers
  import opened HandlebarsAst
  import opened HandlebarsCodegen
  import opened HandlebarsStack

  // ----- direct translation of statements -----

  function TranslateSimple(s: Sexpr): JExpr {
    match s
    case DataRef(up, parts) => JLambda(TranslateData(up, parts).e)
    case Apply(c) => JLambda(TranslatePath(c.path, false).e)
  }

  function TranslateAmbiguous(p: Path, main: JExpr, inverse: JExpr, register: bool): JExpr
    requires p.Simple()
  {
    JAmbiguous(p.parts[0], TranslatePath(p, false).e, BlockOptions(p.parts[0], JEmptyHash, main, inverse), register)
  }

  function TranslateSexpr(cfg: Settings, s: Sexpr, main: JExpr, inverse: JExpr, register: bool): JExpr {
    match Classify(cfg, s)
    case SimpleClass => TranslateSimple(s)
    case HelperClass => TranslateCall(cfg, s.call, main, inverse)
    case AmbiguousClass => TranslateAmbiguous(s.call.path, main, inverse, register)
  }

  function Reference(guid: Option<nat>, useDepths: bool): JExpr {
    if guid.Some? then JProgram(guid.value, useDepths) else JNull
  }

  function Show(e: JExpr): seq<Stmt> {
    [SetStack(1, e), IfPresent(JStack(1), JStack(1))]
  }

  function TranslateBlock(cfg: Settings, c: Call, main: JExpr, inverse: JExpr, register: bool): seq<Stmt> {
    var e := TranslateSexpr(cfg, Apply(c), main, inverse, register);
    match Classify(cfg, Apply(c))
    case HelperClass => Show(e)
    case SimpleClass => Show(JBlockMissing(e, BlockOptions(c.path.original, JEmptyHash, main, inverse)))
    case AmbiguousClass =>
      [SetStack(1, e), UnlessHelper(c.path.parts[0], 1, JBlockMissing(JStack(1), JOptionsRegister)), IfPresent(JStack(1), JStack(1))]
  }

  function TranslatePartial(cfg: Settings, s: Statement): JExpr
    requires s.PartialStatement?
  {
    JPartial(s.name, s.indent, if s.context.Some? then Translate(cfg, s.context.value).e else JDepth(0),
             if s.hash.Hash? then TranslateHash(cfg, s.hash).e else JUndefined)
  }

  function TranslateStatement(cfg: Settings, s: Statement, next: nat, useDepths: bool): seq<Stmt> {
    match s
    case Content(_) => []
    case Comment => []
    case Mustache(x, escaped) =>
      var e := TranslateSexpr(cfg, x, JNull, JNull, false);
      if escaped && !cfg.noEscape then [AppendText(JEscape(e))] else Show(e)
    case BlockStatement(c, _, _) =>
      TranslateBlock(cfg, c, Reference(MainGuid(s, next), useDepths), Reference(InverseGuid(s, next), useDepths),
                     s.program.Some? || s.inverse.Some?)
    case PartialStatement(_, _, _, _) => Show(TranslatePartial(cfg, s))
  }

  function Pending(text: string): seq<Stmt> {
    if text != "" then [AppendText(JText(text))] else []
  }

  /** The statements of a program; adjacent contents are gathered in `pending` and flushed before other output. */
  function TranslateStatements(cfg: Settings, ss: seq<Statement>, next: nat, useDepths: bool, pending: string): seq<Stmt>
    decreases |ss|
  {
    if ss == [] then Pending(pending)
    else
      match ss[0]
      case Content(t) => TranslateStatements(cfg, ss[1..], next, useDepths, pending + t)
      case Comment => TranslateStatements(cfg, ss[1..], next, useDepths, pending)
      case _ =>
        Pending(pending) + TranslateStatement(cfg, ss[0], next, useDepths) +
        TranslateStatements(cfg, ss[1..], next + |Children(ss[0])|, useDepths, "")
  }

  function QuietText(s: Statement): string {
    if s.Content? then s.text else ""
  }

  lemma QuietUnfolds(cfg: Settings, ss: seq<Statement>, next: nat, useDepths: bool, pending: string)
    requires ss != [] && !Outputs(ss[0])
    ensures TranslateStatements(cfg, ss, next, useDepths, pending) ==
            TranslateStatements(cfg, ss[1..], next, useDepths, pending + QuietText(ss[0]))
  {
    assert pending + "" == pending;
  }

  lemma {:induction false} OutputUnfolds(cfg: Settings, ss: seq<Statement>, rest: seq<Statement>, next: nat, useDepths: bool, pending: string)
    requires ss != [] && rest == ss[1..] && Outputs(ss[0])
    ensures TranslateStatements(cfg, ss, next, useDepths, pending) ==
            Pending(pending) + TranslateStatement(cfg, ss[0], next, useDepths) +
            TranslateStatements(cfg, rest, next + |Children(ss[0])|, useDepths, "")
  {
  }

  // ----- the machine agrees -----

  predicate AtRest(g: Gen) {
    g.inline == [] && g.compiled == [] && Ready(g)
  }

  /** `r` is `g` with one more entry; only the two "last" registers may have changed as well. */
  ghost predicate PushesOne(g: Gen, r: Result<Gen, Failure>, e: JExpr) {
    r.Ok? && r.value == g.(inline := g.inline + [Inline(e)], lastContext := r.value.lastContext, lastHelper := r.value.lastHelper)
  }

  ghost predicate Emits(g: Gen, r: Result<Gen, Failure>, code: seq<Stmt>) {
    r.Ok? && r.value == g.(source := g.source + Pending(g.pending) + code, pending := "",
                           lastContext := r.value.lastContext, lastHelper := r.value.lastHelper)
  }

  lemma SimplePushes(s: Sexpr, g: Gen)
    requires Ready(g)
    ensures PushesOne(g, Run(g, SimpleOps(s)), TranslateSimple(s))
  {
    match s
    case DataRef(up, parts) =>
      DataPushes(up, parts, g);
      var g1 := Run(g, [LookupData(up, parts)]).value;
      RunConcat(g, [LookupData(up, parts)], [ResolvePossibleLambda]);
      RunOne(g1, ResolvePossibleLambda);
      assert SimpleOps(s) == [LookupData(up, parts)] + [ResolvePossibleLambda];
      assert g1.inline[..|g1.inline| - 1] == g.inline;
    case Apply(c) =>
      PathPushes(c.path, false, g);
      var g1 := Run(g, IdOps(c.path, false)).value;
      RunConcat(g, IdOps(c.path, false), [ResolvePossibleLambda]);
      RunOne(g1, ResolvePossibleLambda);
      assert g1.inline[..|g1.inline| - 1] == g.inline;
  }

  lemma AmbiguousInvokes(g: Gen, base: seq<Entry>, main: Entry, inverse: Entry, found: Entry, name: string, register: bool)
    requires g.inline == base + [main, inverse] + [found]
    ensures DoInvokeAmbiguous(g, name, register) ==
            Ok(g.(inline := base + [Inline(JAmbiguous(name, found.e, BlockOptions(name, JEmptyHash, main.e, inverse.e), register))],
                  lastHelper := name))
  {
    var g1 := g.(inline := base + [main, inverse]);
    assert g.inline[..|g.inline| - 1] == g1.inline;
    assert Pop(g) == Ok((found.e, g1));
    var g2 := PushLiteral(g1, JEmptyHash);
    assert g2.inline == base + [main, inverse, Literal(JEmptyHash)];
    SetupOptionsPops(g2, base, main, inverse, Literal(JEmptyHash), name);
  }

  lemma AmbiguousOperands(c: Call, main: Option<nat>, inverse: Option<nat>, g: Gen)
    requires Ready(g)
    ensures Pushes(g, Run(g, [GetContext(c.path.depth), PushProgram(main), PushProgram(inverse)] + IdOps(c.path, false)),
                   [Literal(ProgramEntry(g, main)), Literal(ProgramEntry(g, inverse))] + [TranslatePath(c.path, false)])
  {
    var get := [GetContext(c.path.depth)];
    var programs := [PushProgram(main), PushProgram(inverse)];
    var blocks := [Literal(ProgramEntry(g, main)), Literal(ProgramEntry(g, inverse))];
    RunOne(g, GetContext(c.path.depth));
    var g1 := g.(lastContext := c.path.depth);
    ProgramsPush(main, inverse, g1);
    RunConcat(g, get, programs);
    assert get + programs == [GetContext(c.path.depth), PushProgram(main), PushProgram(inverse)];
    assert Pushes(g, Run(g, get + programs), blocks);
    PathPushes(c.path, false, Run(g, get + programs).value);
    PushesThen(g, get + programs, blocks, IdOps(c.path, false), [TranslatePath(c.path, false)]);
  }

  lemma {:induction false} RunOneMore(g: Gen, ops: seq<Opcode>, g1: Gen, op: Opcode)
    requires Run(g, ops) == Ok(g1)
    ensures Run(g, ops + [op]) == Execute(g1, op)
  {
    RunConcat(g, ops, [op]);
    RunOne(g1, op);
  }

  /** The operands of an ambiguous sexpr, then its invocation. */
  lemma {:induction false} AmbiguousInvoked(g: Gen, g1: Gen, main: Entry, inverse: Entry, found: Entry, name: string, register: bool)
    requires Pushes(g, Ok(g1), [main, inverse] + [found])
    ensures var r := Execute(g1, InvokeAmbiguous(name, register));
            PushesOne(g, r, JAmbiguous(name, found.e, BlockOptions(name, JEmptyHash, main.e, inverse.e), register))
            && r.value.lastHelper == name
  {
    assert g1.inline == g.inline + [main, inverse] + [found];
    AmbiguousInvokes(g1, g.inline, main, inverse, found, name, register);
  }

  lemma AmbiguousPushes(c: Call, main: Option<nat>, inverse: Option<nat>, g: Gen)
    requires Ready(g) && c.path.Simple()
    ensures var r := Run(g, AmbiguousOps(c, main, inverse));
            PushesOne(g, r, TranslateAmbiguous(c.path, ProgramEntry(g, main), ProgramEntry(g, inverse), main.Some? || inverse.Some?))
            && r.value.lastHelper == c.path.parts[0]
  {
    var op := InvokeAmbiguous(c.path.parts[0], main.Some? || inverse.Some?);
    var operands := [GetContext(c.path.depth), PushProgram(main), PushProgram(inverse)] + IdOps(c.path, false);
    AmbiguousOperands(c, main, inverse, g);
    var g1 := Run(g, operands).value;
    RunOneMore(g, operands, g1, op);
    AmbiguousInvoked(g, g1, Literal(ProgramEntry(g, main)), Literal(ProgramEntry(g, inverse)), TranslatePath(c.path, false),
                     c.path.parts[0], main.Some? || inverse.Some?);
  }

  lemma SexprPushes(cfg: Settings, s: Sexpr, main: Option<nat>, inverse: Option<nat>, g: Gen)
    requires Ready(g)
    ensures var r := Run(g, SexprOps(cfg, s, main, inverse));
            PushesOne(g, r, TranslateSexpr(cfg, s, ProgramEntry(g, main), ProgramEntry(g, inverse), main.Some? || inverse.Some?))
            && (Classify(cfg, s).AmbiguousClass? ==> r.value.lastHelper == s.call.path.parts[0])
  {
    match Classify(cfg, s)
    case SimpleClass => SimplePushes(s, g);
    case HelperClass => CallPushes(cfg, s.call, main, inverse, g);
    case AmbiguousClass => AmbiguousPushes(s.call, main, inverse, g);
  }

  lemma FlushOne(g: Gen, e: JExpr)
    requires g.inline == [Inline(e)] && g.compiled == [] && g.slot == 0
    ensures FlushInline(g) == PushSource(g.(inline := [], slot := 1), [SetStack(1, e)]).(compiled := [Inline(JStack(1))])
  {
    var g0 := g.(inline := []);
    var g1 := PushSource(g0.(slot := 1), [SetStack(1, e)]);
    assert g1.compiled + [Inline(JStack(1))] == [Inline(JStack(1))];
    assert g.inline[1..] == [];
    assert FlushEntries(g0, g.inline) == FlushEntries(g1.(compiled := [Inline(JStack(1))]), []);
  }

  lemma AppendEmits(g: Gen, e: JExpr)
    requires g.inline == [Inline(e)] && g.compiled == [] && g.slot == 0
    ensures DoAppend(g) == Ok(PushSource(PushSource(g.(inline := []), [SetStack(1, e)]), [IfPresent(JStack(1), JStack(1))]))
  {
    FlushOne(g, e);
    assert FlushInline(g).compiled[..0] == [];
  }

  lemma ShowEmits(g: Gen, e: JExpr)
    requires g.inline == [Inline(e)] && g.compiled == [] && g.slot == 0
    ensures Emits(g.(inline := []), DoAppend(g), Show(e))
  {
    AppendEmits(g, e);
    assert g.source + [AppendText(JText(g.pending))] + [SetStack(1, e)] + [IfPresent(JStack(1), JStack(1))] ==
           g.source + [AppendText(JText(g.pending))] + Show(e);
    assert g.source + [SetStack(1, e)] + [IfPresent(JStack(1), JStack(1))] == g.source + [] + Show(e);
  }

  lemma EscapedEmits(g: Gen, e: JExpr)
    requires g.inline == [Inline(e)]
    ensures Emits(g.(inline := []), DoAppendEscaped(g), [AppendText(JEscape(e))])
  {
    assert g.inline[..0] == [];
    assert g.source + [] + [AppendText(JEscape(e))] == g.source + [AppendText(JEscape(e))];
  }

  /** One entry on an empty stack, then output by `append` or `appendEscaped`. */
  lemma {:induction false} OneEntryEmits(g: Gen, ops: seq<Opcode>, g1: Gen, e: JExpr, escaped: bool)
    requires AtRest(g) && PushesOne(g, Run(g, ops), e) && Run(g, ops) == Ok(g1)
    ensures Emits(g, Run(g, ops + [if escaped then AppendEscaped else Append]), if escaped then [AppendText(JEscape(e))] else Show(e))
  {
    assert g1.inline == [Inline(e)];
    RunOneMore(g, ops, g1, if escaped then AppendEscaped else Append);
    if escaped {
      EscapedEmits(g1, e);
    } else {
      ShowEmits(g1, e);
    }
  }

  lemma MustacheEmits(cfg: Settings, s: Statement, next: nat, g: Gen)
    requires AtRest(g) && s.Mustache?
    ensures Emits(g, Run(g, StatementOps(cfg, s, next)), TranslateStatement(cfg, s, next, g.useDepths))
  {
    var ops := SexprOps(cfg, s.sexpr, None, None);
    SexprPushes(cfg, s.sexpr, None, None, g);
    OneEntryEmits(g, ops, Run(g, ops).value, TranslateSexpr(cfg, s.sexpr, JNull, JNull, false), s.escaped && !cfg.noEscape);
  }

  /** The three pushes before `blockValue` and `ambiguousBlockValue`. */
  lemma BlockPushes(main: Option<nat>, inverse: Option<nat>, g: Gen)
    ensures Pushes(g, Run(g, [PushProgram(main), PushProgram(inverse), EmptyHash]),
                   [Literal(ProgramEntry(g, main)), Literal(ProgramEntry(g, inverse)), Literal(JEmptyHash)])
  {
    var programs := [PushProgram(main), PushProgram(inverse)];
    ProgramsPush(main, inverse, g);
    RunOne(Run(g, programs).value, EmptyHash);
    PushesThen(g, programs, [Literal(ProgramEntry(g, main)), Literal(ProgramEntry(g, inverse))], [EmptyHash], [Literal(JEmptyHash)]);
    assert programs + [EmptyHash] == [PushProgram(main), PushProgram(inverse), EmptyHash];
    assert [Literal(ProgramEntry(g, main)), Literal(ProgramEntry(g, inverse))] + [Literal(JEmptyHash)] ==
           [Literal(ProgramEntry(g, main)), Literal(ProgramEntry(g, inverse)), Literal(JEmptyHash)];
  }

  lemma BlockValueRuns(g: Gen, e: JExpr, main: Entry, inverse: Entry, name: string)
    requires g.inline == [Inline(e)] + [main, inverse, Literal(JEmptyHash)]
    ensures Execute(g, BlockValue(name)) ==
            Ok(g.(inline := [Inline(JBlockMissing(e, BlockOptions(name, JEmptyHash, main.e, inverse.e)))]))
  {
    SetupOptionsPops(g, [Inline(e)], main, inverse, Literal(JEmptyHash), name);
    var g1, missing := g.(inline := [Inline(e)]), Inline(JBlockMissing(e, BlockOptions(name, JEmptyHash, main.e, inverse.e)));
    assert g1.inline[..0] == [] && [] + [missing] == [missing];
    assert Pop(g1) == Ok((e, g1.(inline := [])));
  }

  /** After some pushes, an opcode that leaves one entry, which is then appended. */
  lemma {:induction false} PushedThenShown(g: Gen, pushes: seq<Opcode>, g1: Gen, op: Opcode, g2: Gen, e: JExpr)
    requires Run(g, pushes) == Ok(g1) && Execute(g1, op) == Ok(g2)
    requires g2 == g.(inline := [Inline(e)], lastContext := g2.lastContext, lastHelper := g2.lastHelper) && g.compiled == [] && g.slot == 0
    ensures Emits(g.(inline := []), Run(g, pushes + [op] + [Append]), Show(e))
  {
    RunOneMore(g, pushes, g1, op);
    RunOneMore(g, pushes + [op], g2, Append);
    ShowEmits(g2, e);
  }

  lemma BlockValueEmits(main: Option<nat>, inverse: Option<nat>, name: string, e: JExpr, g: Gen)
    requires g.inline == [Inline(e)] && g.compiled == [] && g.slot == 0
    ensures var missing := JBlockMissing(e, BlockOptions(name, JEmptyHash, ProgramEntry(g, main), ProgramEntry(g, inverse)));
            Emits(g.(inline := []), Run(g, [PushProgram(main), PushProgram(inverse), EmptyHash, BlockValue(name)] + [Append]), Show(missing))
  {
    var pushes := [PushProgram(main), PushProgram(inverse), EmptyHash];
    BlockPushes(main, inverse, g);
    var g1 := Run(g, pushes).value;
    BlockValueRuns(g1, e, Literal(ProgramEntry(g, main)), Literal(ProgramEntry(g, inverse)), name);
    var g2 := Execute(g1, BlockValue(name)).value;
    PushedThenShown(g, pushes, g1, BlockValue(name), g2, g2.inline[0].e);
    assert pushes + [BlockValue(name)] == [PushProgram(main), PushProgram(inverse), EmptyHash, BlockValue(name)];
  }

  lemma AmbiguousBlockValueRuns(g: Gen, e: JExpr, main: Entry, inverse: Entry)
    requires g.inline == [Inline(e)] + [main, inverse, Literal(JEmptyHash)] && g.compiled == [] && g.slot == 0
    ensures Execute(g, AmbiguousBlockValue) ==
            Ok(PushSource(PushSource(g.(inline := [], slot := 1), [SetStack(1, e)]).(compiled := [Inline(JStack(1))]),
                          [UnlessHelper(g.lastHelper, 1, JBlockMissing(JStack(1), JOptionsRegister))]))
  {
    SetupOptionsPops(g, [Inline(e)], main, inverse, Literal(JEmptyHash), "");
    FlushOne(g.(inline := [Inline(e)]), e);
  }

  lemma UnlessEmits(g: Gen, e: JExpr, g1: Gen, unless: Stmt)
    requires g.inline == [] && g.compiled == [] && g.slot == 0
    requires g1 == PushSource(PushSource(g.(slot := 1), [SetStack(1, e)]).(compiled := [Inline(JStack(1))]), [unless])
    ensures Emits(g, DoAppend(g1), [SetStack(1, e), unless, IfPresent(JStack(1), JStack(1))])
  {
    var show := IfPresent(JStack(1), JStack(1));
    assert [SetStack(1, e)] + [unless] + [show] == [SetStack(1, e), unless, show];
    assert g.source + Pending(g.pending) + ([SetStack(1, e)] + [unless] + [show]) == g.source + Pending(g.pending) + [SetStack(1, e)] + [unless] + [show];
    assert g.source + [] == g.source;
  }

  lemma AmbiguousBlockEmits(main: Option<nat>, inverse: Option<nat>, e: JExpr, g: Gen)
    requires g.inline == [Inline(e)] && g.compiled == [] && g.slot == 0
    ensures Emits(g.(inline := []), Run(g, [PushProgram(main), PushProgram(inverse), EmptyHash, AmbiguousBlockValue] + [Append]),
                  [SetStack(1, e), UnlessHelper(g.lastHelper, 1, JBlockMissing(JStack(1), JOptionsRegister)), IfPresent(JStack(1), JStack(1))])
  {
    var pushes := [PushProgram(main), PushProgram(inverse), EmptyHash];
    BlockPushes(main, inverse, g);
    var g1 := Run(g, pushes).value;
    AmbiguousBlockValueRuns(g1, e, Literal(ProgramEntry(g, main)), Literal(ProgramEntry(g, inverse)));
    var g2 := Execute(g1, AmbiguousBlockValue).value;
    RunOneMore(g, pushes, g1, AmbiguousBlockValue);
    RunOneMore(g, pushes + [AmbiguousBlockValue], g2, Append);
    assert pushes + [AmbiguousBlockValue] == [PushProgram(main), PushProgram(inverse), EmptyHash, AmbiguousBlockValue];
    UnlessEmits(g1.(inline := []), e, g2, UnlessHelper(g.lastHelper, 1, JBlockMissing(JStack(1), JOptionsRegister)));
  }

  lemma BlockEmits(cfg: Settings, s: Statement, next: nat, g: Gen)
    requires AtRest(g) && s.BlockStatement?
    ensures Emits(g, Run(g, StatementOps(cfg, s, next)), TranslateStatement(cfg, s, next, g.useDepths))
  {
    var main, inverse := MainGuid(s, next), InverseGuid(s, next);
    var ops := SexprOps(cfg, Apply(s.call), main, inverse);
    var tail := BlockTailOps(cfg, s.call, main, inverse);
    SexprPushes(cfg, Apply(s.call), main, inverse, g);
    var g1 := Run(g, ops).value;
    var e := TranslateSexpr(cfg, Apply(s.call), ProgramEntry(g, main), ProgramEntry(g, inverse), main.Some? || inverse.Some?);
    assert g1.inline == [Inline(e)];
    RunConcat(g, ops, tail + [Append]);
    assert StatementOps(cfg, s, next) == ops + (tail + [Append]);
    match Classify(cfg, Apply(s.call))
    case HelperClass =>
      assert tail + [Append] == [Append];
      RunOne(g1, Append);
      ShowEmits(g1, e);
    case SimpleClass => BlockValueEmits(main, inverse, s.call.path.original, e, g1);
    case AmbiguousClass => AmbiguousBlockEmits(main, inverse, e, g1);
  }

  lemma PartialHashPushes(cfg: Settings, s: Statement, g: Gen)
    requires Ready(g) && s.PartialStatement?
    ensures Pushes(g, Run(g, if s.hash.Hash? then HashOps(cfg, s.hash.pairs) else [PushUndefined]),
                   [Inline(if s.hash.Hash? then TranslateHash(cfg, s.hash).e else JUndefined)])
  {
    if s.hash.Hash? {
      HashPushes(cfg, s.hash.pairs, g);
    } else {
      RunOne(g, PushUndefined);
    }
  }

  lemma PartialContextPushes(cfg: Settings, s: Statement, g: Gen)
    requires Ready(g) && s.PartialStatement?
    ensures Pushes(g, Run(g, if s.context.Some? then ExprOps(cfg, s.context.value) else [GetContext(0), PushContext]),
                   [if s.context.Some? then Translate(cfg, s.context.value) else Literal(JDepth(0))])
  {
    if s.context.Some? {
      ExprPushes(cfg, s.context.value, g);
    } else {
      PathPushes(Path([], 0, false, ""), false, g);
    }
  }

  lemma PartialRuns(g: Gen, hash: Entry, context: Entry, name: string, indent: string)
    requires g.inline == [hash] + [context] && g.compiled == [] && g.slot == 0
    ensures Execute(g, InvokePartial(name, indent)) == Ok(g.(inline := [Inline(JPartial(name, indent, context.e, hash.e))]))
  {
    var partial := Inline(JPartial(name, indent, context.e, hash.e));
    var g1 := g.(inline := [hash]);
    assert g.inline[..1] == [hash] && [hash][..0] == [] && [] + [partial] == [partial];
    assert Pop(g) == Ok((context.e, g1)) && Pop(g1) == Ok((hash.e, g.(inline := [])));
  }

  lemma PartialInvokes(cfg: Settings, s: Statement, g: Gen)
    requires s.PartialStatement? && g.compiled == [] && g.slot == 0
    requires g.inline == [Inline(if s.hash.Hash? then TranslateHash(cfg, s.hash).e else JUndefined)] +
                         [if s.context.Some? then Translate(cfg, s.context.value) else Literal(JDepth(0))]
    ensures Emits(g.(inline := []), Run(g, [InvokePartial(s.name, s.indent), Append]), Show(TranslatePartial(cfg, s)))
  {
    var op, e := InvokePartial(s.name, s.indent), TranslatePartial(cfg, s);
    PartialRuns(g, g.inline[0], g.inline[1], s.name, s.indent);
    var g1 := g.(inline := [Inline(e)]);
    assert [op, Append][1..] == [Append];
    RunOne(g1, Append);
    ShowEmits(g1, e);
  }

  lemma PartialEmits(cfg: Settings, s: Statement, next: nat, g: Gen)
    requires AtRest(g) && s.PartialStatement?
    ensures Emits(g, Run(g, StatementOps(cfg, s, next)), TranslateStatement(cfg, s, next, g.useDepths))
  {
    var a := if s.hash.Hash? then HashOps(cfg, s.hash.pairs) else [PushUndefined];
    var b := if s.context.Some? then ExprOps(cfg, s.context.value) else [GetContext(0), PushContext];
    var hash := Inline(if s.hash.Hash? then TranslateHash(cfg, s.hash).e else JUndefined);
    var context := if s.context.Some? then Translate(cfg, s.context.value) else Literal(JDepth(0));
    PartialHashPushes(cfg, s, g);
    PartialContextPushes(cfg, s, Run(g, a).value);
    PushesThen(g, a, [hash], b, [context]);
    PartialInvokes(cfg, s, Run(g, a + b).value);
    RunConcat(g, a + b, [InvokePartial(s.name, s.indent), Append]);
  }

  predicate Outputs(s: Statement) {
    !s.Content? && !s.Comment?
  }

  lemma OutputEmits(cfg: Settings, s: Statement, next: nat, g: Gen)
    requires AtRest(g) && Outputs(s)
    ensures Emits(g, Run(g, StatementOps(cfg, s, next)), TranslateStatement(cfg, s, next, g.useDepths))
  {
    match s
    case Mustache(_, _) => MustacheEmits(cfg, s, next, g);
    case BlockStatement(_, _, _) => BlockEmits(cfg, s, next, g);
    case PartialStatement(_, _, _, _) => PartialEmits(cfg, s, next, g);
  }

  lemma ContentThen(cfg: Settings, ss: seq<Statement>, next: nat, g: Gen)
    requires ss != [] && !Outputs(ss[0])
    ensures Run(g, StatementsOps(cfg, ss, next)) ==
            Run(g.(pending := g.pending + if ss[0].Content? then ss[0].text else ""), StatementsOps(cfg, ss[1..], next))
  {
    var ops := StatementOps(cfg, ss[0], next);
    RunConcat(g, ops, StatementsOps(cfg, ss[1..], next));
    assert g.pending + "" == g.pending;
    if ops != [] {
      RunOne(g, ops[0]);
      assert ops == [ops[0]];
    }
  }

  /** Both stacks end as they began, empty, and the source grows by `code`. */
  ghost predicate Finishes(g: Gen, ops: seq<Opcode>, code: seq<Stmt>) {
    var r := Run(g, ops);
    r.Ok? && AtRest(r.value) && PushSource(r.value, []).source == g.source + code
  }

  lemma EmitThenFinish(g: Gen, ops: seq<Opcode>, code: seq<Stmt>, after: seq<Opcode>, rest: seq<Stmt>)
    requires Emits(g, Run(g, ops), code) && Finishes(Run(g, ops).value, after, rest)
    ensures Finishes(g, ops + after, Pending(g.pending) + code + rest)
  {
    RunConcat(g, ops, after);
    Regroup(g.source, Pending(g.pending), code, rest);
  }

  lemma Regroup<T>(a: seq<T>, b: seq<T>, c: seq<T>, d: seq<T>)
    ensures a + b + c + d == a + (b + c + d)
  {
  }

  lemma {:induction false} StatementsFinish(cfg: Settings, ss: seq<Statement>, next: nat, g: Gen)
    requires AtRest(g)
    ensures Finishes(g, StatementsOps(cfg, ss, next), TranslateStatements(cfg, ss, next, g.useDepths, g.pending))
    decreases |ss|
  {
    if ss == [] {
      assert g.source + [] == g.source;
    } else if Outputs(ss[0]) {
      StatementsFinishOutput(cfg, ss, next, g);
    } else {
      ContentThen(cfg, ss, next, g);
      assert g.pending + "" == g.pending;
      StatementsFinish(cfg, ss[1..], next, g.(pending := g.pending + if ss[0].Content? then ss[0].text else ""));
    }
  }

  lemma {:induction false} StatementsFinishOutput(cfg: Settings, ss: seq<Statement>, next: nat, g: Gen)
    requires AtRest(g) && ss != [] && Outputs(ss[0])
    ensures Finishes(g, StatementsOps(cfg, ss, next), TranslateStatements(cfg, ss, next, g.useDepths, g.pending))
    decreases |ss|, 0
  {
    var ops, rest := StatementOps(cfg, ss[0], next), next + |Children(ss[0])|;
    OutputEmits(cfg, ss[0], next, g);
    var g1 := Run(g, ops).value;
    StatementsFinish(cfg, ss[1..], rest, g1);
    EmitThenFinish(g, ops, TranslateStatement(cfg, ss[0], next, g.useDepths),
                   StatementsOps(cfg, ss[1..], rest), TranslateStatements(cfg, ss[1..], rest, g.useDepths, ""));
  }

  /** No template makes the generator throw: neither stack error can occur, and the code is the direct translation. */
  lemma GenerateSucceeds(cfg: Settings, p: Program, useDepths: bool)
    ensures Generate(useDepths, StatementsOps(cfg, p.statements, 0)) ==
            Ok(TranslateStatements(cfg, p.statements, 0, useDepths, ""))
  {
    StatementsFinish(cfg, p.statements, 0, Initial(useDepths));
    var code := TranslateStatements(cfg, p.statements, 0, useDepths, "");
    assert [] + code == code;
  }
}
