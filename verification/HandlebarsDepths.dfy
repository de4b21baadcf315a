/** The outer contexts a program reads, read off its opcodes. */
module HandlebarsDepths {
  import opened Wrappers
  import opened HandlebarsAst
  import opened HandlebarsStack
  import opened HandlebarsExecution

  function OpsDepths(ops: seq<Opcode>): set<nat>
    decreases |ops|
  {
    if ops == [] then {}
    else (if ops[0].GetContext? && ops[0].depth != 0 then {ops[0].depth} else {}) + OpsDepths(ops[1..])
  }

  lemma {:induction false} OpsDepthsConcat(a: seq<Opcode>, b: seq<Opcode>)
    ensures OpsDepths(a + b) == OpsDepths(a) + OpsDepths(b)
    decreases |a|
  {
    if a == [] {
      assert a + b == b;
    } else {
      assert (a + b)[0] == a[0] && (a + b)[1..] == a[1..] + b;
      OpsDepthsConcat(a[1..], b);
    }
  }

  predicate Quiet(op: Opcode) {
    !op.GetContext?
  }

  lemma {:induction false} QuietOps(ops: seq<Opcode>)
    requires forall i :: 0 <= i < |ops| ==> Quiet(ops[i])
    ensures OpsDepths(ops) == {}
    decreases |ops|
  {
    if ops != [] {
      assert Quiet(ops[0]);
      assert forall i :: 0 <= i < |ops| - 1 ==> ops[1..][i] == ops[i + 1];
      QuietOps(ops[1..]);
    }
  }

  lemma IdOpsDepths(p: Path, falsy: bool)
    ensures OpsDepths(IdOps(p, falsy)) == PathDepths(p)
  {
    var op := if p.Named() then LookupOnContext(p.parts, falsy, p.scoped) else PushContext;
    assert IdOps(p, falsy)[1..] == [op];
    QuietOps([op]);
  }

  lemma {:induction false} ExprOpsDepths(cfg: Settings, x: Expr)
    ensures OpsDepths(ExprOps(cfg, x)) == ExprDepths(cfg, x)
    decreases x
  {
    match x
    case PathExpr(p) => IdOpsDepths(p, false);
    case SubExpr(c) => CallOpsDepths(cfg, c, None, None);
    case _ => QuietOps(ExprOps(cfg, x));
  }

  lemma {:induction false} ParamOpsDepths(cfg: Settings, xs: seq<Expr>)
    ensures OpsDepths(ParamOps(cfg, xs)) == ExprsDepths(cfg, xs)
    decreases xs
  {
    if xs != [] {
      ExprOpsDepths(cfg, xs[0]);
      ParamOpsDepths(cfg, xs[1..]);
      OpsDepthsConcat(ExprOps(cfg, xs[0]), ParamOps(cfg, xs[1..]));
    }
  }

  lemma {:induction false} PairOpsDepths(cfg: Settings, ps: seq<Pair>)
    ensures OpsDepths(PairOps(cfg, ps)) == PairsDepths(cfg, ps)
    decreases ps, 0
  {
    if ps != [] {
      ExprOpsDepths(cfg, ps[0].value);
      PairOpsDepths(cfg, ps[1..]);
      OpsDepthsConcat(ExprOps(cfg, ps[0].value), PairOps(cfg, ps[1..]));
    }
  }

  lemma {:induction false} AssignOpsQuiet(ps: seq<Pair>)
    ensures forall i :: 0 <= i < |AssignOps(ps)| ==> Quiet(AssignOps(ps)[i])
    decreases |ps|
  {
    if ps != [] {
      AssignOpsQuiet(ps[1..]);
    }
  }

  lemma {:induction false} HashOpsDepths(cfg: Settings, ps: seq<Pair>)
    ensures OpsDepths(HashOps(cfg, ps)) == PairsDepths(cfg, ps)
    decreases ps, 1
  {
    PairOpsDepths(cfg, ps);
    AssignOpsQuiet(ps);
    QuietOps([PushHash]);
    QuietOps(AssignOps(ps));
    QuietOps([PopHash]);
    OpsDepthsConcat([PushHash], PairOps(cfg, ps));
    OpsDepthsConcat([PushHash] + PairOps(cfg, ps), AssignOps(ps));
    OpsDepthsConcat([PushHash] + PairOps(cfg, ps) + AssignOps(ps), [PopHash]);
  }

  lemma {:induction false} CallOpsDepths(cfg: Settings, c: Call, main: Option<nat>, inverse: Option<nat>)
    ensures OpsDepths(CallOps(cfg, c, main, inverse)) == CallDepths(cfg, c)
    decreases c
  {
    var programs, tail := [PushProgram(main), PushProgram(inverse)], CallTail(cfg, c);
    ParamOpsDepths(cfg, c.params);
    match c.hash {
      case NoHash => QuietOps([EmptyHash]);
      case Hash(ps) => HashOpsDepths(cfg, ps);
    }
    CallTailDepths(cfg, c);
    QuietOps(programs);
    var params, hash := ParamOps(cfg, c.params), OptionalHashOps(cfg, c.hash);
    OpsDepthsConcat(params, programs);
    OpsDepthsConcat(params + programs, hash);
    OpsDepthsConcat(params + programs + hash, tail);
    assert CallOps(cfg, c, main, inverse) == params + programs + hash + tail;
  }

  lemma CallTailDepths(cfg: Settings, c: Call)
    ensures OpsDepths(CallTail(cfg, c)) == if KnownHead(cfg, c.path) then {} else PathDepths(c.path)
  {
    if KnownHead(cfg, c.path) {
      QuietOps(CallTail(cfg, c));
    } else {
      var op := InvokeHelper(|c.params|, c.path.original, c.path.Simple());
      IdOpsDepths(c.path, true);
      QuietOps([op]);
      OpsDepthsConcat(IdOps(c.path, true), [op]);
    }
  }

  lemma SexprOpsDepths(cfg: Settings, s: Sexpr, main: Option<nat>, inverse: Option<nat>)
    ensures OpsDepths(SexprOps(cfg, s, main, inverse)) == SexprDepths(cfg, s)
  {
    match Classify(cfg, s)
    case HelperClass => CallOpsDepths(cfg, s.call, main, inverse);
    case SimpleClass =>
      match s {
        case DataRef(_, _) => QuietOps(SimpleOps(s));
        case Apply(c) =>
          IdOpsDepths(c.path, false);
          QuietOps([ResolvePossibleLambda]);
          OpsDepthsConcat(IdOps(c.path, false), [ResolvePossibleLambda]);
      }
    case AmbiguousClass =>
      var c := s.call;
      var get, programs := [GetContext(0)], [PushProgram(main), PushProgram(inverse)];
      var op := InvokeAmbiguous(c.path.parts[0], main.Some? || inverse.Some?);
      assert get[1..] == [] && OpsDepths(get) == {};
      QuietOps(programs);
      IdOpsDepths(c.path, false);
      QuietOps([op]);
      OpsDepthsConcat(get, programs);
      OpsDepthsConcat(get + programs, IdOps(c.path, false));
      OpsDepthsConcat(get + programs + IdOps(c.path, false), [op]);
      assert AmbiguousOps(c, main, inverse) == get + programs + IdOps(c.path, false) + [op];
  }

  function OuterAll(envs: seq<Environment>): set<nat>
    decreases |envs|
  {
    if envs == [] then {} else Outer(envs[0].depths) + OuterAll(envs[1..])
  }

  lemma {:induction false} OuterAllConcat(a: seq<Environment>, b: seq<Environment>)
    ensures OuterAll(a + b) == OuterAll(a) + OuterAll(b)
    decreases |a|
  {
    if a == [] {
      assert a + b == b;
    } else {
      assert (a + b)[0] == a[0] && (a + b)[1..] == a[1..] + b;
      OuterAllConcat(a[1..], b);
    }
  }

  lemma PartialOpsDepths(cfg: Settings, s: Statement, next: nat)
    requires s.PartialStatement?
    ensures OpsDepths(StatementOps(cfg, s, next)) == OwnDepths(cfg, s)
  {
    var a := if s.hash.Hash? then HashOps(cfg, s.hash.pairs) else [PushUndefined];
    var b := if s.context.Some? then ExprOps(cfg, s.context.value) else [GetContext(0), PushContext];
    var tail := [InvokePartial(s.name, s.indent), Append];
    if s.hash.Hash? { HashOpsDepths(cfg, s.hash.pairs); } else { QuietOps(a); }
    if s.context.Some? { ExprOpsDepths(cfg, s.context.value); } else { IdOpsDepths(Path([], 0, false, ""), false); }
    QuietOps(tail);
    OpsDepthsConcat(a, b);
    OpsDepthsConcat(a + b, tail);
  }

  lemma OwnOpsDepths(cfg: Settings, s: Statement, next: nat)
    ensures OpsDepths(StatementOps(cfg, s, next)) == OwnDepths(cfg, s)
  {
    match s
    case Content(_) => QuietOps(StatementOps(cfg, s, next));
    case Comment =>
    case Mustache(x, escaped) =>
      var op := if escaped && !cfg.noEscape then AppendEscaped else Append;
      SexprOpsDepths(cfg, x, None, None);
      QuietOps([op]);
      OpsDepthsConcat(SexprOps(cfg, x, None, None), [op]);
    case BlockStatement(c, program, inverse) =>
      var main, other := MainGuid(s, next), InverseGuid(s, next);
      var tail := BlockTailOps(cfg, c, main, other) + [Append];
      SexprOpsDepths(cfg, Apply(c), main, other);
      QuietOps(tail);
      OpsDepthsConcat(SexprOps(cfg, Apply(c), main, other), tail);
      assert StatementOps(cfg, s, next) == SexprOps(cfg, Apply(c), main, other) + tail;
    case PartialStatement(_, _, _, _) => PartialOpsDepths(cfg, s, next);
  }

  /** Own reads show in the opcodes. */
  lemma {:induction false} ReadsShow(cfg: Settings, ss: seq<Statement>, next: nat)
    ensures ReadsOuter(cfg, ss) <==> OpsDepths(StatementsOps(cfg, ss, next)) != {}
    decreases |ss|
  {
    if ss != [] {
      var rest := next + |Children(ss[0])|;
      OwnOpsDepths(cfg, ss[0], next);
      ReadsShow(cfg, ss[1..], rest);
      OpsDepthsConcat(StatementOps(cfg, ss[0], next), StatementsOps(cfg, ss[1..], rest));
      if k :| k in OwnDepths(cfg, ss[0]) {
        assert k in OpsDepths(StatementsOps(cfg, ss, next));
      }
    }
  }

  lemma {:induction false} OwnInOps(cfg: Settings, ss: seq<Statement>, next: nat, i: nat)
    requires i < |ss|
    ensures OwnDepths(cfg, ss[i]) <= OpsDepths(StatementsOps(cfg, ss, next))
    decreases |ss|
  {
    var rest := next + |Children(ss[0])|;
    OpsDepthsConcat(StatementOps(cfg, ss[0], next), StatementsOps(cfg, ss[1..], rest));
    if i == 0 {
      OwnOpsDepths(cfg, ss[0], next);
    } else {
      OwnInOps(cfg, ss[1..], rest, i - 1);
    }
  }

  lemma StatementOpsDepths(cfg: Settings, s: Statement, next: nat)
    ensures StatementDepths(cfg, s) == OpsDepths(StatementOps(cfg, s, next)) + OuterAll(StatementEnvironments(cfg, s))
  {
    OwnOpsDepths(cfg, s, next);
    if s.BlockStatement? {
      BlockOuter(cfg, s);
    }
  }

  lemma BlockOuter(cfg: Settings, s: Statement)
    requires s.BlockStatement?
    ensures OuterAll(StatementEnvironments(cfg, s)) ==
            (if s.program.Some? then Outer(Compile(cfg, s.program.value).depths) else {}) +
            (if s.inverse.Some? then Outer(Compile(cfg, s.inverse.value).depths) else {})
  {
    var a := if s.program.Some? then [Compile(cfg, s.program.value)] else [];
    var b := if s.inverse.Some? then [Compile(cfg, s.inverse.value)] else [];
    OuterAllConcat(a, b);
    assert a != [] ==> a[1..] == [];
    assert b != [] ==> b[1..] == [];
  }

  lemma Shuffle(a: set<nat>, b: set<nat>, c: set<nat>, d: set<nat>)
    ensures (a + b) + (c + d) == (a + c) + (b + d)
  {
  }

  /** The depths recorded by `addDepth` can be read off the opcodes and the children. */
  lemma {:induction false} StatementsOpsDepths(cfg: Settings, ss: seq<Statement>, next: nat)
    ensures StatementsDepths(cfg, ss) == OpsDepths(StatementsOps(cfg, ss, next)) + OuterAll(ChildEnvironments(cfg, ss))
    decreases ss
  {
    if ss != [] {
      var rest := next + |Children(ss[0])|;
      StatementOpsDepths(cfg, ss[0], next);
      StatementsOpsDepths(cfg, ss[1..], rest);
      OpsDepthsConcat(StatementOps(cfg, ss[0], next), StatementsOps(cfg, ss[1..], rest));
      OuterAllConcat(StatementEnvironments(cfg, ss[0]), ChildEnvironments(cfg, ss[1..]));
      Shuffle(OpsDepths(StatementOps(cfg, ss[0], next)), OuterAll(StatementEnvironments(cfg, ss[0])),
              OpsDepths(StatementsOps(cfg, ss[1..], rest)), OuterAll(ChildEnvironments(cfg, ss[1..])));
    }
  }

  // ----- the depths recorded, statement by statement -----

  /** Some statement of the program reads the k-th context itself, or one in a block of its reads the next one further out. */
  predicate ReadsAt(cfg: Settings, ss: seq<Statement>, k: nat)
    decreases ss
  {
    exists i :: 0 <= i < |ss| && StatementReadsAt(cfg, ss[i], k)
  }

  predicate StatementReadsAt(cfg: Settings, s: Statement, k: nat)
    decreases s
  {
    || k in OwnDepths(cfg, s)
    || (s.BlockStatement? && s.program.Some? && ReadsAt(cfg, s.program.value.statements, k + 1))
    || (s.BlockStatement? && s.inverse.Some? && ReadsAt(cfg, s.inverse.value.statements, k + 1))
  }

  /** What `addDepth` collects is exactly the outer contexts that a program and the programs it holds read. */
  lemma {:induction false} DepthsExactly(cfg: Settings, ss: seq<Statement>, k: nat)
    requires k > 0
    ensures k in StatementsDepths(cfg, ss) <==> ReadsAt(cfg, ss, k)
    decreases ss
  {
    if ss != [] {
      StatementDepthsExactly(cfg, ss[0], k);
      DepthsExactly(cfg, ss[1..], k);
      assert ReadsAt(cfg, ss, k) <==> StatementReadsAt(cfg, ss[0], k) || ReadsAt(cfg, ss[1..], k);
    }
  }

  lemma {:induction false} StatementDepthsExactly(cfg: Settings, s: Statement, k: nat)
    requires k > 0
    ensures k in StatementDepths(cfg, s) <==> StatementReadsAt(cfg, s, k)
    decreases s
  {
    if s.BlockStatement? {
      if s.program.Some? {
        OuterExactly(cfg, s.program.value, k);
      }
      if s.inverse.Some? {
        OuterExactly(cfg, s.inverse.value, k);
      }
    }
  }

  lemma {:induction false} OuterExactly(cfg: Settings, p: Program, k: nat)
    requires k > 0
    ensures k in Outer(Compile(cfg, p).depths) <==> ReadsAt(cfg, p.statements, k + 1)
    decreases p
  {
    DepthsExactly(cfg, p.statements, k + 1);
    if k + 1 in Compile(cfg, p).depths {
      assert k == k + 1 - 1;
    }
  }
}
