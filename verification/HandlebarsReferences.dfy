/** The children a program refers to, read off its opcodes. */
module HandlebarsReferences {
  import opened Wrappers
  import opened HandlebarsAst

  predicate Refers(ops: seq<Opcode>, g: nat) {
    PushProgram(Some(g)) in ops
  }

  lemma RefersEither(a: seq<Opcode>, b: seq<Opcode>, whole: seq<Opcode>, g: nat)
    requires whole == a + b
    ensures Refers(whole, g) <==> Refers(a, g) || Refers(b, g)
  {
  }

  lemma {:induction false} ExprRefers(cfg: Settings, x: Expr, g: nat)
    ensures !Refers(ExprOps(cfg, x), g)
    decreases x
  {
    if x.SubExpr? {
      CallRefers(cfg, x.call, None, None, g);
    }
  }

  lemma {:induction false} ParamsRefer(cfg: Settings, xs: seq<Expr>, g: nat)
    ensures !Refers(ParamOps(cfg, xs), g)
    decreases xs
  {
    if xs != [] {
      ExprRefers(cfg, xs[0], g);
      ParamsRefer(cfg, xs[1..], g);
    }
  }

  lemma {:induction false} PairsRefer(cfg: Settings, ps: seq<Pair>, g: nat)
    ensures !Refers(PairOps(cfg, ps), g)
    decreases ps, 0
  {
    if ps != [] {
      ExprRefers(cfg, ps[0].value, g);
      PairsRefer(cfg, ps[1..], g);
    }
  }

  lemma {:induction false} AssignsRefer(ps: seq<Pair>, g: nat)
    ensures !Refers(AssignOps(ps), g)
    decreases |ps|
  {
    if ps != [] {
      AssignsRefer(ps[1..], g);
    }
  }

  lemma {:induction false} HashRefers(cfg: Settings, ps: seq<Pair>, g: nat)
    ensures !Refers(HashOps(cfg, ps), g)
    decreases ps, 1
  {
    PairsRefer(cfg, ps, g);
    AssignsRefer(ps, g);
  }

  lemma {:induction false} CallRefers(cfg: Settings, c: Call, main: Option<nat>, inverse: Option<nat>, g: nat)
    ensures Refers(CallOps(cfg, c, main, inverse), g) <==> main == Some(g) || inverse == Some(g)
    decreases c
  {
    ParamsRefer(cfg, c.params, g);
    if c.hash.Hash? {
      HashRefers(cfg, c.hash.pairs, g);
    }
    var programs := [PushProgram(main), PushProgram(inverse)];
    assert Refers(programs, g) <==> main == Some(g) || inverse == Some(g) by {
      assert programs[0] == PushProgram(main) && programs[1] == PushProgram(inverse);
    }
  }

  lemma SexprRefers(cfg: Settings, s: Sexpr, main: Option<nat>, inverse: Option<nat>, g: nat)
    ensures Refers(SexprOps(cfg, s, main, inverse), g) ==> main == Some(g) || inverse == Some(g)
    ensures !Classify(cfg, s).SimpleClass? && (main == Some(g) || inverse == Some(g)) ==> Refers(SexprOps(cfg, s, main, inverse), g)
  {
    match Classify(cfg, s)
    case SimpleClass =>
    case HelperClass => CallRefers(cfg, s.call, main, inverse, g);
    case AmbiguousClass =>
      var ops := AmbiguousOps(s.call, main, inverse);
      assert ops[1] == PushProgram(main) && ops[2] == PushProgram(inverse);
  }

  lemma TailRefers(cfg: Settings, c: Call, main: Option<nat>, inverse: Option<nat>, g: nat)
    ensures Refers(BlockTailOps(cfg, c, main, inverse), g) ==> main == Some(g) || inverse == Some(g)
    ensures Classify(cfg, Apply(c)).SimpleClass? && (main == Some(g) || inverse == Some(g)) ==> Refers(BlockTailOps(cfg, c, main, inverse), g)
  {
    var ops := BlockTailOps(cfg, c, main, inverse);
    if !Classify(cfg, Apply(c)).HelperClass? {
      assert ops[0] == PushProgram(main) && ops[1] == PushProgram(inverse);
    }
  }

  /** A statement refers to its own children and to no others. */
  lemma StatementRefers(cfg: Settings, s: Statement, next: nat, g: nat)
    ensures Refers(StatementOps(cfg, s, next), g) <==> next <= g < next + |Children(s)|
  {
    match s
    case Mustache(x, _) => SexprRefers(cfg, x, None, None, g);
    case BlockStatement(c, _, _) =>
      SexprRefers(cfg, Apply(c), MainGuid(s, next), InverseGuid(s, next), g);
      TailRefers(cfg, c, MainGuid(s, next), InverseGuid(s, next), g);
    case PartialStatement(_, context, hash, _) =>
      if hash.Hash? {
        HashRefers(cfg, hash.pairs, g);
      }
      if context.Some? {
        ExprRefers(cfg, context.value, g);
      }
    case _ =>
  }

  lemma {:induction false} FirstOps(cfg: Settings, ss: seq<Statement>, rest: seq<Statement>, next: nat, after: nat)
    requires ss != [] && rest == ss[1..] && after == next + |Children(ss[0])|
    ensures StatementsOps(cfg, ss, next) == StatementOps(cfg, ss[0], next) + StatementsOps(cfg, rest, after)
  {
  }

  lemma {:induction false} FirstCount(ss: seq<Statement>, rest: seq<Statement>)
    requires ss != [] && rest == ss[1..]
    ensures |ChildPrograms(ss)| == |Children(ss[0])| + |ChildPrograms(rest)|
  {
  }

  /** Every child occurs in the opcodes, under its number, and nothing else does. */
  lemma {:induction false} StatementsRefer(cfg: Settings, ss: seq<Statement>, next: nat, g: nat)
    ensures Refers(StatementsOps(cfg, ss, next), g) <==> next <= g < next + |ChildPrograms(ss)|
    decreases |ss|
  {
    if ss != [] {
      var rest, after := ss[1..], next + |Children(ss[0])|;
      StatementRefers(cfg, ss[0], next, g);
      StatementsRefer(cfg, rest, after, g);
      FirstOps(cfg, ss, rest, next, after);
      FirstCount(ss, rest);
      RefersEither(StatementOps(cfg, ss[0], next), StatementsOps(cfg, rest, after), StatementsOps(cfg, ss, next), g);
    }
  }
}
