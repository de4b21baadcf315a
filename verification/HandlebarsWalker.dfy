/** Compiler as the object it is: a walk over the syntax tree that pushes opcodes and collects children. */
module HandlebarsWalker {
  import opened Wrappers
  import opened HandlebarsAst
  import opened HandlebarsExecution

  lemma Assoc<T>(a: seq<T>, b: seq<T>, c: seq<T>)
    ensures a + b + c == a + (b + c)
  {
  }

  lemma Regroup4<T>(a: seq<T>, b: seq<T>, c: seq<T>, d: seq<T>)
    ensures a + b + (c + d) == a + (b + c + d)
  {
  }

  class Compiler {
    const cfg: Settings
    var opcodes: seq<Opcode>
    var children: seq<Environment>
    var guid: nat
    var depths: set<nat>

    ghost predicate Grew(ops: seq<Opcode>, ds: set<nat>, opcodes0: seq<Opcode>, depths0: set<nat>)
      reads this
    {
      opcodes == opcodes0 + ops && depths == depths0 + ds
    }

    constructor (cfg: Settings)
      ensures this.cfg == cfg && opcodes == [] && children == [] && guid == 0 && depths == {}
    {
      this.cfg := cfg;
      opcodes, children, guid, depths := [], [], 0, {};
    }

    method Opcode(op: HandlebarsAst.Opcode)
      modifies this`opcodes
      ensures opcodes == old(opcodes) + [op]
    {
      opcodes := opcodes + [op];
    }

    method AddDepth(depth: nat)
      modifies this`depths
      ensures depths == old(depths) + (if depth == 0 then {} else {depth})
    {
      if depth != 0 {
        depths := depths + {depth};
      }
    }

    method ID(p: Path, falsy: bool)
      modifies this`opcodes, this`depths
      ensures Grew(IdOps(p, falsy), PathDepths(p), old(opcodes), old(depths))
    {
      AddDepth(p.depth);
      Opcode(GetContext(p.depth));
      if p.Named() {
        Opcode(LookupOnContext(p.parts, falsy, p.scoped));
      } else {
        Opcode(PushContext);
      }
    }

    method Accept(x: Expr)
      modifies this`opcodes, this`depths
      ensures Grew(ExprOps(cfg, x), ExprDepths(cfg, x), old(opcodes), old(depths))
      decreases x
    {
      match x
      case PathExpr(p) => ID(p, false);
      case DataExpr(up, parts) => Opcode(LookupData(up, parts));
      case StringExpr(t) => Opcode(PushString(t));
      case NumberExpr(n) => Opcode(PushNumber(n));
      case BooleanExpr(b) => Opcode(PushBoolean(b));
      case SubExpr(c) => HelperSexpr(c, None, None);
    }

    method PushParams(xs: seq<Expr>)
      modifies this`opcodes, this`depths
      ensures Grew(ParamOps(cfg, xs), ExprsDepths(cfg, xs), old(opcodes), old(depths))
      decreases xs
    {
      ghost var ops0, ds0 := opcodes, depths;
      var i := 0;
      while i < |xs|
        invariant 0 <= i <= |xs|
        invariant opcodes + ParamOps(cfg, xs[i..]) == ops0 + ParamOps(cfg, xs)
        invariant depths + ExprsDepths(cfg, xs[i..]) == ds0 + ExprsDepths(cfg, xs)
      {
        assert xs[i..][1..] == xs[i + 1..];
        ghost var ops1 := opcodes;
        Accept(xs[i]);
        assert opcodes + ParamOps(cfg, xs[i + 1..]) == ops1 + (ExprOps(cfg, xs[i]) + ParamOps(cfg, xs[i + 1..]));
        i := i + 1;
      }
    }

    method PushValues(ps: seq<Pair>)
      modifies this`opcodes, this`depths
      ensures Grew(PairOps(cfg, ps), PairsDepths(cfg, ps), old(opcodes), old(depths))
      decreases ps, 0
    {
      ghost var ops0, ds0 := opcodes, depths;
      var b := 0;
      while b < |ps|
        invariant 0 <= b <= |ps|
        invariant opcodes + PairOps(cfg, ps[b..]) == ops0 + PairOps(cfg, ps)
        invariant depths + PairsDepths(cfg, ps[b..]) == ds0 + PairsDepths(cfg, ps)
      {
        assert ps[b..][1..] == ps[b + 1..];
        ghost var ops1 := opcodes;
        Accept(ps[b].value);
        assert opcodes + PairOps(cfg, ps[b + 1..]) == ops1 + (ExprOps(cfg, ps[b].value) + PairOps(cfg, ps[b + 1..]));
        b := b + 1;
      }
    }

    method AssignKeys(ps: seq<Pair>)
      modifies this`opcodes
      ensures opcodes == old(opcodes) + AssignOps(ps)
    {
      ghost var ops0 := opcodes;
      var b := |ps|;
      while b > 0
        invariant 0 <= b <= |ps|
        invariant opcodes == ops0 + AssignOps(ps[b..])
      {
        b := b - 1;
        assert ps[b..][1..] == ps[b + 1..];
        Opcode(AssignToHash(ps[b].key));
      }
      assert ps[0..] == ps;
    }

    /** Values are pushed first to last and assigned last to first. */
    method HashNode(ps: seq<Pair>)
      modifies this`opcodes, this`depths
      ensures Grew(HashOps(cfg, ps), PairsDepths(cfg, ps), old(opcodes), old(depths))
      decreases ps, 1
    {
      Opcode(PushHash);
      PushValues(ps);
      AssignKeys(ps);
      Opcode(PopHash);
    }

    method SetupParams(c: Call, main: Option<nat>, inverse: Option<nat>)
      modifies this`opcodes, this`depths
      ensures Grew(ParamOps(cfg, c.params) + [PushProgram(main), PushProgram(inverse)] + OptionalHashOps(cfg, c.hash),
                   ExprsDepths(cfg, c.params) + HashDepths(cfg, c.hash), old(opcodes), old(depths))
      decreases c, 0
    {
      PushParams(c.params);
      Opcode(PushProgram(main));
      Opcode(PushProgram(inverse));
      match c.hash
      case NoHash => Opcode(EmptyHash);
      case Hash(pairs) => HashNode(pairs);
    }

    method HelperSexpr(c: Call, main: Option<nat>, inverse: Option<nat>)
      modifies this`opcodes, this`depths
      ensures Grew(CallOps(cfg, c, main, inverse), CallDepths(cfg, c), old(opcodes), old(depths))
      decreases c, 1
    {
      SetupParams(c, main, inverse);
      if KnownHead(cfg, c.path) {
        Opcode(InvokeKnownHelper(|c.params|, c.path.parts[0]));
      } else {
        ID(c.path, true);
        Opcode(InvokeHelper(|c.params|, c.path.original, c.path.Simple()));
      }
    }

    method SimpleSexpr(s: Sexpr)
      modifies this`opcodes, this`depths
      ensures Grew(SimpleOps(s), if s.Apply? then PathDepths(s.call.path) else {}, old(opcodes), old(depths))
    {
      match s
      case DataRef(up, parts) =>
        Opcode(LookupData(up, parts));
        Opcode(ResolvePossibleLambda);
      case Apply(c) =>
        if c.path.parts != [] {
          ID(c.path, false);
        } else {
          AddDepth(c.path.depth);
          Opcode(GetContext(c.path.depth));
          Opcode(PushContext);
        }
        Opcode(ResolvePossibleLambda);
    }

    method AmbiguousSexpr(c: Call, main: Option<nat>, inverse: Option<nat>)
      requires c.path.Simple()
      modifies this`opcodes, this`depths
      ensures Grew(AmbiguousOps(c, main, inverse), {}, old(opcodes), old(depths))
    {
      Opcode(GetContext(c.path.depth));
      Opcode(PushProgram(main));
      Opcode(PushProgram(inverse));
      ID(c.path, false);
      Opcode(InvokeAmbiguous(c.path.parts[0], main.Some? || inverse.Some?));
    }

    method SexprNode(s: Sexpr, main: Option<nat>, inverse: Option<nat>)
      modifies this`opcodes, this`depths
      ensures Grew(SexprOps(cfg, s, main, inverse), SexprDepths(cfg, s), old(opcodes), old(depths))
    {
      match Classify(cfg, s)
      case SimpleClass => SimpleSexpr(s);
      case HelperClass => HelperSexpr(s.call, main, inverse);
      case AmbiguousClass => AmbiguousSexpr(s.call, main, inverse);
    }

    /** A new compiler object for the child; its depths, less one, are added here. */
    method CompileProgram(p: Program) returns (index: nat)
      requires guid == |children|
      modifies this`children, this`guid, this`depths
      ensures index == old(guid) && guid == |children| && children == old(children) + [HandlebarsExecution.Compile(cfg, p)]
      ensures depths == old(depths) + Outer(HandlebarsExecution.Compile(cfg, p).depths)
      decreases p, 1
    {
      var child := new Compiler(cfg);
      var result := child.ProgramNode(p);
      index := guid;
      guid := guid + 1;
      children := children + [result];
      ghost var ds0 := depths;
      var todo := result.depths;
      while todo != {}
        invariant todo <= result.depths
        invariant guid == old(guid) + 1 && children == old(children) + [result] && opcodes == old(opcodes)
        invariant depths == ds0 + Outer(result.depths - todo)
        decreases todo
      {
        var depth :| depth in todo;
        ghost var before := result.depths - todo;
        todo := todo - {depth};
        assert result.depths - todo == before + {depth};
        assert Outer(before + {depth}) == Outer(before) + if depth >= 2 then {depth - 1} else {};
        if depth >= 2 {
          AddDepth(depth - 1);
        }
      }
      assert result.depths - todo == result.depths;
    }

    method BlockTail(c: Call, main: Option<nat>, inverse: Option<nat>)
      modifies this`opcodes
      ensures opcodes == old(opcodes) + (BlockTailOps(cfg, c, main, inverse) + [Append])
    {
      match Classify(cfg, Apply(c)) {
        case HelperClass =>
        case SimpleClass =>
          Opcode(PushProgram(main));
          Opcode(PushProgram(inverse));
          Opcode(EmptyHash);
          Opcode(BlockValue(c.path.original));
        case AmbiguousClass =>
          Opcode(PushProgram(main));
          Opcode(PushProgram(inverse));
          Opcode(EmptyHash);
          Opcode(AmbiguousBlockValue);
      }
      Opcode(Append);
    }

    method CompileOptional(p: Option<Program>) returns (index: Option<nat>)
      requires guid == |children|
      modifies this`children, this`guid, this`depths
      ensures index == (if p.Some? then Some(old(guid)) else None) && guid == |children|
      ensures children == old(children) + (if p.Some? then [HandlebarsExecution.Compile(cfg, p.value)] else [])
      ensures depths == old(depths) + (if p.Some? then Outer(HandlebarsExecution.Compile(cfg, p.value).depths) else {})
      decreases p
    {
      index := None;
      if p.Some? {
        var child := CompileProgram(p.value);
        index := Some(child);
      }
    }

    method BlockNode(s: Statement)
      requires s.BlockStatement? && guid == |children|
      modifies this
      ensures Grew(StatementOps(cfg, s, old(guid)), StatementDepths(cfg, s), old(opcodes), old(depths))
      ensures guid == |children| && children == old(children) + StatementEnvironments(cfg, s)
      decreases s, 0
    {
      ghost var next, ops0, kids0 := guid, opcodes, children;
      var main := CompileOptional(s.program);
      ghost var kids1 := children;
      var inverse := CompileOptional(s.inverse);
      assert main == MainGuid(s, next) && inverse == InverseGuid(s, next);
      Assoc(kids0, if s.program.Some? then [HandlebarsExecution.Compile(cfg, s.program.value)] else [],
            if s.inverse.Some? then [HandlebarsExecution.Compile(cfg, s.inverse.value)] else []);
      SexprNode(Apply(s.call), main, inverse);
      BlockTail(s.call, main, inverse);
      Regroup4(ops0, SexprOps(cfg, Apply(s.call), main, inverse), BlockTailOps(cfg, s.call, main, inverse), [Append]);
    }

    method PartialHash(h: Hash)
      modifies this`opcodes, this`depths
      ensures Grew(if h.Hash? then HashOps(cfg, h.pairs) else [PushUndefined], HashDepths(cfg, h), old(opcodes), old(depths))
    {
      if h.Hash? {
        HashNode(h.pairs);
      } else {
        Opcode(PushUndefined);
      }
    }

    method PartialContext(context: Option<Expr>)
      modifies this`opcodes, this`depths
      ensures Grew(if context.Some? then ExprOps(cfg, context.value) else [GetContext(0), PushContext],
                   if context.Some? then ExprDepths(cfg, context.value) else {}, old(opcodes), old(depths))
    {
      if context.Some? {
        Accept(context.value);
      } else {
        Opcode(GetContext(0));
        Opcode(PushContext);
      }
    }

    method PartialNode(s: Statement)
      requires s.PartialStatement?
      modifies this`opcodes, this`depths
      ensures Grew(PartialOps(cfg, s), StatementDepths(cfg, s), old(opcodes), old(depths))
      decreases s, 0
    {
      PartialHash(s.hash);
      PartialContext(s.context);
      Opcode(InvokePartial(s.name, s.indent));
      Opcode(Append);
    }

    method StatementNode(s: Statement)
      requires guid == |children|
      modifies this
      ensures Grew(StatementOps(cfg, s, old(guid)), StatementDepths(cfg, s), old(opcodes), old(depths))
      ensures guid == |children| && children == old(children) + StatementEnvironments(cfg, s)
      decreases s, 1
    {
      match s
      case Content(t) =>
        if t != "" {
          Opcode(AppendContent(t));
        }
      case Comment =>
      case Mustache(x, escaped) =>
        SexprNode(x, None, None);
        Opcode(if escaped && !cfg.noEscape then AppendEscaped else Append);
      case BlockStatement(_, _, _) => BlockNode(s);
      case PartialStatement(_, _, _, _) => PartialNode(s);
    }

    method NextStatement(ghost ss: seq<Statement>, rest: seq<Statement>)
      requires rest != [] && guid == |children| && Collected(cfg, ss, rest, guid, opcodes, children, depths)
      modifies this
      ensures guid == |children| && Collected(cfg, ss, rest[1..], guid, opcodes, children, depths)
      decreases rest[0], 2
    {
      ghost var next, ops, kids, ds := guid, opcodes, children, depths;
      StatementNode(rest[0]);
      Collect(cfg, ss, rest, next, ops, kids, ds, guid, opcodes, children, depths);
    }

    /** `compile` on a fresh object: one opcode run per statement, in order. */
    method ProgramNode(p: Program) returns (env: Environment)
      requires opcodes == [] && children == [] && guid == 0 && depths == {}
      modifies this
      ensures env == HandlebarsExecution.Compile(cfg, p)
      decreases p, 0
    {
      var ss := p.statements;
      var i := 0;
      while i < |ss|
        invariant 0 <= i <= |ss| && guid == |children|
        invariant Collected(cfg, ss, ss[i..], guid, opcodes, children, depths)
      {
        assert ss[i..][1..] == ss[i + 1..];
        NextStatement(ss, ss[i..]);
        i := i + 1;
      }
      env := Environment(opcodes, children, depths, |ss| == 1);
    }
  }

  /** With the statements of `rest` still to come, the fields hold what those before them compile to. */
  ghost predicate Collected(cfg: Settings, ss: seq<Statement>, rest: seq<Statement>, next: nat,
                            ops: seq<Opcode>, kids: seq<Environment>, depths: set<nat>) {
    && ops + StatementsOps(cfg, rest, next) == StatementsOps(cfg, ss, 0)
    && kids + ChildEnvironments(cfg, rest) == ChildEnvironments(cfg, ss)
    && depths + StatementsDepths(cfg, rest) == StatementsDepths(cfg, ss)
  }

  lemma OpsCollected(cfg: Settings, all: seq<Opcode>, rest: seq<Statement>, next: nat, ops: seq<Opcode>, next': nat, ops': seq<Opcode>)
    requires rest != [] && ops + StatementsOps(cfg, rest, next) == all
    requires ops' == ops + StatementOps(cfg, rest[0], next) && next' == next + |Children(rest[0])|
    ensures ops' + StatementsOps(cfg, rest[1..], next') == all
  {
    Assoc(ops, StatementOps(cfg, rest[0], next), StatementsOps(cfg, rest[1..], next'));
  }

  lemma KidsCollected(cfg: Settings, all: seq<Environment>, rest: seq<Statement>, kids: seq<Environment>, kids': seq<Environment>)
    requires rest != [] && kids + ChildEnvironments(cfg, rest) == all
    requires kids' == kids + StatementEnvironments(cfg, rest[0])
    ensures kids' + ChildEnvironments(cfg, rest[1..]) == all && |kids'| == |kids| + |Children(rest[0])|
  {
    Assoc(kids, StatementEnvironments(cfg, rest[0]), ChildEnvironments(cfg, rest[1..]));
  }

  lemma Collect(cfg: Settings, ss: seq<Statement>, rest: seq<Statement>,
                next: nat, ops: seq<Opcode>, kids: seq<Environment>, depths: set<nat>,
                next': nat, ops': seq<Opcode>, kids': seq<Environment>, depths': set<nat>)
    requires rest != [] && Collected(cfg, ss, rest, next, ops, kids, depths) && next == |kids| && next' == |kids'|
    requires ops' == ops + StatementOps(cfg, rest[0], next) && kids' == kids + StatementEnvironments(cfg, rest[0])
    requires depths' == depths + StatementDepths(cfg, rest[0])
    ensures Collected(cfg, ss, rest[1..], next', ops', kids', depths')
  {
    KidsCollected(cfg, ChildEnvironments(cfg, ss), rest, kids, kids');
    OpsCollected(cfg, StatementsOps(cfg, ss, 0), rest, next, ops, next', ops');
  }
}
