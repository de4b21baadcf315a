/** Where no host function raises an exception of its own, direct evaluation raises none at all. */
module HandlebarsProper {
  import opened Wrappers
  import opened HandlebarsAst
  import opened HandlebarsMeaning

  ghost predicate ProperScope(sc: Scope) {
    ProperAll(sc.contexts) && Proper(sc.data)
  }

  // ----- expressions -----

  lemma {:induction false} FollowProper(rt: Runtime, v: Value, parts: seq<string>, falsy: bool)
    requires PassesOn(rt) && Proper(v)
    ensures Proper(Follow(rt, v, parts, falsy))
    decreases |parts|
  {
    if parts != [] {
      FollowProper(rt, FollowOne(rt, v, parts[0], falsy), parts[1..], falsy);
    }
  }

  lemma PathProper(rt: Runtime, sc: Scope, p: Path, falsy: bool)
    requires PassesOn(rt) && ProperScope(sc)
    ensures Proper(EvalPath(rt, sc, p, falsy))
  {
    FollowProper(rt, sc.At(p.depth), p.parts, falsy);
  }

  lemma {:induction false} UpProper(rt: Runtime, v: Value, n: nat)
    requires PassesOn(rt) && Proper(v)
    ensures Proper(DataUp(rt, v, n))
    decreases n
  {
    if n > 0 && rt.truthy(v) {
      UpProper(rt, rt.property(v, "_parent"), n - 1);
    }
  }

  lemma DataProper(rt: Runtime, sc: Scope, up: nat, parts: seq<string>)
    requires PassesOn(rt) && ProperScope(sc)
    ensures Proper(EvalData(rt, sc, up, parts))
  {
    UpProper(rt, sc.data, up);
    FollowProper(rt, DataUp(rt, sc.data, up), parts, true);
  }

  lemma {:induction false} ExprProper(rt: Runtime, cfg: Settings, sc: Scope, x: Expr)
    requires PassesOn(rt) && ProperScope(sc)
    ensures Proper(EvalExpr(rt, cfg, sc, x))
    decreases x
  {
    match x
    case PathExpr(p) => PathProper(rt, sc, p, false);
    case DataExpr(up, parts) => DataProper(rt, sc, up, parts);
    case SubExpr(c) => CallProper(rt, cfg, sc, c, None, None);
    case _ =>
  }

  lemma {:induction false} ExprsProper(rt: Runtime, cfg: Settings, sc: Scope, xs: seq<Expr>)
    requires PassesOn(rt) && ProperScope(sc)
    ensures ProperAll(EvalExprs(rt, cfg, sc, xs))
    decreases xs
  {
    if xs != [] {
      ExprProper(rt, cfg, sc, xs[0]);
      ExprsProper(rt, cfg, sc, xs[1..]);
    }
  }

  lemma {:induction false} PairsProper(rt: Runtime, cfg: Settings, sc: Scope, ps: seq<Pair>)
    requires PassesOn(rt) && ProperScope(sc)
    ensures Proper(Record(EvalPairs(rt, cfg, sc, ps)))
    decreases ps
  {
    if ps != [] {
      ExprProper(rt, cfg, sc, ps[0].value);
      PairsProper(rt, cfg, sc, ps[1..]);
    }
  }

  lemma {:induction false} HashProper(rt: Runtime, cfg: Settings, sc: Scope, h: Hash)
    requires PassesOn(rt) && ProperScope(sc)
    ensures Proper(EvalHash(rt, cfg, sc, h))
    decreases h
  {
    if h.Hash? {
      PairsProper(rt, cfg, sc, h.pairs);
    }
  }

  lemma CalleeProper(rt: Runtime, cfg: Settings, sc: Scope, p: Path)
    requires PassesOn(rt) && ProperScope(sc)
    ensures Proper(Callee(rt, cfg, sc, p))
  {
    PathProper(rt, sc, p, true);
  }

  lemma InvokeProper(rt: Runtime, f: Value, c: Value, args: seq<Value>, name: string, hash: Value, main: Option<Block>, inverse: Option<Block>, data: Value)
    requires PassesOn(rt) && Proper(f) && Proper(c) && ProperAll(args) && Proper(hash) && Proper(data)
    requires ProperBlock(main) && ProperBlock(inverse)
    ensures Proper(rt.invoke(f, c, args, WithBlocks(name, hash, main, inverse, data)))
  {
    assert ProperOptions(WithBlocks(name, hash, main, inverse, data));
  }

  lemma {:induction false} CallProper(rt: Runtime, cfg: Settings, sc: Scope, c: Call, main: Option<Block>, inverse: Option<Block>)
    requires PassesOn(rt) && ProperScope(sc) && ProperBlock(main) && ProperBlock(inverse)
    ensures Proper(EvalCall(rt, cfg, sc, c, main, inverse))
    decreases c
  {
    ExprsProper(rt, cfg, sc, c.params);
    HashProper(rt, cfg, sc, c.hash);
    CalleeProper(rt, cfg, sc, c.path);
    var name := if KnownHead(cfg, c.path) then c.path.parts[0] else c.path.original;
    InvokeProper(rt, Callee(rt, cfg, sc, c.path), sc.At(0), EvalExprs(rt, cfg, sc, c.params), name,
                 EvalHash(rt, cfg, sc, c.hash), main, inverse, sc.data);
  }

  // ----- statements -----

  lemma SimpleProper(rt: Runtime, sc: Scope, s: Sexpr)
    requires PassesOn(rt) && ProperScope(sc)
    ensures Proper(EvalSimple(rt, sc, s))
  {
    match s
    case DataRef(up, parts) => DataProper(rt, sc, up, parts);
    case Apply(c) => PathProper(rt, sc, c.path, false);
  }

  lemma AmbiguousProper(rt: Runtime, sc: Scope, p: Path, main: Option<Block>, inverse: Option<Block>)
    requires PassesOn(rt) && ProperScope(sc) && ProperBlock(main) && ProperBlock(inverse) && p.Simple()
    ensures Proper(EvalAmbiguous(rt, sc, p, main, inverse))
  {
    PathProper(rt, sc, p, false);
    var found := Or(rt, rt.helper(p.parts[0]), EvalPath(rt, sc, p, false));
    var h := if Nullish(found) then rt.helper("helperMissing") else found;
    InvokeProper(rt, h, sc.At(0), [], p.parts[0], Record(map[]), main, inverse, sc.data);
  }

  lemma SexprProper(rt: Runtime, cfg: Settings, sc: Scope, s: Sexpr, main: Option<Block>, inverse: Option<Block>)
    requires PassesOn(rt) && ProperScope(sc) && ProperBlock(main) && ProperBlock(inverse)
    ensures Proper(EvalSexpr(rt, cfg, sc, s, main, inverse))
  {
    match Classify(cfg, s)
    case SimpleClass => SimpleProper(rt, sc, s);
    case HelperClass => CallProper(rt, cfg, sc, s.call, main, inverse);
    case AmbiguousClass => AmbiguousProper(rt, sc, s.call.path, main, inverse);
  }

  lemma BlockProper(rt: Runtime, cfg: Settings, sc: Scope, c: Call, main: Option<Block>, inverse: Option<Block>)
    requires PassesOn(rt) && ProperScope(sc) && ProperBlock(main) && ProperBlock(inverse)
    ensures Proper(EvalBlock(rt, cfg, sc, c, main, inverse))
  {
    var v, missing := EvalSexpr(rt, cfg, sc, Apply(c), main, inverse), rt.helper("blockHelperMissing");
    SexprProper(rt, cfg, sc, Apply(c), main, inverse);
    match Classify(cfg, Apply(c))
    case HelperClass =>
    case SimpleClass => InvokeProper(rt, missing, sc.At(0), [v], c.path.original, Record(map[]), main, inverse, sc.data);
    case AmbiguousClass => InvokeProper(rt, missing, sc.At(0), [v], c.path.parts[0], Record(map[]), main, inverse, sc.data);
  }

  lemma PartialProper(rt: Runtime, cfg: Settings, sc: Scope, s: Statement)
    requires PassesOn(rt) && ProperScope(sc) && s.PartialStatement?
    ensures Proper(EvalPartial(rt, cfg, sc, s))
  {
    HashProper(rt, cfg, sc, s.hash);
    if s.context.Some? {
      ExprProper(rt, cfg, sc, s.context.value);
    }
    var context := if s.context.Some? then EvalExpr(rt, cfg, sc, s.context.value) else sc.At(0);
    var hash := if s.hash.Hash? then EvalHash(rt, cfg, sc, s.hash) else Undefined;
    assert PartialResult(rt.partial(s.name, s.indent, context, hash, sc.data));
  }

  lemma EnterProper(rt: Runtime, sc: Scope, c: Value, d: Option<Value>)
    requires ProperScope(sc) && Proper(c) && (d.Some? ==> Proper(d.value))
    ensures ProperScope(sc.Enter(rt, c, d))
  {
  }

  /** A program gives a proper value wherever its contexts and data are proper. */
  lemma {:induction false} ProgramProper(rt: Runtime, cfg: Settings, sc: Scope, p: Program)
    requires PassesOn(rt) && ProperScope(sc)
    ensures Proper(EvalProgram(rt, cfg, sc, p))
    decreases p
  {
    if |p.statements| == 1 {
      StatementProper(rt, cfg, sc, p.statements[0]);
    }
  }

  lemma {:induction false} BlockForProper(rt: Runtime, cfg: Settings, sc: Scope, p: Option<Program>)
    requires PassesOn(rt) && ProperScope(sc)
    ensures ProperBlock(BlockFor(rt, cfg, sc, p))
    decreases p
  {
    if p.Some? {
      forall c, d: Option<Value> | Proper(c) && (d.Some? ==> Proper(d.value)) ensures Proper(EvalProgram(rt, cfg, sc.Enter(rt, c, d), p.value)) {
        EnterProper(rt, sc, c, d);
        ProgramProper(rt, cfg, sc.Enter(rt, c, d), p.value);
      }
    }
  }

  lemma {:induction false} StatementProper(rt: Runtime, cfg: Settings, sc: Scope, s: Statement)
    requires PassesOn(rt) && ProperScope(sc)
    ensures var v := EvalStatement(rt, cfg, sc, s); v.Some? ==> Proper(v.value)
    decreases s
  {
    match s
    case Mustache(x, _) => SexprProper(rt, cfg, sc, x, None, None);
    case BlockStatement(c, program, inverse) =>
      BlockForProper(rt, cfg, sc, program);
      BlockForProper(rt, cfg, sc, inverse);
      BlockProper(rt, cfg, sc, c, BlockFor(rt, cfg, sc, program), BlockFor(rt, cfg, sc, inverse));
    case PartialStatement(_, _, _, _) => PartialProper(rt, cfg, sc, s);
    case _ =>
  }
}
