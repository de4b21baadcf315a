/** Stack discipline: running the opcodes of a construct pushes exactly one entry, given by a direct translation. */
module HandlebarsStack {
  import opened Wrappers
  import opened HandlebarsAst
  import opened HandlebarsCodegen

  // ----- the direct translation, without opcodes or stacks -----

  function SelectOnce(e: Entry, name: string, and: bool): Entry {
    match e
    case Literal(l) => Inline(Select(l, l, name, and))
    case Inline(l) => Inline(Select(JSetStack(1, l), JStack(1), name, and))
  }

  function TranslateSelect(e: Entry, parts: seq<string>, and: bool): Entry
    decreases |parts|
  {
    if parts == [] then e else TranslateSelect(SelectOnce(e, parts[0], and), parts[1..], and)
  }

  function TranslatePath(p: Path, falsy: bool): Entry {
    if p.Named() then TranslateSelect(Literal(JDepth(p.depth)), p.parts, falsy) else Literal(JDepth(p.depth))
  }

  function TranslateData(up: nat, parts: seq<string>): Entry {
    TranslateSelect(Literal(JData(up)), parts, true)
  }

  function Translate(cfg: Settings, x: Expr): Entry
    decreases x
  {
    match x
    case PathExpr(p) => TranslatePath(p, false)
    case DataExpr(up, parts) => TranslateData(up, parts)
    case StringExpr(t) => Literal(JText(t))
    case NumberExpr(n) => Literal(JNumber(n))
    case BooleanExpr(b) => Literal(JBoolean(b))
    case SubExpr(c) => Inline(TranslateCall(cfg, c, JNull, JNull))
  }

  function TranslateAll(cfg: Settings, xs: seq<Expr>): (es: seq<Entry>)
    ensures |es| == |xs|
    decreases xs
  {
    if xs == [] then [] else [Translate(cfg, xs[0])] + TranslateAll(cfg, xs[1..])
  }

  function Unwrap(es: seq<Entry>): (us: seq<JExpr>)
    ensures |us| == |es|
  {
    if es == [] then [] else Unwrap(es[..|es| - 1]) + [es[|es| - 1].e]
  }

  function TranslatePairs(cfg: Settings, ps: seq<Pair>): seq<JPair>
    decreases ps
  {
    if ps == [] then [] else TranslatePairs(cfg, ps[1..]) + [JPair(ps[0].key, Translate(cfg, ps[0].value).e)]
  }

  function PairEntries(cfg: Settings, ps: seq<Pair>): seq<Entry>
    decreases ps
  {
    if ps == [] then [] else [Translate(cfg, ps[0].value)] + PairEntries(cfg, ps[1..])
  }

  function TranslateHash(cfg: Settings, h: Hash): Entry
    decreases h
  {
    match h
    case NoHash => Literal(JEmptyHash)
    case Hash(ps) => Inline(JHash(TranslatePairs(cfg, ps)))
  }

  function TranslateCall(cfg: Settings, c: Call, main: JExpr, inverse: JExpr): JExpr
    decreases c
  {
    var name := if KnownHead(cfg, c.path) then c.path.parts[0] else c.path.original;
    var found := TranslatePath(c.path, true).e;
    var callee :=
      if KnownHead(cfg, c.path) then JHelper(name)
      else JOr(if c.path.Simple() then JOr(JHelper(name), found) else found, JHelper("helperMissing"));
    JInvoke(callee, Unwrap(TranslateAll(cfg, c.params)), BlockOptions(name, TranslateHash(cfg, c.hash).e, main, inverse))
  }

  // ----- running a concatenation -----

  lemma {:induction false} RunConcat(g: Gen, a: seq<Opcode>, b: seq<Opcode>)
    ensures Run(g, a + b) == var g1 :- Run(g, a); Run(g1, b)
    decreases |a|
  {
    if a == [] {
      assert a + b == b;
    } else {
      assert (a + b)[0] == a[0] && (a + b)[1..] == a[1..] + b;
      var r := Execute(g, a[0]);
      if r.Ok? {
        RunConcat(r.value, a[1..], b);
      }
    }
  }

  lemma RunOne(g: Gen, op: Opcode)
    ensures Run(g, [op]) == Execute(g, op)
  {
    var r := Execute(g, op);
    if r.Ok? {
      assert [op][1..] == [];
      assert Run(r.value, []) == Ok(r.value);
    }
  }

  // ----- what "pushes these entries and nothing else" means -----

  /** The hash register and its stack are balanced: nothing is saved while the register is unset. */
  predicate Ready(g: Gen) {
    g.slot == 0 && (g.hash.None? ==> g.hashes == [])
  }

  ghost predicate Pushes(g: Gen, r: Result<Gen, Failure>, es: seq<Entry>) {
    r.Ok? && r.value == g.(inline := g.inline + es, lastContext := r.value.lastContext)
  }

  lemma PushesThen(g: Gen, a: seq<Opcode>, es: seq<Entry>, b: seq<Opcode>, fs: seq<Entry>)
    requires Pushes(g, Run(g, a), es)
    requires Pushes(Run(g, a).value, Run(Run(g, a).value, b), fs)
    ensures Pushes(g, Run(g, a + b), es + fs)
  {
    RunConcat(g, a, b);
    assert g.inline + es + fs == g.inline + (es + fs);
  }

  lemma {:induction false} ReplaceAllTranslates(g: Gen, base: seq<Entry>, e: Entry, parts: seq<string>, and: bool)
    requires g.slot == 0 && g.inline == base + [e]
    ensures ReplaceAll(g, parts, and) == Ok(g.(inline := base + [TranslateSelect(e, parts, and)]))
    decreases |parts|
  {
    if parts != [] {
      var e1 := SelectOnce(e, parts[0], and);
      assert g.inline[..|g.inline| - 1] == base;
      assert ReplaceStack(g, parts[0], and) == Ok(g.(inline := base + [e1]));
      ReplaceAllTranslates(g.(inline := base + [e1]), base, e1, parts[1..], and);
    }
  }

  lemma PathPushes(p: Path, falsy: bool, g: Gen)
    requires Ready(g)
    ensures Pushes(g, Run(g, IdOps(p, falsy)), [TranslatePath(p, falsy)])
  {
    var op := if p.Named() then LookupOnContext(p.parts, falsy, p.scoped) else PushContext;
    var g1 := g.(lastContext := p.depth);
    assert IdOps(p, falsy) == [GetContext(p.depth)] + [op];
    RunConcat(g, [GetContext(p.depth)], [op]);
    RunOne(g, GetContext(p.depth));
    RunOne(g1, op);
    if p.Named() {
      ReplaceAllTranslates(PushLiteral(g1, JDepth(p.depth)), g.inline, Literal(JDepth(p.depth)), p.parts, falsy);
    }
  }

  lemma DataPushes(up: nat, parts: seq<string>, g: Gen)
    requires Ready(g)
    ensures Pushes(g, Run(g, [LookupData(up, parts)]), [TranslateData(up, parts)])
  {
    RunOne(g, LookupData(up, parts));
    ReplaceAllTranslates(PushLiteral(g, JData(up)), g.inline, Literal(JData(up)), parts, true);
  }

  lemma {:induction false} ExprPushes(cfg: Settings, x: Expr, g: Gen)
    requires Ready(g)
    ensures Pushes(g, Run(g, ExprOps(cfg, x)), [Translate(cfg, x)])
    decreases x
  {
    match x
    case PathExpr(p) => PathPushes(p, false, g);
    case DataExpr(up, parts) => DataPushes(up, parts, g);
    case StringExpr(t) => RunOne(g, PushString(t));
    case NumberExpr(n) => RunOne(g, PushNumber(n));
    case BooleanExpr(b) => RunOne(g, PushBoolean(b));
    case SubExpr(c) => CallPushes(cfg, c, None, None, g);
  }

  lemma {:induction false} ParamsPush(cfg: Settings, xs: seq<Expr>, g: Gen)
    requires Ready(g)
    ensures Pushes(g, Run(g, ParamOps(cfg, xs)), TranslateAll(cfg, xs))
    decreases xs
  {
    if xs == [] {
      assert g.inline + [] == g.inline;
    } else {
      ExprPushes(cfg, xs[0], g);
      var g1 := Run(g, ExprOps(cfg, xs[0])).value;
      ParamsPush(cfg, xs[1..], g1);
      PushesThen(g, ExprOps(cfg, xs[0]), [Translate(cfg, xs[0])], ParamOps(cfg, xs[1..]), TranslateAll(cfg, xs[1..]));
    }
  }

  lemma {:induction false} PairsPush(cfg: Settings, ps: seq<Pair>, g: Gen)
    requires Ready(g)
    ensures Pushes(g, Run(g, PairOps(cfg, ps)), PairEntries(cfg, ps))
    decreases ps, 0
  {
    if ps == [] {
      assert g.inline + [] == g.inline;
    } else {
      ExprPushes(cfg, ps[0].value, g);
      var g1 := Run(g, ExprOps(cfg, ps[0].value)).value;
      PairsPush(cfg, ps[1..], g1);
      PushesThen(g, ExprOps(cfg, ps[0].value), [Translate(cfg, ps[0].value)], PairOps(cfg, ps[1..]), PairEntries(cfg, ps[1..]));
    }
  }

  /** The reverse run of `assignToHash` takes every pushed value off the stack again. */
  lemma {:induction false} AssignsPop(cfg: Settings, ps: seq<Pair>, base: seq<Entry>, done: seq<JPair>, g: Gen)
    requires g.inline == base + PairEntries(cfg, ps) && g.hash == Some(done)
    ensures Run(g, AssignOps(ps)) == Ok(g.(inline := base, hash := Some(done + TranslatePairs(cfg, ps))))
    decreases |ps|
  {
    if ps == [] {
      assert done + [] == done && base + [] == base;
    } else {
      var e0 := Translate(cfg, ps[0].value);
      assert g.inline == (base + [e0]) + PairEntries(cfg, ps[1..]);
      AssignsPop(cfg, ps[1..], base + [e0], done, g);
      var done1 := done + TranslatePairs(cfg, ps[1..]);
      var g1 := g.(inline := base + [e0], hash := Some(done1));
      RunConcat(g, AssignOps(ps[1..]), [AssignToHash(ps[0].key)]);
      RunOne(g1, AssignToHash(ps[0].key));
      assert (base + [e0])[..|base|] == base;
      assert done1 + [JPair(ps[0].key, e0.e)] == done + TranslatePairs(cfg, ps);
    }
  }

  lemma {:induction false} HashPushes(cfg: Settings, ps: seq<Pair>, g: Gen)
    requires Ready(g)
    ensures Pushes(g, Run(g, HashOps(cfg, ps)), [Inline(JHash(TranslatePairs(cfg, ps)))])
    decreases ps, 1
  {
    var g1 := Execute(g, PushHash).value;
    RunOne(g, PushHash);
    PairsPush(cfg, ps, g1);
    var g2 := Run(g1, PairOps(cfg, ps)).value;
    AssignsPop(cfg, ps, g.inline, [], g2);
    var g3 := g2.(inline := g.inline, hash := Some(TranslatePairs(cfg, ps)));
    assert [] + TranslatePairs(cfg, ps) == TranslatePairs(cfg, ps);
    RunOne(g3, PopHash);
    if g.hash.Some? {
      assert g3.hashes[..|g3.hashes| - 1] == g.hashes;
    }
    RunConcat(g, [PushHash], PairOps(cfg, ps));
    RunConcat(g, [PushHash] + PairOps(cfg, ps), AssignOps(ps));
    RunConcat(g, [PushHash] + PairOps(cfg, ps) + AssignOps(ps), [PopHash]);
  }

  lemma {:induction false} OptionalHashPushes(cfg: Settings, h: Hash, g: Gen)
    requires Ready(g)
    ensures Pushes(g, Run(g, OptionalHashOps(cfg, h)), [TranslateHash(cfg, h)])
    decreases h
  {
    match h
    case NoHash => RunOne(g, EmptyHash);
    case Hash(ps) => HashPushes(cfg, ps, g);
  }

  lemma ProgramsPush(main: Option<nat>, inverse: Option<nat>, g: Gen)
    ensures Pushes(g, Run(g, [PushProgram(main), PushProgram(inverse)]),
                   [Literal(ProgramEntry(g, main)), Literal(ProgramEntry(g, inverse))])
  {
    RunOne(g, PushProgram(main));
    var g1 := PushLiteral(g, ProgramEntry(g, main));
    RunOne(g1, PushProgram(inverse));
    assert [PushProgram(main), PushProgram(inverse)] == [PushProgram(main)] + [PushProgram(inverse)];
    RunConcat(g, [PushProgram(main)], [PushProgram(inverse)]);
    assert PushLiteral(g1, ProgramEntry(g, inverse)).inline ==
           g.inline + [Literal(ProgramEntry(g, main)), Literal(ProgramEntry(g, inverse))];
  }

  lemma SetupOptionsPops(g: Gen, base: seq<Entry>, main: Entry, inverse: Entry, hash: Entry, name: string)
    requires g.inline == base + [main, inverse, hash]
    ensures SetupOptions(g, name) == Ok((BlockOptions(name, hash.e, main.e, inverse.e), g.(inline := base)))
  {
    assert g.inline[..|g.inline| - 1] == base + [main, inverse];
    assert (base + [main, inverse])[..|base| + 1] == base + [main];
    assert (base + [main])[..|base|] == base;
  }

  lemma {:induction false} PopParamsPops(g: Gen, base: seq<Entry>, es: seq<Entry>)
    requires g.inline == base + es
    ensures PopParams(g, |es|) == Ok((Unwrap(es), g.(inline := base)))
    decreases |es|
  {
    if es == [] {
      assert base + [] == base;
    } else {
      var before := es[..|es| - 1];
      assert g.inline[..|g.inline| - 1] == base + before;
      assert g.inline != [] && g.inline[|g.inline| - 1] == es[|es| - 1];
      PopParamsPops(g.(inline := base + before), base, before);
    }
  }

  function CallTail(cfg: Settings, c: Call): seq<Opcode> {
    if KnownHead(cfg, c.path) then [InvokeKnownHelper(|c.params|, c.path.parts[0])]
    else IdOps(c.path, true) + [InvokeHelper(|c.params|, c.path.original, c.path.Simple())]
  }

  lemma KnownInvokes(g: Gen, base: seq<Entry>, es: seq<Entry>, main: Entry, inverse: Entry, hash: Entry, name: string)
    requires g.inline == base + es + [main, inverse, hash]
    ensures DoInvokeKnownHelper(g, |es|, name) ==
            Ok(g.(inline := base + [Inline(JInvoke(JHelper(name), Unwrap(es), BlockOptions(name, hash.e, main.e, inverse.e)))]))
  {
    SetupOptionsPops(g, base + es, main, inverse, hash, name);
    PopParamsPops(g.(inline := base + es), base, es);
  }

  lemma UnknownInvokes(g: Gen, base: seq<Entry>, es: seq<Entry>, main: Entry, inverse: Entry, hash: Entry, found: Entry,
                       name: string, simple: bool)
    requires g.inline == base + es + [main, inverse, hash] + [found]
    ensures var callee := JOr(if simple then JOr(JHelper(name), found.e) else found.e, JHelper("helperMissing"));
            DoInvokeHelper(g, |es|, name, simple) ==
            Ok(g.(inline := base + [Inline(JInvoke(callee, Unwrap(es), BlockOptions(name, hash.e, main.e, inverse.e)))]))
  {
    var g1 := g.(inline := base + es + [main, inverse, hash]);
    assert g.inline[..|g.inline| - 1] == g1.inline;
    assert Pop(g) == Ok((found.e, g1));
    SetupOptionsPops(g1, base + es, main, inverse, hash, name);
    PopParamsPops(g1.(inline := base + es), base, es);
  }

  lemma HelperOnto(g: Gen, g1: Gen, base: seq<Entry>, es: seq<Entry>, main: Entry, inverse: Entry, hash: Entry, found: Entry,
                   name: string, simple: bool)
    requires g.inline == base + es + [main, inverse, hash]
    requires g1 == g.(inline := g.inline + [found], lastContext := g1.lastContext)
    ensures var callee := JOr(if simple then JOr(JHelper(name), found.e) else found.e, JHelper("helperMissing"));
            var e := JInvoke(callee, Unwrap(es), BlockOptions(name, hash.e, main.e, inverse.e));
            Execute(g1, InvokeHelper(|es|, name, simple)) == Ok(g.(inline := base + [Inline(e)], lastContext := g1.lastContext))
  {
    var callee := JOr(if simple then JOr(JHelper(name), found.e) else found.e, JHelper("helperMissing"));
    var inline := base + [Inline(JInvoke(callee, Unwrap(es), BlockOptions(name, hash.e, main.e, inverse.e)))];
    UnknownInvokes(g1, base, es, main, inverse, hash, found, name, simple);
    ExecuteHelper(g1, |es|, name, simple, inline);
    Onto(g, g1, g.inline + [found], inline);
  }

  lemma ExecuteHelper(g: Gen, count: nat, name: string, simple: bool, inline: seq<Entry>)
    requires DoInvokeHelper(g, count, name, simple) == Ok(g.(inline := inline))
    ensures Execute(g, InvokeHelper(count, name, simple)) == Ok(g.(inline := inline))
  {
  }

  lemma Onto(g: Gen, g1: Gen, before: seq<Entry>, after: seq<Entry>)
    requires g1 == g.(inline := before, lastContext := g1.lastContext)
    ensures g1.(inline := after) == g.(inline := after, lastContext := g1.lastContext)
  {
  }

  lemma UnknownTailInvokes(p: Path, base: seq<Entry>, es: seq<Entry>, main: Entry, inverse: Entry, hash: Entry, g: Gen)
    requires Ready(g)
    requires g.inline == base + es + [main, inverse, hash]
    ensures var found := TranslatePath(p, true).e;
            var callee := JOr(if p.Simple() then JOr(JHelper(p.original), found) else found, JHelper("helperMissing"));
            var e := JInvoke(callee, Unwrap(es), BlockOptions(p.original, hash.e, main.e, inverse.e));
            var r := Run(g, IdOps(p, true) + [InvokeHelper(|es|, p.original, p.Simple())]);
            r.Ok? && r.value == g.(inline := base + [Inline(e)], lastContext := r.value.lastContext)
  {
    PathPushes(p, true, g);
    var g1 := Run(g, IdOps(p, true)).value;
    var op := InvokeHelper(|es|, p.original, p.Simple());
    RunConcat(g, IdOps(p, true), [op]);
    RunOne(g1, op);
    HelperOnto(g, g1, base, es, main, inverse, hash, TranslatePath(p, true), p.original, p.Simple());
  }

  lemma CallTailInvokes(cfg: Settings, c: Call, base: seq<Entry>, main: JExpr, inverse: JExpr, g: Gen)
    requires Ready(g)
    requires g.inline == base + TranslateAll(cfg, c.params) + [Literal(main), Literal(inverse), TranslateHash(cfg, c.hash)]
    ensures var r := Run(g, CallTail(cfg, c));
            r.Ok? && r.value == g.(inline := base + [Inline(TranslateCall(cfg, c, main, inverse))], lastContext := r.value.lastContext)
  {
    var es := TranslateAll(cfg, c.params);
    var hash := TranslateHash(cfg, c.hash);
    if KnownHead(cfg, c.path) {
      RunOne(g, InvokeKnownHelper(|c.params|, c.path.parts[0]));
      KnownInvokes(g, base, es, Literal(main), Literal(inverse), hash, c.path.parts[0]);
    } else {
      UnknownTailInvokes(c.path, base, es, Literal(main), Literal(inverse), hash, g);
    }
  }

  lemma {:induction false} CallPushes(cfg: Settings, c: Call, main: Option<nat>, inverse: Option<nat>, g: Gen)
    requires Ready(g)
    ensures Pushes(g, Run(g, CallOps(cfg, c, main, inverse)),
                   [Inline(TranslateCall(cfg, c, ProgramEntry(g, main), ProgramEntry(g, inverse)))])
    decreases c
  {
    var params := ParamOps(cfg, c.params);
    var programs := [PushProgram(main), PushProgram(inverse)];
    var blocks := [Literal(ProgramEntry(g, main)), Literal(ProgramEntry(g, inverse))];
    ParamsPush(cfg, c.params, g);
    ProgramsPush(main, inverse, Run(g, params).value);
    PushesThen(g, params, TranslateAll(cfg, c.params), programs, blocks);
    var g2 := Run(g, params + programs).value;
    OptionalHashPushes(cfg, c.hash, g2);
    PushesThen(g, params + programs, TranslateAll(cfg, c.params) + blocks, OptionalHashOps(cfg, c.hash), [TranslateHash(cfg, c.hash)]);
    var front := params + programs + OptionalHashOps(cfg, c.hash);
    var g3 := Run(g, front).value;
    assert g3.inline == g.inline + TranslateAll(cfg, c.params) + (blocks + [TranslateHash(cfg, c.hash)]);
    CallTailInvokes(cfg, c, g.inline, ProgramEntry(g, main), ProgramEntry(g, inverse), g3);
    RunConcat(g, front, CallTail(cfg, c));
    assert CallOps(cfg, c, main, inverse) == front + CallTail(cfg, c);
  }
}
