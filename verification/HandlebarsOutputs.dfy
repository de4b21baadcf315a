/** What compiled templates give, said of the runtime alone: neither the compiler nor the direct evaluator is named. */
module HandlebarsOutputs {
  import opened Wrappers
  import opened HandlebarsAst
  import opened HandlebarsMeaning
  import opened HandlebarsForms
  import opened HandlebarsExecution
  import opened HandlebarsOpen
  import opened HandlebarsTheorem

  /** The compiled program run where these contexts are nested, the innermost first. */
  function Give(rt: Runtime, cfg: Settings, p: Program, contexts: seq<Value>, data: Value): Value
    requires contexts != []
  {
    Activate(rt, CompiledProgram(cfg, p), contexts[0], data, Some(contexts))
  }

  lemma GiveMeans(rt: Runtime, cfg: Settings, p: Program, contexts: seq<Value>, data: Value)
    requires Extensional(rt) && WellFormed(cfg, p) && contexts != []
    ensures Give(rt, cfg, p, contexts, data) == EvalProgram(rt, cfg, Scope(contexts, data), p)
  {
    ActivationCorrect(rt, cfg, p, |contexts|);
    assert Shows(Frame(contexts[0], data, Some(contexts)), Scope(contexts, data), UseDepths(Compile(cfg, p)));
  }

  // ----- mustaches -----

  /** A mustache's value as its program gives it: escaped, or as it is, and nothing for undefined and null. */
  function Displayed(rt: Runtime, escaped: bool, v: Value): Value {
    if escaped then Text(rt.escape(v)) else if Nil(v) then Text("") else v
  }

  function One(s: Statement): Program {
    Program([s])
  }

  lemma MustacheMeans(rt: Runtime, cfg: Settings, x: Sexpr, escaped: bool, contexts: seq<Value>, data: Value, v: Value)
    requires Extensional(rt) && contexts != []
    requires v == EvalSexpr(rt, cfg, Scope(contexts, data), x, None, None)
    ensures Give(rt, cfg, One(Mustache(x, escaped)), contexts, data) == Displayed(rt, escaped && !cfg.noEscape, v)
  {
    var p := One(Mustache(x, escaped));
    assert WellFormed(cfg, p) by { assert p.statements[1..] == []; }
    GiveMeans(rt, cfg, p, contexts, data);
  }

  /** `{{@a.b}}` and `{{@../a.b}}` go up along `_parent` and then along the names; a falsy value ends either way. */
  lemma DataShown(rt: Runtime, cfg: Settings, up: nat, names: seq<string>, escaped: bool, contexts: seq<Value>, data: Value,
                  ups: seq<Value>, vs: seq<Value>)
    requires Extensional(rt) && contexts != []
    requires Walk(rt, Parents(up), ups, Falsy(rt)) && ups[0] == data
    requires Walk(rt, names, vs, Falsy(rt)) && vs[0] == Last(ups)
    ensures Give(rt, cfg, One(Mustache(DataRef(up, names), escaped)), contexts, data) ==
            Displayed(rt, escaped && !cfg.noEscape, Applied(rt, contexts[0], Last(vs)))
  {
    DataForm(rt, cfg, Scope(contexts, data), up, names, ups, vs);
    MustacheMeans(rt, cfg, DataRef(up, names), escaped, contexts, data, Applied(rt, contexts[0], Last(vs)));
  }

  /** A path of several parts, or with "..", "." or "this", is looked up without asking for a helper; undefined and null end the way. */
  lemma PathShown(rt: Runtime, cfg: Settings, c: Call, escaped: bool, contexts: seq<Value>, data: Value, vs: seq<Value>)
    requires Extensional(rt) && contexts != [] && Reads(c)
    requires Walk(rt, Names(c.path), vs, Nil) && vs[0] == AtDepth(contexts, c.path.depth)
    ensures Give(rt, cfg, One(Mustache(Apply(c), escaped)), contexts, data) ==
            Displayed(rt, escaped && !cfg.noEscape, Applied(rt, contexts[0], Last(vs)))
  {
    ReadForm(rt, cfg, Scope(contexts, data), c, vs);
    MustacheMeans(rt, cfg, Apply(c), escaped, contexts, data, Applied(rt, contexts[0], Last(vs)));
  }

  /** A single name is a helper's, else a field's, else `helperMissing` is asked; what is a function is called without parameters. */
  lemma NameShown(rt: Runtime, cfg: Settings, c: Call, escaped: bool, contexts: seq<Value>, data: Value, vs: seq<Value>)
    requires Extensional(rt) && contexts != [] && Either(cfg, c)
    requires Walk(rt, Names(c.path), vs, Nil) && vs[0] == contexts[0]
    ensures var name := c.path.parts[0];
            var h := Found(rt, name, Last(vs));
            var v := if rt.isFunction(h) then rt.invoke(h, contexts[0], [], Options(name, Record(map[]), None, None, data)) else h;
            Give(rt, cfg, One(Mustache(Apply(c), escaped)), contexts, data) == Displayed(rt, escaped && !cfg.noEscape, v)
  {
    EitherForm(rt, cfg, Scope(contexts, data), c, None, None, vs);
    MustacheMeans(rt, cfg, Apply(c), escaped, contexts, data, EvalSexpr(rt, cfg, Scope(contexts, data), Apply(c), None, None));
  }

  lemma CallShown(rt: Runtime, cfg: Settings, c: Call, escaped: bool, contexts: seq<Value>, data: Value, vs: seq<Value>)
    requires Extensional(rt) && contexts != [] && Calls(cfg, c)
    requires Walk(rt, Names(c.path), vs, Falsy(rt)) && vs[0] == AtDepth(contexts, c.path.depth)
    ensures var sc := Scope(contexts, data);
            var o := Options(CalledAs(cfg, c.path), EvalHash(rt, cfg, sc, c.hash), None, None, data);
            var v := rt.invoke(Chosen(rt, cfg, c.path, Last(vs)), contexts[0], EvalExprs(rt, cfg, sc, c.params), o);
            Give(rt, cfg, One(Mustache(Apply(c), escaped)), contexts, data) == Displayed(rt, escaped && !cfg.noEscape, v)
  {
    CallForm(rt, cfg, Scope(contexts, data), c, None, None, vs);
    MustacheMeans(rt, cfg, Apply(c), escaped, contexts, data, EvalSexpr(rt, cfg, Scope(contexts, data), Apply(c), None, None));
  }

  // ----- programs -----

  function Plain(rt: Runtime, v: Value): string {
    if v.Text? then v.text else rt.text(v)
  }

  function Concat(pieces: seq<string>): string {
    if pieces == [] then "" else pieces[0] + Concat(pieces[1..])
  }

  lemma OneGiven(rt: Runtime, cfg: Settings, s: Statement, contexts: seq<Value>, data: Value)
    requires Extensional(rt) && WellFormedStatement(cfg, s) && contexts != []
    ensures Plain(rt, Give(rt, cfg, One(s), contexts, data)) == Shown(rt, EvalStatement(rt, cfg, Scope(contexts, data), s))
  {
    assert WellFormed(cfg, One(s)) by { assert One(s).statements[1..] == []; }
    GiveMeans(rt, cfg, One(s), contexts, data);
  }

  ghost predicate GivesEach(rt: Runtime, cfg: Settings, ss: seq<Statement>, contexts: seq<Value>, data: Value, pieces: seq<string>)
    requires contexts != []
  {
    |pieces| == |ss| && forall i :: 0 <= i < |ss| ==> pieces[i] == Plain(rt, Give(rt, cfg, One(ss[i]), contexts, data))
  }

  lemma {:induction false} PiecesJoin(rt: Runtime, cfg: Settings, ss: seq<Statement>, contexts: seq<Value>, data: Value, pieces: seq<string>)
    requires Extensional(rt) && WellFormedAll(cfg, ss) && contexts != [] && GivesEach(rt, cfg, ss, contexts, data, pieces)
    ensures EvalStatements(rt, cfg, Scope(contexts, data), ss) == Concat(pieces)
    decreases |ss|
  {
    if ss != [] {
      OneGiven(rt, cfg, ss[0], contexts, data);
      PiecesJoin(rt, cfg, ss[1..], contexts, data, pieces[1..]);
    }
  }

  /** A program of none or several statements gives the texts that each gives in a program of its own, in order. */
  lemma ProgramGiven(rt: Runtime, cfg: Settings, p: Program, contexts: seq<Value>, data: Value, pieces: seq<string>)
    requires Extensional(rt) && WellFormed(cfg, p) && contexts != [] && |p.statements| != 1
    requires GivesEach(rt, cfg, p.statements, contexts, data, pieces)
    ensures Give(rt, cfg, p, contexts, data) == Text(Concat(pieces))
  {
    GiveMeans(rt, cfg, p, contexts, data);
    PiecesJoin(rt, cfg, p.statements, contexts, data, pieces);
  }

  lemma ContentGiven(rt: Runtime, cfg: Settings, text: string, contexts: seq<Value>, data: Value)
    requires Extensional(rt) && contexts != []
    ensures Give(rt, cfg, One(Content(text)), contexts, data) == Text(text)
    ensures Give(rt, cfg, One(Comment), contexts, data) == Text("")
  {
    assert WellFormed(cfg, One(Content(text))) by { assert One(Content(text)).statements[1..] == []; }
    assert WellFormed(cfg, One(Comment)) by { assert One(Comment).statements[1..] == []; }
    GiveMeans(rt, cfg, One(Content(text)), contexts, data);
    GiveMeans(rt, cfg, One(Comment), contexts, data);
  }

  /** A partial is given its context, else the innermost one, its hash, if it has one, and the data. */
  lemma PartialGiven(rt: Runtime, cfg: Settings, s: Statement, contexts: seq<Value>, data: Value)
    requires Extensional(rt) && contexts != [] && s.PartialStatement?
    ensures var sc := Scope(contexts, data);
            var context := if s.context.None? then contexts[0] else EvalExpr(rt, cfg, sc, s.context.value);
            var hash := if s.hash.NoHash? then Undefined else EvalHash(rt, cfg, sc, s.hash);
            Give(rt, cfg, One(s), contexts, data) == Displayed(rt, false, rt.partial(s.name, s.indent, context, hash, data))
  {
    assert WellFormed(cfg, One(s)) by { assert One(s).statements[1..] == []; }
    GiveMeans(rt, cfg, One(s), contexts, data);
  }

  // ----- blocks -----

  /** The options a helper is given: both blocks if there is either, the one not there giving the empty text. A block runs its
      program with the given context before the others, and in the given data frame if it is a truthy one. */
  ghost predicate Offers(o: Options, rt: Runtime, cfg: Settings, contexts: seq<Value>, data: Value, name: string, hash: Value, s: Statement)
    requires s.BlockStatement?
  {
    && o.name == name && o.hash == hash && o.data == data
    && (o.main.Some? <==> s.program.Some? || s.inverse.Some?) && (o.inverse.Some? <==> s.program.Some? || s.inverse.Some?)
    && (o.main.Some? ==> Runs(o.main.value, rt, cfg, contexts, data, s.program))
    && (o.inverse.Some? ==> Runs(o.inverse.value, rt, cfg, contexts, data, s.inverse))
  }

  ghost predicate Runs(b: Block, rt: Runtime, cfg: Settings, contexts: seq<Value>, data: Value, p: Option<Program>) {
    forall c, d :: b(c, d) == Inside(rt, cfg, contexts, data, p, c, d)
  }

  function Inside(rt: Runtime, cfg: Settings, contexts: seq<Value>, data: Value, p: Option<Program>, c: Value, d: Option<Value>): Value {
    if p.None? then Text("")
    else Give(rt, cfg, p.value, [c] + contexts, if d.Some? && rt.truthy(d.value) then d.value else data)
  }

  lemma RunsMeans(b: Block, rt: Runtime, cfg: Settings, contexts: seq<Value>, data: Value, p: Option<Program>)
    requires Extensional(rt) && contexts != [] && (p.Some? ==> WellFormed(cfg, p.value))
    requires Runs(b, rt, cfg, contexts, data, p)
    ensures SameBlock(Some(b), Some(BlockFor(rt, cfg, Scope(contexts, data), p).GetOr(Noop())))
  {
    var means := BlockFor(rt, cfg, Scope(contexts, data), p).GetOr(Noop());
    forall c, d ensures b(c, d) == means(c, d) {
      if p.Some? {
        var inner := Scope(contexts, data).Enter(rt, c, d);
        GiveMeans(rt, cfg, p.value, inner.contexts, inner.data);
      }
    }
  }

  lemma OffersMeans(o: Options, rt: Runtime, cfg: Settings, contexts: seq<Value>, data: Value, name: string, hash: Value, s: Statement)
    requires Extensional(rt) && contexts != [] && s.BlockStatement? && WellFormedStatement(cfg, s)
    requires Offers(o, rt, cfg, contexts, data, name, hash, s)
    ensures var sc := Scope(contexts, data);
            SameOptions(o, WithBlocks(name, hash, BlockFor(rt, cfg, sc, s.program), BlockFor(rt, cfg, sc, s.inverse), data))
  {
    if o.main.Some? {
      RunsMeans(o.main.value, rt, cfg, contexts, data, s.program);
      RunsMeans(o.inverse.value, rt, cfg, contexts, data, s.inverse);
    }
  }

  lemma BlockMeans(rt: Runtime, cfg: Settings, s: Statement, contexts: seq<Value>, data: Value, v: Value)
    requires Extensional(rt) && contexts != [] && s.BlockStatement? && WellFormedStatement(cfg, s)
    requires var sc := Scope(contexts, data);
             v == EvalBlock(rt, cfg, sc, s.call, BlockFor(rt, cfg, sc, s.program), BlockFor(rt, cfg, sc, s.inverse))
    ensures Give(rt, cfg, One(s), contexts, data) == Displayed(rt, false, v)
  {
    assert WellFormed(cfg, One(s)) by { assert One(s).statements[1..] == []; }
    GiveMeans(rt, cfg, One(s), contexts, data);
  }

  /** `{{#f x}}..{{else}}..{{/f}}` gives what its helper answers. */
  lemma CallBlockGiven(rt: Runtime, cfg: Settings, s: Statement, contexts: seq<Value>, data: Value, vs: seq<Value>, o: Options)
    requires Extensional(rt) && contexts != [] && s.BlockStatement? && WellFormedStatement(cfg, s) && Calls(cfg, s.call)
    requires Walk(rt, Names(s.call.path), vs, Falsy(rt)) && vs[0] == AtDepth(contexts, s.call.path.depth)
    requires Offers(o, rt, cfg, contexts, data, CalledAs(cfg, s.call.path), EvalHash(rt, cfg, Scope(contexts, data), s.call.hash), s)
    ensures var args := EvalExprs(rt, cfg, Scope(contexts, data), s.call.params);
            var v := rt.invoke(Chosen(rt, cfg, s.call.path, Last(vs)), contexts[0], args, o);
            Give(rt, cfg, One(s), contexts, data) == Displayed(rt, false, v)
  {
    var sc := Scope(contexts, data);
    var b, d := BlockFor(rt, cfg, sc, s.program), BlockFor(rt, cfg, sc, s.inverse);
    CallForm(rt, cfg, sc, s.call, b, d, vs);
    OffersMeans(o, rt, cfg, contexts, data, CalledAs(cfg, s.call.path), EvalHash(rt, cfg, sc, s.call.hash), s);
    BlockMeans(rt, cfg, s, contexts, data, EvalBlock(rt, cfg, sc, s.call, b, d));
  }

  /** `{{#a.b}}..{{/a.b}}` asks `blockHelperMissing` with what the path leads to. */
  lemma PathBlockGiven(rt: Runtime, cfg: Settings, s: Statement, contexts: seq<Value>, data: Value, vs: seq<Value>, o: Options)
    requires Extensional(rt) && contexts != [] && s.BlockStatement? && WellFormedStatement(cfg, s) && Reads(s.call)
    requires Walk(rt, Names(s.call.path), vs, Nil) && vs[0] == AtDepth(contexts, s.call.path.depth)
    requires Offers(o, rt, cfg, contexts, data, s.call.path.original, Record(map[]), s)
    ensures var v := rt.invoke(rt.helper("blockHelperMissing"), contexts[0], [Applied(rt, contexts[0], Last(vs))], o);
            Give(rt, cfg, One(s), contexts, data) == Displayed(rt, false, v)
  {
    var sc := Scope(contexts, data);
    var b, d := BlockFor(rt, cfg, sc, s.program), BlockFor(rt, cfg, sc, s.inverse);
    ReadForm(rt, cfg, sc, s.call, vs);
    OffersMeans(o, rt, cfg, contexts, data, s.call.path.original, Record(map[]), s);
    var o', missing := WithBlocks(s.call.path.original, Record(map[]), b, d, data), rt.helper("blockHelperMissing");
    InvokesAlike(rt, missing, contexts[0], [Applied(rt, contexts[0], Last(vs))], o, o');
    BlockMeans(rt, cfg, s, contexts, data, EvalBlock(rt, cfg, sc, s.call, b, d));
  }

  /** `{{#name}}..{{/name}}` is what the helper of that name answers; where there is none, `blockHelperMissing` is asked with what
      the field, or a function found there, gives. */
  lemma NameBlockGiven(rt: Runtime, cfg: Settings, s: Statement, contexts: seq<Value>, data: Value, vs: seq<Value>, o: Options)
    requires Extensional(rt) && contexts != [] && s.BlockStatement? && WellFormedStatement(cfg, s) && Either(cfg, s.call)
    requires Walk(rt, Names(s.call.path), vs, Nil) && vs[0] == contexts[0]
    requires Offers(o, rt, cfg, contexts, data, s.call.path.parts[0], Record(map[]), s)
    ensures var name := s.call.path.parts[0];
            Give(rt, cfg, One(s), contexts, data) == Displayed(rt, false, Answer(rt, name, Found(rt, name, Last(vs)), contexts[0], o))
  {
    var sc, name := Scope(contexts, data), s.call.path.parts[0];
    var b, d := BlockFor(rt, cfg, sc, s.program), BlockFor(rt, cfg, sc, s.inverse);
    NameBlockForm(rt, cfg, sc, s.call, b, d, vs);
    OffersMeans(o, rt, cfg, contexts, data, name, Record(map[]), s);
    AnswersAlike(rt, name, Found(rt, name, Last(vs)), contexts[0], o, WithBlocks(name, Record(map[]), b, d, data));
    BlockMeans(rt, cfg, s, contexts, data, EvalBlock(rt, cfg, sc, s.call, b, d));
  }

  // ----- data frames -----

  /** The function made for a child runs it with the frame it is called with if that is truthy, and with the enclosing one else. */
  lemma ClosureRuns(rt: Runtime, f: Compiled, frame: Frame, g: nat, passDepths: bool, c: Value, d: Option<Value>)
    requires g < |f.kids|
    ensures Closure(Machine(rt, KidsOf(rt, f), frame), g, passDepths)(c, d) ==
            Activate(rt, f.kids[g], c, if d.Some? && rt.truthy(d.value) then d.value else frame.data,
                     if passDepths && frame.depths.Some? then Some([c] + frame.depths.value) else None)
  {
    var data := if d.Some? && rt.truthy(d.value) then d.value else frame.data;
    var depths := if passDepths && frame.depths.Some? then Some([c] + frame.depths.value) else None;
    assert KidsOf(rt, f)[g](c, data, depths) == Activate(rt, f.kids[g], c, data, depths);
  }

  function Reader(name: string, up: nat, escaped: bool): Program {
    One(Mustache(DataRef(up, [name]), escaped))
  }

  /** The block of `{{#each xs}}{{@index}}{{/each}}` shows what the frame it is called with holds. */
  lemma FrameShown(rt: Runtime, cfg: Settings, contexts: seq<Value>, data: Value, b: Block, name: string, escaped: bool, c: Value, d: Value)
    requires Extensional(rt) && contexts != [] && rt.truthy(d)
    requires Runs(b, rt, cfg, contexts, data, Some(Reader(name, 0, escaped)))
    ensures b(c, Some(d)) == Displayed(rt, escaped && !cfg.noEscape, Applied(rt, c, rt.property(d, name)))
  {
    DataShown(rt, cfg, 0, [name], escaped, [c] + contexts, d, [d], [d, rt.property(d, name)]);
  }
}
