/** Environments, compiled functions, and how the emitted code runs. */
module HandlebarsExecution {
  import opened Wrappers
  import opened HandlebarsAst
  import opened HandlebarsMeaning
  import opened HandlebarsCodegen

  // ----- the result of Compiler.compile -----

  /** `depths` holds every nonzero context depth the program reads, its children's less one. */
  datatype Environment = Environment(opcodes: seq<Opcode>, children: seq<Environment>, depths: set<nat>, isSimple: bool)

  function PathDepths(p: Path): set<nat> {
    if p.depth == 0 then {} else {p.depth}
  }

  function ExprDepths(cfg: Settings, x: Expr): set<nat>
    decreases x
  {
    match x
    case PathExpr(p) => PathDepths(p)
    case SubExpr(c) => CallDepths(cfg, c)
    case _ => {}
  }

  function ExprsDepths(cfg: Settings, xs: seq<Expr>): set<nat>
    decreases xs
  {
    if xs == [] then {} else ExprDepths(cfg, xs[0]) + ExprsDepths(cfg, xs[1..])
  }

  function PairsDepths(cfg: Settings, ps: seq<Pair>): set<nat>
    decreases ps
  {
    if ps == [] then {} else ExprDepths(cfg, ps[0].value) + PairsDepths(cfg, ps[1..])
  }

  function HashDepths(cfg: Settings, h: Hash): set<nat>
    decreases h
  {
    match h
    case NoHash => {}
    case Hash(ps) => PairsDepths(cfg, ps)
  }

  // a known helper's path is never looked up, so its depth is not recorded
  function CallDepths(cfg: Settings, c: Call): set<nat>
    decreases c
  {
    ExprsDepths(cfg, c.params) + HashDepths(cfg, c.hash) + if KnownHead(cfg, c.path) then {} else PathDepths(c.path)
  }

  function SexprDepths(cfg: Settings, s: Sexpr): set<nat> {
    match Classify(cfg, s)
    case SimpleClass => if s.Apply? then PathDepths(s.call.path) else {}
    case HelperClass => CallDepths(cfg, s.call)
    case AmbiguousClass => {}
  }

  function Outer(ds: set<nat>): set<nat> {
    set d | d in ds && d >= 2 :: d - 1
  }

  /** The depths a statement reads itself, outside the programs it holds. */
  function OwnDepths(cfg: Settings, s: Statement): set<nat> {
    match s
    case Mustache(x, _) => SexprDepths(cfg, x)
    case BlockStatement(c, _, _) => SexprDepths(cfg, Apply(c))
    case PartialStatement(_, context, hash, _) =>
      HashDepths(cfg, hash) + if context.Some? then ExprDepths(cfg, context.value) else {}
    case _ => {}
  }

  /** Some statement reads an outer context itself. */
  predicate ReadsOuter(cfg: Settings, ss: seq<Statement>) {
    ss != [] && (OwnDepths(cfg, ss[0]) != {} || ReadsOuter(cfg, ss[1..]))
  }

  function StatementDepths(cfg: Settings, s: Statement): set<nat>
    decreases s
  {
    match s
    case Mustache(x, _) => SexprDepths(cfg, x)
    case BlockStatement(c, program, inverse) =>
      SexprDepths(cfg, Apply(c)) +
      (if program.Some? then Outer(Compile(cfg, program.value).depths) else {}) +
      (if inverse.Some? then Outer(Compile(cfg, inverse.value).depths) else {})
    case PartialStatement(_, context, hash, _) =>
      HashDepths(cfg, hash) + if context.Some? then ExprDepths(cfg, context.value) else {}
    case _ => {}
  }

  function StatementsDepths(cfg: Settings, ss: seq<Statement>): set<nat>
    decreases ss
  {
    if ss == [] then {} else StatementDepths(cfg, ss[0]) + StatementsDepths(cfg, ss[1..])
  }

  function ChildEnvironments(cfg: Settings, ss: seq<Statement>): seq<Environment>
    decreases ss
  {
    if ss == [] then []
    else StatementEnvironments(cfg, ss[0]) + ChildEnvironments(cfg, ss[1..])
  }

  function StatementEnvironments(cfg: Settings, s: Statement): seq<Environment>
    decreases s
  {
    if !s.BlockStatement? then []
    else
      (if s.program.Some? then [Compile(cfg, s.program.value)] else []) +
      (if s.inverse.Some? then [Compile(cfg, s.inverse.value)] else [])
  }

  function Compile(cfg: Settings, p: Program): Environment
    decreases p
  {
    Environment(StatementsOps(cfg, p.statements, 0), ChildEnvironments(cfg, p.statements),
                StatementsDepths(cfg, p.statements), |p.statements| == 1)
  }

  predicate UseDepths(env: Environment) {
    env.depths != {} || exists i :: 0 <= i < |env.children| && UseDepths(env.children[i])
  }

  // ----- the result of JavaScriptCompiler.compile -----

  datatype Compiled = Compiled(code: seq<Stmt>, kids: seq<Compiled>, isSimple: bool)

  /** Children first, then the opcode loop; the first failure wins. */
  function Build(env: Environment): Result<Compiled, Failure>
    decreases env
  {
    var kids :- BuildAll(env.children);
    var code :- Generate(UseDepths(env), env.opcodes);
    Ok(Compiled(code, kids, env.isSimple))
  }

  function BuildAll(envs: seq<Environment>): Result<seq<Compiled>, Failure>
    decreases envs
  {
    if envs == [] then Ok([])
    else
      var first :- Build(envs[0]);
      var rest :- BuildAll(envs[1..]);
      Ok([first] + rest)
  }

  // ----- running the emitted code -----

  datatype Frame = Frame(context: Value, data: Value, depths: Option<seq<Value>>)

  /** The variables of one activation: stack slots and the two registers; `thrown` is set when an exception ends it. */
  datatype State = State(stack: map<nat, Value>, helper: Value, options: Options, thrown: bool)

  /** A compiled child, called with a context, a data frame and perhaps `depths`. */
  type Kid = (Value, Value, Option<seq<Value>>) -> Value

  datatype Machine = Machine(rt: Runtime, kids: seq<Kid>, frame: Frame)

  function Context(m: Machine, level: nat): Value {
    if level == 0 then m.frame.context
    else if m.frame.depths.Some? && level < |m.frame.depths.value| then m.frame.depths.value[level]
    else Undefined
  }

  /** Reading `depths[level]` where none were passed is a type error. */
  predicate Unreadable(m: Machine, level: nat) {
    level > 0 && m.frame.depths.None?
  }

  /** The closure made by `this.program(guid, data[, depths])`. */
  function Closure(m: Machine, guid: nat, passDepths: bool): Block {
    if guid < |m.kids| then
      (c, d) => m.kids[guid](c, InnerData(m.rt, m.frame.data, d),
                             if passDepths && m.frame.depths.Some? then Some([c] + m.frame.depths.value) else None)
    else Noop()
  }

  function BlockValueOf(m: Machine, e: JExpr): Option<Block> {
    match e
    case JProgram(guid, passDepths) => Some(Closure(m, guid, passDepths))
    case JNoop => Some(Noop())
    case _ => None
  }

  function Eval(m: Machine, e: JExpr, st: State): (Value, State)
    decreases e
  {
    match e
    case JUndefined => (Undefined, st)
    case JNull => (Null, st)
    case JText(t) => (Text(t), st)
    case JNumber(n) => (Number(n), st)
    case JBoolean(b) => (Boolean(b), st)
    case JEmptyHash => (Record(map[]), st)
    case JNoop => (Undefined, st)
    case JProgram(_, _) => (Undefined, st)
    case JDepth(k) => (Context(m, k), st.(thrown := st.thrown || Unreadable(m, k)))
    case JData(up) => (DataUp(m.rt, m.frame.data, up), st)
    case JStack(k) => (if k in st.stack then st.stack[k] else Undefined, st)
    case JSetStack(k, x) =>
      var (v, s1) := Eval(m, x, st);
      (v, s1.(stack := s1.stack[k := v]))
    case JNullSafe(test, target, name) =>
      var (t, s1) := Eval(m, test, st);
      var (o, s2) := Eval(m, target, s1);
      if Nullish(t) then (o, s2) else (m.rt.property(o, name), s2)
    case JAnd(test, target, name) =>
      var (t, s1) := Eval(m, test, st);
      var (o, s2) := Eval(m, target, s1);
      if m.rt.truthy(t) then (m.rt.property(o, name), s2) else (t, s1)
    case JLambda(x) =>
      var (v, s1) := Eval(m, x, st);
      (if m.rt.isFunction(v) then m.rt.callOn(v, m.frame.context) else v, s1)
    case JHash(pairs) =>
      var (fields, s1) := EvalFields(m, pairs, map[], st);
      (Record(fields), s1)
    case JHelper(name) => (m.rt.helper(name), st)
    case JOr(a, b) =>
      var (v, s1) := Eval(m, a, st);
      if m.rt.truthy(v) then (v, s1) else Eval(m, b, s1)
    case JInvoke(callee, args, options) =>
      var (f, s1) := Eval(m, callee, st);
      var (vs, s2) := EvalArgs(m, args, s1);
      var (o, s3) := EvalOptions(m, options, s2);
      (m.rt.invoke(f, m.frame.context, vs, o), s3)
    case JAmbiguous(name, lookup, options, register) =>
      var (found, s1) := if m.rt.truthy(m.rt.helper(name)) then (m.rt.helper(name), st) else Eval(m, lookup, st);
      var s2 := s1.(helper := if Nullish(found) then m.rt.helper("helperMissing") else found);
      if register then
        var (o, s3) := EvalOptions(m, options, s2);
        var s4 := s3.(options := o);
        (if m.rt.isFunction(s4.helper) then m.rt.invoke(s4.helper, m.frame.context, [], s4.options) else s4.helper, s4)
      else if m.rt.isFunction(s2.helper) then
        var (o, s3) := EvalOptions(m, options, s2);
        (m.rt.invoke(s2.helper, m.frame.context, [], o), s3)
      else (s2.helper, s2)
    case JBlockMissing(x, options) =>
      var (v, s1) := Eval(m, x, st);
      var (o, s2) := EvalOptions(m, options, s1);
      (m.rt.invoke(m.rt.helper("blockHelperMissing"), m.frame.context, [v], o), s2)
    case JPartial(name, indent, context, hash) =>
      var (c, s1) := Eval(m, context, st);
      var (h, s2) := Eval(m, hash, s1);
      (m.rt.partial(name, indent, c, h, m.frame.data), s2)
    case JEscape(x) =>
      var (v, s1) := Eval(m, x, st);
      (Text(m.rt.escape(v)), s1)
  }

  function EvalFields(m: Machine, pairs: seq<JPair>, fields: map<string, Value>, st: State): (map<string, Value>, State)
    decreases pairs
  {
    if pairs == [] then (fields, st)
    else
      var last := pairs[|pairs| - 1];
      var (before, s1) := EvalFields(m, pairs[..|pairs| - 1], fields, st);
      var (v, s2) := Eval(m, last.value, s1);
      (before[last.key := v], s2)
  }

  function EvalArgs(m: Machine, es: seq<JExpr>, st: State): (seq<Value>, State)
    decreases es
  {
    if es == [] then ([], st)
    else
      var (before, s1) := EvalArgs(m, es[..|es| - 1], st);
      var (v, s2) := Eval(m, es[|es| - 1], s1);
      (before + [v], s2)
  }

  function EvalOptions(m: Machine, o: JOptions, st: State): (Options, State)
    decreases o
  {
    match o
    case JOptions(name, hash, main, inverse) =>
      var (h, s1) := Eval(m, hash, st);
      (Options(name, h, BlockValueOf(m, main), BlockValueOf(m, inverse), m.frame.data), s1)
    case JOptionsRegister => (st.options, st)
  }

  /** `done` is set once a simple program has returned. */
  datatype Output = Output(text: string, state: State, done: Option<Value>)

  function Emit(m: Machine, isSimple: bool, e: JExpr, out: Output): Output {
    var (v, s1) := Eval(m, e, out.state);
    if isSimple then out.(state := s1, done := Some(v)) else out.(state := s1, text := out.text + ToText(m.rt, v))
  }

  function Perform(m: Machine, isSimple: bool, s: Stmt, out: Output): Output {
    match s
    case SetStack(k, e) =>
      var (v, s1) := Eval(m, e, out.state);
      out.(state := s1.(stack := s1.stack[k := v]))
    case AppendText(e) => Emit(m, isSimple, e, out)
    case IfPresent(test, e) =>
      var (v, s1) := Eval(m, test, out.state);
      var out1 := out.(state := s1);
      if !Nullish(v) then Emit(m, isSimple, e, out1)
      else if isSimple then out1.(done := Some(Text("")))
      else out1
    case UnlessHelper(name, k, e) =>
      if m.rt.truthy(m.rt.helper(name)) then out
      else
        var (v, s1) := Eval(m, e, out.state);
        out.(state := s1.(stack := s1.stack[k := v]))
  }

  function PerformAll(m: Machine, isSimple: bool, code: seq<Stmt>, out: Output): Output
    decreases |code|
  {
    if code == [] || out.done.Some? then out
    else PerformAll(m, isSimple, code[1..], Perform(m, isSimple, code[0], out))
  }

  function Start(rt: Runtime): Output {
    Output("", State(map[], Undefined, Options("", Undefined, None, None, Undefined), false), None)
  }

  function Activate(rt: Runtime, f: Compiled, context: Value, data: Value, depths: Option<seq<Value>>): Value
    decreases f, 1
  {
    var m := Machine(rt, KidsOf(rt, f), Frame(context, data, depths));
    var out := PerformAll(m, f.isSimple, f.code, Start(rt));
    Outcome(out)
  }

  function Outcome(out: Output): Value {
    if out.state.thrown then Thrown else out.done.GetOr(Text(out.text))
  }

  function KidsOf(rt: Runtime, f: Compiled): seq<Kid>
    decreases f, 0
  {
    seq(|f.kids|, i requires 0 <= i < |f.kids| => (c, d, ds) => Activate(rt, f.kids[i], c, d, ds))
  }

  /** `template(context)`: the top-level call; `depths` is passed only when the program uses it. */
  function Render(rt: Runtime, f: Compiled, useDepths: bool, context: Value, data: Value): Value {
    Activate(rt, f, context, data, if useDepths then Some([context]) else None)
  }
}
