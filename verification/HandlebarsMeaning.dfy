/** What a template means: direct recursive evaluation over an abstract JavaScript runtime. */
module HandlebarsMeaning {
  import opened Wrappers
  import opened HandlebarsAst

  datatype Value =
    | Undefined
    | Null
    | Boolean(truth: bool)
    | Number(numeral: string)
    | Text(text: string)
    | Record(fields: map<string, Value>)
    | HostObject(id: string)   // functions are among them
    | Thrown                   // no value: the exception that reading `depths` raises where none were passed

  /** `options.fn` and `options.inverse`: applied to a context and, optionally, a data frame. */
  type Block = (Value, Option<Value>) -> Value

  datatype Options = Options(name: string, hash: Value, main: Option<Block>, inverse: Option<Block>, data: Value)

  /** Everything the generated code calls but does not define; helpers and partials stay uninterpreted. */
  datatype Runtime = Runtime(
    truthy: Value -> bool,
    isFunction: Value -> bool,
    property: (Value, string) -> Value,
    callOn: (Value, Value) -> Value,
    helper: string -> Value,
    invoke: (Value, Value, seq<Value>, Options) -> Value,
    partial: (string, string, Value, Value, Value) -> Value,
    text: Value -> string,
    escape: Value -> string)

  predicate Nullish(v: Value) {
    v.Undefined? || v.Null?
  }

  // ----- what the language and the source's own runtime fix -----

  predicate Truthy(v: Value) {
    match v
    case Boolean(b) => b
    case Text(t) => t != ""
    case Record(_) => true
    case HostObject(_) => true
    case _ => false
  }

  function Word(b: bool): string {
    if b then "true" else "false"
  }

  function EscapeChar(c: char): string {
    match c
    case '&' => "&amp;"
    case '<' => "&lt;"
    case '>' => "&gt;"
    case '\"' => "&quot;"
    case '\'' => "&#x27;"
    case '`' => "&#x60;"
    case _ => [c]
  }

  function EscapeText(s: string): string {
    if s == "" then "" else EscapeChar(s[0]) + EscapeText(s[1..])
  }

  /** `escapeExpression`: objects may be safe strings, which are left as they are. */
  predicate EscapeResult(v: Value, text: string, r: string) {
    match v
    case Boolean(b) => r == Word(b)
    case Number(_) => r == text
    case Text(t) => r == EscapeText(t)
    case Record(_) => r == EscapeText(text)
    case HostObject(_) => r == text || r == EscapeText(text)
    case _ => r == ""
  }

  /** Built without the exception. */
  predicate Proper(v: Value) {
    match v
    case Thrown => false
    case Record(fields) => forall k :: k in fields ==> Proper(fields[k])
    case _ => true
  }

  predicate ProperAll(vs: seq<Value>) {
    forall i :: 0 <= i < |vs| ==> Proper(vs[i])
  }

  /** A block that raises no exception where it is given proper values. */
  ghost predicate ProperBlock(b: Option<Block>) {
    b.Some? ==> forall c, d: Option<Value> :: Proper(c) && (d.Some? ==> Proper(d.value)) ==> Proper(b.value(c, d))
  }

  ghost predicate ProperOptions(o: Options) {
    Proper(o.hash) && Proper(o.data) && ProperBlock(o.main) && ProperBlock(o.inverse)
  }

  /** Only host objects are functions, and `invokePartial` makes a text of what it indents. */
  ghost predicate Typed(rt: Runtime) {
    && (forall v: Value :: rt.isFunction(v) ==> v.HostObject?)
    && (forall name, indent, c, h, d :: indent != "" ==> rt.partial(name, indent, c, h, d).Text?)
  }

  /** Truth is what it is in JavaScript, numbers left open; fields are found. */
  ghost predicate ReadsAsJavaScript(rt: Runtime) {
    && (forall v: Value :: !v.Number? ==> rt.truthy(v) == Truthy(v))
    && (forall v: Value, name :: v.Record? && name in v.fields ==> rt.property(v, name) == v.fields[name])
  }

  ghost predicate WritesAsJavaScript(rt: Runtime) {
    forall v: Value :: (v.Boolean? ==> rt.text(v) == Word(v.truth)) && EscapeResult(v, rt.text(v), rt.escape(v))
  }

  /** No host function raises an exception of its own. A helper may pass on that of a block it calls. */
  ghost predicate PassesOn(rt: Runtime) {
    && (forall v, name :: Proper(v) ==> Proper(rt.property(v, name)))
    && (forall f, c :: Proper(f) && Proper(c) ==> Proper(rt.callOn(f, c)))
    && (forall name :: Proper(rt.helper(name)))
    && (forall f, c, args, o :: Proper(f) && Proper(c) && ProperAll(args) && ProperOptions(o) ==> Proper(rt.invoke(f, c, args, o)))
    && (forall name, indent, c, h, d :: Proper(c) && Proper(h) && Proper(d) ==> PartialResult(rt.partial(name, indent, c, h, d)))
  }

  /** A partial gives something or fails. */
  predicate PartialResult(v: Value) {
    !Nullish(v) && Proper(v)
  }

  ghost predicate JavaScript(rt: Runtime) {
    Typed(rt) && ReadsAsJavaScript(rt) && WritesAsJavaScript(rt) && PassesOn(rt)
  }

  function ToText(rt: Runtime, v: Value): string {
    if v.Text? then v.text else rt.text(v)
  }

  function Noop(): Block {
    (c, d) => Text("")
  }

  // ----- a helper can use its blocks only by calling them -----

  ghost predicate SameBlock(a: Option<Block>, b: Option<Block>) {
    (a.Some? <==> b.Some?) && (a.Some? ==> forall c, d :: a.value(c, d) == b.value(c, d))
  }

  ghost predicate SameOptions(a: Options, b: Options) {
    a.name == b.name && a.hash == b.hash && a.data == b.data && SameBlock(a.main, b.main) && SameBlock(a.inverse, b.inverse)
  }

  ghost predicate Extensional(rt: Runtime) {
    forall f, c, args, o, o' :: SameOptions(o, o') ==> rt.invoke(f, c, args, o) == rt.invoke(f, c, args, o')
  }

  // ----- evaluation -----

  datatype Scope = Scope(contexts: seq<Value>, data: Value) {
    function At(k: nat): Value {
      if k < |contexts| then contexts[k] else Undefined
    }

    function Enter(rt: Runtime, c: Value, d: Option<Value>): Scope {
      Scope([c] + contexts, InnerData(rt, data, d))
    }
  }

  function InnerData(rt: Runtime, outer: Value, d: Option<Value>): Value {
    if d.Some? && rt.truthy(d.value) then d.value else outer
  }

  function DataUp(rt: Runtime, v: Value, n: nat): Value
    decreases n
  {
    if n == 0 || !rt.truthy(v) then v else DataUp(rt, rt.property(v, "_parent"), n - 1)
  }

  // one `!= null ?` or `&&` step of a lookup
  function FollowOne(rt: Runtime, v: Value, name: string, falsy: bool): Value {
    var stop := if falsy then !rt.truthy(v) else Nullish(v);
    if stop then v else rt.property(v, name)
  }

  function Follow(rt: Runtime, v: Value, parts: seq<string>, falsy: bool): Value
    decreases |parts|
  {
    if parts == [] then v else Follow(rt, FollowOne(rt, v, parts[0], falsy), parts[1..], falsy)
  }

  function EvalPath(rt: Runtime, sc: Scope, p: Path, falsy: bool): Value {
    if p.Named() then Follow(rt, sc.At(p.depth), p.parts, falsy) else sc.At(p.depth)
  }

  function EvalData(rt: Runtime, sc: Scope, up: nat, parts: seq<string>): Value {
    Follow(rt, DataUp(rt, sc.data, up), parts, true)
  }

  function WithBlocks(name: string, hash: Value, main: Option<Block>, inverse: Option<Block>, data: Value): Options {
    if main.None? && inverse.None? then Options(name, hash, None, None, data)
    else Options(name, hash, Some(main.GetOr(Noop())), Some(inverse.GetOr(Noop())), data)
  }

  function EvalExpr(rt: Runtime, cfg: Settings, sc: Scope, x: Expr): Value
    decreases x
  {
    match x
    case PathExpr(p) => EvalPath(rt, sc, p, false)
    case DataExpr(up, parts) => EvalData(rt, sc, up, parts)
    case StringExpr(t) => Text(t)
    case NumberExpr(n) => Number(n)
    case BooleanExpr(b) => Boolean(b)
    case SubExpr(c) => EvalCall(rt, cfg, sc, c, None, None)
  }

  function EvalExprs(rt: Runtime, cfg: Settings, sc: Scope, xs: seq<Expr>): seq<Value>
    decreases xs
  {
    if xs == [] then [] else [EvalExpr(rt, cfg, sc, xs[0])] + EvalExprs(rt, cfg, sc, xs[1..])
  }

  // of two pairs with the same key the first one wins
  function EvalPairs(rt: Runtime, cfg: Settings, sc: Scope, ps: seq<Pair>): map<string, Value>
    decreases ps
  {
    if ps == [] then map[] else EvalPairs(rt, cfg, sc, ps[1..])[ps[0].key := EvalExpr(rt, cfg, sc, ps[0].value)]
  }

  function EvalHash(rt: Runtime, cfg: Settings, sc: Scope, h: Hash): Value
    decreases h
  {
    match h
    case NoHash => Record(map[])
    case Hash(ps) => Record(EvalPairs(rt, cfg, sc, ps))
  }

  function Or(rt: Runtime, a: Value, b: Value): Value {
    if rt.truthy(a) then a else b
  }

  function Callee(rt: Runtime, cfg: Settings, sc: Scope, p: Path): Value {
    if KnownHead(cfg, p) then rt.helper(p.parts[0])
    else
      var found := EvalPath(rt, sc, p, true);
      Or(rt, if p.Simple() then Or(rt, rt.helper(p.original), found) else found, rt.helper("helperMissing"))
  }

  function EvalCall(rt: Runtime, cfg: Settings, sc: Scope, c: Call, main: Option<Block>, inverse: Option<Block>): Value
    decreases c
  {
    var name := if KnownHead(cfg, c.path) then c.path.parts[0] else c.path.original;
    rt.invoke(Callee(rt, cfg, sc, c.path), sc.At(0), EvalExprs(rt, cfg, sc, c.params),
              WithBlocks(name, EvalHash(rt, cfg, sc, c.hash), main, inverse, sc.data))
  }

  function Lambda(rt: Runtime, sc: Scope, v: Value): Value {
    if rt.isFunction(v) then rt.callOn(v, sc.At(0)) else v
  }

  function EvalSimple(rt: Runtime, sc: Scope, s: Sexpr): Value {
    match s
    case DataRef(up, parts) => Lambda(rt, sc, EvalData(rt, sc, up, parts))
    case Apply(c) => Lambda(rt, sc, EvalPath(rt, sc, c.path, false))
  }

  function EvalAmbiguous(rt: Runtime, sc: Scope, p: Path, main: Option<Block>, inverse: Option<Block>): Value
    requires p.Simple()
  {
    var found := Or(rt, rt.helper(p.parts[0]), EvalPath(rt, sc, p, false));
    var h := if Nullish(found) then rt.helper("helperMissing") else found;
    if rt.isFunction(h) then rt.invoke(h, sc.At(0), [], WithBlocks(p.parts[0], Record(map[]), main, inverse, sc.data)) else h
  }

  function EvalSexpr(rt: Runtime, cfg: Settings, sc: Scope, s: Sexpr, main: Option<Block>, inverse: Option<Block>): Value {
    match Classify(cfg, s)
    case SimpleClass => EvalSimple(rt, sc, s)
    case HelperClass => EvalCall(rt, cfg, sc, s.call, main, inverse)
    case AmbiguousClass => EvalAmbiguous(rt, sc, s.call.path, main, inverse)
  }

  function BlockMissing(rt: Runtime, sc: Scope, v: Value, o: Options): Value {
    rt.invoke(rt.helper("blockHelperMissing"), sc.At(0), [v], o)
  }

  function EvalBlock(rt: Runtime, cfg: Settings, sc: Scope, c: Call, main: Option<Block>, inverse: Option<Block>): Value {
    var v := EvalSexpr(rt, cfg, sc, Apply(c), main, inverse);
    match Classify(cfg, Apply(c))
    case HelperClass => v
    case SimpleClass => BlockMissing(rt, sc, v, WithBlocks(c.path.original, Record(map[]), main, inverse, sc.data))
    case AmbiguousClass =>
      if rt.truthy(rt.helper(c.path.parts[0])) then v
      else BlockMissing(rt, sc, v, WithBlocks(c.path.parts[0], Record(map[]), main, inverse, sc.data))
  }

  function EvalPartial(rt: Runtime, cfg: Settings, sc: Scope, s: Statement): Value
    requires s.PartialStatement?
  {
    var context := if s.context.Some? then EvalExpr(rt, cfg, sc, s.context.value) else sc.At(0);
    var hash := if s.hash.Hash? then EvalHash(rt, cfg, sc, s.hash) else Undefined;
    rt.partial(s.name, s.indent, context, hash, sc.data)
  }

  function Present(v: Value): Option<Value> {
    if Nullish(v) then None else Some(v)
  }

  /** What one statement contributes to the output; None when it contributes nothing. */
  function EvalStatement(rt: Runtime, cfg: Settings, sc: Scope, s: Statement): Option<Value>
    decreases s
  {
    match s
    case Content(t) => if t != "" then Some(Text(t)) else None
    case Comment => None
    case Mustache(x, escaped) =>
      var v := EvalSexpr(rt, cfg, sc, x, None, None);
      if escaped && !cfg.noEscape then Some(Text(rt.escape(v))) else Present(v)
    case BlockStatement(c, program, inverse) =>
      Present(EvalBlock(rt, cfg, sc, c, BlockFor(rt, cfg, sc, program), BlockFor(rt, cfg, sc, inverse)))
    case PartialStatement(_, _, _, _) => Present(EvalPartial(rt, cfg, sc, s))
  }

  function BlockFor(rt: Runtime, cfg: Settings, sc: Scope, p: Option<Program>): Option<Block>
    decreases p
  {
    if p.None? then None else Some((c, d) => EvalProgram(rt, cfg, sc.Enter(rt, c, d), p.value))
  }

  function Shown(rt: Runtime, v: Option<Value>): string {
    if v.Some? then ToText(rt, v.value) else ""
  }

  function EvalStatements(rt: Runtime, cfg: Settings, sc: Scope, ss: seq<Statement>): string
    decreases ss
  {
    if ss == [] then "" else Shown(rt, EvalStatement(rt, cfg, sc, ss[0])) + EvalStatements(rt, cfg, sc, ss[1..])
  }

  /** A one-statement program returns its value as it is; any other concatenates texts. */
  function EvalProgram(rt: Runtime, cfg: Settings, sc: Scope, p: Program): Value
    decreases p
  {
    if |p.statements| == 1 then EvalStatement(rt, cfg, sc, p.statements[0]).GetOr(Text(""))
    else Text(EvalStatements(rt, cfg, sc, p.statements))
  }
}
