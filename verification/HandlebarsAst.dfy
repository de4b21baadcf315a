/** The template syntax tree, the compiler that walks it and emits opcodes, and its environments. */
module HandlebarsAst {
  import opened Wrappers

  /** A path such as `../a.b`: `depth` counts the leading "..", `scoped` records "." or "this". */
  datatype Path = Path(parts: seq<string>, depth: nat, scoped: bool, original: string) {
    predicate Simple() {
      |parts| == 1 && depth == 0 && !scoped
    }

    // `parts[0]` is truthy: present and not the empty string
    predicate Named() {
      parts != [] && parts[0] != ""
    }
  }

  datatype Expr =
    | PathExpr(path: Path)
    | DataExpr(up: nat, parts: seq<string>)
    | StringExpr(text: string)
    | NumberExpr(numeral: string)
    | BooleanExpr(truth: bool)
    | SubExpr(call: Call)

  datatype Pair = Pair(key: string, value: Expr)

  datatype Hash = NoHash | Hash(pairs: seq<Pair>)

  datatype Call = Call(path: Path, params: seq<Expr>, hash: Hash)

  datatype Sexpr = DataRef(up: nat, parts: seq<string>) | Apply(call: Call)

  datatype Statement =
    | Content(text: string)
    | Comment
    | Mustache(sexpr: Sexpr, escaped: bool)
    | BlockStatement(call: Call, program: Option<Program>, inverse: Option<Program>)
    | PartialStatement(name: string, context: Option<Expr>, hash: Hash, indent: string)

  datatype Program = Program(statements: seq<Statement>)

  /** `known` holds the names for which `options.knownHelpers[name]` is truthy. */
  datatype Settings = Settings(known: set<string>, noEscape: bool)

  datatype Class = SimpleClass | HelperClass | AmbiguousClass

  function Classify(cfg: Settings, s: Sexpr): Class {
    match s
    case DataRef(_, _) => SimpleClass
    case Apply(c) =>
      if c.params != [] || c.hash.Hash? then HelperClass
      else if !c.path.Simple() then SimpleClass
      else if c.path.parts[0] in cfg.known then HelperClass
      else AmbiguousClass
  }

  predicate KnownHead(cfg: Settings, p: Path) {
    p.parts != [] && p.parts[0] in cfg.known
  }

  // ----- opcodes -----

  // `scoped` is read in compat mode only, but two opcodes that differ in it are not equal
  datatype Opcode =
    | AppendContent(text: string)
    | Append
    | AppendEscaped
    | GetContext(depth: nat)
    | PushContext
    | LookupOnContext(parts: seq<string>, falsy: bool, scoped: bool)
    | LookupData(up: nat, parts: seq<string>)
    | ResolvePossibleLambda
    | EmptyHash
    | PushHash
    | PopHash
    | AssignToHash(key: string)
    | PushString(text: string)
    | PushNumber(numeral: string)
    | PushBoolean(truth: bool)
    | PushUndefined
    | PushProgram(guid: Option<nat>)
    | InvokeHelper(count: nat, name: string, simple: bool)
    | InvokeKnownHelper(count: nat, name: string)
    | InvokeAmbiguous(name: string, helperCall: bool)
    | BlockValue(name: string)
    | AmbiguousBlockValue
    | InvokePartial(name: string, indent: string)

  function IdOps(p: Path, falsy: bool): seq<Opcode> {
    [GetContext(p.depth), if p.Named() then LookupOnContext(p.parts, falsy, p.scoped) else PushContext]
  }

  function ExprOps(cfg: Settings, x: Expr): seq<Opcode>
    decreases x
  {
    match x
    case PathExpr(p) => IdOps(p, false)
    case DataExpr(up, parts) => [LookupData(up, parts)]
    case StringExpr(t) => [PushString(t)]
    case NumberExpr(n) => [PushNumber(n)]
    case BooleanExpr(b) => [PushBoolean(b)]
    case SubExpr(c) => CallOps(cfg, c, None, None)
  }

  function ParamOps(cfg: Settings, xs: seq<Expr>): seq<Opcode>
    decreases xs
  {
    if xs == [] then [] else ExprOps(cfg, xs[0]) + ParamOps(cfg, xs[1..])
  }

  function PairOps(cfg: Settings, ps: seq<Pair>): seq<Opcode>
    decreases ps, 0
  {
    if ps == [] then [] else ExprOps(cfg, ps[0].value) + PairOps(cfg, ps[1..])
  }

  // the keys are assigned from the last pair back to the first
  function AssignOps(ps: seq<Pair>): seq<Opcode> {
    if ps == [] then [] else AssignOps(ps[1..]) + [AssignToHash(ps[0].key)]
  }

  function HashOps(cfg: Settings, ps: seq<Pair>): seq<Opcode>
    decreases ps, 1
  {
    [PushHash] + PairOps(cfg, ps) + AssignOps(ps) + [PopHash]
  }

  function OptionalHashOps(cfg: Settings, h: Hash): seq<Opcode>
    decreases h
  {
    match h
    case NoHash => [EmptyHash]
    case Hash(ps) => HashOps(cfg, ps)
  }

  function CallOps(cfg: Settings, c: Call, main: Option<nat>, inverse: Option<nat>): seq<Opcode>
    decreases c
  {
    ParamOps(cfg, c.params) + [PushProgram(main), PushProgram(inverse)] + OptionalHashOps(cfg, c.hash) +
    if KnownHead(cfg, c.path) then [InvokeKnownHelper(|c.params|, c.path.parts[0])]
    else IdOps(c.path, true) + [InvokeHelper(|c.params|, c.path.original, c.path.Simple())]
  }

  function SimpleOps(s: Sexpr): seq<Opcode> {
    match s
    case DataRef(up, parts) => [LookupData(up, parts), ResolvePossibleLambda]
    case Apply(c) => IdOps(c.path, false) + [ResolvePossibleLambda]
  }

  function AmbiguousOps(c: Call, main: Option<nat>, inverse: Option<nat>): seq<Opcode>
    requires c.path.Simple()
  {
    [GetContext(c.path.depth), PushProgram(main), PushProgram(inverse)] + IdOps(c.path, false) +
    [InvokeAmbiguous(c.path.parts[0], main.Some? || inverse.Some?)]
  }

  function SexprOps(cfg: Settings, s: Sexpr, main: Option<nat>, inverse: Option<nat>): seq<Opcode> {
    match Classify(cfg, s)
    case SimpleClass => SimpleOps(s)
    case HelperClass => CallOps(cfg, s.call, main, inverse)
    case AmbiguousClass => AmbiguousOps(s.call, main, inverse)
  }

  function BlockTailOps(cfg: Settings, c: Call, main: Option<nat>, inverse: Option<nat>): seq<Opcode> {
    match Classify(cfg, Apply(c))
    case HelperClass => []
    case SimpleClass => [PushProgram(main), PushProgram(inverse), EmptyHash, BlockValue(c.path.original)]
    case AmbiguousClass => [PushProgram(main), PushProgram(inverse), EmptyHash, AmbiguousBlockValue]
  }

  // guids of the two programs of a block when `next` is the next free one
  function MainGuid(s: Statement, next: nat): Option<nat>
    requires s.BlockStatement?
  {
    if s.program.Some? then Some(next) else None
  }

  function InverseGuid(s: Statement, next: nat): Option<nat>
    requires s.BlockStatement?
  {
    if s.inverse.Some? then Some(if s.program.Some? then next + 1 else next) else None
  }

  function Children(s: Statement): seq<Program> {
    if !s.BlockStatement? then []
    else (if s.program.Some? then [s.program.value] else []) + (if s.inverse.Some? then [s.inverse.value] else [])
  }

  function StatementOps(cfg: Settings, s: Statement, next: nat): seq<Opcode> {
    match s
    case Content(t) => if t != "" then [AppendContent(t)] else []
    case Comment => []
    case Mustache(x, escaped) =>
      SexprOps(cfg, x, None, None) + [if escaped && !cfg.noEscape then AppendEscaped else Append]
    case BlockStatement(c, _, _) =>
      SexprOps(cfg, Apply(c), MainGuid(s, next), InverseGuid(s, next)) +
      BlockTailOps(cfg, c, MainGuid(s, next), InverseGuid(s, next)) + [Append]
    case PartialStatement(_, _, _, _) => PartialOps(cfg, s)
  }

  function PartialOps(cfg: Settings, s: Statement): seq<Opcode>
    requires s.PartialStatement?
  {
    (if s.hash.Hash? then HashOps(cfg, s.hash.pairs) else [PushUndefined]) +
    (if s.context.Some? then ExprOps(cfg, s.context.value) else [GetContext(0), PushContext]) +
    [InvokePartial(s.name, s.indent), Append]
  }

  function StatementsOps(cfg: Settings, ss: seq<Statement>, next: nat): seq<Opcode> {
    if ss == [] then [] else StatementOps(cfg, ss[0], next) + StatementsOps(cfg, ss[1..], next + |Children(ss[0])|)
  }

  function ChildPrograms(ss: seq<Statement>): seq<Program> {
    if ss == [] then [] else Children(ss[0]) + ChildPrograms(ss[1..])
  }
}
