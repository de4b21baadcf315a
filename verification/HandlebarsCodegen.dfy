/** The opcode machine of JavaScriptCompiler: a two-part stack of expressions that emits statements. */
module HandlebarsCodegen {
  import opened Wrappers
  import opened HandlebarsAst

  // ----- the expressions and statements it emits -----

  datatype JExpr =
    | JUndefined
    | JNull
    | JText(text: string)
    | JNumber(numeral: string)
    | JBoolean(truth: bool)
    | JEmptyHash
    | JNoop
    | JProgram(guid: nat, depths: bool)                          // this.program(i, data[, depths])
    | JDepth(level: nat)                                         // depth0, or depths[level]
    | JData(up: nat)                                             // data, or this.data(data, up)
    | JStack(slot: nat)
    | JSetStack(slot: nat, e: JExpr)                             // (stackN = e)
    | JNullSafe(test: JExpr, target: JExpr, name: string)        // (test != null ? object.name : object)
    | JAnd(test: JExpr, target: JExpr, name: string)             // (test && object.name)
    | JLambda(e: JExpr)
    | JHash(pairs: seq<JPair>)
    | JHelper(name: string)
    | JOr(left: JExpr, right: JExpr)
    | JInvoke(callee: JExpr, args: seq<JExpr>, options: JOptions)
    | JAmbiguous(name: string, lookup: JExpr, options: JOptions, register: bool)
    | JBlockMissing(e: JExpr, options: JOptions)
    | JPartial(name: string, indent: string, context: JExpr, hash: JExpr)
    | JEscape(e: JExpr)

  datatype JPair = JPair(key: string, value: JExpr)

  datatype JOptions =
    | JOptions(name: string, hash: JExpr, main: JExpr, inverse: JExpr)   // both blocks JNull: neither is set
    | JOptionsRegister

  datatype Stmt =
    | SetStack(slot: nat, e: JExpr)
    | AppendText(e: JExpr)                          // buffer += e, or return e in a simple program
    | IfPresent(test: JExpr, e: JExpr)              // if (test != null) { append e } [else { return '' }]
    | UnlessHelper(name: string, slot: nat, e: JExpr)

  // ----- the machine -----

  /** A stack entry: a wrapped literal, or a plain expression text. */
  datatype Entry = Literal(e: JExpr) | Inline(e: JExpr)

  datatype Failure = InvalidStackPop | ReplaceStackOnNonInline | ContentLeftOnStack | HashRegisterEmpty

  datatype Gen = Gen(
    inline: seq<Entry>,
    compiled: seq<Entry>,
    slot: nat,
    hash: Option<seq<JPair>>,
    hashes: seq<seq<JPair>>,
    lastContext: nat,
    lastHelper: string,
    pending: string,
    source: seq<Stmt>,
    useDepths: bool)

  type Step<T> = Result<(T, Gen), Failure>

  function Initial(useDepths: bool): Gen {
    Gen([], [], 0, None, [], 0, "", "", [], useDepths)
  }

  function Push(g: Gen, e: JExpr): Gen {
    g.(inline := g.inline + [Inline(e)])
  }

  function PushLiteral(g: Gen, e: JExpr): Gen {
    g.(inline := g.inline + [Literal(e)])
  }

  function PopStack(g: Gen, wrapped: bool): Step<Entry> {
    if g.inline != [] then
      Ok((g.inline[|g.inline| - 1], g.(inline := g.inline[..|g.inline| - 1])))
    else if g.compiled != [] && g.compiled[|g.compiled| - 1].Literal? && !wrapped then
      Ok((g.compiled[|g.compiled| - 1], g.(compiled := g.compiled[..|g.compiled| - 1])))
    else if g.slot == 0 then Err(InvalidStackPop)
    else if g.compiled == [] then Ok((Inline(JUndefined), g.(slot := g.slot - 1)))
    else Ok((g.compiled[|g.compiled| - 1], g.(compiled := g.compiled[..|g.compiled| - 1], slot := g.slot - 1)))
  }

  function Pop(g: Gen): Step<JExpr> {
    var (entry, g1) :- PopStack(g, false);
    Ok((entry.e, g1))
  }

  function TopStack(g: Gen): JExpr {
    if g.inline != [] then g.inline[|g.inline| - 1].e
    else if g.compiled != [] then g.compiled[|g.compiled| - 1].e
    else JUndefined
  }

  function PushSource(g: Gen, s: seq<Stmt>): Gen {
    if g.pending != "" then g.(source := g.source + [AppendText(JText(g.pending))] + s, pending := "")
    else g.(source := g.source + s)
  }

  function FlushEntry(g: Gen, entry: Entry): Gen {
    match entry
    case Literal(_) => g.(compiled := g.compiled + [entry])
    case Inline(e) =>
      var g1 := PushSource(g.(slot := g.slot + 1), [SetStack(g.slot + 1, e)]);
      g1.(compiled := g1.compiled + [Inline(JStack(g1.slot))])
  }

  function FlushEntries(g: Gen, entries: seq<Entry>): Gen
    decreases |entries|
  {
    if entries == [] then g else FlushEntries(FlushEntry(g, entries[0]), entries[1..])
  }

  function FlushInline(g: Gen): Gen {
    FlushEntries(g.(inline := []), g.inline)
  }

  function Select(test: JExpr, target: JExpr, name: string, and: bool): JExpr {
    if and then JAnd(test, target, name) else JNullSafe(test, target, name)
  }

  /** `replaceStack` with the callback that looks `name` up, by `!= null ?` or by `&&`. */
  function ReplaceStack(g: Gen, name: string, and: bool): Result<Gen, Failure> {
    if g.inline == [] then Err(ReplaceStackOnNonInline)
    else
      var (top, g1) :- PopStack(g, true);
      match top
      case Literal(e) => Ok(Push(g1, Select(e, e, name, and)))
      case Inline(e) =>
        var temp := if g1.slot == 0 then 1 else g1.slot;
        Ok(Push(g1, Select(JSetStack(temp, e), JStack(temp), name, and)))
  }

  function ReplaceAll(g: Gen, parts: seq<string>, and: bool): Result<Gen, Failure>
    decreases |parts|
  {
    if parts == [] then Ok(g)
    else
      var g1 :- ReplaceStack(g, parts[0], and);
      ReplaceAll(g1, parts[1..], and)
  }

  // `options.fn` and `options.inverse` are set when either program is there
  function BlockOptions(name: string, hash: JExpr, main: JExpr, inverse: JExpr): JOptions {
    if main.JNull? && inverse.JNull? then JOptions(name, hash, JNull, JNull)
    else JOptions(name, hash, if main.JNull? then JNoop else main, if inverse.JNull? then JNoop else inverse)
  }

  function SetupOptions(g: Gen, name: string): Step<JOptions> {
    var (hash, g1) :- Pop(g);
    var (inverse, g2) :- Pop(g1);
    var (main, g3) :- Pop(g2);
    Ok((BlockOptions(name, hash, main, inverse), g3))
  }

  function PopParams(g: Gen, count: nat): Step<seq<JExpr>>
    decreases count
  {
    if count == 0 then Ok(([], g))
    else
      var (last, g1) :- Pop(g);
      var (before, g2) :- PopParams(g1, count - 1);
      Ok((before + [last], g2))
  }

  function ProgramEntry(g: Gen, guid: Option<nat>): JExpr {
    if guid.Some? then JProgram(guid.value, g.useDepths) else JNull
  }

  function DoAppend(g: Gen): Result<Gen, Failure> {
    var (e, g1) :- Pop(FlushInline(g));
    Ok(PushSource(g1, [IfPresent(e, e)]))
  }

  function DoAppendEscaped(g: Gen): Result<Gen, Failure> {
    var (e, g1) :- Pop(g);
    Ok(PushSource(g1, [AppendText(JEscape(e))]))
  }

  function DoAssignToHash(g: Gen, key: string): Result<Gen, Failure> {
    var (e, g1) :- Pop(g);
    if g1.hash.None? then Err(HashRegisterEmpty) else Ok(g1.(hash := Some(g1.hash.value + [JPair(key, e)])))
  }

  function DoPopHash(g: Gen): Result<Gen, Failure> {
    if g.hash.None? then Err(HashRegisterEmpty)
    else
      var outer := if g.hashes == [] then None else Some(g.hashes[|g.hashes| - 1]);
      var rest := if g.hashes == [] then [] else g.hashes[..|g.hashes| - 1];
      Ok(Push(g.(hash := outer, hashes := rest), JHash(g.hash.value)))
  }

  function DoInvokeHelper(g: Gen, count: nat, name: string, simple: bool): Result<Gen, Failure> {
    var (found, g1) :- Pop(g);
    var (options, g2) :- SetupOptions(g1, name);
    var (args, g3) :- PopParams(g2, count);
    var callee := JOr(if simple then JOr(JHelper(name), found) else found, JHelper("helperMissing"));
    Ok(Push(g3, JInvoke(callee, args, options)))
  }

  function DoInvokeKnownHelper(g: Gen, count: nat, name: string): Result<Gen, Failure> {
    var (options, g1) :- SetupOptions(g, name);
    var (args, g2) :- PopParams(g1, count);
    Ok(Push(g2, JInvoke(JHelper(name), args, options)))
  }

  function DoInvokeAmbiguous(g: Gen, name: string, helperCall: bool): Result<Gen, Failure> {
    var (found, g1) :- Pop(g);
    var (options, g2) :- SetupOptions(PushLiteral(g1, JEmptyHash), name);
    Ok(Push(g2, JAmbiguous(name, found, options, helperCall)).(lastHelper := name))
  }

  function DoBlockValue(g: Gen, name: string): Result<Gen, Failure> {
    var (options, g1) :- SetupOptions(g, name);
    var (e, g2) :- Pop(g1);
    Ok(Push(g2, JBlockMissing(e, options)))
  }

  // the options popped here are dropped: the register still holds those of the ambiguous call
  function DoAmbiguousBlockValue(g: Gen): Result<Gen, Failure> {
    var (_, g1) :- SetupOptions(g, "");
    var g2 := FlushInline(g1);
    var top := TopStack(g2);
    Ok(PushSource(g2, [UnlessHelper(g2.lastHelper, SlotOf(top), JBlockMissing(top, JOptionsRegister))]))
  }

  function SlotOf(e: JExpr): nat {
    if e.JStack? then e.slot else 0
  }

  function DoInvokePartial(g: Gen, name: string, indent: string): Result<Gen, Failure> {
    var (context, g1) :- Pop(g);
    var (hash, g2) :- Pop(g1);
    Ok(Push(g2, JPartial(name, indent, context, hash)))
  }

  /** The opcodes that only push a value or set a field. */
  predicate Loads(op: Opcode) {
    || op.AppendContent? || op.GetContext? || op.PushContext? || op.EmptyHash? || op.PushHash?
    || op.PushString? || op.PushNumber? || op.PushBoolean? || op.PushUndefined? || op.PushProgram?
  }

  function Load(g: Gen, op: Opcode): Gen
    requires Loads(op)
  {
    match op
    case AppendContent(t) => g.(pending := g.pending + t)
    case GetContext(d) => g.(lastContext := d)
    case PushContext => PushLiteral(g, JDepth(g.lastContext))
    case EmptyHash => PushLiteral(g, JEmptyHash)
    case PushHash => g.(hash := Some([]), hashes := if g.hash.Some? then g.hashes + [g.hash.value] else g.hashes)
    case PushString(t) => PushLiteral(g, JText(t))
    case PushNumber(n) => PushLiteral(g, JNumber(n))
    case PushBoolean(b) => PushLiteral(g, JBoolean(b))
    case PushUndefined => Push(g, JUndefined)
    case PushProgram(guid) => PushLiteral(g, ProgramEntry(g, guid))
  }

  predicate Invokes(op: Opcode) {
    || op.InvokeHelper? || op.InvokeKnownHelper? || op.InvokeAmbiguous?
    || op.BlockValue? || op.AmbiguousBlockValue? || op.InvokePartial?
  }

  function Invocation(g: Gen, op: Opcode): Result<Gen, Failure>
    requires Invokes(op)
  {
    match op
    case InvokeHelper(count, name, simple) => DoInvokeHelper(g, count, name, simple)
    case InvokeKnownHelper(count, name) => DoInvokeKnownHelper(g, count, name)
    case InvokeAmbiguous(name, helperCall) => DoInvokeAmbiguous(g, name, helperCall)
    case BlockValue(name) => DoBlockValue(g, name)
    case AmbiguousBlockValue => DoAmbiguousBlockValue(g)
    case InvokePartial(name, indent) => DoInvokePartial(g, name, indent)
  }

  function Execute(g: Gen, op: Opcode): Result<Gen, Failure> {
    if Loads(op) then Ok(Load(g, op))
    else if Invokes(op) then Invocation(g, op)
    else
      match op
      case Append => DoAppend(g)
      case AppendEscaped => DoAppendEscaped(g)
      case LookupOnContext(parts, falsy, _) => ReplaceAll(PushLiteral(g, JDepth(g.lastContext)), parts, falsy)
      case LookupData(up, parts) => ReplaceAll(PushLiteral(g, JData(up)), parts, true)
      case ResolvePossibleLambda => var (e, g1) :- Pop(g); Ok(Push(g1, JLambda(e)))
      case PopHash => DoPopHash(g)
      case AssignToHash(key) => DoAssignToHash(g, key)
  }

  function Run(g: Gen, ops: seq<Opcode>): Result<Gen, Failure>
    decreases |ops|
  {
    if ops == [] then Ok(g)
    else
      var g1 :- Execute(g, ops[0]);
      Run(g1, ops[1..])
  }

  /** The loop of `compile`: run every opcode, flush pending content, insist on empty stacks. */
  function Generate(useDepths: bool, ops: seq<Opcode>): Result<seq<Stmt>, Failure> {
    var g :- Run(Initial(useDepths), ops);
    var g1 := PushSource(g, []);
    if g1.slot != 0 || g1.inline != [] || g1.compiled != [] then Err(ContentLeftOnStack) else Ok(g1.source)
  }
}
