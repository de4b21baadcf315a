/** `stackSlot` on any opcode sequence, also one no template compiles to. */
module HandlebarsSlots {
  import opened HandlebarsAst
  import opened HandlebarsCodegen

  /** The entries that are no literals are the stack variables 1 to `slot`, in order. */
  predicate Numbered(es: seq<Entry>, slot: nat)
    decreases |es|
  {
    if es == [] then slot == 0
    else
      match es[|es| - 1]
      case Literal(_) => Numbered(es[..|es| - 1], slot)
      case Inline(e) => slot > 0 && e == JStack(slot) && Numbered(es[..|es| - 1], slot - 1)
  }

  predicate Sound(g: Gen) {
    Numbered(g.compiled, g.slot)
  }

  /** With sound slots "Invalid stack pop" means that both stacks are empty, and no pop yields an entry that is not there. */
  lemma PopFailsExactly(g: Gen)
    requires Sound(g)
    ensures PopStack(g, false).Err? <==> g.inline == [] && g.compiled == []
    ensures PopStack(g, false).Ok? ==> Sound(PopStack(g, false).value.1)
  {
  }

  lemma PopSound(g: Gen)
    requires Sound(g) && Pop(g).Ok?
    ensures Sound(Pop(g).value.1)
  {
    PopFailsExactly(g);
  }

  lemma {:induction false} FlushSound(g: Gen, entries: seq<Entry>)
    requires Sound(g)
    ensures Sound(FlushEntries(g, entries))
    decreases |entries|
  {
    if entries != [] {
      match entries[0]
      case Literal(_) =>
        var next := g.(compiled := g.compiled + [entries[0]]);
        assert next.compiled[..|g.compiled|] == g.compiled;
        FlushSound(next, entries[1..]);
      case Inline(e) =>
        var g1 := PushSource(g.(slot := g.slot + 1), [SetStack(g.slot + 1, e)]);
        var next := g1.(compiled := g1.compiled + [Inline(JStack(g1.slot))]);
        assert next.compiled[..|g.compiled|] == g.compiled;
        FlushSound(next, entries[1..]);
    }
  }

  lemma {:induction false} ReplaceSound(g: Gen, parts: seq<string>, and: bool)
    requires Sound(g) && ReplaceAll(g, parts, and).Ok?
    ensures Sound(ReplaceAll(g, parts, and).value)
    decreases |parts|
  {
    if parts != [] {
      ReplaceSound(ReplaceStack(g, parts[0], and).value, parts[1..], and);
    }
  }

  lemma OptionsSound(g: Gen, name: string)
    requires Sound(g) && SetupOptions(g, name).Ok?
    ensures Sound(SetupOptions(g, name).value.1)
  {
    PopSound(g);
    var g1 := Pop(g).value.1;
    PopSound(g1);
    PopSound(Pop(g1).value.1);
  }

  lemma {:induction false} ParamsSound(g: Gen, count: nat)
    requires Sound(g) && PopParams(g, count).Ok?
    ensures Sound(PopParams(g, count).value.1)
    decreases count
  {
    if count > 0 {
      PopSound(g);
      ParamsSound(Pop(g).value.1, count - 1);
    }
  }

  lemma HelperSound(g: Gen, op: Opcode)
    requires op.InvokeHelper? || op.InvokeKnownHelper? || op.InvokeAmbiguous?
    requires Sound(g) && Invocation(g, op).Ok?
    ensures Sound(Invocation(g, op).value)
  {
    match op
    case InvokeHelper(count, name, _) =>
      PopSound(g);
      var g1 := Pop(g).value.1;
      OptionsSound(g1, name);
      ParamsSound(SetupOptions(g1, name).value.1, count);
    case InvokeKnownHelper(count, name) =>
      OptionsSound(g, name);
      ParamsSound(SetupOptions(g, name).value.1, count);
    case InvokeAmbiguous(name, _) =>
      PopSound(g);
      OptionsSound(PushLiteral(Pop(g).value.1, JEmptyHash), name);
  }

  lemma BlockValueSound(g: Gen, op: Opcode)
    requires op.BlockValue? || op.AmbiguousBlockValue? || op.InvokePartial?
    requires Sound(g) && Invocation(g, op).Ok?
    ensures Sound(Invocation(g, op).value)
  {
    match op
    case BlockValue(name) =>
      OptionsSound(g, name);
      PopSound(SetupOptions(g, name).value.1);
    case AmbiguousBlockValue =>
      OptionsSound(g, "");
      var g1 := SetupOptions(g, "").value.1;
      FlushSound(g1.(inline := []), g1.inline);
    case InvokePartial(_, _) =>
      PopSound(g);
      PopSound(Pop(g).value.1);
  }

  lemma InvocationSound(g: Gen, op: Opcode)
    requires Invokes(op) && Sound(g) && Invocation(g, op).Ok?
    ensures Sound(Invocation(g, op).value)
  {
    if op.InvokeHelper? || op.InvokeKnownHelper? || op.InvokeAmbiguous? {
      HelperSound(g, op);
    } else {
      BlockValueSound(g, op);
    }
  }

  lemma LoadSound(g: Gen, op: Opcode)
    requires Loads(op) && Sound(g)
    ensures Sound(Load(g, op))
  {
  }

  lemma OutputSound(g: Gen, op: Opcode)
    requires !Loads(op) && !Invokes(op) && Sound(g) && Execute(g, op).Ok?
    ensures Sound(Execute(g, op).value)
  {
    match op
    case Append =>
      FlushSound(g.(inline := []), g.inline);
      PopSound(FlushInline(g));
    case AppendEscaped => PopSound(g);
    case ResolvePossibleLambda => PopSound(g);
    case AssignToHash(_) => PopSound(g);
    case LookupOnContext(parts, falsy, _) => ReplaceSound(PushLiteral(g, JDepth(g.lastContext)), parts, falsy);
    case LookupData(up, parts) => ReplaceSound(PushLiteral(g, JData(up)), parts, true);
    case PopHash =>
  }

  lemma ExecuteSound(g: Gen, op: Opcode)
    requires Sound(g) && Execute(g, op).Ok?
    ensures Sound(Execute(g, op).value)
  {
    if Loads(op) {
      LoadSound(g, op);
    } else if Invokes(op) {
      InvocationSound(g, op);
    } else {
      OutputSound(g, op);
    }
  }

  lemma {:induction false} RunSound(g: Gen, ops: seq<Opcode>)
    requires Sound(g) && Run(g, ops).Ok?
    ensures Sound(Run(g, ops).value)
    decreases |ops|
  {
    if ops != [] {
      ExecuteSound(g, ops[0]);
      RunSound(Execute(g, ops[0]).value, ops[1..]);
    }
  }

  function Temporaries(es: seq<Entry>): nat {
    if es == [] then 0 else (if es[|es| - 1].Inline? then 1 else 0) + Temporaries(es[..|es| - 1])
  }

  lemma {:induction false} NumberedCounts(es: seq<Entry>, slot: nat)
    requires Numbered(es, slot)
    ensures slot == Temporaries(es)
    decreases |es|
  {
    if es != [] {
      NumberedCounts(es[..|es| - 1], if es[|es| - 1].Inline? then slot - 1 else slot);
    }
  }

  /** After any opcodes at all, `stackSlot` is the number of non-literal entries of `compileStack`, and they are stack1, stack2, ... in order. */
  lemma SlotsCounted(useDepths: bool, ops: seq<Opcode>)
    requires Run(Initial(useDepths), ops).Ok?
    ensures var g := Run(Initial(useDepths), ops).value;
            g.slot == Temporaries(g.compiled) && Numbered(g.compiled, g.slot)
  {
    RunSound(Initial(useDepths), ops);
    var g := Run(Initial(useDepths), ops).value;
    NumberedCounts(g.compiled, g.slot);
  }
}
