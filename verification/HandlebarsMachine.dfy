/** JavaScriptCompiler as the object it is: fields updated in place by one method per opcode. */
module HandlebarsMachine {
  import opened Wrappers
  import opened HandlebarsAst
  import C = HandlebarsCodegen
  import opened HandlebarsCodegen

  /** A method that returns `r` and leaves `after` behind did what the specification step says. */
  ghost predicate Did<T>(r: Result<T, Failure>, spec: Step<T>, after: Gen) {
    match spec
    case Ok((v, g)) => r == Ok(v) && after == g
    case Err(f) => r == Err(f)
  }

  ghost predicate Became(r: Result<(), Failure>, spec: Result<Gen, Failure>, after: Gen) {
    match spec
    case Ok(g) => r == Ok(()) && after == g
    case Err(f) => r == Err(f)
  }

  class JavaScriptCompiler {
    var inlineStack: seq<Entry>
    var compileStack: seq<Entry>
    var stackSlot: nat
    var hash: Option<seq<JPair>>
    var hashes: seq<seq<JPair>>
    var lastContext: nat
    var lastHelper: string
    var pendingContent: string
    var source: seq<Stmt>
    const useDepths: bool

    ghost function View(): Gen
      reads this
    {
      Gen(inlineStack, compileStack, stackSlot, hash, hashes, lastContext, lastHelper, pendingContent, source, useDepths)
    }

    constructor (useDepths: bool)
      ensures View() == Initial(useDepths)
    {
      this.useDepths := useDepths;
      inlineStack, compileStack, stackSlot := [], [], 0;
      hash, hashes := None, [];
      lastContext, lastHelper, pendingContent, source := 0, "", "", [];
    }

    // ----- stack primitives -----

    method Push(e: JExpr)
      modifies this
      ensures View() == C.Push(old(View()), e)
    {
      inlineStack := inlineStack + [Inline(e)];
    }

    method PushStackLiteral(e: JExpr)
      modifies this
      ensures View() == C.PushLiteral(old(View()), e)
    {
      inlineStack := inlineStack + [Literal(e)];
    }

    method PopStack(wrapped: bool) returns (r: Result<Entry, Failure>)
      modifies this
      ensures Did(r, C.PopStack(old(View()), wrapped), View())
    {
      if inlineStack != [] {
        r := Ok(inlineStack[|inlineStack| - 1]);
        inlineStack := inlineStack[..|inlineStack| - 1];
        return;
      }
      var popped := Inline(JUndefined);
      if compileStack != [] {
        popped := compileStack[|compileStack| - 1];
        if popped.Literal? && !wrapped {
          compileStack := compileStack[..|compileStack| - 1];
          return Ok(popped);
        }
      }
      if stackSlot == 0 {
        return Err(InvalidStackPop);
      }
      if compileStack != [] {
        compileStack := compileStack[..|compileStack| - 1];
      }
      stackSlot := stackSlot - 1;
      return Ok(popped);
    }

    method Pop() returns (r: Result<JExpr, Failure>)
      modifies this
      ensures Did(r, C.Pop(old(View())), View())
    {
      var entry :- PopStack(false);
      return Ok(entry.e);
    }

    method PushSource(code: seq<Stmt>)
      modifies this
      ensures View() == C.PushSource(old(View()), code)
    {
      if pendingContent != "" {
        source := source + [AppendText(JText(pendingContent))];
        pendingContent := "";
      }
      source := source + code;
    }

    method IncrStack() returns (slot: nat)
      modifies this`stackSlot
      ensures stackSlot == old(stackSlot) + 1 && slot == stackSlot
    {
      stackSlot := stackSlot + 1;
      slot := stackSlot;
    }

    method FlushOne(entry: Entry)
      modifies this
      ensures View() == FlushEntry(old(View()), entry)
    {
      match entry {
        case Literal(_) => compileStack := compileStack + [entry];
        case Inline(e) =>
          var slot := IncrStack();
          PushSource([SetStack(slot, e)]);
          compileStack := compileStack + [Inline(JStack(slot))];
      }
    }

    method FlushInline()
      modifies this
      ensures View() == C.FlushInline(old(View()))
    {
      var entries := inlineStack;
      inlineStack := [];
      var i := 0;
      while i < |entries|
        invariant 0 <= i <= |entries|
        invariant C.FlushEntries(View(), entries[i..]) == C.FlushInline(old(View()))
      {
        assert entries[i..][1..] == entries[i + 1..];
        FlushOne(entries[i]);
        i := i + 1;
      }
    }

    method TopStack() returns (e: JExpr)
      ensures e == C.TopStack(View())
    {
      var stack := if inlineStack != [] then inlineStack else compileStack;
      return if stack == [] then JUndefined else stack[|stack| - 1].e;
    }

    /** An expression on top is kept in a stack variable, borrowed if none is in use. */
    method ReplaceInline(e: JExpr, name: string, and: bool)
      modifies this
      ensures var temp := if old(stackSlot) == 0 then 1 else old(stackSlot);
              View() == C.Push(old(View()), Select(JSetStack(temp, e), JStack(temp), name, and))
    {
      ghost var below := inlineStack;
      var borrowed := stackSlot == 0;
      var temp := stackSlot;
      if borrowed {
        temp := IncrStack();
      }
      Push(JStack(temp));
      var variable := TopStack();
      var _ := PopStack(false);
      assert inlineStack == below;
      if borrowed {
        stackSlot := stackSlot - 1;
      }
      Push(Select(JSetStack(temp, e), variable, name, and));
    }

    method ReplaceStack(name: string, and: bool) returns (r: Result<(), Failure>)
      modifies this
      ensures Became(r, C.ReplaceStack(old(View()), name, and), View())
    {
      if inlineStack == [] {
        return Err(ReplaceStackOnNonInline);
      }
      var popped := PopStack(true);
      match popped.value {
        case Literal(e) => Push(Select(e, e, name, and));
        case Inline(e) => ReplaceInline(e, name, and);
      }
      return Ok(());
    }

    method ReplaceAll(parts: seq<string>, and: bool) returns (r: Result<(), Failure>)
      modifies this
      ensures Became(r, C.ReplaceAll(old(View()), parts, and), View())
    {
      var d := 0;
      while d < |parts|
        invariant 0 <= d <= |parts|
        invariant C.ReplaceAll(View(), parts[d..], and) == C.ReplaceAll(old(View()), parts, and)
      {
        assert parts[d..][1..] == parts[d + 1..];
        var _ :- ReplaceStack(parts[d], and);
        d := d + 1;
      }
      return Ok(());
    }

    method SetupOptions(name: string) returns (r: Result<JOptions, Failure>)
      modifies this
      ensures Did(r, C.SetupOptions(old(View()), name), View())
    {
      var values :- Pop();
      var inverse :- Pop();
      var main :- Pop();
      return Ok(BlockOptions(name, values, main, inverse));
    }

    method PopParams(count: nat) returns (r: Result<seq<JExpr>, Failure>)
      modifies this
      ensures Did(r, C.PopParams(old(View()), count), View())
    {
      var params := [];
      var k := count;
      ghost var whole := C.PopParams(View(), count);
      assert whole.Ok? ==> whole.value.0 + params == whole.value.0;
      while k > 0
        invariant 0 <= k <= count
        invariant var spec := C.PopParams(View(), k);
                  C.PopParams(old(View()), count) ==
                  if spec.Ok? then Ok((spec.value.0 + params, spec.value.1)) else Err(spec.error)
      {
        k := k - 1;
        ghost var before := View();
        var param :- Pop();
        ghost var rest := C.PopParams(View(), k);
        assert rest.Ok? ==> (rest.value.0 + [param]) + params == rest.value.0 + ([param] + params);
        params := [param] + params;
      }
      assert [] + params == params;
      return Ok(params);
    }

    // ----- opcode handlers -----

    method Append() returns (r: Result<(), Failure>)
      modifies this
      ensures Became(r, DoAppend(old(View())), View())
    {
      FlushInline();
      var local :- Pop();
      PushSource([IfPresent(local, local)]);
      return Ok(());
    }

    method AppendEscaped() returns (r: Result<(), Failure>)
      modifies this
      ensures Became(r, DoAppendEscaped(old(View())), View())
    {
      var e :- Pop();
      PushSource([AppendText(JEscape(e))]);
      return Ok(());
    }

    method LookupOnContext(parts: seq<string>, falsy: bool, scoped: bool) returns (r: Result<(), Failure>)
      modifies this
      ensures Became(r, Execute(old(View()), Opcode.LookupOnContext(parts, falsy, scoped)), View())
    {
      PushStackLiteral(JDepth(lastContext));
      r := ReplaceAll(parts, falsy);
    }

    method LookupData(up: nat, parts: seq<string>) returns (r: Result<(), Failure>)
      modifies this
      ensures Became(r, Execute(old(View()), Opcode.LookupData(up, parts)), View())
    {
      PushStackLiteral(JData(up));
      r := ReplaceAll(parts, true);
    }

    method ResolvePossibleLambda() returns (r: Result<(), Failure>)
      modifies this
      ensures Became(r, Execute(old(View()), Opcode.ResolvePossibleLambda), View())
    {
      var e :- Pop();
      Push(JLambda(e));
      return Ok(());
    }

    method PushHash()
      modifies this
      ensures Execute(old(View()), Opcode.PushHash) == Ok(View())
    {
      if hash.Some? {
        hashes := hashes + [hash.value];
      }
      hash := Some([]);
    }

    method PopHash() returns (r: Result<(), Failure>)
      modifies this
      ensures Became(r, DoPopHash(old(View())), View())
    {
      if hash.None? {
        return Err(HashRegisterEmpty);
      }
      var values := hash.value;
      if hashes == [] {
        hash := None;
      } else {
        hash, hashes := Some(hashes[|hashes| - 1]), hashes[..|hashes| - 1];
      }
      Push(JHash(values));
      return Ok(());
    }

    method AssignToHash(key: string) returns (r: Result<(), Failure>)
      modifies this
      ensures Became(r, DoAssignToHash(old(View()), key), View())
    {
      var value :- Pop();
      if hash.None? {
        return Err(HashRegisterEmpty);
      }
      hash := Some(hash.value + [JPair(key, value)]);
      return Ok(());
    }

    method InvokeHelper(count: nat, name: string, simple: bool) returns (r: Result<(), Failure>)
      modifies this
      ensures Became(r, DoInvokeHelper(old(View()), count, name, simple), View())
    {
      var found :- Pop();
      var options :- SetupOptions(name);
      var params :- PopParams(count);
      Push(JInvoke(JOr(if simple then JOr(JHelper(name), found) else found, JHelper("helperMissing")), params, options));
      return Ok(());
    }

    method InvokeKnownHelper(count: nat, name: string) returns (r: Result<(), Failure>)
      modifies this
      ensures Became(r, DoInvokeKnownHelper(old(View()), count, name), View())
    {
      var options :- SetupOptions(name);
      var params :- PopParams(count);
      Push(JInvoke(JHelper(name), params, options));
      return Ok(());
    }

    method InvokeAmbiguous(name: string, helperCall: bool) returns (r: Result<(), Failure>)
      modifies this
      ensures Became(r, DoInvokeAmbiguous(old(View()), name, helperCall), View())
    {
      var found :- Pop();
      PushStackLiteral(JEmptyHash);
      var options :- SetupOptions(name);
      lastHelper := name;
      Push(JAmbiguous(name, found, options, helperCall));
      return Ok(());
    }

    method BlockValue(name: string) returns (r: Result<(), Failure>)
      modifies this
      ensures Became(r, DoBlockValue(old(View()), name), View())
    {
      var options :- SetupOptions(name);
      var e :- Pop();
      Push(JBlockMissing(e, options));
      return Ok(());
    }

    method AmbiguousBlockValue() returns (r: Result<(), Failure>)
      modifies this
      ensures Became(r, DoAmbiguousBlockValue(old(View())), View())
    {
      var _ :- SetupOptions("");
      FlushInline();
      var current := TopStack();
      PushSource([UnlessHelper(lastHelper, SlotOf(current), JBlockMissing(current, JOptionsRegister))]);
      return Ok(());
    }

    method InvokePartial(name: string, indent: string) returns (r: Result<(), Failure>)
      modifies this
      ensures Became(r, DoInvokePartial(old(View()), name, indent), View())
    {
      var context :- Pop();
      var values :- Pop();
      Push(JPartial(name, indent, context, values));
      return Ok(());
    }

    method DispatchInvocation(op: Opcode) returns (r: Result<(), Failure>)
      requires Invokes(op)
      modifies this
      ensures Became(r, Invocation(old(View()), op), View())
    {
      match op {
        case InvokeHelper(count, name, simple) => r := InvokeHelper(count, name, simple);
        case InvokeKnownHelper(count, name) => r := InvokeKnownHelper(count, name);
        case InvokeAmbiguous(name, helperCall) => r := InvokeAmbiguous(name, helperCall);
        case BlockValue(name) => r := BlockValue(name);
        case AmbiguousBlockValue => r := AmbiguousBlockValue();
        case InvokePartial(name, indent) => r := InvokePartial(name, indent);
      }
    }

    method DispatchLoad(op: Opcode)
      requires Loads(op)
      modifies this
      ensures View() == Load(old(View()), op)
    {
      match op {
        case AppendContent(t) => pendingContent := pendingContent + t;
        case GetContext(d) => lastContext := d;
        case PushContext => PushStackLiteral(JDepth(lastContext));
        case EmptyHash => PushStackLiteral(JEmptyHash);
        case PushHash => PushHash();
        case PushString(t) => PushStackLiteral(JText(t));
        case PushNumber(n) => PushStackLiteral(JNumber(n));
        case PushBoolean(b) => PushStackLiteral(JBoolean(b));
        case PushUndefined => Push(JUndefined);
        case PushProgram(guid) => PushStackLiteral(if guid.Some? then JProgram(guid.value, useDepths) else JNull);
      }
    }

    /** `this[opcode].apply(this, args)` */
    method Dispatch(op: Opcode) returns (r: Result<(), Failure>)
      modifies this
      ensures Became(r, Execute(old(View()), op), View())
    {
      if Loads(op) {
        DispatchLoad(op);
        return Ok(());
      }
      if Invokes(op) {
        r := DispatchInvocation(op);
        return;
      }
      match op {
        case Append => r := Append();
        case AppendEscaped => r := AppendEscaped();
        case LookupOnContext(parts, falsy, scoped) => r := LookupOnContext(parts, falsy, scoped);
        case LookupData(up, parts) => r := LookupData(up, parts);
        case ResolvePossibleLambda => r := ResolvePossibleLambda();
        case PopHash => r := PopHash();
        case AssignToHash(key) => r := AssignToHash(key);
      }
    }

    /** The opcode loop of `compile`, on a fresh object. */
    method Compile(opcodes: seq<Opcode>) returns (r: Result<seq<Stmt>, Failure>)
      requires View() == Initial(useDepths)
      modifies this
      ensures r == Generate(useDepths, opcodes)
    {
      var i := 0;
      while i < |opcodes|
        invariant 0 <= i <= |opcodes|
        invariant Run(View(), opcodes[i..]) == Run(Initial(useDepths), opcodes)
      {
        assert opcodes[i..][1..] == opcodes[i + 1..];
        var _ :- Dispatch(opcodes[i]);
        i := i + 1;
      }
      PushSource([]);
      if stackSlot != 0 || inlineStack != [] || compileStack != [] {
        return Err(ContentLeftOnStack);
      }
      return Ok(source);
    }
  }
}
