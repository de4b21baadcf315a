# A verified model of the Open-O services

The repository holds Java utilities of the Open-O project (BPEL packages, REST calls from
BPEL, internationalised labels, log ids) and the JavaScript libraries of their API
documentation page. This project models the self-contained algorithms among them and proves
what each promises. Regular expressions, sockets, JSON and XML parsing, timers and the code
of helpers and partials are parameters: functions, oracles or lists of events.

- **Handlebars** (`Handlebars*.dfy`). `HandlebarsAst` has the syntax tree and the opcodes,
  `HandlebarsMeaning` a direct evaluator and what JavaScript fixes about values,
  `HandlebarsCodegen` the generator on its two-part stack, `HandlebarsExecution` the
  generated expressions with their stack variables and registers. `HandlebarsStack`,
  `HandlebarsStatements` and `HandlebarsSlots` prove stack safety, `HandlebarsCorrect`,
  `HandlebarsThrowing`, `HandlebarsOpen` and `HandlebarsTheorem` compiler correctness for
  programs compiled one by one. The source shares the functions of equal programs:
  `HandlebarsDepths`, `HandlebarsReferences`, `HandlebarsSharing` and `HandlebarsCopies` say
  what sharing gives each program, `HandlebarsProper` that direct evaluation raises no
  exception, `HandlebarsTracer` is a runtime that sees whatever goes wrong, and
  `HandlebarsRendering` decides which templates still render what they mean.
  `HandlebarsForms` and `HandlebarsOutputs` say what each kind of mustache and block gives in
  terms of the runtime alone.
  `HandlebarsMachine`, `HandlebarsTables` and `HandlebarsWalker` are the compiler objects,
  method by method.
- **highlight.js** (`HighlightMerge`, `HighlightStream`). Two tag streams over one text are
  merged into one nested stream.
- **marked** (`MarkedLexer`, `MarkedParser`, `MarkedBlocks`). Block lexer, block trees, and
  the parser that pops a reversed token list.
- **shred** (`PathNormalize`, `DoubleByteCodec`, `CookieJar`, `XhrResponse`).
- **swagger-client** (`SwaggerSignature`) and **underscore** (`Throttle`).
- **The Java services** (`LruCache`, `WsdlCache`, `BpelInjection`, `PackageLock`,
  `JsonXml`, `JsonXmlReading`, `I18nNames`, `I18nIndex`, `I18nLookup`, `LogId`).
- `Wrappers` and `Texts` hold what several of them share.

A file declares one module of its own name, except `CookieJar.dfy`, whose module is
`CookieJars`. Methods that change state are proved equal to specification functions, or keep
an invariant that ties the object to the run of its calls; the main results are lemmas about
those functions and runs.

## Where the code does not do what one would expect

Each of these is a lemma with a concrete run, next to the exact condition that avoids it.

- Handlebars: a child program found again by `matchExistingProgram` does not pass its
  `useDepths` on to the parent, so `../x` can be evaluated without `depths`
  (`HandlebarsRendering.SharingLosesDepths`), and `equals` does not compare whether a program
  is simple, so a block can return a value where a text is meant (`SharingLosesText`; not
  where it makes no difference, as in `TextsMayShare` and `DeepPathsMayShare`). The exact
  condition for rendering is in `HandlebarsRendering.RenderingExact`, the one for
  getting the very same functions in `HandlebarsSharing.SharingExact`.
- Cookie jar: `collidesWith` looks at the first occurrence of a domain's tail, so it is not
  transitive, and a jar can hold two colliding cookies (`CookieJars.BrokenRun`,
  `RepeatedTailBreaks`, `DoubleDotBreaks`; exact condition in `TidyExactly`).
- XMLHttpRequest wrapper: status 0 counts as "not yet seen" and 'ready' repeats
  (`XhrResponse.ZeroStatusRepeats`); when the headers cannot be read at the first event that
  announces the response, 'ready' is lost. How often it comes in any run is in
  `ReadyExactly`.
- Package lock: a refused request releases the owner's lock (`PackageLock.StolenLock`; exact
  conditions in `ExactWhenNobodySteals`, `ExclusionExactly` and `SetExactly`). A refusal never reports its
  own error code, because the general handler overwrites it.
- BPEL variables: content with its own marker keeps the loop going for ever
  (`BpelInjection.SelfReferenceNeverEnds`; exact condition for ending at all, and for how,
  in `EndsExactly`).
- JSON to XML: text with `]]>`, with a carriage return or with a character XML does not
  allow, and keys that are no XML names, are not recovered by a reader
  (`JsonXmlReading.ResponseReadExactly`).
- Log ids: a search by time misses ids of times before 1970 and of times with 14 digits,
  except for those at which the arithmetic wraps around to them
  (`LogId.SearchFindsExactly`).

## Model

| member | source | states |
|---|---|---|
| HandlebarsRendering.RenderingExact | wso2bpel-ext/wso2bpel-core/wso2bpel-mgr/src/main/resources/api-doc/lib/handlebars-2.0.0.js:42-43 | For every template: rendering with shared functions gives what the direct evaluator gives, for every context and data and under every runtime whose helpers can use their blocks only by calling them, if and only if the template is safe: no program needs `depths` only through programs met before, and the function each program gets was made from one that agrees on having one statement, except where that statement gives a text or nothing in any case (content, an escaped value, an indented partial, a plain path beyond the contexts there are). It is the same condition whether of a runtime is only asked that no value but a host object is a function and that an indented partial gives a text, or all that JavaScript fixes |
| HandlebarsRendering.SharedCompilerCorrect | wso2bpel-ext/wso2bpel-core/wso2bpel-mgr/src/main/resources/api-doc/lib/handlebars-2.0.0.js:42-43 | Compiler correctness with sharing: a safe template renders what the direct evaluator gives, whatever helpers do with the answers of their blocks, exceptions passed on included |
| HandlebarsRendering.SafeNeverRaises | wso2bpel-ext/wso2bpel-core/wso2bpel-mgr/src/main/resources/api-doc/lib/handlebars-2.0.0.js:42-43 | A safe template never raises the exception of lost `depths`, in itself or in a block, under any runtime with JavaScript's values, helpers that pass exceptions on included |
| HandlebarsTracer.PassThroughIsJavaScript | wso2bpel-ext/wso2bpel-core/wso2bpel-mgr/src/main/resources/api-doc/lib/handlebars-2.0.0.js:42 | Helpers that return what their block returns, exceptions included, as `blockHelperMissing` does given true, are among the runtimes considered |
| HandlebarsRendering.UnsafeRendersWrong | wso2bpel-ext/wso2bpel-core/wso2bpel-mgr/src/main/resources/api-doc/lib/handlebars-2.0.0.js:42-43 | Any other template renders something else, or raises an exception, under one given runtime with JavaScript's values |
| HandlebarsRendering.SharingLosesDepths | wso2bpel-ext/wso2bpel-core/wso2bpel-mgr/src/main/resources/api-doc/lib/handlebars-2.0.0.js:43 | `{{#a}}{{../x}}{{/a}}{{#b}}{{#a}}{{../x}}{{/a}}{{/b}}` renders wrong under a given runtime and context: an outer context is lost |
| HandlebarsRendering.SharingLosesText | wso2bpel-ext/wso2bpel-core/wso2bpel-mgr/src/main/resources/api-doc/lib/handlebars-2.0.0.js:43 | `{{#a}}{{{x}}}{{/a}}{{#b}}{{{x}}}{{! c}}{{/b}}` renders wrong under a given runtime and context, and so it does with `../x`: a block returns a value where a text is meant |
| HandlebarsRendering.TextsMayShare | wso2bpel-ext/wso2bpel-core/wso2bpel-mgr/src/main/resources/api-doc/lib/handlebars-2.0.0.js:43 | `{{#a}}x{{/a}}{{#b}}x{{! c}}{{/b}}` always renders right, although the shared function has the other program's shape |
| HandlebarsRendering.DeepPathsMayShare | wso2bpel-ext/wso2bpel-core/wso2bpel-mgr/src/main/resources/api-doc/lib/handlebars-2.0.0.js:42-43 | `{{#a}}{{{../../x}}}{{/a}}{{#b}}{{{../../x}}}{{! c}}{{/b}}` always renders right too: beyond the two contexts of the blocks there is nothing to show |
| HandlebarsCopies.ShareCopies | wso2bpel-ext/wso2bpel-core/wso2bpel-mgr/src/main/resources/api-doc/lib/handlebars-2.0.0.js:43 | Whatever the table holds, sharing gives each program its own code or that of an equal program, with that program's shape, and sets the flag only where the program itself reads depths |
| HandlebarsCopies.RightMeans | wso2bpel-ext/wso2bpel-core/wso2bpel-mgr/src/main/resources/api-doc/lib/handlebars-2.0.0.js:42-43 | Such a function means its program in every frame that shows n nested contexts, blocks included, if all the way down the flags are right and the shapes are, or cannot be told apart under the contexts there |
| HandlebarsTracer.LostDiffers | wso2bpel-ext/wso2bpel-core/wso2bpel-mgr/src/main/resources/api-doc/lib/handlebars-2.0.0.js:43 | Run without its outer contexts, a copy of a program that uses them, itself or in any program it holds, gives something else than the program means under the tracing runtime |
| HandlebarsTracer.WrongDiffers | wso2bpel-ext/wso2bpel-core/wso2bpel-mgr/src/main/resources/api-doc/lib/handlebars-2.0.0.js:43 | So does a copy in which a flag or a telling shape is wrong anywhere, run with all its contexts |
| HandlebarsThrowing.CodeRaises | wso2bpel-ext/wso2bpel-core/wso2bpel-mgr/src/main/resources/api-doc/lib/handlebars-2.0.0.js:43 | Run without `depths`, the code of a program raises an exception exactly when a statement of its own reads an outer context, be it in a path, in a parameter or in a hash pair whose key is given again |
| HandlebarsOpen.ActivationOpen | wso2bpel-ext/wso2bpel-core/wso2bpel-mgr/src/main/resources/api-doc/lib/handlebars-2.0.0.js:43 | The code of a program, in a function of either shape and run with any functions at all as children, gives what the direct evaluator gives with those functions as blocks |
| HandlebarsTheorem.CompilerCorrect | wso2bpel-ext/wso2bpel-core/wso2bpel-mgr/src/main/resources/api-doc/lib/handlebars-2.0.0.js:42-43 | Compiler correctness without sharing, every program compiled on its own: for every template, every context and data, both passes succeed and rendering gives what the direct evaluator gives |
| HandlebarsTheorem.ActivationCorrect | wso2bpel-ext/wso2bpel-core/wso2bpel-mgr/src/main/resources/api-doc/lib/handlebars-2.0.0.js:42-43 | The same, without sharing, for every program inside a template, in any frame that shows a scope: nested blocks called back by helpers mean what their program means there |
| HandlebarsTheorem.CompileSucceeds | wso2bpel-ext/wso2bpel-core/wso2bpel-mgr/src/main/resources/api-doc/lib/handlebars-2.0.0.js:42-43 | For every syntax tree and every nesting neither "Invalid stack pop" nor "content left on stack" nor any other stack error is thrown |
| HandlebarsTheorem.UseDepthsCovers | wso2bpel-ext/wso2bpel-core/wso2bpel-mgr/src/main/resources/api-doc/lib/handlebars-2.0.0.js:42 | A program that reads an outer context, or holds a program that does, is compiled with `useDepths` |
| HandlebarsForms.FrameRead | wso2bpel-ext/wso2bpel-core/wso2bpel-mgr/src/main/resources/api-doc/lib/handlebars-2.0.0.js:42 | In every scope: inside a block `@name` is the name's value in the frame the block was called with, if that is truthy, and what it was outside if there is none or a falsy one |
| HandlebarsForms.FrameLeft | wso2bpel-ext/wso2bpel-core/wso2bpel-mgr/src/main/resources/api-doc/lib/handlebars-2.0.0.js:42 | Inside a frame whose `_parent` is the data outside, `@../` with any path is that path outside |
| HandlebarsOutputs.ClosureRuns | wso2bpel-ext/wso2bpel-core/wso2bpel-mgr/src/main/resources/api-doc/lib/handlebars-2.0.0.js:42 | The function `program` makes for a child runs it with the frame it is called with if truthy, with the enclosing one else, and with the new context before the outer ones if it passes them |
| HandlebarsOutputs.FrameShown | wso2bpel-ext/wso2bpel-core/wso2bpel-mgr/src/main/resources/api-doc/lib/handlebars-2.0.0.js:42-43 | The compiled block of `{{#each xs}}{{@index}}{{/each}}`, called by a helper with a frame, shows what that frame holds |
| HandlebarsOutputs.DataShown | wso2bpel-ext/wso2bpel-core/wso2bpel-mgr/src/main/resources/api-doc/lib/handlebars-2.0.0.js:42-43 | Compiled and run in any nesting, `{{@../a.b}}` shows what is reached by going up along `_parent` and then along the names, a falsy value ending either way |
| HandlebarsOutputs.PathShown | wso2bpel-ext/wso2bpel-core/wso2bpel-mgr/src/main/resources/api-doc/lib/handlebars-2.0.0.js:42-43 | A path that is not a single name shows what is reached from its context, undefined and null ending the way, applied to the context if it is a function, and never asks for a helper |
| HandlebarsOutputs.NameShown | wso2bpel-ext/wso2bpel-core/wso2bpel-mgr/src/main/resources/api-doc/lib/handlebars-2.0.0.js:42-43 | A single name that is not known shows its helper, else its field, else `helperMissing`, a function among them being called without parameters |
| HandlebarsOutputs.CallShown | wso2bpel-ext/wso2bpel-core/wso2bpel-mgr/src/main/resources/api-doc/lib/handlebars-2.0.0.js:42-43 | With parameters, with a hash or under a known name the answer of the helper is shown: a known one by the path's first part, else the first truthy of the helper of a single name and of what the path leads to, else `helperMissing` |
| HandlebarsForms.CallParam | wso2bpel-ext/wso2bpel-core/wso2bpel-mgr/src/main/resources/api-doc/lib/handlebars-2.0.0.js:42-43 | A call as a parameter asks the helper that a mustache would, with no blocks |
| HandlebarsForms.PathParam | wso2bpel-ext/wso2bpel-core/wso2bpel-mgr/src/main/resources/api-doc/lib/handlebars-2.0.0.js:42-43 | A path as a parameter is only looked up: no helper is asked for and a function found is not called |
| HandlebarsForms.FirstPairWins | wso2bpel-ext/wso2bpel-core/wso2bpel-mgr/src/main/resources/api-doc/lib/handlebars-2.0.0.js:42-43 | A hash holds exactly the keys of its pairs, each with the value of the first pair that has it |
| HandlebarsForms.ParamsInOrder | wso2bpel-ext/wso2bpel-core/wso2bpel-mgr/src/main/resources/api-doc/lib/handlebars-2.0.0.js:42-43 | A helper is given the values of its parameters one for one, in order |
| HandlebarsOutputs.PartialGiven | wso2bpel-ext/wso2bpel-core/wso2bpel-mgr/src/main/resources/api-doc/lib/handlebars-2.0.0.js:42-43 | A partial gives what its function does for its name and indent, its context or else the innermost one, its hash if it has one, and the data |
| HandlebarsOutputs.CallBlockGiven | wso2bpel-ext/wso2bpel-core/wso2bpel-mgr/src/main/resources/api-doc/lib/handlebars-2.0.0.js:42-43 | Such a block gives its helper's answer, whatever options it is offered: both blocks if there is either, the one not there giving the empty text, each running its program with the new context in front and in the frame it is called with |
| HandlebarsOutputs.PathBlockGiven | wso2bpel-ext/wso2bpel-core/wso2bpel-mgr/src/main/resources/api-doc/lib/handlebars-2.0.0.js:42-43 | A block under a path asks `blockHelperMissing` with what the path leads to, with the same options |
| HandlebarsOutputs.NameBlockGiven | wso2bpel-ext/wso2bpel-core/wso2bpel-mgr/src/main/resources/api-doc/lib/handlebars-2.0.0.js:42-43 | A block under a single name is what the helper of that name answers; where there is none, `blockHelperMissing` is asked with the field, or with what a function found there answers |
| HandlebarsOutputs.ProgramGiven | wso2bpel-ext/wso2bpel-core/wso2bpel-mgr/src/main/resources/api-doc/lib/handlebars-2.0.0.js:42-43 | A compiled program of none or several statements gives the texts that each gives compiled on its own, in order |
| HandlebarsOutputs.ContentGiven | wso2bpel-ext/wso2bpel-core/wso2bpel-mgr/src/main/resources/api-doc/lib/handlebars-2.0.0.js:42-43 | Content is given as it is, and a comment gives nothing |
| HandlebarsForms.EscapedIsRead | wso2bpel-ext/wso2bpel-core/wso2bpel-mgr/src/main/resources/api-doc/lib/handlebars-2.0.0.js:42 | What JavaScript's runtime makes of a text in `escapeExpression` is read back as that text by a reader of the six entities |
| HandlebarsStatements.GenerateSucceeds | wso2bpel-ext/wso2bpel-core/wso2bpel-mgr/src/main/resources/api-doc/lib/handlebars-2.0.0.js:43 | The opcode loop ends with both stacks empty and its code is the direct translation of the statements |
| HandlebarsStatements.StatementsFinish | wso2bpel-ext/wso2bpel-core/wso2bpel-mgr/src/main/resources/api-doc/lib/handlebars-2.0.0.js:43 | Each statement has net effect zero on both stacks and on the hash register, whatever was saved before it |
| HandlebarsStatements.SexprPushes | wso2bpel-ext/wso2bpel-core/wso2bpel-mgr/src/main/resources/api-doc/lib/handlebars-2.0.0.js:42-43 | A simple, helper or ambiguous mustache pushes exactly one entry, pops nothing below its start, and an ambiguous one records its helper for the block that follows |
| HandlebarsStatements.BlockEmits | wso2bpel-ext/wso2bpel-core/wso2bpel-mgr/src/main/resources/api-doc/lib/handlebars-2.0.0.js:42-43 | A block of any of the three kinds leaves the stacks as they were and emits the statements of its direct translation |
| HandlebarsStack.ExprPushes | wso2bpel-ext/wso2bpel-core/wso2bpel-mgr/src/main/resources/api-doc/lib/handlebars-2.0.0.js:42-43 | Every parameter expression, nested calls included, pushes exactly one entry |
| HandlebarsStack.CallPushes | wso2bpel-ext/wso2bpel-core/wso2bpel-mgr/src/main/resources/api-doc/lib/handlebars-2.0.0.js:42-43 | A helper call consumes exactly its parameters, programs and hash, and pushes one invocation |
| HandlebarsStack.HashPushes | wso2bpel-ext/wso2bpel-core/wso2bpel-mgr/src/main/resources/api-doc/lib/handlebars-2.0.0.js:42-43 | A hash, nested ones included, balances the hash register stack and pushes one literal whose pairs are in reverse order |
| HandlebarsSlots.SlotsCounted | wso2bpel-ext/wso2bpel-core/wso2bpel-mgr/src/main/resources/api-doc/lib/handlebars-2.0.0.js:43 | After any opcode sequence, compiled from a template or not, `stackSlot` is the number of non-literal entries of `compileStack`, which are stack1, stack2, ... in order |
| HandlebarsSlots.PopFailsExactly | wso2bpel-ext/wso2bpel-core/wso2bpel-mgr/src/main/resources/api-doc/lib/handlebars-2.0.0.js:43 | "Invalid stack pop" is thrown exactly when both stacks are empty |
| HandlebarsCorrect.CallEval | wso2bpel-ext/wso2bpel-core/wso2bpel-mgr/src/main/resources/api-doc/lib/handlebars-2.0.0.js:42-43 | A generated call invokes the resolved helper with the values of its parameters and hash, each as the direct evaluator computes it |
| HandlebarsCorrect.AmbiguousEval | wso2bpel-ext/wso2bpel-core/wso2bpel-mgr/src/main/resources/api-doc/lib/handlebars-2.0.0.js:43 | An ambiguous mustache prefers the helper over the field, falls back to `helperMissing`, and leaves in the options register what the block needs |
| HandlebarsCorrect.BlockContributes | wso2bpel-ext/wso2bpel-core/wso2bpel-mgr/src/main/resources/api-doc/lib/handlebars-2.0.0.js:43 | The code of a block of each kind contributes the text of the block's direct evaluation, `blockHelperMissing` included |
| HandlebarsDepths.StatementsOpsDepths | wso2bpel-ext/wso2bpel-core/wso2bpel-mgr/src/main/resources/api-doc/lib/handlebars-2.0.0.js:42 | The depths collected by `addDepth` can be read off the opcodes and the children alone |
| HandlebarsDepths.DepthsExactly | wso2bpel-ext/wso2bpel-core/wso2bpel-mgr/src/main/resources/api-doc/lib/handlebars-2.0.0.js:42 | They are exactly the outer contexts that a statement of the program reads, or one further out that a statement in a block of it reads, at any nesting |
| HandlebarsSharing.SharingExact | wso2bpel-ext/wso2bpel-core/wso2bpel-mgr/src/main/resources/api-doc/lib/handlebars-2.0.0.js:43 | Reusing equal child programs never fails, and yields the very functions compiled one by one if and only if the template is strictly safe: no program needs `depths` only through programs met before, and each agrees on having one statement with the program whose function it gets |
| HandlebarsSharing.SameBuild | wso2bpel-ext/wso2bpel-core/wso2bpel-mgr/src/main/resources/api-doc/lib/handlebars-2.0.0.js:43 | Two programs that `equals` takes for the same compile to the same function exactly when they agree on having one statement, all the way down |
| HandlebarsSharing.SameCodeSameDepths | wso2bpel-ext/wso2bpel-core/wso2bpel-mgr/src/main/resources/api-doc/lib/handlebars-2.0.0.js:43 | Programs with equal opcodes and children read the same depths, although `equals` compares no depths |
| HandlebarsSharing.EqualsIsSameCode | wso2bpel-ext/wso2bpel-core/wso2bpel-mgr/src/main/resources/api-doc/lib/handlebars-2.0.0.js:42 | `equals`, which counts only the first program's children, never reads past the second's on programs of templates, and says whether they have equal opcodes and, child by child, equal children |
| HandlebarsReferences.StatementsRefer | wso2bpel-ext/wso2bpel-core/wso2bpel-mgr/src/main/resources/api-doc/lib/handlebars-2.0.0.js:42 | The opcodes of a program refer to each of its children, under its number, and to nothing else |
| HandlebarsSharing.FlagMatters | wso2bpel-ext/wso2bpel-core/wso2bpel-mgr/src/main/resources/api-doc/lib/handlebars-2.0.0.js:43 | Compiled with the wrong `useDepths`, a program that has children always yields different code |
| HandlebarsWalker.Compiler.ProgramNode | wso2bpel-ext/wso2bpel-core/wso2bpel-mgr/src/main/resources/api-doc/lib/handlebars-2.0.0.js:42 | `Compiler.compile`, statement by statement, produces the opcodes, children and depths of the specification compiler |
| HandlebarsWalker.Compiler.CompileProgram | wso2bpel-ext/wso2bpel-core/wso2bpel-mgr/src/main/resources/api-doc/lib/handlebars-2.0.0.js:42 | A child program is appended under its guid and its depths, less one, are added to the parent's |
| HandlebarsWalker.Compiler.HashNode | wso2bpel-ext/wso2bpel-core/wso2bpel-mgr/src/main/resources/api-doc/lib/handlebars-2.0.0.js:42 | Hash values are pushed first to last and assigned last to first |
| HandlebarsMachine.JavaScriptCompiler.Dispatch | wso2bpel-ext/wso2bpel-core/wso2bpel-mgr/src/main/resources/api-doc/lib/handlebars-2.0.0.js:43 | Each opcode handler, on the object's fields, does exactly one step of the specification machine or fails as it does |
| HandlebarsMachine.JavaScriptCompiler.FlushInline | wso2bpel-ext/wso2bpel-core/wso2bpel-mgr/src/main/resources/api-doc/lib/handlebars-2.0.0.js:43 | Flushing moves every inline entry to the compile stack, giving each non-literal a fresh variable |
| HandlebarsMachine.JavaScriptCompiler.Compile | wso2bpel-ext/wso2bpel-core/wso2bpel-mgr/src/main/resources/api-doc/lib/handlebars-2.0.0.js:43 | The opcode loop on a fresh object returns the code, or the error, of the specification |
| HandlebarsTables.CompileTemplate | wso2bpel-ext/wso2bpel-core/wso2bpel-mgr/src/main/resources/api-doc/lib/handlebars-2.0.0.js:43 | `compile` with `compileChildren`, on new objects and shared tables, returns the function and flag that sharing gives, or the first failure |
| HandlebarsTables.CompileChild | wso2bpel-ext/wso2bpel-core/wso2bpel-mgr/src/main/resources/api-doc/lib/handlebars-2.0.0.js:43 | A child found again takes the function in the table and passes no flag on; a new one is compiled, stored in the slot kept free for it, and passes its flag on |
| HandlebarsTables.EqualPrograms | wso2bpel-ext/wso2bpel-core/wso2bpel-mgr/src/main/resources/api-doc/lib/handlebars-2.0.0.js:42 | The two loops of `equals` give what it says, or its type error where the second program has too few children |
| HandlebarsTables.Context.MatchExistingProgram | wso2bpel-ext/wso2bpel-core/wso2bpel-mgr/src/main/resources/api-doc/lib/handlebars-2.0.0.js:43 | The search in slot order, over a table with holes, finds the one completed program that equals the child, or none |
| HighlightMerge.MergeCorrect | wso2bpel-ext/wso2bpel-core/wso2bpel-mgr/src/main/resources/api-doc/lib/highlight.7.3.pack.js:16 | Merging any two nested, ordered event streams never runs out of open tags, ends with none open, keeps the text, and puts around each character exactly the nodes both streams have open there |
| HighlightMerge.MergeFaithful | wso2bpel-ext/wso2bpel-core/wso2bpel-mgr/src/main/resources/api-doc/lib/highlight.7.3.pack.js:16 | The same from any point inside a run: the open tags of the output are the stack `r`, which is the union of the two streams' stacks |
| HighlightMerge.RendersAll | wso2bpel-ext/wso2bpel-core/wso2bpel-mgr/src/main/resources/api-doc/lib/highlight.7.3.pack.js:16 | What a correct merge means character by character for a reader of the tags |
| HighlightMerge.MergeStreams | wso2bpel-ext/wso2bpel-core/wso2bpel-mgr/src/main/resources/api-doc/lib/highlight.7.3.pack.js:16 | `j`, with its loops over the spliced streams and the stack, computes the specified merge or raises the same type error |
| HighlightMerge.CloseAndReopen | wso2bpel-ext/wso2bpel-core/wso2bpel-mgr/src/main/resources/api-doc/lib/highlight.7.3.pack.js:16 | A stop event closes the tags down to its node, last first, and reopens those above it in order |
| HighlightMerge.SameStretch | wso2bpel-ext/wso2bpel-core/wso2bpel-mgr/src/main/resources/api-doc/lib/highlight.7.3.pack.js:16 | Of two elements over one stretch the first stream's is outside, and neither is closed and reopened |
| HighlightMerge.NextStretch | wso2bpel-ext/wso2bpel-core/wso2bpel-mgr/src/main/resources/api-doc/lib/highlight.7.3.pack.js:16 | Where an element of one stream ends and one of the other begins, whichever stream it is, the one is closed before the other is opened, and neither is reopened |
| HighlightStream.TreesMerge | wso2bpel-ext/wso2bpel-core/wso2bpel-mgr/src/main/resources/api-doc/lib/highlight.7.3.pack.js:16 | For any two DOM trees and any text: merging their streams never fails, and read back it has no tag left open, spells the text, and has around each character exactly the elements of both trees that contain the character at that place of their own text |
| HighlightStream.AroundIsAncestors | wso2bpel-ext/wso2bpel-core/wso2bpel-mgr/src/main/resources/api-doc/lib/highlight.7.3.pack.js:16 | At every offset the stream of a tree has open exactly the elements that contain that character of its text, text nodes and one newline for each `BR`, outermost first, and none beyond the text |
| HighlightStream.OffsetsCount | wso2bpel-ext/wso2bpel-core/wso2bpel-mgr/src/main/resources/api-doc/lib/highlight.7.3.pack.js:16 | The offset after a forest is the one before it plus the length of its text |
| HighlightStream.StreamNests | wso2bpel-ext/wso2bpel-core/wso2bpel-mgr/src/main/resources/api-doc/lib/highlight.7.3.pack.js:16 | The stream of a forest opens and closes its own nodes in a nested way, whatever follows it |
| HighlightStream.StreamSorts | wso2bpel-ext/wso2bpel-core/wso2bpel-mgr/src/main/resources/api-doc/lib/highlight.7.3.pack.js:16 | The offsets of a stream never decrease |
| HighlightStream.NodeStream.Walk | wso2bpel-ext/wso2bpel-core/wso2bpel-mgr/src/main/resources/api-doc/lib/highlight.7.3.pack.js:16 | The recursive walk over a shared event list pushes exactly the stream of the forest and returns the offset moved on by the length of its text |
| HighlightStream.EscapeIsOnePass | wso2bpel-ext/wso2bpel-core/wso2bpel-mgr/src/main/resources/api-doc/lib/highlight.7.3.pack.js:16 | The three replacements in sequence are one pass: none touches what an earlier one wrote |
| HighlightStream.VisibleIsEscaped | wso2bpel-ext/wso2bpel-core/wso2bpel-mgr/src/main/resources/api-doc/lib/highlight.7.3.pack.js:16 | The merged output without its tags is the escaped text |
| MarkedLexer.Marked | wso2bpel-ext/wso2bpel-core/wso2bpel-mgr/src/main/resources/api-doc/lib/marked.js:144-451 | Whatever the rules match, if each consumes a non-empty prefix and hands down shorter text: the prepared text gives tokens, rule by rule, or the error; if it does, there is a document with just these tokens, and the output is its rendering with adjacent texts joined |
| MarkedLexer.PreparedIsPlain | wso2bpel-ext/wso2bpel-core/wso2bpel-mgr/src/main/resources/api-doc/lib/marked.js:144-152 | The replacements before lexing leave no carriage return, tab, non-breaking space or symbol for newline, and change a text exactly when it has one |
| MarkedLexer.PreparedStep | wso2bpel-ext/wso2bpel-core/wso2bpel-mgr/src/main/resources/api-doc/lib/marked.js:144-152 | And in place: after any plain text each line end becomes one newline, a carriage return with its newline as one, a tab four spaces, a non-breaking space a space, the symbol for newline a newline, and the rest is prepared on its own |
| MarkedLexer.Lexer.Lex | wso2bpel-ext/wso2bpel-core/wso2bpel-mgr/src/main/resources/api-doc/lib/marked.js:158-451 | The lexer terminates; it ends in the error exactly when no tokens can be derived from the rules that match, and else adds the derived ones: each list its own flag, its items in order under their looseness, lexed below the top level, each quote its inner text as part of a quote, leaves and texts their tokens, definitions none, more than one newline a space |
| MarkedLexer.LexedExactly | wso2bpel-ext/wso2bpel-core/wso2bpel-mgr/src/main/resources/api-doc/lib/marked.js:158-451 | The derived tokens are the flattening of one block tree, so the stream is well bracketed |
| MarkedLexer.LexedOnce | wso2bpel-ext/wso2bpel-core/wso2bpel-mgr/src/main/resources/api-doc/lib/marked.js:158-451 | At most one token list is derived from a text |
| MarkedLexer.TreeProper | wso2bpel-ext/wso2bpel-core/wso2bpel-mgr/src/main/resources/api-doc/lib/marked.js:158-451 | Every tree the lexer builds is proper: the parser's assumptions about its tokens hold |
| MarkedBlocks.ParseRenders | wso2bpel-ext/wso2bpel-core/wso2bpel-mgr/src/main/resources/api-doc/lib/marked.js:927-1079 | For every document the parser consumes its flat stream exactly and renders the tree it came from |
| MarkedBlocks.BodyRenders | wso2bpel-ext/wso2bpel-core/wso2bpel-mgr/src/main/resources/api-doc/lib/marked.js:973-1079 | A container's loop stops exactly at its own end token and renders its children, tight or loose |
| MarkedBlocks.RenderJoins | wso2bpel-ext/wso2bpel-core/wso2bpel-mgr/src/main/resources/api-doc/lib/marked.js:959-971 | Rendering a list is concatenating the renderings of its blocks once every run of texts is joined into one |
| MarkedBlocks.JoinJoins | wso2bpel-ext/wso2bpel-core/wso2bpel-mgr/src/main/resources/api-doc/lib/marked.js:959-971 | Joining leaves no two adjacent texts and does not change the kind of the first block |
| MarkedParser.Parser.ParseAll | wso2bpel-ext/wso2bpel-core/wso2bpel-mgr/src/main/resources/api-doc/lib/marked.js:927-937 | The parser object, popping its reversed list, renders what the specification parser renders or reads past the end when it does |
| MarkedParser.Parser.ParseBody | wso2bpel-ext/wso2bpel-core/wso2bpel-mgr/src/main/resources/api-doc/lib/marked.js:1035-1079 | The loop shared by the containers takes tokens up to its end token |
| PathNormalize.NormalIsForward | wso2bpel-ext/wso2bpel-core/wso2bpel-mgr/src/main/resources/api-doc/lib/shred.bundle.js:233-257 | For every segment list and both settings, the backward pass with its `up` counter equals forward resolution on a stack |
| PathNormalize.BackwardIsForward | wso2bpel-ext/wso2bpel-core/wso2bpel-mgr/src/main/resources/api-doc/lib/shred.bundle.js:233-257 | Entered with `up` pending, the backward pass goes forward and then up that many times |
| PathNormalize.NormalResolves | wso2bpel-ext/wso2bpel-core/wso2bpel-mgr/src/main/resources/api-doc/lib/shred.bundle.js:233-257 | Normalised segments lead where the segments led, from every directory or from the root |
| PathNormalize.NormalizeArray | wso2bpel-ext/wso2bpel-core/wso2bpel-mgr/src/main/resources/api-doc/lib/shred.bundle.js:233-257 | The loop that splices the list in place, from its end, computes that pass |
| PathNormalize.NormalizeIdempotent | wso2bpel-ext/wso2bpel-core/wso2bpel-mgr/src/main/resources/api-doc/lib/shred.bundle.js:296-313 | Normalising a normalised path changes nothing, for every path |
| PathNormalize.NormalizeResolves | wso2bpel-ext/wso2bpel-core/wso2bpel-mgr/src/main/resources/api-doc/lib/shred.bundle.js:296-313 | The normalised path leads where the path led |
| PathNormalize.NormalizeShape | wso2bpel-ext/wso2bpel-core/wso2bpel-mgr/src/main/resources/api-doc/lib/shred.bundle.js:296-313 | It stays absolute or relative, its segments are the normal ones, and it ends in a slash exactly when the path does or when it is the root |
| DoubleByteCodec.RoundTripExact | wso2bpel-ext/wso2bpel-core/wso2bpel-mgr/src/main/resources/api-doc/lib/shred.bundle.js:2343-2404 | Decoding undoes encoding exactly on the texts made of ASCII and of units the table maps, and every encoded cell fits a byte |
| DoubleByteCodec.RoundTripAlways | wso2bpel-ext/wso2bpel-core/wso2bpel-mgr/src/main/resources/api-doc/lib/shred.bundle.js:2343-2404 | What every text becomes, encoded and decoded: a unit without a code comes back as U+FFFD, or as two zeros where U+FFFD has no code either |
| DoubleByteCodec.DecodeJoins | wso2bpel-ext/wso2bpel-core/wso2bpel-mgr/src/main/resources/api-doc/lib/shred.bundle.js:2379-2402 | After whole characters decoding starts afresh, whatever follows |
| DoubleByteCodec.DecodeOne | wso2bpel-ext/wso2bpel-core/wso2bpel-mgr/src/main/resources/api-doc/lib/shred.bundle.js:2379-2402 | A pair the table does not map, and a lead byte alone, decode to U+FFFD |
| DoubleByteCodec.BuildReverse | wso2bpel-ext/wso2bpel-core/wso2bpel-mgr/src/main/resources/api-doc/lib/shred.bundle.js:2348-2353 | Whatever the order of the keys, the reverse table holds for each unit of the table one of its codes |
| DoubleByteCodec.ToEncoding | wso2bpel-ext/wso2bpel-core/wso2bpel-mgr/src/main/resources/api-doc/lib/shred.bundle.js:2356-2377 | The sizing pass allocates exactly the cells the filling pass writes, and these are the encoding |
| DoubleByteCodec.FromEncoding | wso2bpel-ext/wso2bpel-core/wso2bpel-mgr/src/main/resources/api-doc/lib/shred.bundle.js:2379-2402 | The same for decoding, truncated input included |
| DoubleByteCodec.CountUnits | wso2bpel-ext/wso2bpel-core/wso2bpel-mgr/src/main/resources/api-doc/lib/shred.bundle.js:2379-2390 | The sizing pass counts exactly the units decoded, also when a lead byte ends the input |
| CookieJars.TidyExactly | wso2bpel-ext/wso2bpel-core/wso2bpel-mgr/src/main/resources/api-doc/lib/shred.bundle.js:687-730 | For any collision relation: every run of writes leaves non-empty lists of their own name without colliding cookies if and only if the relation is transitive on the cookies written; it makes no difference whether the clock may run back |
| CookieJars.CollidesExactly | wso2bpel-ext/wso2bpel-core/wso2bpel-mgr/src/main/resources/api-doc/lib/shred.bundle.js:670-692 | `collidesWith` in terms of prefixes and ends: the path is missing or a prefix of the other's, and the domain is missing, the same, or a dotted one whose tail ends the other's and is found nowhere before its end |
| CookieJars.SetEffect | wso2bpel-ext/wso2bpel-core/wso2bpel-mgr/src/main/resources/api-doc/lib/shred.bundle.js:697-730 | Only the list of the cookie's name changes: the first cookie that covers it is replaced, or dropped if the new one has expired; without one a live cookie goes to the end |
| CookieJars.RunKeepsTidy | wso2bpel-ext/wso2bpel-core/wso2bpel-mgr/src/main/resources/api-doc/lib/shred.bundle.js:697-730 | Transitivity alone keeps every jar tidy, over all runs and clocks |
| CookieJars.TameIsTransitive | wso2bpel-ext/wso2bpel-core/wso2bpel-mgr/src/main/resources/api-doc/lib/shred.bundle.js:670-687 | `collidesWith` is transitive on cookies whose dotted domains' tails occur in other domains only as their suffix and do not start with a dot |
| CookieJars.BrokenRun | wso2bpel-ext/wso2bpel-core/wso2bpel-mgr/src/main/resources/api-doc/lib/shred.bundle.js:697-730 | Where the relation is not transitive, three writes at one time leave two colliding cookies |
| CookieJars.RepeatedTailBreaks | wso2bpel-ext/wso2bpel-core/wso2bpel-mgr/src/main/resources/api-doc/lib/shred.bundle.js:680-686 | A tail repeated inside a host name makes `indexOf` find the wrong occurrence and breaks transitivity |
| CookieJars.DoubleDotBreaks | wso2bpel-ext/wso2bpel-core/wso2bpel-mgr/src/main/resources/api-doc/lib/shred.bundle.js:680-686 | So does a domain that starts with two dots |
| CookieJars.SetThenGet | wso2bpel-ext/wso2bpel-core/wso2bpel-mgr/src/main/resources/api-doc/lib/shred.bundle.js:697-752 | Whatever was in the jar, a live cookie just stored is what a request in its own scope gets |
| CookieJars.CookieJar.SetCookie | wso2bpel-ext/wso2bpel-core/wso2bpel-mgr/src/main/resources/api-doc/lib/shred.bundle.js:697-730 | An expired cookie removes the first cookie it collides with, or nothing; a live one replaces it or is appended; the rest of the jar is unchanged |
| CookieJars.CookieJar.GetCookie | wso2bpel-ext/wso2bpel-core/wso2bpel-mgr/src/main/resources/api-doc/lib/shred.bundle.js:732-752 | The first cookie of the name that has not expired, is not kept from this script or this insecure connection, and covers the access by its path and domain; none exactly when no cookie of the list is like that |
| XhrResponse.ChunksAreText | wso2bpel-ext/wso2bpel-core/wso2bpel-mgr/src/main/resources/api-doc/lib/shred.bundle.js:2688-2740 | For every run with growing text, whatever else is unreadable and whatever other responses do to the capability flags, the emitted chunks concatenate to the text up to `offset` |
| XhrResponse.ChunksAreAll | wso2bpel-ext/wso2bpel-core/wso2bpel-mgr/src/main/resources/api-doc/lib/shred.bundle.js:2688-2740 | After a call that finds text to write, in state 3 or 4, all of it has been emitted |
| XhrResponse.ChunksHaveText | wso2bpel-ext/wso2bpel-core/wso2bpel-mgr/src/main/resources/api-doc/lib/shred.bundle.js:2733-2740 | No run emits an empty chunk |
| XhrResponse.ReadyExactly | wso2bpel-ext/wso2bpel-core/wso2bpel-mgr/src/main/resources/api-doc/lib/shred.bundle.js:2639-2727 | For every run at all, with any flags: it ends in an exception exactly when some call of state 4 finds no text, or no status before one is known; otherwise 'ready' is emitted once for each call that acts, is told, and either is of state 2 or comes while no nonzero status is known, and never else |
| XhrResponse.StatusExactly | wso2bpel-ext/wso2bpel-core/wso2bpel-mgr/src/main/resources/api-doc/lib/shred.bundle.js:2639-2727 | After any run `statusCode` is the status read by the last call that stores one, state 2 always and the others while no nonzero one is known, and 0 if none did |
| XhrResponse.RegularAnnounces | wso2bpel-ext/wso2bpel-core/wso2bpel-mgr/src/main/resources/api-doc/lib/shred.bundle.js:2639-2727 | In runs whose states never go back, with one state 2 and readable status and text, a call announces exactly when it acts, is told, and no call before it has set a nonzero status |
| XhrResponse.NonzeroReadyOnce | wso2bpel-ext/wso2bpel-core/wso2bpel-mgr/src/main/resources/api-doc/lib/shred.bundle.js:2639-2727 | In such a run whose first acting call has a nonzero status, 'ready' comes once if that call is told and never if it is not |
| XhrResponse.ReadyComesFirst | wso2bpel-ext/wso2bpel-core/wso2bpel-mgr/src/main/resources/api-doc/lib/shred.bundle.js:2688-2727 | When the first call that acts is told, 'ready' is the first thing emitted |
| XhrResponse.ZeroStatusRepeats | wso2bpel-ext/wso2bpel-core/wso2bpel-mgr/src/main/resources/api-doc/lib/shred.bundle.js:2701-2714 | With status 0, n events of state 3 emit 'ready' n times |
| XhrResponse.DoneIsComplete | wso2bpel-ext/wso2bpel-core/wso2bpel-mgr/src/main/resources/api-doc/lib/shred.bundle.js:2714-2740 | A run that reaches state 4 has emitted the whole response text, and then its end or its error |
| XhrResponse.AssembleBody | wso2bpel-ext/wso2bpel-core/wso2bpel-mgr/src/main/resources/api-doc/lib/shred.bundle.js:1805-1831 | The buffer of the summed length, filled chunk by chunk, holds every chunk in order |
| XhrResponse.Response.HandleEvent | wso2bpel-ext/wso2bpel-core/wso2bpel-mgr/src/main/resources/api-doc/lib/shred.bundle.js:2688-2740 | The object is always where its calls lead: a call fails exactly when it throws, 'ready' has been emitted once per announcing call, growing text has been emitted up to `offset`, wholly where there was text to write, and each shared flag is cleared by the failure to read what it stands for |
| SwaggerSignature.WalkIsReachability | wso2bpel-ext/wso2bpel-core/wso2bpel-mgr/src/main/resources/api-doc/lib/swagger-client.js:1540-1565 | On any models, cyclic or not, the walk terminates and describes exactly the models reachable from the root, each once, the root first |
| SwaggerSignature.WalkAdds | wso2bpel-ext/wso2bpel-core/wso2bpel-mgr/src/main/resources/api-doc/lib/swagger-client.js:1540-1565 | With models ignored already, a walk adds to the shared map only new models, each once, and is closed under references outside it |
| SwaggerSignature.WalkReaches | wso2bpel-ext/wso2bpel-core/wso2bpel-mgr/src/main/resources/api-doc/lib/swagger-client.js:1540-1565 | Everything a walk describes can be reached from its root |
| SwaggerSignature.GetMockSignature | wso2bpel-ext/wso2bpel-core/wso2bpel-mgr/src/main/resources/api-doc/lib/swagger-client.js:1540-1565 | The recursive method on the shared ignore map writes the descriptions of that walk in order and leaves its map |
| SwaggerSignature.TextShows | wso2bpel-ext/wso2bpel-core/wso2bpel-mgr/src/main/resources/api-doc/lib/swagger-client.js:1540-1565 | Each description is the model's name in its mark-up and its properties' texts, joined, in a block |
| SwaggerSignature.JoinGrows | wso2bpel-ext/wso2bpel-core/wso2bpel-mgr/src/main/resources/api-doc/lib/swagger-client.js:1553 | The separator stands between any two property texts and nowhere else |
| SwaggerSignature.MockSignature | wso2bpel-ext/wso2bpel-core/wso2bpel-mgr/src/main/resources/api-doc/lib/swagger-client.js:1540-1548 | Called without a map it describes the walk from an empty one |
| Throttle.InvocationsSpaced | wso2bpel-ext/wso2bpel-core/wso2bpel-mgr/src/main/resources/api-doc/lib/underscore-min.js:20 | In every run of calls and late timers, for every wait and both options, the i-th and j-th invocations are at least (j - i) waits apart |
| Throttle.RunKeeps | wso2bpel-ext/wso2bpel-core/wso2bpel-mgr/src/main/resources/api-doc/lib/underscore-min.js:20 | The invariant between any two events of every run: exactly the remembered timeout is pending, due `wait` after the remembered time, arguments saved are the latest, none are lost with trailing calls, and invocations are spaced |
| Throttle.CallServed | wso2bpel-ext/wso2bpel-core/wso2bpel-mgr/src/main/resources/api-doc/lib/underscore-min.js:20 | With trailing calls, every call invokes now or leaves a timer due within `wait` that will use its arguments |
| Throttle.FireUsesLatest | wso2bpel-ext/wso2bpel-core/wso2bpel-mgr/src/main/resources/api-doc/lib/underscore-min.js:20 | A timer that fires invokes with the arguments of the latest call before it |
| Throttle.LeadingImmediate | wso2bpel-ext/wso2bpel-core/wso2bpel-mgr/src/main/resources/api-doc/lib/underscore-min.js:20 | With leading calls, a call invokes at once exactly when `wait` has passed since the last invocation or, before any, since time 0 |
| Throttle.StretchImmediate | wso2bpel-ext/wso2bpel-core/wso2bpel-mgr/src/main/resources/api-doc/lib/underscore-min.js:20 | Without leading calls, a call invokes at once exactly when it ends a stretch of `wait` that an earlier call began; a timer that fires ends the stretch, so never right after one |
| Throttle.Throttled.Call | wso2bpel-ext/wso2bpel-core/wso2bpel-mgr/src/main/resources/api-doc/lib/underscore-min.js:20 | On the closure's variables: keeps the invariant of `RunKeeps`, invokes or, with trailing calls, leaves a timer due within `wait` that holds the arguments, and with leading calls invokes exactly when `wait` has passed |
| Throttle.Throttled.Later | wso2bpel-ext/wso2bpel-core/wso2bpel-mgr/src/main/resources/api-doc/lib/underscore-min.js:20 | Keeps the invariant, invokes with the arguments of the latest call and leaves no timer |
| LruCache.HoldsMostRecent | wso2bpel-ext/wso2bpel-core/wso2bpel-mgr/src/main/java/org/openo/carbon/bpel/util/LRULinkedHashMap.java:40-77 | After every run of puts and gets the map holds exactly the `maxCapacity` most recently used distinct keys, all of them if fewer, most recent first |
| LruCache.FindsLastPut | wso2bpel-ext/wso2bpel-core/wso2bpel-mgr/src/main/java/org/openo/carbon/bpel/util/LRULinkedHashMap.java:61-77 | A key that is found has the value of its last put |
| LruCache.LruMap.Insert | wso2bpel-ext/wso2bpel-core/wso2bpel-mgr/src/main/java/org/openo/carbon/bpel/util/LRULinkedHashMap.java:71-77 | `put` returns the previous value, moves a known key to the front, and evicts at most the eldest entry, only for a new key |
| LruCache.LruMap.Get | wso2bpel-ext/wso2bpel-core/wso2bpel-mgr/src/main/java/org/openo/carbon/bpel/util/LRULinkedHashMap.java:61-68 | `get` finds what is there and makes it the most recent entry |
| WsdlCache.CacheIsTransparent | wso2bpel-ext/wso2bpel-core/wso2bpel-mgr/src/main/java/org/openo/carbon/bpel/util/SoapUtil.java:74-122 | After any requests, with evictions and removals, a deterministic loader's cache answers exactly what the loader would: the operation of the first interface that has the name, "unsupported" if none has, or the failed import |
| WsdlCache.OperationHonest | wso2bpel-ext/wso2bpel-core/wso2bpel-mgr/src/main/java/org/openo/carbon/bpel/util/SoapUtil.java:74-95 | An operation is that of the first interface with its name in some import of its document, and "unsupported" is only said when no interface of the freshest import has the name |
| WsdlCache.ServeAllHonest | wso2bpel-ext/wso2bpel-core/wso2bpel-mgr/src/main/java/org/openo/carbon/bpel/util/SoapUtil.java:74-122 | After any requests every cached document is what some import of it answered |
| WsdlCache.ServeAllBounded | wso2bpel-ext/wso2bpel-core/wso2bpel-mgr/src/main/java/org/openo/carbon/bpel/util/SoapUtil.java:40-122 | No run of requests keeps more than 256 documents |
| WsdlCache.LastIsCached | wso2bpel-ext/wso2bpel-core/wso2bpel-mgr/src/main/java/org/openo/carbon/bpel/util/SoapUtil.java:74-122 | A document that can be imported is cached after any request for it, and asking again imports nothing |
| WsdlCache.FoundExactly | wso2bpel-ext/wso2bpel-core/wso2bpel-mgr/src/main/java/org/openo/carbon/bpel/util/SoapUtil.java:77-91 | The search finds an operation if and only if some interface has the name, and then that of the first such interface |
| WsdlCache.SoapUtil.GetWsdlInterfaces | wso2bpel-ext/wso2bpel-core/wso2bpel-mgr/src/main/java/org/openo/carbon/bpel/util/SoapUtil.java:104-122 | The cached interfaces, or one import that is cached when it succeeds; a failed import caches nothing |
| WsdlCache.SoapUtil.GetWsdlOperation | wso2bpel-ext/wso2bpel-core/wso2bpel-mgr/src/main/java/org/openo/carbon/bpel/util/SoapUtil.java:74-95 | The operation that the cached document offers, without an import; else the document is removed and imported afresh: the operation of its first interface that has the name, "unsupported" only where no interface of the last import has it |
| BpelInjection.EndsExactly | wso2bpel-ext/wso2bpel-core/BPEL4RESTLight/src/main/java/de/unistuttgart/iaas/bpel/util/BPELVariableInjectionUtil.java:81-114 | When code and contents hold no marker that is unclosed, nested or put together by accident: the loop ends at all, and with the text or the fault that following the references from left to right gives, unless a name recurs on its own path before an unreadable variable is met; then it runs for ever |
| BpelInjection.LoopIsExpansion | wso2bpel-ext/wso2bpel-core/BPEL4RESTLight/src/main/java/de/unistuttgart/iaas/bpel/util/BPELVariableInjectionUtil.java:81-114 | Under the same condition the loop ends, with a text or with a fault, exactly as the expansion of some finite depth does |
| BpelInjection.FollowDecides | wso2bpel-ext/wso2bpel-core/BPEL4RESTLight/src/main/java/de/unistuttgart/iaas/bpel/util/BPELVariableInjectionUtil.java:81-114 | As many levels of expansion as there are readable names decide it: where they are too few, any number is |
| BpelInjection.LoopIsOnePass | wso2bpel-ext/wso2bpel-core/BPEL4RESTLight/src/main/java/de/unistuttgart/iaas/bpel/util/BPELVariableInjectionUtil.java:81-114 | With contents without '$' the rounds amount to one simultaneous substitution of all markers, or to a fault when a variable cannot be read |
| BpelInjection.EndsWithoutDollars | wso2bpel-ext/wso2bpel-core/BPEL4RESTLight/src/main/java/de/unistuttgart/iaas/bpel/util/BPELVariableInjectionUtil.java:90-114 | With contents without '$' the loop ends on every code, in no more rounds than the code has '$' |
| BpelInjection.ReplaceIsSubst | wso2bpel-ext/wso2bpel-core/BPEL4RESTLight/src/main/java/de/unistuttgart/iaas/bpel/util/BPELVariableInjectionUtil.java:108 | Replacing one marker's text everywhere is substituting that variable and no other |
| BpelInjection.FirstMarker | wso2bpel-ext/wso2bpel-core/BPEL4RESTLight/src/main/java/de/unistuttgart/iaas/bpel/util/BPELVariableInjectionUtil.java:90-98 | The two index searches find the name of the first variable |
| BpelInjection.VarSpelled | wso2bpel-ext/wso2bpel-core/BPEL4RESTLight/src/main/java/de/unistuttgart/iaas/bpel/util/BPELVariableInjectionUtil.java:90-110 | A variable among the pieces of a code is spelled `$bpelvar[name]` |
| BpelInjection.SelfReferenceNeverEnds | wso2bpel-ext/wso2bpel-core/BPEL4RESTLight/src/main/java/de/unistuttgart/iaas/bpel/util/BPELVariableInjectionUtil.java:90-114 | A variable whose content is its own marker keeps the loop going for any number of rounds |
| BpelInjection.ReplaceVariables | wso2bpel-ext/wso2bpel-core/BPEL4RESTLight/src/main/java/de/unistuttgart/iaas/bpel/util/BPELVariableInjectionUtil.java:81-136 | The loop ends as its rounds do: with the replaced code, with a fault, or past the end of the code when a marker is not closed |
| PackageLock.ExactWhenNobodySteals | wso2bpel-ext/wso2bpel-core/wso2bpel-mgr/src/main/java/org/openo/carbon/bpel/resources/BpsPackage.java:168-262 | As written: over every interleaving of uploads and deletes, a name is in the set exactly while one request owns it, at every point of the run, if and only if no refused request releases a taken name |
| PackageLock.ExclusionExactly | wso2bpel-ext/wso2bpel-core/wso2bpel-mgr/src/main/java/org/openo/carbon/bpel/resources/BpsPackage.java:168-262 | As written: every interleaving keeps at most one owner per name if and only if no three requests ask for one name |
| PackageLock.SetExactly | wso2bpel-ext/wso2bpel-core/wso2bpel-mgr/src/main/java/org/openo/carbon/bpel/resources/BpsPackage.java:168-262 | As written: every interleaving keeps the set exact if and only if no two requests ask for one name |
| PackageLock.OwnerOnlyIsExact | wso2bpel-ext/wso2bpel-core/wso2bpel-mgr/src/main/java/org/openo/carbon/bpel/resources/BpsPackage.java:168-188 | If only the owner released, the set would be exact after every run |
| PackageLock.StolenLock | wso2bpel-ext/wso2bpel-core/wso2bpel-mgr/src/main/java/org/openo/carbon/bpel/resources/BpsPackage.java:216-262 | The run in which a refused request frees the owner's lock and a third takes it |
| PackageLock.BpsPackage.LockPackageName | wso2bpel-ext/wso2bpel-core/wso2bpel-mgr/src/main/java/org/openo/carbon/bpel/resources/BpsPackage.java:168-177 | Succeeds exactly when the name was free; the name is taken afterwards either way |
| PackageLock.BpsPackage.UnlockPackageName | wso2bpel-ext/wso2bpel-core/wso2bpel-mgr/src/main/java/org/openo/carbon/bpel/resources/BpsPackage.java:179-188 | Succeeds exactly when the name was taken; it is free afterwards either way |
| PackageLock.BpsPackage.Handle | wso2bpel-ext/wso2bpel-core/wso2bpel-mgr/src/main/java/org/openo/carbon/bpel/resources/BpsPackage.java:196-267 | A request alone, an upload of name.zip as a delete of name: refused with the general error code exactly when it has no name that is free, else answered by how its work went, with the code of each failure; its name is free afterwards even if another request held it |
| JsonXmlReading.ResponseReadExactly | wso2bpel-ext/wso2bpel-core/BPEL4RESTLight/src/main/java/org/opentosca/bpel4restlight/rest/LowLevelRestApi.java:99-145 | For every response, empty and unparsable ones included, a tag-stack reader of XML 1.0 (sections 2.1 to 2.4, 2.7, 2.11) recovers its wrapper if and only if keys are names and texts can be carried |
| JsonXmlReading.ReadBackExactly | wso2bpel-ext/wso2bpel-core/BPEL4RESTLight/src/main/java/org/opentosca/bpel4restlight/rest/LowLevelRestApi.java:148-180 | The same for any printed tree of elements and CDATA sections |
| JsonXmlReading.IntendedIsSound | wso2bpel-ext/wso2bpel-core/BPEL4RESTLight/src/main/java/org/opentosca/bpel4restlight/rest/LowLevelRestApi.java:148-180 | The condition on the tree is the condition on the JSON value's keys and texts |
| JsonXmlReading.ReadIsSound | wso2bpel-ext/wso2bpel-core/BPEL4RESTLight/src/main/java/org/opentosca/bpel4restlight/rest/LowLevelRestApi.java:148-180 | Whatever the reader accepts has names as tags and no section with an end mark in it |
| JsonXml.Json2Xml | wso2bpel-ext/wso2bpel-core/BPEL4RESTLight/src/main/java/org/opentosca/bpel4restlight/rest/LowLevelRestApi.java:148-180 | The recursive printer appends to the shared builder exactly the text of the element that stands for the value |
| JsonXml.IntendedStands | wso2bpel-ext/wso2bpel-core/BPEL4RESTLight/src/main/java/org/opentosca/bpel4restlight/rest/LowLevelRestApi.java:148-180 | Every value stands for one element: the error element for null, a section for a scalar, and for a list or an object one kid for each item or entry, in order, under its key |
| JsonXml.GetResponseBody | wso2bpel-ext/wso2bpel-core/BPEL4RESTLight/src/main/java/org/opentosca/bpel4restlight/rest/LowLevelRestApi.java:99-145 | The wrapper: prolog, root, and inside it the element that stands for the value, the raw response in a section, or nothing; other media types pass unchanged, and a request without one is an error |
| I18nIndex.OrderFreeExactly | baseservice-i18n/src/main/java/org/openo/baseservice/i18n/I18nContainer.java:57-124 | The index is the same in every enumeration order of the files if and only if no two files give one label of one resource and locale different values |
| I18nIndex.DistinctPlacesOrderFree | baseservice-i18n/src/main/java/org/openo/baseservice/i18n/I18nContainer.java:57-124 | In particular when no two files share name and locale |
| I18nIndex.LastFileWins | baseservice-i18n/src/main/java/org/openo/baseservice/i18n/I18nContainer.java:105-120 | The index holds for each name, label and locale the value of the last file that has it, and nothing else |
| I18nIndex.GenerateI18ns | baseservice-i18n/src/main/java/org/openo/baseservice/i18n/I18nContainer.java:57-135 | The nested loops, over hash maps in any order, build an index that has for each resource, locale and label the text or null of the last file that holds it, files with other fields and unreadable ones skipped; or they end with the exception of the first file that raises one |
| I18nIndex.IndexAnswers | baseservice-i18n/src/main/java/org/openo/baseservice/i18n/I18nContainer.java:57-135 | Any index built has an entry exactly for what some file of texts and nulls holds, named for that resource and locale, and it is that of the last such file |
| I18nIndex.FailsFirst | baseservice-i18n/src/main/java/org/openo/baseservice/i18n/I18nContainer.java:57-135 | Generation fails exactly when some file fails, a null document or a name that cannot be taken apart, and with the exception of the first |
| I18nIndex.ScannedSucceed | baseservice-i18n/src/main/java/org/openo/baseservice/i18n/I18nContainer.java:57-135 | On the paths that the scanner finds no index is out of bounds: generation ends in an exception exactly when a document is null |
| I18nNames.ScannedInBounds | baseservice-i18n/src/main/java/org/openo/baseservice/i18n/I18nContainer.java:76-104 | A file name that matches the scanner's pattern is always taken apart within bounds |
| I18nNames.NamedBack | baseservice-i18n/src/main/java/org/openo/baseservice/i18n/I18nContainer.java:76-104 | A file named for a resource, a language and perhaps a country, after a dash or an underscore, is entered under exactly these, unless the name makes the mark occur earlier |
| I18nLookup.FoundBackExactly | baseservice-i18n/src/main/java/org/openo/baseservice/i18n/I18nImpl.java:39-117 | A label is found back from its value, for every locale whose text begins with its language, through every fallback and for every map order, if and only if none of its values belongs to another label |
| I18nLookup.EveryValueHasKey | baseservice-i18n/src/main/java/org/openo/baseservice/i18n/I18nImpl.java:46-55 | Every value is a key of the reverse map and leads to a label whose item contains it |
| I18nLookup.I18nImpl.constructor | baseservice-i18n/src/main/java/org/openo/baseservice/i18n/I18nImpl.java:39-63 | The nested loops fill both maps; a value held by several labels leads to the last one enumerated |
| I18nLookup.I18nImpl.GetLabelValue | baseservice-i18n/src/main/java/org/openo/baseservice/i18n/I18nImpl.java:75-82 | The value at the locale the transfer chooses, and null for an unknown label |
| I18nLookup.I18nImpl.GetKeyFromValue | baseservice-i18n/src/main/java/org/openo/baseservice/i18n/I18nImpl.java:114-117 | The label a value leads to in the reverse map, or null |
| I18nLookup.Transfer | baseservice-i18n/src/main/java/org/openo/baseservice/i18n/I18nJsonUtil.java:114-152 | Exact locale, then language, then a locale of that language, then the default order, then any; null exactly for no locales |
| LogId.SearchFindsExactly | logging-sdk/src/main/java/org/openo/log/impl/LogIdTool.java:34-66 | For every long time: every id of it lies between the two search bounds, wrapping included, if and only if the time is not negative and below 10^13, or is -10^12 or less and 2^59 divides the sum of its absolute value and the last 13 digits of that |
| LogId.SearchFindsOnly | logging-sdk/src/main/java/org/openo/log/impl/LogIdTool.java:34-66 | With times of up to 13 digits a search from one time to another finds an id if and only if its time lies between them |
| LogId.GetRandomID | logging-sdk/src/main/java/org/openo/log/impl/LogIdTool.java:34-55 | For every long time and every seed the padded string parses without overflow to time * 100000 + seed, to that of the last 13 digits for longer times, and to time * 100000 - seed just before the epoch |
| LogId.IdsAreOrdered | logging-sdk/src/main/java/org/openo/log/impl/LogIdTool.java:34-66 | Ids of earlier times are smaller whatever the seeds, and an id gives back its time and seed |
| LogId.LastThirteen | logging-sdk/src/main/java/org/openo/log/impl/LogIdTool.java:36-38 | The last 13 digits of a number are its remainder by 10^13 |

## Left out

- Handlebars: the generated JavaScript text and the joining of adjacent append statements in `mergeSource`; expressions and statements are data.
- Handlebars: the options `stringParams`, `trackIds`, `compat` and `knownHelpersOnly`, helpers named by `@data` (a type error in the source).
- Handlebars: exceptions that helpers, lambdas and partials raise themselves. The one exception modelled is that of reading `depths` where none were passed: it ends the function it is raised in, a helper that calls such a block sees it and may give it as its own result, and from there it goes on as a value. Safe templates raise none (`HandlebarsRendering.SafeNeverRaises`).
- Handlebars: a compiled program holds its children directly, not their numbers in the template's table.
- HandlebarsTheorem.CompilerCorrect: compiles every program on its own, as the source does when no two are equal; with sharing see `HandlebarsRendering.RenderingExact`. It does not cover an ambiguous block with neither program nor inverse, whose options register would be unset; the grammar gives every block one of them.
- Handlebars: identity and order of effects inside helpers; a helper's result depends on its arguments and on what its blocks answer.
- highlight.js: language detection and scoring, and splicing the caller's own arrays; the streams are local lists.
- marked: the regular expressions, the inline lexer and the renderer are parameters; link definitions are left out.
- Throttle: the return value and `this` of the throttled function, and calls made while the wrapped function runs.
- SwaggerSignature: array models, which all share one name, and names found on `Object.prototype`.
- Cookie jar: parsing of cookie strings, `getCookies` over all names, and names found on `Object.prototype`.
- XhrResponse: the contents of headers, and handlers that throw.
- DoubleByteCodec.RoundTripExact: takes tables of two-byte keys with the lead bit set and values above ASCII, as the shipped tables are.
- LruCache: the lock, which makes every call one step, and `clear`, `getAll`, `containsKey` and `size`.
- BpelInjection: turning DOM nodes into strings and parsing the result.
- BpelInjection.EndsExactly: does not cover code or contents with a marker that is unclosed or lies inside another, or with a text that ends like the beginning of a marker; there only the end of the loop is stated, by `EndsWithoutDollars`.
- PackageLock: what deploying and undeploying do, and the threads inside a synchronized block.
- JsonXml: the JSON parser, and the order of an object's map, which is the order of its entries.
- I18nIndex: file scanning and JSON text; what `Locale` makes of a language and a country is a parameter.
- I18nLookup: replacing arguments in values.
- I18nLookup.FoundBackExactly: takes labels with at least one value and non-empty locale names, as the index has them; the letter case that `Locale` gives a language and a country is not modelled.
- Sockets, HTTP and SOAP clients, DOM and jQuery views, encryption, dependency injection, and the remaining libraries.
