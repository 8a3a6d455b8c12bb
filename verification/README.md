# llmlang in Dafny

A verified model of the hard parts of llmlang: the fork/join pool and the reference counts of its C
runtime, the ownership checker of the compiler and the stack discipline of its code generator, the lexer,
parser and pretty-printer, the whole-module analyses, the OpenCL translation, the streaming HTTP parsers,
the JSON parser and printer, and the text codecs of the JWT library.

`dafny verify dfyconfig.toml` checks everything.

## How the model is built

Code that the repository writes as expressions and recursion is a function here. Code that changes state
step by step is a class or an array method whose contract ties the new state to a function of the old one,
and the promises of the source are proved about that function. Concurrency is a step system: every section
that holds a mutex, and every access to an atomic header, is one atomic step that any thread may take at
any time.

Most of these functions are read twice: by the method that must compute them, and by the theorems about
them. So that they cannot be wrong in the same way on both sides, each of the large ones is also tied to a
description that does not mention it: a list of demands, a grammar, an evaluator, an encoder or a layout of
bits (`Checks`, `Spelling`, `Grammar`, `PtrUses`, `RouterRun`, `RouterMatch`, `RequestText`, `JsonText`,
`JsonGrammar`, `Base64Bits`).

| file | models |
|---|---|
| `ForkJoin.dfy` | `src/runtime/threads.c`: the ring queue in place, and forks, joins and workers as a step system |
| `RefCount.dfy` | `src/runtime/memory.c`: `llm_dup` and `llm_drop` under every interleaving |
| `Ast.dfy`, `Wrappers.dfy` | the syntax tree that the compiler modules share; `Option` and `byte` |
| `Ownership.dfy`, `Module.dfy` | `src/compiler/analysis/verify.rs`: expressions, and whole modules |
| `Checks.dfy` | what the checker asks of an expression, demand by demand, and that its verdict is just that |
| `Generator.dfy`, `Soundness.dfy`, `Scopes.dfy`, `CodeGen.dfy` | the stack states of `src/compiler/codegen/expr.rs`, `parallel.rs` and of `gen_function`, what every path of the emitted code does, when the checker speaks for the generator, and the generator in place |
| `Router.dfy` | `parse_router` of `src/compiler/parser/mod.rs` |
| `RouterRun.dfy`, `RouterMatch.dfy` | an evaluator of what `parse_router` generates, and a matcher of the patterns it writes |
| `Lexer.dfy`, `Scanner.dfy` | `src/compiler/lexer/mod.rs` as a function of the text, and as the object it is |
| `Parser.dfy`, `ParserState.dfy` | the rest of `src/compiler/parser/mod.rs`, likewise |
| `Spelling.dfy`, `Grammar.dfy` | the lexical grammar and the grammar over tokens, and that lexer and parser read just these |
| `Printer.dfy` | `src/compiler/ast/display.rs` |
| `Relex.dfy`, `PrintLex.dfy`, `Mirror.dfy`, `RoundTrip.dfy` | when printed source reads back as what was printed |
| `PtrInference.dfy`, `RoundCap.dfy` | `src/compiler/codegen/symbol.rs`: the pointer inference as a least fixed point, and what its cap of rounds does |
| `PtrUses.dfy` | which parameters a module uses as pointers and which bodies yield one, and that the flags say just that |
| `DeadCode.dfy` | `prune_dead_code` of `src/compiler/analysis/mod.rs` |
| `OpenCl.dfy` | `translate_to_opencl` of `src/compiler/codegen/expr.rs` |
| `Chunked.dfy`, `HttpRequest.dfy` | `src/runtime/picohttpparser.c` (section 7.1 of RFC 9112 for the chunked coding) |
| `RequestText.dfy` | the texts of requests, and that the request parser reads just these |
| `JsonString.dfy`, `JsonTree.dfy`, `JsonBuffers.dfy`, `JsonList.dfy` | `src/runtime/cJSON.c` (RFC 8259) |
| `JsonText.dfy`, `JsonGrammar.dfy` | the grammar of JSON strings (with RFC 3629) and values, and that the JSON parser reads just these |
| `Codec.dfy`, `Base64Bits.dfy` | `lib/jwt.llm` (section 5 of RFC 4648), and what its codecs do bit by bit |

## What is false of the code

Some promises do not hold for every input. Each has a lemma with the input, and a theorem that says when the
promise holds.

- Printing a module and parsing the print yields the same trees if and only if no integer in them is
  negative and no string of `map` or `ju` needs an escape (`RoundTripping.RoundTrip`). A money literal wraps
  to a negative number (`RoundTripping.NegativeLost`), and `ju` prints its shape unescaped
  (`RoundTripping.EscapeLost`).
- The names of an OpenCL kernel denote the values they stand for if and only if no slot is referred to
  from where its name is taken (`OpenCl.NamesExact`). `OpenCl.ShadowingLoses` shows the loss.
- Code that the checker accepts gets through the generator if and only if the checker accepts it stripped as
  well: without the operands of metadata, the bodies of nested definitions and the fields of `map`, none of
  which the generator looks at. Otherwise the generator aborts with the error of that second check
  (`Soundness.AcceptedCompiles`). `Soundness.MovingMetadataDisagrees` shows accepted code that aborts;
  `Soundness.MovingMetadataAlone` shows that metadata which moves a value can be harmless.
- Pruning removes nothing that is used if and only if what is mentioned below a string concatenation, and
  outside of definitions, is also reached by calls that `get_calls` sees (`DeadCode.PruningSafe`).
  `DeadCode.CatHidesCalls` and `DeadCode.LayersHideCalls` show the two ways in which it is not: a call below
  a concatenation, and a `main` under two layers of metadata. (The generator checks each function once more
  with a table built from `get_calls`, src/compiler/codegen/symbol.rs:79-91, so a call that only a
  concatenation holds is refused there even if its function was kept.)
- The pointer inference ends in the least solution for every module of at most a hundred flags
  (`PtrInference.ModuleTypes.AnalyzeModuleTypes`), and no better bound holds: for every larger number there
  is a module, a chain of functions that each return the next one, that its cap of a hundred rounds cuts
  short (`RoundCap.CapDecides`).
- Texts come back through base64url if and only if all their characters are in the table, and hexadecimal
  digits if and only if their number is even (`Codec.DecodeEncode`, `Codec.HexComesBack`); of an odd number the whole last group of up to six is lost
  (`Base64Bits.OddLost`). Decoded bytes beyond the printing characters are not refused: three of them become
  blanks and most of them nothing (`Base64Bits.DecodeBits`).

## Model

| member | source | states |
|---|---|---|
| ForkJoin.TaskRing.TryEnqueue | src/runtime/threads.c:90-107 | a fork appends to the FIFO of pending tasks, overwriting no pending slot, or leaves a full queue as it is |
| ForkJoin.TaskRing.TryDequeue | src/runtime/threads.c:27-36 | work is taken from the head of that FIFO, and none exactly when it is empty |
| ForkJoin.BeginKeepsInv | src/runtime/threads.c:38-38 | a task that begins on top of any frame keeps start times rising up each thread's stack |
| ForkJoin.ForkKeepsInv | src/runtime/threads.c:83-113 | a fork keeps the invariant, queued or run inline |
| ForkJoin.JoinKeepsInv | src/runtime/threads.c:115-127 | freeing the handle of a finished task keeps the invariant, and the joiner gets the task's result |
| ForkJoin.ReturnKeepsInv | src/runtime/threads.c:38-44 | publishing a result keeps the invariant |
| ForkJoin.NextKeepsInv | src/runtime/threads.c:27-145 | no step of any thread touches a freed handle, and every step keeps the invariant |
| ForkJoin.RunKeepsInv | src/runtime/threads.c:27-145 | the same over every interleaving, for any number of workers and any queue size |
| ForkJoin.ExactlyOnce | src/runtime/threads.c:83-127 | no task starts twice, every join returned its task's result, and once all is quiet every task has run and every handle was freed |
| ForkJoin.JoinerAdvances | src/runtime/threads.c:115-145 | a joiner whose child is done, or who finds work, gets on within two trips around its loop |
| ForkJoin.IdleWorkerWorks | src/runtime/threads.c:48-64 | an idle worker gets a task if and only if one is pending, and it is the oldest |
| ForkJoin.HelperWorks | src/runtime/threads.c:115-145 | a joiner that helps gets the oldest pending task as well |
| ForkJoin.RunningNeverBlocked | src/runtime/threads.c:83-145 | the pool never holds up a task that is running its own code |
| ForkJoin.NoDeadlock | src/runtime/threads.c:115-145 | in every state of the invariant with an unfinished task some thread advances after at most two polling steps |
| ForkJoin.ReachableNeverStuck | src/runtime/threads.c:83-145 | deadlock freedom of every reachable state, even with no workers |
| RefCount.SumAfter | src/runtime/memory.c:30-38 | every step keeps the count equal to the references held |
| RefCount.NextEnding | src/runtime/memory.c:38-39 | at most one thread ends the object, and one does as soon as the count is zero |
| RefCount.NextKeepsInv | src/runtime/memory.c:30-103 | no access to a freed header, and every step keeps the invariant |
| RefCount.RunKeepsInv | src/runtime/memory.c:30-103 | the same over every interleaving |
| RefCount.Conserved | src/runtime/memory.c:30-103 | a live object's count is its outstanding references, its destructor runs once and by the thread of the last drop, and it is freed after that |
| Ownership.VerificationContext.VerifyExpr | src/compiler/analysis/verify.rs:95-353 | the checker that rewrites its stack gives the verdict and the slot states of `Verify`, the first error included; `Checks.CheckerExact` says what these are |
| Ownership.VerificationContext.VerifyIf | src/compiler/analysis/verify.rs:175-193 | both branches start from the same states and must end in the same |
| Ownership.VerificationContext.VerifyLet | src/compiler/analysis/verify.rs:165-174 | a binding pushes one available slot for its body and pops it |
| Ownership.VerificationContext.VerifyTrap | src/compiler/analysis/verify.rs:325-353 | both bodies of a trap are checked on the compacted stack of captures, all borrowed |
| Ownership.VerificationContext.Captured | src/compiler/analysis/verify.rs:326-333 | the loop over the stack captures exactly the slots that are not moved |
| Ownership.VerificationContext.MoveOut | src/compiler/analysis/verify.rs:128-161 | a move is refused for a missing, moved or borrowed slot, and otherwise marks the slot |
| Checks.InferExact | src/compiler/analysis/verify.rs:14-30 | the shape that the checker infers is the one that the value is made as: by `New` or `Unpack`, behind bindings, moves, borrows, `map` and `flt` |
| Checks.FieldExact | src/compiler/analysis/verify.rs:204-226 | a field is found if and only if it is declared in the shape of its instance, or in some shape where none is known |
| Checks.CheckerExact | src/compiler/analysis/verify.rs:95-353 | the checker's answer is the error of the first demand, in the order of the walk, that is not met, or else the states with the moved slots gone |
| Checks.AcceptedExactly | src/compiler/analysis/verify.rs:95-353 | code is accepted if and only if all its demands are met |
| Checks.RefusedExactly | src/compiler/analysis/verify.rs:95-353 | if all is in order up to an undeclared field the answer is E007, up to an unknown shape E006, and so for each other error |
| Checks.BodyExactly | src/compiler/analysis/verify.rs:65-89 | a function passes if and only if the demands of its body are met on its parameters |
| Emitting.CodeGen.GenExpr | src/compiler/codegen/expr.rs:8-1120 | the generator that rewrites its stack items emits the code of `Gen` and ends in its slot states |
| Emitting.CodeGen.GenMoved | src/compiler/codegen/expr.rs:108-137 | the move case, with its three aborts |
| Emitting.CodeGen.GenIf | src/compiler/codegen/expr.rs:256-291 | the states are put back before the second branch, and differing ends abort |
| Emitting.CodeGen.GenLet | src/compiler/codegen/expr.rs:413-425 | a value that is still available when its scope ends is dropped there |
| Emitting.CodeGen.GenTrapSubFn | src/compiler/codegen/parallel.rs:54-80 | the body of a trap is generated on the borrowed captures alone, and drops none of them |
| Generator.GenSound | src/compiler/codegen/expr.rs:8-1120 | every path through the emitted code, complete or aborted inside traps, uses only live values, moves and drops each at most once, and ends in the slot states of the generator |
| Emitting.GenFunction | src/compiler/codegen/symbol.rs:151-199 | a function is its body, on one available item for each parameter, and then a drop of each item that is still available |
| Soundness.GenExact | src/compiler/codegen/expr.rs:8-1120 | on any code whose names are known the generator does what the checker does on the stripped code: the same slot states, or an abort with the same error |
| Soundness.AcceptedNames | src/compiler/analysis/verify.rs:95-353 | the checker has looked up every name of what it accepts |
| Soundness.AcceptedCompiles | src/compiler/codegen/expr.rs:8-1120 | accepted code gets through the generator if and only if it is accepted stripped as well, and otherwise aborts with that error |
| Soundness.MoveFreeKeeps | src/compiler/analysis/verify.rs:95-353 | code that moves no slot leaves the checker's states as they were |
| Soundness.PlainStrip | src/compiler/analysis/verify.rs:411-415 | where metadata and nested definitions move nothing, stripping them off changes nothing |
| Soundness.Agreement | src/compiler/codegen/expr.rs:8-1120 | of such code the generator aborts on nothing the checker accepts, and ends in the same slot states |
| Soundness.MovingMetadataAlone | src/compiler/codegen/expr.rs:1116-1118 | metadata that moves a value can be harmless: the value stays where it is |
| Soundness.MovingMetadataDisagrees | src/compiler/codegen/expr.rs:1116-1118 | in one branch of two it is accepted, refused when stripped, and aborts the generator with E009 |
| Soundness.ConsumedOnce | src/compiler/codegen/expr.rs:413-425 | on a disciplined path a value is consumed once if it is gone at the end, and never otherwise |
| Soundness.BodySound | src/compiler/codegen/expr.rs:8-1120 | no path through a compiled body uses a value after its move or consumes it twice, and a complete one moves exactly the parameters that end up moved |
| Soundness.DropsFollow | src/compiler/codegen/symbol.rs:195-199 | the drops behind a body consume exactly the parameters that are left |
| Soundness.AffineSoundness | src/compiler/codegen/symbol.rs:151-199 | if the stripped body is accepted, the function compiles, no path uses a value after it was consumed or consumes it twice, and each complete path consumes each parameter exactly once, by its move or by the drop, the same on all paths |
| Scopes.GenNumbered | src/compiler/codegen/expr.rs:413-425 | every scope of the emitted code binds a value of its own |
| Scopes.PathSettled | src/compiler/codegen/expr.rs:420-423 | a path that reaches the end of a scope drops its value there exactly if the code says so |
| Scopes.LetSoundness | src/compiler/codegen/expr.rs:413-425 | a bound value is, on each path to its scope end, moved exactly once or dropped exactly once, the same on all such paths |
| ModuleCheck.TablesExact | src/compiler/analysis/verify.rs:38-56 | a name is in a table if and only if something in the module declares it |
| ModuleCheck.LastDeclares | src/compiler/analysis/verify.rs:38-56 | what a table says of a name is what its last declaration says |
| ModuleCheck.ExpandsExact | src/compiler/analysis/verify.rs:67-76 | the slot of an expand name is the place of the last expand parameter of that name |
| ModuleCheck.FillTables | src/compiler/analysis/verify.rs:38-56 | the first pass fills the tables, later declarations overriding earlier ones |
| ModuleCheck.VerifyFunction | src/compiler/analysis/verify.rs:65-89 | a function is checked with one available slot for each parameter and the slots of its expand parameters |
| ModuleCheck.VerifyModule | src/compiler/analysis/verify.rs:34-93 | a module passes if and only if all its functions do, and otherwise fails with the error of the first that does not |
| ModuleCheck.ModuleSound | src/compiler/analysis/verify.rs:34-93 | a function of an accepted module compiles if and only if its stripped body is accepted as well, and then every parameter and every bound value is consumed exactly once on every path that gets that far |
| Router.ParamsExtracted | src/compiler/parser/mod.rs:606-625 | in any request with enough segments that are not empty, doubled slashes or not, the computed indices pick those with the places of the parameters |
| Router.MatchedParams | src/compiler/parser/mod.rs:606-625 | in a request that fills the template, what stands for the parameters |
| Router.AnalyzePath | src/compiler/parser/mod.rs:604-625 | the loop over a path template yields its pattern and its parameter indices |
| Router.HandlerArgs | src/compiler/parser/mod.rs:643-652 | a handler is passed the request and then each parameter in order |
| Router.BuildDispatch | src/compiler/parser/mod.rs:592-664 | the loop over the routes builds the tree in route order, and fails exactly on a method or path that is no literal |
| Router.ExpandRouter | src/compiler/parser/mod.rs:561-736 | the whole expansion: the loop function's body and the entry, which `RouterRun` runs |
| Router.DispatchVerifies | src/compiler/parser/mod.rs:629-664 | at every depth the checker accepts the dispatch tree, which moves request and server and nothing else |
| Router.LoopVerifies | src/compiler/parser/mod.rs:666-715 | the checker accepts the loop for every route list with known handlers, and it consumes its server |
| Router.EntryVerifies | src/compiler/parser/mod.rs:719-735 | the checker accepts the entry wherever it accepts the port |
| Router.FirstMatchServed | src/compiler/parser/mod.rs:592-664 | a request goes to the first matching route with its parameters, and to the fallback if there is none |
| Router.DispatchConsumesOnce | src/compiler/parser/mod.rs:586-664 | every dispatch path consumes request and server exactly once and the three strings never |
| RouterRun.LoopServes | src/compiler/parser/mod.rs:666-715 | run on any request, the generated loop accepts it, logs its path, the path without query and its method, makes the one call that answers it, and enters itself again with the server |
| RouterRun.DispatchRuns | src/compiler/parser/mod.rs:592-664 | on the five slots that the loop fills, the dispatch tree makes that call, to the handler of the first route that matches method and path, or to the fallback |
| RouterRun.EntryRuns | src/compiler/parser/mod.rs:719-735 | the entry opens a server on the port and enters the loop with it |
| RouterRun.EveryRequestAnswered | src/compiler/parser/mod.rs:666-715 | every request of any series is answered once, in order |
| RouterRun.HandlerParams | src/compiler/parser/mod.rs:643-653 | for a request that fills the template, a handler is passed what stands there for the parameters, in order |
| RouterRun.PathBeforeQuery | src/compiler/parser/mod.rs:690-696 | the path that is matched ends before the first question mark |
| RouterMatch.PatternMatches | src/compiler/parser/mod.rs:604-625 | the pattern of a template of plain segments matches exactly the requests that fill it |
| RouterMatch.RouteMatches | src/compiler/parser/mod.rs:592-641 | a route matches if and only if the methods are equal and the path fills its template |
| Scanning.Lexer.NextToken | src/compiler/lexer/mod.rs:83-129 | the lexer object returns the next token of the text ahead and stands right behind it |
| Scanning.Lexer.SkipWhitespace | src/compiler/lexer/mod.rs:149-156 | skipping blanks changes no token |
| Scanning.Lexer.LexString | src/compiler/lexer/mod.rs:222-247 | a string is read up to its quote, escapes undone |
| Scanning.Lexer.LexNumber | src/compiler/lexer/mod.rs:158-170 | a number takes the longest run of number characters |
| Scanning.Lexer.LexIdentifier | src/compiler/lexer/mod.rs:172-207 | a word takes the longest run of word characters, then keywords are told from names; `Spelling.LexExact` says which these are |
| Scanning.Lexer.LexTrapOrDeBruijn | src/compiler/lexer/mod.rs:209-220 | a caret is a trap, or an index if digits follow |
| Scanning.Lexer.LexSlash | src/compiler/lexer/mod.rs:249-262 | a comment is skipped to the token behind it |
| Spelling.LexExact | src/compiler/lexer/mod.rs:83-263 | the next token of a text is `t` if and only if the text is a gap of blanks and comments, one of the ways to write `t`, and the rest: words, signs, numbers, indices, strings, names |
| Spelling.EndExact | src/compiler/lexer/mod.rs:83-129 | a text is at its end if and only if nothing but a gap is left |
| Spelling.KeywordWritten | src/compiler/lexer/mod.rs:172-207 | a word is a keyword of a token if and only if it is one of that token's spellings |
| Spelling.Synonyms | src/compiler/lexer/mod.rs:83-263 | two ways to write a token can be exchanged anywhere |
| Spelling.LtIsSign | src/compiler/lexer/mod.rs:203-203 | the word `lt` is the sign `<`, in every context |
| ParserState.Parser.ParseExpr | src/compiler/parser/mod.rs:169-559 | the parser object returns the tree of the tokens ahead, stands behind them and leaves its scopes as they were; `Grammar.ParseExact` says which tree that is |
| ParserState.Parser.ParseAll | src/compiler/parser/mod.rs:738-748 | the loop over a module parses its expressions in order, or stops at the first error |
| ParserState.Parser.ResolveVariable | src/compiler/parser/mod.rs:111-122 | a name resolves to the De Bruijn index of its innermost binder over all scopes |
| ParserState.Parser.AddVariable | src/compiler/parser/mod.rs:105-109 | a variable enters the innermost scope, if there is one |
| ParserState.Parser.ParseParameters | src/compiler/parser/mod.rs:242-254 | parameters and their expansion marks are read in order and enter the open scope |
| Grammar.ParseExact | src/compiler/parser/mod.rs:169-559 | the parser yields a tree and a rest if and only if the grammar reads that tree there and stops at that rest, and no lexical error follows |
| Grammar.ModuleExact | src/compiler/parser/mod.rs:738-748 | a token list parses to a module if and only if it is the expressions of that module one after the other |
| Grammar.ExportRefused | src/compiler/parser/mod.rs:324-333 | an export mark before an expression that is neither definition nor shape is E015 |
| Grammar.TestRefused | src/compiler/parser/mod.rs:305-323 | a test that is no definition is E019 |
| Grammar.ImportRefused | src/compiler/parser/mod.rs:360-381 | an import from a missing module is E017, and of a name that the module does not declare E018, and else it is neither |
| Printing.EscapeString | src/compiler/ast/display.rs:36-49 | the loop escapes each character in turn |
| Relexing.LexEscaped | src/compiler/lexer/mod.rs:222-247 | the lexer undoes the printer's escaping, for every string |
| Relexing.ReadsName | src/compiler/lexer/mod.rs:172-207 | a printed name reads back as the name, and not as a keyword |
| Relexing.ReadsJoin | src/compiler/lexer/mod.rs:83-129 | texts with blanks between them lex to their tokens one after the other |
| PrintLexing.PrintLexes | src/compiler/ast/display.rs:51-148 | printed text lexes to the tokens of the tree if the tree is plain, and provably to others if not |
| Mirroring.StreamValid | src/compiler/lexer/mod.rs:83-129 | the lexer yields only tokens that can be printed, and no more than there are characters |
| Mirroring.ParsedPrintable | src/compiler/parser/mod.rs:169-559 | what the parser builds meets the printer's conditions on names, arities and indices |
| Mirroring.ParseMirrors | src/compiler/parser/mod.rs:169-559 | the tokens of a parsed tree mirror the tokens it was parsed from |
| RoundTripping.Reparse | src/compiler/parser/mod.rs:169-559 | the tokens of a parsed tree parse to the same tree in the same scope |
| RoundTripping.ModuleAgain | src/compiler/parser/mod.rs:738-748 | so do the tokens of a parsed module |
| RoundTripping.RoundTrip | src/compiler/ast/display.rs:172-187 | printing and parsing a parsed module yields it again if and only if it is plain |
| RoundTripping.EscapeLost | src/compiler/ast/display.rs:133-134 | a backslash in the shape string of `ju` is lost |
| RoundTripping.NegativeLost | src/compiler/ast/display.rs:55-55 | a money literal that wraps to a negative number is lost |
| PtrInference.ReturnsMonotone | src/compiler/analysis/mod.rs:7-69 | more flags never make an expression return fewer pointers |
| PtrInference.InferOrdered | src/compiler/codegen/symbol.rs:367-517 | constraint inference only adds flags, and adds no fewer from more |
| PtrInference.StepGrows | src/compiler/codegen/symbol.rs:333-362 | looking at a function only flips flags from false to true |
| PtrInference.StepBelow | src/compiler/codegen/symbol.rs:333-362 | and never goes past a solution |
| PtrInference.RoundBelow | src/compiler/codegen/symbol.rs:328-363 | neither does a round over the module |
| PtrInference.StillSolves | src/compiler/codegen/symbol.rs:324-364 | a round without a change has found a solution |
| PtrInference.RoundCounts | src/compiler/codegen/symbol.rs:324-364 | every round with a change adds a flag |
| PtrInference.FlaggedBound | src/compiler/codegen/symbol.rs:302-319 | no more flags are set than there are |
| RoundCap.FlagsOfDistinct | src/compiler/codegen/symbol.rs:302-319 | without a name defined twice, that is as many as parameters and functions |
| RoundCap.CapDecides | src/compiler/codegen/symbol.rs:321-364 | on a chain of functions that each return the next one, the hundred rounds reach a solution if and only if there are no more than a hundred of them |
| PtrInference.BodyInference.InferConstraints | src/compiler/codegen/symbol.rs:367-517 | the walk over a body updates its two flag vectors as `Infer` says; `PtrUses.InferExact` says which flags that sets |
| PtrInference.BodyInference.MarkAsPtr | src/compiler/codegen/symbol.rs:519-535 | a mark sets the flag of the slot behind moves and borrows, and of its parameter |
| PtrInference.ModuleTypes.AnalyzeModuleTypes | src/compiler/codegen/symbol.rs:298-365 | the result is that of a hundred rounds and below every solution, and a solution if there are at most 100 flags or the rounds end for want of a change, which they do below 100 |
| PtrUses.InferExact | src/compiler/codegen/symbol.rs:367-535 | the walk sets the flags of a slot and of its parameter if and only if the slot, under moves and borrows, stands somewhere in place of a string or an instance, or of a parameter that is flagged |
| PtrUses.ReturnsExact | src/compiler/analysis/mod.rs:7-69 | an expression is said to return a pointer if and only if some path through it yields one |
| PtrUses.SolutionFlags | src/compiler/codegen/symbol.rs:298-365 | at every solution all parameters used as pointers are flagged, and all functions of which a path yields one |
| PtrUses.FlagsExact | src/compiler/codegen/symbol.rs:298-365 | after any number of rounds nothing is flagged without such a reason, and at a solution the flags are exactly those with one |
| DeadCode.FindReachable | src/compiler/analysis/mod.rs:334-376 | the worklist terminates despite duplicates with the least set closed under roots and calls |
| DeadCode.PruneDeadCode | src/compiler/analysis/mod.rs:322-388 | what is kept is kept by that set |
| DeadCode.LeastIsReached | src/compiler/analysis/mod.rs:353-376 | the set holds exactly the names reached from the roots by some number of calls |
| DeadCode.KeepExactly | src/compiler/analysis/mod.rs:378-387 | filtering keeps exactly the declarations whose names were reached |
| DeadCode.ExportsStay | src/compiler/analysis/mod.rs:334-387 | `main` and every exported definition and shape are kept, and all that declares nothing |
| DeadCode.UncalledGoes | src/compiler/analysis/mod.rs:353-387 | a definition that is neither and that no definition calls is removed |
| DeadCode.NothingDangles | src/compiler/analysis/mod.rs:353-387 | nothing that `get_calls` sees in a kept definition has been removed |
| DeadCode.SeenAndHidden | src/compiler/analysis/mod.rs:157-229 | what an expression mentions is what `get_calls` sees and what stands below a concatenation |
| DeadCode.PruningSafe | src/compiler/analysis/mod.rs:322-388 | nothing mentioned in what is kept was removed, if and only if what is mentioned below concatenations and outside of definitions is reached by calls that are seen |
| DeadCode.CatHidesCalls | src/compiler/analysis/mod.rs:157-229 | a function called only below a concatenation is removed |
| DeadCode.LayersHideCalls | src/compiler/analysis/mod.rs:327-351 | a `main` under two layers of metadata is kept, and what it calls is not |
| OpenCl.TranslationPreserves | src/compiler/codegen/expr.rs:1152-1195 | the emitted expression has the value of the De Bruijn expression in every agreeing environment |
| OpenCl.KernelCorrect | src/compiler/codegen/expr.rs:1143-1210 | the kernel of a one-parameter function computes it, for every input |
| OpenCl.TranslatesExactly | src/compiler/codegen/expr.rs:1152-1195 | exactly the bodies made of integers, slots in range, the arithmetic and comparison operators, conditionals and bindings are translated |
| OpenCl.NamesExact | src/compiler/codegen/expr.rs:1152-1195 | reading the names back yields the body if and only if no slot is captured |
| OpenCl.DistinctKernel | src/compiler/codegen/expr.rs:1143-1210 | distinct names of nested binders suffice |
| OpenCl.ShadowingLoses | src/compiler/codegen/expr.rs:1178-1186 | a shadowing binder whose value reads the outer name loses the value |
| OpenCl.Translator.TranslateExpr | src/compiler/codegen/expr.rs:1152-1195 | the translator pushes and pops names as `Translate` says |
| Chunked.StepSound | src/runtime/picohttpparser.c:578-583 | the chunk size stays below 16 to the number of digits read, and so fits a machine word |
| Chunked.RunSound | src/runtime/picohttpparser.c:545-698 | the same over every input |
| Chunked.RunConcat | src/runtime/picohttpparser.c:545-698 | a fragment and then the rest decode as the whole does |
| Chunked.FragmentationIrrelevant | src/runtime/picohttpparser.c:545-698 | any split of a stream gives the same output, verdict and unread suffix |
| Chunked.RefusesHopeless | src/runtime/picohttpparser.c:545-698 | an input is refused if and only if nothing that may follow makes it an encoding |
| Chunked.DecodeEncode | src/runtime/picohttpparser.c:545-698 | the decoder inverts the chunked encoding, and stops right behind it |
| Chunked.EncodeDecoded | src/runtime/picohttpparser.c:545-698 | only encodings are decoded to the end |
| Chunked.SizeExact | src/runtime/picohttpparser.c:532-583 | chunk sizes are what their hexadecimal numerals denote, of one to sixteen digits |
| Chunked.Decoder.MoveData | src/runtime/picohttpparser.c:621-637 | data moves down over bytes that were read, and unread input stays as it was |
| Chunked.Decoder.Scan | src/runtime/picohttpparser.c:552-683 | the in-place loop does what the automaton does |
| Chunked.Decoder.Decode | src/runtime/picohttpparser.c:545-698 | one call decodes the buffer in place, puts the unread rest behind the output, and adds up the overhead for its guard |
| Chunked.Decoder.DecodeAll | src/runtime/picohttpparser.c:545-698 | the calls for a stream in fragments yield together what one call on the whole would, or a first part of it if the guard cuts in |
| HttpRequest.ParseSettled | src/runtime/picohttpparser.c:355-399 | the result of a parse depends on the bytes it has read only |
| HttpRequest.PrefixStable | src/runtime/picohttpparser.c:355-427 | a parsed or rejected request stays so however many bytes follow |
| HttpRequest.PrefixIncomplete | src/runtime/picohttpparser.c:355-427 | every shorter prefix of a request is incomplete |
| HttpRequest.RequestClean | src/runtime/picohttpparser.c:355-399 | a parsed request holds no stray carriage return and ends in an empty line |
| HttpRequest.ShortcutExact | src/runtime/picohttpparser.c:197-223 | parsing on from bytes that held no request succeeds exactly when parsing from scratch does, with the same result |
| HttpRequest.ArrivalsExact | src/runtime/picohttpparser.c:401-427 | however a request arrives, the calls end in the parse of the whole |
| HttpRequest.NeverBad | src/runtime/picohttpparser.c:197-223 | no part of a good request is turned away |
| HttpRequest.GetTokenToEol | src/runtime/picohttpparser.c:134-195 | the scan by eights finds the same line end as the plain one |
| HttpRequest.IsComplete | src/runtime/picohttpparser.c:197-223 | the pre-check finds two line ends in a row, from three bytes before the old end on |
| HttpRequest.ParseHeaders | src/runtime/picohttpparser.c:298-353 | the loop over header lines collects them in order, up to its limit |
| HttpRequest.ParseRequest | src/runtime/picohttpparser.c:355-399 | the pointer-advancing parser returns what `Parse` says; `RequestText` says what that is |
| HttpRequest.PhrParseRequest | src/runtime/picohttpparser.c:401-427 | and so does the call with the shortcut |
| RequestText.ParseComplete | src/runtime/picohttpparser.c:225-399 | the text of every request, of any method, path, minor version, fields and continuation lines, with either line end, is parsed to its parts, whatever follows |
| RequestText.ParseSound | src/runtime/picohttpparser.c:225-399 | every request that is parsed begins with the text of what is returned |
| RequestText.LayoutShows | src/runtime/picohttpparser.c:225-399 | the spans that are returned lie exactly on the method, the path, and the names and trimmed values of the fields |
| RequestText.BadExact | src/runtime/picohttpparser.c:225-399 | the answer is -1 if and only if the text breaks a rule of the grammar before it ends |
| JsonString.StepFits | src/runtime/cJSON.c:837-928 | a step of the unescape loop, aligned with the first pass or not, keeps within the estimate |
| JsonString.EstimateSuffices | src/runtime/cJSON.c:837-928 | the whole result and its terminator fit the memory that the first pass asks for |
| JsonString.ParseString | src/runtime/cJSON.c:824-952 | the two passes return the unescaped string, and every read and write is within bounds |
| JsonString.ParsePrint | src/runtime/cJSON.c:824-1074 | parsing undoes printing for every byte string, whatever follows |
| JsonString.PrintString | src/runtime/cJSON.c:954-1074 | the text is written into exactly the memory that was counted for it |
| JsonText.Utf8Exact | src/runtime/cJSON.c:700-761 | the bytes of a code point are the only ones that a decoder of UTF-8 reads as it |
| JsonText.ParseExact | src/runtime/cJSON.c:640-952 | a string is parsed to a text if and only if the grammar has it as a string that stands for that text, escapes and surrogate pairs included |
| JsonTree.PrintsUpToLimit | src/runtime/cJSON.c:1595-1896 | printing succeeds exactly on values nested no deeper than the limit |
| JsonTree.ParsePrinted | src/runtime/cJSON.c:1368-1896 | a printed value parses back at every depth, whatever delimits it |
| JsonTree.ParsePrint | src/runtime/cJSON.c:1368-1896 | parsing the formatted or unformatted text of a tree yields the tree, with the same order and keys |
| JsonGrammar.ValueExact | src/runtime/cJSON.c:1368-1755 | a value is parsed, at any depth, if and only if the grammar has the text as a text of that value |
| JsonGrammar.ParseExact | src/runtime/cJSON.c:1090-1230 | and so is a whole text, with its byte order mark and its white space |
| JsonBuffers.ParseBuffer.ParseItem | src/runtime/cJSON.c:1368-1421 | the parser with its offset and depth returns what `ParseValue` says, and stands behind it |
| JsonBuffers.ParseBuffer.ParseListItems | src/runtime/cJSON.c:1529-1570 | the loop over array items parses them in order |
| JsonBuffers.ParseBuffer.ParseRecordFields | src/runtime/cJSON.c:1692-1755 | the loop over object members parses them in order |
| JsonBuffers.PrintBuffer.Ensure | src/runtime/cJSON.c:490-574 | the buffer grows to what is needed, keeping what was printed |
| JsonBuffers.PrintBuffer.UpdateOffset | src/runtime/cJSON.c:576-586 | the offset moves to the terminator of what was printed |
| JsonBuffers.PrintBuffer.PrintItem | src/runtime/cJSON.c:1423-1494 | the printed text of a value appears behind what was there, and printing fails only for nesting or length |
| JsonBuffers.PrintBuffer.PrintListItems | src/runtime/cJSON.c:1623-1647 | the loop over array items prints them in order |
| JsonBuffers.PrintBuffer.PrintRecordFields | src/runtime/cJSON.c:1812-1876 | the loop over object members prints them in order |
| JsonList.Item.GetArrayItem | src/runtime/cJSON.c:1922-1939 | the walk ends at the item of the index, or at none |
| JsonList.Item.AddItem | src/runtime/cJSON.c:2027-2058 | appending, and exactly when the list stays well linked |
| JsonList.Item.DetachItem | src/runtime/cJSON.c:2258-2292 | detaching removes the item from the sequence and keeps the links |
| JsonList.Item.InsertItem | src/runtime/cJSON.c:2334-2366 | inserting at an index, or appending behind the end |
| JsonList.Item.ReplaceItem | src/runtime/cJSON.c:2368-2415 | replacing updates the sequence at one place and keeps the links |
| Codec.AndMask | lib/jwt.llm:36-62 | a mask of low bits is a remainder |
| Codec.OrDisjoint | lib/jwt.llm:36-62 | numbers without a common bit are added |
| Codec.EncodeKeeps | lib/jwt.llm:36-65 | encoding keeps its accumulator and yields base64url digits only |
| Codec.DecodeEncode | lib/jwt.llm:36-96 | decoding an encoded text yields it with a blank for each character outside the table, and so the text itself if and only if it has none |
| Codec.HexComesBack | lib/jwt.llm:104-176 | hexadecimal digits come back through base64url if and only if their number is even |
| Base64Bits.EncodeBits | lib/jwt.llm:36-65 | an encoded text holds the bits of the codes of its characters, six to a digit by the table of section 5 of RFC 4648, filled up with zeros |
| Base64Bits.DecodeBits | lib/jwt.llm:67-96 | every text over the alphabet decodes to its bits, eight to a character, a rest of them dropped |
| Base64Bits.HexBits | lib/jwt.llm:104-139 | an even number of hexadecimal digits holds the same bits as the digits they are turned into |
| Base64Bits.ToHexBits | lib/jwt.llm:141-176 | the hexadecimal digits of any text over the alphabet hold its bits, as far as they fill bytes |
| Base64Bits.OddLost | lib/jwt.llm:104-139 | of an odd number of hexadecimal digits the last group is lost |

## Left out

- ForkJoin.ExactlyOnce: a task returns only after it has joined every handle it forked, as the generated code does; a trap between a fork and its join leaves that discipline, and then handles stay allocated.
- ForkJoin.NoDeadlock: progress is that some thread can get on within two polls; fairness of the scheduler, the one-millisecond wait and spurious wake-ups are not modelled.
- The lazy creation of the pool, its shutdown flag, and the mechanics of pthread mutexes and condition variables.
- RefCount.Conserved: does not model the 32-bit width of the count, nor the type-specific destructors beyond that one of them runs once.
- The test `s > 1000` that tells handles from small integers, and `llm_rt_alloc`'s failure.
- The second check that `gen_function` makes of a function, with tables of its own (src/compiler/codegen/symbol.rs:72-113), and functions with expand parameters, which are inlined and not compiled.
- Parallel hoisting, which generates an operand again with all captures borrowed, and the inlining of template calls: the statements are about sequential generation.
- The state `MutBorrowed`, which no code assigns; LLVM IR, and the drops of temporaries in `maybe_drop_val`.
- ParserState.Parser.ParseExpr: answers `NotModelled` for floating-point literals, routers and imported shapes, as `Parse` does; `Router.dfy` models the expansion of a router from the parsed parts on.
- Line numbers and the wording of errors; only error codes are modelled. Signature files are a parameter (`Modules`), and so are the Unicode classes of characters.
- RoundTripping.RoundTrip: is about sources without floating-point literals, routers and imported shapes, and about texts shorter than 2^64 characters, the width of the indices it prints.
- RouterMatch.PatternMatches: takes the literal segments of a template as plain text, without the characters that a regular expression gives a meaning; `Router.FirstMatchServed` and `RouterRun.LoopServes` take any matcher as a parameter.
- RouterRun.LoopServes: takes what the runtime answers for a request as given: its method, its path, and the pieces of a split.
- PtrInference.ModuleTypes.AnalyzeModuleTypes: takes name mangling, name resolution and the table of known pointer functions as parameters, and requires that they do not map functions of different names to one entry.
- DeadCode.NothingDangles: is about the calls that `get_calls` sees; `DeadCode.PruningSafe` is about all of them.
- OpenCl.KernelCorrect: is about the emitted expression, not about C text, and `param_0` is the one bound parameter, as in the emitted kernel; the literal of the smallest integer is taken at its value.
- The SSE 4.2 search, which finds the same bytes faster, the response parser, and the accept loop, which goes on reading after a positive result.
- Chunked.FragmentationIrrelevant: leaves the overhead guard out, which depends on the split; `Chunked.Decoder.Decode` has it. The state after a failed call is unspecified.
- JsonBuffers.ParseBuffer.ParseItem: answers `Unmodelled` for numbers that are not integers in range.
- Raw JSON items, references, allocation failure, error positions, printing into preallocated memory, and the freeing of replaced items.
- JsonList.Item.AddItem: an item whose `next` is not null is accepted by the code and breaks the list unless it is the first; the contract says so instead of forbidding it.
- Codec.DecodeEncode: `|` and `&` are modelled on numbers that are not negative, so decoding is for texts over the base64url alphabet.
- Sockets, TLS, files, SQLite, clocks, `setjmp`, the MCP transport, the command line and the test harness: foreign calls and plumbing.
