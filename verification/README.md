# Verification of the Kryndel toolchain's core

Dafny models of the parts of Kryndel whose correctness is least obvious from reading one function,
with proofs of the properties they exist for. `dafny verify dfyconfig.toml` checks the project.

## What is modelled

| files | part of the toolchain |
|---|---|
| `MiniKryndel`, `Semantics`, `TailCalls`, `CallConv` | the native backend's calling convention: one global argument array, wrapper and body, tail-call trampoline, against ordinary recursion, and what that recursion computes |
| `Arena`, `ArenaBuilder`, `ArenaReader`, `ArenaPaths`, `ArenaRoundTrip` | lowering checked trees into the typed IR arena, the backend's memoised reading of it, and both in a row, path by path |
| `TypeSpecs`, `Monomorphise`, `MonomorphiseLeast` | type substitution, the worklist of generic instances, and emission that looks every instance up again |
| `Unify`, `Infer` | generic inference: one-sided unification and the matching of a call |
| `Flow` | return flow and match exhaustiveness, against every run of the statements |
| `Captures` | closure captures, against the reads inside a closure |
| `Fold` | constant folding, against checked evaluation |
| `JsonUtf8`, `JsonTree`, `JsonWriter`, `JsonGrammar`, `JsonReader`, `JsonRoundTrip`, `JsonNormal`, `JsonNesting`, `JsonSyntax` | the C runtime's JSON printer and parser, the linear nesting check in front of the parser, and the syntax of RFC 8259 with its meaning |
| `GatewaySteps`, `GatewaySafety`, `GatewayRuns`, `GatewayQueries`, `GatewayAnswers`, `Gateway` | the Discord gateway session as a step system and as an object: accounts, throttles, member queries, and what each step answers |
| `RateLimit` | the Discord HTTP rate limiter |
| `ArtifactCodec`, `ArtifactBijection`, `ArtifactIO`, `SealedContainer`, `ArtifactPaths`, `ArtifactLayout` | the native artifact format and the sealed container around it, its safe paths, and its bytes |
| `PathClean` | lexical path cleaning on POSIX |
| `Wrappers`, `ByteOrder` | optional values; numbers as bytes in either order, shared by the artifact and the hashes |
| `HashStream` | buffering and padding of SHA-256, SHA-512, SHA-384, SHA-1 and MD5 |

Where the source updates an object or a buffer step by step, the model is a class or a method with
a loop, and its contract ties the new state to a specification function or to a step of a
transition system; the lemmas are about those, and state what the functions mean without them: by
paths, positions, independent grammars, exact conditions and samples. Where the source computes by
recursion the model is functions. I/O, clocks, randomness and the results of code outside these
files are parameters.

## Where the code falls short of its promise

Each of these is stated in the project, with a concrete case and with the exact condition under
which the promise holds, except where noted.

- The arena builder takes a parameter's row index before it lowers the default, so a default with
  a parameterised lambda makes the index name another row (`ArenaRoundTrip.LambdaDefault`, exactly
  delimited by `ArenaBuilder.KirArenaBuilder.Params`).
- Unification compares constructors by kind, so a struct of another name is accepted
  (`Unify.NamesAreNotCompared`, exactly delimited by `Unify.UnifySound`).
- A type argument that names another parameter of the same callee is substituted a second time
  (`TypeSpecs.CapturedName`, exactly delimited by `TypeSpecs.SimultaneousExactly`).
- Bool patterns count towards exhaustiveness on an Option (`Flow.BoolPatternsOnOption`, exactly
  delimited by `Flow.OptionCompleteExactly`). On an enum, variants of another enum count
  (`Flow.ForeignVariant`), and an unqualified variant is tested in emitted C by the position it has
  in the first enum that has it (`Flow.UnqualifiedVariant`); both are exactly delimited by
  `Flow.EnumCompleteExactly`, and the emitted test by `Flow.BackendTestsAsPromised`.
- The flow of an `unsafe` block is not looked at, so a function whose every run returns from inside
  one is refused (`Flow.UnsafeReturnIsRefused`; `Flow.RefusedExactly` shows that without such blocks
  and without arms that are never taken only functions with a run to their end are).
- In emitted C a shadowing `let x = x` reads uninitialised storage (`CallConv.DeclarationVisible`;
  `CallConv.DeclarationInvisible` is the other direction, for initialisers that do not read their
  own name).
- A member request reads the clock before it waits for the session lock. With ordered stamps the
  throttle holds (`GatewayRuns.WindowHoldsAtMost110`); one step back of any size is enough for 111
  events in a minute (`GatewayRuns.StaleClockBreaksTheWindow`).
- A result that cannot be encoded after its session ended loses its record at the next bind
  (`GatewayQueries.LateRecordIsDropped`, with a run in `GatewayQueries.ARunLosesARecord`). A run
  loses none exactly when its sessions start with nothing queued or pending
  (`GatewayQueries.NoneDroppedExactly`).
- A 429's wait is not always respected: an open window with an earlier reset, a later response of
  the same bucket, one that names another bucket, or a 429 that names none lets requests through
  (`RateLimit.EarlierWindowGrants`, `RateLimit.LaterResponseGrants`, `RateLimit.MovedRouteGrants`,
  `RateLimit.UnnamedWaitGrants`, exactly delimited by `RateLimit.WaitRespectedExactly`).
- An artifact of versions 3 to 5 whose last source is empty is rejected, because a read of nothing
  at the end of the input fails (`ArtifactBijection.EmptyRootIsRejected`, exactly delimited by
  `ArtifactBijection.DecodeAfterEncode`).
- Malformed UTF-8 in a JSON string does not survive a round trip
  (`JsonRoundTrip.MalformedByteIsReplaced`, exactly delimited by `JsonRoundTrip.ParseAfterWrite`).

## Model

| member | source | states |
|---|---|---|
| `TailCalls.SameCall` | internal/kry/codegen.go:704-710 | Running a call with marked tail calls reusing the activation is the same run as ordinary recursion, each under a depth limit of its own, whenever neither stops at its limit; with as many activations left it stops at the limit only where ordinary recursion does |
| `TailCalls.SameValue` | internal/kry/codegen.go:1418-1437 | The same for every expression: result, steps, fuel and globals agree |
| `TailCalls.SameExec` | internal/kry/codegen.go:810-896 | The same for every block of statements, including early exits |
| `TailCalls.SameReturn` | internal/kry/codegen.go:905-927 | The same for every return, the only statement whose code differs between the two |
| `TailCalls.SameLoop` | internal/kry/codegen.go:810-896 | The same for loops, by induction on the fuel |
| `TailCalls.TailCallsUseNoDepth` | internal/kry/codegen.go:704-710 | For every program whose other calls go down in rank, a call needs one activation for each rank and none for its tail calls, however many it makes: it never meets that limit and yields what deep enough ordinary recursion yields |
| `TailCalls.CountdownNeedsNoDepth` | internal/kry/codegen.go:704-710 | A function that counts down by self tail calls runs in one activation; ordinary recursion fails at that limit |
| `CallConv.EmittedFrame` | internal/kry/codegen.go:1418-1437 | The emitted operand frame holds the receiver and then the arguments, and evaluating it is evaluating the call frame |
| `CallConv.DeclarationInvisible` | internal/kry/codegen.go:810-896 | A C declaration that its initialiser does not read changes nothing, whatever the storage held |
| `CallConv.DeclarationVisible` | internal/kry/codegen.go:810-896 | A shadowing declaration that reads its own name yields the uninitialised storage: the condition above is needed |
| `CallConv.CRuntime.constructor` | internal/kry/codegen.go:704-741 | A fresh runtime runs the program emitted for the source functions, at depth zero with nothing pending |
| `CallConv.CRuntime.Run` | internal/kry/codegen.go:704-741 | A whole run through the global argument array, wrappers and trampoline returns what ordinary recursion under any depth limit returns, unless one of the two meets its limit; under the same limit it meets it only where ordinary recursion does; depth zero and no pending tail call are left |
| `CallConv.CRuntime.Wrapper` | internal/kry/codegen.go:704-710 | A wrapper yields the call's own result however many tail calls its trampoline runs, and restores the call depth |
| `CallConv.CRuntime.Parameters` | internal/kry/codegen.go:724-736 | Parameters come from the array or from their defaults; a nested call in a default cannot corrupt a later parameter |
| `CallConv.CRuntime.ParameterValue` | internal/kry/codegen.go:724-736 | One parameter: the argument passed, or the default under the parameters before it |
| `CallConv.CRuntime.Expression` | internal/kry/codegen.go:1418-1437 | Every emitted expression yields the reference value with the depth restored and nothing pending |
| `CallConv.CRuntime.TailReturn` | internal/kry/codegen.go:929-981 | The frame of a tail call is complete before the argument array is overwritten |
| `CallConv.CRuntime.Loop` | internal/kry/codegen.go:810-896 | An emitted loop does what the reference loop does, also when it leaves with a pending tail call |
| `CallConv.CRuntime.Body` | internal/kry/codegen.go:711-741 | A body finishes with the call's result or leaves a tail call whose result is it |
| `Semantics.LookupExactly` | internal/kry/runtime.go:1009-1017 | A name means its innermost binding, or else the file-scope one |
| `Semantics.StoreExactly` | internal/kry/runtime.go:1343-1369 | An assignment changes the innermost binding of its name and nothing else |
| `Semantics.LookupAfterStore` | internal/kry/runtime.go:1343-1369 | After it the name has the new value and every other name its old one |
| `Semantics.LookupAfterBind` | internal/kry/runtime.go:1030-1036 | A declaration is seen by its name only, until its scope ends |
| `Semantics.ApplyExactly` | internal/kry/runtime.go:1982-2006 | Sums, differences and products are the exact ones when they fit 64 bits and trap otherwise |
| `Semantics.OperandsInOrder` | internal/kry/codegen.go:1418-1437 | Operands are evaluated left to right, each in the state the one before left, up to the first without a value |
| `Semantics.BinaryInOrder` | internal/kry/runtime.go:1805-1837 | Both operands are evaluated, the left one first, and the operator is applied to them in that order |
| `Semantics.StatementsInOrder` | internal/kry/runtime.go:1294-1311 | Statements run in order up to the first that does not end normally |
| `Semantics.BranchTaken` | internal/kry/runtime.go:1370-1384 | A conditional runs the branch its condition picks |
| `Semantics.LoopInOrder` | internal/kry/runtime.go:1385-1422 | A loop makes rounds until its condition fails, a break, or a round that ends otherwise; `continue` goes on |
| `Semantics.ParametersInOrder` | internal/kry/codegen.go:724-736 | Each parameter has its argument, or its default evaluated where exactly the earlier parameters are bound |
| `Semantics.BlockKeepsNames` | internal/kry/runtime.go:1294-1318 | However a block ends, the names in scope are those it began with |
| `Semantics.SumIsTriangle` | internal/kry/codegen.go:810-896 | A function with a loop computes the sum of the numbers below its argument, for every argument whose sum fits, in exactly so many steps |
| `Semantics.PropagateExactly` | internal/kry/runtime.go:1470-1492 | `?` opens a present value and leaves the function with the absent one; returned, it passes either on |
| `Semantics.CallsBind` | internal/kry/codegen.go:711-741 | A receiver is `self`, arguments are the parameters in order, an omitted default sees the parameters before it, a body without return yields nil |
| `Arena.KeptExpr` | internal/kry/codegen_arena.go:8-28 | Later rows, and a patch of another row, leave the tree an expression row holds as it is |
| `Arena.KeptStmt` | internal/kry/codegen_arena.go:30-48 | The same for statement rows |
| `Arena.KeptFunction` | internal/kry/codegen_arena.go:50-69 | The same for function rows with their parameters and captures |
| `Arena.KeptConstant` | internal/kry/kir_arena_builder.go:457-481 | The same for constant rows |
| `ArenaBuilder.KirArenaBuilder.Expression` | internal/kry/kir_arena_builder.go:174-261 | Lowering an expression stores exactly its tree at the returned reference, every child row above its parent, and adds a parameter row exactly when a lambda with parameters occurs |
| `ArenaBuilder.KirArenaBuilder.Expressions` | internal/kry/kir_arena_builder.go:263-276 | The same for a list, stored as one contiguous range |
| `ArenaBuilder.KirArenaBuilder.Statement` | internal/kry/kir_arena_builder.go:293-383 | The same for statements, with bodies, arms and patterns |
| `ArenaBuilder.KirArenaBuilder.Params` | internal/kry/kir_arena_builder.go:410-421 | The recorded index of a parameter is its row exactly when its default adds no parameter row: the condition is exact for every parameter |
| `ArenaBuilder.KirArenaBuilder.Function` | internal/kry/kir_arena_builder.go:396-455 | A function row with parameters, body and captures in the order given holds the function |
| `ArenaBuilder.KirArenaBuilder.Value` | internal/kry/kir_arena_builder.go:457-481 | A constant value is stored as its tree of constant rows |
| `ArenaBuilder.KirArenaBuilder.Program` | internal/kry/kir_arena_builder.go:10-56 | Building a program from an empty arena stores exactly that program, when no default holds a lambda with parameters |
| `ArenaReader.OneTreePerRow` | internal/kry/codegen_arena.go:8-28 | A row reads as one tree only: any two trees the arena holds there look the same to the backend |
| `ArenaReader.OneTreePerRange` | internal/kry/codegen_arena.go:105-116 | The same for a range of references |
| `ArenaReader.Cgen.Expression` | internal/kry/codegen_arena.go:8-28 | The memoised lookup returns a view of its row and keeps every earlier view |
| `ArenaReader.Cgen.ExpressionRow` | internal/kry/codegen_arena.go:182-189 | A view leads back to the row it was made of |
| `ArenaReader.Cgen.ReadExpression` | internal/kry/codegen_arena.go:191-203 | Following indexes from the reference the builder returned reproduces the tree, and the walk ends |
| `ArenaReader.Cgen.ReadStatement` | internal/kry/codegen_arena.go:205-226 | The same for statements and their edges |
| `ArenaReader.Cgen.ReadArms` | internal/kry/codegen_arena.go:228-258 | The same for match arms and their bodies |
| `ArenaReader.Cgen.FunctionAt` | internal/kry/codegen_arena.go:50-69 | The memoised lookup of a function shows its row with one view for each parameter row |
| `ArenaReader.Cgen.ParameterList` | internal/kry/codegen_arena.go:84-103 | Each parameter shows its row, its binding and the view of its default; a range that leads out of a table shows nothing |
| `ArenaReader.Cgen.ReadFunction` | internal/kry/codegen_arena.go:50-103 | A function the arena holds reads back with its parameters, defaults and body |
| `ArenaReader.Cgen.ReadProgram` | internal/kry/codegen_arena.go:71-82 | A program the arena holds reads back from its top ranges |
| `ArenaRoundTrip.BuildAndRead` | internal/kry/kir_arena_builder.go:10-56 | Building a program from an empty arena and reading it back gives, along every path the backend follows, the node the program has there, and no failed lookup |
| `ArenaRoundTrip.LambdaDefault` | internal/kry/kir_arena_builder.go:410-421 | A parameter whose default is a lambda with a parameter is recorded under another row |
| `ArenaPaths.ViewShows` | internal/kry/codegen_arena.go:191-258 | Along every path of edges the backend follows stands the node the tree has there, with its scalars and binding, and no other path leads anywhere |
| `ArenaPaths.OneNodePerRow` | internal/kry/kir_arena_builder.go:174-481 | Two trees one row holds agree along every path of stored edges, also through lambdas, folded values and captures |
| `TypeSpecs.VisitIsSubst` | internal/kry/kir_codegen.go:32-62 | With closed ranges the backend's in-place walk is simultaneous substitution |
| `TypeSpecs.SimultaneousExactly` | internal/kry/kir_codegen.go:32-62 | It is simultaneous on all types within its depth exactly when the ranges are closed |
| `TypeSpecs.CapturedName` | internal/kry/kir_codegen.go:44-50 | An argument naming another parameter is substituted again: a concrete case where the walk differs |
| `TypeSpecs.SubstComposes` | internal/kry/kir_codegen.go:32-62 | Substituting twice is substituting once with the composition |
| `TypeSpecs.InstanceOfInstance` | internal/kry/codegen.go:466-477 | Specialising a callee inside a specialised caller gives the callee's own instantiation |
| `TypeSpecs.SubstCloses` | internal/kry/kir_codegen.go:64-92 | Specialising with variable-free arguments leaves no variable |
| `TypeSpecs.LeavesExactly` | internal/kry/kir_codegen.go:64-92 | A type mentions a variable exactly when some path of argument positions leads to it |
| `TypeSpecs.SubstByPaths` | internal/kry/kir_codegen.go:32-62 | Substitution replaces the bound leaves, each by its type, and keeps every other node where it was |
| `Monomorphise.Cgen.BindArguments` | internal/kry/codegen.go:452-477 | Arguments are accepted exactly when none mentions an open parameter and none is too deep, and are bound to their parameters in order |
| `Monomorphise.Cgen.KeyForCall` | internal/kry/codegen.go:432-478 | A call has a key exactly when it can be specialised, and the substitution built beside it is the key's |
| `Monomorphise.Cgen.FunctionInstanceForCall` | internal/kry/codegen.go:432-494 | The instance returned is the one under the call's key; without permission to create, nothing is created |
| `Monomorphise.Cgen.AddStructInstance` | internal/kry/codegen.go:403-430 | A struct type is planned exactly when it can be lowered, once |
| `Monomorphise.Cgen.TraitImplementationMethod` | internal/kry/codegen.go:371-401 | A trait call resolves exactly when its receiver is concrete and an implementation has a method of that name, to the target standing there: in the first such implementation, the first such method |
| `Monomorphise.Cgen.WalkExpr` | internal/kry/codegen.go:309-369 | A walked expression has everything planned that emitting it will look up, and the walk stays within any plan that has it |
| `Monomorphise.Cgen.WalkStatements` | internal/kry/codegen.go:276-307 | The same for statements and nested bodies |
| `Monomorphise.Cgen.PlanWorklist` | internal/kry/codegen.go:253-261 | The worklist ends, also under polymorphic recursion, with every planned instance's body planned |
| `Monomorphise.Cgen.PlanInstances` | internal/kry/codegen.go:232-262 | Successful planning gives a closed plan, inside every closed plan; it succeeds when some closed plan has at most 4096 instances |
| `Monomorphise.Cgen.FunctionSymbolForCall` | internal/kry/codegen.go:496-508 | In a planned function the symbol lookup never fails and names the requested instance |
| `Monomorphise.Cgen.EmitExpr` | internal/kry/codegen.go:1197-1215 | Emission under a plan never fails, plans nothing, and every symbol denotes what its call or literal asks for, at its place among the symbols of its neighbours; a trait call asks for the method of its name, said by positions |
| `Monomorphise.LoweredIsWalked` | internal/kry/codegen.go:345-367 | Whatever emission visits, in its own order and by expression kind, the planning walk visits |
| `Monomorphise.Cgen.EmitProgram` | internal/kry/codegen.go:681-689 | The same for a whole program: regular functions, instances and top-level statements, as sequences of symbols |
| `Monomorphise.RegularInRange` | internal/kry/codegen.go:240-248 | The regular functions are exactly those that need no specialisation |
| `Monomorphise.FindMethodExactly` | internal/kry/codegen.go:390-398 | The method found is the first of that name, and none is found exactly when none has it |
| `Monomorphise.FindImplementationExactly` | internal/kry/codegen.go:371-401 | The target is that of the first implementation of the trait for the receiver that has the method, said by positions in the implementations and their methods |
| `Monomorphise.TraitTargets` | internal/kry/codegen.go:371-401 | A trait call asks for exactly that target, and for nothing when there is none |
| `Monomorphise.CallAsks` | internal/kry/codegen.go:432-478 | What an ordinary call asks for: its function and its arguments under the instantiation around it |
| `Monomorphise.LoweredOnce` | internal/kry/codegen.go:1197-1215 | Of an expression with the shape of its kind emission visits every child exactly once |
| `Monomorphise.MentionsExactly` | internal/kry/kir_codegen.go:64-92 | The scan for open parameters finds exactly the occurrences in a type, and gives up on types deeper than it looks |
| `Monomorphise.DepthExactly` | internal/kry/codegen.go:452-477 | The depth of a type is within a bound exactly when no path in it is longer |
| `Monomorphise.KeyMeans` | internal/kry/codegen.go:432-478 | An instance binds each parameter, of the function and of its receiver, to its own argument |
| `Monomorphise.SpecialisesExactly` | internal/kry/codegen.go:452-477 | A type argument is accepted exactly when no path leads to a leaf that stands for itself, and it is not too deep |
| `Monomorphise.LowersExactly` | internal/kry/codegen.go:403-430 | A struct type can be lowered exactly when the first struct of its name takes as many arguments and none of its own parameters occurs |
| `MonomorphiseLeast.LeastIsClosed` | internal/kry/codegen.go:232-262 | Closed plans are closed under intersection, so there is a least one |
| `MonomorphiseLeast.PlanProgram` | internal/kry/codegen.go:232-262 | Planning succeeds if and only if a closed plan of at most 4096 instances exists, and then reaches the least closed plan |
| `MonomorphiseLeast.InstancesAreGround` | internal/kry/codegen.go:432-494 | In a well-scoped program every planned instance is free of type variables, so each specialised type is the simultaneous substitution and variable-free |
| `MonomorphiseLeast.CallKeyIsGround` | internal/kry/codegen.go:449-478 | A call met under a variable-free instantiation asks for a variable-free instance |
| `JsonUtf8.SequenceEncodes` | internal/cruntime/cruntime_json.go:147-158 | Whatever the recogniser accepts is the encoding of a scalar value, in the only form RFC 3629 allows |
| `JsonUtf8.EncodingIsSequence` | internal/cruntime/cruntime_json.go:141-158 | Every scalar value outside ASCII is recognised in full, whatever follows |
| `JsonUtf8.UnchangedExactly` | internal/cruntime/cruntime_json.go:195-202 | Replacing malformed bytes leaves a string alone exactly when it is strict UTF-8 |
| `JsonUtf8.ScrubbedIsStrict` | internal/cruntime/cruntime_json.go:195-202 | What replacement yields is strict UTF-8 |
| `JsonUtf8.Utf8Table` | internal/cruntime/cruntime_json.go:141-146 | The encoder writes the four forms of RFC 3629 |
| `JsonTree.Compare` | internal/cruntime/cruntime_json.go:67-73 | The key comparison is the lexicographic order of byte strings, in all three outcomes |
| `JsonTree.SortedIsCollected` | internal/cruntime/cruntime_json.go:94-98 | Whatever order a sort gives equal keys, an object with distinct keys comes out in the one canonical order |
| `JsonTree.CollectLookup` | internal/cruntime/cruntime_json.go:293-303 | A collected object has each key once, in byte order, with the value of its last occurrence |
| `JsonTree.CollectEntries` | internal/cruntime/cruntime_json.go:293-303 | Sorting by key and position and compacting runs keeps every key's last value, despite the sort |
| `JsonTree.Unique` | internal/cruntime/cruntime_json.go:293-303 | Two objects in byte order with the same lookups are equal |
| `JsonTree.LessExactly` | internal/cruntime/cruntime_json.go:67-73 | A key is less than another exactly when it is a proper prefix or smaller at the first difference |
| `JsonWriter.KBuf.JsonEscape` | internal/cruntime/cruntime_json.go:5-31 | The escape loop appends the quoted text, with both line separators escaped |
| `JsonWriter.KBuf.JsonWrite` | internal/cruntime/cruntime_json.go:74-108 | Printing appends the text of the tree with every object's keys in byte order |
| `JsonRoundTrip.StringReads` | internal/cruntime/cruntime_json.go:159-207 | Parsing an escaped string gives it back, for all byte strings, up to replacement of malformed bytes |
| `JsonRoundTrip.NumberReads` | internal/cruntime/cruntime_json.go:208-237 | An integer spelling followed by anything that cannot continue a number is read whole |
| `JsonRoundTrip.DecimalReads` | internal/cruntime/cruntime_json.go:78-78 | A printed integer is an integer spelling with its value |
| `JsonRoundTrip.ValueReads` | internal/cruntime/cruntime_json.go:257-327 | Parsing a printed tree inside any text yields the tree and leaves what follows |
| `JsonRoundTrip.ParseAfterWrite` | internal/cruntime/cruntime_json.go:328-343 | Parsing a printed tree gives it with keys in byte order, if and only if all its strings are strict UTF-8; printing again gives the same text |
| `JsonRoundTrip.MalformedByteIsReplaced` | internal/cruntime/cruntime_json.go:195-202 | A byte that is no UTF-8 comes back as the replacement character |
| `JsonNormal.ValueIsNormal` | internal/cruntime/cruntime_json.go:257-327 | Every accepted value is canonical, strict and within the depth limit |
| `JsonNormal.CanonicalTextStands` | internal/cruntime/cruntime_json.go:344-355 | The canonical text kept beside a parsed tree parses to that very tree, whatever the input was |
| `JsonNormal.LastOccurrenceWins` | internal/cruntime/cruntime_json.go:293-303 | A repeated key stands for its last occurrence in any input |
| `JsonNesting.ExceedsNestingDepth` | internal/cruntime/cruntime_json.go:239-256 | The linear check rejects exactly the texts its state machine overflows on |
| `JsonNesting.StringRun` | internal/cruntime/cruntime_json.go:159-207 | Through a string, with escapes and surrogate pairs, check and parser stay together |
| `JsonNesting.ValueAgrees` | internal/cruntime/cruntime_json.go:257-327 | Wherever the parser gets, the check is at the parser's depth; where the parser refuses to go deeper, the check rejects |
| `JsonNesting.PreFilterAgrees` | internal/cruntime/cruntime_json.go:328-331 | A text the check accepts never meets the parser's depth failure, and a text it rejects the parser rejects too |
| `JsonReader.KJson.Value` | internal/cruntime/cruntime_json.go:257-327 | The cursor parser computes the grammar function: value, rest, error kind and depth |
| `JsonReader.KJson.String` | internal/cruntime/cruntime_json.go:159-207 | The string loop computes the grammar function on every input |
| `JsonReader.KJson.Hex` | internal/cruntime/cruntime_json.go:127-140 | Four hexadecimal digits, or the escape error |
| `JsonReader.KJson.NumberNode` | internal/cruntime/cruntime_json.go:208-237 | The number scanner, with integers beyond 64 bits kept as spelling |
| `JsonReader.JsonParse` | internal/cruntime/cruntime_json.go:328-343 | Accepts exactly the texts of RFC 8259 within the limits, with the tree they denote, and keeps a canonical text that parses to the same tree |
| `JsonSyntax.UnitReads` | internal/cruntime/cruntime_json.go:127-140 | One escape with four digits of either case denotes the character it spells |
| `JsonSyntax.PairReads` | internal/cruntime/cruntime_json.go:178-186 | Two escapes that spell a high and a low surrogate denote one character beyond the first plane |
| `JsonSyntax.EveryScalarHasAPair` | internal/cruntime/cruntime_json.go:178-186 | Every such character has exactly such a pair |
| `JsonSyntax.StringMeans` | internal/cruntime/cruntime_json.go:159-207 | A spelled string reads as the UTF-8 of its characters: escapes, pairs, lone surrogates and stray bytes by their own rules |
| `JsonSyntax.StringSyntax` | internal/cruntime/cruntime_json.go:159-207 | Whatever is read as a string is spelled that way |
| `JsonSyntax.NumMeans` | internal/cruntime/cruntime_json.go:208-237 | A number of the grammar of RFC 8259 reads as its value, or keeps its spelling |
| `JsonSyntax.NumSyntax` | internal/cruntime/cruntime_json.go:208-237 | Whatever is read as a number is one of that grammar |
| `JsonSyntax.DocMeans` | internal/cruntime/cruntime_json.go:257-327 | A document within the depth limit, with any white space between its tokens, reads as the tree it denotes |
| `JsonSyntax.ValueSyntax` | internal/cruntime/cruntime_json.go:257-327 | Whatever is read as a value is a document within the limit |
| `JsonSyntax.ParsesExactly` | internal/cruntime/cruntime_json.go:328-343 | A text is accepted with a tree if and only if it spells a document of RFC 8259 within the limits that denotes this tree |
| `JsonSyntax.EscapeTable` | internal/cruntime/cruntime_json.go:5-31 | What the writer makes of each byte and of the two line separators |
| `JsonSyntax.EscapedIsHarmless` | internal/cruntime/cruntime_json.go:5-31 | Printed text has no control byte, no angle bracket or ampersand, and no line separator |
| `JsonSyntax.PrintedSample` | internal/cruntime/cruntime_json.go:74-108 | A tree with every kind of node and its text, letter by letter |
| `Unify.UnifyExtends` | internal/kry/checker.go:1781-1828 | Unification only adds bindings, each meeting its constraint, and never changes an earlier one |
| `Unify.UnifySound` | internal/kry/checker.go:1781-1828 | After success, under any later substitution that keeps the inferred bindings, the resolved spec is the actual type exactly when the test left out would pass: struct names agree |
| `Unify.NamesAreNotCompared` | internal/kry/checker.go:1814-1816 | A concrete call where a Bag is accepted for a Box |
| `Unify.UnifyComplete` | internal/kry/checker.go:1781-1828 | Every instantiation under which the spec is the actual type is found, with all parameters the spec mentions inferred |
| `Unify.EqualTypes` | internal/kry/types.go:186-245 | Types the checker calls equal are equal |
| `Unify.ResolveAgrees` | internal/kry/checker.go:1671-1674 | A spec resolves alike under parameters that agree on what it mentions |
| `Unify.EqualExactly` | internal/kry/types.go:186-245 | Types compare equal exactly when they are the same, complete, and within the depth compared |
| `Unify.CompatibleExactly` | internal/kry/checker.go:116-127 | Types are compatible exactly when equal, or arrays one of which has unknown elements |
| `Unify.ConstructorsExactly` | internal/kry/types.go:538-604 | The built-in constructors by name and number of arguments |
| `Unify.HeadExactly` | internal/kry/types.go:609-640 | A struct takes as many types as it has parameters, each meeting its constraint; an enum takes none |
| `Unify.ResolveInstantiates` | internal/kry/types.go:471-640 | Resolving under an instantiation is resolving over the variables and replacing them |
| `Unify.DepthLimitExactly` | internal/kry/types.go:471-474 | A nested type resolves exactly down to the depth limit |
| `Infer.UnifiedIsSound` | internal/kry/checker.go:1645-1692 | What one argument unified stands under the final substitution |
| `Infer.Checker.UnifyGenericSpec` | internal/kry/checker.go:1781-1828 | The method updates the scope exactly as the specification function says |
| `Infer.Checker.FirstRounds` | internal/kry/checker.go:1646-1681 | Arguments in order, with overloaded function names left for later |
| `Infer.Checker.SecondRounds` | internal/kry/checker.go:1687-1697 | The names of overloaded or generic functions, checked against the type the others have settled |
| `Infer.Checker.MatchFunctionCall` | internal/kry/checker.go:1615-1721 | On a match every parameter type is the argument type under the final substitution, exactly when struct names agree, the recorded type arguments are that substitution and meet their constraints, and the checker's scope is restored; every instantiation under which the call is well typed is found, also with an expected result and waiting arguments |
| `Infer.ScopeExactly` | internal/kry/checker.go:1619-1638 | In scope are the function's type parameters with their constraints, and those of its receiver's struct it does not declare again |
| `Infer.UnresolvedExactly` | internal/kry/checker.go:1723-1740 | A parameter type is unresolved exactly when a path leads to a variable that stands for itself |
| `Infer.ResultIsGenericExactly` | internal/kry/checker.go:1761-1779 | A result is generic exactly when a path leads to one of the function's type parameters |
| `Infer.ArgumentsFit` | internal/kry/checker.go:1781-1828 | Every inferred type argument meets the constraint of its parameter |
| `Infer.MatchApply` | internal/kry/checker.go:1615-1721 | A concrete call with an overloaded function name: the other argument settles the parameter, and the call has the result and type arguments it should |
| `Flow.QualifiedIndex` | internal/kry/codegen.go:1060-1072 | A qualified variant has its own enum's position |
| `Flow.BackendTestsAsPromised` | internal/kry/codegen.go:1033-1043 | The emitted enum test agrees with the promised one on all values exactly when the name is qualified, or the first enum with the variant has it at the same position, or at none of this enum when this lacks it |
| `Flow.ExhaustiveIsComplete` | internal/kry/checker.go:902-957 | A match accepted as exhaustive with fitting patterns selects an arm for every value |
| `Flow.OptionCompleteExactly` | internal/kry/checker.go:911-945 | A match on an Option selects an arm for every value exactly when both cases have a pattern of their own |
| `Flow.BoolPatternsOnOption` | internal/kry/checker.go:911-945 | Two Bool patterns on an Option are accepted as exhaustive and match no value |
| `Flow.EnumCompleteExactly` | internal/kry/checker.go:927-945 | A match on an enum selects an arm for every value exactly when every variant has an arm naming this enum, or naming none where the first enum with that variant has it at the same position |
| `Flow.ForeignVariant` | internal/kry/checker.go:927-931 | A variant of another enum is accepted as exhaustive and matches no value |
| `Flow.UnqualifiedVariant` | internal/kry/codegen.go:1074-1084 | An unqualified variant that an earlier enum has elsewhere is accepted as exhaustive and matches no value |
| `Flow.BlockSound` | internal/kry/checker.go:602-619 | In every run a block falls through only if its flow says so, and leaves a loop only inside one |
| `Flow.StmtSound` | internal/kry/checker.go:621-863 | The same for every statement |
| `Flow.AcceptedReturns` | internal/kry/checker.go:445-452 | An accepted function with a result never finishes without returning, in any run |
| `Flow.AcceptedFunctionReturns` | internal/kry/checker.go:445-452 | With fitting patterns it also never meets a match without an arm |
| `Flow.Checker.MatchIsExhaustive` | internal/kry/checker.go:902-957 | The loop computes the exhaustiveness predicate |
| `Flow.Checker.Statement` | internal/kry/checker.go:621-863 | The checker's statement pass computes the flow function and its errors |
| `Flow.Checker.FunctionBody` | internal/kry/checker.go:445-452 | A body is accepted exactly when its flow must return or its result is Nil |
| `Flow.OtherPatternsAgree` | internal/kry/codegen.go:1033-1043 | Patterns that name no enum are tested as promised on every value |
| `Flow.ExhaustiveExactly` | internal/kry/checker.go:902-957 | Which arms pass for exhaustive on each type, pattern by pattern |
| `Flow.CheckedExactly` | internal/kry/checker.go:602-863 | A block passes if and only if every statement that can be reached is well placed, and its flow is what its branches and arms leave open |
| `Flow.RefusedExactly` | internal/kry/checker.go:445-452 | A checked body with a result is refused exactly when some run reaches its end, if every arm can be taken and no `unsafe` block always leaves the function |
| `Flow.UnsafeReturnIsRefused` | internal/kry/checker.go:767-777 | A function that returns from inside an `unsafe` block in every run is refused |
| `Flow.ExitsMean` | internal/kry/runtime.go:1319-1422 | How single statements end, what `break` and `continue` do to their loop |
| `Captures.Checker.CheckExpr` | internal/kry/checker.go:958-1022 | Checking succeeds exactly on accepted expressions, and then every lambda in the expression has recorded exactly what the reads inside it, found by their paths, are bound to where it stands, each once |
| `Captures.Checker.CheckLambda` | internal/kry/checker.go:456-512 | The same for a lambda and, through propagation, the lambda around it |
| `Captures.Checker.CheckBody` | internal/kry/checker.go:602-619 | The same through declarations, which hide names for what follows |
| `Captures.Checker.AddCapture` | internal/kry/checker.go:514-522 | A capture is added once |
| `Captures.Checker.LookupOwner` | internal/kry/checker.go:49-56 | The innermost scope that binds the name |
| `Captures.Checker.Propagate` | internal/kry/checker.go:502-509 | The enclosing lambda captures what comes from outside it |
| `Captures.InnerCapturesReach` | internal/kry/checker.go:502-509 | What a lambda at any depth inside another captures from outside that one, that one captured too |
| `Captures.AssignedOnlyIsNotCaptured` | internal/kry/checker.go:671-692 | A variable that is only assigned is not captured |
| `Captures.FreeExactly` | internal/kry/checker.go:958-1034 | A name is free in an expression exactly when a path leads to a read of it past no binder of the name |
| `Captures.LookupExactly` | internal/kry/checker.go:49-56 | The binding found is the innermost, by position |
| `Captures.ReadsResolved` | internal/kry/checker.go:1022-1034 | Recording the free names as they resolve is recording what the reads, found by their paths, are bound to |
| `Captures.BodyAcceptedExactly` | internal/kry/checker.go:621-660 | A block is accepted exactly when its statements are and each name it declares is new to its scope |
| `Captures.AcceptedExactly` | internal/kry/checker.go:456-501 | An expression is accepted exactly when its parts are and no lambda repeats a parameter |
| `Captures.StatementAcceptedExactly` | internal/kry/checker.go:671-717 | A statement is accepted exactly when its parts are and what it assigns to is bound |
| `Captures.LastDeclared` | internal/kry/checker.go:621-660 | A name stands for its last declaration in the block |
| `GatewaySafety.StepKeepsInv` | internal/kry/discord_gateway.go:93-568 | Every step keeps the byte account equal to the sum over pending requests, the limits, and one fate for each request |
| `GatewaySafety.RemoveAccounts` | internal/kry/discord_gateway.go:560-568 | Under the account the negative clamp never fires |
| `GatewaySafety.AllPresent` | internal/kry/discord_gateway.go:427-441 | As many indexes below the count as the count are all of them: the missing-index branch is unreachable |
| `GatewaySafety.EveryRunAccounts` | internal/kry/discord_gateway.go:93-568 | In every run the text that all pending requests hold, with 64 bytes for each stored part, is at most 32 MiB; at most 64 are pending, and each request id is in exactly one place |
| `GatewaySafety.OnlyBindDrops` | internal/kry/discord_gateway.go:93-121 | Only a new session drops requests, exactly those queued or pending when it starts |
| `GatewaySafety.EndedSessionHasReported` | internal/kry/discord_gateway.go:177-206 | Once a session has ended with nothing being encoded, each request was reported once, never sent, or dropped earlier |
| `GatewaySafety.PartBytesCount` | internal/kry/discord_gateway.go:371-380 | A part counts its text, all three lists joined, and 64 bytes |
| `GatewaySafety.SumBytesCount` | internal/kry/discord_gateway.go:409-443 | The account of a session is the text all its parts hold and 64 bytes for each part |
| `GatewaySafety.TooLargeExactly` | internal/kry/discord_gateway.go:409-421 | In every run a new chunk of a pending query is refused for its size exactly when the text held would pass 32 MiB |
| `GatewayRuns.WindowHoldsAtMost110` | internal/kry/discord_gateway.go:154-168 | In every run whose event stamps do not go back, any sixty seconds hold at most 110 recorded events; other steps may carry any time |
| `GatewayRuns.FullListsApart` | internal/kry/discord_gateway.go:305-318 | Two full-list requests for one guild are thirty seconds apart, also across sessions |
| `GatewayRuns.StaleClockBreaksTheWindow` | internal/kry/discord_gateway.go:281-283 | One step back of the stamps, of any size, by a member request is enough for a run with 111 events in one window |
| `GatewayQueries.AnyOrderCompletes` | internal/kry/discord_gateway.go:393-441 | In every run, with any steps between the chunks of a query and any order and duplicates of them, an acceptable chunk completes it exactly when all indexes have arrived, with the first parts by index |
| `GatewayQueries.PendingCollects` | internal/kry/discord_gateway.go:405-430 | In every run a pending request holds the first part of every index that reached it, and an index is missing |
| `GatewayQueries.ArrivalOrderDoesNotMatter` | internal/kry/discord_gateway.go:393-441 | Two runs in which the same chunks reach a query, in any orders and with anything between, give the same answer |
| `GatewayQueries.NoneDroppedExactly` | internal/kry/discord_gateway.go:93-121 | A run drops no request exactly when each of its sessions starts with nothing queued or pending |
| `GatewayQueries.ReportedOnce` | internal/kry/discord_gateway.go:177-206 | Such a run whose session has just ended with nothing being encoded has reported every request that was sent exactly once |
| `GatewayQueries.LateRecordIsDropped` | internal/kry/discord_gateway.go:445-468 | After a result fails to be encoded once its session ended, the next session drops its record, and no record of the request is handed out |
| `GatewayQueries.ARunLosesARecord` | internal/kry/discord_gateway.go:445-468 | A run from the start that does so |
| `Gateway.DiscordGatewayState.BindSession` | internal/kry/discord_gateway.go:93-121 | The bind is the step of the system |
| `Gateway.DiscordGatewayState.Send` | internal/kry/discord_gateway.go:123-175 | The send is the step of the system |
| `Gateway.DiscordGatewayState.UnbindSession` | internal/kry/discord_gateway.go:177-206 | The records returned name every queued and pending request once |
| `Gateway.DiscordGatewayState.RequestMembers` | internal/kry/discord_gateway.go:281-345 | Registration up to the frame is the step, with every refusal |
| `Gateway.DiscordGatewayState.FrameWritten` | internal/kry/discord_gateway.go:347-360 | A failed send takes back only the request it registered |
| `Gateway.DiscordGatewayState.MemberChunk` | internal/kry/discord_gateway.go:363-443 | A chunk is the step, to the assembled result |
| `Gateway.DiscordGatewayState.ResultEncoded` | internal/kry/discord_gateway.go:445-470 | The second critical section of a completed query |
| `Gateway.DiscordGatewayState.RateLimited` | internal/kry/discord_gateway.go:495-526 | A rate-limit event fails the request it names, with the wait it announced |
| `Gateway.DiscordGatewayState.TakeFailures` | internal/kry/discord_gateway.go:528-543 | Taking empties the queue after expiry |
| `Gateway.DiscordGatewayState.ExpireRequests` | internal/kry/discord_gateway.go:545-558 | Exactly the overdue requests fail, each once, in the order the map is walked |
| `Gateway.RecordIds` | internal/kry/discord_gateway.go:184-196 | An ended session's records are the queued and pending requests, as multisets |
| `GatewayAnswers.ExpiryExactly` | internal/kry/discord_gateway.go:545-558 | Exactly the requests older than ten minutes end, each with one record |
| `GatewayAnswers.WindowCounts` | internal/kry/discord_gateway.go:154-168 | The throttle counts the events of the last sixty seconds |
| `GatewayAnswers.SendAcceptedExactly` | internal/kry/discord_gateway.go:123-175 | In every run whose stamps do not go back a send passes exactly when a session is open and fewer than 110 events were sent in the last minute |
| `GatewayAnswers.RegisterAcceptedExactly` | internal/kry/discord_gateway.go:281-345 | Exactly when a member request is accepted: session, intents, room, and the throttles |
| `GatewayAnswers.ChunkAnswersExactly` | internal/kry/discord_gateway.go:382-443 | Which chunk gets which answer |
| `GatewayAnswers.AssembledInOrder` | internal/kry/discord_gateway.go:427-441 | A complete result is the parts' lists in the order of their indexes |
| `GatewayAnswers.FirstIsFirst` | internal/kry/discord_gateway.go:405-408 | Of several chunks with one index the first to arrive counts |
| `GatewayAnswers.EndRecordsName` | internal/kry/discord_gateway.go:184-196 | Each request pending at the end of a session has one record, with its guild and nonce |
| `ArtifactCodec.LEOfValue` | internal/kry/artifact.go:316-329 | Bytes are the little-endian form of their value |
| `ArtifactBijection.DecodeAfterEncode` | internal/kry/artifact.go:181-315 | Decoding an encoded artifact gives it back in version 6, or the verdict on its KIR; in versions 3 to 5 exactly when the last source is not empty |
| `ArtifactBijection.EmptyRootIsRejected` | internal/kry/artifact.go:270-283 | A version 3 artifact of one empty source is valid and is rejected |
| `ArtifactBijection.AcceptedIsEncoding` | internal/kry/artifact.go:181-315 | Every accepted input is exactly the encoding of the artifact returned, although integer reads tolerate short input |
| `ArtifactBijection.NoTwoEncodings` | internal/kry/artifact.go:181-315 | No two inputs decode to the same artifact: truncations and extensions are rejected |
| `ArtifactBijection.IntExact` | internal/kry/artifact.go:316-329 | A short integer read leaves nothing behind it |
| `ArtifactBijection.StringExact` | internal/kry/artifact.go:330-340 | An accepted string was whole |
| `ArtifactIO.BuildArtifact` | internal/kry/artifact.go:146-168 | The writer emits the encoding, or refuses one above the limit |
| `ArtifactIO.DecodeArtifact` | internal/kry/artifact.go:181-315 | The reader loop computes the decoding function with its two kinds of error |
| `ArtifactIO.Reader.AllEntries` | internal/kry/artifact.go:242-283 | The entry loop, with root first, no duplicate and safe paths |
| `SealedContainer.UnframeAfterFrame` | internal/kry/artifact_crypt.go:77-85 | Reading a written container gives its fields back |
| `SealedContainer.UnframedIsFrame` | internal/kry/artifact_crypt.go:91-127 | An accepted container is exactly the frame of its fields |
| `SealedContainer.UnsealAfterSeal` | internal/kry/artifact_crypt.go:51-137 | Opening what was sealed gives the plaintext back, within the size limit |
| `SealedContainer.OnlySealedOpens` | internal/kry/artifact_crypt.go:91-137 | With an authentic cipher, whatever opens was sealed with that passphrase |
| `SealedContainer.EncryptArtifact` | internal/kry/artifact_crypt.go:51-86 | The writer emits the frame, with the iteration checks |
| `SealedContainer.DecryptArtifact` | internal/kry/artifact_crypt.go:91-137 | The reader computes the opening function |
| `ArtifactPaths.SafeExactly` | internal/kry/artifact.go:38-43 | A safe path is relative, has no NUL and is no "."; no component between its slashes is ".." |
| `ArtifactPaths.SafeStaysBelow` | internal/kry/artifact.go:38-43 | Joined to any directory a safe path leads to a place below it |
| `ArtifactLayout.MagicTexts` | internal/kry/artifact.go:15-22 | The magic numbers and names as text |
| `ArtifactLayout.LEByPosition` | internal/kry/artifact.go:316-329 | Integers are written least significant byte first |
| `ArtifactLayout.Sample6` | internal/kry/artifact.go:146-168 | The bytes of a small artifact |
| `ArtifactLayout.Sample5` | internal/kry/artifact.go:215-226 | The bytes a version 5 artifact is read from: no KIR |
| `ArtifactLayout.Sample4` | internal/kry/artifact.go:215-226 | Version 4: no scopes either |
| `ArtifactLayout.Sample3` | internal/kry/artifact.go:215-226 | Version 3: no language either |
| `ArtifactLayout.NamesByVersion` | internal/kry/artifact.go:191-236 | Which compiler, target and language each version must name |
| `ArtifactLayout.EntriesExactly` | internal/kry/artifact.go:242-283 | Entries are accepted exactly when each is acceptable, the first alone is the root, and no path occurs twice |
| `ArtifactLayout.SealedLayout` | internal/kry/artifact_crypt.go:51-86 | Exactly when sealing works, with the container's fields at their offsets |
| `ArtifactLayout.BEByPosition` | internal/cruntime/cruntime_sha_json.go:54-56 | The bit count is written most significant byte first |
| `PathClean.CleanIsNormal` | internal/cruntime/cruntime_filesystem.go:463-500 | The cleaned path has no empty or "." component but a lone ".", ".." only in front of a relative path, and cleaning again changes nothing |
| `PathClean.CleanKeepsPlace` | internal/cruntime/cruntime_filesystem.go:463-500 | The cleaned path leads to the same place from every directory |
| `PathClean.ShownComponents` | internal/cruntime/cruntime_filesystem.go:463-500 | A shown stack of components reads back as that stack |
| `PathClean.Cleaner.Up` | internal/cruntime/cruntime_filesystem.go:477-489 | Going up removes the last name from the output buffer, unless it is ".." |
| `PathClean.Cleaner.Run` | internal/cruntime/cruntime_filesystem.go:469-500 | The buffer algorithm computes the stack specification, writing inside length + 4 bytes |
| `PathClean.CleanBytes` | internal/cruntime/cruntime_filesystem.go:423-500 | The whole function on every path |
| `PathClean.ComponentsExactly` | internal/cruntime/cruntime_filesystem.go:463-500 | The components of a path are its maximal runs without a slash |
| `PathClean.StaysBelow` | internal/cruntime/cruntime_filesystem.go:477-489 | Without ".." a path never leads above where it starts |
| `HashStream.PadFillsBlocks` | internal/cruntime/cruntime_sha_json.go:49-56 | Padding fills whole blocks with the fewest zero bytes that do |
| `HashStream.AbsorbSplit` | internal/cruntime/cruntime_sha_json.go:41-48 | Absorbing a message in two pieces is absorbing it whole |
| `HashStream.FieldIsStandard` | internal/cruntime/cruntime_crypto.go:69-77 | The written length field is the standard's if and only if that has 64 bits or the bit count has no part above them |
| `HashStream.Hasher.Update` | internal/cruntime/cruntime_sha_json.go:41-48 | Any split over updates leaves the state of the message |
| `HashStream.Hasher.PadWithZeros` | internal/cruntime/cruntime_sha_json.go:51-53 | The padding loop ends with the standard's count of zeros |
| `HashStream.Hasher.Final` | internal/cruntime/cruntime_sha_json.go:49-61 | The words written are the hash of the padded message of section 5.1 of FIPS 180-4, or sections 3.1 and 3.2 of RFC 1321 |
| `HashStream.HashPieces` | internal/cruntime/cruntime_crypto.go:61-85 | Hashing in any number of pieces is hashing the message |
| `HashStream.CryptoSha384` | internal/cruntime/cruntime_crypto.go:92-97 | SHA-384 is the hash from its own initial words, cut to 48 of its 64 bytes |
| `HashStream.InitialWords` | internal/cruntime/cruntime_sha_json.go:36-40 | The initial words are the roots of section 5.3 of FIPS 180-4 |
| `HashStream.WordMeans` | internal/cruntime/cruntime_sha_json.go:58-61 | Digest words are written in the byte order of their hash |
| `RateLimit.WindowsHold` | internal/kry/discord_http.go:114-190 | In every run the grants charged in a window and the remaining count stay within the count the window opened with |
| `RateLimit.GrantsWithinWindow` | internal/kry/discord_http.go:120-133 | Grants before the stored reset are at most the first remaining count, and the stored reset is never later than the first |
| `RateLimit.OpenWindowOnlyTightens` | internal/kry/discord_http.go:181-189 | While a window is open, observations only bring the reset nearer and the count down |
| `RateLimit.NoGrantBeforeDeadline` | internal/kry/discord_http.go:118-128 | No request is granted before any announced global deadline of its application |
| `RateLimit.RetryAfterStored` | internal/kry/discord_http.go:164-189 | One observation stores a 429's wait exactly when no open window resets earlier |
| `RateLimit.GrantedTooSoon` | internal/kry/discord_http.go:181-185 | When one does, and nothing follows, a request after its reset is granted before the announced wait is over |
| `RateLimit.WaitRespectedExactly` | internal/kry/discord_http.go:114-190 | In every run requests on the route of a 429 are refused until its wait is over, at every point, if and only if it was stored with it and no later response resets its bucket earlier or moves the route to a bucket that is not empty until then |
| `RateLimit.HeldExactly` | internal/kry/discord_http.go:173-190 | A step leaves the route refused until an instant exactly when it does not loosen it |
| `RateLimit.LaterResponseGrants` | internal/kry/discord_http.go:182-189 | A later response of the bucket lets a request through before the wait is over |
| `RateLimit.MovedRouteGrants` | internal/kry/discord_http.go:179-181 | So does one that names another bucket |
| `RateLimit.UnnamedWaitGrants` | internal/kry/discord_http.go:176-178 | A 429 that names no bucket does not make its route wait |
| `RateLimit.DiscordRateLimiter.Ask` | internal/kry/discord_http.go:116-136 | One look under the lock is the step |
| `RateLimit.DiscordRateLimiter.Wait` | internal/kry/discord_http.go:114-146 | The loop grants at the first instant the limits of that moment allow, whatever other requests and responses do between its looks |
| `RateLimit.DiscordRateLimiter.Observe` | internal/kry/discord_http.go:148-190 | Learning from a response is the step |
| `RateLimit.GrantsAsAnnounced` | internal/kry/discord_http.go:120-163 | While a window is open the grants charged to it are at most what the response that opened it announced in its own fields: nothing after a 429 with a wait or without a count |
| `RateLimit.OpenedAsAnnounced` | internal/kry/discord_http.go:152-190 | The window lasts as long as that response says, in its own fields |
| `RateLimit.WindowIsOpener` | internal/kry/discord_http.go:173-190 | The window of a bucket is the one its last opening response began |
| `RateLimit.NoGrantUnderGlobal` | internal/kry/discord_http.go:118-128 | After a response that is global, by body, scope or header of a 429, nothing of its application is granted until the wait it states is over |
| `RateLimit.GlobalIsAnnounced` | internal/kry/discord_http.go:161-172 | A global deadline is the end of the wait some such response announced |
| `Fold.MulIsChecked` | internal/kry/runtime.go:1994-2006 | Dividing the wrapped product back finds every overflow and nothing else |
| `Fold.AddIsChecked` | internal/kry/runtime.go:1982-1987 | The sum test is the 64-bit range |
| `Fold.SubIsChecked` | internal/kry/runtime.go:1988-1993 | The difference test is the 64-bit range |
| `Fold.IntsSound` | internal/cruntime/cruntime_arithmetic.go:4-26 | Folded integer operators agree with the checked arithmetic of the runtime |
| `Fold.UIntsSound` | internal/kry/fold.go:122-163 | Unsigned results cut from 64 bits are those of the width |
| `Fold.FoldingPreservesEvaluation` | internal/kry/fold.go:18-166 | A folded expression evaluates to the folded value, of its type, whatever the rest of the program does: no trap is hidden |
| `Fold.UntypedComplementNegates` | internal/kry/fold.go:50-58 | Without the typing the complement of an Int would fold to its negation |
| `Fold.Node.ConstantValue` | internal/kry/fold.go:18-26 | Reading through cached constants gives the constant of the tree |
| `Fold.Node.FoldConstExpr` | internal/kry/fold.go:8-16 | What is recorded in a node is what evaluation gives |
| `Fold.QuotientAndRemainder` | internal/kry/runtime.go:2007-2019 | Quotient and remainder are those that truncate toward zero |
| `Fold.IntsMean` | internal/kry/runtime.go:1982-2019 | Integer operators and comparisons by their mathematical meaning |
| `Fold.UIntsMean` | internal/kry/fold.go:118-163 | Unsigned operators by their meaning modulo the width |
| `Fold.UIntsDivide` | internal/kry/fold.go:134-146 | Unsigned quotient and remainder |
| `Fold.BitsMean` | internal/kry/fold.go:118-127 | Bit operators bit by bit |
| `Fold.ComplementMeans` | internal/kry/fold.go:50-58 | The complement bit by bit |
| `Fold.LogicMeans` | internal/kry/runtime.go:1810-1829 | The logical operators are the truth tables |
| `Fold.LogicSkips` | internal/kry/runtime.go:1810-1828 | Logical operators that are decided by their left operand do not look at the right one |
| `Fold.UIntsBits` | internal/kry/fold.go:118-127 | On numbers of a width the bit operators give a number of that width |
| `Fold.ShiftsMean` | internal/kry/fold.go:160-170 | Shifts multiply and divide by powers of two, and only by less than the width |
| `Fold.BinaryTypeExactly` | internal/kry/checker.go:1087-1170 | Which operands an operator takes and what type it gives |

## Left out

- CallConv.CRuntime.Run: says nothing of programs the checker rejects (unknown names, wrong counts, non-Bool conditions), of calls with more than 64 arguments, and of programs with a declaration whose initialiser reads its own name; defer and the eager lowering of `&&` and `||` in emitted C are not modelled, and operands are evaluated left to right although C leaves their order open.
- CallConv.CRuntime.Parameters: omitted defaults are evaluated in the callee, as the emitted C does; the interpreter evaluates them in the caller, where a parameter whose default calls its own function never ends.
- Monomorphise.Cgen.PlanInstances: type expressions are trees, so malformed type strings, types written in a form that is not the canonical one and the sharing of parsed types through the cache (which the second substitution above would also write to) are not modelled; nor is the clash of an instance symbol with a user's function name.
- Monomorphise.Cgen.EmitProgram: emission is the sequence of symbols it refers to, in the order of the walk, not the C text.
- Infer.Checker.MatchFunctionCall: the types of argument expressions are given by a function of the expected type; what the names of overloaded or generic functions give when a type with unsettled parameters is expected of them is not modelled; a function type written without a result is outside the model. The comparison of types keeps no table of visited pairs, which changes no result on finite types.
- Flow.AcceptedFunctionReturns: conditions, iterations, values and traps of expressions come from an oracle; type errors of expressions, worker and visibility checks, and defer are left out; the oracle's scrutinee values are assumed to have their checked type.
- Captures.Checker.CheckExpr: types, mutability, visibility and overloads are left out, a name that resolves to no binding is a function and captures nothing, and the statements given are those the checker visits.
- Fold.FoldingPreservesEvaluation: Float folding and instruction budgets are left out.
- JsonReader.JsonParse: floats keep their spelling, as their conversion and printing depend on the C library, so a tree with floats gets no canonical text; memory budgets are left out and failure by longjmp is a failure result.
- JsonWriter.KBuf.JsonWrite: options, results, sets, bytes and values already carrying JSON text are printed by rules that add nothing to the cases modelled.
- ArenaReader.Cgen.ReadArms: of an arm only pattern and body are read, as the backend does; the index width of 32 bits is left out of the builder.
- GatewayRuns.WindowHoldsAtMost110: speaks of recorded stamps, and holds for runs whose stamps do not go back, which the counterexample shows is needed.
- Gateway.DiscordGatewayState.RequestMembers: validation of arguments and JSON encoding happen before the lock and are left out; encoding a failure record is taken to succeed.
- GatewaySafety.EndedSessionHasReported: the order in which a map is walked is any order.
- ArtifactIO.BuildArtifact: collecting sources, checking them and emitting the IR are left out; digests, UTF-8 validity of sources and validity of the IR are parameters.
- SealedContainer.OnlySealedOpens: key derivation and cipher are parameters, of which only that opening undoes sealing, and authenticity where named, is assumed.
- PathClean.CleanBytes: the Windows branches are left out.
- HashStream.Hasher.Final: the compression functions are parameters; of the bit count only the low 64 bits are written, which for the hashes with a field of 128 bits is not the standard's from 2^61 bytes on.
- ArenaBuilder.KirArenaBuilder.Function: captures are taken in the order given; the builder sorts them first.
- RateLimit.WaitRespectedExactly: leaves out runs in which a global deadline covers the wait or a response is stamped after it.
- RateLimit.DiscordRateLimiter.Observe: header parsing is given, durations are whole nanoseconds, and route keys are given as path and major parameters.
- Sockets, TLS, HTTP transport, processes, databases, FFI, the command line, the installer, the debugger, the builtin dispatch, the lexer and the parser are not part of this model.
