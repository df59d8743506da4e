# Kagari verification

A Dafny model of the parts of the Kagari scripting language whose correctness is hard to see from the code,
with proofs about them. `dafny verify dfyconfig.toml` checks the whole project.

| files | what they model |
|---|---|
| `Mir`, `Clif`, `Lowering`, `Emit`, `NativeCorrectness`, `NativeSimulation`, `NativeTheorems` | the scalar native compiler: MIR with checked i32 arithmetic, a block machine with wrapping 64-bit arithmetic and an arbitrary polling helper, the emitter on a mutable builder, and its correctness |
| `AccessFacts`, `AccessFlow`, `AccessSoundness`, `AccessCarried`, `AccessConstants`, `AccessForgotten`, `AccessVerifier` | the access-flow verifier: facts and their join, the transfer, a concrete semantics with scoped references, the types and constants values are carried with, a function on which a type is forgotten, and the budgeted fixpoint and validation loop |
| `Metering`, `Availability`, `AvailabilityQuery` | the debug-availability index: a fallible in-place heapsort, an implicit max-end tree, and the pruned query against filter-then-sort |
| `Cancellation` | the cancellation token as interleaved atomic steps of any number of threads |
| `ProgramGraph` | module-graph checks: dependency closures, visibility, layouts, reachability from the root |
| `Bridge` | the bridge-method recogniser and the executable origin map |
| `Fingerprint` | the streaming FNV-1a/64 fingerprint |
| `NumericPayload` | canonical payloads of numeric constants |
| `CfgExpression`, `TestFiles` | the conditional-compilation evaluator and the test-file classification of the structure checker |
| `Documents`, `Session` | the language server's document store over layered sources, and its message loop |

How the code is rendered:

- An object whose methods update fields is a class (`FunctionBuilder`, `TypeBudget`, `Meter`, `Sink`, `Reader`,
  `Classifier`, `OpenDocuments`, `Session`); its methods are proved against functions, and the theorems are about
  those functions. The heapsort and the index work in place on an array.
- The cancellation token is a state machine. A schedule is any sequence of spawned operations and single steps of
  threads; the theorems hold after every schedule.
- Callbacks that may fail or cancel are arbitrary functions of everything they were asked before: the charge callback
  of the availability index, the polling helper of native code, the cancellation token of graph verification.
- The native theorems ask for as many jumps as the emitted code has blocks; the emitted code has no cycles, so this
  bound is the size of the product and not a restriction on inputs.
- `usize` charges and sizes are unbounded. The limits they are compared with (100,000,000 units, 64 MiB) are far below
  the width at which the code saturates, so the comparisons come out alike.
- What the initialization pass supplies to the access verifier is the predicate `AccessSoundness.FlowChecked`:
  agreeing successor and predecessor lists, reachability from block 0, and every read assigned on all paths.
- The run-time model of references is given by `AccessSoundness.Executes`: what a call returns and how it changes the
  world is arbitrary, as long as the world stays free of references and the declared result type admits the value.

Three things the code does that one might not expect, each with its exact condition and a concrete input:

- A join can forget a known type without marking a conflict (`AccessCarried.JoinForgetsExactly`), and the value may then
  be passed where any type without references is declared (`AccessCarried.UnfirmFlowsExactly`,
  `AccessForgotten.TypeCanBeForgotten`). The theorem about carried types covers every value that met no such join.
- A register subtracted from itself is listed among the traps although it cannot overflow (`NativeTheorems.TrapsExactly`,
  `NativeTheorems.SelfSubtractionIsListed`).
- Two occurrences of one flag in a cfg predicate are taken as independent, so a predicate that never holds may count as
  possible (`CfgExpression.RepeatedFlagIsImprecise`); without repetitions the evaluator is exact.

Values that pass through a cell, module storage or an untyped operation have no known origin: a cell can be shared by
slots declared with different access.

## Model

| member | source | states |
|---|---|---|
| `NativeTheorems.LoweringCorrect` | crates/kagari-codegen-cranelift/src/emit.rs:150-258 | for every accepted function, every polling helper and enough jumps, the emitted code halts with exactly the status, polled offsets and result cell of the MIR run with checked i32 arithmetic, and no 64-bit operation wraps |
| `NativeTheorems.ExitsAreAttributed` | crates/kagari-codegen-cranelift/src/emit.rs:173-257 | every run halts; a failure after an OK poll is an overflow whose last polled offset is the trapping instruction's own offset and is listed in the traps; the result cell is written if and only if the status is OK; a helper status is returned unchanged |
| `NativeTheorems.ArtifactMetadata` | crates/kagari-codegen-cranelift/src/emit.rs:183-238 | safepoints are all instruction offsets and the terminator offset in order; traps are, in order, the offsets of the instructions that some operand values make overflow, and of self-subtractions |
| `NativeTheorems.TrapsExactly` | crates/kagari-codegen-cranelift/src/emit.rs:214-228 | an instruction is listed as a trap exactly if some values of the temporaries make it overflow, or it subtracts a register from itself; the two never coincide |
| `NativeTheorems.TrapTable` | crates/kagari-codegen-cranelift/src/emit.rs:214-228 | for an accepted function, an offset is in the trap table exactly if it is the offset of such an instruction |
| `NativeTheorems.SelfSubtractionIsListed` | crates/kagari-codegen-cranelift/src/emit.rs:214-228 | a concrete accepted function whose self-subtraction is listed although no values make it overflow |
| `NativeTheorems.AcceptsExactlyWellKinded` | crates/kagari-codegen-cranelift/src/emit.rs:285-329 | lowering succeeds if and only if the function never suspends, takes no arguments, has Unit, Bool and i32 slots and result only, is one block ending in a return, every read is initialized and of a fitting kind, and every write is inside the frame |
| `NativeTheorems.SubsetByFields` | crates/kagari-codegen-cranelift/src/emit.rs:285-329 | the subset check, by the fields of the function |
| `NativeTheorems.ResultOnlyOnSuccess` | crates/kagari-codegen-cranelift/src/scalar.rs:196-212 | in the MIR meaning a result exists exactly when the status is OK |
| `NativeTheorems.ExitPoint` | crates/kagari-codegen-cranelift/src/emit.rs:174-238 | the polled offsets of a run are a prefix of the logical offsets that ends at the instruction that ended the run |
| `NativeTheorems.TrapListed` | crates/kagari-codegen-cranelift/src/emit.rs:214-228 | the offset of every instruction that can overflow is in the trap table |
| `NativeTheorems.ArtifactTables` | crates/kagari-codegen-cranelift/src/emit.rs:174-238 | lowering from any point appends exactly the remaining safepoints and the offsets of the remaining possible overflows and self-subtractions |
| `NativeTheorems.LowersIffKinded` | crates/kagari-codegen-cranelift/src/emit.rs:174-245 | from any point on, lowering succeeds exactly on well-kinded code |
| `NativeTheorems.OperationKind` | crates/kagari-codegen-cranelift/src/scalar.rs:46-167 | an instruction is emitted exactly when its static kind exists, and then with that tag |
| `NativeSimulation.Simulates` | crates/kagari-codegen-cranelift/src/emit.rs:174-258 | from every instruction on, with registers representing the temporaries, the emitted code and the MIR run end alike |
| `NativeSimulation.LeadsOn` | crates/kagari-codegen-cranelift/src/emit.rs:174-229 | a finished lowering passes through the state after the next instruction |
| `NativeCorrectness.PollRuns` | crates/kagari-codegen-cranelift/src/scalar.rs:20-44 | the poll sequence asks the helper once with the instruction's offset, continues on OK and otherwise returns the status unchanged |
| `NativeCorrectness.RangeRuns` | crates/kagari-codegen-cranelift/src/scalar.rs:169-187 | the range check continues exactly for values between the i32 bounds and otherwise leaves with the overflow status |
| `NativeCorrectness.ProductFits` | crates/kagari-codegen-cranelift/src/scalar.rs:174-176 | the product of two i32 values fits the signed 64-bit range, so widening loses nothing |
| `NativeCorrectness.NegRuns` | crates/kagari-codegen-cranelift/src/scalar.rs:86-94 | negation of a represented i32 yields its checked negation or the overflow exit |
| `NativeCorrectness.ArithRuns` | crates/kagari-codegen-cranelift/src/scalar.rs:117-131 | addition, subtraction and multiplication yield the checked result or the overflow exit, without wrapping |
| `NativeCorrectness.CompareRuns` | crates/kagari-codegen-cranelift/src/scalar.rs:132-161 | comparisons of represented operands yield the comparison of the values as 0 or 1 |
| `NativeCorrectness.NotRuns` | crates/kagari-codegen-cranelift/src/scalar.rs:95-101 | logical negation of a represented Bool yields 0 or 1 representing its negation |
| `NativeCorrectness.ConstantRuns` | crates/kagari-codegen-cranelift/src/scalar.rs:46-77 | a constant is represented by the value it defines |
| `NativeCorrectness.OffsetSurvives` | crates/kagari-codegen-cranelift/src/scalar.rs:27-30 | an offset passed as a signed 64-bit immediate reaches the helper unchanged |
| `Emit.Lower` | crates/kagari-codegen-cranelift/src/emit.rs:100-273 | the emission loop over the mutable builder produces exactly the specified blocks, safepoints and traps, or the same refusal |
| `Emit.EmitResourceCheck` | crates/kagari-codegen-cranelift/src/scalar.rs:20-44 | appends the poll and its exit branch and continues in a new block |
| `Emit.EmitI32RangeCheck` | crates/kagari-codegen-cranelift/src/scalar.rs:169-187 | appends the range check and its exit branch and continues in a new block |
| `Emit.EmitConst` | crates/kagari-codegen-cranelift/src/scalar.rs:46-77 | emits the constant or refuses it, as specified |
| `Emit.EmitUnaryOp` | crates/kagari-codegen-cranelift/src/scalar.rs:79-107 | emits the unary operation or refuses it, as specified |
| `Emit.EmitBinaryOp` | crates/kagari-codegen-cranelift/src/scalar.rs:109-167 | emits the binary operation or refuses it, as specified |
| `Emit.EmitInstruction` | crates/kagari-codegen-cranelift/src/emit.rs:184-213 | reads the operand registers and emits one instruction, or refuses it, as specified |
| `Emit.EmitReturn` | crates/kagari-codegen-cranelift/src/emit.rs:246-256 | stores tag and payload, returns OK, and fills in both shared exits |
| `Emit.FunctionBuilder.Branch` | crates/kagari-codegen-cranelift/src/scalar.rs:35-43 | ends the current block with a two-way branch and goes on in the created block |
| `AccessSoundness.CertifiedRunsAreSafe` | crates/kagari-bytecode/src/access.rs:330-456 | on every finite run of a function with an inductive validated solution no scoped reference is stored in a module or cell, captured, put into a future, returned, or passed to a parameter not declared for it |
| `AccessSoundness.RunCovered` | crates/kagari-bytecode/src/access.rs:330-365 | along every run the stored facts over-approximate the slots: a slot holding a scoped reference has a fact that says so |
| `AccessSoundness.StepCovers` | crates/kagari-bytecode/src/access.rs:412-455 | executing one accepted instruction keeps the facts covering the frame and module storage and cells free of references |
| `AccessSoundness.SafeStep` | crates/kagari-bytecode/src/access.rs:782-819 | an accepted instruction in a covered state retains no scoped reference |
| `AccessSoundness.IncomingCovers` | crates/kagari-bytecode/src/access.rs:343-362 | whichever predecessor a run comes from, the joined incoming state covers it |
| `AccessSoundness.EntryReaches` | crates/kagari-bytecode/src/access.rs:341-347 | the external entry edge takes part in the join of the entry block together with back edges |
| `AccessSoundness.EntryCovers` | crates/kagari-bytecode/src/access.rs:313-323 | the entry facts cover admissible parameters |
| `AccessSoundness.WorldStaysSealed` | crates/kagari-bytecode/src/access.rs:452-456 | module storage and cells never receive a scoped reference |
| `AccessSoundness.RetainedOwned` | crates/kagari-bytecode/src/access.rs:782-831 | the values a checked StoreModule, MakeCell, WriteCell, MakeClosure, MakeFuture or Return consumes contain no scoped reference |
| `AccessSoundness.ArgumentsAdmissible` | crates/kagari-bytecode/src/access.rs:1014-1024 | a checked call passes a reference only where the callee declares one |
| `AccessSoundness.ResultCovered` | crates/kagari-bytecode/src/access.rs:1188-1201 | the fact left in the output slot, after declared-slot coercion, covers the value |
| `AccessVerifier.Verify` | crates/kagari-bytecode/src/access.rs:311-365 | always terminates; acceptance means that on every run no scoped reference escapes and every carried value is used at its own type up to outer weakening; when the loop switches to validation the stored outputs are inductive with every reachable block computed; a refusal by validation names a block this solution does not satisfy, and every other refusal a limit really exceeded or a misplaced or stray declaration |
| `AccessVerifier.Sweep` | crates/kagari-bytecode/src/access.rs:330-365 | a sweep strictly increases the charged work; one that changes nothing leaves stable tables; a validating sweep accepts every reachable block or names a refused one |
| `AccessVerifier.Process` | crates/kagari-bytecode/src/access.rs:332-365 | one block: charges slots times predecessors plus two, its length and its instructions, and yields the transfer of its joined computed predecessors |
| `AccessVerifier.RunBlock` | crates/kagari-bytecode/src/access.rs:366-386 | runs the block's instructions; in validation success means every one is accepted and failure that one is not |
| `AccessVerifier.Step` | crates/kagari-bytecode/src/access.rs:366-408 | one instruction computes the specified transfer, charges exactly its inputs, closure parts and new type, and when validating succeeds only if accepted and fails only with a reason |
| `AccessVerifier.Deposit` | crates/kagari-bytecode/src/access.rs:1188-1201 | the output slot gets the produced fact, or its declared fact if that fits, or an unknown fact |
| `AccessVerifier.Gather` | crates/kagari-bytecode/src/access.rs:343-362 | the predecessor loop computes the join of entry edge and computed predecessors |
| `AccessVerifier.Merge` | crates/kagari-bytecode/src/access.rs:349-358 | joins facts and constants slot by slot |
| `AccessVerifier.AdmitDeclarations` | crates/kagari-bytecode/src/access.rs:304-323 | charges the declared and entry types |
| `AccessVerifier.TypeBudget.Work` | crates/kagari-bytecode/src/access.rs:79-85 | adds to the work counter and fails exactly beyond 100,000,000 |
| `AccessVerifier.TypeBudget.Space` | crates/kagari-bytecode/src/access.rs:94-99 | fails exactly beyond 64 MiB |
| `AccessVerifier.TypeBudget.Preflight` | crates/kagari-bytecode/src/access.rs:87-92 | charges the shape of a type about to be built and retains nothing |
| `AccessVerifier.TypeBudget.Admit` | crates/kagari-bytecode/src/access.rs:101-119 | charges a new fact once, records its size and refuses misplaced references |
| `AccessVerifier.StableIsInductive` | crates/kagari-bytecode/src/access.rs:1203-1214 | tables that a sweep leaves unchanged have every reachable block computed and equal the transfer of their joined predecessors |
| `AccessVerifier.PassedIsCertified` | crates/kagari-bytecode/src/access.rs:1208-1213 | stable tables that pass validation are a certificate for the soundness theorem |
| `AccessVerifier.PathComputed` | crates/kagari-bytecode/src/access.rs:344-365 | along every path from the entry a stable table has computed every block |
| `AccessVerifier.IncomingKnows` | crates/kagari-bytecode/src/access.rs:343-362 | slots assigned on every path keep a fact through every join |
| `AccessVerifier.NothingSkipped` | crates/kagari-bytecode/src/access.rs:344-347 | once all reachable blocks are computed, skipping uncomputed predecessors skips nothing |
| `AccessCarried.CarriedTypesAreRespected` | crates/kagari-bytecode/src/access.rs:366-455 | on every run of a certified function, a value produced under a known type and carried by moves, joins and declared slots is read only at that type up to giving up its outer capability, reaches a declared parameter, slot, cell or result only where such a type is declared, and a read-only collection reaches a parameter only at exactly its own type and never an undeclared one, unless a join on the way forgot the type |
| `AccessCarried.FlowsExactly` | crates/kagari-bytecode/src/access.rs:122-135 | a known type flows into another exactly if they agree up to the outer capability and none is gained |
| `AccessCarried.TypedFlowsExactly` | crates/kagari-bytecode/src/access.rs:122-135 | a typed fact flows exactly where its type weakens to, unless it is in conflict or read-only against a mutable collection |
| `AccessCarried.WeakensOrders` | crates/kagari-types/src/ty/access.rs:37-68 | weakening is reflexive, transitive and antisymmetric |
| `AccessCarried.ReadOnlyIsFinal` | crates/kagari-types/src/ty/access.rs:37-68 | a read-only collection weakens only to itself |
| `AccessCarried.UnfirmFlowsExactly` | crates/kagari-bytecode/src/access.rs:131-134 | a fact without type and conflict flows exactly into types that store no reference and, if it saw read-only access, are no mutable collection |
| `AccessCarried.JoinForgetsExactly` | crates/kagari-bytecode/src/access.rs:168-188 | a join turns a known type into an unknown one exactly if it meets the same type with another access or size, no reference is involved, and no declaration takes both |
| `AccessCarried.JoinCarries` | crates/kagari-bytecode/src/access.rs:153-190 | a join that does not forget the type keeps the fact a weakening of each carried type, and read-only access read-only |
| `AccessCarried.IncomingCarries` | crates/kagari-bytecode/src/access.rs:343-362 | a carried value stays carried through all joins at the block it enters |
| `AccessCarried.CarryTracked` | crates/kagari-bytecode/src/access.rs:1188-1201 | an accepted instruction keeps the facts tracking where values come from, through declared-slot coercion |
| `AccessCarried.ProducedCarries` | crates/kagari-bytecode/src/access.rs:412-455 | the fact an accepted instruction produces has the type its value is produced under or carried with |
| `AccessCarried.ClosureTypeExactly` | crates/kagari-bytecode/src/access.rs:820-830 | a closure is typed exactly if its remaining parameters and its result are declared, and then as their callable type |
| `AccessCarried.RunTracked` | crates/kagari-bytecode/src/access.rs:330-365 | along every run the facts track the origins of the values |
| `AccessCarried.AcceptedRespects` | crates/kagari-bytecode/src/access.rs:1014-1024 | an accepted instruction respects the type of every carried value |
| `AccessCarried.DemandedFlows` | crates/kagari-bytecode/src/access.rs:789-819 | a value handed over where a type is declared has a fact that flows into it |
| `AccessCarried.AcceptsExactly` | crates/kagari-bytecode/src/access.rs:366-455 | an instruction with known inputs is accepted exactly if it reads no conflict, retains no reference, meets every declared type it hands a value to, passes nothing read-only and no reference to undeclared parameters, and fits its output slot |
| `AccessConstants.JoinedConstants` | crates/kagari-bytecode/src/access.rs:355-357 | a join keeps a constant exactly if both sides claim it |
| `AccessConstants.LoadHolds` | crates/kagari-bytecode/src/access.rs:1178-1191 | loads and moves pass constants on and every other output forgets them |
| `AccessCarried.OriginsAgree` | crates/kagari-bytecode/src/access.rs:366-375 | wherever two runs read a slot at the same instruction, its values have one type up to the outer capability |
| `AccessConstants.ClaimedConstantsHold` | crates/kagari-bytecode/src/access.rs:1178-1191 | on every run a slot claimed to hold a constant holds exactly the number loaded there |
| `AccessForgotten.TypeCanBeForgotten` | crates/kagari-bytecode/src/access.rs:168-188 | a concrete function with an inductive validated solution that passes a mutable set where another type is declared, because a join forgot its type |
| `AccessFacts.JoinAllKeepsDanger` | crates/kagari-bytecode/src/access.rs:153-190 | folding the join over any nonempty list: access is the maximum of Mutable < unknown < ReadOnly, conflicts stick, and a reference in any input is in the result |
| `AccessFacts.JoinKeepsDanger` | crates/kagari-bytecode/src/access.rs:153-190 | one join takes the maximum access and keeps conflicts and references |
| `AccessFacts.JoinedAccessIgnoresOrder` | crates/kagari-bytecode/src/access.rs:160-167 | the joined access does not depend on the order of predecessors |
| `AccessFacts.MaxRankBounds` | crates/kagari-bytecode/src/access.rs:160-167 | the maximum access bounds every input and is attained |
| `AccessFacts.FlowKeepsReference` | crates/kagari-bytecode/src/access.rs:122-135 | a fact holding a reference flows only into types that store one |
| `AccessFacts.FindStoredReference` | crates/kagari-types/src/ty/reference.rs:16-52 | the worklist search ends on every type and finds a stored reference exactly if there is one outside callable signatures |
| `AccessFacts.PartsDecide` | crates/kagari-types/src/ty/reference.rs:19-49 | a type stores a reference exactly if it is one or one of its parts stores one |
| `AccessFacts.WeakeningKeepsReferences` | crates/kagari-types/src/ty/access.rs:37-68 | weakening neither adds nor removes stored references |
| `AvailabilityQuery.Query` | crates/kagari-bytecode/src/availability.rs:72-79 | the pruned tree query reports exactly the slots of records with start <= pc < end, once per record, in (start, position) order; refused charges give a prefix; a completed query charges exactly one unit per visited node and per hit, at least 1 + k and 2k and at most 1 + 2(k+1)h + k; the depth is at most h; an empty index charges nothing |
| `AvailabilityQuery.HitsAreVisited` | crates/kagari-bytecode/src/availability.rs:134-147 | every hit is at a node the query visits |
| `AvailabilityQuery.VisitRest` | crates/kagari-bytecode/src/availability.rs:141-147 | after the left part, reports the midpoint if it covers pc and then the right part |
| `AvailabilityQuery.Visit` | crates/kagari-bytecode/src/availability.rs:125-149 | the recursion reports the hits of its slice in order within the slice's allowance and depth |
| `AvailabilityQuery.HitsAreReference` | crates/kagari-bytecode/src/availability.rs:66-71 | a scan of the index and filter-then-sort of the records list the same positions |
| `AvailabilityQuery.OrderedUnique` | crates/kagari-bytecode/src/availability.rs:82-84 | an ordered list of record positions is determined by its members |
| `AvailabilityQuery.InsertCorrect` | crates/kagari-bytecode/src/availability.rs:66-71 | the reference's insertion keeps order and adds exactly the record |
| `AvailabilityQuery.Reference` | crates/kagari-bytecode/src/availability.rs:10-11 | the reference lists exactly the covering records, in order |
| `AvailabilityQuery.PruneIsSound` | crates/kagari-bytecode/src/availability.rs:137-139 | a subtree whose largest end is at most pc has no hit |
| `AvailabilityQuery.LeftOnly` | crates/kagari-bytecode/src/availability.rs:140-147 | a midpoint starting beyond pc leaves only its left part, which fits the remaining allowance |
| `AvailabilityQuery.BothSides` | crates/kagari-bytecode/src/availability.rs:140-147 | otherwise left part, midpoint and right part together fit the allowance |
| `AvailabilityQuery.WorkClosed` | crates/kagari-bytecode/src/availability.rs:66-71 | the recursive allowance is 1 + 2(k+b)h + k |
| `AvailabilityQuery.QueryAllowance` | crates/kagari-bytecode/src/availability.rs:66-71 | the whole-table allowance is at most 1 + 2(k+1)h + k |
| `Availability.New` | crates/kagari-bytecode/src/availability.rs:36-64 | publishes exactly the nonempty ranges, once each, strictly sorted by (start, position) and max-end indexed; a refused charge ends construction at once with that error; the total charge is at most D(4 + 5 log2 D), and for n indexed ranges at least 2D + 3(n/2) + n and the least cost of extraction |
| `Availability.ExtractOne` | crates/kagari-bytecode/src/availability.rs:57-61 | one exchange and sift settles one more position and charges one unit, and three more if there is a child |
| `Availability.Sort` | crates/kagari-bytecode/src/availability.rs:54-61 | a permutation of the nodes, strictly sorted unless a charge is refused, within the work bound |
| `Availability.Sift` | crates/kagari-bytecode/src/availability.rs:86-104 | restores the heap below its start, permutes only the heap part, and charges at most three units per level |
| `Availability.Heapify` | crates/kagari-bytecode/src/availability.rs:54-56 | makes the whole array a heap, by permutation |
| `Availability.Extract` | crates/kagari-bytecode/src/availability.rs:57-61 | turns a heap into a strictly sorted array, by permutation |
| `Availability.Index` | crates/kagari-bytecode/src/availability.rs:106-123 | stores in every midpoint the largest end of its subtree, returns the largest end, changes nothing else and charges at most one unit per node |
| `Availability.Collect` | crates/kagari-bytecode/src/availability.rs:40-51 | collects the nonempty ranges in original order |
| `Availability.SiftStep` | crates/kagari-bytecode/src/availability.rs:93-101 | one exchange with the larger child moves the only heap violation down |
| `Availability.ExtractStep` | crates/kagari-bytecode/src/availability.rs:57-61 | after exchange and sifting, one more position is final |
| `Availability.RootDominates` | crates/kagari-bytecode/src/availability.rs:57-61 | the root of a heap is not smaller than any node |
| `Availability.LargerChild` | crates/kagari-bytecode/src/availability.rs:93-96 | the selected child is one of the two children below the end |
| `Availability.LevelsFromRoot` | crates/kagari-bytecode/src/availability.rs:91-102 | a descent from the root takes at most log2 n steps |
| `Availability.MaxEndIsMaximum` | crates/kagari-bytecode/src/availability.rs:117-121 | the cached value bounds every end of the slice and is attained |
| `Availability.MaxEndCombine` | crates/kagari-bytecode/src/availability.rs:117-122 | the maximum of a slice combines those of its parts and midpoint |
| `Availability.CollectedIsIndex` | crates/kagari-bytecode/src/availability.rs:36-64 | sorting and indexing the collected nodes gives a published index |
| `Availability.DistinctPermuted` | crates/kagari-bytecode/src/availability.rs:82-84 | rearranging keeps original positions distinct, so the sort key is strict |
| `Availability.WorkBound` | crates/kagari-bytecode/src/availability.rs:31-35 | collection, sorting and indexing together stay within D(4 + 5 log2 D) |
| `Metering.Meter.Charge` | crates/kagari-bytecode/src/availability.rs:36-40 | records the charge and ends exactly at the first refusal |
| `Cancellation.NoLostWake` | crates/kagari-common/src/cancellation.rs:38-78 | in every interleaving, once the first canceller and a subscriber have returned, a kept registration has been woken |
| `Cancellation.Progress` | crates/kagari-common/src/cancellation.rs:38-78 | after every schedule at most 6 steps per thread, plus the listed and the taken registrations, bring every started operation to its end; if any cancel was started or the flag set, every registration owned meanwhile has then been woken |
| `Cancellation.CancelCompletes` | crates/kagari-common/src/cancellation.rs:38-52 | cancelling at any time leads in finitely many steps to a set flag, a returned canceller and a wake for every owner |
| `Cancellation.SubscribeCompletes` | crates/kagari-common/src/cancellation.rs:65-78 | subscribing at any time returns after finitely many steps, woken if the token is cancelled |
| `Cancellation.SomeEnabled` | crates/kagari-common/src/cancellation.rs:38-78 | the protocol has no deadlock: as long as an operation is unfinished some thread can step |
| `Cancellation.StepShrinks` | crates/kagari-common/src/cancellation.rs:38-78 | every step of an unblocked unfinished thread strictly decreases the remaining work |
| `Cancellation.RunOut` | crates/kagari-common/src/cancellation.rs:38-78 | enabled steps alone finish every operation while all owners keep their registrations |
| `Cancellation.DropRetires` | crates/kagari-common/src/cancellation.rs:18-23 | dropping a subscription that no canceller has taken retires its registration |
| `Cancellation.BoundedWakes` | crates/kagari-common/src/cancellation.rs:38-78 | no registration is woken more than twice, and none before the flag is set |
| `Cancellation.WakesOutsideLock` | crates/kagari-common/src/cancellation.rs:48-51 | a thread that wakes a registration does not hold the mutex |
| `Cancellation.MutualExclusion` | crates/kagari-common/src/cancellation.rs:42-47 | at most one thread is inside a critical section, and it is the recorded holder |
| `Cancellation.DeadStaysSilent` | crates/kagari-common/src/cancellation.rs:18-23 | a registration dropped and not taken by a canceller is never woken again |
| `Cancellation.ExactlyOnceWithoutRace` | crates/kagari-common/src/cancellation.rs:62-78 | a subscriber that returned before cancellation, or started after the first canceller returned, is woken exactly once while it keeps its subscription |
| `Cancellation.Invariant` | crates/kagari-common/src/cancellation.rs:38-78 | the protocol invariant holds after every schedule |
| `Cancellation.StepKept` | crates/kagari-common/src/cancellation.rs:38-78 | every atomic step keeps the protocol invariant |
| `Cancellation.SpawnKept` | crates/kagari-common/src/cancellation.rs:38-78 | starting another operation keeps the protocol invariant |
| `Cancellation.CollectKept` | crates/kagari-common/src/cancellation.rs:42-46 | taking the list forgets no live registration |
| `Cancellation.PushKept` | crates/kagari-common/src/cancellation.rs:66-70 | pruning and pushing forgets no live registration and lists none twice |
| `Cancellation.WakeKept` | crates/kagari-common/src/cancellation.rs:49-51 | waking keeps every registration in exactly one place |
| `Cancellation.FilterAliveMembers` | crates/kagari-common/src/cancellation.rs:43-44 | exactly the registrations somebody still owns are kept |
| `ProgramGraph.VerifyGraph` | crates/kagari-bytecode/src/program.rs:84-400 | accepts exactly the graphs with valid distinct dependencies and identities, coherent layouts, visible names and full reachability from the root, unless the token cancels |
| `ProgramGraph.LayoutsAgree` | crates/kagari-bytecode/src/program.rs:148-186 | in an accepted program any two modules agree on every struct and enum layout with equal declaration and arguments |
| `ProgramGraph.Closure` | crates/kagari-bytecode/src/program.rs:212-221 | on cyclic graphs too, terminates with exactly the modules reached from the start by dependency edges |
| `ProgramGraph.DependenciesReach` | crates/kagari-bytecode/src/program.rs:212-221 | starting from a module's dependencies reaches exactly what it depends on by one or more edges |
| `ProgramGraph.ProgressPop` | crates/kagari-bytecode/src/program.rs:214-221 | one worklist step keeps all found modules justified and all their dependencies found or pending |
| `ProgramGraph.ClosedContains` | crates/kagari-bytecode/src/program.rs:214-221 | a set containing the start and closed under dependencies contains everything reached |
| `ProgramGraph.CheckDependencies` | crates/kagari-bytecode/src/program.rs:103-110 | every module names distinct existing dependencies, exactly when it says so |
| `ProgramGraph.DistinctDependencies` | crates/kagari-bytecode/src/program.rs:104-109 | the dependency list of one module is in range and without repetition, exactly when it says so |
| `ProgramGraph.CheckIdentities` | crates/kagari-bytecode/src/program.rs:111-118 | module identities are distinct, or the error is right |
| `ProgramGraph.AddLayouts` | crates/kagari-bytecode/src/program.rs:148-154 | extends the table of seen layouts, or the layouts contradict each other |
| `ProgramGraph.CheckVisible` | crates/kagari-bytecode/src/program.rs:349-386 | every named module is the module itself or one it depends on, exactly when it says so |
| `ProgramGraph.CheckNames` | crates/kagari-bytecode/src/program.rs:212-221 | computes the closure and compares the used names with it |
| `ProgramGraph.CheckRoot` | crates/kagari-bytecode/src/program.rs:388-400 | every module is reached from the root, or the error is right |
| `ProgramGraph.CheckModules` | crates/kagari-bytecode/src/program.rs:142-387 | layouts with equal keys are equal program-wide and all names are visible, or the error names a real fault |
| `Bridge.BridgeForwards` | crates/kagari-bytecode/src/verifier.rs:692-781 | every accepted bridge, from any parameter values, calls its target once with exactly those values in order and returns the answer |
| `Bridge.Recognise` | crates/kagari-bytecode/src/verifier.rs:692-781 | accepts exactly the bridges: retained transport, one call of a wanted target, return of its result |
| `Bridge.MatchTransport` | crates/kagari-bytecode/src/verifier.rs:764-780 | accepts exactly one move per relocated argument, none clobbering a home or an earlier argument, and nothing left over |
| `Bridge.AllDistinct` | crates/kagari-bytecode/src/verifier.rs:759-766 | the parameter homes are pairwise different, exactly when it says so |
| `Bridge.TransportRuns` | crates/kagari-bytecode/src/verifier.rs:767-779 | running the transport puts every argument in place and disturbs no parameter |
| `Bridge.MoveInPlace` | crates/kagari-bytecode/src/verifier.rs:774-778 | one retained move disturbs neither a parameter home nor an earlier argument |
| `Bridge.ForwarderIsBridge` | crates/kagari-bytecode/src/verifier.rs:764-780 | every function made of the moves for relocated arguments, a call of a wanted target and the return of its result is recognised |
| `Bridge.OriginsExactly` | crates/kagari-bytecode/src/verifier.rs:898-922 | an origin table is accepted exactly if it is nonempty, within the limit, nondecreasing, names only instructions and names every one |
| `Bridge.OriginsCover` | crates/kagari-bytecode/src/verifier.rs:898-922 | in an accepted origin table every instruction owns one nonempty contiguous run of origins |
| `Bridge.OriginsRise` | crates/kagari-bytecode/src/verifier.rs:906-909 | accepted origins never decrease |
| `Bridge.FirstOrigin` | crates/kagari-bytecode/src/verifier.rs:898-909 | no instruction is skipped: each has a first origin |
| `Fingerprint.OfSerialized` | crates/kagari-bytecode/src/artifact.rs:645-667 | the streamed fingerprint is FNV-1a/64 over the domain string followed by all bytes, however they are split into writes |
| `Fingerprint.OneByteChangesFingerprint` | crates/kagari-bytecode/src/artifact.rs:643-667 | encodings of equal length that differ in exactly one byte have different fingerprints |
| `Fingerprint.SuffixKeepsDifference` | crates/kagari-bytecode/src/artifact.rs:649-653 | through every common suffix two hash states stay equal or different |
| `Fingerprint.StepSeparates` | crates/kagari-bytecode/src/artifact.rs:650-652 | one step is injective in the state and in the byte |
| `Fingerprint.FoldConcat` | crates/kagari-bytecode/src/artifact.rs:649-654 | hashing a concatenation is hashing the parts one after the other |
| `Fingerprint.FoldSeparates` | crates/kagari-bytecode/src/artifact.rs:649-654 | from any state, inputs differing in exactly one byte lead to different states |
| `Fingerprint.TimesUndoes` | crates/kagari-bytecode/src/artifact.rs:651-651 | the wrapping multiplication by the prime is undone by its inverse modulo 2^64 |
| `Fingerprint.XorUndoes` | crates/kagari-bytecode/src/artifact.rs:651-651 | mixing in a byte undoes itself and leaves the higher bits alone |
| `Fingerprint.MixIsExclusiveOr` | crates/kagari-bytecode/src/artifact.rs:651-651 | every bit of the mixed word is set exactly if it is set in one of hash and byte but not in both |
| `Fingerprint.BitsDetermine` | crates/kagari-bytecode/src/artifact.rs:651-651 | a number is determined by its bits |
| `Fingerprint.TestVectors` | crates/kagari-bytecode/src/artifact.rs:669-676 | the published FNV-1a/64 values of the empty string, of "a" and of "fo" |
| `Fingerprint.Feed` | crates/kagari-bytecode/src/artifact.rs:661-666 | the sink ends with the hash of the whole, however it was split |
| `Fingerprint.Sink.Write` | crates/kagari-bytecode/src/artifact.rs:649-654 | hashes the bytes on top of the state and reports all of them written |
| `Fingerprint.OfStr` | crates/kagari-bytecode/src/artifact.rs:669-676 | hashes the bytes of the string from the offset basis |
| `CfgExpression.PossibilitiesSound` | scripts/structure_check/rust.py:44-80 | on the tokens of every well-formed predicate, its truth value in every build without the test flag is among the computed possibilities |
| `CfgExpression.OnlyTestItem` | scripts/structure_check/rust.py:83-90 | an item reported as test-only is absent from every build without the test flag; if no flag, setting or foreign operator occurs twice in its predicates, it is reported exactly if it is absent from all of them |
| `CfgExpression.PossibilitiesExact` | scripts/structure_check/rust.py:44-80 | for every well-formed predicate in which no flag, setting or foreign operator occurs twice, a value is possible if and only if some build without the test flag gives it |
| `CfgExpression.TrailingIsUnknown` | scripts/structure_check/rust.py:79-80 | anything left behind a predicate makes the whole unknown |
| `CfgExpression.ConjunctionChoice` | scripts/structure_check/rust.py:70-75 | a value is in the combined set for all only if some choice of operand values gives it |
| `CfgExpression.DisjunctionChoice` | scripts/structure_check/rust.py:70-75 | a value is in the combined set for any only if some choice of operand values gives it |
| `CfgExpression.PossibleAttained` | scripts/structure_check/rust.py:68-77 | every possibility of such a predicate is attained in a build without the test flag |
| `CfgExpression.EachAttained` | scripts/structure_check/rust.py:61-75 | operands without common atoms take their possible values independently |
| `CfgExpression.OwnAtomsDecide` | scripts/structure_check/rust.py:68-77 | the value of a predicate depends on its own atoms only |
| `CfgExpression.RepeatedFlagIsImprecise` | scripts/structure_check/rust.py:70-75 | a concrete predicate with a repeated flag that holds nowhere and yet counts as possible |
| `CfgExpression.PresentSomewhere` | scripts/structure_check/rust.py:83-90 | if every predicate of an item can hold and no atom occurs twice, some build without the test flag has the item |
| `CfgExpression.ReadPrinted` | scripts/structure_check/rust.py:49-77 | reading a printed predicate consumes exactly its tokens and yields the possibilities of its syntax |
| `CfgExpression.ReadPrintedList` | scripts/structure_check/rust.py:60-64 | reading a printed operand list yields the possibilities of each operand and stops at the closing parenthesis |
| `CfgExpression.PossibleCovers` | scripts/structure_check/rust.py:68-77 | the possibilities of the syntax contain the truth value |
| `CfgExpression.ConjunctionCovers` | scripts/structure_check/rust.py:70-75 | the combined set for all contains the conjunction of the operand values |
| `CfgExpression.DisjunctionCovers` | scripts/structure_check/rust.py:70-75 | the combined set for any contains the disjunction of the operand values |
| `CfgExpression.CfgPossibilities` | scripts/structure_check/rust.py:44-80 | terminates on every token list; input that is not read to its end is unknown |
| `CfgExpression.Reader.Read` | scripts/structure_check/rust.py:49-77 | reads one expression from the index on, always advancing on nonempty input |
| `CfgExpression.Reader.ReadOperands` | scripts/structure_check/rust.py:60-64 | reads operands up to a closing parenthesis or the end, skipping one comma after each |
| `CfgExpression.Combined` | scripts/structure_check/rust.py:68-76 | combines operand possibilities as not, all, any or unknown |
| `CfgExpression.CfgOnlyTest` | scripts/structure_check/rust.py:83-90 | true exactly if some cfg attribute cannot hold without the test flag |
| `TestFiles.FindTestFiles` | scripts/structure_check/rust.py:273-296 | terminates with every file reached by a seed; a file is test-only exactly when no production seed of the three phases reaches it along declarations that are not test-only |
| `TestFiles.Classifier.Propagate` | scripts/structure_check/rust.py:279-287 | extends an exact classification by new seeds to exactly what all seeds reach |
| `TestFiles.ReachedInProduction` | scripts/structure_check/rust.py:284-287 | a file is reached with the production flag exactly along production declarations from production seeds |
| `TestFiles.VisitKeeps` | scripts/structure_check/rust.py:281-287 | visiting the head of the queue keeps every seed and successor classified or waiting, and everything justified |
| `TestFiles.MissingShrinks` | scripts/structure_check/rust.py:283-285 | every newly recorded flag brings the search closer to its end |
| `TestFiles.Complete` | scripts/structure_check/rust.py:281-287 | with an empty queue the classification is exactly reachability |
| `TestFiles.ClassifiedIsTouched` | scripts/structure_check/rust.py:277-277 | a file has a state exactly if some seed touches it, and only the test state exactly if no seed reaches it in production |
| `TestFiles.Incoming` | scripts/structure_check/rust.py:290-290 | exactly the declared files |
| `TestFiles.EntrySeedsExactly` | scripts/structure_check/rust.py:290-291 | the second phase seeds exactly the files that no root touches and no file declares |
| `TestFiles.LateSeedIsNew` | scripts/structure_check/rust.py:293-295 | the third phase seeds only files that no root and no entry file touches |
| `TestFiles.LateSeedsBehindCycles` | scripts/structure_check/rust.py:292-295 | every file seeded by the third phase is declared, and only by files that are themselves unreached |
| `Session.ShowsLastAccepted` | crates/kagari-analyzer/src/documents.rs:31-91 | after every message sequence each source shows exactly the text last accepted for it, or its base text after a close; base texts and identities never change |
| `Session.VersionsIncrease` | crates/kagari-analyzer/src/documents.rs:59-83 | until it is closed an open document stays open and its version rises exactly with the accepted changes |
| `Session.EditsExactlyWhileRunning` | crates/kagari-analyzer/src/session.rs:93-142 | a message changes documents exactly if it is a decodable acceptable edit after the handshake and before shutdown, and then exactly as the edit says |
| `Session.RepliesExactly` | crates/kagari-analyzer/src/session.rs:60-91 | a request is accepted exactly if it advances the session; each error code has its exact condition |
| `Session.Handshake` | crates/kagari-analyzer/src/session.rs:60-126 | after every message sequence the state says exactly which of initialize, initialized and shutdown arrived well-formed in that order |
| `Session.Drive` | crates/kagari-analyzer/src/server.rs:27-40 | the session ends at the first exit notification; it ends successfully exactly if that notification is well-formed and initialize, initialized and shutdown came before it in that order; the end of the input is a failure |
| `Session.Session.constructor` | crates/kagari-analyzer/src/session.rs:39-44 | starts uninitialized with no open document |
| `Session.Session.Handle` | crates/kagari-analyzer/src/session.rs:46-58 | one message moves the session as specified and gets the specified action; rejected messages change nothing |
| `Session.Session.HandleRequest` | crates/kagari-analyzer/src/session.rs:60-91 | checks requests in order: shut down, initialize, not initialized, shutdown, unsupported |
| `Session.Session.HandleNotification` | crates/kagari-analyzer/src/session.rs:93-117 | exit succeeds only in order; other notifications need their state |
| `Session.Session.HandleEdit` | crates/kagari-analyzer/src/session.rs:128-142 | document notifications are passed on in order of arrival |
| `Session.NextKeeps` | crates/kagari-analyzer/src/documents.rs:31-91 | one message keeps the workspace consistent and leaves every document it does not name alone |
| `Session.VersionStep` | crates/kagari-analyzer/src/documents.rs:59-83 | one message that is not a close raises the version exactly if it is an accepted change |
| `Documents.OpenDocuments.DidOpen` | crates/kagari-analyzer/src/documents.rs:31-57 | accepted exactly if the URI names a source that is not open, the language is kagari and the module identity is free; a rejection changes nothing |
| `Documents.OpenDocuments.DidChange` | crates/kagari-analyzer/src/documents.rs:59-83 | accepted exactly if the document is open, the version newer and no change ranged; writing the text of an open document cannot fail halfway; a rejection changes nothing |
| `Documents.OpenDocuments.DidClose` | crates/kagari-analyzer/src/documents.rs:85-91 | accepted exactly if the document is open; a rejection changes nothing |
| `Documents.OpenDocuments.FileId` | crates/kagari-source/src/source_database.rs:296-300 | looks a source up by its normalised name |
| `Documents.OpenDocuments.SetText` | crates/kagari-source/src/source_database.rs:229-256 | sets the overlay of an existing or new source, or refuses and changes nothing |
| `Documents.AcceptsExactly` | crates/kagari-analyzer/src/documents.rs:31-98 | when an open, a change and a close are accepted, by language, open state, version, ranges and module identity |
| `Documents.UnnamedIsRejected` | crates/kagari-analyzer/src/documents.rs:31-98 | an edit whose URI names no source is rejected |
| `Documents.OpenEffects` | crates/kagari-analyzer/src/documents.rs:31-57 | an accepted open shows the sent text with the sent version and touches nothing else |
| `Documents.ChangeEffects` | crates/kagari-analyzer/src/documents.rs:59-83 | an accepted change raises the version, shows the last replacement, or the old text if there is none, and touches nothing else |
| `Documents.CloseEffects` | crates/kagari-analyzer/src/documents.rs:85-91 | an accepted close restores the base layer, or removes the source from the snapshot, and touches nothing else |
| `Documents.RevisionTracksText` | crates/kagari-source/src/source_database.rs:302-335 | the snapshot gets a new revision exactly when the shown text changes |
| `Documents.StoreKeeps` | crates/kagari-source/src/source_database.rs:302-335 | storing a document keeps the snapshot equal to the visible layers and every other file as it was |
| `Documents.SetOverlayKeeps` | crates/kagari-source/src/source_database.rs:229-256 | setting an overlay shows it and keeps the document's identity, module and base |
| `NumericPayload.PayloadsIdentify` | crates/kagari-bytecode/src/instruction.rs:206-245 | two constants accepted for one numeric type have equal 64-bit payloads if and only if they are equal by representation |
| `NumericPayload.PayloadDecodes` | crates/kagari-bytecode/src/instruction.rs:206-226 | a word is the payload of a constant exactly if it decodes to that constant; integer payloads give the number back |
| `NumericPayload.AcceptedRange` | crates/kagari-bytecode/src/instruction.rs:209-225 | an integer constant is accepted exactly if its kind carries the type and its number is between -2^(w-1) and 2^(w-1)-1, or 0 and 2^w-1, for the type of width w |
| `NumericPayload.BoundsExactly` | crates/kagari-types/src/integer.rs:120-126 | the bounds of a type are those of its width in two's complement |
| `NumericPayload.AcceptedFloats` | crates/kagari-bytecode/src/instruction.rs:211-212 | floats are accepted at their own type only, and nothing at a type that is not numeric |

## Left out

- Cranelift itself, JIT memory, linking and ahead-of-time commands: foreign code; the block machine stands for the emitted instructions.
- The declaration check of the polling helper and the three pointer loads at the native entry: value numbers 1 to 5 are reserved for them.
- Access verification of aggregates, tuples, paths, interfaces, await, iterators, numeric conversions, closure-register calls, native calls and shared calls: they need type and layout machinery of other crates. `Operate` stands for instructions that produce an unknown fact.
- The signature and ABI comparisons before the access fixpoint, and the initial size estimate of its tables.
- Type measuring and the reference-position rule of types: arbitrary functions in `AccessFlow.Rules`.
- The builtin type that `LoadConst` selects from a constant and a declared slot: the instruction carries the selected type.
- `AccessVerifier.TypeBudget.Admit`: a new fact without a type, on which the code would panic, is passed through; no instruction produces one.
- The initialization pass in verifier/flow.rs: its result is a precondition.
- Weak memory orderings in the cancellation token, and mutex poisoning: steps are sequentially consistent.
- In program verification: module bodies, interface tables, trait bounds, exports, updates and the comparison of layouts with ABI templates.
- The semantic comparison of a bridge's call target with its interface table: an arbitrary predicate on callees.
- The other metadata checks beside the origin map.
- Bincode encoding of fingerprinted values: a serialization is any list of byte chunks.
- Tokenising cfg text, recognising cfg attributes, comments, parsing Rust sources for module declarations, and reading manifests: the model starts from tokens, declarations and roots.
- URI parsing and source-name normalisation: arbitrary functions that may refuse.
- Exhaustion of revision and file identities, and source-database operations the language server does not call.
- Message texts, capability contents, response transport and JSON decoding: parameters decode or they do not.
- Metadata tables and wire formats, the virtual machine, the language front end, editors, benchmarks and scripts other than the two functions of the structure checker.
