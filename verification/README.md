# Verification models

Dafny models of the algorithms that the tooling and the benchmarks of this repository rest on, with proofs of what those
algorithms are for. `dafny verify dfyconfig.toml` checks everything.

| files | component |
|---|---|
| PoolModel, PoolLedger, PoolInvariant, PoolSteps, PoolTheorems, PoolEffects, PoolProgress, WorkerPool | the pool of compiler worker processes |
| FiberTree, ReactReconciler | the fiber tree and the reconciler's walk without a stack |
| Wasm, SimdLoops, SimdKernels, SimdFill, SimdModule | the WebAssembly code that the SIMD benchmark emits |
| Folds, Crc32, Adler32, Lz77, BitReader | the zlib kernels |
| MinHeap | the scheduler's heap |
| Quicksort, Sieve | quicksort and the sieve |
| StringConstants | the string-constant tables of the load-time runtime |
| EditionModel, EditionCounts, EditionTables, EditionOrder, FeatureRows | edition and feature counting |

**The pool.** `PoolModel` has the pool's state as a value and each event handler as a function on it: submission, ready and
answer messages, error and exit, job timeout, close, shutdown and its timeout. A run is any sequence of events that the state
makes possible, in any order, with late answers and errors of processes retired long ago among them. A call of `kill` may
report success or failure and may emit an error event before it returns, for each process and signal as an arbitrary function
says. The class `CompilerPool` has the source's fields and handlers; each method is proved to change the object as the function
says, down to the nested calls, so that what `PoolTheorems` proves of all runs holds of the object. `PoolEffects` tells the
whole next state for each event, for every state with the invariant, without naming a handler. One finding: a crash puts
its job back into the queue without calling `dispatch`. Exactly then a wake-up can be lost: the job waits although another
worker is idle, until the replacement reports ready. `PoolProgress` records which processes have failed and which have reported
ready, and takes only events that processes can cause, on the assumption that no message of a process arrives after its error or
exit event. (One that did, from a process that failed before it was ready, would still make its slot ready.) If the replacement fails before it is ready, no worker runs a job and no
process is left that could report: the job is stranded until a job is submitted, an idle worker fails, or the pool shuts down.

**The reconciler.** The random draws of the generator determine a tree as a list of parents; `FiberTree` has its preorder,
and the node that follows a node in it. The classes and methods of `ReactReconciler` build the linked nodes and walk them, and
are proved against that. The source that is compiled to WebAssembly uses the quotient `n * percent / 100` unrounded, where the
JavaScript program takes its floor; the two run the same number of updates exactly when 100 divides the product.

**Emitted code.** `Wasm` is an interpreter with fuel for the instructions used; `Runs` says that some amount of fuel suffices,
and there is only one outcome. The theorems are about the emitted instruction lists, for any size, any count below 2^32 and
any memory. A finding: `addFunc` exports the position of the function, while `findFunc` counts imported functions first.

**Counting.** The comment at scripts/generate-editions.ts:877-882 says that the order of the rows of a file does not matter to
the edition counts. It does, when two rows of the highest rank are entered differently: with host-free passes, a pass that
leaked a host import and one that did not; a status without a rank of its own and `ce`, or no status at all; a row in proposal
scope and one in standard scope. `EditionOrder.OrderIrrelevantIff` says, for any rows, that no order changes the counts of an
edition if and only if the rows of the highest rank of each file are entered alike. The comment at
scripts/generate-editions.ts:493-496 names the years 2015 to 2025 and 0; the code gives 5, 2015 to 2027, -2 and -3. A feature
tag that is the name of an inherited property of objects (`__proto__` is one that occurs) gets no slice, because the lookup in
the table finds the inherited value; the code then increments properties of that value, which makes them NaN. The model has no
such properties.

## Model

| member | source | states |
|---|---|---|
| PoolTheorems.EachJobHasOnePlace | scripts/compiler-pool.ts:464-611 | in every reachable state a submitted job is queued once, active on one slot, or settled once: exactly one of the three; no other job appears |
| PoolTheorems.BusyAndPendingAgree | scripts/compiler-pool.ts:500-563 | `busy` is set exactly on the slots with an active job and implies `ready`; the keys of `pending` are exactly the active job ids |
| PoolTheorems.AnswersComeFromTheLastSend | scripts/compiler-pool.ts:198-296 | a settled job was sent at most twice, to different processes; a delivered answer came from the process it was sent to last; a job given up was sent twice; no job is ever turned away by dispatch |
| PoolTheorems.LiveTimerOwnsItsSlot | scripts/compiler-pool.ts:522-547 | the job captured by any live timer is active, on the slot captured with it, under that very timer |
| PoolTheorems.AttemptsCountSends | scripts/compiler-pool.ts:560-605 | attempts are the number of sends: equal to the crash retries in the queue and one more on a slot, so at most two |
| PoolTheorems.FirstStartsFollowSubmission | scripts/compiler-pool.ts:495-506 | the queue is a prefix of crashed jobs followed by the latest submissions in order; first sends happened in submission order without a gap |
| PoolTheorems.RetriesAreBounded | scripts/compiler-pool.ts:588-596 | waiting retries and running first attempts together never exceed the number of slots |
| PoolTheorems.EachRetirementForksOne | scripts/compiler-pool.ts:571-630 | an event forks exactly one process, bound to the slot of the process it retires, even if `kill` re-enters the error handler; any other event forks none |
| PoolTheorems.RunsOnlyExtend | scripts/compiler-pool.ts:198-211 | over any continuation of a run results and sends are never taken back; after `shutdown` nothing is forked or sent, the outstanding processes only become fewer, and a settled promise is not settled again |
| PoolTheorems.ShutdownAwaitsEveryProcess | scripts/compiler-pool.ts:645-693 | the promise resolves only when every process ever forked, retired ones included, has closed; it settles at most once; while it is pending some process is open |
| PoolTheorems.ShutdownSignalsEveryProcess | scripts/compiler-pool.ts:700-704 | after the first call every open process was killed or has a kill request on record |
| PoolTheorems.WaitingJobsAwaitAReplacement | scripts/compiler-pool.ts:588-611 | before shutdown, if a job waits beside an idle slot, some slot is not ready |
| PoolTheorems.DispatchingEventsServe | scripts/compiler-pool.ts:199-208 | before shutdown, after an accepted submission, a ready message or an answer that keeps its worker, no job waits beside an idle slot |
| PoolTheorems.WakeUpLostExactlyByACrashBesideAnIdleSlot | scripts/compiler-pool.ts:571-611 | before shutdown, from a state without a job waiting beside an idle slot, an event leads to one if and only if it is a first crash of a running job while another slot is idle |
| PoolTheorems.OnlyEventsOfMissingSlotsArePassedOver | scripts/compiler-pool.ts:196-313 | a run leaves out an event only if it comes from a listener of a slot that does not exist |
| PoolEffects.DispatchHandsOut | scripts/compiler-pool.ts:500-563 | dispatch starts the first waiting jobs, in order, on the first idle slots, until jobs or slots run out: each with one more attempt and a timer of its own, sent to its slot's process; no result is added |
| PoolEffects.RespawnTold | scripts/compiler-pool.ts:614-643 | a retirement records one SIGTERM request with its result, or none if a kill call got through before; then slot, processes and handlers are those of one replacement |
| PoolEffects.AnswerTold | scripts/compiler-pool.ts:210-296 | the whole next state: the answer settles the job as the worker's own unless the job is prepared and the answer invalid; the process is retired if the answer asks for it, and otherwise waiting jobs are handed out |
| PoolEffects.AnswersAreDelivered | scripts/compiler-pool.ts:210-296 | in every reachable state such an answer adds exactly that one result, and the slot changes its process if and only if the answer asks for recycling |
| PoolEffects.AnswerIgnored | scripts/compiler-pool.ts:198-211 | an answer during shutdown, of another process or to another job changes nothing |
| PoolEffects.FailureTold | scripts/compiler-pool.ts:571-630 | the whole next state: a first crash puts the job at the front of the queue, a second settles it as crashed twice; the process is replaced unless it failed before it was ready |
| PoolEffects.TimerTold | scripts/compiler-pool.ts:522-545 | the whole next state: the job is settled as timed out, its process asked with SIGKILL, and before shutdown replaced, with a SIGTERM if no kill call got through |
| PoolEffects.ReadyTold | scripts/compiler-pool.ts:198-208 | the whole next state: the slot of a present process becomes ready and waiting jobs are handed out |
| PoolEffects.SubmitTold | scripts/compiler-pool.ts:337-498 | the whole next state: an unprepared request, a prepared compilation on builtin workers or a prepared test on unified ones is queued last under the next id; any other changes nothing |
| PoolEffects.CloseTold | scripts/compiler-pool.ts:189-311 | the whole next state: the process is closed and without handlers, and the last one resolves a pending shutdown |
| PoolEffects.ShutdownTold | scripts/compiler-pool.ts:655-706 | the whole next state: the first call settles or arms the promise by its argument and the open processes, and adds a SIGTERM request to exactly those that no kill call reached |
| PoolEffects.ShutdownExpiryTold | scripts/compiler-pool.ts:669-692 | a promise still pending is rejected, and nothing else changes |
| PoolEffects.InitTold | scripts/compiler-pool.ts:141-194 | a new pool has one process for each slot, bound to it and open, no slot ready, and nothing queued, running or settled |
| PoolProgress.ServedIffHopeful | scripts/compiler-pool.ts:198-313 | a waiting job can be served without an accepted submission and without the failure of an idle worker if and only if the pool is not shutting down and some slot runs a job, or is not ready with a process that has not failed |
| PoolProgress.HopelessStepsChangeNothing | scripts/compiler-pool.ts:198-313 | otherwise, before shutdown, every other event that processes can cause leaves queue, slots, sends and results unchanged, and the hopelessness too |
| PoolProgress.AJobCanBeStranded | scripts/compiler-pool.ts:580-611 | a run of such events after which a job waits, the other worker is idle, the replacement has failed before it was ready, and the job cannot be served |
| PoolProgress.StrandedJobsStay | scripts/compiler-pool.ts:198-313 | a stranded job stays stranded under any such event but an accepted submission, the failure of an idle worker and shutdown |
| PoolProgress.SubmissionRescues | scripts/compiler-pool.ts:495-506 | an accepted submission serves a stranded job |
| PoolProgress.IdleFailureRescues | scripts/compiler-pool.ts:580-629 | the failure of an idle worker brings a process that can serve a stranded job |
| PoolProgress.LivedAlive | scripts/compiler-pool.ts:196-313 | over any run of such events, before shutdown, each slot's process has its handlers attached or has closed after failing, and its slot is ready exactly if it has reported and not failed |
| PoolSteps.StepKeeps | scripts/compiler-pool.ts:196-706 | every event keeps the invariant of the pool, from any state that has it |
| PoolSteps.NeverRefuses | scripts/compiler-pool.ts:506-514 | a job accepted as prepared always meets a process of the builtin worker |
| PoolSteps.RespawnReplaces | scripts/compiler-pool.ts:614-630 | whatever `kill` does meanwhile, respawning has the effect of one detachment and one replacement, besides the record of the signal |
| PoolSteps.TimerFindsItsJob | scripts/compiler-pool.ts:522-545 | in a valid state a live timer's job is the active job of its slot |
| WorkerPool.CompilerPool.constructor | scripts/compiler-pool.ts:141-153 | the new object is the model's initial state of that size |
| WorkerPool.CompilerPool.CreateFork | scripts/compiler-pool.ts:155-159 | one more slot with a process of its own |
| WorkerPool.CompilerPool.ForkProcess | scripts/compiler-pool.ts:161-194 | the new process is outstanding and bound to its slot; the slots are untouched |
| WorkerPool.CompilerPool.FindFree | scripts/compiler-pool.ts:503-504 | the first slot that is ready and not busy, if there is one |
| WorkerPool.CompilerPool.Dispatch | scripts/compiler-pool.ts:500-563 | the object changes as the model's dispatch loop says, which serves until the queue is empty or no slot is idle |
| WorkerPool.CompilerPool.ServeHead | scripts/compiler-pool.ts:506-562 | the head of the queue is started on the slot, or settled as refused |
| WorkerPool.CompilerPool.StartJob | scripts/compiler-pool.ts:515-561 | slot, timer, pending entry and send of a started job |
| WorkerPool.CompilerPool.Submit | scripts/compiler-pool.ts:464-498 | a request is thrown back or queued under the next id and dispatched |
| WorkerPool.CompilerPool.DetachJobHandlers | scripts/compiler-pool.ts:304-310 | the process loses its job handlers and nothing else |
| WorkerPool.CompilerPool.SignalChild | scripts/compiler-pool.ts:632-643 | the request is recorded and an error that `kill` emits is handled before `kill` returns |
| WorkerPool.CompilerPool.HandleForkFailure | scripts/compiler-pool.ts:571-611 | the object changes as the model's failure handler says, nested kills included |
| WorkerPool.CompilerPool.Interrupt | scripts/compiler-pool.ts:588-605 | the interrupted job is queued at the front, or settled on its second crash |
| WorkerPool.CompilerPool.RespawnFork | scripts/compiler-pool.ts:614-630 | the object changes as the model's respawn says |
| WorkerPool.CompilerPool.OnReadyMessage | scripts/compiler-pool.ts:198-208 | ready messages of the slot's present process make it ready and dispatch; others have no effect |
| WorkerPool.CompilerPool.OnAnswerMessage | scripts/compiler-pool.ts:210-296 | an answer settles the active job of the same id and process and recycles or dispatches; others have no effect |
| WorkerPool.CompilerPool.OnJobTimeout | scripts/compiler-pool.ts:522-545 | the timer's job is settled, its process killed and replaced |
| WorkerPool.CompilerPool.FinishShutdownIfClosed | scripts/compiler-pool.ts:645-652 | the promise resolves if it is armed and no process is outstanding |
| WorkerPool.CompilerPool.OnCloseEvent | scripts/compiler-pool.ts:189-192 | the process is not outstanding any more; the last one may resolve the promise |
| WorkerPool.CompilerPool.ArmShutdown | scripts/compiler-pool.ts:657-693 | the promise is created, rejected for a bad argument, and its timer armed if a process is open |
| WorkerPool.CompilerPool.ShutDown | scripts/compiler-pool.ts:655-706 | the first call arms the promise and signals the open processes; later calls have no effect |
| WorkerPool.CompilerPool.OnShutdownTimeout | scripts/compiler-pool.ts:669-692 | the pending promise is rejected |
| WorkerPool.RunPool | scripts/compiler-pool.ts:122-707 | any sequence of events leaves the object in the state that the model's run reaches |
| FiberTree.EveryNodeOnce | benchmarks/react-reconciler-bench.ts:96-130 | preorder lists every node of any tree exactly once |
| FiberTree.PreorderIsAPermutation | benchmarks/react-reconciler-bench.ts:96-130 | the preorder has as many entries as the tree has nodes, all different |
| FiberTree.DownStep | benchmarks/react-reconciler-bench.ts:114-115 | the first child is the node after a node that has one |
| FiberTree.UpStep | benchmarks/react-reconciler-bench.ts:117-126 | without a child or sibling, what follows the node is what follows its parent's subtree |
| ReactReconciler.AppendChild | benchmarks/react-reconciler-bench.ts:64-78 | linking a node after the last child gives the links of the tree with one more node |
| ReactReconciler.BuildTree | benchmarks/react-reconciler-bench.ts:48-82 | for every size and seed, negative ones included, it ends without an exception if and only if no draw gives a negative parent index; then the fresh nodes are linked as the tree that the draws determine, with the values drawn |
| ReactReconciler.BuiltNode | benchmarks/react-reconciler-bench.ts:48-68 | node i of the built tree has draw i modulo 1000 as its three values, and for its parent the node of index draw i modulo i |
| ReactReconciler.ChildIsFirst | benchmarks/react-reconciler-bench.ts:70-78 | a node's child link is to the first node whose parent link is to it |
| ReactReconciler.SiblingIsNext | benchmarks/react-reconciler-bench.ts:70-78 | a node's sibling link is to the next node with the same parent link |
| Generator.SeedsWithNaturalDraws | benchmarks/react-reconciler-bench.ts:59 | no draw is negative if and only if the first is not, as from every seed of at least -11 |
| ReactReconciler.ApplyUpdates | benchmarks/react-reconciler-bench.ts:85-93 | for a real count too, a node's pending value is that of the last update that picked it, and its former one if none did; update k uses draws 2k + 1 and 2k + 2; nothing else changes |
| ReactReconciler.LastUpdateWins | benchmarks/react-reconciler-bench.ts:85-93 | the same on values: which draw each node's value comes from after any number of updates, and the generator's state |
| ReactReconciler.Successor | benchmarks/react-reconciler-bench.ts:114-127 | the pointer steps reach the next node in preorder, or none after the last |
| ReactReconciler.Reconcile | benchmarks/react-reconciler-bench.ts:96-130 | on every linked tree the walk ends, visits the nodes in preorder once each, changes no link, leaves all values equal and no flag set, and returns the number of nodes that differed |
| ReactReconciler.ReconcileWithFlags | benchmarks/react-reconciler-bench.ts:247-287 | the compiled program's walk, with its loop flags, has the same contract |
| ReactReconciler.Checksum | benchmarks/react-reconciler-bench.ts:133-139 | the sum of the committed values |
| ReactReconciler.RunBenchmark | benchmarks/react-reconciler-bench.ts:141-155 | the result is the sum of the final values and of all changes, by the rounds on values |
| ReactReconciler.RunCompiledBenchmark | benchmarks/react-reconciler-bench.ts:302-317 | the same, with the unrounded quotient as the count |
| ReactReconciler.RoundsMerge | benchmarks/react-reconciler-bench.ts:141-155 | the values after k rounds of updates are those of one sequence of all the updates |
| ReactReconciler.RoundAddsItsChanges | benchmarks/react-reconciler-bench.ts:146-149 | each round adds to the total exactly the nodes whose value is not that of the round before |
| ReactReconciler.FinalValues | benchmarks/react-reconciler-bench.ts:141-155 | at the end of a run each node has the value of the last of all the updates that picked it, or of its own draw |
| ReactReconciler.UpdatesBoundChanges | benchmarks/react-reconciler-bench.ts:85-93 | that many updates change at most that many values |
| ReactReconciler.RoundsBoundChanges | benchmarks/react-reconciler-bench.ts:147-150 | over a run the changes are at most rounds times updates |
| ReactReconciler.SameCountIff | benchmarks/react-reconciler-bench.ts:143-304 | the two programs make the same number of updates if and only if 100 divides nodes times percent |
| ReactReconciler.ProgramsAgree | benchmarks/react-reconciler-bench.ts:141-317 | run on one input, the two programs return the same value when 100 divides nodes times percent |
| ReactReconciler.ProgramsCanDiffer | benchmarks/react-reconciler-bench.ts:143-304 | an input on which they return 0 and 881 |
| Wasm.RunsOnlyOneWay | benchmarks/simd-perf.ts:37-51 | code has at most one outcome, however much fuel there is |
| Wasm.LoadAfterStore | benchmarks/simd-perf.ts:136-176 | a word stored in little-endian order is loaded back |
| SimdLoops.LoopNRuns | benchmarks/simd-perf.ts:37-51 | the code ends, runs the body exactly n times with the counter at 0 to n - 1, ends with the counter at n and the stack as it was, for every n below 2^32 and every body that ends, leaves the counter and the stack alone and does not branch out |
| SimdLoops.LoopNBreaks | benchmarks/simd-perf.ts:37-51 | if the body leaves the inner block in turn k, exactly k turns ran before and the loop ends there |
| SimdKernels.ScanIsALoop | benchmarks/simd-perf.ts:132-145 | the scan spelled out in the benchmark has the form of `loopN` |
| SimdKernels.ScanRuns | benchmarks/simd-perf.ts:132-145 | one scan stops at the first match, or runs to the end; the branch of depth 2 leaves the inner block only |
| SimdKernels.IndexOfRuns | benchmarks/simd-perf.ts:122-149 | the emitted code returns n times the first matching index, 0 when absent, modulo 2^32, and leaves memory alone |
| SimdKernels.IndexOfFindsLast | benchmarks/simd-perf.ts:122-149 | the code returns n times the index of the first element equal to size - 1, modulo 2^32, and 0 if no element is |
| SimdKernels.IndexOfCountsUp | benchmarks/simd-perf.ts:122-149 | on the array 0, 1, ..., size - 1 it returns n times (size - 1) modulo 2^32 |
| SimdFill.FilledBytes | benchmarks/simd-perf.ts:174-178 | filling writes every byte of the first k elements and no other byte |
| SimdFill.FillRuns | benchmarks/simd-perf.ts:171-180 | one pass of the inner loop has the effect of filling |
| SimdFill.FillBenchRuns | benchmarks/simd-perf.ts:166-184 | the emitted code returns 0, and elements 0 to size - 1 hold 42 if it runs at all; every other byte is as before |
| SimdFill.WriteRuns | benchmarks/simd-perf.ts:28-35 | the code from `writeStr` stores the bytes at their offsets and nothing else, and leaves the stack as it was |
| SimdModule.WasmModule.FindFunc | benchmarks/simd-perf.ts:17-26 | the index of the first function of that name, after the function imports, or the error |
| SimdModule.FuncImportsCount | benchmarks/simd-perf.ts:17-20 | the imports that are counted are exactly the imported functions |
| SimdModule.WasmModule.AddFunc | benchmarks/simd-perf.ts:53-59 | a type, a function of that type and an export are appended |
| SimdModule.WasmModule.AddThenFind | benchmarks/simd-perf.ts:17-59 | the export denotes the added function if and only if no function is imported; looking it up gives its index if and only if no earlier function has the name |
| SimdModule.AnImportShiftsTheIndex | benchmarks/simd-perf.ts:17-59 | a module with one imported function, in which the export of the added function denotes the import |
| ShiftRegister.ShiftInIsLinear | benchmarks/pako-bench.ts:239-241 | adding two registers and their bits adds what they become |
| ShiftRegister.ShiftInIsInjective | benchmarks/pako-bench.ts:239-241 | different registers stay different after the same bit |
| Crc32.TableStep | benchmarks/pako-bench.ts:254 | eight register steps are the other bytes moved down, plus the entry for the low byte |
| Crc32.ByteOfBits | benchmarks/pako-bench.ts:254 | a byte fed bit by bit is eight steps of the register with the byte added |
| Crc32.BuildTable | benchmarks/pako-bench.ts:235-243 | entry n is what eight steps make of n |
| Crc32.RunCrc32 | benchmarks/pako-bench.ts:234-257 | for every byte sequence the result is the CRC-32 of the shift register that takes one bit at a time |
| Crc32.CrcOfOneByte | benchmarks/pako-bench.ts:234-257 | the checksum of the byte 97 is 0xE8B7BE43, which fixes polynomial, bit order, first value and complement |
| Crc32.BurstsAreDetected | benchmarks/pako-bench.ts:252-256 | every change of a message within 32 consecutive bits changes the result |
| Adler32.ReducingEveryByte | benchmarks/pako-bench.ts:222-230 | reducing after every byte gives the two sums reduced once |
| Adler32.ReductionCanWait | benchmarks/pako-bench.ts:221-230 | the sums stay below 2^30 within 2000 bytes, and below 2^32 within 5552 |
| Adler32.ButNotLonger | benchmarks/pako-bench.ts:221-230 | 5553 bytes can exceed 32 bits |
| Adler32.RunAdler32 | benchmarks/pako-bench.ts:208-232 | for every byte sequence the result is the Adler-32 of its definition and of per-byte reduction, below 2^32, its halves the two sums |
| Adler32.AdlerOfFewBytes | benchmarks/pako-bench.ts:218-232 | the checksums of no byte, of one and of two, in closed form |
| Lz77.CopiedByte | benchmarks/pako-bench.ts:279 | the byte compared is the one that overlapping copy produces, for any distance and length |
| Lz77.DecodesIffAgree | benchmarks/pako-bench.ts:278-281 | decoding a pair gives the lookahead's prefix if and only if the compared bytes agree |
| Lz77.MatchLength | benchmarks/pako-bench.ts:276-281 | the greatest length that decodes for one distance |
| Lz77.LongestMatch | benchmarks/pako-bench.ts:270-287 | the greatest length over all allowed distances and the least distance that gives it; decoding the pair gives the lookahead's prefix |
| Lz77.PackedMatch | benchmarks/pako-bench.ts:288 | the packed number gives length and distance back |
| Lz77.BestIsUnique | benchmarks/pako-bench.ts:282-285 | there is one best pair only |
| Lz77.RunLz77 | benchmarks/pako-bench.ts:259-289 | for every window of at least 50 bytes the distance is 50, and the length is 30, or 31 when the size is 76 modulo 256 |
| BitReader.PackedAbove | benchmarks/pako-bench.ts:305-306 | adding a shifted byte puts it above the bytes held |
| BitReader.RunInflateBits | benchmarks/pako-bench.ts:290-319 | the codes read are the input bytes in order, and the result is the sum of their values |
| BitReader.OneMoreCode | benchmarks/pako-bench.ts:313-316 | a code below 128 adds itself; the code 128 + 16 h + l with h below 8 and l below 16 adds h + l |
| MinHeap.LeastIsUnique | benchmarks/react-scheduler-bench.ts:50-54 | the order has one least node |
| MinHeap.LeastHasSmallestSortIndex | benchmarks/react-scheduler-bench.ts:50-54 | no node has a smaller sortIndex than the least one, nor the same and a smaller id |
| MinHeap.Heap.Push | benchmarks/react-scheduler-bench.ts:56-61 | the heap keeps its order and has the one node more |
| MinHeap.Heap.SiftUp | benchmarks/react-scheduler-bench.ts:63-77 | order is restored from one node too far down, by exchanges |
| MinHeap.Heap.PopSort | benchmarks/react-scheduler-bench.ts:79-91 | returns the smallest sortIndex and removes the one node of the smallest id among those that have it; -1 when empty |
| MinHeap.Heap.SiftDown | benchmarks/react-scheduler-bench.ts:93-133 | order is restored from one node too far up, by exchanges |
| MinHeap.RunOperations | benchmarks/react-scheduler-bench.ts:56-133 | over any interleaving of pushes and pops the heap holds and returns what a multiset queue does |
| MinHeap.EachOperation | benchmarks/react-scheduler-bench.ts:50-133 | in any run each pop of a queue that is not empty returns the smallest sortIndex there is and takes away the node of the smallest id that has it |
| MinHeap.DrainedIsTheSortedOrder | benchmarks/react-scheduler-bench.ts:79-91 | nodes leave by increasing sortIndex, those of one sortIndex by increasing id, and no other sequence of the same nodes is so ordered |
| MinHeap.DistinctIdsLeaveInOrder | benchmarks/react-scheduler-bench.ts:50-91 | of nodes with distinct ids the earlier to leave has the smaller sortIndex, or the same and the smaller id |
| MinHeap.SumOfSameNodes | benchmarks/react-scheduler-bench.ts:488-491 | the checksum does not depend on the order |
| MinHeap.InternalBenchmark | benchmarks/react-scheduler-bench.ts:481-493 | the checksum is the sum of the generated priorities; the n generated nodes leave by sortIndex and, within one, by id |
| Quicksort.Partition | benchmarks/perf-suite.ts:82-97 | neither scan leaves the range, both parts are smaller than the range, items are on their sides of the pivot |
| Quicksort.BoundsSurvive | benchmarks/perf-suite.ts:98-99 | sorting one part keeps it on its side of the pivot |
| Quicksort.QSort | benchmarks/perf-suite.ts:80-100 | the range ends up sorted, a rearrangement of itself, and nothing else changes |
| Quicksort.SortedIsUnique | benchmarks/perf-suite.ts:80-100 | there is one sorted arrangement only |
| Quicksort.RunQuicksort | benchmarks/perf-suite.ts:74-104 | for any number of generated items the array ends up sorted and the result is a least item, which is 0 if and only if there are more than 67 |
| Sieve.UnmarkedIsPrime | benchmarks/perf-suite.ts:132-138 | a number without a divisor whose square is at most the number is a prime, and only such a number is |
| Sieve.NextDivisor | benchmarks/perf-suite.ts:133-137 | marking from the square on suffices, and marked numbers may be skipped |
| Sieve.MarkMultiples | benchmarks/perf-suite.ts:134-136 | exactly the multiples from the square on are marked |
| Sieve.RunSieve | benchmarks/perf-suite.ts:126-144 | for every size the flags mark the primes and the result counts them |
| StringConstants.DecodeEncode | scripts/generate-size-benchmarks.ts:64-78 | decoding inverts the encoding of scalar values |
| StringConstants.DecodableIsWellFormed | scripts/generate-size-benchmarks.ts:64-78 | a string decodes if and only if it encodes some scalar values |
| StringConstants.HasLoneSurrogate | scripts/generate-size-benchmarks.ts:64-78 | false if and only if the string is the UTF-16 encoding of some scalar values |
| StringConstants.KeyOfUnit | scripts/generate-size-benchmarks.ts:83 | a code unit's key has four digits, which give the unit back |
| StringConstants.KeyDigits | scripts/generate-size-benchmarks.ts:83 | the digits are 0 to 9 and a to f, the most significant first |
| StringConstants.HexRoundTrip | scripts/generate-size-benchmarks.ts:80-86 | a key decodes to its string |
| StringConstants.HexCodeUnits | scripts/generate-size-benchmarks.ts:80-86 | the key is the digits of all code units |
| StringConstants.BuildStringConstants | scripts/generate-size-benchmarks.ts:88-97 | exactly the well-formed pool strings, each under itself |
| StringConstants.BuildStringConstants16 | scripts/generate-size-benchmarks.ts:99-109 | exactly the other pool strings, each under its key, with no collision |
| StringConstants.EachStringHasOneEntry | scripts/generate-size-benchmarks.ts:88-109 | each pool string has one entry in the two tables together, and no other string has one |
| EditionModel.ClassifyEdition | scripts/generate-editions.ts:497-571 | the edition that the first kind of evidence gives; for features the latest year among them, or the draft |
| EditionModel.ClassificationIsUnique | scripts/generate-editions.ts:497-571 | the evidence determines the edition, which is one that has a bucket and is not that of proposals |
| EditionModel.OrderListsEditions | scripts/generate-editions.ts:362-380 | the order lists exactly the years with a bucket |
| EditionModel.NamesTellEditions | scripts/generate-editions.ts:342-360 | a year after 2000 has its number in its name; no two buckets have one name |
| EditionModel.PathGivesEarliestEdition | scripts/generate-editions.ts:521-540 | the first path rule that applies decides; its edition is the earliest that any applicable rule gives; none decides if and only if none applies |
| EditionModel.AnnexBIsFive | scripts/generate-editions.ts:518-521 | a path through an annexB directory is of edition 5, whatever comes before and after, with slashes of either kind |
| EditionCounts.KeptIsWorst | scripts/generate-editions.ts:893-911 | the row kept for a file is one of its rows of the highest rank |
| EditionCounts.KeptByStatus | scripts/generate-editions.ts:883-911 | of a file's rows a compile error or timeout is kept if there is one, else a failure, else a timeout or crash, else a pass, else a skip; and among rows of the winning kind the last |
| EditionCounts.KeysKeepTheirPlaces | scripts/generate-editions.ts:893-914 | later rows never move an entry: they only add entries at the end |
| EditionCounts.RowsWithoutFileAreKept | scripts/generate-editions.ts:902 | every row without a file is kept |
| EditionCounts.Deduplicate | scripts/generate-editions.ts:893-914 | one kept row for each file and every row without a file, in the order in which they first appear, and the number of rows dropped |
| EditionCounts.RankDecidesRawOutcome | scripts/generate-editions.ts:883-892 | without the host-free rule two rows of one rank above 1 have one outcome |
| EditionTables.AddSlices | scripts/generate-editions.ts:1017-1028 | each tag's slice stays the plain count |
| EditionTables.EnterProposal | scripts/generate-editions.ts:967-984 | a proposal adds to its bucket, to the paths and to no slice |
| EditionTables.EnterStandard | scripts/generate-editions.ts:986-1029 | a standard record adds to its edition's bucket, to the slices of its tags, and to the lists |
| EditionTables.BucketRecords | scripts/generate-editions.ts:920-1029 | every bucket and every slice is the plain count of the records that belong to it; processed is their number |
| EditionTables.OneRow | scripts/generate-editions.ts:963-1005 | how a run with one row comes out, by status, leak, scope and missing file or status: which bucket counts it, and as what |
| EditionTables.BuildOutput | scripts/generate-editions.ts:1041-1083 | the non-empty buckets in order, with their non-empty slices |
| EditionTables.OutputIsPublished | scripts/generate-editions.ts:1041-1083 | no edition with a test and no slice is left out of the output, and nothing else is in it |
| EditionTables.CheckOutput | scripts/generate-editions.ts:1097-1128 | an error is reported if and only if the totals differ from the processed records or a slice does not fit its edition |
| EditionTables.EditionsAddUp | scripts/generate-editions.ts:1097-1100 | over the listed order the editions' totals add up to all records |
| EditionTables.SliceIsPart | scripts/generate-editions.ts:1112-1127 | a slice is at most its edition in each outcome |
| EditionTables.Generate | scripts/generate-editions.ts:893-1128 | for any rows none of the errors is reported, and the output shows, in order, exactly the editions with a counted test, each with its name, its plain counts and all its slices |
| EditionTables.HostFreeOnlyDemotes | scripts/generate-editions.ts:768-773 | host-free counting moves exactly the leaking passes of an edition to its failures |
| EditionOrder.OrderIrrelevantIff | scripts/generate-editions.ts:877-1029 | no order of the rows changes the counts of an edition if and only if the highest-ranked rows of each file are entered alike: all not counted, or all counted with one scope and one outcome |
| EditionOrder.AlikeCountsAlike | scripts/generate-editions.ts:877-1029 | if they are, no order changes the counts of any tag within an edition either |
| EditionOrder.OrderCanMatter | scripts/generate-editions.ts:877-984 | four pairs of rows whose order changes the counts: by a leak, an unranked status, the scope, a missing status |
| EditionOrder.RankAndScopeDecide | scripts/generate-editions.ts:883-892 | with raw passes, rows of one file, one rank above 1 and one scope are entered alike |
| EditionOrder.CountsAreSum | scripts/generate-editions.ts:893-1010 | the counts are the sum of what the kept row of each file adds |
| EditionTables.AnInheritedTagHasNoSlice | scripts/generate-editions.ts:1016-1026 | a test with the tags `__proto__` and `let` that its edition counts: there is a slice for `let` and none for `__proto__` |
| FeatureRows.BuildIndex | scripts/generate-editions.ts:716-726 | the candidates of a year are exactly the features with a row in it |
| FeatureRows.ComputeFeatureRowCounts | scripts/generate-editions.ts:711-750 | for every feature the indexed count is the plain filter's |
| FeatureRows.TaggedTestsSuffice | scripts/generate-editions.ts:1017-1029 | counting the tagged tests only changes no row |
| FeatureRows.RowFitsItsEdition | scripts/generate-editions.ts:694-704 | a row is at most its edition in each outcome, and full when the edition is |
| FeatureRows.CountByPaths | scripts/generate-editions.ts:1298-1318 | the row counts the matching tests, and each label's slot those with the label |
| FeatureRows.PrefixCounts | scripts/generate-editions.ts:1292-1302 | a prefix counts the file `test/` plus itself and the files in that directory, and none whose path only begins with the same letters |
| FeatureRows.SpreadAddsUpIff | scripts/generate-editions.ts:1298-1318 | the spread adds up to the row if and only if every matching file has a label |
| FeatureRows.TablesLabelEverything | scripts/generate-editions.ts:971-1011 | main gives every counted file a label, which is the name of the edition of its last counted test |
| FeatureRows.LabelsAreEditions | scripts/generate-editions.ts:1298-1318 | over main's tables a label's slot counts the matching tests of the files whose last counted test has the edition of that name |
| FeatureRows.ScoreByTags | scripts/generate-editions.ts:1284-1290 | rows from main's tagged tests count all of main's tests |
| FeatureRows.ScoreByPaths | scripts/generate-editions.ts:1298-1318 | over main's tables a path row is exactly the sum of its spread |

## Left out

- Processes and messages of the pool: forking, environment, standard streams, message encoding and logging are not modelled;
  sending succeeds, and a process is named by its generation.
- SignalChild: does not model a `kill` that throws, because the exception would leave the calling handler half done; in the model
  `kill` returns.
- Submit: does not model a submission whose snapshot of the frontend request throws after the id was taken; the promise is then
  rejected, and the id is in no place.
- OnReadyMessage: does not model the count of ready messages from first processes and the promise of `ready()`, which no other
  handler reads.
- Job objects: a job is a value that moves between queue, slot, timer and history; sharing of the object is not modelled.
- The result objects of the pool and their texts: an outcome says how a promise was settled and by which process.
- The validators of prepared requests are not part of this model; their verdict is a bit of the answer.
- The lifetime records of errors and exit codes.
- Time: timers, closes and answers may come at any moment or never, so no delivery is promised.
- RunBenchmark: seeds from which a draw is negative are left out, because an update with a negative index throws; so are they for
  the compiled program, which may read outside its array.
- The benchmark's test bytes: the zlib kernels are proved for all bytes, so what the generators produce is not modelled, but for
  the window and lookahead of the match search.
- The compiled copies of the zlib, heap, quicksort and sieve programs: they repeat the JavaScript programs modelled here.
- Calls, the SIMD instructions and the runtime functions behind them, and the string equality benchmark.
- Export and local declarations of emitted functions are numbers; UTF-8 encoding of the written string is an input.
- Priorities and ids of the heap are integers, and nodes are values: two nodes with equal fields are not told apart.
- Quicksort is over integers, as the benchmark fills its array; fractions and NaN are not modelled.
- The globals of the string tables are represented by the string that they hold.
- Reading and parsing of frontmatter and result files: the parsed records are inputs.
- The text of the key of a row without a file, which could be that of a file named `__nofile_` and a number.
- The tables of edition years: any table with years from 2015 to 2027 is allowed.
- Names in objects other than tags: a feature or status that is the name of an inherited property of objects.
- Percentages, sorting for display, the table of categories, the walk over files that a run did not report, and all output text.
- Simple statistics, reports, other benchmark drivers and the gate scripts, which would only add easy members.
