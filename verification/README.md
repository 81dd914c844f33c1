# Verified models of the analysis pipeline

This project models the parts of the repository whose correctness is hardest to see, as Dafny methods and functions,
and proves what they are for. `dafny verify dfyconfig.toml` checks all of it. The parts are independent of each other,
except that the scheduler builds on the planner and the PE image on the blob parser.

**Address-flow resolver** (`AddressFlow*.dfy`, `ReachableGraph.dfy`). The backward reaching-value analysis over a
control-flow graph: its recursion, the worklist over regions without a definition, the pruning to reachable blocks. It
is set against runs of the code, in which the writes of one instruction read the state before it, an unknown write
leaves any 32-bit value and arithmetic is modulo 2^32. The resolver's answers hold in every run **exactly** on the
control-flow graphs whose entry block is not reached again (`SoundExactlyWhenEntryIsNoLoopHeader`): when the entry is a
loop header, the walk from its top sees only the back edges (line 3071 treats only blocks without predecessors as an
entry) and returns a value that the first arrival does not have. That is a finding about the code, not a restriction of
the proof. The resolver is complete as well: what evaluating the blocks forwards knows, it finds, short of its limit of
128 nested questions, and inside one block it answers exactly the values that all executions have in common
(`FindsExactlyTheKnown`, `AnswersExactlyTheDetermined`).

**Planner and scheduler** (`PlanEdges.dfy`, `TopologicalOrder.dfy`, `ExecutionPlan.dfy`, `Classification.dfy`,
`TagSchedule.dfy`, `BatchSchedule.dfy`, `BatchSelection.dfy`, `Run*.dfy`, `SchedulerClock.dfy`, `Worker*.dfy`,
`BatchWorkers.dfy`, `SerialSteps.dfy`, `BatchPhases.dfy`, `BenignRuns.dfy`, `BatchRun.dfy`). From declared skills to
edges, a topological order, per-binary parallel items and a serial tail, an optional selection, and the two-phase run.
A schedule is stated in tasks, a node together with its binary, so that no item can hold a node of another binary.
`RunBatch` is the whole of `run_batch`; the gate's answers, launches, exits, kill confirmations, result files,
callbacks and cancellations are an arbitrary function of what is asked and when, and the passing of time is arbitrary,
so what is proved holds in every environment, and every recorded action is tied to what the environment said. The
history of started and ended workers, with the exit code and the document that each of them left, is what the run
theorems are about: a worker starts only after everything its nodes depend on has succeeded (`ProducersRunFirst`),
which needs the topological order, the closure of the serial set, the order-preserving selection and the success
barrier together; and the run is a success if and only if every item has an accepted result that says so and no
callback failed. The history also has the time of every action, so that causes can be stated (`RunCauses.dfy`): no
parallel worker is killed before its time is over, the gate's patience is not cut short, admission stops only for what
has happened, and cancellation comes from outside or from a document that raises. Hence a run succeeds in every
environment that gives it no reason to fail (`BenignRuns.dfy`).
Two findings. A serial segment whose launch fails leaves the nodes of all later segments out of every total (the other
serial failures count them): the shortfall is exactly the nodes behind the failed launch (`NodesMissing`,
`FirstLaunchFailure`). And a result document makes the validator raise a `TypeError` exactly when the status of the
result, or that of its first rejected node entry, is a list or an object and everything checked before is in order
(`RaisesExactly`). That is not treated as a contract violation: the run is cancelled with the slot of that worker
already released while the worker is still tracked. If there is a memory gate, the cancellation then goes wrong exactly
when every exit is confirmed and no worker was left uncleaned before: the last release finds no slot and raises, and
the items that never ran get no event.

**Blob to PE32** (`Bytes.dfy`, `StreamCipher.dfy`, `Blob*.dfy`, `Section*.dfy`, `Pe*.dfy`). Decrypting, parsing and
checking a blob, rebuilding the image byte by byte, the checksum and the self-check. The repository only reads blobs;
`BlobMaking.dfy` writes the format down from the maker's side, as the heading of `decrypt_blob.py` describes it, so
that reading can be proved to undo writing. A header field of the image is a `pack_into` call: an offset, a width and a
value that must fit. The calls are held as lists in the order of the program (one list for each run of calls without a
branch), so that one method can pack them and one lemma can say that none overwrites another. What the bytes of an
accepted file and of the finished image say is also stated with the numbers of the two formats and without those lists
(`BlobBytes.dfy`, `PeHeaders.dfy`). Finding: a file of 0xD9 or 0xDB bytes ends inside the CheckSum field, and then one
byte of that field is summed after all; for every other size the field does not matter.

**CRC-64/XZ** (`Crc64*.dfy`). The bitwise reflected CRC of section 6 of "The .xz File Format" with the polynomial of
ECMA-182, fed in chunks. It is the remainder of a division of polynomials, and nothing else is
(`ChecksumIsTheRemainder`). Two files of equal length that differ only inside eight consecutive bytes, or in a burst of
at most 64 bits over nine bytes, never have the same checksum, however they are read.

**Leases** (`Lease*.dfy`). Pins, seals, consumers, releases and pruning over one tag's lease files. Every operation has
the clock of the machine that performs it. A sealed record never changes until its removal, and a generation whose
consumer passed `require_lease` survives every pruner that is at most one hour ahead of the clock with which it passed,
over every interleaving. A lease that goes the whole way from its pins to its release leaves the directory as it was.

**Masked-index stride** (`Affine*.dfy`, `Stride*.dfy`, `StraightCode.dfy`). The straight-line dataflow that recovers a
frame stride, over an instruction syntax tree, and its soundness over two runs that start a distance apart in the
masked register. What it recovers is what evaluating the code over the integers shows (`StrideArithmetic.dfy`). For the
meaning, machine states have registers and byte memory, and the frame argument is the double word at esp + 4 when the
call is made. One instruction is followed correctly in all runs whose loads agree exactly when it is not the
one-operand multiplication (but for the one by al or ah) and records no argument taken from part of a register
(`SoundExactlyWhenTracked`). A recovered stride is the distance of the frame arguments if, besides, no instruction of
the chain loads after one has written memory and nothing has moved or overwritten the recorded argument
(`FaithfulIsNotMisled`). Findings: the program checks none of these conditions, and none can be dropped.
`StrideMisled.dfy` has seven codes for which a stride is returned that is wrong for two runs of the code: an addition
to the stored argument, a store over a pushed one, pushes dropped before the call, a store through a pointer, the index
stored and loaded back, the one-operand multiplication, and a 16-bit push. Each of them fails one condition only.

## Model

| member | source | states |
|---|---|---|
| AddressFlow.ResolveAddressFlow | ida_analyze_util.py:3043-3102 | the recursion terminates and returns exactly the specified answer, which names no order of predecessors or worklist |
| AddressFlow.WalkRegion | ida_analyze_util.py:3070-3102 | the worklist answers v if and only if the region has a writing block, no block of it is missing or rootless, and every writing block supplies v |
| AddressFlow.AgreedUnique | ida_analyze_util.py:3100-3102 | a region agrees on at most one value |
| ReachableGraph.ReachableAddressGraph | ida_analyze_util.py:3031-3041 | keeps exactly the blocks on a path from the entry, with exactly their reachable predecessors |
| AddressFlowSoundness.SoundAt | ida_analyze_util.py:3043-3102 | on a graph whose entry has no predecessor, a returned value is the register's value at that point of every run, through any loops |
| AddressFlowSoundness.SoundInRegion | ida_analyze_util.py:3073-3102 | the same for the walk over blocks that do not define the register: whatever path led here, the last definition before it supplied the value |
| AddressFlowSoundness.ResolverSound | ida_analyze_util.py:3031-3102 | every answer on the pruned graph holds in every run of the whole graph, if no reachable block jumps back to the entry |
| AddressFlowSoundness.SoundExactlyWhenEntryIsNoLoopHeader | ida_analyze_util.py:3031-3102 | a control-flow graph is safe for all write maps if and only if no reachable block jumps back to the entry |
| AddressFlowSoundness.LoopHeaderUnsound | ida_analyze_util.py:3070-3072 | for every graph with a looping entry, write maps and a run on which the answer is wrong |
| AddressFlowProperties.MonotoneInBudget | ida_analyze_util.py:3044-3047 | a smaller `visiting` set never changes or loses an answer |
| AddressFlowProperties.OrderIndependent | ida_analyze_util.py:3080-3102 | reordering or repeating predecessors never changes the answer |
| AddressFlowProperties.ConstantSurvivesLoops | ida_analyze_util.py:3073-3102 | completeness: a constant left by the entry and written nowhere else is found at every reachable block, through any loops |
| AddressFlowCompleteness.BlockExact | ida_analyze_util.py:3043-3069 | completeness: in a block without predecessors, up to 128 instructions, the answer is exactly what evaluating the write maps forwards from no knowledge gives: copies, offsets, addresses and table loads of known values are known |
| AddressFlowCompleteness.AnswersExactlyTheDetermined | ida_analyze_util.py:3043-3069 | there a value is returned if and only if all executions of the block leave it, if no table has an entry for every address |
| AddressFlowCompleteness.RegionExact | ida_analyze_util.py:3070-3102 | when all writing blocks of the region in front evaluate on their own to one value, that value is the answer, through any loops |
| AddressFlowCompleteness.FindsExactlyTheKnown | ida_analyze_util.py:3043-3102 | on any graph every answer is known to the forward evaluation level by level, and everything it knows is found as long as fewer than 128 questions nest: the points already being asked about never cost an answer |
| AddressFlowCompleteness.UnknownIsFree | ida_analyze_util.py:3043-3069 | a register that the evaluation does not know can be left with any value at all |
| AddressFlowProperties.LocalAddressDefinition | ida_analyze_util.py:3017-3029 | returns the end of the copy chain, or nothing when the chain ends in an unknown or unsupported write |
| AddressFlowProperties.ChainEndExactly | ida_analyze_util.py:3017-3029 | that end is instruction i exactly when copies, each the last write in front of the one before, lead back to a constant, address or table load at i |
| AddressFlowProperties.CopyChain | ida_analyze_util.py:3017-3029 | in every run the register's value at `stop` is the one written at the returned instruction |
| AddressFlowProperties.ChainAgreesWithResolver | ida_analyze_util.py:3017-3069 | whenever the resolver answers too, its answer is the value written there |
| PlanEdges.IndexProducers | analysis_planner.py:487-505 | succeeds exactly when no two outputs fold to the same path on any platforms, and indexes exactly the outputs |
| PlanEdges.InputEdges | analysis_planner.py:508-516 | an edge for exactly the inputs that a node of the same platform produces; fails exactly on a required input that is neither produced nor, when checked, present |
| PlanEdges.PrerequisiteEdges | analysis_planner.py:517-525 | an edge from exactly the prerequisite skills of the same binary; fails exactly on an undeclared one |
| PlanEdges.BuildEdges | analysis_planner.py:506-525 | the edges are exactly the declared dependencies; fails exactly when one is missing or an output has two producers |
| PlanEdges.EdgesStayOnPlatform | analysis_planner.py:506-525 | every edge joins declared nodes of one platform, and a prerequisite edge stays inside one binary |
| TopologicalOrder.OrderNodes | analysis_planner.py:404-424 | fails exactly on a cycle, reporting the greatest set of nodes that wait for each other; otherwise returns the least topological permutation by declaration order |
| TopologicalOrder.GreedyIsLeast | analysis_planner.py:409-419 | taking the first ready node each time gives an order below every topological order |
| TopologicalOrder.GreedyIsTopological | analysis_planner.py:409-419 | such a choice of all nodes is a permutation with sources first |
| TopologicalOrder.DeclarationOrderKept | analysis_planner.py:404-424 | a declaration order that already puts sources first is the result |
| TopologicalOrder.OrderedMeansAcyclic | analysis_planner.py:420-424 | a topological permutation exists only without cycles, self-edges included |
| TopologicalOrder.SelfSustainedHasCycle | analysis_planner.py:420-423 | nodes that wait for each other contain a cycle |
| ExecutionPlan.BuildExecutionPlan | analysis_planner.py:506-527 | a plan orders the declared nodes with exactly the declared dependencies, and exists exactly when nothing is missing or doubly produced and no dependencies go in a circle |
| ExecutionPlan.ProducersRunFirst | analysis_batch.py:730-923 | in every run of a planned batch, when a worker starts, every scheduled producer of an artifact it reads is earlier in its item or has already succeeded |
| ExecutionPlan.PrerequisitesRunFirst | analysis_batch.py:730-923 | the same for declared prerequisites |
| Classification.SerialSetClosed | analysis_batch.py:111-122 | the serial set contains every cross-binary target and everything downstream of it |
| Classification.SerialSetLeast | analysis_batch.py:111-122 | and is the least such set |
| Classification.ParallelExactly | analysis_batch.py:111-122 | a node is outside the serial set exactly when everything that leads to it, over any number of edges, is on its own binary |
| Classification.SerialNodes | analysis_batch.py:111-122 | the fixpoint loop terminates with exactly that set |
| Classification.DownstreamPass | analysis_batch.py:116-122 | one pass stays inside every closed set, and changes nothing only when the set is closed |
| Classification.MakeParallel | analysis_batch.py:133-151 | one item for each binary with parallel nodes, on distinct binaries, each holding that binary's nodes in plan order; items in order of their first node |
| Classification.MakeSerial | analysis_batch.py:153-184 | the items concatenate to the serial nodes in plan order, cut exactly where the binary changes |
| Classification.ClassifyTagPlan | analysis_batch.py:89-185 | the error of each malformed plan, both item lists otherwise, and that the two consistency errors at 129 and 131 never happen |
| TagSchedule.TagRespects | analysis_batch.py:89-185 | every edge of a plan in topological order is respected inside parallel items, from them to serial ones, and along the serial tail |
| TagSchedule.TagNoRepeats | analysis_batch.py:124-184 | no node of a tag is in two items or twice in one |
| TagSchedule.ParallelKeys | analysis_batch.py:124-151 | the parallel items hold exactly the nodes outside the serial set |
| TagSchedule.SerialKeys | analysis_batch.py:153-184 | the serial items hold exactly the serial set |
| TagSchedule.ClassifiedParallelTasks | analysis_batch.py:124-151 | the parallel items hold exactly the nodes outside the serial set, each on its binary and path |
| TagSchedule.ClassifiedSerialTasks | analysis_batch.py:153-184 | the serial items list the nodes of the serial set in plan order, each on its binary and path |
| BatchSchedule.BuildBatchSchedule | analysis_batch.py:188-225 | succeeds exactly when every plan is valid, no node key is repeated and no two plans of one tag have parallel nodes on the same binary; then the parallel items are, plan by plan and in order of the first node, exactly each binary's nodes outside the serial set, the serial items list exactly the nodes inside on their own binaries in plan order, items are numbered, binaries of parallel items distinct, and every edge is respected |
| BatchSchedule.OverlapExactly | analysis_batch.py:214-218 | two parallel items are on one binary exactly when two plans of one tag have parallel nodes on it |
| BatchSchedule.RunsDetermined | analysis_batch.py:153-184 | items whose neighbours differ in their binary are determined by their nodes and binaries, so the serial tail is pinned down up to the ids |
| BatchSelection.SelectItems | analysis_batch.py:273-283 | exactly the requested nodes remain, in order and each on the binary of the item it comes from, as maximal runs of one binary in the serial tail |
| BatchSelection.SelectRespects | analysis_batch.py:266-285 | selecting and merging keep every edge respected |
| BatchSelection.SelectBatchSchedule | analysis_batch.py:266-285 | fails exactly on a request that is not scheduled; otherwise the two phases hold exactly the requested nodes, on their binaries and in order, no item is empty, and every promise of a schedule is kept |
| RunHistory.EveryLaunchInOrder | analysis_batch.py:730-923 | whenever a worker starts, every scheduled predecessor of each of its nodes is earlier in its item or in an item that already succeeded |
| RunHistory.BoundedConcurrency | analysis_batch.py:705-732 | never more open workers than the effective concurrency, or one when there are no parallel items, always on distinct binaries |
| RunHistory.SerialTail | analysis_batch.py:833-923 | from the first segment on, never more than one worker runs and no parallel item is started |
| RunHistory.WonMeansAccepted | analysis_batch.py:671-702 | an item has succeeded exactly when a worker ended with an accepted result for it that says so |
| WorkerResult.CheckEntries | analysis_batch.py:416-423 | all node results are accepted, or the first that is not decides |
| WorkerResult.Tally | analysis_batch.py:426-433 | the counts of the three kinds add up to the number of entries |
| WorkerResult.TallyCounts | analysis_batch.py:426-433 | what each count is: the entries that succeeded, those skipped, those failed or aborted |
| WorkerResult.AcceptedCounts | analysis_batch.py:424-442 | an accepted result's counts add up to the item's nodes, and a success has no failure and exit code zero |
| WorkerContract.AcceptedExactly | analysis_batch.py:375-451 | a document is accepted if and only if it keeps the contract, stated without the order of the checks: exactly the fourteen fields, the item's identity, one entry with a terminal status for each node in order, a summary that counts the statuses, and for a success exit code zero, nothing failed and no reason; the verdict is what it states |
| WorkerContract.ShortIdText | analysis_batch.py:141-162 | item ids are written with at least four digits |
| WorkerContract.LongIdText | analysis_batch.py:141-162 | and with more if they need them |
| WorkerContract.RunIdTexts | analysis_batch.py:228-235 | the run id of a worker is that of the batch, a hyphen and the item id |
| WorkerResult.WrittenIsAccepted | ida_analyze_bin.py:3128-3169 | round trip: the coordinator accepts every result that a worker writes for its item, as a success exactly when nothing failed |
| WorkerResult.UnhashableStatusRaises | analysis_batch.py:401-403 | for every item there is a result document on which validation raises a TypeError instead of rejecting |
| WorkerResult.RaisesExactly | analysis_batch.py:375-451 | validation raises a TypeError exactly on a list or an object as status of the result, or of its first rejected entry, behind checks that all pass |
| BatchWorkers.FinishWorker | analysis_batch.py:671-702 | books the counts of an accepted result that agrees with the exit code, otherwise all nodes as failed; a success exactly when such a result says so; an exception exactly on the documents that make the validator raise |
| BatchWorkers.PollOne | analysis_batch.py:788-828 | one poll keeps the invariant and the slot count; a worker that still runs stays exactly while its time is not over, otherwise it is killed; one that has exited leaves with that exit code; a break leaves one slot too few exactly when a document of a tracked worker made the validator raise |
| BatchWorkers.PollWorkers | analysis_batch.py:788-828 | one pass over the active workers uses up a round of every worker that stays |
| BatchWorkers.HoldBack | analysis_batch.py:740-759 | a refused admission keeps the invariant and either waits on a running timer or, when nothing has run or ended for the admission time, stops admission |
| BatchWorkers.LaunchHead | analysis_batch.py:761-781 | a launch or its failure keeps the invariant and the slot count and uses no more of the poll budget |
| BatchWorkers.AdmitWorkers | analysis_batch.py:732-781 | the admission loop terminates and keeps the invariant; without a memory gate it ends only stopped, drained or with as many workers as allowed, and without workers it ends stopped, drained or inside the admission time |
| RunSteps.SettledKeeps | analysis_batch.py:788-828 | booking the end of a worker keeps every invariant of the parallel phase: history, queue, terminal events, node counts, flags, timers |
| RunSteps.LaunchedKeeps | analysis_batch.py:776-781 | so does starting the head of the queue |
| RunSteps.LaunchFailedKeeps | analysis_batch.py:763-775 | so does a failed launch |
| RunSteps.StoppedKeeps | analysis_batch.py:723-758 | so does stopping admission, and the poll budget does not grow |
| RunSteps.WaitingKeeps | analysis_batch.py:740-759 | so does a wait for memory, although active workers reset the admission timer |
| RunState.LimitIs | analysis_batch.py:705 | as many workers as allowed and as there are items, and at least one if there are any |
| RunCauses.SettledAccounted | analysis_batch.py:788-828 | booking the end of a worker keeps the account of the run: a killed worker had run longer than its time, the failure reason is the first that an action gives, the events are those of the actions, and admission has stopped exactly for an unconfirmed kill, a failure without skip_error, or the gate |
| RunCauses.LaunchedAccounted | analysis_batch.py:776-781 | so does a start: nothing has stopped the run before it |
| RunCauses.StoppedAccounted | analysis_batch.py:723-758 | so does stopping for the gate: a wait that timed out had lasted for the admission time with nothing started or ended since it began |
| RunCauses.SegmentSettledRecounted | analysis_batch.py:891-923 | so does the end of a segment |
| RunCauses.SegmentRefusedRecounted | analysis_batch.py:846-870 | so does a segment that the gate refuses |
| RunCauses.StartedOnce | analysis_batch.py:776-781 | the starting time that a kill is measured by is unique |
| RunCauses.AcceptedWhen | analysis_batch.py:671-702 | a worker's result counts exactly when its document keeps the contract and states the exit code that was observed |
| RunCauses.SuccessExactly | analysis_batch.py:671-702 | a worker has succeeded exactly when it exited with code zero and left a document that keeps the contract and states success |
| RunCauses.SmoothRun | analysis_batch.py:625-960 | no failure is recorded exactly in a run in which the gate never gave up, every start worked, every worker ended by itself with an accepted success and no callback failed |
| RunCauses.OneMoreAction | analysis_batch.py:762-828 | recording an action of the environment keeps the account of the run, in either phase |
| BenignRuns.BenignIsSmooth | analysis_batch.py:625-960 | when nothing goes wrong outside, no refusal, failed start, kill or failed result is recorded |
| BenignRuns.BenignIsNotBroken | analysis_batch.py:924-945 | and the run is not cancelled |
| BatchPhases.ParallelPhase | analysis_batch.py:731-828 | the phase stays within its poll budget and ends with no active worker, or breaks off for a cancellation, or for a document that raises with its worker's slot released |
| BatchPhases.AdmitSegment | analysis_batch.py:846-870 | the serial admission loop ends within its share of the poll bound, reserves a slot exactly when admitted, and gives up only for a gate failure or after the whole admission time |
| BatchPhases.WaitForWorker | analysis_batch.py:891-923 | a worker that exits is booked with that exit code, and one is killed only when the wait for it failed |
| BatchPhases.AwaitSegment | analysis_batch.py:891-923 | a segment succeeds and the tail goes on, or fails and every later segment is listed as aborted |
| BatchPhases.RunSegment | analysis_batch.py:845-923 | one segment from admission to its end, a failed launch being the only stop that lists nothing as aborted |
| BatchPhases.SerialPhase | analysis_batch.py:844-923 | the serial tail runs segment by segment within its poll bound |
| BatchRun.Teardown | analysis_batch.py:924-940 | tears down the active workers in order, releases a slot exactly for confirmed exits and notifies each; stops early exactly when interrupted again, or at the last worker when a slot was released before, all exits are confirmed and no uncleaned worker holds one |
| BatchRun.SweptEvents | analysis_batch.py:924-940 | workers whose exit is confirmed are reported as cancelled, the others as failed |
| BatchRun.NotifyRest | analysis_batch.py:946-948 | every item without a terminal event gets one, no other does |
| BatchRun.StageCounts | analysis_batch.py:830-950 | successful, failed, skipped and aborted nodes add up to the schedule, but for the segments behind a failed launch |
| BatchRun.StageVerdict | analysis_batch.py:833-958 | no failure is recorded if and only if every item of the schedule succeeded |
| BatchRun.RunBatch | analysis_batch.py:625-960 | for every environment: launches in order, every ended worker was running and its ending and booked counts are those of its report, a poll bound from item count and timeouts, exactly one terminal event for each item, node conservation with its exact exception, success if and only if every item has an accepted success and no callback failed, held slots equal uncleaned workers at return; after a cancellation, what the teardown says about workers, slots and events; every killed parallel worker had run for longer than the timeout since its start; the run succeeds if and only if it is smooth, and otherwise reports the first reason; parallel items are left over only when something stopped admission, and nothing starts after that; the events are those of the actions, then one for each item not executed; every action is what the environment said at that time; and if the gate admits, every worker starts, exits in time with code zero and leaves an accepted success, no callback fails and nothing interrupts, the run returns with success |
| BatchRun.NodesMissing | analysis_batch.py:871-881 | nodes are missing from the totals exactly when a serial launch failed in front of segments with nodes |
| BatchRun.FirstLaunchFailure | analysis_batch.py:871-881 | and they do go missing: when the first of several segments cannot be started |
| Crc64.UpdateChunk | binary_hashing.py:13-19 | the nested loops compute the byte-by-byte update |
| Crc64.HashFile | binary_hashing.py:22-41 | the chunked checksum is that of the whole file |
| Crc64.UpdateConcat | binary_hashing.py:29-33 | updating with two chunks is updating with their concatenation |
| Crc64.UpdateXor | binary_hashing.py:13-19 | the update is linear over exclusive or, register and data together |
| Crc64.BitsZero | binary_hashing.py:17-18 | the bit steps are injective: only zero becomes zero |
| Crc64.ClearedIsPacked | binary_hashing.py:13-19 | at most eight bytes take only their own little-endian word to zero |
| Crc64.WindowErrorDetected | binary_hashing.py:13-41 | equal-length inputs that differ only inside eight consecutive bytes have different checksums |
| Crc64.ChunkedWindowErrorDetected | binary_hashing.py:22-41 | the same for files however they are cut into chunks |
| Crc64.BurstErrorDetected | binary_hashing.py:13-41 | the same for every burst of at most 64 bits that spans nine bytes |
| Crc64Division.ChecksumIsTheRemainder | binary_hashing.py:10-41 | the checksum with all bits inverted, read from its low end, is the one remainder of the message polynomial, first 64 bits inverted and 64 zeros behind, divided by x^64 plus 0x42F0E1EBA9EA3693, the generator of ECMA-182 as the standard writes it |
| Crc64Division.StepDivides | binary_hashing.py:17-18 | one bit step multiplies by x and subtracts the generator when that gave the power 64 |
| Crc64Division.SameRemainder | binary_hashing.py:10-41 | a polynomial has only one remainder below the power 64 |
| Crc64Division.CheckValue | binary_hashing.py:10-41 | the checksum of the nine bytes 123456789 is 0x995DC9BBDF1939FA, the check value of CRC-64/XZ |
| Bytes.DecodeEncode | decrypt_blob.py:331-451 | an integer that fits reads back as it was packed |
| Bytes.XorTwice | decrypt_blob.py:135-137 | masking a byte twice with one key gives it back |
| StreamCipher.DecryptBuffer | decrypt_blob.py:131-138 | the in-place loop with its running key computes the specified decryption |
| StreamCipher.DecryptedAt | decrypt_blob.py:131-138 | bytes before the payload are unchanged; payload byte j is unmasked with 0x57 times (j + 1) plus the sum of the plain bytes before it, modulo 256 |
| StreamCipher.EncryptDecrypted | decrypt_blob.py:131-138 | encrypting a decrypted buffer gives it back |
| StreamCipher.DecryptEncrypted | decrypt_blob.py:131-138 | decrypting an encrypted buffer gives it back, so decryption is a bijection |
| BlobFormat.FindMarker | decrypt_blob.py:122-124 | the first marker at or after a position, or that there is none |
| BlobFormat.ValidateBlob | decrypt_blob.py:141-163 | accepts exactly the acceptable headers and tables, and otherwise names the first condition that fails, in the order of the checks |
| BlobFormat.MarkerSurvives | decrypt_blob.py:173-177 | decryption leaves the marker that was found, so the marker error of the parser never happens |
| BlobFormat.ParseBlob | decrypt_blob.py:166-200 | the one answer to every file: no blob info, too short for a first section, table cut, the first failed condition of the decoded blob, or that blob; it accepts exactly the files that decode to an acceptable blob |
| BlobFormat.OneAnswer | decrypt_blob.py:166-200 | no file has two answers |
| BlobBytes.ReadMeans | decrypt_blob.py:115-200 | what the parser reads, byte by byte: the first marker, the payload unmasked bit by bit with a key that starts at 0x57 and adds itself, the plain byte and 0x57, the header at its offsets with its three masks and the entry point 12 lower, one section of 20 bytes more than the header counts |
| BlobBytes.AcceptableExactly | decrypt_blob.py:141-163 | the conditions in numbers: 1 to 64 sections, a base aligned to 4096 between 1 MiB and 2 GiB, aligned sections above it with their data in the file, and entry, export and import each below the end of some section |
| PeVerify.ParsedIsBuildable | decrypt_blob.py:141-163 | every accepted blob can be handed to the builder: its sections lie in the file and its image ends at or above its base |
| BlobMaking.HeaderRead | decrypt_blob.py:179-189 | the header fields that the maker obfuscates and stores are read back unchanged |
| BlobMaking.TableRead | decrypt_blob.py:191-197 | a stored section table is read back unchanged |
| BlobMaking.MarkerFound | decrypt_blob.py:115-128 | in a made file the blob info is found behind any leading bytes, if no marker comes earlier |
| BlobMaking.ParsedBack | decrypt_blob.py:166-200 | round trip: the parser's answer to a file made from any header, sections and payload is exactly that blob if it is acceptable, and otherwise its first failed condition |
| SectionKinds.Classify | decrypt_blob.py:252-265 | only the first section is code, and a resource section is small in memory and has stored bytes; PeHeaders.FlagsRead, PeHeaders.NameRead and SectionShapes state the rest |
| SectionShapes.RelocExactly | decrypt_blob.py:211-219 | relocations: more than half of the double words have the top four bits 1000 |
| SectionShapes.ResourceExactly | decrypt_blob.py:222-249 | resources: a directory root without flags, with at most 16 named and 1 to 16 other entries, all complete and pointing inside |
| PeChecksum.Checksum | decrypt_blob.py:311-326 | the file size plus the one's-complement reduction of the word sum with the field as zero: congruent modulo 65535, below 65536, zero only for zero |
| PeChecksum.OnesComplement | decrypt_blob.py:320-325 | what that reduction is |
| PeChecksum.FileAsNumber | decrypt_blob.py:311-326 | what is summed is, modulo 65535, the whole file as one little-endian number with zeros in the field, and zero exactly for it |
| PeChecksum.SumIgnoresField | decrypt_blob.py:316-317 | the stored checksum does not change the sum, unless the file ends inside the field |
| PeChecksum.FieldMattersExactlyWhenCut | decrypt_blob.py:311-326 | the field's contents can change the sum exactly for files of 0xD9 or 0xDB bytes |
| PeLayout.PackedReads | decrypt_blob.py:351-438 | each packed field reads back as its value when the fields do not overlap |
| PeLayout.HeaderLaid | decrypt_blob.py:351-438 | no two header fields overlap, for any number of sections |
| PeLayout.ResourceFrom | decrypt_blob.py:415-422 | the data directory exposes the first resource section above the image base |
| PeImage.PackAll | decrypt_blob.py:351-438 | packing succeeds exactly when every value fits, and then has packed every field |
| PeImage.BuildHeaders | decrypt_blob.py:351-438 | the headers, or an error exactly when some value does not fit |
| PeImage.BuildPe | decrypt_blob.py:329-451 | the image: headers, each section's bytes padded with zeros, the checksum; an error exactly when some value does not fit |
| PeCapacity.BuildsExactlyWithinLimits | decrypt_blob.py:329-438 | a parsed blob can be built exactly when image size, data sections and the last file offset stay below 4 GiB |
| PeReading.FieldReads | decrypt_blob.py:351-451 | every header field but the checksum reads back from the finished image |
| PeReading.ImageHolds | decrypt_blob.py:441-450 | the late checksum write leaves each section's bytes and padding where they are |
| PeReading.StoredChecksum | decrypt_blob.py:450 | the stored checksum is the checksum of the file that holds it |
| PeReading.ImagePreserved | decrypt_blob.py:329-451 | reading the section table back gives each section's address and size, with aligned, disjoint raw ranges behind the headers and inside the file that hold exactly its bytes and then zeros; name and flags are those of its kind (see PeHeaders) |
| PeHeaders.FlagsRead | decrypt_blob.py:252-265 | in the bytes of the image, section 0 is readable, executable code and no other section is; all others are readable initialised data, and writable are exactly those above 64 KiB without the runtime's strings |
| PeHeaders.NameRead | decrypt_blob.py:252-265 | the eight name bytes of each section, as the heuristic decides them |
| PeHeaders.ConstantsRead | decrypt_blob.py:351-412 | the fields that are the same in every image, at their offsets: signatures, machine, characteristics, magic, alignments, versions, subsystem, stack and heap sizes |
| PeHeaders.MemorySizesRead | decrypt_blob.py:365-395 | the sizes of code, of data and of the image, from the rows of the table: the first raw size, the sum of the others, the least page multiple above every section's end |
| PeHeaders.FileSizesRead | decrypt_blob.py:343-440 | SizeOfHeaders is the least page multiple behind the table, raw data starts there and goes on without gaps to the end of the file |
| PeHeaders.AddressesRead | decrypt_blob.py:365-422 | entry point, image base and import directory are the blob's; the bases of code and data and the resource directory are those of the first fitting rows of the table |
| PeVerify.SelfCheckExact | decrypt_blob.py:454-498 | the check accepts a built image exactly when the entry point is inside a section and not at the image base, and the exposed resource section begins inside the image |
| PeVerify.VerifiedExactly | decrypt_blob.py:454-498 | which bytes the check accepts at all, built here or not, without the order of its steps |
| PeVerify.SelfCheckOfSizedResources | decrypt_blob.py:454-498 | when no resource section has size zero in memory, the entry point alone decides |
| LeaseRecords.InsertedMembers | idb_cache_leases.py:203 | sorting a reference in adds it and loses nothing |
| LeaseRecords.InsertedAscends | idb_cache_leases.py:203-204 | the sorted list is accepted exactly when no reference has the new one's key |
| LeaseDirectory.Leases.Read | idb_cache_leases.py:155-179 | a record is returned exactly when it passes every check of the reader |
| LeaseDirectory.Leases.PinGeneration | idb_cache_leases.py:193-215 | accepted exactly for a live lease that is new or preparing and whose key is free or already pinned the same way; adds the reference and changes nothing else |
| LeaseDirectory.Leases.SealLease | idb_cache_leases.py:218-229 | accepted exactly for the same lease and references with no other digest; sets the digest and nothing else |
| LeaseDirectory.Leases.RequireLease | idb_cache_leases.py:232-241 | accepted exactly for a live lease sealed with this digest that lists the reference; changes nothing |
| LeaseDirectory.Leases.ReleaseLease | idb_cache_leases.py:244-252 | removes only the owner's record; a missing one is no error |
| LeaseDirectory.Leases.ProtectedGenerations | idb_cache_leases.py:255-281 | raises and removes nothing if any record is unreadable; otherwise removes exactly the lapsed records and the scratch files as old as a lease can get, and returns exactly the generations of the other records |
| LeaseSafety.SealedKeeps | idb_cache_leases.py:193-281 | an operation leaves a sealed record as it is, or is its owner's release or a prune an hour after its expiry |
| LeaseSafety.SealedNeverChanges | idb_cache_leases.py:193-281 | over any run, until its removal, a sealed record's lease, digest and references never change |
| LeaseSafety.RequiredStays | idb_cache_leases.py:232-281 | after a consumer passes, its record stays through every interleaving until its release, while no pruner is more than an hour ahead of the consumer |
| LeaseSafety.RequiredIsProtected | idb_cache_leases.py:232-281 | such a pruner raises without deleting or keeps the consumer's generation |
| LeaseSafety.PruneRaisesOnlyForSkew | idb_cache_leases.py:77-83 | in a directory that only the protocol writes, pruning raises exactly when some lease was created more than an hour after the pruner's clock |
| LeaseSafety.SealedCanBeRequired | idb_cache_leases.py:218-241 | whatever was sealed can be required by every clock inside the lease's lifetime |
| LeaseLife.LivePolicy | idb_cache_leases.py:24-83 | a lease passes exactly with a valid descriptor, a lifetime of 36 days and a creation time at most an hour ahead |
| LeaseLife.OnlyItsOwnLease | idb_cache_leases.py:193-252 | whatever is accepted on an existing record, pruning apart, is that of the record's own lease |
| LeaseLife.PruneReclaims | idb_cache_leases.py:255-281 | pruning removes exactly the records that ended an hour ago or longer |
| LeaseLife.ProtectedExactly | idb_cache_leases.py:255-281 | a generation is protected exactly when a record that stays names it |
| LeaseLife.ScratchKept | idb_cache_leases.py:255-281 | scratch files younger than 36 days stay |
| LeaseLife.OnceMore | idb_cache_leases.py:193-252 | pinning, sealing or releasing once more inside the lifetime is accepted and changes nothing |
| LeaseLife.WholeLife | idb_cache_leases.py:193-252 | all references pinned, the selection sealed, every generation required, the lease released: every step is accepted, and in the end the directory is as it was |
| AffineSoundness.AddressesDiffer | ida_scalar.py:62-71 | the coefficient of an address expression is its distance in two runs |
| AffineSoundness.SameAddress | ida_scalar.py:60-61 | a memory operand without masked registers has one address in both runs |
| AffineModel.ExecRuns | ida_scalar.py:123-205 | every instruction of the model can run from every state, so the statements about all runs are not empty |
| AffineSoundness.TransferSound | ida_scalar.py:123-205 | one tracked instruction keeps every known coefficient equal to the distance of the two runs, in registers and in the pushed and stored words that are still in place on the stack |
| AffineExact.SoundExactlyWhenTracked | ida_scalar.py:123-205 | an instruction is followed correctly, from all facts and in all runs whose loads agree, if and only if it is not the one-operand multiplication (but by al or ah) and records no argument taken from part of a register |
| AffineExact.ReloadAgreesExactlyWhenEqual | ida_scalar.py:60-61 | a register stored and loaded back from one operand may be taken for a constant exactly when its known distance is zero modulo 2^32 |
| StrideRecovery.FollowChain | ida_scalar.py:117-139 | finds the call that a chain reaches, if any, with the facts in front of it |
| StrideRecovery.RecoverStride | ida_scalar.py:113-209 | returns v exactly when v is the only value of all chains and reaches every draw-player call, and reports ambiguous arguments exactly when some chain shows two values |
| StrideArithmetic.FactsMatch | ida_scalar.py:123-205 | no coefficient is forgotten or invented: it is known exactly for the registers that moves, address sums, additions, subtractions, products by literals, shifts by 0 to 31 and self-exclusive-ors lead to from known ones, and is the difference of two evaluations over the integers that start one apart |
| StrideArithmetic.ReachesExactly | ida_scalar.py:108-191 | a call is reached exactly from a mask at most 96 instructions before it, without a join, an instruction that ends the chain, or a move of the stack behind a store |
| StrideArithmetic.ValuesExactly | ida_scalar.py:127-171 | the values of a chain are the differences above 0x4000 that the push before a push of difference 0 passes, or the last store to slot 4 |
| StrideArithmetic.RecoveredExactly | ida_scalar.py:84-209 | so the result in plain arithmetic: v exactly when every draw-player call has a chain that shows v, there is such a call, and no chain shows anything else |
| StrideArithmetic.AmbiguousExactly | ida_scalar.py:127-136 | arguments are ambiguous exactly when a chain shows two values |
| StrideExample.StrideRecovered | ida_scalar.py:84-209 | 17080 is recovered from the chain of shifts, differences and address sums that a compiler makes of that product |
| StrideMeaning.ChainSound | ida_scalar.py:114-205 | along a chain every known coefficient k is a distance of k times d modulo 2^32 between two runs that start d apart, in registers and in the stack words still in place |
| StrideMeaning.RecoveredMeans | ida_scalar.py:113-209 | a recovered stride is the distance between the double words at esp + 4 that two runs of a chain leave for the call, if the recorded argument still stands there |
| StrideMeaning.LoadsBeforeWritesAgree | ida_scalar.py:60-61 | without a load behind a write, equal memories make all loads agree |
| StrideMeaning.FaithfulIsNotMisled | ida_scalar.py:113-209 | a code whose chain is tracked, loads before it writes and leaves the recorded argument in place returns the right stride for all runs |
| StrideMisled.AddedToSlotMisleads | ida_scalar.py:175-177 | a wrong stride is returned when the stored argument is added to |
| StrideMisled.StoredOverPushMisleads | ida_scalar.py:127-136 | the same when a store overwrites the pushed argument |
| StrideMisled.DroppedPushesMislead | ida_scalar.py:180-191 | the same when the pushes are dropped before the call |
| StrideMisled.StoredThroughPointerMisleads | ida_scalar.py:164-177 | the same when the argument is overwritten through another register |
| StrideMisled.LoadedIndexMisleads | ida_scalar.py:60-61 | the same when the index is stored and loaded back |
| StrideMisled.WidelyMultipliedMisleads | ida_scalar.py:194-205 | the same for the one-operand multiplication |
| StrideMisled.HalfPushedMisleads | ida_scalar.py:160-163 | the same for a 16-bit push in front of the call |

## Left out

- Instruction decoding, IDA and MCP calls, signature probing, cross-reference scripts and YAML writing: the write maps
  of the resolver and the instructions of the stride recovery are inputs.
- Negative, fractional or non-integer JSON numbers and NaN: JSON numbers are integers.
- Process, job and /proc handling, logging, elapsed times, per-item summaries and diagnostic files: a callback either
  raises or not, and a kill is confirmed or not.
- The memory gate's own bookkeeping: it admits, refuses or raises, and counts reserved slots.
- BatchRun.RunBatch: cancellation happens at sleeps, polls, waits and kills, also while the run is being torn down; an
  interruption at another point, such as a notification, is not modelled, nor is an error other than an unreadable file
  while a result is read (too deep nesting, say), which would release the slot early as a `TypeError` does.
- BatchSelection.SelectBatchSchedule: the format checks of the selection document in front of it.
- PlanEdges.BuildEdges: parsing and path validation of the configuration; ids are assumed unique and composed from
  binary and skill, because the composition alone does not make them so (a skill name may contain a colon).
- WorkerResult.WrittenIsAccepted: that every recorded end of a node is one of the four statuses, and the file's
  encoding.
- Node-summary totals in `ida_analyze_bin.py`, where life-cycle failures can count a node twice.
- Import-name decoding: `BuildPe` takes the number of imported modules, which the program bounds by 1024.
- BlobFormat.ParseBlob: the three description texts in front of the encrypted part, which no later step reads.
- SectionKinds.Classify: the heuristics are modelled as they are; how well they recognise sections is not claimed.
- SHA-256, MD5 and CRC-32 of `hash_file`: library calls.
- LeaseDirectory.Leases.ProtectedGenerations: symbolic links; any file that the reader does not accept is one
  unreadable content, and scratch files have names of their own.
- Canonical JSON of lease records: records are values, and an encoding that is not canonical is unreadable content.
- StrideRecovery.RecoverStride: text parsing of the disassembly, the search for draw-player calls through copied
  function pointers, and the evidence texts; whether a call is one is part of the instruction.
- StrideMeaning.RecoveredMeans: memory operands are double words, and the condition on loads is sufficient only: whether
  another load behind a write agrees depends on which addresses coincide, which the code does not show. Likewise an
  instruction that fails one of the other conditions need not do harm in every code.
