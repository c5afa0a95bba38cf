# Verified models of the RDMA and transport experiments

A Dafny project that models the parts of this repository in which many agents act at once, or in which
bookkeeping must survive every failure, and proves what they rely on.

* **Ring all-reduce** (`Ring`, `RingProof`, `RingTheorems`, `ChannelLayout`, `AllReduce`). Ranks and network cards
  take micro-steps in any order: post, fetch an element, place it in the neighbour's memory, notify, wait, reduce.
  There is no barrier. Elements travel one by one, may land before the receive is posted, and may be copied again.
  The reduction is an uninterpreted function of the own and the incoming value.
* **Sequences of collectives** (`Collectives`, `CollectivesProof`, `CollectivesTheorems`, `CollectivesProgress`,
  `CallSequence`). All channels of a process group, one host per rank, and the two buffers that every call reuses at
  other offsets and item sizes. A rank starts its next call as soon as its own kernel returned. A store may clobber
  whatever it overlaps. Each channel also runs as a ring whose cells have memory of their own, and real memory is
  shown to agree with it.
* **Reconfiguration and group life cycle** (`GroupHandshake`, `HandshakeCrossing`, `GroupModel`, `ProcessGroup`). The
  handshake is a system of connections: a listener takes each connection once, a response travels on the connection
  of its request, connections of failed attempts stay in the queue, and foreign processes send whatever does not carry
  both the uuid and a member's handle. The class is specified by functions over which all call sequences are covered.
* **Read scheduler** (`WrIds`, `FloatDivision`, `ReadRequests`, `ReadLedger`, `ReadScheduler`). The scheduler class with
  its pending map, counters, wrapping ids and lazy iterator. A ghost ledger of everything posted ties them together;
  completions come in any order and any batching, and may carry any id.
* **NVMe/RDMA** (`NvmeHost`, `NvmeQueue`, `NvmeSystem`, `NvmeCommand`, `NvmeTransfer`). The queue class is specified by
  functions on an abstract host; the system puts that host next to a network card and a target. The transfer loop
  builds real command bytes that the target decodes.
* **Striped TCP transport** (`TcpFraming`, `TcpFlow`, `TcpSystem`, `TcpStreams`, `TcpPartitions`). One flow runs against
  a socket that fragments as it likes; all flows together are a transition system over the shared counter and flags,
  tied to the bytes on the wire.
* **Exported queue memory** (`HostPages`, `HostMemory`). Page reference counts with a CUDA driver that may fail any call.

`Arithmetic`, `Sizes`, `Bytes` and `Wrappers` hold shared facts and types. Python exceptions are result values, and
what a foreign layer decides (posts, registrations, deadlines, polled entries) is a parameter of the method it affects.
`dafny verify dfyconfig.toml` checks everything.

Where code and documentation differ the code is followed. `ProcessGroup._reconfigure` asks for a uuid that is fresh
for the group, but remembers only the uuids of successful calls. A repeated one pairs neighbours wrongly only if both
of them retried it and a listener takes the newer of two connections first: `GroupHandshake.NeighboursArePaired` and
`HandshakeCrossing.MispairsExactly`. `RDMAQueue.execute` raises a timeout for a command that finished in the poll
that ended past the deadline: `NvmeQueue.LateAnswerTimesOut`. `RdmaReadScheduler.wait` with an unfinished batch of
another scheduler raises, and also ends that batch without its owner: `ReadScheduler.RdmaReadScheduler.Wait`. The chunk
total is divided in floating point: `FloatDivision.AnnouncedCount`.

## Model

| member | source | states |
|---|---|---|
| `RingTheorems.FinishedRankHoldsFold` | experiments/fault_tolerant_allreduce/allreduce.py:786-909 | in every interleaving, a rank that finished with status 0 holds f(x_c, f(x_{c-1}, ... f(x_{c+2}, x_{c+1}))) at each element of chunk c, whatever the other ranks and cards still do; nothing is assumed about f |
| `RingTheorems.FinishedRanksAgree` | experiments/fault_tolerant_allreduce/allreduce.py:786-909 | any two ranks that finished hold the same value at every element |
| `RingTheorems.PassedLoopHoldsFold` | experiments/fault_tolerant_allreduce/allreduce.py:786-909 | the same for every iteration a rank has left, while it is still in a later one |
| `RingTheorems.FoldUsesEveryInputOnce` | experiments/fault_tolerant_allreduce/allreduce.py:790-802 | the fold takes the contribution of every rank exactly once |
| `RingTheorems.Lockstep` | experiments/fault_tolerant_allreduce/allreduce.py:757-908 | completed-step counts of neighbours differ by at most one, and the k-th receive of a link is consumed by the neighbour's k-th notification, across reduce-scatter, all-gather and loop iterations |
| `RingTheorems.SourceUnchanged` | experiments/fault_tolerant_allreduce/allreduce.py:811-823 | the source elements of a message read the same at any two moments at which that message is in flight |
| `RingTheorems.ScratchPlacementIsSafe` | experiments/fault_tolerant_allreduce/allreduce.py:813-823 | a reduce-scatter message in flight targets scratch that only the reduction of its own step still reads, with or without a posted receive |
| `RingTheorems.WorkPlacementIsSafe` | experiments/fault_tolerant_allreduce/allreduce.py:878-889 | an all-gather message in flight targets a work chunk that no reduction still reads and that the card reads only to forward this very message, two ranks included |
| `RingTheorems.NoDeadlock` | experiments/fault_tolerant_allreduce/allreduce.py:803-842 | in every reachable unfinished state without faults some micro-step that makes progress is enabled |
| `RingTheorems.StepLowersWork` | experiments/fault_tolerant_allreduce/allreduce.py:790-908 | every micro-step that is not a repeated copy lowers a measure |
| `RingTheorems.RunsAreFinite` | experiments/fault_tolerant_allreduce/allreduce.py:790-908 | a run has at most n * (steps * (6 + 2b) + 1) useful micro-steps, so with NoDeadlock every fault-free run completes |
| `RingProof.StepKeepsInv` | experiments/fault_tolerant_allreduce/allreduce.py:790-909 | every micro-step of every rank and card keeps the bookkeeping, memory and message invariant |
| `RingProof.RunKeepsInv` | experiments/fault_tolerant_allreduce/allreduce.py:730-909 | the invariant holds in every state of every run |
| `RingProof.Adjacent` | experiments/fault_tolerant_allreduce/allreduce.py:803-842 | neighbours are at most one step apart, and a rank's acknowledged messages are its successor's consumed receives |
| `RingProof.SourceStable` | experiments/fault_tolerant_allreduce/allreduce.py:811-889 | while a message is in flight its source elements are the partial or the whole fold of the step |
| `RingProof.ReduceReads` | experiments/fault_tolerant_allreduce/allreduce.py:844-857 | a reduce-scatter reduction combines the rank's own input with the predecessor's partial fold, giving the next partial fold |
| `Ring.NeighboursAgreeOnChunk` | experiments/fault_tolerant_allreduce/allreduce.py:791-800 | the chunk that rank r sends in a reduce-scatter step is the chunk that rank r+1 reduces in it, so the lengths agree too |
| `ChannelLayout.ArgumentsSound` | experiments/fault_tolerant_allreduce/allreduce.py:559-577 | the channel layout covers all elements: both roundings go up, so active channels times channel width is at least the count |
| `ChannelLayout.ArgumentsExactly` | experiments/fault_tolerant_allreduce/allreduce.py:562-577 | the number of channels is the largest c up to num_sms with c * 32768 bytes in the tensor, or 1; the channel width is the least number of 16 KiB cells that covers it; a full chunk has 2 MiB and alignment 16 bytes |
| `ChannelLayout.ChunkIsLeast` | experiments/fault_tolerant_allreduce/allreduce.py:776-784 | a chunk has full length while an iteration has a full one for every rank, and otherwise the least aligned length of which world cover what is left |
| `ChannelLayout.OwnerIs` | experiments/fault_tolerant_allreduce/allreduce.py:776-800 | the rank that owns an element, from the lengths alone: the chunk of its iteration that the element falls into |
| `ChannelLayout.OneOwner` | experiments/fault_tolerant_allreduce/allreduce.py:776-800 | owner and chunk length are determined by that |
| `ChannelLayout.LocateIsValid` | experiments/fault_tolerant_allreduce/allreduce.py:770-800 | every element of the tensor lies in some channel, loop iteration, owner chunk and position |
| `ChannelLayout.IndexIsInjective` | experiments/fault_tolerant_allreduce/allreduce.py:770-802 | and in only one of them: the schedule tiles [0, count) exactly once, trailing empty channels included |
| `ChannelLayout.TransfersAligned` | experiments/fault_tolerant_allreduce/allreduce.py:776-802 | every chunk starts on a 16-byte boundary for item sizes 1, 2, 4 and 8 |
| `AllReduce.FinishedTensor` | experiments/fault_tolerant_allreduce/allreduce.py:730-909 | when all channels of a rank finished with status 0, every element of its work buffer is the fold of that element over all ranks that ends at the rank owning the element |
| `CallSequence.FinishedCallTensor` | experiments/fault_tolerant_allreduce/allreduce.py:1720-1804 | any sequence of calls, of any counts and item sizes, on the same queue pairs and buffers and without a barrier: when the kernel of a rank's last call has returned with status 0, byte j * itemsize of the work buffer holds element j folded over all ranks, ending at the rank that owns it by the layout in numbers, whatever call the others are in |
| `CallSequence.CallsDeliver` | experiments/fault_tolerant_allreduce/allreduce.py:1720-1804 | wherever a fault-free sequence of calls stands, it can be continued until every rank holds the result of the last call |
| `CallSequence.GroupIsSound` | experiments/fault_tolerant_allreduce/allreduce.py:770-802 | the cells of one call never overlap in memory, so the theorems about call sequences apply to every sequence of sizes |
| `CallSequence.CallsShareBytes` | experiments/fault_tolerant_allreduce/allreduce.py:1742-1804 | memory is reused: the first elements of any two calls are different cells on the same bytes |
| `CollectivesTheorems.CallHoldsFold` | experiments/fault_tolerant_allreduce/allreduce.py:1742-1804 | real memory holds the fold in every iteration of the last call that a rank has passed, until the rank starts its next call |
| `CollectivesTheorems.IdleWorkIsPrivate` | experiments/fault_tolerant_allreduce/allreduce.py:1742-1804 | between two calls nothing in flight reads or writes a rank's work buffer, so reading the result and copying in the next input race with nothing |
| `CollectivesTheorems.ScratchTargetIsFree` | experiments/fault_tolerant_allreduce/allreduce.py:813-823 | a reduce-scatter message in flight overlaps no scratch bytes that a reduction still reads except its own, even if its receiver is still in the previous call and on whichever channel |
| `CollectivesTheorems.WorkTargetIsOwnCell` | experiments/fault_tolerant_allreduce/allreduce.py:878-889 | the receiver of an all-gather message in flight is in the same call, and the target overlaps no other cell of it |
| `CollectivesTheorems.CallsDoNotDeadlock` | experiments/fault_tolerant_allreduce/allreduce.py:1742-1804 | whatever calls the ranks are in, while no rank failed and calls are left, some rank can start its call or some channel can make a useful micro-step |
| `CollectivesProgress.CallsAreFinite` | experiments/fault_tolerant_allreduce/allreduce.py:1742-1804 | a run of the whole group, starts of calls and micro-steps of all channels, has at most n * calls plus the sum of the channels' bounds effective acts, which only the calls determine |
| `CollectivesProgress.CallsComplete` | experiments/fault_tolerant_allreduce/allreduce.py:1742-1804 | every fault-free run extends to one in which every rank has returned from every call |
| `CollectivesTheorems.StepHasOutcome` | experiments/fault_tolerant_allreduce/allreduce.py:803-909 | whatever may happen next has an outcome: the rules for overlapping bytes never contradict each other |
| `CollectivesProof.CallsKeepConsistent` | experiments/fault_tolerant_allreduce/allreduce.py:1720-1804 | in every state of every sequence of calls, reused memory agrees with rings whose cells have memory of their own, for the work buffer of a rank's last call and for what landed of its predecessor's |
| `GroupHandshake.NeighboursArePaired` | experiments/fault_tolerant_allreduce/allreduce.py:1586-1660 | whatever stale or foreign connections the listeners see, when two ring neighbours both joined, outgoing lane i of one and incoming lane i of the other are connected to each other and next_buffers are the other's buffers, provided a listener takes one member's connections in the order they were opened or one of the two attempted the uuid only once |
| `GroupHandshake.RunKeepsInv` | experiments/fault_tolerant_allreduce/allreduce.py:450-474 | in every reachable state an accepted request came on a connection that the previous rank opened, and a response that finished a handshake was written by the next rank on the connection opened to it |
| `HandshakeCrossing.MispairsExactly` | experiments/fault_tolerant_allreduce/allreduce.py:1545-1549 | for every ring size, lane count and pair of neighbours: a run in which they join in their t-th and u-th attempts at one uuid without pairing exists if and only if listeners accept one member's connections out of order and both t and u are at least 2 |
| `HandshakeCrossing.CrossedRetriesMispair` | experiments/fault_tolerant_allreduce/allreduce.py:1545-1549 | the smallest case, two members with one lane and one retry each |
| `GroupModel.RingIsAgreed` | experiments/fault_tolerant_allreduce/allreduce.py:1548-1571 | members that reconfigure with the same handles in unordered collections build the same list and find themselves at different ranks |
| `GroupModel.RefusedEarly` | experiments/fault_tolerant_allreduce/allreduce.py:1543-1554 | which calls are refused before and while the handles are decoded, in terms of the handles |
| `GroupModel.AdmitsExactly` | experiments/fault_tolerant_allreduce/allreduce.py:1554-1571 | which memberships are refused, the first failing requirement being named: own handle, distinct stable ranks, equal lane count, channel count and capacity |
| `GroupModel.RankIsPosition` | experiments/fault_tolerant_allreduce/allreduce.py:1531-1556 | for a list or tuple the rank is the position of the own handle, for any other collection the number of members with a smaller stable rank |
| `GroupModel.ReconfiguredExactly` | experiments/fault_tolerant_allreduce/allreduce.py:1573-1689 | field by field what a refused, a raising and a successful reconfiguration leave |
| `GroupModel.ReconfiguredKeepsOpen` | experiments/fault_tolerant_allreduce/allreduce.py:1543-1689 | a reconfiguration, returning or raising, keeps rank, size, uuid and lanes together; a successful one clears the failure and used a fresh uuid |
| `GroupModel.GroupStaysConsistent` | experiments/fault_tolerant_allreduce/allreduce.py:1494-1583 | over every sequence of reconfigure, allreduce and abort calls, rank >= 0, size > 0 and a set uuid hold together, and size > 1 has full lanes, peer buffers and GPU state |
| `GroupModel.FailureNeedsFreshReconfigure` | experiments/fault_tolerant_allreduce/allreduce.py:1720-1804 | after a failed collective none gets past the checks until a reconfiguration succeeded in between, with a uuid outside the used set |
| `GroupModel.LaunchHasFullRing` | experiments/fault_tolerant_allreduce/allreduce.py:1754-1787 | a collective starts the kernel only on a healthy ring with every lane, the peer's buffers and the GPU state; the error for a missing export cannot occur |
| `GroupModel.RefusedExactly` | experiments/fault_tolerant_allreduce/allreduce.py:1720-1740 | a collective gets past the checks if and only if the group is joined and healthy and the tensor is a whole number of elements that fits the staging buffer, 16-byte aligned; each refusal names the first check that fails |
| `GroupModel.ReducedExactly` | experiments/fault_tolerant_allreduce/allreduce.py:1742-1804 | when a collective launches the kernel and when it fails the group |
| `GroupModel.ClearedExactly` | experiments/fault_tolerant_allreduce/allreduce.py:1806-1815 | field by field what an abort and closing the lanes leave |
| `ProcessGroups.ProcessGroup.constructor` | experiments/fault_tolerant_allreduce/allreduce.py:1243-1253 | a new group has no rank, size, uuid or lanes and has not failed |
| `ProcessGroups.ProcessGroup.CloseLanes` | experiments/fault_tolerant_allreduce/allreduce.py:1494-1508 | lanes, peer buffers and GPU state are dropped and nothing else changes |
| `ProcessGroups.ProcessGroup.DecodeAll` | experiments/fault_tolerant_allreduce/allreduce.py:1554 | all handles decode, in order, or none are returned |
| `ProcessGroups.ProcessGroup.Reconfigure` | experiments/fault_tolerant_allreduce/allreduce.py:1543-1689 | a refused call changes nothing, a raising one leaves a failed group without rank, size, uuid or lanes, a successful one joins at the position of its handle in a list, or by stable rank |
| `ProcessGroups.ProcessGroup.BuildRing` | experiments/fault_tolerant_allreduce/allreduce.py:1573-1689 | the state changes of a reconfiguration, the single-member case included |
| `ProcessGroups.ProcessGroup.AllReduceTensor` | experiments/fault_tolerant_allreduce/allreduce.py:1720-1804 | a refused collective changes nothing, one that raises past the checks fails the group, with peers it never fails for a missing export, and only aligned tensors of whole elements that fit the staging buffer get that far |
| `ProcessGroups.ProcessGroup.Abort` | experiments/fault_tolerant_allreduce/allreduce.py:1806-1815 | revokes rank, size, uuid and lanes of an open group and keeps its used uuids |
| `WrIds.FreshExactlyWhenTheyFit` | ibverbs/src/ibverbs/read_scheduler.py:716-722 | k ids allocated within one refill are pairwise distinct and not pending, across wrap-around at 2^64-1, if and only if they fit beside the pending ones |
| `ReadRequests.ChunkTotals` | ibverbs/src/ibverbs/read_scheduler.py:659-669 | the integer count of chunks is the number of chunks the iterator yields, and their bytes are the batch's bytes |
| `ReadRequests.AnnouncedIsYielded` | ibverbs/src/ibverbs/read_scheduler.py:431-433 | the total that submit announces, divided in binary64 and rounded up, is the number of chunks yielded whenever every request counts exactly, and for a single request only then |
| `FloatDivision.AnnouncedCount` | ibverbs/src/ibverbs/read_scheduler.py:431-433 | the rounded division gives the number of chunks of a request if and only if a stated condition on length and chunk size holds |
| `FloatDivision.SmallRequestsCount` | ibverbs/src/ibverbs/read_scheduler.py:431-433 | the condition holds for every request below 2^53 bytes |
| `FloatDivision.LargeRequestMiscounts` | ibverbs/src/ibverbs/read_scheduler.py:431-433 | and not for 2^53 + 1 bytes in chunks of one byte, which are announced as 2^53 chunks |
| `ReadRequests.ChunkOfByte` | ibverbs/src/ibverbs/read_scheduler.py:659-669 | every byte of every request lies in exactly one chunk |
| `ReadLedger.ByteTravelsOnce` | ibverbs/src/ibverbs/read_scheduler.py:685-714 | over all queue pairs of a delivered batch exactly one posted work request carries a given byte, with local and remote offsets in lockstep and under the id that was pending for it |
| `ReadLedger.BalancedTotals` | ibverbs/src/ibverbs/read_scheduler.py:671-714 | chunks and bytes: completed plus pending plus not yet issued is everything, and pending is the sum over the queue pairs |
| `ReadScheduler.RdmaReadScheduler.constructor` | ibverbs/src/ibverbs/read_scheduler.py:198-234 | a configured scheduler starts idle with nothing pending |
| `ReadScheduler.RdmaReadScheduler.Conservation` | ibverbs/src/ibverbs/read_scheduler.py:406-487 | completed + pending + not yet issued equals the total in chunks and bytes whenever a batch is active |
| `ReadScheduler.RdmaReadScheduler.NextChunk` | ibverbs/src/ibverbs/read_scheduler.py:659-669 | the suspended iterator yields the next chunk of what it had left, and ends exactly when nothing is left |
| `ReadScheduler.RdmaReadScheduler.AllocateWrId` | ibverbs/src/ibverbs/read_scheduler.py:716-722 | the first id in wrapping order from 1 to 2^64 - 1 that is not pending |
| `ReadScheduler.RdmaReadScheduler.Draw` | ibverbs/src/ibverbs/read_scheduler.py:678-706 | one visit of a queue pair with room draws the next chunk and a fresh id, and succeeds if and only if the verbs layer accepts the chunk: ids never run out |
| `ReadScheduler.RdmaReadScheduler.Gather` | ibverbs/src/ibverbs/read_scheduler.py:675-706 | the round-robin loop: the k-th chunk goes to the lane whose turn it is, one that has room when every lane with room got as many chunks as it and every earlier one with room one more; it succeeds if and only if every chunk it reaches is accepted, and then ends with the input exhausted or every queue pair at its depth |
| `ReadScheduler.DealIsEven` | ibverbs/src/ibverbs/read_scheduler.py:675-706 | so queue pairs that are not filled up get the same number of chunks, an earlier one at most one more |
| `ReadScheduler.RdmaReadScheduler.PostQueued` | ibverbs/src/ibverbs/read_scheduler.py:708-714 | the lists of the queue pairs are registered, posted and counted in order, up to and including the first refused post; it succeeds if and only if every non-empty list is accepted |
| `ReadScheduler.RdmaReadScheduler.Refill` | ibverbs/src/ibverbs/read_scheduler.py:671-714 | a refill keeps the books balanced, deals the new chunks round robin to the queue pairs with room, leaves the scheduler work-conserving, and succeeds whenever the verbs layer accepts the batch's chunks and posts |
| `ReadScheduler.RdmaReadScheduler.FinishSuccess` | ibverbs/src/ibverbs/read_scheduler.py:724-733 | the callback runs exactly once, and its exception becomes the batch's error |
| `ReadScheduler.RdmaReadScheduler.FailTransport` | ibverbs/src/ibverbs/read_scheduler.py:735-755 | every failure empties the books, ends the batch, poisons the scheduler and closes owned resources |
| `ReadScheduler.RdmaReadScheduler.Submit` | ibverbs/src/ibverbs/read_scheduler.py:406-446 | a refused call names the first of closed, poisoned and busy and changes nothing; an accepted batch is active, dealt round robin, with every queue pair full or the input exhausted, or finished if it was empty; it fails only if the verbs layer refuses a chunk or a post |
| `ReadScheduler.RdmaReadScheduler.Complete` | ibverbs/src/ibverbs/read_scheduler.py:464-479 | a completion is routed if and only if its id is pending on that queue and it succeeded; it frees exactly one slot |
| `ReadScheduler.RdmaReadScheduler.PollAll` | ibverbs/src/ibverbs/read_scheduler.py:460-479 | a poll of all queues succeeds if and only if no queue that is polled raises and every completion taken routes and succeeded, in any batching and order; it then counts exactly the completions taken and keeps the books balanced |
| `ReadScheduler.RdmaReadScheduler.PollQueue` | ibverbs/src/ibverbs/read_scheduler.py:460-479 | the same for one queue, which is polled only if something is outstanding on it and takes at most poll_batch and at most that much |
| `ReadScheduler.RdmaReadScheduler.Progress` | ibverbs/src/ibverbs/read_scheduler.py:448-487 | honest completions and an accepting verbs layer never fail; the batch ends with every chunk delivered, its callback run once after the last completion, or goes on with at least one pending entry; any failure poisons; a foreign, dropped or ended batch changes nothing |
| `ReadScheduler.RdmaReadScheduler.Wait` | ibverbs/src/ibverbs/read_scheduler.py:489-522 | as many honest productive rounds as chunks are left finish the batch, whatever the order and batching; a batch still running has seen fewer, and no turn past the deadline; only such a turn times out; waiting for an unfinished batch of another scheduler ends that batch behind its owner's back, and both schedulers stay in order if and only if the batch was this scheduler's or had ended |
| `ReadScheduler.RdmaReadScheduler.SomeRoundsSuffice` | ibverbs/src/ibverbs/read_scheduler.py:489-522 | such rounds exist for every batch that the verbs layer takes |
| `ReadScheduler.ForeignWait` | ibverbs/src/ibverbs/read_scheduler.py:489-522 | a run in which waiting for another scheduler's batch ends it and leaves its owner with an ended batch active |
| `ReadScheduler.RdmaReadScheduler.Close` | ibverbs/src/ibverbs/read_scheduler.py:638-650 | closing empties the books and ends a batch in flight with an error |
| `NvmeSystem.ResponsesAreAttributed` | nvmeof/src/nvmeof/rdma.py:217-298 | in every interleaving free and pending ids partition 0..depth-2, a finished request holds the answer to its own capsule, and no capsule finishes twice |
| `NvmeSystem.FreeIdsAreQuiet` | nvmeof/src/nvmeof/rdma.py:234-260 | a free id has no outstanding SEND, no capsule at the target, and no entry or unread answer that names it |
| `NvmeSystem.PollNeverMeetsUnknownId` | nvmeof/src/nvmeof/rdma.py:273-295 | polling raises exactly for a bad status or a failed receive post: the two unknown-command-id errors cannot occur |
| `NvmeSystem.QueueSizesSuffice` | nvmeof/src/nvmeof/rdma.py:159-193 | unpolled completions stay below 2*depth+1, outstanding sends at most depth-1, posted receives exceed unanswered commands unless receives were flushed, and a slot with an unread answer is not posted |
| `NvmeSystem.QuietQueueIsWhole` | nvmeof/src/nvmeof/rdma.py:217-298 | with no entry lost and nothing outstanding, every id is free and every slot is posted: nothing leaks |
| `NvmeSystem.StepKeepsInv` | nvmeof/src/nvmeof/rdma.py:217-298 | submissions, send completions, responses, flushes, polls, lost entries and hand-outs keep the invariant |
| `NvmeHost.SubmitKeepsPartition` | nvmeof/src/nvmeof/rdma.py:234-253 | taking the next id keeps the partition |
| `NvmeHost.EventsKeepPartition` | nvmeof/src/nvmeof/rdma.py:255-293 | send completions and answers, in any order, keep the partition |
| `NvmeHost.WrIdRoundTrip` | nvmeof/src/nvmeof/rdma.py:213-284 | work-request ids decode to their kind and index |
| `NvmeHost.HandleStops` | nvmeof/src/nvmeof/rdma.py:273-298 | the first error of a polled batch drops the rest of it |
| `NvmeHost.HandledExactly` | nvmeof/src/nvmeof/rdma.py:273-295 | when a polled entry is handled: bits 63 and 62 of its id and the low 32, its status, at least 16 bytes, a slot below the depth, a slot posted again, and something pending; which slot is posted again and which answer is looked at |
| `NvmeHost.EventExactly` | nvmeof/src/nvmeof/rdma.py:255-293 | a request finishes with its second half, in either order, and its id becomes the last free one |
| `NvmeQueue.RDMAQueue.constructor` | nvmeof/src/nvmeof/rdma.py:157-160 | a new queue has ids 0..depth-2 free, in order |
| `NvmeQueue.RDMAQueue.WriteCapsule` | nvmeof/src/nvmeof/rdma.py:235-237 | only the slot of this id changes |
| `NvmeQueue.RDMAQueue.Submit` | nvmeof/src/nvmeof/rdma.py:217-253 | the refusals in order; a refused or failed submit leaves ids and pending requests as they were; an accepted one owns the next id and its slot holds the patched command |
| `NvmeQueue.RDMAQueue.FinishIfReady` | nvmeof/src/nvmeof/rdma.py:255-260 | a request finishes only with both halves, and then its id goes to the back of the free ids |
| `NvmeQueue.RDMAQueue.HandleSend` | nvmeof/src/nvmeof/rdma.py:275-282 | a send completion marks its pending request or is refused |
| `NvmeQueue.RDMAQueue.HandleAnswer` | nvmeof/src/nvmeof/rdma.py:289-294 | an answer is recorded for the pending request it names or is refused |
| `NvmeQueue.RDMAQueue.HandleOne` | nvmeof/src/nvmeof/rdma.py:273-295 | an answer is what its slot held before the slot was posted again, after which the card may overwrite it at once; the new state is the specified one in every branch |
| `NvmeQueue.RDMAQueue.Poll` | nvmeof/src/nvmeof/rdma.py:262-298 | a batch is handled in order up to its first error, and finished requests are handed out in order and only when there was none |
| `NvmeQueue.RDMAQueue.Execute` | nvmeof/src/nvmeof/rdma.py:300-326 | one submit followed by polls until the first that finds the command done, fails, or ends past the deadline; it raises if and only if the last poll failed, times out if and only if that poll was handled but late, and answers otherwise, with the command's own answer; a command without an answer keeps its id |
| `NvmeQueue.LateAnswerTimesOut` | nvmeof/src/nvmeof/rdma.py:309-326 | a command whose answer arrives in a late poll is done and times out all the same |
| `NvmeQueue.TimeOutAfterAnswer` | nvmeof/src/nvmeof/rdma.py:300-326 | a run of execute that times out with the request done |
| `NvmeCommand.SetKeyedSgl` | nvmeof/src/nvmeof/protocol.py:223-250 | accepted if and only if the range is not empty, stays inside the memory region, fits one descriptor, and address and key fit their fields; a refused range changes no byte, an accepted one writes the flag and the descriptor, little-endian, and nothing else |
| `NvmeCommand.NewCommand` | nvmeof/src/nvmeof/protocol.py:216-220 | the empty command of an opcode and a namespace |
| `NvmeCommand.RwCommand` | nvmeof/src/nvmeof/protocol.py:359-388 | built if and only if opcode, LBA, block count, block size, namespace, range, address and key are all in bounds, the range inside the memory region; otherwise the first failing check is named; the target decodes exactly the requested transfer from the 64 bytes, which are given field by field |
| `Bytes.LittleByte` | nvmeof/src/nvmeof/protocol.py:216-250 | byte i of a little-endian field is the value divided by 256^i, modulo 256 |
| `Bytes.BigByte` | experiments/tcp_multiflow/transport.py:23 | byte i of n in network order is the value divided by 256^(n-1-i), modulo 256 |
| `NvmeCommand.DecodeLayout` | nvmeof/src/nvmeof/protocol.py:216-250 | the byte layout decodes field by field (NVM Express Base Specification 1.4, sections 4.2 and 4.4) |
| `NvmeCommand.CompletionRoundTrip` | nvmeof/src/nvmeof/protocol.py:99-104 | a 16-byte completion entry decodes to the fields it was built from (section 4.6) |
| `NvmeCommand.SucceededExactly` | nvmeof/src/nvmeof/protocol.py:106-129 | a completion succeeded if and only if status code and status code type are zero, bits 1 to 8 and 9 to 11 of the status field, whatever the phase and retry bits |
| `NvmeTransfer.MaxTransferBytes` | nvmeof/src/nvmeof/controller.py:177-180 | the transfer limit is one descriptor, or MDTS controller pages if that is less and MDTS is set |
| `NvmeTransfer.PlanWithinLimits` | nvmeof/src/nvmeof/controller.py:317-341 | no generated command is empty or exceeds 65536 blocks, the transfer limit or 2^24-1 bytes |
| `NvmeTransfer.MaxBlocksIsLargest` | nvmeof/src/nvmeof/controller.py:317-321 | the block count of a command is the largest that 65536 and the transfer limit allow |
| `NvmeTransfer.FullExceptLast` | nvmeof/src/nvmeof/controller.py:322-341 | every command of a transfer but the last has that many blocks |
| `NvmeTransfer.PlanIsOneTransfer` | nvmeof/src/nvmeof/controller.py:322-341 | serving the first k commands in order moves exactly the first k * max_blocks blocks to or from exactly their buffer range, and nothing else |
| `NvmeTransfer.WholePlan` | nvmeof/src/nvmeof/controller.py:294-341 | serving the whole plan is one transfer of the whole range |
| `NvmeTransfer.WriteThenRead` | nvmeof/src/nvmeof/controller.py:294-341 | writing a range and reading it back into any buffer restores the data |
| `NvmeTransfer.Transfer` | nvmeof/src/nvmeof/controller.py:294-341 | rejected if and only if the buffer is no whole number of blocks, the range leaves the namespace or the buffer, or a block exceeds the transfer limit, the first of these being named; otherwise the capsules decode to a prefix of the plan: all of it on success, else up to the first command that does not fit its fields, with that error, or whose execute raises |
| `NvmeTransfer.Issue` | nvmeof/src/nvmeof/controller.py:322-341 | the splitting loop issues the planned commands in order, up to the first that cannot be built or executed |
| `NvmeTransfer.RegisteredIsNeverRefused` | nvmeof/src/nvmeof/controller.py:322-341 | for a region whose addresses and key fit, no command of a transfer is refused |
| `NvmeTransfer.PatchedCommand` | nvmeof/src/nvmeof/rdma.py:234-237 | patching the command id changes nothing but the command id for the target |
| `TcpFraming.HeaderRoundTrip` | experiments/tcp_multiflow/transport.py:23 | a packed header unpacks to itself, in network byte order |
| `TcpFraming.FrameBytes` | experiments/tcp_multiflow/transport.py:449-459 | byte for byte what a frame is: TENSOR01, transfer id, flow, total, offset and length in network order, payload |
| `TcpFraming.TerminatorBytes` | experiments/tcp_multiflow/transport.py:460-462 | and a terminator: TEND0001 and no data |
| `TcpFraming.ReadingExactly` | experiments/tcp_multiflow/transport.py:703-727 | what the first 52 bytes of a stream are taken for: a mismatch, a good or bad terminator, a good or bad stripe |
| `TcpFraming.FramingRoundTrip` | experiments/tcp_multiflow/transport.py:435-462 | the receiver's reading of a flow is the sender's list of stripes, up to the terminator |
| `TcpFraming.PrefixParse` | experiments/tcp_multiflow/transport.py:703-742 | of a stream cut after any number of bytes the receiver reads exactly the stripes whose frames are complete, and then finds the peer closed unless the terminator is complete |
| `TcpFlow.RecvExact` | experiments/tcp_multiflow/transport.py:288-297 | the first bytes of the stream under any fragmentation, or an error if the peer closed before |
| `TcpFlow.RecvPayload` | experiments/tcp_multiflow/transport.py:728-742 | the payload under any fragmentation and chunk size |
| `TcpFlow.ReadStripe` | experiments/tcp_multiflow/transport.py:703-742 | one header and payload, read as the framing specifies, or how the flow ends |
| `TcpFlow.PlaceStripe` | experiments/tcp_multiflow/transport.py:743-752 | the flag of the stripe is set and no other; its bytes are written if the flag was clear, and no other byte changes |
| `TcpFlow.ReceiveDynamicFlow` | experiments/tcp_multiflow/transport.py:686-761 | on every exit: the stripes are those that the stream reads as, their bytes are counted, a flag is set if and only if it was or such a stripe came, a byte under a clear flag is that of the first stripe of its index, and every other byte is as it was |
| `TcpFlow.SendPayload` | experiments/tcp_multiflow/transport.py:455-459 | the chunks sent are the stripe |
| `TcpFlow.SendDynamicFlow` | experiments/tcp_multiflow/transport.py:432-462 | the sender writes one frame per drawn task and the terminator, and counts the payload |
| `TcpFlow.FlowDelivers` | experiments/tcp_multiflow/transport.py:435-462 | what a sender wrote reads as its stripes |
| `TcpFlow.BytesArrive` | experiments/tcp_multiflow/transport.py:743-752 | every byte of a stripe that some drawn task carries, under a flag that was clear, is the sender's byte afterwards |
| `TcpSystem.FinishedTransferIsComplete` | experiments/tcp_multiflow/transport.py:435-462 | once every flow read its terminator, no flag is missing, the destination is the source, each byte was written exactly once by the flow that set its flag, and sent and received bytes are len * iterations |
| `TcpSystem.BytesAreWrittenOnce` | experiments/tcp_multiflow/transport.py:744-752 | in every reachable state a byte was written at most once, by the flow that set its stripe's flag, although the copy runs outside the lock |
| `TcpSystem.FlowsNeverWait` | experiments/tcp_multiflow/transport.py:435-462 | a flow whose receiver did not finish can always take a step |
| `TcpStreams.ArrivedStripes` | experiments/tcp_multiflow/transport.py:435-462 | in any state, with any part of the next frame written and any part of it all arrived, the bytes read as a prefix of the stripes sent completely |
| `TcpStreams.ReceiverFollowsStream` | experiments/tcp_multiflow/transport.py:703-761 | in every reachable state a receiver can read another stripe exactly when the bytes on the wire parse to one more, gets that stripe, has counted the payload of those before, and, once a finished sender's terminator is written, can end exactly when they parse to an end |
| `TcpSystem.StepKeepsInv` | experiments/tcp_multiflow/transport.py:744-752 | draws, sends, receives, claims and byte copies keep the invariant in any interleaving |
| `TcpSystem.RoundBytes` | experiments/tcp_multiflow/transport.py:509-516 | the tasks of all rounds add up to len * iterations, the last short stripe included |
| `TcpPartitions.PartitionsTile` | experiments/tcp_multiflow/transport.py:273-280 | no static range is empty, and every byte of the tensor lies in exactly one |
| `TcpPartitions.PartitionsAreEven` | experiments/tcp_multiflow/transport.py:273-280 | the ranges differ by at most one byte |
| `HostPages.QueuePages` | ibverbs/src/ibverbs/gpunetio/_runtime.py:94-110 | the sorted pages are exactly the page addresses whose pages overlap a queue or doorbell |
| `HostPages.TouchesExactly` | ibverbs/src/ibverbs/gpunetio/_runtime.py:106-109 | the computed base and end of a range give exactly the pages that overlap it |
| `HostPages.PagesCoverQueues` | ibverbs/src/ibverbs/gpunetio/_runtime.py:106-109 | every byte of a queue lies in one of its pages |
| `HostMemory.HostRegistry.RegisteredExactlyWhenHeld` | ibverbs/src/ibverbs/gpunetio/_runtime.py:20-47 | a page is registered with CUDA if and only if some mapping holds it, an abandoned one included |
| `HostMemory.HostRegistry.Close` | ibverbs/src/ibverbs/gpunetio/_runtime.py:30-47 | the mapping keeps exactly the pages it held last and that CUDA did not unregister; every other page loses one holder |
| `HostMemory.HostRegistry.AcquireOne` | ibverbs/src/ibverbs/gpunetio/_runtime.py:118-132 | a page is registered only when nobody holds it yet |
| `HostMemory.HostRegistry.Register` | ibverbs/src/ibverbs/gpunetio/_runtime.py:114-154 | succeeds if and only if every new page registers and every device pointer resolves; a failed call whose unregistrations work restores the table, otherwise it leaves only new pages that CUDA kept |
| `HostMemory.HostRegistry.RegisterQueueMemory` | ibverbs/src/ibverbs/gpunetio/_runtime.py:93-154 | succeeds if and only if CUDA registers every overlapping page that nobody held and resolves every pointer; then exactly those pages gain a holder and every byte of every queue lies in a registered one |

## Left out

- Int32 arithmetic of the kernel, and the full 2^31 - 1 element limit: indices are unbounded integers.
- The CUDA, DOCA and CuTe layers: a rank's threads are one atomic reduction per step, a failed fence or reduction is a step that ends with a non-zero status.
- Kernel deadlines and wall clocks: a wait can fail at any moment.
- Empty trailing channels: the layout may activate channels that get no element; only coverage and disjointness are claimed.
- RingTheorems.RunsAreFinite: repeated copies of an element are not counted, since the model lets the card repeat them without end; it is about one channel; `CollectivesProgress.CallsAreFinite` is about the whole group.
- GroupHandshake.NeighboursArePaired: without in-order accepts it asks that one of the two neighbours attempted the uuid only once; `HandshakeCrossing.MispairsExactly` shows that no less will do. A foreign process that knows both the uuid and a member's handle is not modelled.
- ReadScheduler.RdmaReadScheduler.constructor: asks for the sizes that the source checks, and for qp_count * queue_depth <= 2^64 - 1, which the source does not check; with more outstanding ids than that the allocator repeats some, by `WrIds.FreshExactlyWhenTheyFit`.
- ReadScheduler.RdmaReadScheduler.Progress: compares with the integer chunk count; a batch whose announced total differs, by `ReadRequests.AnnouncedIsYielded` one with a request of 2^53 bytes or more, is not followed further.
- ReadScheduler.RdmaReadScheduler.Wait: sleeping, the asynchronous variants and interrupts from outside the scheduler are not modelled; deadlines are part of the rounds.
- ReadScheduler.RdmaReadScheduler.Submit: requests were validated by their own constructor, and submitting again from inside `on_complete` is not modelled.
- ReadScheduler.RdmaReadScheduler.Close: errors of closing owned queue pairs are not modelled.
- NvmeQueue.RDMAQueue.Execute: the NVMe status of the answer is returned, raising for a non-zero one is left to the caller.
- NvmeQueue.RDMAQueue.constructor: asks for a depth of 2 to 256; outside that range the source raises, which a constructor cannot.
- NvmeSystem.QueueSizesSuffice: the target is assumed to answer each capsule at most once.
- TcpSystem: a flow that fails simply stops; processes, barriers, affinity and statistics are not modelled, and both sides use the same stripe size.
- TcpFraming: an empty tensor is excluded.
- The thread workers' sending and receiving loops: only their ranges are modelled, in `TcpPartitions`.
- GroupModel: the timeout and the handle codec are parameters; JSON, base64 and queue-pair attributes are not modelled.
- ProcessGroups.ProcessGroup.Reconfigure: lanes are numbers, so closing errors and the lanes lost when the lane query raises are not modelled.
- State after `ProcessGroup.close`: the life-cycle theorems cover calls before it.
- HostMemory.HostRegistry.Register: all device-pointer lookups are one outcome, and the addresses they return are not modelled.
- Socket setup, benchmarks, plotting, the Cython extension and the remaining builders of admin commands: input and output or foreign code.
