# A verified model of AccuTrak's heap tools

AccuTrak replaces an application's allocator. It logs every allocation, consolidates the logs of all
threads into one, and replays that log against another allocator. It also replaces blocks by guarded ones
to catch stray accesses. This project models the parts of it in which state is changed in place, and proves
what they promise, on all inputs and over all runs.

**The tree** (`Rb*.dfy`). The intrusive red-black tree of `Tree.h`: heap nodes with parent, left and right
links, and a red header that caches the root, the first and the last node. A ghost zipper (a subtree and
its surroundings) is kept beside the heap; every rotation and recolouring is proved against it. The main
results are the contracts of `Find`, `InsertUnique` and `Erase` over an abstract map and over the set of
nodes, and the height bound.

**From logs to a replay** (`MallocLog`, `BlockIndex`, `MergeOrder`, `Matching`, `Timestamps`, `OneOutput`,
`PassOne`, `Consolidator`, `Replay`, `ReplaySafety`, `ReplayTheorems`, `ReplayLiveness`, `Pipeline`). The
consolidator is imperative, with the bucketed index whose chains refine a plain list of live blocks. What it
writes is described independently of how it is computed: the operations are the stable sort by time of the
logs, every match is the one a written rule singles out, and timestamps stand where times change or where
they are needed to separate an allocation from another thread's release, and nowhere else. Only one output
meets this description, timestamps included. The replay is a state machine whose steps interleave the
controller and the workers freely, with any number of buffer ends. The
theorems that span both: the replay of a consolidated log, in any interleaving, finds every block in the
very table it searches, never gets stuck, ends, and has then executed each operation once and left exactly
the blocks that nobody releases.

**Below the replay** (`NodePool`, `ReplayHash`, `ReplayTables`, `SizeClasses`, `Timing`). The pool of nodes and
the hash tables as classes over memory cells; that every use the state machine makes of its tables meets the
hash tables' conditions and gets the same answer; and the analysis of a log, whose counters are proved equal to
sums over outstanding blocks and whose peaks are maxima over all prefixes.

**Guarded allocators** (`SysAlloc`, `Deferral`, `MallocPadding`, `MallocDeadPage`, `GuardedBlock`). The quarantine
of freed pages with the protection of every page, byte by byte; the lists of padded blocks and how many of
them wait; and the layout of blocks with a guard page, together with its recognition when a block is freed.
`GuardedBlock` puts the pages and the layout together: the user can reach every byte that was asked for, and
the page that catches a stray access is directly before the user's bytes, or behind them.

**Procedure linkage** (`SparcPlt`, `SparcCpu`). Writing and reading entries of the procedure linkage table of
SPARC V9, on bit vectors. The entries are those of section 5.2.4 of the SPARC V9 ABI, as far as the code uses
them. `SparcCpu` executes them: it says what the instructions do from their opcodes and fields alone, and
where a patched entry goes follows from that.

Where the code does less than one may expect, the model follows the code; a lemma says exactly when the
promise holds, and another member gives an input for which it does not:

- The total of deferred bytes misses the size of the very first block that is deferred
  (`src/MallocPadding.cpp:147-150`). It is the sum of the waiting bytes exactly when that block had none
  (`MallocPadding.PaddedHeap.TotalMissesFirst`; `MallocPadding.FirstDeferral` begins with 100 bytes and a total
  of 0). The word therefore wraps below zero once fewer bytes wait than that block had, and then blocks are freed
  although the waiting bytes are within the limit. `Deferral.FreedThoughWithin` says exactly when, for the block
  that has waited longest, and `Deferral.WithinTheLimit` when too many bytes go unnoticed;
  `MallocPadding.FreedEarly` shows it with a limit of 100 and blocks of 1000, 50, 60, 10 and 10 bytes.
- Against overruns, the raw size is computed again without the page that may have been added for the header
  (`src/MallocDeadPage.cpp:263` and `src/MallocDeadPage.cpp:474`): it is right exactly when no page was added
  (`MallocDeadPage.OverrunLayout`); `MallocDeadPage.RawSizeLost` gives a setting and a size.
- Against underruns, the user's address of a block of no bytes lies behind the block rather than on its guard
  page, as the comment at `src/MallocDeadPage.cpp:428` has it (`MallocDeadPage.UnderrunLayout`;
  `MallocDeadPage.EmptyBlock`).
- With freed pages checked and no page to be kept, asking for two pages reads through a null pointer
  (`src/SysAlloc.cpp:449-451`); `SysAlloc.PageCache.GetPages` says exactly when, and `SysAlloc.NullRead` gets there
  from a new cache.
- A comparison of a signed word with an unsigned constant fails whenever the constant has its top bit set
  (`src/sparcv9_plt.cpp:225`, `265`), so entries for far functions are not decoded (`SparcPlt.NegativeOpcode`).
  `SparcPlt.RoundTrip` says for which functions an entry is read back, and `SparcPlt.FarIsLost` gives one for which
  it is not.
- A patched call counts from the word behind it (`src/sparcv9_plt.cpp:140-147`), while the processor counts from
  the call itself: executed, it gets to the word before the function (`SparcCpu.CallGoesAhead`), and 4 GB before
  that when the displacement has its bit 31 set, since the processor takes it as signed (`SparcCpu.CallGoesBack`).
  It never gets to the function itself (`SparcCpu.CallGoesElsewhere`).
- The merge needs a record in every log and times below the largest one; otherwise it would go on with no log
  at all. `PassOne.Merge` says exactly when, and `PassOne.EmptyLog` gives an empty log beside one with a record.

## Model

| member | source | states |
|---|---|---|
| RbTree.RbTree.Find | src/Tree.h:467-488 | The node with the key and its block when the key is in the abstract map, the header otherwise, after at most 2*log2(n + 1) turns of the loop in a tree of n nodes |
| RbTree.RbTree.InsertUnique | src/Tree.h:490-528 | True iff the key was absent; then exactly this pair and this node are added to map, node set and multiset of entries; on a duplicate nothing at all changes; the tree stays a sorted red-black tree with right links and exact first and last node |
| RbTree.RbTree.Insert | src/Tree.h:586-625 | Hanging a node into the gap of its key keeps the whole invariant and the exact node count, and adds exactly that entry |
| RbTree.RbTree.Erase | src/Tree.h:457-465 | Any node can go: the map loses exactly its key, the node set exactly that node, the entries exactly its entry, and the whole invariant is kept |
| RbTree.RbTree.constructor | src/Tree.h:140-147 | The empty tree: a red header that is its own first and last node |
| RbOrder.HeightBound | src/Tree.h:467-488 | A tree in which every path meets h black nodes is at most 2h high (one more under a red root) and has at least 2^h - 1 entries |
| RbOrder.HeightLogarithmic | src/Tree.h:467-488 | The height of a red-black tree of n entries is at most 2*log2(n + 1) |
| RbOrder.Found | src/Tree.h:485-487 | In a sorted sequence, the key is present iff it is the key of the first entry that is not below it |
| RbOrder.ProbeKeys | src/Tree.h:503-527 | The key is absent iff the last entry not above it has a smaller key |
| RbOrder.ContentsWith | src/Tree.h:586-625 | An entry in its place in a sorted sequence adds exactly its pair to the abstract map |
| RbOrder.EntryAdded | src/Tree.h:586-625 | An order that has one entry more has one pair and one entry more, as map and as multiset |
| RbShape.PlugOrder | src/Tree.h:184-236 | Closing the zipper keeps the in-order sequence and the set of nodes, so local changes that keep them locally keep them globally |
| RbShape.PlugRedBlack | src/Tree.h:532-584 | A balanced subtree in balanced surroundings of the same black height makes a red-black tree |
| RbShape.Unplug | src/Tree.h:238-452 | The converse: at any place of a red-black tree, subtree and surroundings agree on one black height |
| RbLinks.RotateLeft | src/Tree.h:184-209 | The relinked heap is exactly the rotated tree in unchanged surroundings, parent links and root included |
| RbLinks.RotateRight | src/Tree.h:211-236 | As for the rotation to the left |
| RbLinks.RotatedLeftOrder | src/Tree.h:184-209 | A rotation to the left preserves the in-order sequence |
| RbLinks.RotatedRightOrder | src/Tree.h:211-236 | A rotation to the right preserves the in-order sequence |
| RbLinks.Relink | src/Tree.h:195-206 | Only the link from the surroundings to the subtree changes, be it the root or a left or right link |
| RbSearch.Decrement | src/Tree.h:157-182 | The in-order predecessor of a node, and the last node for the header |
| RbSearch.Climb | src/Tree.h:174-180 | The nearest ancestor of which the node is not in the left subtree holds the last entry before it, the header stands in when there is none |
| RbSearch.HuntStep | src/Tree.h:472-483 | A turn of the search keeps: everything cut off to the left is below the key, everything to the right is not |
| RbSearch.Arrived | src/Tree.h:485-487 | At a leaf, the last node passed on the left-hand way decides whether the key is in the map, and holds its block |
| RbSearch.Descend | src/Tree.h:492-501 | The way down ends in the gap before the first key above the new one |
| RbSearch.Decide | src/Tree.h:490-528 | The answer is absent iff the key is not in the map, and then the place is the gap where the key belongs |
| RbAttach.Attach | src/Tree.h:593-617 | The parent's link, root, first and last node are those of the order with the new node |
| RbAttach.LinkAndRebalance | src/Tree.h:618-621 | The new node is in its place of the in-order sequence, and the tree is red-black again |
| RbInsert.Rebalance | src/Tree.h:532-584 | From a tree with one red node too low, a red-black tree with the same in-order sequence and nodes |
| RbInsert.RecoloredRising | src/Tree.h:541-547 | Recolouring parent, uncle and grandparent moves the only possible defect two levels up |
| RbInsert.ZigRising | src/Tree.h:550-554 | Turning an inner grandchild outwards keeps heights, order and the only possible defect |
| RbInsert.LiftedRising | src/Tree.h:555-557 | Lifting the parent of an outer grandchild removes the defect, and keeps heights and order |
| RbErase.RebalanceForErase | src/Tree.h:357-450 | From a tree with one black node too few on the way to one subtree, a red-black tree with the same in-order sequence and nodes |
| RbErase.LiftedSiblingFalling | src/Tree.h:363-370 | With a red sibling lifted the missing black node is still the only defect, and the sibling is black |
| RbErase.MergedFalling | src/Tree.h:371-379 | With a sibling and nephews that are black, reddening the sibling moves the defect one level up |
| RbErase.TurnedFalling | src/Tree.h:382-392 | Turning a red inner nephew makes the outer nephew red, and changes nothing about the defect |
| RbErase.RaisedSettled | src/Tree.h:393-400 | Lifting the sibling with a red outer nephew makes up for the missing black node |
| RbErase.FallLeft | src/Tree.h:361-402 | A turn of the loop at a left child settles the tree or gets strictly nearer to the root or to a red node, and keeps order and nodes |
| RbErase.FallRight | src/Tree.h:403-444 | The same at a right child |
| RbUnlink.Down | src/Tree.h:257-266 | The way down from the right child finds the in-order successor, which has no left child |
| RbUnlink.Transplant | src/Tree.h:268-308 | The successor takes the place, the subtrees and the colour of the erased node, everywhere in the heap, both when it is the right child and when it is deeper |
| RbUnlink.Splice | src/Tree.h:310-331 | The only child takes the place of the erased node |
| RbUnlink.FixFirst | src/Tree.h:332-343 | The cached first node is the first of the order without the erased node, the header when nothing is left |
| RbUnlink.FixLast | src/Tree.h:344-355 | The cached last node is the last of the order without the erased node |
| RbUnlink.GraftBalance | src/Tree.h:302-305 | Another entry in a node of the surroundings, with the colours exchanged, leaves all heights alone |
| RbRemove.Unlink | src/Tree.h:244-356 | Whatever children the node has, it is out of the tree and of the order, and what is missing is its successor's or its own colour |
| RbRemove.Restore | src/Tree.h:357-451 | Whatever colour went, the tree is red-black afterwards, with the order and the nodes of the unlinked one |
| RbRemove.Remove | src/Tree.h:238-452 | The whole invariant is kept and exactly the given node, key and entry are gone |
| RbRemove.EntryGone | src/Tree.h:238-452 | A sorted order without one entry is sorted, and loses exactly that key and that entry |
| MallocLog.OpPosition | src/MallocLogConsolidator.cpp:871-898 | Operation number k + 1 stands at a place with k operations before it |
| Consolidator.NumberUnique | src/MallocLogConsolidator.cpp:871-898 | No two places have operations with one number |
| BlockIndex.Hash | src/MallocLogConsolidator.cpp:126 | Every address has one of the 8192 buckets |
| BlockIndex.FirstOf | src/MallocLogConsolidator.cpp:411-426 | The oldest block of the chain that the thread allocated |
| BlockIndex.Index.AddOutstandingBlock | src/MallocLogConsolidator.cpp:332-372 | Refines adding one block at the end of the plain list of live blocks, also when the address is in use already |
| BlockIndex.Index.GetMallocNumber | src/MallocLogConsolidator.cpp:377-486 | Answers and forgets what the plain list says: the oldest block at the address from the same thread, else the oldest there; 0 for NULL and for unknown addresses; numbers released by other threads are remembered |
| BlockIndex.Index.TakeFrom | src/MallocLogConsolidator.cpp:398-456 | Exactly the chosen block leaves the plain list, and every other chain is untouched |
| BlockIndex.TakeOut | src/MallocLogConsolidator.cpp:409-447 | The chain without the chosen block, relinked, with a new head iff the first block went |
| BlockIndex.WithAddressWithout | src/MallocLogConsolidator.cpp:377-486 | Taking a block out of one address's chain leaves all other addresses' blocks alone |
| PassOne.Pick | src/MallocLogConsolidator.cpp:643-653 | The smallest time, the first file among equal ones, and no file iff none has a record left |
| MergeOrder.MergeTakesAll | src/MallocLogConsolidator.cpp:641-778 | Each thread's part of the merged records is its whole log, in order |
| MergeOrder.MergeOrdered | src/MallocLogConsolidator.cpp:643-662 | The merged records are ordered by time, and by file where times are equal |
| MergeOrder.OrderUnique | src/MallocLogConsolidator.cpp:643-662 | Only one ordered sequence has given parts for all threads |
| MergeOrder.StableSortKeeps | src/MallocLogConsolidator.cpp:643-662 | The reference sort orders by time, and keeps the records and each thread's order |
| MergeOrder.MergeIsStableSort | src/MallocLogConsolidator.cpp:639-662 | For nonempty logs with nondecreasing times below the largest one, the merge is the stable sort by time of the logs one after the other |
| PassOne.Barrier | src/MallocLogConsolidator.cpp:694-701 | A second timestamp goes before a release of another thread's block iff that block's number is not below the last timestamp's |
| PassOne.Process | src/MallocLogConsolidator.cpp:655-747 | One turn of the loop on the index and the counters is one step of the specification, for all three kinds of records and frees of NULL; what that step may write, and where no timestamp may stand, is `Matching.GoodStep` and `Timestamps.SpareStep` |
| PassOne.Advance | src/MallocLogConsolidator.cpp:756-777 | The chosen log moves on by one record and is counted as finished at its end; the measure that makes the loop end goes down by one |
| PassOne.Merge | src/MallocLogConsolidator.cpp:611-778 | The loop ends; it gets through iff every log has a record and every time is below the largest one, and then has written what the run of the specification over the merged records writes |
| PassOne.EmptyLog | src/MallocLogConsolidator.cpp:639-665 | An empty log beside one with a record: the loop goes on without a next record |
| Matching.FindingRight | src/MallocLogConsolidator.cpp:377-486 | The list's answer is the right one in terms of the output alone: an outstanding allocation at the address, the oldest of the releasing thread or else the oldest, with its size and whether another thread made it |
| Matching.TrackedNext | src/MallocLogConsolidator.cpp:655-747 | After each operation the list holds exactly the allocations that no record so far releases, oldest first |
| Matching.FenceSnoc | src/MallocLogConsolidator.cpp:655-662 | Operations numbered below the last timestamp's number are behind a timestamp, and stay so |
| Matching.SeparatedSnoc | src/MallocLogConsolidator.cpp:694-704 | A release across threads may be written once its allocation is behind a timestamp |
| Matching.TimedSnoc | src/MallocLogConsolidator.cpp:655-662 | A record written under a timestamp of its own time has its time as the last timestamp before it |
| Matching.GoodStep | src/MallocLogConsolidator.cpp:655-747 | Every step keeps: faithful records, right matches, exact list, times recoverable, allocations and foreign releases in different batches |
| Matching.RunGood | src/MallocLogConsolidator.cpp:639-778 | The same over every run |
| Matching.MatchedOnce | src/MallocLogConsolidator.cpp:377-486 | A nonzero match names a strictly earlier allocation at the same address and of the same size, says rightly whether another thread made it, and is named by no other record |
| Matching.RightFindUnique | src/MallocLogConsolidator.cpp:407-447 | The written rule leaves one answer |
| Matching.MatchingUnique | src/MallocLogConsolidator.cpp:377-486 | Two outputs that both obey the rule have the same matches, so the rule is the whole specification |
| Timestamps.SpareStep | src/MallocLogConsolidator.cpp:655-747 | Every step keeps: a time is repeated only where a release across threads needs it, and the times without repetitions are those of the records each time they change |
| Timestamps.BarrierNeeded | src/MallocLogConsolidator.cpp:694-704 | A second timestamp written for a number not below the last timestamp's is needed: the allocation stands behind that earlier timestamp |
| Timestamps.SparingBarrier | src/MallocLogConsolidator.cpp:694-704 | A timestamp that is needed may repeat the time before it |
| Timestamps.RunSpare | src/MallocLogConsolidator.cpp:639-778 | The same over every run |
| OneOutput.RepeatForced | src/MallocLogConsolidator.cpp:694-704 | Where one output must repeat a time before its last operation, so must every other |
| OneOutput.SameLogs | src/MallocLogConsolidator.cpp:655-747 | Two outputs with the same operations and the same times without repetitions, each separating what it has to and repeating no time without need, are the same |
| Consolidator.Seek | src/MallocLogConsolidator.cpp:871-904 | The cursor gets to the one record with the given number, skipping timestamps |
| Consolidator.MarkFreedByOther | src/MallocLogConsolidator.cpp:851-925 | One forward sweep marks exactly the allocations with the given numbers and changes no other record; it needs an operation in the log |
| Consolidator.MarkedMore | src/MallocLogConsolidator.cpp:906-920 | Marking one more number changes one record |
| Consolidator.MarksRight | src/MallocLogConsolidator.cpp:451-455 | An allocation is marked iff some record that another thread logged releases it |
| Consolidator.OperationsSorted | src/MallocLogConsolidator.cpp:639-778 | The numbered operations are the stable sort of the logs, minus the frees of NULL |
| Consolidator.ConsolidatedRight | src/MallocLogConsolidator.cpp:591-928 | For all logs: the output shows the operations, its matches and marks are right, times are recoverable, no batch holds an allocation and another thread's release of it, and there is no timestamp more: it begins with one, its times without repetitions are those of the records each time they change, and one that repeats the time before it is directly followed by a release of another thread's block whose allocation no other timestamp separates from it |
| Consolidator.ConsolidatedOnly | src/MallocLogConsolidator.cpp:591-928 | For logs with nondecreasing times, no other output meets this description, so it is the whole specification of both passes, timestamps included |
| Consolidator.GenConsolidatedFile | src/MallocLogConsolidator.cpp:591-928 | Both passes together write that output, with the right total, iff the logs can be merged and hold an operation; where times do not decrease it is the only one that is as described (`Consolidator.ConsolidatedOnly`) |
| Pipeline.MarksAgree | src/MallocLogConsolidator.cpp:906-920 | The mark on an allocation says the same as the mark on its release, so both sides use the same table |
| Pipeline.ConsolidatedConsistent | src/MallocLogConsolidator.cpp:591-928 | Every consolidated log keeps what the replay relies on |
| ReplaySafety.InitialInvariant | src/MallocReplay.cpp:1575-1582 | The invariant holds before the first batch |
| ReplaySafety.TakeRecordKeeps | src/MallocReplay.cpp:1586-1616 | Queueing a record keeps the batch, its first number and its total right |
| ReplaySafety.BatchEndsKeeps | src/MallocReplay.cpp:1658-1682 | So does the end of the buffer, also when it cuts off a record whose thread has been marked already |
| ReplaySafety.CountKeeps | src/MallocReplay.cpp:1684-1699 | Handing out a batch, or going on without one when no thread has a job, keeps the barrier right |
| ReplaySafety.WakeKeeps | src/MallocReplay.cpp:1701-1718 | Opening the workers' locks one by one does, while workers run and finish already |
| ReplaySafety.StartKeeps | src/MallocReplay.cpp:530-543 | A worker starts at the first record of the batch it has been woken for |
| ReplaySafety.PassKeeps | src/MallocReplay.cpp:546-593 | Passing records of others, unmatched frees and timestamps keeps a worker's record and number in step |
| ReplaySafety.FindFinds | src/MallocReplay.cpp:407-417 | A look-up takes the block of the matched operation, in the table it searches, and leaves all else |
| ReplaySafety.FindKeeps | src/MallocReplay.cpp:316-343 | Look-ups keep the invariant in every interleaving |
| ReplaySafety.HoldsLive | src/MallocReplay.cpp:419-425 | What a worker is about to free is the allocated block of the matched operation |
| ReplaySafety.ExecuteKeeps | src/MallocReplay.cpp:364-512 | Allocator calls keep: tables hold exactly the blocks to be looked for in them, and the heap exactly the blocks of operations not yet released, each its own |
| ReplaySafety.FinishKeeps | src/MallocReplay.cpp:345-359 | The count of working threads is that of woken workers that have not finished, and the last one opens the controller's lock |
| ReplaySafety.NextKeeps | src/MallocReplay.cpp:514-597 | Every step of controller or worker keeps the whole invariant |
| ReplayTheorems.RunSafe | src/MallocReplay.cpp:514-597 | The invariant holds in every state of every run |
| ReplayTheorems.QueueChangesQuietly | src/MallocReplay.cpp:1582-1730 | The job queue changes only while every worker waits for its lock and all operations handed out so far have been executed |
| ReplayTheorems.LocksOpenOnce | src/MallocReplay.cpp:1702-1757 | No lock is opened twice before it is taken, and the controller's only by the last worker |
| ReplayTheorems.ExecutesOwnOnce | src/MallocReplay.cpp:546-593 | An operation is executed once, by the worker of its own thread |
| ReplayTheorems.LookUpFinds | src/MallocReplay.cpp:400-512 | In every reachable state a look-up of an own block succeeds at once, and that of another thread's as soon as the allocation has been executed, with the right block |
| ReplayTheorems.SmallestNotBlocked | src/MallocReplay.cpp:316-343 | The smallest operation not yet executed never spins |
| ReplayTheorems.RunCut | src/MallocReplay.cpp:1671-1682 | Unless timestamps are ignored, a batch holds one only as its last record |
| ReplayTheorems.BatchCloses | src/MallocReplay.cpp:1658-1682 | A batch is closed by the end of the buffer or of the log, and by a timestamp only where timestamps are not ignored |
| ReplayTheorems.RunClosed | src/MallocReplay.cpp:1658-1682 | Until the buffer ends for the first time, a closed batch ends with the log or, unless these are ignored, with a timestamp; ignoring them makes the whole log one batch |
| ReplayTheorems.TimestampsPreventSpins | src/MallocReplay.cpp:316-343 | Then no look-up spins at all |
| ReplayTheorems.FinalComplete | src/MallocReplay.cpp:1741-1757 | In the end every operation has been executed exactly once, and the heap holds exactly the blocks that no operation releases |
| ReplayLiveness.Progress | src/MallocReplay.cpp:514-597 | In every reachable state that is not final some thread can take a step that is not a spin |
| ReplayLiveness.StepNearer | src/MallocReplay.cpp:1523-1737 | Every step gets nearer to the end in a well-founded order |
| ReplayLiveness.ReplayEnds | src/MallocReplay.cpp:1523-1757 | Every run that goes on while it can gets to the final state, with everything executed once |
| Pipeline.PipelineEnds | src/MallocReplay.cpp:1523-1757 | Whatever the logs are, the replay of what the consolidator wrote ends so, in every interleaving, and no spin lasts forever |
| Pipeline.PipelineFinds | src/MallocReplay.cpp:400-512 | In every state of every replay of a consolidated log, with and without timestamps, a look-up of an own block finds the matched operation's block in the own table, and one of another thread's block does in the shared table as soon as that operation has been executed, which with timestamps is always so |
| Pipeline.PipelineHolds | src/MallocReplay.cpp:400-512 | In every state of every replay, what a worker is about to give back is the block that the matched operation got, still allocated and given back by nobody else |
| NodePool.Pool.GrowInternalBuffer | src/MallocReplay.cpp:2150-2160 | A new chunk gives one free node behind the chunk's header, apart from everything else |
| NodePool.Pool.GetBlockInternal | src/MallocReplay.cpp:2162-2186 | A region that was not in use, split off the first free node; free nodes stay large enough, and all regions lie in chunks and apart |
| NodePool.Pool.ReleaseBlockInternal | src/MallocReplay.cpp:2188-2196 | The region is free again, with its size, in front of all others |
| NodePool.Pool.UsedApart | src/MallocReplay.cpp:2162-2186 | Regions in use are disjoint from each other, from free nodes and from chunk headers, and lie inside a chunk |
| NodePool.LayoutTake | src/MallocReplay.cpp:2174-2181 | Taking and splitting keeps all regions apart and free ones large enough |
| NodePool.LayoutRelease | src/MallocReplay.cpp:2188-2196 | So does giving back |
| NodePool.LayoutGrow | src/MallocReplay.cpp:2150-2160 | So does a new chunk |
| NodePool.LinkedTake | src/MallocReplay.cpp:2060-2079 | The list through the free nodes is the list of regions without the taken one, with the rest of a split one in its place |
| ReplayHash.Table.HashInsertAllocatedBlock | src/MallocReplay.cpp:226-246 | The table as a map gets exactly this pair; a node comes from the pool iff the block is smaller than a node, and lies in the block otherwise |
| ReplayHash.Table.HashFindAllocatedBlock | src/MallocReplay.cpp:249-304 | The block of the key, which leaves the map, NULL when the key is absent; a node goes back to the pool iff it came from it |
| ReplayHash.Table.Search | src/MallocReplay.cpp:254-302 | The node with the key and the one before it, none iff no node of the whole table has the key |
| ReplayHash.BucketsPush | src/MallocReplay.cpp:244-245 | All chains stay right, with unique keys, after a push |
| ReplayHash.BucketsUnlink | src/MallocReplay.cpp:273-284 | All chains stay right after a node has been taken out anywhere |
| ReplayHash.HoldsUnlink | src/MallocReplay.cpp:273-284 | Taking out a node takes exactly its key out of the map |
| ReplayHash.PlacedPush | src/MallocReplay.cpp:234-242 | Nodes of small blocks are in the pool and the others in their own blocks, clear of the pool's chunks and of each other |
| ReplayHash.Table.NodesApart | src/MallocReplay.cpp:234-242 | No two nodes overlap in memory, be they in the pool or in blocks |
| ReplayTables.LookUpAllowed | src/MallocReplay.cpp:400-470 | Every look-up of the replay asks a hash table for a number that it has, with the size that was stored, gets the state machine's block, and changes only this entry |
| ReplayTables.StoreAllowed | src/MallocReplay.cpp:388-397 | Every store of the replay has a number that is new to the hash table and a block that is in no entry of it, and whose node overlaps no other node where the allocator's blocks do not overlap; it changes only this entry |
| Timing.Analysis.AnalyzeTiming | src/MallocReplay.cpp:908-1055 | Ends after all operations, or after the first endRecNo of them, at least one; then bytes, blocks and counts per thread are the sums over the outstanding blocks, each module has the sizes got by its operations less the sizes of the blocks that its operations released, the buckets count all allocations by size class, and each peak is the maximum over all prefixes, first reached where it says |
| Timing.Analysis.Count | src/MallocReplay.cpp:928-1027 | One operation keeps all counters equal to those sums and all buckets equal to the numbers of allocations; a count per thread may only have gone up for the thread reported |
| SizeClasses.BucketOf | src/MallocReplay.cpp:816-826 | The class whose boundaries enclose the size |
| SizeClasses.ClassUnique | src/MallocLogger.h:192-198 | Every size is in one class only |
| SizeClasses.TalliedMore | src/MallocReplay.cpp:948-949 | One more allocation, counted in its class, keeps all buckets right |
| Timing.Analysis.Release | src/MallocReplay.cpp:959-978 | The look-up always finds the block, so the analysis never stays at a record; its size goes off the module of the record that releases it, and off no other |
| Timing.Analysis.Top | src/MallocReplay.cpp:1034-1048 | Looking at one thread's count is enough to keep all peaks right |
| Timing.AfterStep | src/MallocReplay.cpp:933-1027 | What is outstanding after an operation is what was, minus what it releases, plus what it gets, by bytes, blocks or thread |
| Timing.SlotReleases | src/MallocReplay.cpp:966-970 | The count that goes down is that of the releasing thread if it made the block, and the shared one otherwise |
| Timing.SlotsMakeBlocks | src/MallocReplay.cpp:946-970 | The counts per thread sum up to the outstanding blocks |
| Timing.FirstStep | src/MallocReplay.cpp:1034-1044 | The number kept beside a peak is that of the record after which it was first reached |
| SysAlloc.TagPool.Split | src/SysAlloc.cpp:144-155 | The buffer becomes the list of all its tags, in order |
| SysAlloc.TagsApart | src/SysAlloc.cpp:144-155 | The tags do not overlap, and fill the buffer |
| SysAlloc.TagPool.GetFreeBlockTag | src/SysAlloc.cpp:133-173 | A tag that nobody else has; none iff the list is empty and there is no memory; links of tags in use are untouched |
| SysAlloc.TagPool.ReleaseFreeBlockTag | src/SysAlloc.cpp:124-130 | The tag is the first free one, and all other links are untouched |
| SysAlloc.PageCache.GetPages | src/SysAlloc.cpp:438-538 | A mapped block of the size asked for that was in no one's use. None of its bytes is dead except in one page, the first against underruns and the last against overruns, and every byte of that page is dead unless making it so has failed. It is the oldest in quarantine only when the maximum is reached and after at least max - 1 later frees, the last one of the stack when freed blocks are not checked, else a new one; disjointness, count and the protection of all pages are kept; a null pointer is read exactly when pages are checked and none may be kept |
| SysAlloc.PageCache.ReleasePages | src/SysAlloc.cpp:540-658 | Two-page blocks enter the quarantine in the order in which they are freed, and the oldest is unmapped iff there are more than the maximum; other sizes are unmapped at once; the block's user page is dead from then on unless making it dead has failed this time; disjointness, count and the protection of all pages are kept |
| SysAlloc.PageCache.DeadPages | src/SysAlloc.cpp:531-579 | Where making pages inaccessible has never failed, every byte of every quarantined block is dead |
| SysAlloc.PageCache.InUse | src/SysAlloc.cpp:511-537 | The bytes of a block in use are live but for one page, its first against underruns and its last against overruns, which is dead unless that has failed |
| SysAlloc.NullRead | src/SysAlloc.cpp:449-451 | A new cache that may keep no block, asked for two pages, reads through a null pointer |
| SysAlloc.FreedPageDies | src/SysAlloc.cpp:570-600 | From a new cache: every byte of the first block that is freed is dead, its guard page and its user page |
| SysAlloc.ThreePages | src/SysAlloc.cpp:512-535 | A block of three pages from a new cache, in both modes: the dead page is the first one against underruns and the last one against overruns, and the other two are live |
| SysAlloc.PageCache.Quarantine | src/SysAlloc.cpp:570-625 | The order of freeing is the order of leaving, the new block's user page dies unless that fails, and without memory for a tag the block is unmapped instead |
| SysAlloc.PageCache.Oldest | src/SysAlloc.cpp:604-622 | The block that leaves is the one freed longest ago, and exactly the maximum stays |
| SysAlloc.PageCache.Reuse | src/SysAlloc.cpp:449-477 | A block that is used again leaves the quarantine with its user page live |
| SysAlloc.PageCache.Dequeue | src/SysAlloc.cpp:463-475 | The first tag leaves the queue, whose last tag is forgotten iff it was the only one |
| SysAlloc.PageCache.Enqueue | src/SysAlloc.cpp:583-600 | The block is the last of the queue, unless there is no tag |
| SysAlloc.CacheKeeps | src/SysAlloc.cpp:570-636 | A block that is cached keeps all blocks apart; its user page is dead, or it is recorded as one for which that has failed |
| SysAlloc.UncachedProtected | src/SysAlloc.cpp:449-461 | Making one user page live leaves the pages of all other quarantined blocks dead |
| SysAlloc.UnmapFirst | src/SysAlloc.cpp:604-656 | Unmapping the oldest block leaves the rest of the quarantine as it was |
| SysAlloc.MapKeeps | src/SysAlloc.cpp:512-535 | A new block, with its guard page dead or not, leaves the user pages of all others as they were |
| SysAlloc.GuardedMap | src/SysAlloc.cpp:512-535 | A new block's guard page is dead or recorded as failed, and the guard pages of all others stay dead |
| SysAlloc.GuardedUser | src/SysAlloc.cpp:456-579 | Making a user page live or dead touches no guard page |
| SysAlloc.GuardedUnmap | src/SysAlloc.cpp:656 | Unmapping a block leaves the guard pages of all others dead |
| SysAlloc.GuardOnly | src/SysAlloc.cpp:512-535 | With every dead page being a guard page or a quarantined block's, a block in use has no dead byte outside of its guard page |
| MallocPadding.PaddedHeap.LinkHeader | src/MallocPadding.cpp:86-95 | The block is the first in use, in a doubly linked list |
| MallocPadding.PaddedHeap.UnlinkHeader | src/MallocPadding.cpp:97-111 | Exactly that block is out, wherever it was, and the rest keeps its order |
| MallocPadding.PaddedHeap.LinkBlock | src/MallocPadding.cpp:209-239 | A new block is tracked with its size and call stack, signed as in use; what waits, and what has been deferred so far, stays |
| MallocPadding.ChainWithout | src/MallocPadding.cpp:97-111 | Both directions of links agree with the list without the block |
| MallocPadding.RingAppend | src/MallocPadding.cpp:122-125 | Linking before the head of the circle puts the block last |
| MallocPadding.RingPop | src/MallocPadding.cpp:132-139 | Unlinking the head of the circle leaves the rest in order |
| MallocPadding.PaddedHeap.LinkDeferredBlock | src/MallocPadding.cpp:115-152 | Freed blocks and the circle together are the old circle and the new block, in order; the circle is not empty; how many blocks are freed follows from the sizes of all blocks ever deferred, with the total as a word that wraps |
| MallocPadding.PaddedHeap.FreeBlockWithPadding | src/MallocPadding.cpp:269-328 | A second free is recognised iff the block is deferred, for a foreign block nothing that is tracked changes, and a block in use leaves the list and is freed or deferred but never freed by its own deferral; the history grows by exactly its size iff it is deferred |
| MallocPadding.LastStays | src/MallocPadding.cpp:130-145 | The block that has just been deferred is not among the freed ones |
| MallocPadding.PaddedHeap.TotalMissesFirst | src/MallocPadding.cpp:147-150 | The total is the sum of the waiting sizes, modulo the word size, iff the very first block that has been deferred had no bytes |
| MallocPadding.FirstDeferral | src/MallocPadding.cpp:147-150 | From a new heap: a block of 100 bytes waits and the total is 0 |
| MallocPadding.DeferAll | src/MallocPadding.cpp:115-152 | From a new heap, after any sequence of blocks has been allocated and freed, as many blocks wait as the sizes alone determine |
| MallocPadding.FreedEarly | src/MallocPadding.cpp:127-131 | With a limit of 100, after blocks of 1000, 50, 60, 10 and 10 bytes only the last one waits |
| Deferral.Next | src/MallocPadding.cpp:130-145 | Blocks are freed for as long as the total is above the limit, and no longer; the last one stays |
| Deferral.FreedWhen | src/MallocPadding.cpp:130-145 | A deferral frees a waiting block iff the total stays above the limit while that block and all that waited longer are being freed |
| Deferral.TotalMissesFirst | src/MallocPadding.cpp:147-150 | For any history: the word is the sum iff the very first size is zero modulo the word size |
| Deferral.AboveTheLimit | src/MallocPadding.cpp:127-130 | Within the limit, the total is above it iff fewer bytes wait than the very first block had, by less than the word has room above the limit |
| Deferral.WithinTheLimit | src/MallocPadding.cpp:127-130 | Above the limit, the total is within it iff it is so by no more bytes than the very first block had |
| Deferral.FreedThoughWithin | src/MallocPadding.cpp:130-145 | The block that has waited longest is freed although the bytes are within the limit iff they are fewer than those of the very first block |
| Deferral.AllFreedEarly | src/MallocPadding.cpp:130-145 | When the waiting bytes, the new block's among them, are fewer than the very first block had, a deferral frees all blocks but the new one |
| Deferral.FiveBlocks | src/MallocPadding.cpp:127-131 | The history of 1000, 50, 60, 10 and 10 bytes with a limit of 100, step by step |
| MallocPadding.PaddedHeap.DumpInUseBlocks | src/MallocPadding.cpp:478-527 | The groups partition the blocks in use by equal call stacks, each with its count and bytes, and the totals are those of the whole list |
| MallocPadding.FindGroup | src/MallocPadding.cpp:486-506 | The group with the same call stack, none iff there is none |
| MallocPadding.GroupedMore | src/MallocPadding.cpp:499-516 | One more block, counted in its group or beginning one, keeps the partition right |
| MallocDeadPage.ComputeLayout | src/MallocDeadPage.cpp:440-532 | The sizes that are adjusted step by step are those of the layout, of which `MallocDeadPage.OverrunLayout` and `MallocDeadPage.UnderrunLayout` say what it has to keep |
| MallocDeadPage.UnderrunLayout | src/MallocDeadPage.cpp:517-532 | The guard page comes first, the user's bytes fit behind it, the raw size is found again for every size, the header is in the block iff it fits in its page, and the user's address is inside iff the size is not 0 |
| MallocDeadPage.OverrunLayout | src/MallocDeadPage.cpp:447-516 | Header, user's bytes and guard page do not overlap; without an added page the guard page begins less than an alignment step behind the last byte asked for; with one the user's bytes begin a step before the block's second page, and the block is larger than those bytes by two pages and less than a header and a step; the user's address is aligned and its page begins with the block; the raw size is found again iff no page was added |
| MallocDeadPage.DeadPages.HeaderClear | src/MallocDeadPage.cpp:484-532 | A header inside of a block overlaps neither the user's bytes nor the guard page |
| MallocDeadPage.RawSizeLost | src/MallocDeadPage.cpp:471-482 | With pages of 4096 and alignment 8, a block of 4090 bytes has three pages of which two are found again |
| MallocDeadPage.EmptyBlock | src/MallocDeadPage.cpp:428-521 | With pages of 4096 bytes, a block of no bytes has a guard page only, and its user's address behind it |
| MallocDeadPage.RoundUpTwice | src/MallocDeadPage.cpp:447-465 | Aligning the size first does not change the number of pages |
| MallocDeadPage.DeadPages.MallocBlock | src/MallocDeadPage.cpp:426-549 | A size out of range gets the block of the allocator underneath and leaves no trace; otherwise a new block at the address of its layout, directly behind the guard page against underruns, or in front of it against overruns, by less than an alignment step unless a page was added; it is known with its raw address and size by a header inside or in the list, without touching any other |
| MallocDeadPage.DeadPages.VerifyBlock | src/MallocDeadPage.cpp:151-306 | A block is recognised iff it is one of ours and in use, with its raw address, size and guard page, and only it is given up, its header losing its signature; a double free is reported exactly for a header at the page's beginning that has lost its signature |
| MallocDeadPage.VerifyTwice | src/MallocDeadPage.cpp:250-267 | Freeing a block twice: against overruns the second free is reported, against underruns it is taken for a block of somebody else's |
| MallocDeadPage.DeadPages.FindOther | src/MallocDeadPage.cpp:217-236 | A header of the list with both addresses, none iff there is none |
| MallocDeadPage.DeadPages.Recognised | src/MallocDeadPage.cpp:205-214 | A header with an intact signature and the right addresses is the block's own |
| MallocDeadPage.DeadPages.RecoveredRight | src/MallocDeadPage.cpp:257-268 | The raw size, and with it the guard page, is recovered as laid out iff no page was added, which never happens against underruns |
| MallocDeadPage.DeadPages.NoneOutside | src/MallocDeadPage.cpp:274-303 | Against overruns, the list never holds the block that is searched there |
| GuardedBlock.MallocGuarded | src/MallocDeadPage.cpp:426-549 | Pages and layout together: no byte asked for is dead; where making the guard page dead has not failed, the whole page before the user's address is dead against underruns, and against overruns a whole page behind the user's bytes, less than an alignment step away unless a page was added; all invariants are kept; it crashes exactly when the cache reads through a null pointer |
| GuardedBlock.LayOut | src/MallocDeadPage.cpp:426-549 | A block laid out in pages of its own is recognised later, has its user's bytes in front of or behind its guard page, and leaves every other block its pages |
| GuardedBlock.Fetch | src/SysAlloc.cpp:438-538 | Fetched pages are in no other block's use, and every other block keeps its own |
| GuardedBlock.WholePages | src/MallocDeadPage.cpp:447-532 | Every size that is asked for is a positive whole number of pages, so the sizes taken for two pages are two pages exactly |
| SparcPlt.SetFunctionPtr | src/sparcv9_plt.cpp:47-125 | The entry begins with the right sequence for the distance and the address, which goes to the function when it is executed (`SparcCpu.EntryGoes`), and the rest of it is untouched |
| SparcPlt.NearBranch22 | src/sparcv9_plt.cpp:207-208 | Shifting out the field of a branch gives back every displacement of 23 bits, negative ones too, in whole words |
| SparcPlt.NearBranch19 | src/sparcv9_plt.cpp:222-223 | The same for 20 bits, although the mask is that of the other branch |
| SparcPlt.NegativeOpcode | src/sparcv9_plt.cpp:225 | The comparisons for the two far forms fail for every word |
| SparcPlt.WrittenIsRead | src/sparcv9_plt.cpp:178-293 | What is read from an entry just written: the target of a near branch in whole words, the function itself in the top 32 bits, 0 otherwise |
| SparcPlt.RoundTrip | src/sparcv9_plt.cpp:47-293 | The function is read back iff it is near and a whole number of words away, or far and in the top 32 bits (or NULL) |
| SparcPlt.FarIsLost | src/sparcv9_plt.cpp:225-293 | A function far away and below the top 32 bits is read back as 0 |
| SparcPlt.InterceptFunction | src/sparcv9_plt.cpp:295-303 | Reports the function of the entry as it was, which is where it went (`SparcCpu.ReadGoes`), and writes the new one |
| SparcPlt.InterceptTwice | src/sparcv9_plt.cpp:295-303 | A second interception reports the function that the first one set |
| SparcPlt.LandsOnce | src/sparcv9_plt.cpp:57 | One displacement only leads from an entry to a function |
| SparcPlt.FixCallLabel | src/sparcv9_plt.cpp:130-156 | Patches and reports the old callee iff the call is bound and the displacement of the new one is below 2^32; nothing changes otherwise |
| SparcPlt.CallRoundTrip | src/sparcv9_plt.cpp:160-176 | For every displacement below 2^32, the callee is read back from a patched call iff it is a whole nonzero number of words away |
| SparcCpu.EntryGoes | src/sparcv9_plt.cpp:47-125 | Executing a patched entry, with any registers and any old words, goes to the function itself in the three forms that jump, and to the whole number of words of its distance in the two that branch |
| SparcCpu.EntryGoesThere | src/sparcv9_plt.cpp:47-125 | It goes to the function iff that is far away or a whole number of words away |
| SparcCpu.BranchGoes | src/sparcv9_plt.cpp:62-91 | Both branches, short and long, forwards and backwards |
| SparcCpu.Top32Goes | src/sparcv9_plt.cpp:93-102 | The form for the top 32 bits puts the function together in one register and jumps there |
| SparcCpu.Top44Goes | src/sparcv9_plt.cpp:103-114 | So does that for the top 44 bits, the lowest 12 of which come with the jump |
| SparcCpu.FarGoes | src/sparcv9_plt.cpp:116-125 | So does that for all 64 bits, in two registers |
| SparcCpu.ReadGoes | src/sparcv9_plt.cpp:178-293 | What is read off any entry, the linker's own ones included, is where executing it goes if it branches or jumps to the top 32 bits, and nothing if it does not branch and has no jump of that kind as its fourth word |
| SparcCpu.SameDistance | src/sparcv9_plt.cpp:207-223 | Shifting the field of a branch up and down again takes it as the signed distance that the processor sees, whatever the word is and although one mask is that of the other branch |
| SparcCpu.CallGoesAhead | src/sparcv9_plt.cpp:130-156 | A patched call to a function a whole number of words and less than 2 GB ahead gets to the word before it |
| SparcCpu.CallGoesBack | src/sparcv9_plt.cpp:130-156 | A patched call to a function farther ahead goes backwards, its displacement being signed |
| SparcCpu.CallGoesElsewhere | src/sparcv9_plt.cpp:130-156 | Whatever the displacement below 2^32, a patched call does not get to the function it has been patched for |

## Left out

- Files, memory mapping, printing, configuration, back traces, viewers, performance counters, heap images and the patching of ELF, PE and XCOFF files: input and output, or foreign formats.
- `src/CustomMalloc.cpp`: forwarding functions; an allocator call in the replay gives any block that is not allocated.
- The refilling of the replay's buffer and the disk thread (`src/MallocReplay.cpp:1525-1573`): a buffer may end before any record, any bounded number of times, with or without having marked the thread of the record that it cuts off.
- The statistics of the dispatch loop (`src/MallocReplay.cpp:1624-1651`), the baseline mode without operations, and the option to stop the replay at a given record.
- Records of unknown type, truncated log files and more than 2^32 - 2 records (`src/MallocLogConsolidator.cpp:739-754`, `763-770`): logs are sequences of whole records, and numbers are unbounded.
- The set of unknown freed blocks and the counts printed between the two passes (`src/MallocLogConsolidator.cpp:478`, `785-841`): they influence nothing.
- 32-bit and 64-bit widths of times, numbers, sizes and counters are modelled only where they matter: the deferred total and everything in `SparcPlt`.
- ReplaySafety.ExecuteKeeps: allocator calls succeed, and an operation is two atomic steps, its look-up and its allocator call with the storing of the result; a failing allocator ends the program.
- ReplayLiveness.ReplayEnds: a turn of the spin that finds nothing is no step, so a thread that spins has to give way to the others now and then, as `YIELD` has it.
- ReplayHash.Table.HashFindAllocatedBlock: one table has the pool for itself; the tables of the state machine are maps, and `ReplayTables` relates the two step by step rather than replacing the maps. The spin lock around the pool is not modelled. Sizes at insertion and look-up agree, as the matches of a consolidated log do.
- Timing.Analysis.AnalyzeTiming: the hash table of the analysis is a map.
- RbTree.RbTree.Erase: the node's own fields are of no interest afterwards, and copying, clearing and the iterators of the tree are not modelled.
- NodePool.Pool.GetBlockInternal: every request has the same size, as in both hash tables; the chunk comes from the system, apart from all others.
- SysAlloc.PageCache.GetPages: the stamping of back traces on the guard page is left out. Pages that could not be made inaccessible are kept apart in two ghost sets, which every operation's contract determines. Locks make both operations atomic, and the read of the count without a lock (`src/SysAlloc.cpp:627`) is taken as part of the operation.
- The map of 64 KB chunks on Windows (`src/SysAlloc.cpp:239-363`), and platforms other than Unix.
- MallocDeadPage.DeadPages.MallocBlock: the store of spare headers is left out; a spare header is a parameter, and so is the block that the allocator underneath would give. The system gives memory apart from all blocks in use.
- MallocDeadPage.DeadPages.VerifyBlock: user data that forge a header's signature, and what lies in pages of others, are not modelled: a header is where one has been written.
- Reallocation and zeroed allocation of guarded and padded blocks, which are made of the operations above and of copying.
- MallocPadding.PaddedHeap.FreeBlockWithPadding: the bytes before and behind the user's part, their check and their flooding are left out. `UnlinkDeferredBlock` is called from nowhere.
- Nodes and headers that lie in raw memory (`NodePool`, `ReplayHash`, `SysAlloc`, `MallocPadding`, `MallocDeadPage`) are cells of maps over addresses, which the methods reassign; the bytes between the fields are not modelled.
- SparcPlt.SetFunctionPtr: the order in which the words become visible to other threads, and entries of the far table.
- SparcCpu.EntryGoes: the instruction behind a jump, which the processor executes before it gets there, is an old word of the entry, and what it does is not described.
- GuardedBlock.MallocGuarded: how a block is given back is told of the layout and of the cache, one by one; where a page was added, the raw size that the first passes to the second is wrong (`MallocDeadPage.OverrunLayout`).
