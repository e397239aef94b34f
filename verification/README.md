# Verified models of a lock-free map, two allocators and parts of RocksDB

Seven components, each modelled in the form its source has, with proofs about all inputs, all
runs or all interleavings. Nothing was executed; everything stated here is stated by a contract
or a lemma.

**The lock-free hash map** (`HarrisList`, `HarrisThread`, `LockFreeMap`, `SearchPasses`,
`RemovedNodes`, `Linearizability`, `SequentialHistory`, `LockFreedom`, `Progress`). Any
number of threads run insert, remove and find on an array of sorted lists, one atomic load or CAS
at a time. A step that would follow a null or dangling pointer may do anything; the proofs show
that there is none. The main result is that every run is linearizable: the answer of each call was
right at an instant inside the call, the set changes at such instants only, and in the order of
these instants the calls of the run are one legal sequential history of a set. A node that was
removed is off the list when its remover returns. A thread has to start over only if another one
made progress on the same list, and the number of its own steps a call can need is bounded by the
number of inserts invoked on its list.

**Compaction** (`Records`, `LevelFiles`, `CompactionSpec`, `CompactionIterator`,
`ReadPreservation`, `RecordFates`, `CompactionSegments`, `OutputOrder`, `SplitCompaction`,
`SplitVisibility`, `CompactionJob`, `CompactionPicker`). The
compaction iterator drops and rewrites versions of keys. The iterator object is proved to emit what
a specification by turns lists. This is proved to keep every read at every live snapshot, and to be
what a rule without turns and cursors says of each record: which ones survive, and how they look. Of
SingleDelete only what the interface demands is assumed: a key it is used for is not deleted with
Delete, and has at most one Put between two SingleDeletes.
The deeper levels are asked through cursors that only move forward; a job splits the keys into
ranges; the input files are closed under overlap in one pass.

**The buddy allocator** (`Bitmap`, `BuddyTree`, `BuddyIndex`, `BuddySpec`, `BuddySearch`,
`BuddyRealloc`, `BuddyUsage`, `BuddyArena`, `BuddyBlocks`). The bitmap of an arena stands for a set
of marked nodes of a binary tree, and this for a set of live blocks. The depth of the tree is a
parameter. Memory is one array of bytes, an address an index into it. Requests to the operating
system are parameters: whether a page is granted, and which.

**The super version cache** (`SuperVersions`, `SuperVersionSafety`, `SuperVersionRuns`,
`SuperVersionCalls`). Reader threads cache a reference to the current version in a slot of their own
and hand it out with a swap and a compare-and-swap; an installer replaces the version and scrapes
the slots one by one. Each atomic access is a step of a machine. Beside what every step keeps it is
proved what each call has achieved when it is over.

**The clock cache shard** (`ClockCache`, `ClockSafety`, `ClockSteps`, `ClockGuard`, `ClockRuns`,
`ClockCalls`, `ClockWork`, `ClockProgress`, `ClockEviction`). References are taken and dropped without
the mutex and race with eviction, insertion and erasure on the flags of each handle; handles are
reused for other entries. Beside what every step keeps it is proved what each call has achieved
when it is over, and that nobody keeps the mutex for long.

**The LRU cache shard** (`LruTable`, `LruList`, `LruHandles`, `LruShard`). A chained hash table that
stands for a finite map, a doubly linked list with two pools, and reference counts; all operations
run under one mutex.

**The slot allocator** (`SlotSpans`, `SlotArena`, `SlotList`, `SlotMoves`). Spans of slots tile an
arena, free spans are merged when a search comes by, and the search starts at a cursor. A span that
is moved to another arena can leave the cursor of its own inside a free span; what follows from this
is stated too.

Where the code and its comments disagree, the model follows the code:

- A buddy node both of whose children are marked counts as split, whatever the comment on
  `is_split` says (task5-memory/src/buddy_allocator.c:74-77).
- A buddy reallocation that fails for lack of room has released the block
  (task5-memory/src/buddy_allocator.c:219-242); `BuddyRealloc.FailureKeepsBlockIff` says when the
  block survives.
- Clock eviction reports failure after the last visit of the second lap without looking whether the
  entry fits now (task7-performance/rocksdb/cache/clock_cache.cc:543-550);
  `ClockEviction.Shard.EvictFromCache` states when success is reported.
- A version put back into its slot need not be current, although the comment says so
  (task7-performance/rocksdb/db/column_family.cc:1026-1031): `SuperVersionRuns.OldVersionPutBack` is a
  run in which it is not, and `SuperVersionRuns.SlotsAreCurrent` states exactly when it is.
- An LRU entry inserted without a handle for the caller starts in the second documented state, not
  in the first (task7-performance/rocksdb/cache/lru_cache.h:35).
- A reallocation that keeps a slot span in place moves the cursor to its end, lest it point into a
  span (task5-memory/src/slot_allocator.c:194-196); one that moves the span has merged free spans by
  then but leaves the cursor alone (task5-memory/src/slot_allocator.c:203-214). `SlotMoves.Reallocate`
  states exactly when the cursor is inside a span afterwards, `SlotMoves.FourSlots` is a run that hands
  out a slot twice, and `SlotMoves.SlotsAreLost` states when nothing worse happens than lost slots.
- The test for a negative index in `getIndex` never applies, since the remainder is taken of
  unsigned numbers (task4-concurrency/src/lockfreehashmap.cpp:206-212).

## Model

| member | source | states |
|---|---|---|
| Linearizability.CallsAreLinearizable | task4-concurrency/src/lockfreehashmap.cpp:71-157 | main result: in every interleaving of any number of threads, when a call returns there was an instant between its start and its return at which its answer was right for the set of the map; a successful insert or remove changed the set at that instant and exactly once, any other call not at all |
| SequentialHistory.RunIsSequential | task4-concurrency/src/lockfreehashmap.cpp:71-157 | main result: the calls of every run have one total order that is a legal history of a set starting empty and ending as the set of the map; every call that returned is in it exactly once, with its answer and at an instant inside the call, and nothing is in it that was not invoked |
| SequentialHistory.RealTimeOrder | task4-concurrency/src/lockfreehashmap.cpp:71-157 | main result: in this order a call that returned before another one was invoked precedes it |
| SearchPasses.SearchFoundAdjacentNodes | task4-concurrency/src/lockfreehashmap.cpp:71-112 | main result: whenever `search` returns a pair, in any operation and also in the second search of a remove, there was an instant of its last pass over the list, so inside the `search` call, at which the left node was linked, unmarked and pointed straight to the right one, the right one was unmarked, and left key < key <= right key |
| SearchPasses.ReturnsWhenLeaving | task4-concurrency/src/lockfreehashmap.cpp:91-110 | a step leaves `search` exactly if it returns a pair, and what the caller does next is decided by this pair |
| RemovedNodes.RemovedIsOffForGood | task4-concurrency/src/lockfreehashmap.cpp:132-151 | main result: a remove that answers yes marked a node with the key at an instant of the call, and from its return on this node cannot be reached from the head any more, in any later state of the run: either the remover unlinked it, or the search it makes when this fails returned only after somebody had |
| LockFreedom.RetryWasDisturbed | task4-concurrency/src/lockfreehashmap.cpp:71-151 | main result: `search` starts over, and insert or remove search again, only if another thread completed a link, mark, bypass or unlink CAS on the same list since the pass began |
| LockFreedom.RetriesAreBounded | task4-concurrency/src/lockfreehashmap.cpp:71-151 | in every run, a call goes back to the head of the list at most as often as other threads changed this list while it was under way |
| Progress.CallIsBounded | task4-concurrency/src/lockfreehashmap.cpp:71-157 | main result: in every run and at every instant, the current call of a thread has made at most (1 + 3n)(n + 6) steps of its own, where n is two more than the number of inserts invoked on its list so far |
| Progress.PassIsBounded | task4-concurrency/src/lockfreehashmap.cpp:71-112 | since a pass began at the head of the list its thread has made at most as many steps as the list has nodes, and at most six more: no node is visited twice, whatever the other threads do meanwhile |
| Progress.ChangesAreBounded | task4-concurrency/src/lockfreehashmap.cpp:101-151 | in every run a list is changed by successful CAS at most three times for each of its nodes |
| Progress.NodesAreInserts | task4-concurrency/src/lockfreehashmap.cpp:115-130 | a list has its two sentinels and one node for each insert invoked on it, successful or not |
| LockFreeMap.StepKeepsInv | task4-concurrency/src/lockfreehashmap.cpp:71-157 | every atomic step of any thread keeps the state invariant: per bucket a chain from head to tail with strictly increasing keys, links of unlinked nodes leading back to it, and for each thread what its control point relies on |
| LockFreeMap.SetChangesOnlyAtCas | task4-concurrency/src/lockfreehashmap.cpp:115-151 | the set changes only at a successful link CAS, which adds an absent key, or a successful mark CAS, which removes a present one |
| LockFreeMap.TraceStateInv | task4-concurrency/src/lockfreehashmap.cpp:71-157 | the state invariant holds in every state of every run |
| LockFreeMap.EveryStepIsSafe | task4-concurrency/src/lockfreehashmap.cpp:71-157 | no step of any run follows a null or dangling pointer, where a step that did could do anything |
| LockFreeMap.MarkedNodesAreFrozen | task4-concurrency/src/lockfreehashmap.cpp:132-151 | over any stretch of a run keys never change, marked nodes stay marked, and the `next` of a marked node never changes again |
| LockFreeMap.InMapSet | task4-concurrency/src/lockfreehashmap.cpp:206-230 | a key is in the set of the map exactly if it is in the list of the bucket that `getIndex` names |
| HarrisList.ReachableIffOnChain | task4-concurrency/src/lockfreehashmap.cpp:48-58 | the nodes reachable from head are exactly the nodes on the chain |
| HarrisList.ChainUnique | task4-concurrency/src/lockfreehashmap.cpp:48-58 | a heap has at most one chain |
| HarrisList.AdjacentDecides | task4-concurrency/src/lockfreehashmap.cpp:121-136 | of two neighbours that bracket a key, the right one decides whether the key is in the set |
| HarrisList.LinkFresh | task4-concurrency/src/lockfreehashmap.cpp:124-126 | linking a private node between neighbours that bracket its key keeps the list invariant and adds exactly this key |
| HarrisList.BypassMarked | task4-concurrency/src/lockfreehashmap.cpp:101-110 | swinging a link past marked nodes keeps the list invariant and the set |
| HarrisList.MarkNode | task4-concurrency/src/lockfreehashmap.cpp:140-141 | marking a node keeps the list invariant and removes exactly its key |
| HarrisThread.AdvanceKeeps | task4-concurrency/src/lockfreehashmap.cpp:71-157 | a step of a thread is safe, keeps the list and the facts its own control point relies on, and moves the set only as its CAS says |
| HarrisThread.LocalInvStable | task4-concurrency/src/lockfreehashmap.cpp:71-157 | a step of another thread does not disturb what a thread relies on |
| ReadPreservation.CompactionPreservesReads | task7-performance/rocksdb/db/compaction_iterator.cc:335-526 | main result: for every sorted input, every user key and every live snapshot and the tip, reading the output and then the deeper levels gives what reading the input and then the deeper levels gave; Put, Delete and SingleDelete, where a key with a SingleDelete has no Delete and at most one Put between two SingleDeletes; Puts newer than the last SingleDelete may overwrite each other, and SingleDeletes may repeat |
| RecordFates.CompactedIsRule | task7-performance/rocksdb/db/compaction_iterator.cc:335-619 | main result: for every sorted input the output is exactly the records a rule over positions lets through, in their order: a Put or Delete unless the record before it is a version of the same key with the same earliest snapshot or it is an obsolete Delete; a SingleDelete without an older version unless it is obsolete; a SingleDelete and the Put behind it in the same stripe both, the Put with its value cleared, if the SingleDelete is newer than the write-conflict boundary and no version of the key was emitted before, except as the very first record of all, and otherwise neither; of two SingleDeletes in the same stripe not the newer one; obsolete means that a compaction runs, no snapshot is older, and no file of a deeper level covers the key, written out over the files, or for universal compaction that the level is the bottommost |
| RecordFates.LoneTombstone | task7-performance/rocksdb/db/compaction_iterator.cc:467-526 | a Delete that is the newest of its stripe, or a SingleDelete without an older version, is emitted if and only if it is not obsolete, at whatever level |
| RecordFates.NoObsoleteTombstone | task7-performance/rocksdb/db/compaction_iterator.cc:467-526 | every record of the output stems from a record of the input that is no obsolete tombstone |
| ReadPreservation.OverwrittenPutReturns | task7-performance/rocksdb/include/rocksdb/db.h:257-270 | this discipline is needed: a concrete input with two Puts before a SingleDelete, for which reading the output gives the older value although reading the input gave none |
| ReadPreservation.EveryTurnOk | task7-performance/rocksdb/db/compaction_iterator.cc:335-526 | one turn of the loop on any record, of whichever branch, keeps every read that is still owed |
| ReadPreservation.PairedSingleDeleteOk | task7-performance/rocksdb/db/compaction_iterator.cc:362-466 | a SingleDelete before a Put: dropping the pair, emitting it with the value cleared, and emitting the SingleDelete alone are invisible to every live reader |
| ReadPreservation.LoneSingleDeleteOk | task7-performance/rocksdb/db/compaction_iterator.cc:467-488 | a SingleDelete without an older version in the input: dropping it or emitting it is invisible |
| ReadPreservation.PlainTurn | task7-performance/rocksdb/db/compaction_iterator.cc:493-526 | dropping a hidden record, dropping an obsolete tombstone and emitting a record are invisible |
| OutputOrder.CompactedIsSorted | task7-performance/rocksdb/db/compaction_iterator.cc:493-526 | the output is strictly ordered by key and falling sequence number, also after sequence numbers are set to zero |
| OutputOrder.OutputStems | task7-performance/rocksdb/db/compaction_iterator.cc:493-619 | every record of the output is a record of the input, up to a sequence number set to zero and a value cleared |
| OutputOrder.ZeroedIsPut | task7-performance/rocksdb/db/compaction_iterator.cc:600-619 | a record whose sequence number is set to zero is never a tombstone, as the assertion in the source says |
| OutputOrder.ClearedIsPut | task7-performance/rocksdb/db/compaction_iterator.cc:352-361 | the record emitted with its value cleared is a Put, as the assertion in the source says |
| OutputOrder.TombstoneDropped | task7-performance/rocksdb/db/compaction_iterator.cc:493-526 | at the bottommost level a tombstone not newer than any snapshot is never emitted |
| CompactionIterator.Iterator.SeekToFirst | task7-performance/rocksdb/db/compaction_iterator.cc:126-130 | after the call the iterator will emit exactly the output of the specification |
| CompactionIterator.Iterator.Next | task7-performance/rocksdb/db/compaction_iterator.cc:132-177 | moves on by exactly one record of the specification |
| CompactionIterator.Iterator.NextFromInput | task7-performance/rocksdb/db/compaction_iterator.cc:179-598 | the loop over the input stops at the next record to emit, and nothing in between is lost or repeated; what is emitted is what `RecordFates.CompactedIsRule` says |
| CompactionIterator.Iterator.SingleDeleteStep | task7-performance/rocksdb/db/compaction_iterator.cc:362-492 | the branch for a SingleDelete, with its peek at the next record, does the turn of the specification |
| CompactionIterator.Iterator.PrepareOutput | task7-performance/rocksdb/db/compaction_iterator.cc:600-619 | sets the sequence number to zero exactly where that is allowed |
| Records.FindEarliestVisibleSnapshot | task7-performance/rocksdb/db/compaction_iterator.cc:621-638 | the loop returns the earliest snapshot that sees a sequence number and the snapshot before it |
| Records.VisibleIffFromStripe | task7-performance/rocksdb/db/compaction_iterator.cc:621-638 | a live reader sees a record exactly if it sees the earliest snapshot of the record |
| Records.SameStripe | task7-performance/rocksdb/db/compaction_iterator.cc:405-408 | the test of the SingleDelete branch decides whether two versions have the same earliest snapshot |
| Records.StripeMonotone | task7-performance/rocksdb/db/compaction_iterator.cc:335-348 | newer versions have later earliest snapshots, and only versions not newer than the first snapshot have the first one |
| Records.GetIsNewest | task7-performance/rocksdb/db/compaction_iterator.cc:493-497 | the reference for a read: in a sorted run the first visible version of a key is its newest visible one |
| LevelFiles.KeyNotExistsBeyondOutputLevel | task7-performance/rocksdb/db/compaction.cc:308-341 | the answer of the moving cursors is that of a search without memory: no file of a deeper level covers the key |
| LevelFiles.AnswerQueries | task7-performance/rocksdb/db/compaction.cc:308-341 | for every nondecreasing sequence of keys all answers are right, with cursors that only move forward |
| LevelFiles.SkipFiles | task7-performance/rocksdb/db/compaction.cc:318-337 | the inner loop over one level finds a covering file exactly if there is one |
| SplitCompaction.SplitIsInvisible | task7-performance/rocksdb/db/compaction_job.cc:695-829 | for Put and Delete inputs, the outputs of the ranges one after the other are the output of one run over the whole input |
| SplitCompaction.SplitPreservesReads | task7-performance/rocksdb/db/compaction_job.cc:695-829 | with SingleDelete too, reading the joined outputs gives what reading the input gave |
| SplitCompaction.SplitVisibleWithSingleDelete | task7-performance/rocksdb/db/compaction_job.cc:695-829 | with SingleDelete the joined outputs need not be the output of one run: a concrete input on which they differ |
| SplitVisibility.SplitInvisibleIff | task7-performance/rocksdb/db/compaction_iterator.cc:126-177 | main result: the joined outputs equal the output of one run if and only if there is no range for which one run has emitted something before the range starts and behind the first record the range emits, among older versions of its key, comes a SingleDelete newer than the write-conflict boundary with a Put in the same stripe, up to which every record is passed over; each such range emits exactly two records more |
| SplitVisibility.FirstDiffers | task7-performance/rocksdb/db/compaction_iterator.cc:420-460 | whether anything was emitted before a key makes a difference, of two records, exactly in this situation, for every stretch of the input |
| SplitVisibility.MeetsIff | task7-performance/rocksdb/db/compaction_iterator.cc:362-526 | the turns behind a record stay silent until they meet such a pair if and only if every record up to it is a Put hidden by the Put before it or a SingleDelete with another one of the same stripe behind it |
| SplitVisibility.SplitIsSorted | task7-performance/rocksdb/db/compaction_job.cc:695-829 | with SingleDelete too, the joined outputs are strictly ordered and every record stems from a record of the input |
| SplitCompaction.PlainCompaction | task7-performance/rocksdb/db/compaction_iterator.cc:493-526 | for Put and Delete inputs the loop with its memory emits exactly the records a filter without memory keeps: the newest of each stripe, but no Delete for which a compaction runs, no snapshot is older, and no file of a deeper level covers the key |
| SplitCompaction.RangesPartition | task7-performance/rocksdb/db/compaction_job.cc:375-394 | every user key is in exactly one range |
| CompactionJob.GenSubcompactionBoundaries | task7-performance/rocksdb/db/compaction_job.cc:412-535 | the ranges between all candidates, in order and with their sizes, are divided into at most as many groups as there are ranges, as the options allow, and as five fourths of the total in files of the maximal size, rounded up; each group but the last ends at the first range with which it reaches the mean, and closing stops only at the limit or the last range; boundaries are where groups end, sizes what they sum up to |
| CompactionJob.GroupRanges | task7-performance/rocksdb/db/compaction_job.cc:500-534 | each group but the last ends at the first range with which it reaches the mean size, groups are closed as long as the limit allows and a range is left, and the sizes are the sums over the groups; with a limit of one there is one group |
| CompactionJob.GroupedUnique | task7-performance/rocksdb/db/compaction_job.cc:500-534 | the sizes of the ranges and the limit determine boundaries and group sizes: no other division meets this |
| CompactionJob.DividesUniquely | task7-performance/rocksdb/db/compaction_job.cc:412-535 | main result about the boundaries: input files, options and the size estimate determine them |
| CompactionJob.CollectBounds | task7-performance/rocksdb/db/compaction_job.cc:412-463 | a key is among the candidates if and only if it is an end of a file of level 0, an end of another non-empty level, or a further file start of the output level, for a level from the start level to the output level |
| CompactionJob.SortUnique | task7-performance/rocksdb/db/compaction_job.cc:465-480 | the same keys, strictly increasing |
| CompactionJob.Prepare | task7-performance/rocksdb/db/compaction_job.cc:361-395 | one subcompaction for each range between neighbouring boundaries |
| CompactionJob.ProcessKeyValueCompaction | task7-performance/rocksdb/db/compaction_job.cc:771-829 | emits what the iterator started at the range start emits before the range end |
| CompactionJob.RunJob | task7-performance/rocksdb/db/compaction_job.cc:537-565 | in whatever order the subcompactions run, the job writes the joined outputs of its ranges |
| CompactionJob.Compact | task7-performance/rocksdb/db/compaction_job.cc:361-565 | main result about the job: with the boundaries it generates itself, which are those `CompactionJob.DividesUniquely` determines, split or not, and in whatever order its subcompactions run, its output is strictly ordered, stems from the input, and answers every read at a live snapshot or the tip as the input did |
| CompactionPicker.SanitizeCompactionInputFilesForAllLevels | task7-performance/rocksdb/db/compaction_picker.cc:797-956 | one pass computes the least set of files that contains the request and is closed under overlap; it fails exactly if that set has a file already being compacted |
| CompactionPicker.OverlapIsSymmetric | task7-performance/rocksdb/db/compaction_picker.cc:772-795 | the four cases of the overlap test amount to the usual test of two closed ranges, and are symmetric |
| CompactionPicker.PassLevel | task7-performance/rocksdb/db/compaction_picker.cc:815-950 | one level of the pass keeps the invariant of the pass, or shows that a file that has to be included is busy |
| BuddyTree.MarksAreClosure | task5-memory/src/buddy_allocator.c:74-128 | the marked nodes are exactly the nodes at or above a live block |
| BuddyTree.BlocksDetermineMarks | task5-memory/src/buddy_allocator.c:155-173 | the live blocks determine the bitmap; without live blocks it is empty |
| BuddyTree.BlocksDisjoint | task5-memory/src/buddy_allocator.c:74-77 | two live blocks never overlap |
| BuddyTree.AvailableIffDisjoint | task5-memory/src/buddy_allocator.c:94-131 | memory is available to the search exactly if it overlaps no live block |
| BuddyTree.AllocatedBlocks | task5-memory/src/buddy_allocator.c:122-127 | marking available memory and its ancestors adds exactly one live block |
| BuddyTree.ReleasedBlocks | task5-memory/src/buddy_allocator.c:159-170 | unmarking upwards while the sibling is free removes exactly one live block |
| BuddyTree.AllocateThenFree | task5-memory/src/buddy_allocator.c:86-173 | freeing a block just allocated restores every mark |
| BuddyTree.ReleasedAgain | task5-memory/src/buddy_allocator.c:155-173 | freeing memory that is free already changes nothing |
| BuddyIndex.IndexFamily | task5-memory/src/buddy_allocator.c:44-71 | the index arithmetic, with its wrap-around for the sibling of the root, follows the tree |
| BuddyIndex.MarkOne | task5-memory/src/buddy_allocator.c:17-33 | setting or clearing one bit marks or unmarks exactly one node |
| Bitmap.OneBitChanges | task5-memory/src/buddy_allocator.c:17-33 | setting or clearing one bit of a byte changes no other |
| BuddySearch.SearchTakes | task5-memory/src/buddy_allocator.c:94-112 | a taken node rules out all blocks below it |
| BuddySearch.FoundIsLive | task5-memory/src/buddy_allocator.c:134-152 | looking up the address of a live block gives this block |
| BuddySearch.FoundIsFree | task5-memory/src/buddy_allocator.c:134-152 | looking up an address in no live block gives available memory |
| BuddySpec.BestBucketUnique | task5-memory/src/buddy_allocator.c:36-41 | exactly one bucket fits a request best |
| BuddySpec.ShrunkBlocks | task5-memory/src/buddy_allocator.c:182-193 | shrinking replaces the block by its leftmost part and touches no other block |
| BuddySpec.ShrunkShape | task5-memory/src/buddy_allocator.c:182-193 | this part starts where the block starts, and is the smallest block that holds the size: a half of it would not, or is no block |
| BuddySpec.GrowBlocks | task5-memory/src/buddy_allocator.c:205-234 | merging with free siblings ends in one larger block in place of the old one, or has freed the old one at a taken sibling |
| BuddySpec.FallbackDisjoint | task5-memory/src/buddy_allocator.c:236-239 | the block found after growing failed never overlaps the block just released, as the comment in the source claims |
| BuddyRealloc.OutcomeBlocks | task5-memory/src/buddy_allocator.c:176-245 | on every path exactly the one block is replaced by one that is large enough, or kept, or lost |
| BuddyRealloc.OutcomePlace | task5-memory/src/buddy_allocator.c:176-245 | main result: on every path the block goes where it should, said with the live blocks alone: a size that fits shrinks it in place to the smallest block that holds it; a larger size takes the best fitting block around it if that is free but for the block itself, otherwise the lowest free one of the best fitting size, and fails exactly if there is none |
| BuddyRealloc.PlaceUnique | task5-memory/src/buddy_allocator.c:176-245 | the live blocks, the block and the size determine this place |
| BuddyRealloc.ReallocationKeepsData | task5-memory/src/buddy_allocator.c:176-245 | on every path the old bytes survive as a prefix and no other live block has changed a byte |
| BuddyRealloc.CopyRangesDisjoint | task5-memory/src/buddy_allocator.c:207-245 | source and target of each copy are disjoint |
| BuddyRealloc.FailureKeepsBlockIff | task5-memory/src/buddy_allocator.c:176-245 | a reallocation that fails keeps the block exactly if the request is larger than the arena |
| BuddyRealloc.FailureLosesBlock | task5-memory/src/buddy_allocator.c:219-242 | in an arena of any depth with two live halves, growing the left one to the whole arena fails and loses it |
| BuddyBlocks.HalfPageLost | task5-memory/src/buddy_allocator.c:219-242 | the same for the arenas of the source: a half of 2048 bytes is lost by a request for 4096 |
| BuddyArena.Arena.FindFree | task5-memory/src/buddy_allocator.c:91-120 | the backtracking search ends, finds the lowest available block of the best fitting bucket, and fails exactly if there is none |
| BuddyArena.Arena.Allocate | task5-memory/src/buddy_allocator.c:86-131 | takes that block; the offset it returns is the offset of the block |
| BuddyArena.Arena.FindBuddy | task5-memory/src/buddy_allocator.c:134-152 | finds the topmost unsplit node that starts at an address |
| BuddyArena.Arena.Deallocate | task5-memory/src/buddy_allocator.c:155-173 | an address at any granule of a live block, not only its first, removes this block and nothing else; an address in no live block changes nothing |
| BuddyArena.Arena.Reallocate | task5-memory/src/buddy_allocator.c:176-245 | exactly the one block is replaced, by the block in the place `BuddyRealloc.OutcomePlace` determines, whose address is returned; a size that fits is always granted, at the same address; with the effects on memory |
| BuddyArena.Arena.Expand | task5-memory/src/buddy_allocator.c:205-234 | the growing loop computes the growth of the specification |
| BuddyArena.Arena.Shrink | task5-memory/src/buddy_allocator.c:182-190 | reports shrinking exactly if the size fits into a half and the block has halves; then and only then the block is replaced by its leftmost part of the smallest size that holds the request |
| BuddyArena.Arena.Usage | task5-memory/src/buddy_allocator.c:248-260 | the usage is the sum of the sizes of the live blocks |
| BuddyUsage.UsageFits | task5-memory/src/buddy_allocator.c:248-260 | the usage never exceeds the size of the arena |
| BuddyBlocks.BlockList.Allocate | task5-memory/src/buddy_block.c:33-63 | first fit over the arenas, with a new page only when all fail; fails only for more than a page or when a page is refused |
| BuddyBlocks.BlockList.Deallocate | task5-memory/src/buddy_block.c:66-83 | removes the live block the address lies in, in whichever arena, and nothing else; an address in no live block changes nothing, and an address of no arena is reported |
| BuddyBlocks.BlockList.Reallocate | task5-memory/src/buddy_block.c:90-121 | the block is replaced by one that is large enough and starts with the same bytes, and all other blocks keep theirs; in its own arena it goes to the place `BuddyRealloc.OutcomePlace` determines, at the same address if the size fits, and only if there is none there, to the lowest block of the best fitting size in the first arena that has one; it fails only to grow, and within a page only if no arena has room, also after the block was given up, and no page is to be had; on failure the block survives only if the request is larger than a page |
| BuddyBlocks.BlockList.FreeAgain | task5-memory/src/buddy_block.c:113-115 | the second free after a move leaves all bitmaps unchanged |
| BuddyBlocks.BlockList.NoOverlap | task5-memory/src/buddy_block.c:14-30 | no two live blocks of any arenas overlap |
| SuperVersionRuns.RunInv | task7-performance/rocksdb/db/column_family.cc:315-354 | in every state of every run the invariant holds, no step touches a version after its cleanup, and no assertion of the protocol fails |
| SuperVersionRuns.ReferencesAreExact | task7-performance/rocksdb/db/column_family.cc:315-354 | every reference count is (is current) + (slots caching it) + (threads holding it) + (references scraped and not yet released) + (references handed out); cleanup happens only at zero and at most once |
| SuperVersionRuns.HeldIsAlive | task7-performance/rocksdb/db/column_family.cc:973-1038 | a version that is current, cached, held or handed out is not cleaned up |
| SuperVersionRuns.SlotsAreCurrent | task7-performance/rocksdb/db/column_family.cc:1021-1087 | the version a slot caches, or that its thread has taken from it and may put back, is the current one if and only if no install has switched versions without having scraped this slot yet |
| SuperVersionRuns.PutBackIsCurrentIff | task7-performance/rocksdb/db/column_family.cc:1021-1040 | the CAS puts the version back exactly if the slot was not scraped, and the version put back is current if and only if no install is on its way to the slot |
| SuperVersionRuns.OldVersionPutBack | task7-performance/rocksdb/db/column_family.cc:1026-1031 | a concrete run in which the CAS succeeds and puts back a version that is not current any more |
| SuperVersionRuns.TakenIsCurrent | task7-performance/rocksdb/db/column_family.cc:973-1019 | a version taken has the global version number at that step |
| SuperVersionRuns.QuietMeansClean | task7-performance/rocksdb/db/column_family.cc:1049-1087 | when all threads are idle and everything is given back, every version but the current one was cleaned up exactly once |
| SuperVersionCalls.GetOutcome | task7-performance/rocksdb/db/column_family.cc:973-1019 | main result: a thread that got a version got the one its slot cached, which carried the global number at an instant of the call; or the slot was empty, or cached a version that at an instant of the call did not carry the global number, and the thread got what was current at an instant of the call; so the mutex is needed only then |
| SuperVersionCalls.ReturnOutcome | task7-performance/rocksdb/db/column_family.cc:1021-1040 | when the version was put back, it was in the slot again; or the slot was scraped during the call, and one reference to the version was dropped |
| SuperVersionCalls.ShareOutcome | task7-performance/rocksdb/db/column_family.cc:961-971 | a reference that outlives the slot: exactly one to the version the thread held is handed out, and the one it held is back in the slot, or the slot was scraped and it is dropped |
| SuperVersionCalls.ReleaseOutcome | task7-performance/rocksdb/db/column_family.cc:315-331 | a reference given up is taken from its owner and dropped by a step of the call |
| SuperVersionCalls.ExitOutcome | task7-performance/rocksdb/db/column_family.cc:358-371 | an exiting thread leaves its slot empty and drops the reference that was in it |
| SuperVersionCalls.InstallOutcome | task7-performance/rocksdb/db/column_family.cc:1049-1087 | main result: an install that is over has, between taking the mutex and giving it back, made a version that is then current and carries the global number, one higher than before, has scraped the slot of every thread, and has dropped the reference to the version it replaced |
| SuperVersionRuns.StepKeepsInv | task7-performance/rocksdb/db/column_family.cc:961-1087 | every step keeps the invariant |
| SuperVersionSafety.StepIsSafe | task7-performance/rocksdb/db/column_family.cc:321-331 | the assertions on reference counts and slots hold at every step |
| SuperVersionSafety.ScrapeKeepsCounts | task7-performance/rocksdb/db/column_family.cc:1072-1087 | a scraped slot hands its reference to the installer |
| SuperVersionSafety.ExpectedKept | task7-performance/rocksdb/db/column_family.cc:1049-1059 | what slots may cache changes only where a slot is scraped |
| ClockRuns.RunInv | task7-performance/rocksdb/cache/clock_cache.cc:425-720 | in every state of every run the invariant holds and no assertion of the source fails |
| ClockRuns.RecycledOncePerLife | task7-performance/rocksdb/cache/clock_cache.cc:425-437 | a handle is recycled exactly once per life and never while cached or referenced; its reference count is the number of references threads have |
| ClockRuns.TableMatchesCache | task7-performance/rocksdb/cache/clock_cache.cc:575-622 | while the mutex is free a key is in the table exactly if a cached handle has it, and the table leads to this one |
| ClockRuns.UsageIsSum | task7-performance/rocksdb/cache/clock_cache.cc:575-622 | while the mutex is free the usage is the sum of the charges of all handles not in the recycle bin |
| ClockRuns.ReferencedIsStable | task7-performance/rocksdb/cache/clock_cache.cc:451-497 | through any stretch of a run in which a handle is referenced or cached, its key, charge, life and number of recyclings do not change |
| ClockRuns.LookupFindsKey | task7-performance/rocksdb/cache/clock_cache.cc:650-674 | a lookup that took a reference hands it out exactly if the handle has the key asked for; then there was an instant inside the lookup at which the handle was cached for this key, and it is still in the same life, although handles are reused; what lookups as a whole achieve is `ClockCalls.LookupOutcome` |
| ClockCalls.LookupOutcome | task7-performance/rocksdb/cache/clock_cache.cc:650-674 | main result: a lookup that is over has handed out nothing, and then the key was not in the table when it began, or at an instant of the lookup the handle the table led to was not cached or had another key; or it has handed out one reference to this handle, which was cached for the key at an instant of the lookup and in the same life when it was handed out |
| ClockCalls.SoloLookup | task7-performance/rocksdb/cache/clock_cache.cc:650-674 | undisturbed, a lookup of a key in the table hands out its handle after three steps, with one reference more and nothing else changed |
| ClockCalls.RefOutcome | task7-performance/rocksdb/cache/clock_cache.cc:451-472 | another reference is taken if the handle was cached at an instant of the call, and refused only if it was not cached at an instant of the call |
| ClockCalls.ReleaseOutcome | task7-performance/rocksdb/cache/clock_cache.cc:474-497 | a release that is over has given back exactly one reference, and the usage bit was set, with the reference still held, at an instant of the call |
| ClockCalls.StrictAsAsked | task7-performance/rocksdb/cache/clock_cache.cc:569-573 | the cache is as strict as it was last asked to be |
| ClockWork.CallEnds | task7-performance/rocksdb/cache/clock_cache.cc:531-720 | a call that needs the mutex and is over has given the mutex back by a step of its own, to which the next four results apply |
| ClockWork.EraseOutcome | task7-performance/rocksdb/cache/clock_cache.cc:688-707 | main result: when an erase gives the mutex back, the key is out of the table, the handle it led to is not cached, and in the recycle bin unless references are left or somebody is about to put it there; all other keys and handles are as when the mutex was taken |
| ClockWork.ClearOutcome | task7-performance/rocksdb/cache/clock_cache.cc:709-720 | when everything was erased, the table is empty, and no handle is cached; all are in the bin or on their way |
| ClockWork.InsertOutcome | task7-performance/rocksdb/cache/clock_cache.cc:531-622 | main result: when an insertion gives the mutex back, either the key leads to a handle with its key and charge, taken from the bin or new, with a reference for the caller if asked for; or nothing was inserted, which happens only if eviction visited every handle twice in vain and the cache was strict or nobody would hold the entry. Whatever else has left the table was cached, unused and without references when the hand came by, at a time when there was not enough room; the hand stays where it stopped; and the usage is within the capacity unless eviction gave up |
| ClockWork.CapacityOutcome | task7-performance/rocksdb/cache/clock_cache.cc:558-567 | when a change of the capacity gives the mutex back, the capacity is the new one, the usage is within it unless every handle was visited twice in vain, and nothing has left the table but what was evicted |
| ClockWork.EntersUnused | task7-performance/rocksdb/cache/clock_cache.cc:602-609 | a handle gets into the cache only for an insertion that asked for its key and charge, without the usage bit, and with one reference if the caller holds it, else none |
| ClockProgress.MutexIsGivenBack | task7-performance/rocksdb/cache/clock_cache.cc:531-622 | main result: whatever the other threads do, the holder of the mutex can make a step, and from taking the mutex to giving it back makes at most ten steps and six for each handle |
| ClockRuns.StepKeepsInv | task7-performance/rocksdb/cache/clock_cache.cc:425-720 | every step of any thread, with or without the mutex, keeps the invariant; what calls achieve is stated for `ClockCalls` and `ClockWork` |
| ClockRuns.HolderStep | task7-performance/rocksdb/cache/clock_cache.cc:499-622 | a step of the mutex holder keeps what the mutex protects, up to the change it is in the middle of |
| ClockSafety.StepIsSafe | task7-performance/rocksdb/cache/clock_cache.cc:474-529 | the assertions on reference counts, on recycling and on the table hold at every step |
| ClockEviction.Shard.EvictFromCache | task7-performance/rocksdb/cache/clock_cache.cc:531-556 | without concurrent references the hand makes the visits needed and no more, evicting in the first lap what was not used lately and in the second what was, and stays where it stopped; after two laps it is where it was and failure is reported; success means the entry fits and is reported exactly if the visits before the last one free enough; failure means no unreferenced entry is left; an empty cache is left alone |
| ClockEviction.Shard.TryEvict | task7-performance/rocksdb/cache/clock_cache.cc:514-529 | evicts exactly an entry that is cached, unreferenced and not used lately, and otherwise clears the usage bit |
| ClockEviction.LastVisitTooLate | task7-performance/rocksdb/cache/clock_cache.cc:537-553 | a concrete cache for which failure is reported although the entry would fit after the last visit |
| ClockEviction.PackedOperations | task7-performance/rocksdb/cache/clock_cache.cc:278-296 | the operations on the packed integer do to it what they should do to the bits and the count |
| LruTable.MaskIsRemainder | task7-performance/rocksdb/cache/lru_cache.cc:73-75 | masking a hash with a power of two less one is the remainder |
| LruTable.SearchDecides | task7-performance/rocksdb/cache/lru_cache.cc:73-81 | searching the bucket of the hash decides whether a name is in the map and finds its handle |
| LruTable.ChangeHolds | task7-performance/rocksdb/cache/lru_cache.cc:45-71 | a change of one chain changes the finite map alike |
| LruTable.Table.Lookup | task7-performance/rocksdb/cache/lru_cache.cc:40-43 | the value of the finite map |
| LruTable.Table.Insert | task7-performance/rocksdb/cache/lru_cache.cc:45-60 | maps the name to the handle and returns the previous one; at most as many entries as buckets |
| LruTable.Table.Remove | task7-performance/rocksdb/cache/lru_cache.cc:62-71 | takes the name out of the map |
| LruTable.Table.Resize | task7-performance/rocksdb/cache/lru_cache.cc:83-108 | rehashing loses and duplicates nothing; the length is a power of two and at least one and a half times the entries |
| LruTable.NewLength | task7-performance/rocksdb/cache/lru_cache.cc:85-88 | the smallest power of two from 16 on that is large enough |
| LruList.RemoveLinked | task7-performance/rocksdb/cache/lru_cache.cc:175-186 | unlinking a node takes it out of the sequence the links run through |
| LruList.InsertLinked | task7-performance/rocksdb/cache/lru_cache.cc:192-214 | linking a node after another puts it there |
| LruHandles.DroppedConsistent | task7-performance/rocksdb/cache/lru_cache.cc:229-244 | dropping an entry that only the cache has keeps the shard consistent |
| LruHandles.PinnedConsistent | task7-performance/rocksdb/cache/lru_cache.cc:268-291 | taking a reference keeps the shard consistent |
| LruHandles.UnpinnedConsistent | task7-performance/rocksdb/cache/lru_cache.cc:301-332 | giving a reference back keeps the shard consistent |
| LruHandles.EnteredConsistent | task7-performance/rocksdb/cache/lru_cache.cc:387-406 | entering the cache keeps the shard consistent |
| LruHandles.DetachedConsistent | task7-performance/rocksdb/cache/lru_cache.cc:420-436 | taking a referenced entry out of the table keeps the shard consistent |
| LruHandles.DiscardedConsistent | task7-performance/rocksdb/cache/lru_cache.cc:301-339 | freeing a handle with its last reference keeps the shard consistent |
| LruShard.ThreeStates | task7-performance/rocksdb/cache/lru_cache.h:23-37 | a live handle is in exactly one of the three documented states |
| LruShard.Shard.LruRemove | task7-performance/rocksdb/cache/lru_cache.cc:175-190 | takes an entry off the list and out of the charges of its pool |
| LruShard.Shard.LruInsert | task7-performance/rocksdb/cache/lru_cache.cc:192-216 | the entry becomes the newest of its pool; low priority entries remain a prefix, high priority ones the suffix; the border between them moves by one behind a low priority entry, and by as few places as let the high priority pool fit behind a high priority one |
| LruShard.Shard.MaintainPoolSize | task7-performance/rocksdb/cache/lru_cache.cc:218-227 | the high priority pool fits afterwards, and as few entries as possible left it, oldest first |
| LruShard.Shard.EvictFromLRU | task7-performance/rocksdb/cache/lru_cache.cc:229-244 | evicts a prefix of the list, no more than needed, and stops when the entry fits or the list is empty |
| LruShard.Shard.SetCapacity | task7-performance/rocksdb/cache/lru_cache.cc:246-260 | evicts in the order of the list as few entries as needed, or all: afterwards the usage fits or the list is empty, and without the last eviction it would not fit; the high priority pool gets its share of the new capacity |
| LruShard.Shard.SetHighPriorityPoolRatio | task7-performance/rocksdb/cache/lru_cache.cc:293-299 | only the border between the pools moves, by as few places as let the pool fit into its new share of the capacity |
| LruShard.Shard.EraseUnRefEntries | task7-performance/rocksdb/cache/lru_cache.cc:132-154 | frees exactly the entries on the list, each once, in their order; everything else stays |
| LruShard.Shard.Lookup | task7-performance/rocksdb/cache/lru_cache.cc:268-280 | returns the handle of the table, now referenced and off the list |
| LruShard.Shard.Ref | task7-performance/rocksdb/cache/lru_cache.cc:282-291 | one more reference, and off the list |
| LruShard.Shard.Release | task7-performance/rocksdb/cache/lru_cache.cc:301-339 | frees the handle with its last reference, or when only the cache is left and is too full or told to; otherwise the handle stays, or becomes the newest of its pool, with the border between the pools where `LruInsert` puts it |
| LruShard.Shard.Insert | task7-performance/rocksdb/cache/lru_cache.cc:341-418 | evicts in order as few entries as needed, or all, then enters the entry in place of one with the same name unless the pinned usage leaves no room and the cache is strict or nobody holds the entry; an entry nobody holds becomes the newest of its pool, with the border between the pools where `LruInsert` puts it |
| LruShard.Shard.Erase | task7-performance/rocksdb/cache/lru_cache.cc:420-444 | takes the name out; the handle is freed or lives on with its references |
| SlotArena.Arena.Allocate | task5-memory/src/slot_allocator.c:84-121 | takes the first free run from the cursor on that is long enough, and fails exactly if there is none; all other used spans stay |
| SlotArena.Arena.Coalesce | task5-memory/src/slot_allocator.c:93-96 | merging free spans keeps all used spans and the tiling |
| SlotArena.Arena.Deallocate | task5-memory/src/slot_allocator.c:147-156 | removes exactly one used span; the cursor stays on a span boundary |
| SlotArena.Arena.ReallocateInPlace | task5-memory/src/slot_allocator.c:182-201 | resizes in place exactly if the span and the free run behind it are long enough; if not, the cursor is on a boundary exactly if it is not inside the grown span |
| SlotArena.Arena.Expand | task5-memory/src/slot_allocator.c:182-185 | takes in free spans from behind as long as the span is not longer than required |
| SlotArena.Arena.constructor | task5-memory/src/slot_allocator.c:45-55 | a new arena is one free span |
| SlotArena.RequiredSlots | task5-memory/src/slot_allocator.c:74-77 | the smallest number of slots that hold the block and its header |
| SlotArena.AddressRoundTrip | task5-memory/src/slot_allocator.c:67-70 | the index of an address handed out is the index it was made from |
| SlotMoves.Reallocate | task5-memory/src/slot_allocator.c:159-216 | main result about the slots: on every path, in place, to another place in the arena, to another arena or nowhere for lack of memory, exactly the one used span is replaced, given up or kept; it stays in place exactly if it and the free run behind it are long enough, and otherwise its arena gives it the first long enough run from the cursor on, if there is one; the arena is in order afterwards, with its cursor on a span boundary, if and only if the span was long enough, or found a place in its arena, or the cursor was not strictly inside what it had taken in; otherwise the cursor is inside the span, at a header left over from before |
| SlotMoves.SearchOwn | task5-memory/src/slot_allocator.c:84-121 | the search for the new place, which may start inside the span to be moved: it finds the first free run from the cursor on that is long enough, exactly if there is one, leaves the cursor behind it, and keeps all used spans |
| SlotMoves.HandOutTwice | task5-memory/src/slot_allocator.c:84-156 | if the cursor is inside a free span and a used span is left before it, then after freeing this one a request at the cursor and requests from the front hand out the same slot twice, without it having come back in between |
| SlotMoves.FourSlots | task5-memory/src/slot_allocator.c:182-214 | a run of requests on a new arena of four slots that hands out a slot twice |
| SlotMoves.SlotsAreLost | task5-memory/src/slot_allocator.c:84-156 | if no used span is left before the cursor, the arena is in order from the cursor on, with all used spans, and only the slots before it are lost |
| SlotSpans.LiveDisjoint | task5-memory/src/slot_allocator.c:16-29 | two used spans never overlap |
| SlotSpans.CutLive | task5-memory/src/slot_allocator.c:104-113 | cutting a span replaces one used span and keeps the others |
| SlotSpans.MergedLive | task5-memory/src/slot_allocator.c:93-96 | merging a free span into another keeps all used spans but the one that grew |
| SlotSpans.BoundaryCoalesced | task5-memory/src/slot_allocator.c:182-185 | making one span of several removes exactly the boundaries strictly inside |
| SlotSpans.CursorInside | task5-memory/src/slot_allocator.c:182-214 | a concrete arena in which a reallocation that has to move leaves the cursor inside a span |
| SlotList.ArenaList.Allocate | task5-memory/src/slot_allocator.c:73-128 | first fit over the arenas, a new arena only when no run from any cursor is long enough |

## Left out

- Memory reclamation, relaxed memory ordering and printing in the lock-free map: nodes are never freed, and atomics are sequentially consistent in the model.
- The truncation of a bucket index to `int` for more than 2^31 buckets: the model has at most that many buckets.
- Merge operands, range deletions, compaction filters, corrupt keys and shutdown in the compaction iterator: code outside the files modelled decides them.
- User keys are integers and file sizes natural numbers; sums of sizes do not overflow, and doubles are real numbers.
- Buddy requests of size 0: the search of the source leaves the tree, so allocation asks for at least one byte.
- Addresses that are not a multiple of the granularity: the lookup of the source does not end for them.
- The first metadata page of the buddy list, whose refusal the source does not handle, and the page layout of the metadata.
- Utilization as a floating point number, printing and integrity checks of the allocators.
- SlotArena.Arena.ReallocateInPlace: stops where the source goes on to move the span, which `SlotMoves.Reallocate` does.
- SlotMoves.Reallocate: whether other arenas have room is a parameter, and the copying of the bytes is not modelled.
- Slot requests for more slots than an arena has: the source asks for new arenas without end.
- Which slot arena an address belongs to, and the bytes in the slots.
- The direct allocator, the dispatch of malloc between the allocators, and mmap.
- The install of the very first super version, and what a version cleanup releases.
- References to a super version taken under the mutex outside the functions modelled.
- 32-bit overflow of reference counts in all components.
- References of the clock cache passed from one thread to another: in the model a thread gives back what it took itself.
- The pinned usage and erasing on release in the clock cache: both read a handle after its reference was dropped.
- The deleter calls and the key memory of clock and LRU entries: a handle counts as freed when it is recycled or released.
- The next-hash pointers of the LRU table: a chain is a sequence.
- The sharding of caches, and printing, statistics and destructors of both caches.
- The spinlock and the map with mutexes, the parallel sort, the shell, the tracer, the file system, the sockets and the container tasks.
- The rest of RocksDB.
