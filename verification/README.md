# The state machines of SESC, verified

SESC simulates multiprocessors. This project models the state machines inside it in Dafny and proves
what they are for. `dafny verify dfyconfig.toml` checks everything; the parts do not depend on each
other, except where a file below imports another.

**Speculative versioned memory** (`Chunks`, `VersionedMemory`, `SequentialEquivalence`,
`SpeculativeRuns`, `EntrySet`, `MemBuffer`). Task versions buffer their accesses in copies of 8-byte
chunks, forward their stores to younger versions and report the first one that read too early.
`VersionedMemory` states each operation as a relation between states; the classes of `MemBuffer` carry
them out on the ordered set of entries and are proved to take exactly these steps.
`EveryRunIsSequential` is the reason for all of it: in any run, in any interleaving, the operations that
survive give the same reads and leave the same memory as running the versions one after another.

**Version order** (`VersionOrder`, `VersionShares`, `HVersion`). Versions carry intervals of numbers, which
are split when a version spawns a successor, claimed from later versions when there are too few, and released
when a version goes. Comparing two versions by number always agrees with their order in the list, and the
answer never changes while both are there. Until a version is dequeued that is still used, the intervals
leave no gaps. `VersionShares` says which numbers each version has after a step: a claim takes of each later
version half of what it has, as far as that is needed, and a release fills each up.

**Epochs** (`EpochLists`, `EpochBlocks`, `EpochBuffers`, `EpochReads`, `EpochOrder`, `EpochSaving`,
`EpochRest`, `EpochRuns`, `EpochEffects`, `EpochCommit`). The accessor and writer lists of a block with their
cross pointers, under access, clock advance and removal; what a read assembles from older versions and
memory; appending and merging buffers; and the list of epochs, whose GlobalSafe token makes them commit in
clock order. `EpochSaving` states the rule by which the token is passed on, one turn at a time, and proves
that it keeps the list in order. `EpochRest` proves when it comes to rest: exactly if the search for an
active epoch never finds none, which can be told from the records of the epochs beforehand. `EpochRuns`
states what each event does before the rule is followed, and that over any run only finished epochs commit,
in the order of their clocks. `EpochEffects` spells out what becomes of which epoch in each event and each
turn. The class of `EpochCommit` has the calls as the program makes them, each proved to end in the state
that the event and then the rule give. Every event but one leaves a list at rest at rest, so that nobody
waits who could go on. The exception is a thread that starts to wait: the source tries nothing then, and when
the epoch is next in line, with the token available and an instruction fetched, it could have given way at
once. `WaitMayUnsettle` proves that this is the only case and `WaitUnsettles` gives a run in which it arises;
a try at the epoch next in line, wherever a later event makes one, makes up for it.

**Scheduler** (`Scheduling`, `RunningProcs`, `SchedulerSteps`), **dependence window** (`Dataflow`, `DepWindow`),
**barrier** (`Barrier`), **event kernel** (`Events`), **fetch pipeline** (`FetchPipeline`), **undo logs**
(`Checkpoints`) and **configuration files** (`Configuration`) are modules of their own.

Three conventions. A byte mask is the set of the offsets whose bit is set. An iterator into a list is an
index, or the element it stands at. Where an algorithm works in place a class does so, and its methods
are proved against functions or relations on values, about which the lemmas speak.

Where the code and its comments differ the model follows the code: `HVersionMax` is meant as a large
bound, but in the signed type of the versions its value is negative, so that all versions shift whenever
a new newest version is made (`HVersionDomain.CreateSuccessor`). `MemBuffer::mergeOps` and
`justDestroy` use an iterator after erasing it; the model does what is meant, removal and then the merge.

## Model

| member | source | states |
|---|---|---|
| Chunks.ChunkCopy | src/libcore/MemBuffer.cpp:109-153 | the copy with its four-byte fast path is the bytewise masked copy, and reports a change exactly if the chunk differs |
| MemBuffers.MemBufferDomain.InitialData | src/libcore/MemBuffer.cpp:93-107 | a new entry inherits from the neighbour in the ordered set, which is the next older version, or from memory |
| MemBuffers.MemBuffer.Read | src/libcore/MemBuffer.cpp:279-306 | a read takes the read step: the entry exists, its exposed-read mask grows by what it has not written, nothing else changes |
| MemBuffers.MemBuffer.PostWrite | src/libcore/MemBuffer.cpp:309-377 | the loop over the younger entries takes the write step: exact forwarding and the exact report |
| MemBuffers.MemBuffer.MergeOps | src/libcore/MemBuffer.cpp:262-276 | the oldest version's written bytes go to memory and its entries disappear, in whatever order the index is walked |
| MemBuffers.MemBuffer.JustDestroy | src/libcore/MemBuffer.cpp:226-242 | exactly the entries of this version disappear, which for the youngest version is the kill step |
| SequentialEquivalence.WriteMaskMeaning | src/libcore/MemBuffer.h:107-114 | a bit of the write mask says that the version wrote the byte |
| SequentialEquivalence.ReadMaskMeaning | src/libcore/MemBuffer.h:99-105 | a bit of the exposed-read mask says that some read of the version came before any write of its own |
| SequentialEquivalence.TouchKeepsAgreement | src/libcore/MemBuffer.cpp:93-107 | making an entry keeps the view invariant: what a version has not written is what older versions left |
| SequentialEquivalence.ReadKeepsAgreement | src/libcore/MemBuffer.cpp:279-306 | a read returns the value of the reference order and keeps the view invariant |
| SequentialEquivalence.WriteKeepsAgreement | src/libcore/MemBuffer.cpp:309-377 | an unreported write keeps every view and the value of every earlier read |
| SequentialEquivalence.ReportIsExact | src/libcore/MemBuffer.cpp:344-376 | a write goes unreported exactly if no read of a younger version has missed a byte of it |
| SequentialEquivalence.ReportedWrite | src/libcore/MemBuffer.cpp:344-376 | a reported write, with the reported and all younger versions killed, is an unreported one among the rest |
| SequentialEquivalence.KillKeepsAgreement | src/libcore/MemBuffer.cpp:226-242 | destroying a suffix of versions keeps the view invariant of the others |
| SequentialEquivalence.MergeKeepsAgreement | src/libcore/MemBuffer.cpp:262-276 | merging the oldest version keeps the view invariant over the new memory |
| SequentialEquivalence.MergeIsExecution | src/libcore/MemBuffer.cpp:160-166 | merging a version is executing its operations on memory |
| SpeculativeRuns.ByVersionIsVersionOrder | src/libcore/MemBuffer.cpp:191-198 | the reference order is sorted by version and keeps each version's program order |
| SpeculativeRuns.EveryRunIsSequential | src/libcore/MemBuffer.cpp:226-377 | sequential equivalence for every run of reads, writes, kills and merges |
| VersionOrder.ListOrderIsBaseOrder | src/libcore/HVersion.h:278-301 | in a sound list each interval ends before the next begins, so bases increase strictly |
| VersionOrder.ClaimKeepsChain | src/libcore/HVersion.cpp:143-190 | claiming gives a full interval and keeps the later ones nonempty, bounded and apart |
| VersionOrder.ClaimedIsFair | src/libcore/HVersion.cpp:156-184 | a version keeps its place and never shrinks below half of its interval when others claim |
| VersionOrder.ReadjustKeepsChain | src/libcore/HVersion.cpp:192-231 | closing the gap behind a version, and releasing what is too much, keeps the intervals sound and leaves no gap behind the version |
| VersionOrder.ReleasedIsFair | src/libcore/HVersion.cpp:212-226 | no version's interval shrinks by a release, nor exceeds the bound |
| VersionOrder.SpawnKeepsChain | src/libcore/HVersion.cpp:233-281 | a successor stands right behind its parent, with a nonempty part of its numbers |
| VersionOrder.EveryRunKeepsChain | src/libcore/HVersion.cpp:124-534 | in every run of spawning, collecting, dequeuing and shifting the intervals stay sound and the versions distinct |
| VersionOrder.EveryRunKeepsTight | src/libcore/HVersion.cpp:264-300 | what the source verifies: no interval exceeds the bound, and each ends where the next begins, in every run that dequeues nothing |
| VersionOrder.ComparisonsAreStable | src/libcore/HVersion.h:278-301 | comparing bases is comparing places in the list, and the answer never changes while both versions are listed |
| VersionShares.ClaimedExactly | src/libcore/HVersion.cpp:156-184 | each later version moves up by what the ones before it could not give of half of their numbers, its end by what half of its own could not either; the last one, if reached, is refilled |
| VersionShares.ClaimExactly | src/libcore/HVersion.cpp:143-190 | the version that claims has a full interval, and the later ones have made room for what it lacked |
| VersionShares.ReleasedExactly | src/libcore/HVersion.cpp:210-226 | each later version moves down by what the ones before it had no space for, its end by what it has no space for itself |
| VersionShares.CollectExactly | src/libcore/HVersion.cpp:192-465 | the versions in front of the predecessor stay, the predecessor takes over the numbers up to a full interval, and those behind move down by the rest |
| VersionShares.SpawnExactly | src/libcore/HVersion.cpp:233-534 | the parent keeps a half, a quarter or less, by the size of its interval, and the successor has the rest; with fewer than two numbers the parent claims first, and the newest version and its successor get a full interval each |
| VersionShares.ShiftExactly | src/libcore/HVersion.cpp:124-141 | all bounds fall by the same number |
| VersionShares.DequeueExactly | src/libcore/HVersion.cpp:366-391 | a dequeued version leaves the others with their numbers |
| HVersions.PushAll | src/libcore/HVersion.cpp:156-184 | the claim loop, in place over the list, which ClaimedExactly describes |
| HVersions.PullAll | src/libcore/HVersion.cpp:210-226 | the release loop, in place over the list, which ReleasedExactly describes |
| HVersions.HVersionDomain.CreateSuccessor | src/libcore/HVersion.cpp:475-534 | takes the spawn step, followed by the shift when the newest version's parent has passed the maximum |
| HVersions.HVersionDomain.GarbageCollect | src/libcore/HVersion.cpp:349-465 | which of leaving, dequeuing and collecting happens, that it is that step of the order, and that the token of the oldest task passes exactly from a version whose task is over to the one behind it |
| EpochLists.PlaceIsNearestWriter | src/libcore/Epoch.cpp:2071-2096 | what the source checks: each place is the block itself if written, otherwise the nearest older writer, or the end |
| EpochLists.LinksAreDetermined | src/libcore/Epoch.cpp:2071-2096 | writers and places follow from the accessors and their written flags |
| EpochBlocks.BlockVersions.FindBlockPosition | src/libcore/Epoch.cpp:2107-2132 | the search by writers and then accessors finds the block's own place or its rank by clock |
| EpochBlocks.BlockVersions.Access | src/libcore/Epoch.cpp:2291-2362 | the list invariant is kept, with the new accessor at its rank and the written flag |
| EpochBlocks.BlockVersions.Advance | src/libcore/Epoch.cpp:2225-2289 | a block whose clock has grown moves in front of the first that is not newer; both lists and all places are right again |
| EpochBlocks.BlockVersions.Remove | src/libcore/Epoch.cpp:2364-2402 | exactly the block goes and the invariant is kept |
| EpochLists.MovedForward | src/libcore/Epoch.cpp:2236-2286 | which places have to change when a block moves, for blocks passed and for those in front |
| EpochLists.ForwardSorts | src/libcore/Epoch.cpp:2252-2270 | the new position restores the order of the clocks |
| EpochBlocks.BlockVersions.FindReadConflicts | src/libcore/Epoch.cpp:2134-2177 | each byte of the masks is held once: by the youngest older accessor that wrote it, and by the oldest younger one, if there is one; the nearest stand last in each list; and the bytes to be read from memory are exactly those that no older unmerged accessor wrote |
| EpochReads.ConflictsAreNearest | src/libcore/Epoch.cpp:2157-2176 | the masks are disjoint and give each byte to its nearest writer |
| EpochReads.OlderConflicts | src/libcore/Epoch.cpp:2157-2176 | the search through the older writers gives each byte to the first of the older accessors that wrote it |
| EpochReads.YoungerConflicts | src/libcore/Epoch.cpp:2142-2155 | the search back through the younger writers gives each byte to the last of the younger accessors that wrote it |
| EpochReads.ReadAssembly | src/libcore/Epoch.cpp:2947-3019 | when the merged writers are the oldest, each byte read is its latest older written value |
| EpochReads.ReadOfVersions | src/libcore/Epoch.cpp:2947-3019 | as long as the merged blocks are the oldest of the list, a read by an unmerged epoch gets for each byte the latest of all older values |
| EpochReads.ReplayedOn | src/libcore/Epoch.cpp:2524-2566 | merging more blocks later is merging all of them, oldest first |
| EpochBlocks.BlockVersions.MergeBlock | src/libcore/Epoch.cpp:2524-2566 | the older blocks whose epochs may merge go to memory, oldest first, and then the block; the others go in front of it, and the merged blocks are again the oldest of the list |
| EpochBuffers.MaskedChunkCopy | src/libcore/Epoch.h:1295-1309 | the copy loop is the bytewise masked copy |
| EpochBuffers.BufferBlock.Append | src/libcore/Epoch.h:1310-1342 | every chunk becomes the composition of both blocks, and the flags say whether one reads from before both or writes |
| EpochBuffers.BufferBlock.Merge | src/libcore/Epoch.h:1350-1366 | the written bytes of every chunk go to memory, the others stay |
| EpochBuffers.AppendThenMerge | src/libcore/Epoch.h:1310-1366 | appending and then merging is merging the older block and then the successor |
| EpochBuffers.AppendIsConcatenation | src/libcore/Epoch.h:1310-1342 | the appended block is that of one epoch making all accesses, so its exposed mask is what was read from before both |
| EpochBuffers.AppendIsAssociative | src/libcore/Epoch.h:1310-1342 | appending in either grouping gives the same block |
| EpochOrder.OneGlobalSafe | src/libcore/Epoch.h:462-476 | clocks decrease along the list, behind a GlobalSafe or committed epoch all have committed |
| EpochOrder.OneSafeInThread | src/libcore/Epoch.cpp:1183-1210 | no thread has two uncommitted epochs past Spec |
| EpochOrder.InsertKeepsOrder | src/libcore/Epoch.cpp:935-1005 | a spawned epoch or thread keeps the order, the phases and the one safe epoch per thread |
| EpochOrder.AdvanceKeepsOrder | src/libcore/Epoch.cpp:843-862 | so does an epoch that moves forward |
| EpochOrder.GlobalSaveKeepsOrder | src/libcore/Epoch.cpp:1308-1325 | so does taking the token |
| EpochSaving.CommitDoneKeepsOrder | src/libcore/Epoch.cpp:1354-1399 | so does a commit that passes ThreadSafe on within the thread |
| EpochSaving.DeferIsSound | src/libcore/Epoch.cpp:1283-1300 | a waiting epoch goes in front of an active one, which brings the active one closer to the token |
| EpochSaving.FreeIsGood | src/libcore/Epoch.cpp:1354-1399 | the epoch that commits joins the committed ones in front, and nothing is lost of the order |
| EpochSaving.SavedKeepsRecords | src/libcore/Epoch.cpp:1263-1399 | saving, committing and giving way lose no epoch and change clocks and phases only |
| EpochRuns.FirstKeeps | src/libcore/Epoch.h:1751-1798 | what happens to one epoch, whatever it is, keeps the list in order |
| EpochRest.RestsExactly | src/libcore/Epoch.cpp:1263-1306 | taking the token, committing and giving way come to an end exactly if the source's assertion in the search never fails, and that is what the records of the epochs in front of the token say |
| EpochRest.EverythingCommits | src/libcore/Epoch.cpp:1339-1399 | when all uncommitted epochs have finished, the rule commits every one of them |
| EpochRest.OneOutcome | src/libcore/Epoch.cpp:1255-1306 | from a list at rest each event has one outcome |
| EpochRuns.WaitMayUnsettle | src/libcore/Epoch.cpp:1411-1436 | a list at rest is at rest after a thread starts to wait exactly if its epoch is not next in line with the token available and an instruction fetched |
| EpochRuns.WaitUnsettles | src/libcore/Epoch.cpp:1411-1436 | in a run of five events a list at rest is not at rest after the last one, a wait |
| EpochRuns.EveryRunCommitsInOrder | src/libcore/Epoch.cpp:1212-1399 | in every run only finished epochs have committed, everything behind the token holder has, and committed epochs stay while later ones join them in front, in clock order |
| EpochEffects.AdvanceExactly | src/libcore/Epoch.cpp:812-864 | an epoch that advances has the later of its own clock and the predecessor's with the distance and one, stands in front of the predecessor, and the others keep their order |
| EpochEffects.StartExactly | src/libcore/Epoch.cpp:935-971 | a new thread's first epoch is later than the parent by its distance and one and stands in front of it; without a parent it has the clock at the token |
| EpochEffects.ChangeExactly | src/libcore/Epoch.h:945-958 | the epoch is completed, and a new one of its thread, one later, stands in front of it |
| EpochEffects.ExecExactly | src/libcore/Epoch.h:1764-1783 | executing counts, and exactly the instruction that reaches the limit, of a running epoch that is not atomic, ends the epoch |
| EpochEffects.EndAtomicExactly | src/libcore/Epoch.cpp:1133-1172 | exactly the end of the outermost section ends the epoch, and leaves it in none |
| EpochEffects.OthersExactly | src/libcore/Epoch.h:1751-1798 | fetching, retiring, completing and entering a section change one record of the epoch, waiting and going on change the waiting threads |
| EpochEffects.CommitExactly | src/libcore/Epoch.cpp:1339-1399 | the holder commits exactly if it has completed and all its instructions have retired; the oldest epoch of its thread in front of it becomes ThreadSafe and no other changes |
| EpochEffects.TakeExactly | src/libcore/Epoch.cpp:1263-1325 | an epoch whose thread does not wait takes the token exactly if it is ThreadSafe, not atomic, and has executed |
| EpochEffects.DeferExactly | src/libcore/Epoch.cpp:1283-1300 | a waiting epoch gets a clock one later than the last active epoch in front of the token and goes past it |
| EpochEffects.StaysExactly | src/libcore/Epoch.cpp:1263-1300 | it stays where nobody is active, or if it is not ThreadSafe or has no instruction |
| EpochEffects.AtRestExactly | src/libcore/Epoch.cpp:1263-1352 | at rest means that a turn changes nothing and nobody waits in vain for an active epoch |
| EpochCommit.EpochList.FindPos | src/libcore/Epoch.h:465-476 | both directions of the search find the epoch's rank |
| EpochCommit.EpochList.Splice | src/libcore/Epoch.cpp:847-857 | the epoch goes exactly past those with older clocks |
| EpochCommit.EpochList.TryGlobalSave | src/libcore/Epoch.cpp:1263-1306 | the chain of calls ends in the state that the rule gives, at rest if the epoch was next in line |
| EpochCommit.EpochList.Defer | src/libcore/Epoch.cpp:1283-1293 | the search finds an active epoch, and the waiting one goes past the nearest |
| EpochCommit.EpochList.GlobalSave | src/libcore/Epoch.cpp:1308-1337 | the epoch next in line holds the token, and then the rule is followed to rest |
| EpochCommit.EpochList.TryCommit | src/libcore/Epoch.cpp:1339-1352 | the holder commits if it has finished, and only then, and the rule is followed to rest |
| EpochCommit.EpochList.Commit | src/libcore/Epoch.cpp:1354-1399 | exactly the finished holder commits and the next epoch of its thread becomes ThreadSafe, and the rule is followed to rest |
| EpochCommit.EpochList.AdvanceClock | src/libcore/Epoch.cpp:812-864 | the epoch has the later clock and stands where it belongs, as AdvanceExactly spells out, and the rule is followed if the one that stood in front of it is next |
| EpochCommit.EpochList.SpawnSuccessor | src/libcore/Epoch.cpp:972-998 | the successor stands at its rank, nothing else changes |
| EpochCommit.EpochList.ChangeEpoch | src/libcore/Epoch.h:945-958 | the successor is there, the epoch is completed, and the rule is followed |
| EpochCommit.EpochList.StartThread | src/libcore/Epoch.cpp:935-971 | the first epoch of a thread, with a parent or without, stands ThreadSafe at its rank, as StartExactly spells out, and a list at rest stays so |
| EpochCommit.EpochList.PendInstr | src/libcore/Epoch.h:1751-1755 | a fetched instruction is counted, which lets nobody go on |
| EpochCommit.EpochList.ExecInstr | src/libcore/Epoch.h:1764-1783 | an executed instruction is counted; with the last one the thread goes on in a new epoch, and after that or the first one the rule is followed |
| EpochCommit.EpochList.DoneInstr | src/libcore/Epoch.h:1784-1798 | a retired instruction is counted, and the rule is followed if the epoch has completed |
| EpochCommit.EpochList.Complete | src/libcore/Epoch.cpp:1212-1252 | the epoch is completed, and the rule is followed if it is next in line or holds the token |
| EpochCommit.EpochList.BeginAtomic | src/libcore/Epoch.cpp:1069-1094 | the epoch is in one more atomic section, and a list at rest stays so |
| EpochCommit.EpochList.EndAtomic | src/libcore/Epoch.cpp:1133-1172 | the epoch is in one atomic section less; after the outermost its thread goes on in a new epoch, and the rule is followed |
| EpochCommit.EpochList.Wait | src/libcore/Epoch.cpp:1411-1436 | the thread waits, nothing is tried, and it is said exactly when the list is still at rest |
| EpochCommit.EpochList.Proceed | src/libcore/Epoch.cpp:1449-1458 | the thread no longer waits, and a list at rest stays so |
| Scheduling.GuaranteeMeans | src/libcore/RunningProcs.cpp:200-267 | the guarantee in full: no idle core that a ready process could use, no worse process on one |
| Scheduling.EvictKeepsGuarantee | src/libcore/RunningProcs.cpp:231-239 | taking the core of a worse process keeps the guarantee for all others |
| Scheduler.VictimIsWorst | src/libcore/ProcessId.cpp:80-119 | the victim is the worst process that could be evicted |
| Scheduler.RunningProcs.FindPosition | src/libcore/ProcessId.cpp:80-119 | the scan from the end finds the end of the priority group and the victim |
| Scheduler.RunningProcs.QueueInsert | src/libcore/ProcessId.h:155-162 | first come, first served within a priority |
| Scheduler.RunningProcs.QueueGet | src/libcore/ProcessId.cpp:61-78 | the first in the queue that waits and may use the core, and so the best and the earliest of the best, or none if there is none |
| Scheduler.RunningProcs.AvailableProcessor | src/libcore/RunningProcs.cpp:325-353 | an idle core, or none if there is none |
| Scheduler.RunningProcs.MakeRunnable | src/libcore/RunningProcs.cpp:200-243 | the steps that SchedulerSteps spells out, along a chain of evictions that ends and restores the guarantee; no process is lost, busy cores stay busy, pinned processes keep their core, and whoever runs and may not migrate is pinned |
| Scheduler.RunningProcs.MakeNonRunnable | src/libcore/RunningProcs.cpp:245-267 | the freed core goes to the first that waits for it, everything else stays, the guarantee holds, and whoever runs and may not migrate is pinned |
| Scheduler.OthersGoOn | src/libcore/RunningProcs.cpp:245-267 | the other running processes keep their cores |
| SchedulerSteps.PreferredFirst | src/libcore/RunningProcs.cpp:200-218 | a process whose preferred core is idle runs there |
| SchedulerSteps.AnyIdleNext | src/libcore/RunningProcs.cpp:219-229 | one that is not pinned, and whose preferred core is not idle, runs on another idle core |
| SchedulerSteps.WorstLoses | src/libcore/RunningProcs.cpp:230-243 | one without an idle core takes that of the worst process it may evict, of equals the last in the queue, which then looks for another core |
| SchedulerSteps.Waits | src/libcore/RunningProcs.cpp:230-243 | it waits if there is nobody to evict |
| SchedulerSteps.WithdrawnExactly | src/libcore/RunningProcs.cpp:245-267 | the withdrawn process leaves queue and core, and the core goes to the first that is ready and may use it |
| SchedulerSteps.NeverMigrates | src/libcore/ProcessId.h:287-295 | in every run a process that may not migrate never runs on two cores |
| Dataflow.UsedSlotIsListedOnce | src/libcore/DInst.h:301-345 | a used slot is in the list of exactly one older, unexecuted instruction: its producer |
| Dataflow.ProducerExactly | src/libcore/Processor.cpp:246-257 | a slot's producer is the youngest older writer of its source, or for the second slot the memory dependence if there is one |
| Dataflow.SelectedAfterProducers | src/libcore/DepWindow.cpp:100-112 | an instruction is selected only after all it depends on have executed |
| Dataflow.OldestIsSelected | src/libcore/DInst.h:385-388 | the oldest unexecuted instruction has no pending dependence and has been selected once |
| Dataflow.LinkIsSound | src/libcore/Processor.cpp:246-257 | linking a slot of a new instruction keeps lists and slots right |
| Dataflow.PopKeepsDraining | src/libcore/DInst.h:285-299 | taking the first dependent off a list keeps lists, slots and counts right |
| Window.Core.AddInst | src/libcore/Processor.cpp:231-270 | an instruction is issued, at the end of the buffer with its dependences and a register, exactly if the core does not stall; otherwise nothing changes |
| Window.Core.CanIssue | src/libcore/GProcessor.cpp:263-305 | the core stalls for want of order, of room or of registers, each exactly under its condition, and issues exactly if there is none and nobody refuses |
| Window.Core.Executed | src/libcore/DepWindow.cpp:180-290 | exactly those are woken, in program order, whose last dependence this was; the RAT forgets an executed youngest writer |
| Window.Core.Retire | src/libcore/GProcessor.cpp:481-504 | retirement is in order and stops at the first instruction that cannot go; pools are conserved |
| Window.RatIsProducer | src/libcore/Processor.cpp:246-260 | the RAT entry is the slot's producer, unless that has executed |
| Barrier.StepKeepsSound | src/libapp/sesc_locks.c:120-150 | every atomic step of every thread keeps the barrier's invariant |
| Barrier.CountIsArrivals | src/libapp/sesc_locks.c:132-139 | the counter says how many have arrived in this round, so it is clear again before the next |
| Barrier.NoDeadlock | src/libapp/sesc_locks.c:142-148 | some thread can always move |
| Barrier.EveryRunIsSafe | src/libapp/sesc_locks.c:107-150 | no thread leaves a round before all have arrived in it, for any number of threads, rounds and any schedule |
| Events.EventManager.ScheduleEventAbsolute | src/MemSys/EventManager.cpp:547-556 | the event is asked for last in its tick |
| Events.EventManager.CallNext | src/MemSys/StoredFunctionCall.h:133-150 | an event is called with the arguments it was scheduled with, what it asks for is scheduled in order, and its object waits nowhere afterwards and is in the pool unless that is full |
| Events.EventManager.ProcessTick | src/MemSys/EventManager.cpp:564-577 | a tick calls exactly what was scheduled for it, each once and in order, and exactly what its calls ask for is scheduled |
| Events.AskedInTick | src/MemSys/EventManager.cpp:547-577 | what a tick is asked for is what it was asked for before and then what the calls ask for with that delay, in order |
| Events.RequestsInOrder | src/MemSys/EventManager.cpp:547-577 | each request of each call is among those of its delay, behind exactly those of earlier calls and the earlier ones of its own call |
| Events.EveryRequestIsAsked | src/MemSys/EventManager.cpp:547-577 | each request of each call that was made has been scheduled for the tick it asks for |
| Events.EventManager.Take | src/MemSys/Pool.h:30-39 | an object from the pool neither waits nor is in the pool |
| Events.ReturnKeepsEntries | src/MemSys/Pool.h:40-64 | returning a called object leaves all waiting ones as they are |
| FetchPipeline.Pipeline.NewItem | src/libcore/Pipeline.h:112-127 | a bucket and a number, unless requests or buckets have run out |
| FetchPipeline.Pipeline.ReadyItem | src/libcore/Pipeline.cpp:118-138 | the bucket is now ready under its number, stamped and with all its instructions, and no other has changed; the smallest missing number is in flight, and buckets are conserved |
| FetchPipeline.Pipeline.CleanMark | src/libcore/Pipeline.cpp:100-116 | the same for a mark |
| FetchPipeline.Pipeline.NextItem | src/libcore/Pipeline.cpp:158-208 | uses up buckets from the front of the buffer, and hands out what the reference says |
| FetchPipeline.NextIsFirst | src/libcore/Pipeline.cpp:158-208 | the consumer gets the rest of the first bucket that is not a mark and not all wrong-path, once it is old enough |
| FetchPipeline.NextExactly | src/libcore/Pipeline.cpp:158-208 | with a clean mark outstanding a bucket loses exactly the wrong-path instructions at its front, and is skipped if it has no others; without one it is handed on whole; only old enough buckets are touched |
| FetchPipeline.NonEmptyInOrder | src/libcore/Pipeline.cpp:118-156 | buckets are handed on in the order of their numbers |
| FetchPipeline.NonEmptyIsAll | src/libcore/Pipeline.cpp:118-156 | exactly the empty ones are left out |
| Checkpoints.StoreKeepsChain | src/libcore/Checkpoint.cpp:313-319 | a store after logging its block changes nothing that rewinding restores |
| Checkpoints.RewindReachesStart | src/libcore/Checkpoint.cpp:391-398 | rewinding checkpoints one by one restores memory as at the start of the last |
| Checkpoints.CombinedRestores | src/libcore/Checkpoint.cpp:355-376 | rewinding the merged checkpoint is rewinding the newer and then the older |
| Checkpoints.MergeKeepsChain | src/libcore/Checkpoint.cpp:355-376 | merging anywhere in the list keeps every start reachable |
| Checkpoints.MergesExactly | src/libcore/Checkpoint.cpp:355-376 | the predecessor keeps its clock and its own blocks and takes over the others; no other checkpoint changes |
| Checkpoints.CheckpointLog.Store | src/libcore/Checkpoint.cpp:313-319 | a store into the checkpoint of an epoch's clock, logged first, keeps the starts of that and all older checkpoints; newer ones, which have logged nothing, start after it |
| Checkpoints.StoreKeepsChainAt | src/libcore/Checkpoint.cpp:313-349 | rewinding any number of checkpoints still leads to their starts |
| Checkpoints.CheckpointLog.Merge | src/libcore/Checkpoint.cpp:355-376 | the loop over the blocks keeps what the predecessor has |
| Checkpoints.CheckpointLog.Rewind | src/libcore/Checkpoint.cpp:246-257 | memory is again what it was when the checkpoint was made |
| Checkpoints.CheckpointLog.GetCheckpoint | src/libcore/Checkpoint.cpp:321-329 | the newest checkpoint that is not later than the epoch |
| Checkpoints.MergeIntoOrderList | src/libcore/Checkpoint.cpp:40-56 | the merged execution order is sorted, and at each clock has the epochs of both lists, those that were there first |
| Checkpoints.OneMergedOrder | src/libcore/Checkpoint.cpp:40-56 | there is exactly one such list |
| Configuration.RoundTrip | src/MemSys/Configuration.h:154-236 | every tree is read back from its text behind a tag, whatever its names and strings are |
| Configuration.FileRoundTrip | src/MemSys/MemorySystem.cpp:66-77 | so is a file that starts with what is printed |
| Configuration.NodesRoundTrip | src/MemSys/Configuration.h:192-235 | the same for the rest of a list of sub-nodes |
| Configuration.ReadsInt | src/MemSys/Configuration.h:64-71 | every printed number is read back |
| Configuration.ReadsDecimal | src/MemSys/Configuration.h:64-71 | numbers are decimals |
| Configuration.PrintedTree | src/MemSys/Configuration.h:154-177 | what a tree within a tree looks like as text |
| Configuration.SkipsExactly | src/MemSys/Configuration.h:179-236 | all space in front of a word is skipped, and nothing else |
| Configuration.ReadsWordAfter | src/MemSys/Configuration.h:179-236 | a word is read after any number of spaces, and up to the next |
| Configuration.Load | src/MemSys/Configuration.h:179-236 | the loop over the sub-nodes is the reader on values |

## Left out

- Statistics, energy, traces, logging, reports, command lines, checkpoint files and scripts do not affect the state machines.
- MemBuffers.MemBuffer: entries are records in the domain's sequence, and the index of a version is the set of its chunks, whose entries are found by key; pooling of entries is not modelled.
- MemBuffers.MemBuffer.PostWrite: takes any byte mask within a chunk instead of computing it from the access flags, and does not model SILENT_STORE; the chunk numbers 0 and 0xFFFFFFFF belong to the junk entries, as in the source.
- Killing versions is destroying the buffers of a version and all younger ones; who does so, and task restart, is not part of this model.
- SpeculativeRuns.EveryRunIsSequential: versions are numbers; that their comparison is stable is what the version order proves.
- HVersions.HVersionDomain: numbers are unbounded, `duplicate`, `restart`, safe tokens and the FULL_CLAIM variant are not modelled, and the spawn predictor chooses any of the coded divisors.
- EpochBlocks.BlockVersions: blocks are named by their epochs; version counts per thread and requests to merge old versions are not modelled.
- EpochBlocks.BlockVersions.FindReadConflicts: the write masks and the merged blocks are parameters; conflict lists for writes, which only report races, are left out.
- EpochBlocks.BlockVersions.MergeBlock: works on one chunk; vector clocks, the log of the checkpoint and the removal of merged blocks are left out.
- EpochCommit.EpochList: squash, replay, race detection, merge holds, call logs and vector clocks are left out, and epochs are not destroyed (the source has this disabled); an epoch's own records are updated in the list.
- EpochCommit.EpochList.TryGlobalSave: requires, where the epoch is next in line, that the rule comes to rest, which is what the source asserts at Epoch.cpp:1290; so do the other calls that lead there.
- EpochCommit.EpochList.ExecInstr: all epochs have the same instruction limit, as they do outside replay.
- EpochCommit.EpochList.DoneInstr: requires that an executed instruction is left to retire, where the source asserts one fewer.
- EpochCommit.EpochList.Wait: an epoch that starts to wait before it is ThreadSafe, and whose thread is counted as waiting only then, is left out.
- Scheduler.RunningProcs: each core runs one process at a time, so the multiset of available processors is the set of idle cores; the working list, yields, priority changes and `sysconf` are left out.
- Window.Core: clusters, ports and latencies are left out, wake-up times with them; so are wrong-path, killed and replayed instructions and dependences between processors. Instructions are numbered in program order instead of being recycled objects, and the lists through their slots are sequences.
- Barrier: semaphores, flags, locks and the suspending variants are left out; the memory is sequentially consistent.
- Events.EventManager: a tick is finite because the calls that ask for more events are; events that are not pooled, and the pool of bucket containers, are left out.
- FetchPipeline.Pipeline: buckets are records, of which the pools hold the addresses; filling a bucket is the fetch engine's part, and `received` is a map by number instead of a heap; how many buckets the consumer holds is tracked, which ones is not.
- Checkpoints.CheckpointLog: addresses count words; start and merge positions of the execution orders and thread contexts are left out, and so is `rollback`, whose loop never moves on to the next checkpoint.
- Configuration.RoundTrip: reals lose digits when printed, and sets carry the tags of scalars, so neither is read back as it was; they are left out. A read that fails ends the load here, where the program goes on with the words it has.
- Branch prediction, signatures, caches, directories and ports are not part of this model.
