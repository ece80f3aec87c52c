# Model of the KV-cache CPU offload stack

This project models, in Dafny, the CPU offload tier of the patched vLLM sources and
the parts of the scheduler that feed it, and proves what the code relies on but does
not check.

| files | what they model |
|---|---|
| `Sequences`, `Blocks`, `Arithmetic` | ordered dictionaries as sequences without repetition, block records, facts about rows and remainders |
| `Lru`, `Arc`, `CachePolicies` | the two eviction policies and the interface the manager uses |
| `SlotPool`, `CpuManager`, `Tombstones` | reference counts, slots, counters and the store, load and eviction operations of the CPU tier, and the registry of what it evicted |
| `Claims`, `RequestLog`, `TieringState`, `Outcomes`, `Tiering` | the tiering manager: who reads and who writes each block, deadlines, late reports and failed promotions, what tiers hear of a request |
| `CopyEngine`, `SwapDispatcher` | memory as bytes, and the dispatcher that survives a driver which rejects batches after doing part of them |
| `Registration`, `Layout`, `Seams` | registered ranges, the division of the shared region, and when ranges cut cells |
| `Addressing`, `Canonical`, `Transfers` | descriptors of transfers: addresses, the direct and the shared (canonical) fill, all groups |
| `RoundTrip`, `SharedPages`, `SharedExample` | store-then-load for both layouts, and a small job of two ranks |
| `MambaSplit`, `RunningLoop`, `AsyncTokens`, `DeferredFree` | four pieces of the scheduler |
| `HybridHit` | the hybrid cache-hit search |
| `RegionProtocol` | ranks that create or join the backing file |

Objects the source updates in place are classes with the same fields (a `dict` is a
`map`, an `OrderedDict` a `seq` without repetition, a fixed buffer an array); code that
only computes is functions. The replies and reports of tiers, the clock, the driver's
answers and the free space of the GPU cache are arguments or arbitrary values, so every
theorem holds for all of them. `hide` statements only keep definitions out of a proof.

## What the code does not do

Where the code does less than its documentation, tests or neighbours expect, the model
keeps the code, gives an input, and states exactly when the expectation is met:

- ARC may refuse an eviction although enough idle blocks exist, because T1 blocks below
  the target are out of reach (`Arc.FailsThoughEnoughIdle`, `Arc.RefusalExample`); the
  interface promises to fail only when the evictions cannot be satisfied.
- With a lookup threshold, a store protects only the keys that pass it, so an idle block
  named in the store can be evicted for it (`CpuManager.NamedBlocksSafeIff`,
  `CpuManager.NamedBlockEvicted`).
- Completing a load or a store lists its blocks in the order of the call, which the
  connector takes from a set, so a later eviction may take a shallow block of a chain and
  leave a deep one (`Lru.CompletionKeepsChainIff`, `Lru.ShallowBlockFirst`).
- A key named twice in one store loses a slot (`SlotPool.ReserveKeepsPartitionIff`).
- A store taken back by its deadline stays pending, so its request is only over once it
  completes after all (`RequestLog.PendingStoreKeepsRequest`), and that completion is
  harmless only under a condition the code does not check
  (`Claims.LateStoreHarmlessIff`, `Claims.LateStoreCascadesIff`); under it the whole
  invariant survives (`Tiering.TieringManager.CompleteStore`).
- Row alignment of the registered chunks is skipped for rows that are not whole huge
  pages, and then a page can cross a seam, unless all seams happen to fall between cells
  (`Seams.CellsNeverStraddleIff`, `Seams.UniformCellsAtEdges`, `Seams.PageStraddles`).
- The split at a seam recovers a copy that crosses one seam, not two
  (`SwapDispatcher.EntryMadeIff`); with chunks no shorter than a copy there is never a
  second one (`SwapDispatcher.NeverGivesUp`).
- Ranks are split between two files when the first creator of the huge page file fails
  and a later one succeeds (`RegionProtocol.NeverSplitIff`); for /dev/shm no condition is
  needed.
- A preemption that is to deliver the output in flight drops it, even that of newer steps,
  while output from before a preemption in drop mode is outstanding
  (`AsyncTokens.DiscardedIff`, `AsyncTokens.NewerOutputDroppedToo`).
- Of several kinds of full attention only the first is cut to the final hit
  (`HybridHit.HybridCoordinator.ExtraFullGroupExactIff`, `HybridHit.ExtraFullGroupExample`).

## What callers must do

The `requires` clauses name what the source demands: the keys of one call differ; a
loaded block was reported readable; a load or store completes once, with the keys it was
prepared with, in any order; a store that was taken back completes while none of its
keys is being written and, if it succeeded, all are held (what happens otherwise is
stated in `Claims`); tiers report a job they run, once, and name only its keys; a
request is announced again only while it waits for no store and is not over; a running
request has not computed more than it has and stays within the model length; source and
destination bytes of one list of copies do not overlap; outputs arrive in the order of
their steps.

## Model

| member | source | states |
|---|---|---|
| `Claims.BlockClaims` | patched-files/v1/kv_offload/tiering/manager.py:385-448 | In every state the manager keeps: a readable block's count is its outstanding GPU loads plus the jobs reading it for a tier; a block at -1 has exactly one writer (live GPU store, queued promotion, or promotion job) and no reader; a key that is not held is in no transfer |
| `Claims.LoadStarts` | patched-files/v1/kv_offload/cpu/manager.py:238-255 | Pinning readable keys for a load keeps the claims in step with the counts |
| `Claims.LoadEnds` | patched-files/v1/kv_offload/cpu/manager.py:261-271 | The keys of an outstanding load are held with a positive count, and unpinning them keeps the claims in step |
| `Claims.CascadeStarts` | patched-files/v1/kv_offload/tiering/manager.py:958-984 | A transfer to a tier pins its readable blocks under a new id and keeps the claims in step |
| `Claims.CascadeEnds` | patched-files/v1/kv_offload/tiering/manager.py:433-439 | The blocks of a transfer to a tier are still held and pinned when it ends; the claims stay in step |
| `Claims.StoreStarts` | patched-files/v1/kv_offload/tiering/manager.py:848-866 | Reserving slots for a store from the GPU, after evicting idle blocks, gives its keys their one writer |
| `Claims.StoreEnds` | patched-files/v1/kv_offload/cpu/manager.py:441-482 | The keys of a live store are all at -1 when it ends, with success or without, and nothing else changes its claims |
| `Claims.PromotionQueued` | patched-files/v1/kv_offload/tiering/manager.py:683-731 | A queued promotion becomes the one writer of its block, and the queue entry names the slot the block owns |
| `Claims.PromotionSubmitted` | patched-files/v1/kv_offload/tiering/manager.py:733-756 | A queue entry becomes a job: the writers stay the same |
| `Claims.PromotionEnds` | patched-files/v1/kv_offload/tiering/manager.py:336-383 | Of a promotion that ends, the keys that arrived become readable, the others disappear, whatever part arrived |
| `Claims.LateStoreHarmlessIff` | patched-files/v1/kv_offload/tiering/manager.py:930-938 | Completing a store that was taken back before keeps the claims exactly when none of its keys is being written again |
| `Claims.LateStoreCascadesIff` | patched-files/v1/kv_offload/tiering/manager.py:940-948 | The cascade after such a late completion finds its blocks readable exactly when the tier holds them all; otherwise it stops on an assertion |
| `Claims.LateStoreExample` | patched-files/v1/kv_offload/tiering/manager.py:519-564 | A concrete state, with a store that was taken back, in which its late completion makes a block readable while its promotion still writes it |
| `TieringState.LateStoreEnds` | patched-files/v1/kv_offload/tiering/manager.py:930-938 | A completion of a store that was taken back, none of whose keys is being written, changes no block and keeps every claim |
| `TieringState.UnwrittenUnarmed` | patched-files/v1/kv_offload/tiering/manager.py:932-938 | A key that nobody writes has no deadline and no owner left to take away |
| `Tiering.TieringManager.constructor` | patched-files/v1/kv_offload/tiering/manager.py:194-300 | A new manager over an empty tier meets the whole invariant |
| `Tiering.TieringManager.CompletePromotion` | patched-files/v1/kv_offload/tiering/manager.py:336-383 | Key by key: on success, or if the report names it, a key of the promotion is readable with no reader in the slot it was read into and may be promoted again; otherwise it is gone and suppressed until the failure time has passed |
| `Tiering.TieringManager.CompleteCascade` | patched-files/v1/kv_offload/tiering/manager.py:433-439 | Each block of a finished transfer loses one reader |
| `Outcomes.ArrivalTold` | patched-files/v1/kv_offload/tiering/manager.py:336-383 | What a report makes of the table and of the failure notes means, for each key of the promotion, that it arrived or failed |
| `Outcomes.PromotionAlone` | patched-files/v1/kv_offload/tiering/manager.py:733-756 | A promotion under way is the only transfer of its keys: no other job and no live store names one |
| `Outcomes.ReportsTell` | patched-files/v1/kv_offload/tiering/manager.py:396-439 | Among the reports of a poll each promotion ends as its own report says: reports of other jobs leave its keys alone |
| `Outcomes.PollTells` | patched-files/v1/kv_offload/tiering/manager.py:385-448 | So does a whole poll: what it takes back afterwards belongs to other jobs and stores |
| `Outcomes.SilencedUntil` | patched-files/v1/kv_offload/tiering/manager.py:565-658 | From failure to lookup: the keys of a failed promotion are suppressed up to the failure time and not from then on, other keys as before |
| `Tiering.TieringManager.ReportOne` | patched-files/v1/kv_offload/tiering/manager.py:397-439 | One report has the stated effect, for a promotion key by key; a report of a job taken back only forgets its id |
| `Tiering.TieringManager.ConsumeReports` | patched-files/v1/kv_offload/tiering/manager.py:396-439 | Reports of different jobs, in their order, have exactly their combined effect: each reported promotion ends for each of its keys as its own report says, whatever the others do, and afterwards none of the ids is known |
| `Tiering.TieringManager.ExpireOne` | patched-files/v1/kv_offload/tiering/manager.py:471-492 | A promotion taken back: its blocks are gone, its keys suppressed, its id kept for the flush |
| `Tiering.TieringManager.ExpireStalePromotions` | patched-files/v1/kv_offload/tiering/manager.py:450-492 | Exactly the promotions older than the limit are taken back, with their blocks and keys; a limit of 0 takes back none |
| `TieringState.OverdueIsOneStore` | patched-files/v1/kv_offload/tiering/manager.py:535-550 | The overdue keys under one batch id are all the keys of one live store |
| `Tiering.TieringManager.TakeBackStoreOf` | patched-files/v1/kv_offload/tiering/manager.py:535-564 | All overdue keys of one batch id are taken back together |
| `Tiering.TieringManager.ExpireStaleStorePends` | patched-files/v1/kv_offload/tiering/manager.py:519-564 | Exactly the keys past their deadline are disarmed and their blocks freed, their batch ids are kept for the flush, and the stores stay pending |
| `Tiering.TieringManager.ProcessFinishedJobs` | patched-files/v1/kv_offload/tiering/manager.py:385-448 | A poll, told for each key: a reported promotion ends as its report says, one under way for longer than the limit fails for all its keys, a store past its deadline loses its blocks, and no other job goes; reports come first, then wedged promotions, then overdue stores |
| `Tiering.TieringManager.MaybeProcessFinishedJobs` | patched-files/v1/kv_offload/tiering/manager.py:323-334 | The first poll of a step processes, with the outcome for each key as above; later ones change nothing |
| `Tiering.TieringManager.InitiatePromotion` | patched-files/v1/kv_offload/tiering/manager.py:683-731 | Exactly with a free slot, or one that an idle block within the reach of the policy can give, the key becomes a block at -1 queued with its slot, and at most that one idle block is lost; otherwise nothing changes |
| `Tiering.TieringManager.AskTiers` | patched-files/v1/kv_offload/tiering/manager.py:626-664 | The first asked tier that has the block, none while its promotion is suppressed, and whether some tier asks to come again |
| `Outcomes.SlotDecides` | patched-files/v1/kv_offload/tiering/manager.py:706-715 | One block more is refused exactly when no slot is free and the policy can reach no idle block |
| `Tiering.TieringManager.LookupNow` | patched-files/v1/kv_offload/tiering/manager.py:617-681 | A key whose promotion failed and whose time has not come starts none; one without such a note, or whose time has come, is promoted from the first asked tier that has it, exactly when there is a slot; every other lookup changes nothing. Which answer is given in each case |
| `Tiering.TieringManager.Lookup` | patched-files/v1/kv_offload/tiering/manager.py:582-681 | The same across the whole call, on the blocks and suppressed keys the poll leaves: the answer describes the block as it is on return |
| `Tiering.TieringManager.FlushPendingPromotions` | patched-files/v1/kv_offload/tiering/manager.py:733-756 | Every queue entry becomes one job of its own with the same keys and slots, under way from now on, earlier jobs stay, and the queue is empty |
| `Tiering.TieringManager.SubmitPromotion` | patched-files/v1/kv_offload/tiering/manager.py:744-755 | A queue entry becomes one job under an unused id, with its keys and slots |
| `Tiering.TieringManager.ScheduleEndFlush` | patched-files/v1/kv_offload/tiering/manager.py:1070-1076 | The end of a step submits all queued promotions and lets the next step poll again |
| `Tiering.TieringManager.OnScheduleEnd` | patched-files/v1/kv_offload/tiering/manager.py:1055-1076 | The whole end of a step: the last poll unless the step was polled, with its outcome for each key, then the flush; every promotion that waited is a job of its own, and the jobs the poll leaves stay |
| `Tiering.TieringManager.PrepareLoad` | patched-files/v1/kv_offload/tiering/manager.py:758-778 | A load gets the slots of its blocks and is noted as a claim |
| `Tiering.TieringManager.CompleteLoad` | patched-files/v1/kv_offload/tiering/manager.py:793-805 | A completed load gives its claims back |
| `Tiering.TieringManager.CreateStoreJob` | patched-files/v1/kv_offload/tiering/manager.py:958-984 | A job with an unused id, over the slots its keys own |
| `Tiering.TieringManager.CascadeToAll` | patched-files/v1/kv_offload/tiering/manager.py:940-948 | After a store every tier, in order, gets exactly one new job, for its blocks, and the blocks one reader for each |
| `Tiering.TieringManager.CascadeExisting` | patched-files/v1/kv_offload/tiering/manager.py:868-903 | Readable blocks that are there already go in one new job to each tier that wants whole requests, and to no other |
| `Tiering.TieringManager.ReserveForStore` | patched-files/v1/kv_offload/tiering/manager.py:842-866 | The missing keys and no others are reserved, the request waits for one store more, and each of its keys is armed with the deadline; exactly when it is refused and how many blocks go |
| `Tiering.TieringManager.PrepareStore` | patched-files/v1/kv_offload/tiering/manager.py:808-878 | Across the whole call: a refusal leaves blocks, jobs and tiers as the poll left them, and comes exactly when slots are short and more than the call cap, than the idle blocks not named, or, under ARC, than those without T1 below the target; otherwise exactly the missing keys are reserved, as many idle blocks as slots are short are lost, none that the store names, and readable blocks go to the tiers that want whole requests |
| `TieringState.RoomIs` | patched-files/v1/kv_offload/cpu/manager.py:296-337 | What the tier decides from can be told from its table, the idle blocks and, under ARC, the size of T1, the target and the idle blocks of T2 |
| `TieringState.RoomSince` | patched-files/v1/kv_offload/tiering/manager.py:323-334 | A poll only takes blocks out of ARC's lists, so that condition can be told from the lists before it |
| `Tiering.TieringManager.EndStore` | patched-files/v1/kv_offload/tiering/manager.py:930-938 | The writes of a store end, in time or late, and exactly its keys are disarmed; a late end under the condition of `Claims.LateStoreHarmlessIff` changes no block |
| `Tiering.TieringManager.CompleteStore` | patched-files/v1/kv_offload/tiering/manager.py:905-956 | Blocks, jobs and transfers to the tiers, and whether the request is over, after a store completes, its keys in any order; a store that was taken back completes too, under the condition of `Claims.LateStoreHarmlessIff` and `Claims.LateStoreCascadesIff`, and its request waits for one store less |
| `Tiering.TieringManager.MaybeFinalize` | patched-files/v1/kv_offload/tiering/manager.py:1030-1052 | The tiers are told once, and only when the request is finished and waits for no store |
| `Tiering.TieringManager.OnNewRequest` | patched-files/v1/kv_offload/tiering/manager.py:987-1016 | Which tiers want whole requests; the excluded one is not asked. A request may be announced again while it waits for no store and is not over |
| `Tiering.TieringManager.OnRequestFinished` | patched-files/v1/kv_offload/tiering/manager.py:1019-1028 | A finished request is over at once or stays until its last store completes |
| `Tiering.TieringManager.DrainFlushJobIds` | patched-files/v1/kv_offload/tiering/manager.py:494-517 | All ids taken back are handed over once and stay known for 600 seconds; older ones stay exactly until their time |
| `Tiering.TieringManager.ResetCache` | patched-files/v1/kv_offload/tiering/manager.py:1105-1150 | After the tiers have drained nothing is left behind, the finished requests are over with every tier, and the others stay with no store pending |
| `RequestLog.RequestEnds` | patched-files/v1/kv_offload/tiering/manager.py:1040-1052 | Telling the tiers that a request is over keeps: at most one notice for each tier, and no store of the request after it |
| `RequestLog.RequestStartsIff` | patched-files/v1/kv_offload/tiering/manager.py:1009 | Announcing a request keeps the pending counts and the order of notices exactly when none of its stores is pending and no tier was told that it is over |
| `RequestLog.StorePrepared` | patched-files/v1/kv_offload/tiering/manager.py:850-852 | Preparing a store raises the pending count of its request in step with the stores under way |
| `RequestLog.StoreTakenBack` | patched-files/v1/kv_offload/tiering/manager.py:519-564 | Taking a store back by its deadline leaves its request waiting |
| `RequestLog.StoreSubmitted` | patched-files/v1/kv_offload/tiering/manager.py:945-948 | A store may be submitted for every active request without breaking that order |
| `RequestLog.PendingStoreKeepsRequest` | patched-files/v1/kv_offload/tiering/manager.py:850-852 | As long as a prepared store is not completed no tier was told that the request is over; a store taken back counts as pending |
| `RequestLog.StoreCompleted` | patched-files/v1/kv_offload/tiering/manager.py:950-956 | The pending count of a request is the number of its prepared, not completed stores |
| `RequestLog.StoresForgotten` | patched-files/v1/kv_offload/tiering/manager.py:1131-1145 | A reset forgets the pending stores and makes exactly the finished requests ready to be over |
| `TieringState.SameReady` | patched-files/v1/kv_offload/tiering/manager.py:868-878 | The blocks a store finds readable after its reservation are those that were readable before |
| `CpuManager.TrackedValid` | patched-files/v1/kv_offload/cpu/manager.py:221-236 | The lookup tracker stays bounded and without repetition, and counts the looked up key once more |
| `CpuManager.TrackedOthers` | patched-files/v1/kv_offload/cpu/manager.py:221-236 | The tracker keeps the counts of the other keys in their order of last use; only a new key makes a full one forget a key, its oldest |
| `CpuManager.CpuOffloadingManager.Lookup` | patched-files/v1/kv_offload/cpu/manager.py:221-236 | Miss, pending or hit from the block's count |
| `CpuManager.CpuOffloadingManager.Touch` | patched-files/v1/kv_offload/cpu/manager.py:257-258 | The policy has seen the uses, and no block has changed |
| `CpuManager.CpuOffloadingManager.PrepareLoad` | patched-files/v1/kv_offload/cpu/manager.py:238-255 | Each key gets one reader more, and the slots are those of the blocks |
| `CpuManager.CpuOffloadingManager.CompleteLoad` | patched-files/v1/kv_offload/cpu/manager.py:261-271 | Each key loses one reader, and the ones that lose their last join the recent end of LRU's list in the order of the call |
| `CpuManager.CpuOffloadingManager.PrepareStore` | patched-files/v1/kv_offload/cpu/manager.py:274-388 | All or nothing: exactly when the store is refused, with the tier unchanged; otherwise each missing key has its own slot, after evicting exactly what was short, the victims the policy picks (under LRU `WouldEvict`), idle blocks only, none that counts for the store, never above the call cap |
| `CpuManager.CpuOffloadingManager.MakeRoom` | patched-files/v1/kv_offload/cpu/manager.py:296-337 | Exactly when room cannot be made, and what is evicted when it can |
| `CpuManager.CpuOffloadingManager.Allocate` | patched-files/v1/kv_offload/cpu/manager.py:188-202 | Fresh slots first, then freed ones: all different, and the pool stays whole |
| `CpuManager.CpuOffloadingManager.Reserve` | patched-files/v1/kv_offload/cpu/manager.py:372-379 | Each key gets a block at -1 on its own slot |
| `CpuManager.CpuOffloadingManager.CompleteStore` | patched-files/v1/kv_offload/cpu/manager.py:441-482 | Blocks being written become readable or disappear; all others stay; under LRU the ones that become readable join the list in the order of the call |
| `CpuManager.CpuOffloadingManager.ResetCache` | patched-files/v1/kv_offload/cpu/manager.py:484-522 | An empty tier with no slot carved |
| `CpuManager.NamedBlocksSafeIff` | patched-files/v1/kv_offload/cpu/manager.py:281-327 | Under LRU, whatever number of slots a store is short of, no block it names is among its victims exactly when every idle block it names passes the lookup threshold |
| `CpuManager.NamedBlockEvicted` | patched-files/v1/kv_offload/cpu/manager.py:221-236 | The calls on a manager built from empty: a store of two keys with a threshold of 2 evicts one of the two |
| `Tombstones.EvictionTombstones.Record` | patched-files/v1/kv_offload/cpu/manager.py:411-431 | Evicted hashes are added once, the oldest age out at the capacity, and every one that does is counted |
| `Tombstones.EvictionTombstones.Forget` | patched-files/v1/kv_offload/cpu/manager.py:466-472 | Blocks stored again leave the registry, the others keep their order |
| `Tombstones.NewOnesAre` | patched-files/v1/kv_offload/cpu/manager.py:411-431 | Of evictions of different new blocks the registry holds the latest, in order, as many as it has room for |
| `Tombstones.ListedOnesStay` | patched-files/v1/kv_offload/cpu/manager.py:411-431 | Evictions of blocks that are in the registry change nothing, not even its order |
| `Tombstones.EntryStays` | patched-files/v1/kv_offload/cpu/manager.py:411-431 | An entry with i older ones survives any i further evictions |
| `Tombstones.RecordedTier.PrepareStore` | patched-files/v1/kv_offload/cpu/manager.py:346-352 | What a store evicts is recorded; no readable block counts as evicted, unless it shares its hash with another key |
| `Tombstones.RecordedTier.CompleteStore` | patched-files/v1/kv_offload/cpu/manager.py:449-472 | The hashes of exactly the blocks that became readable are forgotten, which keeps that true |
| `SlotPool.FreeSize` | patched-files/v1/kv_offload/cpu/manager.py:188-202 | Free and carved slots tell how many blocks are held |
| `SlotPool.ReserveKeepsPartitionIff` | patched-files/v1/kv_offload/cpu/manager.py:188-202 | Live slots and the free list stay a partition exactly when the keys of a store differ |
| `SlotPool.DuplicateKeyLosesASlot` | patched-files/v1/kv_offload/cpu/manager.py:372-379 | A key named twice loses a slot |
| `SlotPool.EvictConsistent` | patched-files/v1/kv_offload/cpu/manager.py:332-337 | Evicted blocks give back their slots, and the counters stay the numbers of blocks at 0 and -1 |
| `SlotPool.RecountConsistent` | patched-files/v1/kv_offload/cpu/manager.py:238-271 | A change of one count keeps pool and counters in step |
| `SlotPool.RemoveConsistent` | patched-files/v1/kv_offload/cpu/manager.py:458-464 | A failed write frees its slot and lowers the write-pending counter |
| `SlotPool.ReserveConsistent` | patched-files/v1/kv_offload/cpu/manager.py:372-379 | A reservation raises the write-pending counter by the number of its keys |
| `CachePolicies.CachePolicy.Evict` | patched-files/v1/kv_offload/cpu/policies/base.py:70-82 | For both policies: exactly n idle, unprotected blocks, the ones its order picks, or no change at all |
| `Lru.LruCachePolicy.MarkEvictable` | patched-files/v1/kv_offload/cpu/policies/lru.py:86-91 | The key joins the recent end of the evictable list; one that is in it stays where it is |
| `Lru.LruCachePolicy.MarkNonEvictable` | patched-files/v1/kv_offload/cpu/policies/lru.py:93-95 | The key leaves the evictable list, the others keep their order |
| `CachePolicies.CachePolicy.Recount` | patched-files/v1/kv_offload/cpu/manager.py:238-271 | Under LRU the evictable list is exactly the blocks at 0, in the order in which they became so, across every change of a count |
| `CachePolicies.CachePolicy.Touch` | patched-files/v1/kv_offload/cpu/policies/base.py:60-67 | The order of either policy after a batch of uses, last key first: used keys are last in the order of their last use, and under ARC readable recent blocks have become frequent ones |
| `CachePolicies.LruRefusesWhenFew` | patched-files/v1/kv_offload/cpu/policies/lru.py:61-83 | LRU refuses exactly when too few idle blocks are unprotected |
| `Lru.LruCachePolicy.Evict` | patched-files/v1/kv_offload/cpu/policies/lru.py:61-83 | The n least recently used idle blocks outside the protected ones, or nothing |
| `Lru.LruCachePolicy.Candidates` | patched-files/v1/kv_offload/cpu/policies/lru.py:68-79 | The scan finds the first n unprotected keys of the list |
| `Lru.TouchedOrderIs` | patched-files/v1/kv_offload/cpu/policies/lru.py:43-48 | Touching moves exactly the idle keys, in the order of their last touch, behind all others |
| `Lru.TouchOrdersChain` | patched-files/v1/kv_offload/cpu/policies/lru.py:43-48 | Touching a chain puts deeper blocks in front of shallower ones, whatever was idle before |
| `Lru.RunKeepsChain` | patched-files/v1/kv_offload/cpu/policies/lru.py:61-95 | The idle blocks of a chain stay in that order across evictions, pins, stores and touches that do not name the chain, and completions that list a block while no shallower one is idle |
| `Lru.ListKeepsChainIff` | patched-files/v1/kv_offload/cpu/policies/lru.py:86-91 | A block of the chain that becomes idle again leaves the order right exactly when no shallower block is idle |
| `Lru.CompletionKeepsChainIff` | patched-files/v1/kv_offload/cpu/manager.py:261-271 | When a load or a store of the chain completes, its blocks are in order afterwards exactly when they complete deepest first |
| `Lru.ShallowBlockFirst` | patched-files/v1/kv_offload/cpu/manager.py:261-271 | Two runs that fail: completing shallow block first, and pinning only the deep block |
| `Lru.EvictionTakesSuffix` | patched-files/v1/kv_offload/cpu/policies/lru.py:61-83 | With an idle block of the chain an eviction takes every idle block deeper in it |
| `Lru.SurvivorsAreAPrefix` | patched-files/v1/kv_offload/cpu/policies/lru.py:43-83 | After a touch and any such run, what an eviction leaves of the idle blocks of a chain is a prefix of them; pinned blocks stay in any case |
| `Arc.ArcCachePolicy.Evict` | patched-files/v1/kv_offload/cpu/policies/arc.py:118-176 | Exactly the victims of the scan that restarts for each, ghosts trimmed to the capacity; None changes nothing |
| `Arc.ArcCachePolicy.Select` | patched-files/v1/kv_offload/cpu/policies/arc.py:126-160 | The two monotonic iterators pick what the closed form says |
| `Arc.RestartScanIs` | patched-files/v1/kv_offload/cpu/policies/arc.py:131-160 | The scan restarted for every victim has that closed form, so single pass and restart agree |
| `Arc.ScanFailsIff` | patched-files/v1/kv_offload/cpu/policies/arc.py:131-160 | The scan fails exactly when too few keys are eligible or more are asked for than T1 gives down to the target and T2 holds |
| `Arc.FailsThoughEnoughIdle` | patched-files/v1/kv_offload/cpu/policies/base.py:70-82 | For every state of the policy: the eviction fails although enough idle blocks are unprotected exactly when T1 blocks below the target are needed, and always when too few are |
| `Arc.RefusalExample` | patched-files/v1/kv_offload/cpu/policies/arc.py:142-156 | The calls on a policy built from empty: used ghosts move the target to three, and of four idle blocks two are evicted while three are refused |
| `Arc.ArcCachePolicy.Touch` | patched-files/v1/kv_offload/cpu/policies/arc.py:75-101 | Keys used last to first: readable blocks of T1 are in T2, in each list the used keys are last in the order of their last use behind the others in their old order, and the target moves by a fixed amount for each ghost hit, within 0 and the capacity |
| `Arc.ArcCachePolicy.TouchOne` | patched-files/v1/kv_offload/cpu/policies/arc.py:75-101 | A readable block of T1 goes to T2, one being written stays, every other key keeps its list; it is the most recent there and the others keep their order; a ghost of B1 raises the target by max(1, |B2| / |B1|) up to the capacity, one of B2 lowers it by max(1, |B1| / |B2|) down to 0 |
| `Arc.UsesInTurn` | patched-files/v1/kv_offload/cpu/policies/arc.py:75-101 | The same for a whole batch, in closed form, with keys that occur more than once |
| `Arc.UsedBlockStays` | patched-files/v1/kv_offload/cpu/policies/arc.py:75-156 | Calls on a policy built from empty: of three blocks the oldest, used once more, outlasts the next |
| `Arc.ArcCachePolicy.Insert` | patched-files/v1/kv_offload/cpu/policies/arc.py:64-67 | A new block is recent and no longer a ghost |
| `Arc.VictimsBecomeGhosts` | patched-files/v1/kv_offload/cpu/policies/arc.py:161-175 | Victims leave their list for the recent end of its ghosts, of which the oldest are dropped |
| `CopyEngine.OneValue` | patched-files/v1/kv_offload/cpu/gpu_worker.py:465-482 | A byte has the one value that is brought to it from bytes nothing overwrites, in whatever order copies run |
| `CopyEngine.RewriteStep` | patched-files/v1/kv_offload/cpu/gpu_worker.py:384-462 | Rewriting a span copy by copy repairs whatever a rejected batch left |
| `CopyEngine.TwoPieces` | patched-files/v1/kv_offload/cpu/gpu_worker.py:279-305 | A copy made in two pieces is the copy |
| `SwapDispatcher.SwapDiag.Dispatch` | patched-files/v1/kv_offload/cpu/gpu_worker.py:465-482 | If the call returns, memory is as after all copies in order, whatever the driver rejected and half did; it fails only when a copy was rejected in every way there is; without rejections exactly the full batches are submitted, and it becomes sticky exactly after one |
| `SwapDispatcher.SwapDiag.DispatchBatches` | patched-files/v1/kv_offload/cpu/gpu_worker.py:472-482 | Batch after batch, recovering where one is rejected: memory, calls and stickiness of all batches so far |
| `SwapDispatcher.SwapDiag.SubmitOrRecover` | patched-files/v1/kv_offload/cpu/gpu_worker.py:472-482 | One batch is either accepted as it is, or its whole span is recovered |
| `SwapDispatcher.SwapDiag.Recover` | patched-files/v1/kv_offload/cpu/gpu_worker.py:516-568 | Single copies are probed up to the first rejection, 48 at most; then the whole span is written again, memory is right and the dispatcher sticky |
| `SwapDispatcher.SwapDiag.RunPerEntry` | patched-files/v1/kv_offload/cpu/gpu_worker.py:384-462 | One copy at a time gives the in-order result; exactly the copies up to the first that no way helps are tried, each by its ways in order |
| `SwapDispatcher.SwapDiag.CopyEntry` | patched-files/v1/kv_offload/cpu/gpu_worker.py:384-450 | Default, explicit and split submission are tried in this order, each only where it applies, until one is accepted; whichever is, its effect is that of the copy |
| `SwapDispatcher.SwapDiag.SplitRetry` | patched-files/v1/kv_offload/cpu/gpu_worker.py:279-305 | Both halves at a reported boundary, in either direction, make up the copy; it is tried exactly when the two ends lie in different known ranges and the cut is inside |
| `SwapDispatcher.EntryMadeIff` | patched-files/v1/kv_offload/cpu/gpu_worker.py:384-450 | With a driver that knows the registered ranges and takes exactly the copies inside one, a single copy is made in some way exactly when it crosses at most one seam |
| `SwapDispatcher.ShortCopyOneSeam` | patched-files/v1/kv_offload/cpu/gpu_worker.py:772-803 | Ranges begin at multiples of the chunk, so a copy not longer than the chunk crosses at most one seam |
| `SwapDispatcher.NeverGivesUp` | patched-files/v1/kv_offload/cpu/gpu_worker.py:384-482 | With such a driver and the ranges of a pinned region the dispatcher never gives up on copies that are not longer than the chunk |
| `Registration.ChunkSize` | patched-files/v1/kv_offload/cpu/gpu_worker.py:772-803 | The chunk is made of whole huge pages, stays between 64 MiB and 512 GiB, and is cut below the size asked for only to whole rows, by less than one row |
| `Registration.PlainChunkIs` | patched-files/v1/kv_offload/cpu/gpu_worker.py:768-784 | The size asked for, in bytes, is kept between 64 MiB and 512 GiB |
| `Registration.PinnedRegion.Pin` | patched-files/v1/kv_offload/cpu/gpu_worker.py:813-845 | Either the ranges tile the region, each starting at a multiple of the chunk, or nothing stays registered, unless the driver refuses to undo a registration |
| `Registration.PinnedRegion.Cleanup` | patched-files/v1/kv_offload/cpu/shared_offload_region.py:646-672 | After cleaning up nothing is registered unless the driver refused |
| `Registration.TilesCoverOnce` | patched-files/v1/kv_offload/cpu/gpu_worker.py:814-820 | Every byte of the region is in exactly one range |
| `Registration.StraddlesIff` | patched-files/v1/kv_offload/cpu/gpu_worker.py:745-754 | A copy lies in one registered range exactly when it crosses no multiple of the chunk |
| `Registration.AlignedChunk` | patched-files/v1/kv_offload/cpu/gpu_worker.py:786-811 | With rows of whole huge pages, and a chunk of at least 1 GiB asked for, the chunk is made of whole rows |
| `Seams.CellsNeverStraddleIff` | patched-files/v1/kv_offload/cpu/gpu_worker.py:745-754 | No cell of the region crosses a seam exactly when every seam falls between two cells of its row |
| `Seams.WholeRowsAtEdges` | patched-files/v1/kv_offload/cpu/gpu_worker.py:786-803 | That is so when a chunk is made of whole rows or the region is one chunk |
| `Seams.UniformCellsAtEdges` | patched-files/v1/kv_offload/cpu/gpu_worker.py:786-803 | ... and also when one page size divides cells, rows and chunk, though rows are not whole huge pages |
| `Seams.HugeRowsAtEdges` | patched-files/v1/kv_offload/cpu/gpu_worker.py:786-811 | With rows of whole huge pages and at least 1 GiB asked for, the chunk computed puts every seam at the start of a row |
| `Seams.PageStraddles` | patched-files/v1/kv_offload/cpu/gpu_worker.py:786-811 | A page of a valid worker, with rows of 12288 bytes and the default chunk, that does cross a seam |
| `Seams.SizedRegion` | patched-files/v1/kv_offload/cpu/spec.py:119-138 | A region with the sizes the spec computes is a valid one and within the memory granted |
| `Seams.TransfersInOneRange` | patched-files/v1/kv_offload/cpu/gpu_worker.py:813-845 | Once pinned with seams between cells, every descriptor of every store and load uses one registered range |
| `Layout.SizingFits` | patched-files/v1/kv_offload/cpu/spec.py:119-138 | A row holds the pages of all copies, rows are aligned, and there are exactly as many as the memory granted holds |
| `Layout.WorkerViews.CreateNextWorkerView` | patched-files/v1/kv_offload/cpu/shared_offload_region.py:549-586 | Views follow each other in the worker's area; exactly a view that does not fit is refused |
| `Layout.WorkerViews.CreateNextCanonicalView` | patched-files/v1/kv_offload/cpu/shared_offload_region.py:588-627 | The shared views follow each other from the start of the row, the same on every worker; exactly one that would leave the row is refused |
| `Layout.CellInRegion` | patched-files/v1/kv_offload/cpu/shared_offload_region.py:247-251 | Every cell is inside the region and inside one row |
| `Layout.CellsDisjoint` | patched-files/v1/kv_offload/cpu/shared_offload_region.py:549-586 | Cells of different chunks, workers, tensors or sub-blocks have no byte in common |
| `Addressing.Flatten` | patched-files/v1/kv_offload/cpu/gpu_worker.py:657-662 | All sub-block addresses, block after block |
| `Addressing.ComputeSubBlockPtrs` | patched-files/v1/kv_offload/cpu/gpu_worker.py:617-664 | The n-th pointer is that of sub-block skip + n, on the fast path too; the rest of the buffer is untouched |
| `Addressing.FillDirectOps` | patched-files/v1/kv_offload/cpu/gpu_worker.py:1029-1069 | The descriptors of one group: for each layer one whole page per block |
| `Transfers.TransferOps` | patched-files/v1/kv_offload/cpu/gpu_worker.py:1285-1333 | The descriptors of all groups, in order, direct or shared, exactly when the block lists have the length the groups call for |
| `Transfers.FillGroup` | patched-files/v1/kv_offload/cpu/gpu_worker.py:1285-1333 | One group through the fill of its layout, never more descriptors than estimated for it |
| `RoundTrip.LogicalSlot` | patched-files/v1/kv_offload/cpu/gpu_worker.py:1296-1299 | Entered in the middle of a chunk, the enumeration runs through the logical blocks |
| `RoundTrip.TransferCarries` | patched-files/v1/kv_offload/cpu/gpu_worker.py:1285-1333 | The descriptors of a store and of a load are those of the same list of pages |
| `RoundTrip.TransferPlaced` | patched-files/v1/kv_offload/cpu/gpu_worker.py:1285-1333 | Every descriptor pairs the GPU block of a logical index with slot index mod blocks-per-chunk of its chunk |
| `RoundTrip.TransferNoneTwice` | patched-files/v1/kv_offload/cpu/gpu_worker.py:1029-1069 | No page occurs twice in a transfer |
| `RoundTrip.OthersSpare` | patched-files/v1/kv_offload/cpu/gpu_worker.py:1029-1069 | Stores of pages of other cells and all loads, by any worker, leave a cell alone |
| `RoundTrip.StoreThenLoad` | patched-files/v1/kv_offload/cpu/gpu_worker.py:1029-1069 | A page loaded from the cell it was stored in is unchanged, with harmless copies interleaved in the store and in the load and any that spare the cell in between |
| `RoundTrip.TransfersRoundTrip` | patched-files/v1/kv_offload/cpu/gpu_worker.py:1285-1333 | Store some groups and load any sub-range, while others copy all the time: every byte of every block is back |
| `RoundTrip.PageNeverStraddles` | patched-files/v1/kv_offload/cpu/gpu_worker.py:745-754 | With seams at row starts no descriptor of any transfer crosses one |
| `RoundTrip.ViewsAreParts` | patched-files/v1/kv_offload/cpu/shared_offload_region.py:576-586 | The views handed out are where the cells of their tensors begin |
| `Canonical.FragmentsMap` | patched-files/v1/kv_offload/cpu/gpu_worker.py:682-700 | The fragments of the runs of a page move exactly the bytes the runs name |
| `Canonical.BuildCopyPlan` | patched-files/v1/kv_offload/cpu/gpu_worker.py:682-700 | The plan moves byte l of a page to byte c of the shared page exactly when one of its runs maps l to c |
| `Canonical.CanonicalBlockSizes` | patched-files/v1/kv_offload/cpu/gpu_worker.py:717-732 | The shared pages of a tensor are as wide as the widest of its layers, no wider; only a tensor without layers has none, where the source stops on an assertion |
| `Canonical.CanonicalPageIds` | patched-files/v1/kv_offload/cpu/gpu_worker.py:703-714 | The ids of the pages a transfer touches, on the fast path too |
| `Canonical.IdNamesPointer` | patched-files/v1/kv_offload/cpu/gpu_worker.py:703-714 | Ids and pointers run in step: the id is the chunk and slot the pointer addresses |
| `Canonical.FilterWriterBlocks` | patched-files/v1/kv_offload/cpu/gpu_worker.py:1164-1183 | Exactly the blocks of the elected pages are kept, in order |
| `Canonical.ExactlyOneWriter` | patched-files/v1/kv_offload/base.py:499-503 | Of the ranks that hold the same bytes exactly one writes each page of a transfer |
| `Canonical.Expand` | patched-files/v1/kv_offload/cpu/gpu_worker.py:1138-1161 | One descriptor for every block and fragment, in this order, after those already there |
| `Canonical.FillCanonicalRef` | patched-files/v1/kv_offload/cpu/gpu_worker.py:1088-1161 | One layer: pointers on both sides, on a store only the elected pages, each through the plan |
| `Canonical.FillCanonicalOps` | patched-files/v1/kv_offload/cpu/gpu_worker.py:1071-1162 | All layers of a group, in order, after the descriptors already there |
| `SharedPages.TransferMoves` | patched-files/v1/kv_offload/cpu/gpu_worker.py:1071-1162 | The descriptors of a whole transfer are exactly the fragments of the pages of its groups that the rank takes part in: it loads all and stores those of its turns |
| `SharedPages.Elect` | patched-files/v1/kv_offload/base.py:499-503 | For each page of a job there is a rank whose turn it is and which holds all its shared bytes, in the same cell |
| `SharedPages.StoredFrom` | patched-files/v1/kv_offload/cpu/gpu_worker.py:1071-1162 | Whatever byte a store puts into a cell comes from the page of that cell, through a fragment of its plan |
| `SharedPages.StoreWrites` | patched-files/v1/kv_offload/cpu/gpu_worker.py:1071-1162 | The stores of all ranks write every mapped byte of every page |
| `SharedPages.StoreAll` | patched-files/v1/kv_offload/cpu/gpu_worker.py:1071-1162 | After all ranks stored, in any order and with others copying meanwhile, every shared page of every group has every mapped byte of every rank |
| `SharedPages.TransfersSpare` | patched-files/v1/kv_offload/cpu/gpu_worker.py:1071-1162 | Stores of other pages, and all loads, leave a page in the region alone |
| `SharedPages.StoresLeaveShared` | patched-files/v1/kv_offload/cpu/gpu_worker.py:1071-1162 | Stores of other pages by any rank may run during the stores of a page |
| `SharedPages.StoreAllThenLoad` | patched-files/v1/kv_offload/cpu/gpu_worker.py:1071-1162 | All ranks store and a rank loads any sub-range to any GPU blocks, while others copy during the stores, between, and during the load: every byte its runs cover is back |
| `SharedExample.BothHalvesStored` | patched-files/v1/kv_offload/cpu/gpu_worker.py:1071-1162 | A job of two ranks that hold half a shared page each meets all that is asked of jobs, and the page has both halves afterwards |
| `SharedExample.BothHalvesBack` | patched-files/v1/kv_offload/cpu/gpu_worker.py:1071-1162 | ... and whatever becomes of the GPUs until then, a load brings each of the two ranks its half back |
| `SharedPages.PiecesInOneRange` | patched-files/v1/kv_offload/cpu/gpu_worker.py:1071-1162 | With seams between cells no shared descriptor crosses one either |
| `SharedPages.SharedViewsAreParts` | patched-files/v1/kv_offload/cpu/shared_offload_region.py:588-627 | The shared views are where the pages of their tensors begin |
| `MambaSplit.LastCachePosition` | patched-files/v1/core/sched/scheduler.py:395-401 | The end of the last whole block, or of the one before it with EAGLE |
| `MambaSplit.TailBoundary` | patched-files/v1/core/sched/scheduler.py:418-434 | A stop at the tail is the last hash boundary of the prompt, inside it and past the last cacheable position |
| `MambaSplit.NoTailMeans` | patched-files/v1/core/sched/scheduler.py:418-434 | Without a stop at the tail no hash boundary lies past the last cacheable position, unless the prompt ends at one |
| `MambaSplit.SplitBounds` | patched-files/v1/core/sched/scheduler.py:369-444 | A chunk takes at least nothing and at most what is offered |
| `MambaSplit.NeverJumps` | patched-files/v1/core/sched/scheduler.py:417-444 | No chunk runs past the last cacheable position, the tail boundary, or the block floor of a junction below the prefill end |
| `MambaSplit.EarlyEndsAreCacheable` | patched-files/v1/core/sched/scheduler.py:403-444 | If a block fits the limit, a chunk that ends early ends at a block boundary or at the tail boundary |
| `MambaSplit.StopsForAReason` | patched-files/v1/core/sched/scheduler.py:403-444 | A chunk takes all it is offered unless it ends at a mandatory position, at the end of the block it starts inside, at the last whole block before a junction, or at the last block boundary of an offer inside the prefill |
| `MambaSplit.NothingTakenIff` | patched-files/v1/core/sched/scheduler.py:403-444 | Exactly when an offer leads to an empty chunk |
| `MambaSplit.RunEnds` | patched-files/v1/core/sched/scheduler.py:369-444 | A prefill that is always offered a block, or all that is left, ends |
| `MambaSplit.RunVisits` | patched-files/v1/core/sched/scheduler.py:417-444 | A prefill that ends has stopped at every mandatory position |
| `RunningLoop.RunningPass.LeastUrgent` | patched-files/v1/core/sched/scheduler.py:617-621 | The first request with the highest priority value and latest arrival |
| `RunningLoop.RunningPass.PreemptOne` | patched-files/v1/core/sched/scheduler.py:617-662 | Who is preempted, that its entry and budget are taken back, and that the cursor stays on its request |
| `RunningLoop.RunningPass.Unschedule` | patched-files/v1/core/sched/scheduler.py:632-650 | Taking an entry back restores both budgets, with its draft slots |
| `RunningLoop.RunningPass.AllocateSlots` | patched-files/v1/core/sched/scheduler.py:603-662 | One request is preempted for every refusal of the cache; the inner loop ends with room, or with the request itself preempted |
| `RunningLoop.RunningPass.CountTokens` | patched-files/v1/core/sched/scheduler.py:540-562 | The most tokens that respect every limit, what it has to run, the prefill threshold, both budgets and the model's length, as far as the cut from outside the loop leaves them, and never more |
| `RunningLoop.VisitedOne` | patched-files/v1/core/sched/scheduler.py:508-676 | Every visited request got the most tokens within the limits that the budgets left for it at its turn, with the room the cache granted for it |
| `RunningLoop.StillFair` | patched-files/v1/core/sched/scheduler.py:617-662 | ... and keeps it unless it is preempted |
| `RunningLoop.RunningPass.Grant` | patched-files/v1/core/sched/scheduler.py:668-676 | What is left of the budgets plus what is given out stays constant |
| `RunningLoop.RunningPass.ScheduleRunning` | patched-files/v1/core/sched/scheduler.py:505-676 | The nested loops end, and unless a budget is used up or the cache had no room for a request even alone, every survivor was visited; no entry runs past the tokens of its request, the prefill threshold or the model's length, or belongs to a request that sits the step out |
| `RunningLoop.RunningPass.PassResult` | patched-files/v1/core/sched/scheduler.py:1149-1161 | No preempted request has an entry; survivors before the cursor were visited once, none behind it; the scheduled tokens fit both budgets, and each entry the model's length; a survivor without an entry sat out or had no token to run |
| `AsyncTokens.NextKeepsInv` | patched-files/v1/core/sched/scheduler.py:1316-1380 | Schedule, preempt, resume and output keep: in flight is the sum of unprocessed steps, stale the sum of those before the last preemption |
| `AsyncTokens.RunKeepsInv` | patched-files/v1/core/sched/scheduler.py:1316-1380 | ... and so does every run |
| `AsyncTokens.Request.UpdateAfterSchedule` | patched-files/v1/core/sched/scheduler.py:1370-1373 | Scheduled tokens are added to the number in flight, as the youngest step |
| `AsyncTokens.StaleIffHeadOld` | patched-files/v1/core/sched/scheduler.py:1784-1787 | There is stale output exactly when the oldest unprocessed step is older than the last preemption |
| `AsyncTokens.MarkMeansPreempted` | patched-files/v1/core/sched/scheduler.py:1337-1350 | A step counts as old exactly when a preemption came after it |
| `AsyncTokens.OutputsClassedRight` | patched-files/v1/core/sched/scheduler.py:1777-1803 | In every run: outputs are classed right, the stale share never gets negative, deliverable stale output means everything in flight is stale |
| `AsyncTokens.DiscardedIff` | patched-files/v1/core/sched/scheduler.py:1337-1350 | In every run: stale output is discarded exactly when stale output has been outstanding ever since a preemption in drop mode |
| `AsyncTokens.DrainedMayResume` | patched-files/v1/core/sched/scheduler.py:753-762 | In every run a preempted request may run again once its outputs are in |
| `AsyncTokens.NewerOutputDroppedToo` | patched-files/v1/core/sched/scheduler.py:1341-1349 | A run in which a preemption that is to deliver drops the output of a step scheduled after the only preemption in drop mode |
| `AsyncTokens.Request.Preempt` | patched-files/v1/core/sched/scheduler.py:1337-1350 | The counters after a preemption |
| `AsyncTokens.Request.TryResume` | patched-files/v1/core/sched/scheduler.py:753-762 | Exactly when the scheduler resumes a preempted request |
| `AsyncTokens.Request.UpdateFromOutput` | patched-files/v1/core/sched/scheduler.py:1777-1803 | The output is stale exactly when its step precedes the last preemption, and discarded exactly when stale and in drop mode |
| `DeferredFree.StepFences.FreeRequestBlocks` | patched-files/v1/core/sched/scheduler.py:2400-2413 | Blocks return now exactly when the last step that may write them is processed, otherwise they wait behind their fence |
| `DeferredFree.StepFences.FreeCowRetainedBlocks` | patched-files/v1/core/sched/scheduler.py:2415-2424 | Retained blocks wait for the next numbered step, which runs the copies |
| `DeferredFree.StepFences.ScheduleStep` | patched-files/v1/core/sched/scheduler.py:1288-1291 | Only a step that schedules something gets a number |
| `DeferredFree.StepFences.ProcessStep` | patched-files/v1/core/sched/scheduler.py:2426-2439 | The longest run of satisfied entries returns, in order; none of them can still be written |
| `DeferredFree.ReleasedIff` | patched-files/v1/core/sched/scheduler.py:2426-2439 | A processed step releases an entry exactly when it reaches the fences of that entry and of all before it |
| `DeferredFree.ReleasedInTime` | patched-files/v1/core/sched/scheduler.py:2426-2439 | Without a later fence in front an entry leaves with the step of its fence and not before |
| `DeferredFree.ReleasedByNextStep` | patched-files/v1/core/sched/scheduler.py:2426-2439 | The blocks of every entry are returned at the latest with the step after its fence |
| `DeferredFree.SameOrder` | patched-files/v1/core/sched/scheduler.py:2415-2439 | Retained blocks return in the same order, deferred or not |
| `HybridHit.Greatest` | patched-files/v1/core/kv_cache_coordinator.py:800-812 | The finder's promise: the largest accepted length not above the bound |
| `HybridHit.HybridCoordinator.LookUp` | patched-files/v1/core/kv_cache_coordinator.py:764-824 | One group's turn: which length it is asked for, with EAGLE one unit more, what it answers and which drops count as verified; full attention is looked up once and trimmed later |
| `HybridHit.HybridCoordinator.Pass` | patched-files/v1/core/kv_cache_coordinator.py:761-825 | One pass never loses a common length |
| `HybridHit.HybridCoordinator.Search` | patched-files/v1/core/kv_cache_coordinator.py:740-830 | Passes until nothing shrinks, or one with the shortcut: all groups accept the length and the blocks cover it |
| `HybridHit.HybridCoordinator.DepthIs` | patched-files/v1/core/kv_cache_coordinator.py:764-800 | The first lookup of a full attention group finds the largest length that it and the groups before it accept |
| `HybridHit.HybridCoordinator.FindLongestCacheHit` | patched-files/v1/core/kv_cache_coordinator.py:719-852 | Termination, and without EAGLE the largest length all groups accept, with and without the one-pass shortcut; blocks cover exactly it, for a further kind of full attention exactly under a condition on the caches; what the first group holds beyond is reported |
| `HybridHit.HybridCoordinator.Agreed` | patched-files/v1/core/kv_cache_coordinator.py:832-844 | When the passes end all groups accept the length and their blocks cover it |
| `HybridHit.HybridCoordinator.ExtraFullGroupExactIff` | patched-files/v1/core/kv_cache_coordinator.py:832-844 | A further kind of full attention hands out exactly the blocks of the result if and only if all groups accept a length in the last block of the deepest prefix that it and the groups before it share |
| `HybridHit.ExtraFullGroupExample` | patched-files/v1/core/kv_cache_coordinator.py:832-844 | The call on a valid coordinator of three groups: the hit is one block, and the second full attention group hands out three |
| `RegionProtocol.InvKept` | patched-files/v1/kv_offload/cpu/shared_offload_region.py:258-293 | Every step of every rank keeps: a file that has its size stays under its path, and a creator that has not sized its file is alone with it; unlinking may fail and leave a stub |
| `RegionProtocol.EveryRunKeepsInv` | patched-files/v1/kv_offload/cpu/shared_offload_region.py:258-293 | ... and so does every run of any number of ranks |
| `RegionProtocol.OpenedOnOnePath` | patched-files/v1/kv_offload/cpu/shared_offload_region.py:375-475 | Ranks that opened one path have one file, fully sized, never an abandoned stub |
| `RegionProtocol.RankTurns` | patched-files/v1/kv_offload/cpu/shared_offload_region.py:375-475 | What becomes of a creator and of a joiner within two turns: opened with the file's full size, on the other path, or given up |
| `RegionProtocol.TurnAdvances` | patched-files/v1/kv_offload/cpu/shared_offload_region.py:258-475 | When the first creator succeeds, a turn takes a rank further on its way to the one file, unless it waits for a file without its size, and no rank falls back |
| `RegionProtocol.AllRanksOpen` | patched-files/v1/kv_offload/cpu/shared_offload_region.py:258-475 | When the first creator succeeds, on huge pages or /dev/shm, every fault-free run that gives all ranks three turns, round by round, ends with every rank on the first file, fully sized, whatever follows |
| `RegionProtocol.AllRanksFallBack` | patched-files/v1/kv_offload/cpu/shared_offload_region.py:258-475 | When every creator of the huge page file fails and the first on /dev/shm succeeds, there are fault-free runs after which every such continuation opens all ranks on one /dev/shm file |
| `RegionProtocol.NeverSplit` | patched-files/v1/kv_offload/cpu/shared_offload_region.py:375-475 | If creators fare alike, or the first succeeds, all finished ranks map one file |
| `RegionProtocol.SplitRun` | patched-files/v1/kv_offload/cpu/shared_offload_region.py:436-475 | First creator fails, a later one succeeds: a run that ends with two files |
| `RegionProtocol.NeverSplitIff` | patched-files/v1/kv_offload/cpu/shared_offload_region.py:258-475 | The ranks agree in every run exactly when the first creator of the huge page file succeeds or none can |

## Left out

- Block records are values inside the policy's map: the source shares one mutable record between callers, which is not captured.
- The order in which sets and dictionaries are walked is arbitrary in the model where the source walks a `set`, and for jobs and queue entries that are handled independently.
- The clock is read once for each call; the deadlines of one call agree.
- Floating-point targets of ARC are real numbers.
- The map from keys to block hashes is an arbitrary function; that no readable block is in the tombstone registry is stated for blocks that share their hash with no other key.
- CpuManager.NamedBlocksSafeIff: under ARC only one direction is stated, by `CpuManager.CpuOffloadingManager.PrepareStore`: a key that passes the threshold is never a victim.
- Tiering.TieringManager.OnNewRequest: a request that is announced again while a store of it is pending, which the source overwrites, is left to `RequestLog.RequestStartsIff`, which says that the pending count is wrong then.
- Tiering.TieringManager.CompleteStore: a late completion that would break the claims or stop on an assertion is left to `Claims.LateStoreHarmlessIff` and `Claims.LateStoreCascadesIff`.
- Events, metrics, logging, rate limits, environment parsing and statistics are not modelled.
- What tiers ask for while they are served at the end of a step are calls of the other operations; their own work then, and the record of newly scheduled requests, are not modelled.
- Requests announced with an excluded tier take part like all others; what a tier does with a notice is not modelled.
- CUDA streams, events and buffer pools: copies of one transfer take effect in order, and transfers follow each other.
- Addresses are unbounded numbers; wrap-around of 64-bit pointers is not modelled.
- Views over several tensors of one group share a width rule.
- Encoder, LoRA, speculative, structured-output and streaming branches of the scheduler, and the WAITING queue apart from the look at stale output.
- RunningLoop.RunningPass.CountTokens: alignment of recurrent state and the budget of the encoder are one arbitrary cut, because they come from code outside the loop.
- RunningLoop.RunningPass.AllocateSlots: the cache answers arbitrarily, because its allocation is not part of this model.
- HybridHit.HybridCoordinator.Find: with EAGLE the length after the dropped match is an arbitrary accepted one that leaves room for the drop, because the per-group finders are not part of this model; only termination, acceptance and coverage of the result are stated then.
- HybridHit groups stand for all cache groups of one spec; the lists of the group ids in it are one list.
- The per-group finders, the block pool of the GPU and the secondary tiers themselves.
- Population of the mapping, unlinking at shutdown, and the free-space checks behind a creator's outcome.
- CUDA graph dispatch, kernels, weight loading and configuration translation.
