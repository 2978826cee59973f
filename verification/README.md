# bplib in Dafny

bplib is a Bundle Protocol version 7 agent (RFC 9171). This project models the data structures and the
custody state machine at its core, in the form the program has them, and proves what they are for.

* **Red-black tree** (`Rb*.dfy`). Links with parent pointers in memory, the colour in the low bit of the key
  word. `RbShape` describes a tree and its positions as values, `RbHeap` ties them to the pointers; insertion,
  deletion, search and iteration are methods on the pointers. The root may be red and the order is not strict,
  as in the program. A positive comparison means "go right", as in the code and not as its header says.
* **Custody cache** (`Cache*.dfy`). `CacheModel` gives the state and one function per operation, `CacheInv` and
  `CacheArrive` the invariant, `CacheRun` the steps and runs, `CacheSafety` and `CacheTheorems` what holds in
  all of them, `CacheProgress` what a number of polls achieves, `CacheTrip` and `CacheResend` when a bundle is sent
  again, `CacheCustody` and `CacheRelease` how custody ends, `CacheLoss` when a bundle can be lost, `CacheReport` what
  acknowledgements report and when, `CacheAck` what they are worth, `CacheLine` the order of the pending list,
  `CacheLeak` and `LeakRuns` which files are never removed. Clock, pool, store and the rest of the agent answer
  arbitrarily.
* **Custody cache as an object** (`CacheImpl`, `CacheIndex`, `TimeIndex`, `EntryIndex`, `Indices`, `CacheBook`,
  `CacheJoined`). `CacheImpl` has the fields and the state machine of an entry; `CacheIndex` and `TimeIndex` are
  the hashed indices and the time index on the tree; `CacheJoined` puts them together. Its operations find
  entries by searching the trees and compute the steps of the model, so what holds in all runs holds for it.
* **Memory pool** (`Pool*.dfy`). Circular lists in memory, queues with wrapping counters, bounded queues under
  interference, and the pool as a state machine over its steps, with references, the collector, and the order in
  which blocks pass through its queues (`PoolOrder`).
* **CRC engine** (`Crc*.dfy`). Polynomial division, the bit-serial register, the table-driven form, and the
  loops that build and use the tables, and which errors it shows (`CrcBurst`). A machine word is its sequence of bits
  (`Words`).
* **File offload** (`Offload*.dfy`), which damage to a file it notices (`Damage.dfy`), and which order of blocks it is
  given (`BlockOrder.dfy`); **streams**
  (`Stream*.dfy`) and **routing** (`Routing.dfy`).

Some things the program is meant to do fail in some cases, and the project says exactly when they hold:

* positioning an iterator at a bound (`RbIter.GotoBound`, `RbEarly.LandsEarly`);
* restoring a bundle from its file (`Offload.RoundTrip`, `Offload.PayloadFirst`, `Offload.TornRestores`,
  `Offload.OversizeCutOff`): a bundle with a block after its payload is handed over after it was recycled;
* keeping a bundle in custody (`CacheLoss.LossCondition`): since the decoder reverses the blocks, that order is
  the one of every received bundle with an extension block (`BlockOrder.ReceivedLost`);
* keeping custody until another custodian has the bundle (`CacheRelease.ReleaseCondition`): a file that is left without
  its record reads back as a bundle that does not ask for it;
* acknowledging only what is safe (`CacheAck.AckCondition`): a duplicate is acknowledged although the first write
  failed;
* removing files from the store (`CacheLeak.LeakOverRun`, with runs in `LeakRuns`): a bundle that is found expired
  when it arrives or while it is idle leaves its file behind, and no other does;
* handing over what was written to a stream (`StreamTrip.RoundTrip`, `StreamTrip.StepBackStays`): not after a step
  back;
* the computations of the pool's thresholds (`PoolDrain.HighPriorityExact`, `PoolDrain.ThresholdExact`,
  `PoolDrain.LargePoolWraps`).

`dafny verify dfyconfig.toml` checks everything.

## Model

| member | source | states |
|---|---|---|
| `RbHeap.RotateUp` | common/src/v7_rbtree.c:614-664 | the pointer surgery of a rotation, parent pointers and root included, turns a heap that holds a tree into one that holds the rotated tree, at any position, on either side |
| `RbShape.RotatedContents` | common/src/v7_rbtree.c:614-664 | a rotation keeps the in-order sequence and the set of links |
| `RbInsert.UncleRepairCorrect` | common/src/v7_rbtree.c:552-563 | red parent and uncle: repainting keeps all black heights and moves the only red-red edge two levels up |
| `RbInsert.InnerCorrect` | common/src/v7_rbtree.c:565-611 | inner grandchild: the turn makes it an outer grandchild and changes nothing else |
| `RbInsert.OuterCorrect` | common/src/v7_rbtree.c:614-664 | outer grandchild: after the rotation and the exchange of colours the whole tree is red-black again with the same height |
| `RbInsert.RootRepairCorrect` | common/src/v7_rbtree.c:545-549 | red parent at the root: painting it black makes the tree valid with a height one more, as counted |
| `RbInsert.InsertRebalance` | common/src/v7_rbtree.c:448-667 | from a tree whose only fault is a red subject below a red parent, the loop ends with a valid tree with the same in-order sequence and a correct black height, by climbing two levels or turning inner into outer |
| `RbInsert.FindLeaf` | common/src/v7_rbtree.c:383-434 | the descent stops at a match or at the one free place that keeps the order; with a comparator that orders the tree it stops at a match whenever there is one |
| `RbInsert.InsertValue` | common/src/v7_rbtree.c:1108-1142 | for every valid tree and every link: refused and nothing changed exactly if the link is in use; otherwise either the order gains exactly this link at a sorted position and the tree is valid again, or a match was met, the tree is untouched and the link zeroed; the root of a tree of one link stays the root |
| `RbSearch.Search` | common/src/v7_rbtree.c:1066-1098 | finds only matches, and for a comparator that orders the tree finds one whenever it exists, in at most 2 * black height + 1 steps |
| `RbSearch.ManyEntries` | common/src/v7_rbtree.c:1066-1098 | a tree of black height h holds at least 2^h - 1 entries, so that the bound on the search is logarithmic |
| `RbSearch.NodeIsMember` | common/src/v7_rbtree.c:1042-1056 | following the parents up to a root tells whether a link is a member of this tree, also when it is free or a member of another tree |
| `RbRename.SwapParentAndChild` | common/src/v7_rbtree.c:279-312 | exchanging a parent and its child gives each the neighbours of the other, with all back pointers and the root |
| `RbRename.SwapDistantNodes` | common/src/v7_rbtree.c:323-343 | the same for a link and one further below it |
| `RbRename.ExchangePlaces` | common/src/v7_rbtree.c:699-772 | exchanging two links in the heap is renaming them in the tree: shape, keys of positions and colours stay |
| `RbDelete.OnlyChild` | common/src/v7_rbtree.c:680-772 | a link with one child in a red-black tree: the child is a red leaf and the link is black |
| `RbDelete.MakeLeaf` | common/src/v7_rbtree.c:680-772 | the link to delete becomes a leaf after at most two exchanges, and the order of all other entries is unchanged |
| `RbDelete.SwapKeepsRest` | common/src/v7_rbtree.c:699-772 | exchanging a link with its in-order neighbour disturbs no other entry |
| `RbBalance.SiblingExists` | common/src/v7_rbtree.c:838-858 | a subject that is one black link short always has a sibling, so it is never missing |
| `RbBalance.RedSiblingCase` | common/src/v7_rbtree.c:900-966 | red sibling: after the rotation the subject has a black sibling and a red parent |
| `RbBalance.NearRedCase` | common/src/v7_rbtree.c:974-1010 | red close nephew: after the turn the distant nephew is red, also when both nephews were red and a red-red edge appears for one turn |
| `RbBalance.FarRedCase` | common/src/v7_rbtree.c:900-966 | red distant nephew: after the rotation all heights are right once the leaf is removed, with no red-red edge left |
| `RbBalance.SiblingRedCase` | common/src/v7_rbtree.c:890-898 | black relatives: painting the sibling red moves the shortage to the parent; with a red parent, painting it black ends it |
| `RbBalance.RootCase` | common/src/v7_rbtree.c:880-888 | a shortage at the root lowers the height of the whole tree by one |
| `RbBalance.DeleteTurn` | common/src/v7_rbtree.c:828-1012 | one turn of the loop: it finishes, or prepares the last turn, or climbs |
| `RbBalance.DeleteRebalance` | common/src/v7_rbtree.c:785-1013 | from every red-black tree with a leaf to delete, the loop ends with a tree that is red-black with the counted height once the leaf is gone |
| `RbDelete.ExtractNode` | common/src/v7_rbtree.c:1151-1187 | for every valid tree and every member: the order loses exactly that entry, all invariants and the height counter hold again and the link is zeroed; a link that is not attached is refused and nothing changes |
| `RbIter.Neighbour` | common/src/v7_rbtree.c:1214-1305 | next and previous move exactly one place in the in-order sequence and end at its ends |
| `RbIter.FindClosest` | common/src/v7_rbtree.c:1313-1349 | the descent ends at a match or where the bound would hang |
| `RbIter.GotoBound` | common/src/v7_rbtree.c:1351-1425 | goto_min and goto_max: the first key that reaches the bound, except exactly when the entry before it has a child on the near side only; then that entry. No qualifying entry is skipped |
| `RbEarly.LandsEarly` | common/src/v7_rbtree.c:1351-1387 | keys 10 and 5 inserted into an empty tree, and a bound of 20: goto_min stops at the link with key 10 |
| `RbIter.ExactAtZero` | common/src/v7_rbtree.c:1351-1387 | for bound zero the position is exact |
| `RbPoll.Drain` | cache/src/v7_cache.c:140-162 | the poll loop over the real tree: although links are extracted while iterating, every link with a key up to the bound is taken, latest first, and is free afterwards, and the rest stays in order; one more is taken exactly when goto_max stops late |
| `TimeIndex.TakenIsDue` | cache/src/v7_cache.c:140-162 | what the walk takes from the time index is what a poll must take: every entry whose time has come |
| `TimeIndex.RestIndexes` | cache/src/v7_cache.c:140-162 | after the poll the index lists exactly the entries that still have a time |
| `TimeIndex.MoveTimer` | cache/src/v7_cache_fsm.c:220-236 | rescheduling on the real tree: the link leaves its old place if it has a key, is always inserted under the new one, and the index lists exactly the entries with a time again |
| `TimeIndex.Timers.Set` | cache/src/v7_cache_fsm.c:220-236 | after rescheduling, the times held by the tree differ in this entry only |
| `TimeIndex.Timers.Drop` | cache/src/v7_cache.c:336-341 | a destroyed entry leaves the time index exactly if its key is not zero; the other times stay |
| `TimeIndex.Timers.Drain` | cache/src/v7_cache.c:140-162 | the poll takes every entry whose time has come, clears those times and no other, and the links taken can be inserted again |
| `TimeIndex.TimerListed` | cache/src/v7_cache_fsm.c:220-236 | an entry with a time has its link in the tree under that time |
| `CacheInv.SettledOk` | cache/src/v7_cache_fsm.c:30-193 | evaluation and transition of one entry keep: a copy in flight only in the queue state with the bundle at hand, custody never without bundle or store, the ageing rule |
| `CacheInv.ExecuteKeeps` | cache/src/v7_cache_fsm.c:332-392 | executing an entry that was taken off its list keeps the invariant of the whole cache, puts it on exactly one list and sets a timer within the hour |
| `CacheInv.MakePendingKeeps` | cache/src/v7_cache.c:50-64 | moving an entry to the pending list, from whatever list, keeps the invariant |
| `CacheInv.RemoteDacsKeeps` | cache/src/v7_cache_custody.c:443-467 | processing an acknowledgement keeps the invariant |
| `CacheInv.TakeDueKeeps` | cache/src/v7_cache.c:140-162 | taking due entries off the time index keeps the invariant |
| `CacheInv.DestroyRefKeeps` | cache/src/v7_cache.c:373-393 | the destruction of a copy in flight keeps the invariant |
| `CacheInv.DestroyEntryKeeps` | cache/src/v7_cache.c:312-352 | the collector only destroys entries that no copy refers to, and that keeps the invariant |
| `CacheArrive.AppendKeeps` | cache/src/v7_cache_custody.c:288-319 | adding a sequence number keeps payloads distinct and bounded and closes a full acknowledgement |
| `CacheArrive.OpenKeeps` | cache/src/v7_cache_custody.c:220-286 | opening an acknowledgement when none was found keeps at most one open per custodian and flow |
| `CacheArrive.StoreBundleKeeps` | cache/src/v7_cache_custody.c:502-608 | storing a bundle, new or duplicate, with or without a store, keeps the invariant |
| `CacheRun.ApplyKeeps` | cache/src/v7_cache.c:66-162 | every step of the cache keeps the invariant |
| `CacheRun.InFlight` | cache/src/v7_cache_fsm.c:81-139 | a copy in flight belongs to a live entry in the queue state that has its bundle and is not discarded |
| `CacheTheorems.SingleCopy` | cache/src/v7_cache_fsm.c:81-107 | in every reachable state the queued flag is set exactly while one undestroyed copy exists, never two, and then the entry is neither discarded nor destroyed |
| `CacheTheorems.CustodySafe` | cache/src/v7_cache_fsm.c:30-66 | in every reachable state custody is held only with the bundle in memory or a storage identifier; the store is never asked for a released identifier; a file that holds its bundle is still there |
| `CacheSafety.RemoteAckExact` | cache/src/v7_cache_custody.c:443-467 | an acknowledgement ends custody of exactly the bundles whose flow and sequence number it names, and makes them pending; all other entries are untouched |
| `CacheSafety.StepEvolves` | cache/src/v7_cache_fsm.c:109-177 | in every step an entry keeps its identity, never regains custody, loses it only by recorded egress without custody tracking or by an acknowledgement that names it, leaves the delete state only after the holdover, and its payload changes only while it is open |
| `CacheSafety.CustodyOverRun` | cache/src/v7_cache_fsm.c:109-139 | over any run, custody that was lost was ended by one of these two steps |
| `CacheSafety.FrozenOverRun` | cache/src/v7_cache_custody.c:469-477 | over any run, the payload of a closed acknowledgement never changes and it is never opened again |
| `CacheTheorems.NothingForgotten` | cache/src/v7_cache_fsm.c:195-237 | in every reachable state every live entry is on exactly one of the pending and idle lists, and an idle one has a nonzero timer, at most an hour away and not after the action it waits for |
| `CacheTheorems.PollFindsAll` | cache/src/v7_cache.c:140-162 | a poll an hour later, or once the awaited time has come, makes the entry pending |
| `CacheTheorems.FlushRuns` | cache/src/v7_cache.c:120-138 | the flush loop is a run of single looks, and with enough of them leaves nothing pending: evaluation adds nothing to the list it works on |
| `CacheTheorems.IngestRuns` | cache/src/v7_cache.c:87-115 | the loop over what was pulled from the queue is a run of arrivals and acknowledgements, so all results about runs hold for it |
| `CacheTheorems.DacsAggregation` | cache/src/v7_cache_custody.c:220-349 | in every reachable state: one open acknowledgement per custodian and flow, distinct numbers, fewer than 16 while open, never more, and closed before it can be sent |
| `CacheTheorems.DuplicateArrival` | cache/src/v7_cache_custody.c:519-526 | a duplicate is not stored again, marks the entry as active now, and is named in an acknowledgement to its custodian |
| `CacheTheorems.AgeOut` | cache/src/v7_cache_fsm.c:141-160 | metadata in the delete state is discarded only if at least 5000 ms have passed since the last lookup that hit it, over any number of re-arms |
| `CacheLine.StepLine` | cache/src/v7_cache.c:50-64 | in every step nobody gets ahead of a pending entry, unless the step puts that entry at the end of the list anew; a look at another entry brings it closer |
| `CacheLine.HasItsTurn` | cache/src/v7_cache.c:120-138 | in every run with more looks than there are entries ahead of it, a pending entry is looked at, unless it is put at the end of the list anew |
| `CacheProgress.LooksSeen` | cache/src/v7_cache.c:120-138 | in a flush with enough turns, a pending entry is evaluated exactly once, whatever else is pending: its new state and file are those of one evaluation |
| `CacheProgress.NextLookTime` | cache/src/v7_cache_fsm.c:195-237 | after a look the next one is 3000 ms on if the entry has nothing to wait for; otherwise 3600000 ms on, or at the time that it waits for if that comes first |
| `CacheProgress.RoundSees` | cache/src/v7_cache.c:140-162 | clock, poll and flush: an entry whose time has come by the clock is evaluated exactly once, and is not pending afterwards |
| `CacheProgress.OneRound` | cache/src/v7_cache_fsm.c:48-107 | a live bundle in custody, unsent and at hand: one round leaves exactly one copy in flight if and only if the entry was idle; in the queue state without a copy the round only gets it back to idle. The copy is intact if the bundle was never to be written or was written with its payload last |
| `CacheProgress.TwoRounds` | cache/src/v7_cache_fsm.c:70-79 | from the queue state without a copy, a second round at least three seconds later sends the bundle, and not the first |
| `CacheProgress.PollSends` | cache/src/v7_cache.c:140-162 | from every reachable state, an idle bundle in custody, at hand and not expired, is in flight after one poll event that is an hour on or past the time it waits for |
| `CacheProgress.BlockedRound` | cache/src/v7_cache_fsm.c:81-107 | if the pool has no block for the copy, none is in flight after the round and the bundle waits in the queue state: two more rounds send it |
| `CacheProgress.AckSent` | cache/src/v7_cache_fsm.c:179-193 | an acknowledgement whose time has come is closed by one round and sent by the next, with exactly its numbers |
| `CacheProgress.DeliveredEnds` | cache/src/v7_cache_fsm.c:109-177 | a bundle whose copy went out without custody tracking: the second round releases its file and holds it over, the fourth discards it and no earlier one, if nothing asks for it |
| `CacheProgress.PollIsRound` | cache/src/v7_cache.c:212-241 | a poll event with enough turns, in which the poll may read a later clock than the cache, is such a round, and leaves nothing pending |
| `CacheTrip.TripSeen` | cache/src/v7_cache_fsm.c:109-139 | a copy is sent at some time, destroyed, and the pending list flushed, whatever else is on it: the entry is as one evaluation leaves it that finds exactly this egress recorded and no copy in flight |
| `CacheResend.FirstRound` | cache/src/v7_cache_fsm.c:70-139 | a tracked bundle that was sent at t with interval i and whose copy is gone: the first round that finds it makes it idle, in custody, with no copy in flight, waiting for t + i |
| `CacheResend.RestingOverRun` | cache/src/v7_cache_fsm.c:48-66 | in every run that ends before t + i it stays idle or is let go; without an acknowledgement that names it, it stays in custody until it expires |
| `CacheResend.SentAgain` | cache/src/v7_cache_fsm.c:124-131 | from the recorded egress on: no run that ends before t + i has a copy in flight; if no acknowledgement names the bundle, it has not expired and is at hand, a round at t + i or later leaves exactly one |
| `CacheResend.LostCopyResent` | cache/src/v7_cache_fsm.c:109-139 | the same from the arrival of the bundle on, with the interval that it names, if it stays in memory or was written with its payload last |
| `CacheCustody.StepKept` | cache/src/v7_cache_fsm.c:109-139 | a tracked bundle in custody: no step but an acknowledgement that names it ends custody, or its life before it expires |
| `CacheCustody.KeptOverRun` | cache/src/v7_cache_custody.c:443-467 | the same over every run |
| `CacheRelease.ReleaseCondition` | cache/src/v7_cache_custody.c:364-376 | for every new bundle: custody of it ends in no later run without an acknowledgement that names it if and only if it has expired on arrival, or it asks for custody tracking and, if a store is configured, is for another node and its file is not left without a record |
| `CacheRelease.TrackedToTheEnd` | cache/src/v7_cache_custody.c:569-572 | a bundle of that kind stays in custody and alive until it expires, over every run without such an acknowledgement |
| `CacheRelease.DeliveryReleases` | cache/src/v7_cache_custody.c:370-374 | a live bundle for this node that a store takes, or one that does not ask for custody tracking: after its first trip, without any acknowledgement, custody has ended |
| `CacheRelease.TornLetsGo` | store/file_offload.c:532-538 | a tracked bundle whose file has no record: a run of a lost copy, a restore and a delivery ends custody without an acknowledgement |
| `CacheReport.FirstReport` | cache/src/v7_cache_custody.c:574-582 | the arrival of a new bundle adds exactly one number to the acknowledgements, its own to its custodian, if and only if the store has taken it and there is an open acknowledgement or room for one |
| `CacheReport.DuplicateReport` | cache/src/v7_cache_custody.c:519-526 | the same for a duplicate, whatever became of the first one |
| `CacheReport.ReportedArrived` | cache/src/v7_cache_custody.c:220-349 | in every run a custodian is told of a bundle only if that bundle arrived from it |
| `CacheReport.Opens` | cache/src/v7_cache_custody.c:235-270 | an acknowledgement opened at c waits until c + 10000, expires at c + 86400000, asks for local acknowledgement with an interval of 3000 ms, has this node's address and number, and is for this custodian and flow |
| `CacheReport.OpenTenSeconds` | cache/src/v7_cache_custody.c:247-251 | from the arrival that opens it at c, duplicate or new: in every run that ends before c + 10000 it is open, names the bundle and has no copy in flight, unless it is full with 16 numbers |
| `CacheReport.ClosedAndSent` | cache/src/v7_cache_fsm.c:179-193 | a round at c + 10000 or later closes it and a round 3000 ms later, within a day of c, sends it with exactly its numbers |
| `CacheLoss.LossCondition` | cache/src/v7_cache_custody.c:559-593 | a bundle taken into custody stays recoverable in every later run if and only if it was expired on arrival, or no store is configured, or the store wrote it with its payload as the last block |
| `CacheLoss.StoredByArrival` | cache/src/v7_cache_custody.c:528-598 | the state that the loss condition speaks about is the one after the arrival of the bundle |
| `CacheLoss.LostBundle` | cache/src/v7_cache_custody.c:574-582 | for every live bundle whose write failed or tore, or that was written with a block after its payload, there is a run that loses it while custody is held: the identifier is set, so leaving the queue state drops the only intact copy |
| `CacheLoss.SafeRun` | cache/src/v7_cache_fsm.c:109-139 | a bundle that was written with its payload last, or has no storage identifier, stays recoverable over every run |
| `CacheLeak.StepLeaks` | cache/src/v7_cache_fsm.c:30-66 | for every step: a file becomes one without a live entry if and only if the step evaluates its entry, idle and expired, or is the arrival of an expired bundle that is written in whole or in part; no step takes such a file away |
| `CacheLeak.LeakOverRun` | cache/src/v7_cache_fsm.c:162-177 | over every run the same: such a file was one before or some step of the run is one of these two; it is there at the end and has never been released |
| `CacheLeak.FilesHaveEntries` | cache/src/v7_cache_fsm.c:162-177 | in every run from the empty cache, a file has a live entry that is not held over if and only if no step of the run was one of these two |
| `LeakRuns.LateArrivalLeaks` | cache/src/v7_cache_custody.c:574-598 | a concrete bundle that has expired on arrival: its file is there after every run from the empty cache that starts with its arrival |
| `LeakRuns.LateLookLeaks` | cache/src/v7_cache_fsm.c:34-38 | a concrete run from the empty cache that ends with a look at an expired idle entry with a file |
| `CacheAck.DuplicateAtRisk` | cache/src/v7_cache_custody.c:519-526 | a duplicate of a bundle whose file does not hold it is acknowledged, and the bundle can still be lost |
| `CacheAck.AckCondition` | cache/src/v7_cache_custody.c:519-582 | a bundle can be acknowledged to its previous custodian and then be lost while custody of it is held if and only if it is alive on its first arrival and a store was asked to write it and did not, or wrote it with a block after its payload |
| `BlockOrder.DecodeBlocks` | v7/src/v7_codec_common.c:252-276 | the decoder puts each block into the list before it has a number, so the list of a received bundle is in reverse order |
| `BlockOrder.ReceivedOrder` | mpool/src/v7_mpool_bblocks.c:313-343 | a received bundle has its payload last in memory if and only if it has no other block |
| `BlockOrder.TrackedOrder` | cache/src/v7_cache_custody.c:29-47 | the block that the cache inserts goes first, and leaves the payload last or not as it was |
| `BlockOrder.StoreDecides` | cache/src/v7_cache_custody.c:559-593 | a written bundle in custody is never lost if and only if its file restores it in a block that is in use |
| `BlockOrder.ReceivedLost` | cache/src/v7_cache_custody.c:559-593 | every received bundle with an extension block, so every one that asks for an acknowledgement, can be lost although the store wrote all of it; its file comes back as a recycled bundle |
| `BlockOrder.GeneratedKept` | lib/src/v7_dataservice_api.c:112-126 | a bundle generated here has its payload last, with or without the block of the cache, and is never lost once it is written |
| `CacheIndex.MatcherGuides` | cache/src/v7_cache_custody.c:49-76 | in an index ordered by hash and then by name, the match functions point the right way everywhere, whatever the hash does |
| `CacheIndex.CompareChain` | v7/src/v7.c:82-111 | the comparison of names is transitive, so that it orders the index totally |
| `CacheIndex.NamesDistinct` | cache/src/v7_cache_custody.c:393-410 | no two entries of an index have the same name |
| `CacheIndex.HashIndex.Find` | cache/src/v7_cache_custody.c:412-441 | a lookup finds the entry of a name exactly if there is one, despite hash collisions |
| `CacheIndex.HashIndex.Add` | cache/src/v7_cache_custody.c:541-549 | an entry is added exactly if its name is not there yet, and the index stays ordered |
| `CacheIndex.HashIndex.Remove` | cache/src/v7_cache_custody.c:469-477 | removing an entry keeps the index ordered |
| `EntryIndex.OneName` | cache/src/v7_cache_custody.c:393-410 | no two entries of an index have the same name, whatever the hash |
| `EntryIndex.Shelf.Find` | cache/src/v7_cache_custody.c:412-441 | the search by name returns the one entry of that name, or none exactly if there is none |
| `CacheBook.FindsBundle` | cache/src/v7_cache_custody.c:412-441 | searching the tree for sequence number and flow is the lookup that the runs of the cache are stated with |
| `CacheBook.FindsAck` | cache/src/v7_cache_custody.c:78-102 | the same for the open acknowledgement of a custodian and a flow |
| `CacheBook.ExecuteBook` | cache/src/v7_cache_fsm.c:332-392 | what an evaluation changes in the indices: a closed acknowledgement leaves its index, a live entry gets its new time |
| `CacheBook.TakeDueBook` | cache/src/v7_cache.c:140-162 | clearing the times in the index is taking the due entries in the cache |
| `CacheImpl.Cache.FsmExecute` | cache/src/v7_cache_fsm.c:332-392 | the program's evaluation, transition, rescheduling and placing of an entry is the step of the model; `CacheTrip.TripSeen`, `CacheResend.SentAgain`, `CacheRelease.ReleaseCondition` and `CacheProgress.NextLookTime` say what that step does with egress, custody and times |
| `CacheImpl.Cache.TransitionState` | cache/src/v7_cache_fsm.c:278-324 | exit actions, then entry actions, with their effects on copies, store and acknowledgement index; the retransmit time set on leaving the queue state is the one of `CacheResend.SentAgain` |
| `CacheImpl.Cache.AppendDacs` | cache/src/v7_cache_custody.c:288-319 | the search loop and the append compute the payload of the model |
| `CacheJoined.CustodyCache.FsmExecute` | cache/src/v7_cache_fsm.c:195-237 | the evaluation on fields and trees together: the step of the model, after which all three indices hold exactly what they should |
| `CacheJoined.CustodyCache.FindExistingBundle` | cache/src/v7_cache_custody.c:412-441 | the lookup in the hashed tree finds the bundle of the model and marks it as active |
| `CacheJoined.CustodyCache.FindPendingDacs` | cache/src/v7_cache_custody.c:78-102 | the lookup in the hashed tree finds the open acknowledgement of the model |
| `CacheJoined.CustodyCache.AckTrackingBlock` | cache/src/v7_cache_custody.c:321-349 | search, opening and append on the trees are the acknowledgement of the model |
| `CacheJoined.CustodyCache.StoreBundle` | cache/src/v7_cache_custody.c:502-608 | storing a bundle, with its lookups in the trees, is the step of the model and keeps the invariant of fields and indices; `CacheRelease.ReleaseCondition`, `CacheReport.FirstReport` and `CacheReport.DuplicateReport` say what that step does with the delivery policy and the acknowledgements |
| `CacheJoined.CustodyCache.ProcessRemoteDacs` | cache/src/v7_cache_custody.c:443-467 | the loop over the acknowledged numbers, each looked up in the tree, is the step of the model |
| `CacheJoined.CustodyCache.DoPoll` | cache/src/v7_cache.c:140-162 | the poll on the tree of the timers makes exactly what it takes pending, every entry whose time has come among it, and index and entries agree again |
| `CacheJoined.CustodyCache.FlushPending` | cache/src/v7_cache.c:120-138 | the loop over the pending list computes the flush of the model and keeps all indices right |
| `CacheJoined.CustodyCache.PollEvent` | cache/src/v7_cache.c:212-241 | a poll event reads the clock, reads it again to poll the tree, and flushes: the model's poll and flush, with the invariant of fields and indices kept |
| `CacheJoined.CustodyCache.EgressImpl` | cache/src/v7_cache.c:66-118 | the loop over the egress queue is a run of arrivals and acknowledgements and keeps the invariant of fields and indices |
| `CacheJoined.NewCustodyCache` | cache/src/v7_cache.c:249-271 | a new cache is the initial state of the runs, with empty indices, for any two hash functions |
| `CacheJoined.CustodyCache.DestructBlockref` | cache/src/v7_cache.c:373-393 | after the destructor of a copy no copy is in flight, its entry is on the pending list once and on no other, and the invariant of fields and indices holds |
| `CacheJoined.CustodyCache.RecordEgress` | lib/src/v7_cla_api.c:240-246 | recording that a copy was sent is the step of the model and keeps the invariant of fields and indices |
| `CacheJoined.CustodyCache.DestructEntry` | cache/src/v7_cache.c:312-352 | a destroyed entry is in none of the three indices and on no list, no copy refers to it, and the invariant of fields and indices holds for the others |
| `CacheJoined.OneOpenAck` | cache/src/v7_cache_custody.c:220-349 | after every operation, whatever the hash: the tree of acknowledgements holds one per custodian and flow, each being built, with distinct numbers and fewer than 16 |
| `CacheJoined.TimerInTree` | cache/src/v7_cache_fsm.c:195-237 | after every operation every live entry is on exactly one of the pending and idle lists, and an idle one has its link in the tree of the timers, at most an hour away and not after the time it waits for |
| `CrcPoly.Division` | common/src/crc.c:88-188 | long division over the two-element field yields a quotient and a remainder of lower degree |
| `CrcPoly.DivisionUnique` | common/src/crc.c:88-188 | quotient and remainder are unique |
| `CrcPoly.RegisterIsRemainder` | common/src/crc.c:129-162 | the bit-serial shift register holds the remainder of the message moved up by the width, with the initial value on top |
| `CrcTable.LookupFeeds` | common/src/crc.c:88-112 | one table lookup is eight shifts of the register, for any width of at least eight and any polynomial |
| `CrcTable.DigestIsRemainder` | common/src/crc.c:88-128 | for every byte string the table-driven digest is the one polynomial of lower degree that differs from the message by a multiple of the generator |
| `CrcTable.DigestConcat` | common/src/crc.c:235-238 | updating over a concatenation is updating over the parts |
| `CrcBurst.BurstShows` | common/src/crc.c:88-112 | for a generator with constant term one: two messages that differ within as many consecutive bits as the register has leave different registers, from every initial value |
| `CrcEngine.PrecomputeCrcByte` | common/src/crc.c:129-162 | the table entry, computed left-justified in 32 bits, is the register of the given width after eight shifts |
| `CrcEngine.PrecomputeReflection` | common/src/crc.c:164-188 | the reflection of a byte has its bits reversed |
| `CrcEngine.CrcInit` | common/src/crc.c:197-218 | after initialisation all tables hold their values for every byte |
| `CrcEngine.DigestBytes` | common/src/crc.c:88-112 | the digest loop over the tables computes the digest, for both register widths |
| `CrcEngine.Finalize` | common/src/crc.c:240-282 | byte-wise and bit-wise reflection, final exclusive or and mask, for every width up to 32 |
| `CrcEngine.CrcX25` | common/src/crc.c:295-298 | CRC-16/X-25 of every message is the reflected and complemented remainder for 0x1021 |
| `CrcEngine.CrcCastagnoli` | common/src/crc.c:295-298 | CRC-32C of every message is the reflected and complemented remainder for 0x1EDC6F41 |
| `CrcEngine.CheckOfNothing` | common/src/crc.c:295-298 | the check value of no data is zero |
| `CrcBurst.CheckShows` | common/src/crc.c:240-298 | and have different check values |
| `CrcBurst.GeneratorsOdd` | common/src/crc.c:197-218 | both generators of the program have constant term one |
| `PoolRing.InsertAfter` | mpool/src/v7_mpool.c:299-308 | insertion after the head of a circular list puts the node first and keeps the ring closed both ways |
| `PoolRing.InsertBefore` | mpool/src/v7_mpool.c:315-324 | insertion before the head puts it last |
| `PoolRing.ExtractNode` | mpool/src/v7_mpool.c:331-337 | extraction closes the gap wherever the node was, and leaves it single |
| `PoolRing.MergeList` | mpool/src/v7_mpool.c:344-355 | merging joins two rings into one with both heads |
| `PoolQueue.SubQueue.PushSingle` | mpool/src/v7_mpool_flows.c:122-126 | a push appends and counts modulo 2^32 |
| `PoolQueue.SubQueue.PullSingle` | mpool/src/v7_mpool_flows.c:213-228 | a pull returns the oldest push that was not pulled yet |
| `PoolQueue.SubQueue.MergeFrom` | mpool/src/v7_mpool_flows.c:154-166 | merging a list counts and appends it in order and leaves it empty |
| `PoolQueue.SubQueue.MoveAll` | mpool/src/v7_mpool_flows.c:173-187 | moving a queue appends its contents in order and empties it; all counters stay right |
| `PoolQueue.SubQueue.GetDepth` | mpool/src/v7_mpool_flows.c:122-228 | the difference of the wrapping counters is the length of the list |
| `PoolQueue.CountBlocks` | mpool/src/v7_mpool_flows.c:133-147 | the counting loop yields the length of the ring without its head |
| `PoolFlow.Flows.WaitForSpace` | mpool/src/v7_mpool_flows.c:255-272 | whatever others do during the waits: it waits exactly while there is no space for the quantity and the time is not over, and success means there is space now, by the wrapping counters and by the contents |
| `PoolFlow.Flows.WaitForFill` | mpool/src/v7_mpool_flows.c:281-296 | the same for a queue that must hold a number of blocks |
| `PoolFlow.Flows.TryPush` | mpool/src/v7_mpool_flows.c:303-330 | success means space after the last wait; then the contents are those met with the block behind them, and within the limit; otherwise only others changed anything |
| `PoolFlow.Flows.TryPull` | mpool/src/v7_mpool_flows.c:332-355 | success means the queue was not empty after the last wait; then the oldest block is returned and the contents are the rest |
| `PoolFlow.Flows.TryMoveAll` | mpool/src/v7_mpool_flows.c:357-404 | the last wait is for what the source held at some wake-up, and the move is made exactly if the destination has that space; then the contents of the destination are those met followed by all of the source, which is empty, and all counters stay right, even if the source grew during the waits |
| `PoolFlow.Fifo` | mpool/src/v7_mpool_flows.c:122-228 | for any number of queues and any sequence of pushes, pulls and moves between them: what came out of a queue, followed by what is in it, is what was in it, followed by what went in |
| `PoolFlow.Serve` | mpool/src/v7_mpool_flows.c:303-404 | any sequence of calls of the three operations is a sequence of such deeds |
| `PoolInv.StripKeeps` | mpool/src/v7_mpool.c:966-1002 | merging the nested lists of a dead block into the recycle queue keeps every block in exactly one place |
| `PoolRun.ApplyKeeps` | mpool/src/v7_mpool.c:503-704 | every step of allocation, lists, references and collection, in any interleaving, keeps the invariant of the pool |
| `PoolRun.OnePlace` | mpool/src/v7_mpool.c:503-704 | in every reachable state each block is in exactly one of: free, recycled, being collected, in use, or one list of one block, and only once |
| `PoolRun.References` | mpool/src/v7_mpool_ref.c:39-168 | in every reachable state the count is the number of references held by clients plus reference blocks; a referenced block is never recycled, and what the collector meets has count zero |
| `PoolRun.DoomedOnce` | mpool/src/v7_mpool_ref.c:139-168 | a block is marked for recycling exactly by the step that takes its last reference, and loses that mark exactly by being recycled |
| `PoolRun.RecycledPerRelease` | mpool/src/v7_mpool_ref.c:139-168 | in every run a block is recycled for want of references as often as its last reference goes away, and at most the last recycling is still owed |
| `PoolInv.CollectStartKeeps` | mpool/src/v7_mpool.c:931-941 | the assertion of the collector that the count is zero never fails |
| `PoolInv.CreatedInv` | mpool/src/v7_mpool.c:1169-1237 | a new pool has all blocks free |
| `PoolDrain.CollectEnds` | mpool/src/v7_mpool.c:915-1018 | collection ends: every turn frees one block and takes none, so as many turns as there are blocks empty the recycle queue |
| `PoolDrain.DrainFreesTrees` | mpool/src/v7_mpool.c:966-1012 | after draining, every dead block and everything nested in it at any depth is free and blank |
| `PoolDrain.CollectOneFrees` | mpool/src/v7_mpool.c:929-1013 | one turn frees the first recycled block and recycles exactly what was nested in it and a target that lost its last reference |
| `PoolDrain.CollectorTurns` | mpool/src/v7_mpool.c:929-1013 | the turn of the collector is one that frees, so the results about draining hold for it |
| `PoolDrain.ReserveRange` | mpool/src/v7_mpool.c:534-542 | the reserve falls with the priority from the whole threshold to zero, as long as the product fits 32 bits |
| `PoolDrain.HighPriorityExact` | mpool/src/v7_mpool.c:534-542 | the highest priority may use every block if and only if the threshold times 255 fits 32 bits; beyond that the product wraps and blocks are held back |
| `PoolDrain.ThresholdExact` | mpool/src/v7_mpool.c:1225-1230 | the threshold is 30 percent of the blocks if and only if the product fits 32 bits |
| `PoolDrain.LargePoolWraps` | mpool/src/v7_mpool.c:1225-1230 | 150 million blocks give a threshold of 2050327 instead of 45 million; a threshold of 20 million holds back 16843010 blocks from the highest priority |
| `PoolDrain.AllocLeaves` | mpool/src/v7_mpool.c:534-580 | an allocation leaves the reserve for its priority, and the watermark covers the use |
| `PoolOrder.AllocExact` | mpool/src/v7_mpool.c:534-621 | a block is given exactly if that leaves at least the reserve; it is the first of the free queue, of the kind asked for, empty and unreferenced, and no other block is touched |
| `PoolOrder.QueueOrder` | mpool/src/v7_mpool.c:299-337 | in every run and every interleaving: blocks leave the free queue, the recycle queue and every embedded list in the order in which they entered it |
| `PoolOrder.WatermarkExact` | mpool/src/v7_mpool.c:576-580 | in every run the watermark is the most blocks that were ever out of the free queue |
| `PoolImpl.Pool.AllocBlockInternal` | mpool/src/v7_mpool.c:503-621 | allocation takes the first free block exactly if more than the reserve for its priority is free, the kind is a real one and its content type is registered and fits |
| `PoolImpl.Pool.RefRelease` | mpool/src/v7_mpool_ref.c:139-168 | for the holder of a reference: there is one reference less, the object is recycled exactly if no client and no reference block refers to it any more, no other block is touched, and the invariant of the pool holds |
| `PoolImpl.Pool.RefMakeBlock` | mpool/src/v7_mpool_ref.c:90-113 | made exactly if the pool has a block to give: a block that was free becomes one more reference to the object, no other block but the object's count is touched, and the invariant of the pool holds |
| `PoolImpl.Pool.CollectBlocks` | mpool/src/v7_mpool.c:915-1018 | the loop makes up to the limit of turns and stops early only if nothing is left |
| `Stream.Reader.Read` | mpool/src/v7_mpstream.c:217-270 | every read returns the addressed slice of the concatenated blocks, as far as there is one, and moves the position by its length |
| `Stream.Reader.Seek` | mpool/src/v7_mpstream.c:98-215 | a seek on a read stream ends at the smaller of target and length, forward and backward, with empty blocks allowed |
| `Stream.Writer.Write` | mpool/src/v7_mpstream.c:45-96 | a write appends the data, all of it unless there is no room left in the block and the pool; afterwards the last block ends at the position exactly if it did before or something was written |
| `Stream.Writer.Seek` | mpool/src/v7_mpstream.c:98-215 | forward the gap is filled with zeros as far as there is room, and the last block ends at the position if the stream moved; backward the data after the target is dropped, and the last block never ends at the position |
| `Stream.Writer.Attach` | mpool/src/v7_mpstream.c:272-281 | the bytes handed over start with those written, and are no more if and only if the last block ends at the position |
| `StreamTrip.PerformAll` | mpool/src/v7_mpstream.c:45-215 | any sequence of writes and seeks: the stream holds what the operations carried out amount to; without a step back all are carried out in full if and only if the blocks suffice |
| `StreamTrip.ReadAll` | mpool/src/v7_mpstream.c:98-270 | any sequence of reads and seeks returns, piece by piece, the bytes at the places reached |
| `StreamTrip.RoundTrip` | mpool/src/v7_mpstream.c:45-281 | write in any way, hand over, read in any way: the blocks hold exactly what was written if and only if the last operation that moved the stream did not move it back; for writes and forward seeks for which the blocks suffice, every read brings the bytes asked for |
| `StreamTrip.ForwardNeat` | mpool/src/v7_mpstream.c:98-171 | operations without a step back are of that kind |
| `StreamTrip.WritesJoin` | mpool/src/v7_mpstream.c:45-96 | writing in any number of parts amounts to writing the whole |
| `StreamTrip.StepBackStays` | mpool/src/v7_mpstream.c:178-212 | two bytes written, one step back, handed over: the blocks hold more than what was written |
| `Stream.CborExport` | mpool/src/v7_mpool_bblocks.c:246-306 | the export copies a slice of the bytes from the start position, all that was asked for if that fits the buffer |
| `Offload.RoundTrip` | store/file_offload.c:300-491 | every saved bundle below 4 GB: if no block follows its payload it is restored with the same primary data and the same blocks in the order of re-insertion; otherwise the check value is right all the same and the outcome is success with a recycled bundle that ends with the payload |
| `Offload.PayloadFirst` | store/file_offload.c:371-491 | the list of a received bundle with one extension block comes back as a recycled bundle with one block: the payload followed by the bytes of the extension block |
| `Offload.BlocksWritten` | store/file_offload.c:411-491 | all bytes are consumed in any case, and all blocks are read exactly if none follows a payload |
| `Offload.OversizeCutOff` | store/file_offload.c:210-235 | a body of 4 GB and more is never read to its end, since the byte count wraps: a restore succeeds only if a proper prefix has the same check value |
| `Offload.RoundTripOrder` | store/file_offload.c:411-491 | with a payload numbered one at the end: extension blocks come back in reverse order, then the payload with the same bytes in new chunks |
| `Offload.ChunkedJoins` | store/file_offload.c:371-400 | reading the payload in chunks of any capacity loses nothing |
| `Offload.TornRestores` | store/file_offload.c:546-616 | a file with some bytes whose record was never written is accepted as a blank bundle, because the check value of no data is zero |
| `Offload.AcceptedIfChecked` | store/file_offload.c:583-597 | for every file: it is accepted if and only if the bytes that are read, no more than there are and than the record promises, have the check value of the record |
| `Damage.DamageRefused` | store/file_offload.c:583-597 | for a generator with constant term one: a file hit by a burst of at most 32 bits is refused if it is still read to its end |
| `Damage.DamagedBundle` | store/file_offload.c:546-616 | in particular if the bytes are still those of a bundle of this form |
| `Damage.PayloadDamage` | store/file_offload.c:583-597 | the file of every saved bundle with its payload last is refused if one byte of the payload is changed |
| `OffloadImpl.Writer.WriteBlocks` | store/file_offload.c:300-345 | the writing loops succeed exactly if there is room and otherwise leave as many bytes of the body as there is room for; block count and byte count modulo 2^32 and CRC stay in step |
| `OffloadImpl.Writer.WritePayload` | store/file_offload.c:269-298 | size words and chunks of the payload, in order |
| `OffloadImpl.OffloadBundle` | store/file_offload.c:493-544 | for every bundle: success exactly if body and record can be written, and then the file is the saved bundle; otherwise the file has no record and the bytes for which there was room |
| `OffloadImpl.Reader.ReadChunks` | store/file_offload.c:347-409 | the chunk loop reads everything that the record promises |
| `OffloadImpl.Reader.ReadBlocks` | store/file_offload.c:411-491 | the reading loops compute the parser of the model, with the partial bundle on failure, and digest exactly the bytes they consume |
| `OffloadImpl.RestoreBundle` | store/file_offload.c:546-616 | restoring reads as far as it can, compares the check value of the bytes that were read (`Offload.AcceptedIfChecked`), and hands over a bundle that could not be read to its end as a recycled one |
| `OffloadImpl.CastagnoliInParts` | store/file_offload.c:210-267 | the running CRC over pieces is the CRC of the whole |
| `OffloadImpl.CastagnoliChecks` | store/file_offload.c:210-235 | the running CRC of the file is the remainder of the division of all its bytes |
| `Routing.NoGapsExact` | lib/src/v7_routing.c:510-514 | the mask test accepts exactly the masks of leading ones |
| `Routing.CoversExact` | lib/src/v7_routing.c:525-528 | for such masks the comparison decides which is more specific |
| `Routing.MatchIsPrefix` | lib/src/v7_routing.c:442-442 | a route matches exactly if the destination agrees in the bits of its prefix |
| `Routing.UnknownUnusable` | lib/src/v7_routing.c:444-457 | a route to an unknown interface is never chosen when flags are required |
| `Routing.UsableExact` | lib/src/v7_routing.c:444-457 | bit by bit: with a nonzero mask a route is usable if and only if its interface is known and has exactly the required flags of those under the mask; with a zero mask if and only if nothing is required |
| `Routing.CandidateExact` | lib/src/v7_routing.c:442-457 | a route is a candidate if and only if it agrees with the destination in the bits of its mask and is usable in that sense |
| `Routing.AllFlagsSet` | lib/src/v7_routing.c:464-467 | with the same flags as mask: all of them are set |
| `Routing.RouteTable.Add` | lib/src/v7_routing.c:499-553 | a route is added exactly if there is room, the mask has no gaps and the route is new; it goes behind all that are at least as specific and the table stays ordered |
| `Routing.RouteTable.Delete` | lib/src/v7_routing.c:555-591 | a route is deleted exactly if it is there; the others keep their order |
| `Routing.RouteTable.NextIntfWithFlags` | lib/src/v7_routing.c:429-462 | the interface returned has exactly the required flags bit by bit, and its route leads to the destination and is the most specific of all such, and the oldest among equals; none is returned only if no route is such |

## Left out

- RbDelete.ExtractNode: requires that a link which is attached is attached to this tree; the program only looks at whether it is attached to something. The cache asks first (`RbSearch.NodeIsMember`), or knows from the key.
- RbInsert.InnerCorrect: the program connects the turned link to the grandparent directly; the model calls the same rotation as everywhere, with the same effect on all pointers.
- RbBalance.NearRedCase: the same for the close nephew.
- Keys are modelled modulo 2^63, as the colour bit leaves them; the clock of `CacheJoined.CustodyCache` is required to be nonzero and an hour below that.
- CacheRun.ApplyKeeps: the clock of the cache is assumed not to run backwards, and the convergence layer to record egress with a nonzero time.
- EntryIndex.Shelf.Find: an entry has one hash link, which is in one of two trees or in none; the model gives each index links of its own.
- CacheJoined.CustodyCache.FsmExecute: the acknowledgement leaves its index, and the link of a timer moves, after the fields of the entry have changed; in the program in between, with the same result.
- The destination index, the counters of state changes, log output, `bplib_cache_do_route_up`, and the configuration and attachment of the cache are not modelled.
- CacheTheorems.CustodySafe: speaks about bundles that arrive as reference blocks, as everything in the agent does; a bare block leaves no reference behind.
- CacheLoss.LossCondition: a bundle that comes back recycled counts as lost from then on; what else goes wrong when a recycled block is used is not modelled. Bundles are taken to be smaller than 4 GB.
- PoolRun.ApplyKeeps: clients release each reference once, append and recycle only blocks that nothing refers to, and do not touch blocks they gave back; the cache does the latter when it makes a discarded entry pending, and when it uses a recycled bundle, and the pool's counters are not claimed for that.
- PoolDrain.DrainFreesTrees: user destructors are not run; the cache's are modelled in the cache.
- PoolImpl.Pool.AllocBlockInternal: whether the content type is registered and fits is an input; the registry itself is a red-black tree and not modelled again. Constructors are not run. The queues of the pool are sequences here; that the linked queues with their counters behave like sequences is `PoolQueue`.
- PoolFlow.Flows.TryMoveAll: assumes fewer than 2^31 blocks, so that the sum of two depths does not wrap.
- PoolDrain.ReserveRange: is stated for thresholds up to 2^32 / 255; beyond, `PoolDrain.HighPriorityExact` says what is left of it.
- Locks, condition variables and the job list are modelled only as atomic steps with arbitrary interference.
- Offload.RoundTrip: running out of pool blocks while restoring is not modelled.
- OffloadImpl.OffloadBundle: a record of which only some bytes are written is not modelled, nor a file that cannot be opened or of which nothing can be written.
- Stream.Writer.Write: how many blocks the pool has left is an input, and blocks that a step back gives up are not available again, since the collector has to free them first.
- File names, directories, seeking and syncing are not modelled: a file is its record and its bytes. The magic number of the record is written and never checked by the program, so it is not in the model.
- BlockOrder.DecodeBlocks: blocks are decoded already; the CBOR codecs are not modelled.
- CrcEngine.DigestBytes: one loop for both register widths, where the program has a copy for each.
- The hash of the cache indices is an arbitrary function.
- Convergence layers, the operating system layer, interface deletion and dataservice attachment are not modelled.
