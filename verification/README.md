# Verified model of the assertion executor

The assertion executor validates transactions against assertion contracts that adopters have registered on
chain. This project models its four hard components in Dafny and proves how each behaves over every run:

- **The indexer** follows a chain that can reorganise. It keeps block hashes and pending modifications by
  block number, rewinds on a reorg, indexes in chunks and moves old modifications into the assertion store.
  The chain is any finite well-formed block tree, shared by all syncs of a run; each sync names its head.
- **The assertion store** folds additions and removals per adopter, under concurrent calls, and answers
  which assertion functions are due for what a transaction did.
- **The databases**: a layer of mutations over an inner database, a pair of forks with shared accounts and
  a journal hand-over, and a shared read-through cache.
- **Verdicts and traces**: which transactions are kept, and which slot history a revertible journal shows.

`dafny verify dfyconfig.toml` checks everything.

## How it is organised

| file | content |
|---|---|
| `Types.dfy`, `Store.dfy` | exchanged values; the store object and its fold, grouping and replay laws |
| `StoreConcurrency.dfy` | interleavings of store calls and their linearization |
| `ActivityWindow.dfy` | stored windows against timelines |
| `StoreMeaning.dfy` | what an edit does to a list, entry by entry, and what a reader is handed |
| `Chain.dfy` | the block tree, chains, the reorg check |
| `Indexer.dfy` | what each indexer operation computes, as functions on the indexer's state |
| `Mirror.dfy`, `Tracking.dfy`, `IndexerRuns.dfy` | the invariant, one sync, all runs without failed hash lookups |
| `IndexerOrphans.dfy`, `IndexerTheorems.dfy`, `IndexerLeak.dfy` | runs with failures of every kind, the theorems, and what an unsafe sync puts into the store |
| `Pruning.dfy`, `LogOrder.dfy`, `IndexerObject.dfy` | the indexer object with its loops, each method proved to compute the function of `Indexer.dfy` |
| `Journal.dfy`, `StateChanges.dfy` | the revertible journal and the slot history read off it |
| `ForkDb.dfy`, `MultiForkDb.dfy`, `ForkReverts.dfy`, `Overlay.dfy`, `OverlayProofs.dfy` | the databases |
| `Triggers.dfy`, `Executor.dfy` | from traces to due functions; validation of transactions; the worker counters |

## What the proofs found

These follow the code; each has a lemma with an exact condition or a concrete history.

- A reorg can only be followed when the new head is at most one block above the old tip. The walk for the
  common ancestor starts at the update block's parent and gives up at the first number the hash tree does
  not have (`SyncSucceedsIff`).
- The record written while rewinding pairs the ancestor's number with the update block's parent. If the next
  log query fails, a retry succeeds exactly when that parent was already known; otherwise no sync towards a
  head at least as high ever succeeds again (`RetryAfterFaultSucceedsIff`, `TransientFaultWedges`).
- A hash lookup that fails after the pending batch was written leaves orphans: pending modifications of blocks
  without a recorded hash. A later sync is safe if the block of its own chain at each such number has
  modifications too, so that they are overwritten; a sync towards the same block or a descendant always is
  (`RunHolds`, `RetryRestoresMirror`). An unsafe sync leaves them under its own blocks, and they can reach the
  store (`MirrorsIffSafe`, `HashFaultLeaks`).
- A revert undoes only what the active fork journaled. A persistent account's slot that was changed in one fork
  and reverted in the other keeps the change (`RevertedValue`, `RevertRestoresIff`, `WriteElsewhereStays`).
- An assertion removed and added again with the same effective block stays inactive for good
  (`WindowAgreesIff`, `SameBlockReaddIsLost`).
- The overlay's commits do not look at self-destruction, so the overlay and the fork database agree on an
  account's storage exactly when it was never destroyed (`StorageAgreesIffNeverDestroyed`).
- The assertion contract's account is shared by both forks exactly when its status is touched
  (`ContractIsSharedIffTouched`).
- Where code and comments differ, the model follows the code: removing an unknown assertion changes nothing
  although a comment says that it is added (src/store/assertion_store.rs:439-446), and a failed transaction
  is reported valid but not committed (src/executor/mod.rs:157-160).

## Model

| member | source | states |
|---|---|---|
| `Chain.CheckIfReorged` | src/utils/reorg_utils.rs:30-61 | terminates on every well-formed tree; fails exactly if the update is below the last indexed number; otherwise says no reorg exactly if the last indexed block is the update block or an ancestor |
| `Chain.PathIsChain` | src/utils/reorg_utils.rs:40-61 | a block's chain ends in it, starts at genesis, and has each block's parent before it |
| `Chain.ModsAreTheBlocks` | src/store/indexer.rs:557-563 | the modifications of a chain's first blocks are the blocks' own lists one after the other |
| `IndexerObject.Indexer.PruneTo` | src/store/indexer.rs:347-365 | pops exactly the known blocks below a number and returns all their modifications in block order |
| `IndexerObject.Indexer.PruneFrom` | src/store/indexer.rs:368-383 | removes exactly the known blocks from a number on, with their pending modifications |
| `IndexerObject.Indexer.FindCommonAncestor` | src/store/indexer.rs:388-409 | the cursor loop computes the recursive parent walk, errors included |
| `Tracking.WalkFindsGreatestCommonBlock` | src/store/indexer.rs:388-409 | on a hash tree that mirrors a chain the walk succeeds exactly if the new chain's parent lies inside the tree and the chains share the lowest kept block; it then returns the greatest height on which the two chains agree |
| `Tracking.WalkMeans` | src/store/indexer.rs:388-409 | on any hash tree: when the walk returns which height, when it finds no common ancestor, and when it runs off genesis |
| `IndexerObject.Indexer.MovePendingModificationsToStore` | src/store/indexer.rs:491-518 | the new trees and store for every bound, bound zero included |
| `IndexerObject.GroupLogs` | src/store/indexer.rs:536-553 | logs in any order end up in the group of their block, under their log index |
| `IndexerObject.ValuesInOrder` | src/store/indexer.rs:557-563 | walking a group in key order gives the block's modifications in log order |
| `IndexerObject.BuildBatch` | src/store/indexer.rs:536-566 | for every answer to the log query, in any order, the batch maps each block of the range that has modifications to the block's own list, and nothing else |
| `IndexerObject.Indexer.FetchHashes` | src/store/indexer.rs:576-594 | the hashes of exactly the blocks of the range |
| `IndexerObject.Indexer.IndexRange` | src/store/indexer.rs:522-630 | the state left by a range, for success and for a failure at each of the three remote calls |
| `IndexerObject.Indexer.StartOfSync` | src/store/indexer.rs:447-472 | the reorg check, the rewind and the height at which indexing starts, or the error with nothing changed |
| `IndexerObject.Indexer.Sync` | src/store/indexer.rs:444-487 | the object's whole new state and error for every sync |
| `IndexerObject.Indexer.IndexFrom` | src/store/indexer.rs:473-484 | the chunk loop terminates and computes consecutive ranges |
| `Mirror.FirstChunk` | src/store/indexer.rs:475-484 | the loop's first range is as long as the limit and the end allow, and the rest starts right after it |
| `Mirror.ChunksWithinLimit` | src/store/indexer.rs:475-484 | the loop asks for nothing but ranges within the limit, between its start and its end |
| `Mirror.RangeMovesUpToTag` | src/store/indexer.rs:491-500 | a bound of zero moves nothing, any other exactly the known blocks up to and including it |
| `LogOrder.BatchIsPending` | src/store/indexer.rs:536-566 | a batch that orders every group is the range's pending batch |
| `Pruning.PopAdvances` | src/store/indexer.rs:351-356 | popping the least known block extends the popped range past it and collects exactly its modifications |
| `Mirror.MovePreserves` | src/store/indexer.rs:491-518 | moving keeps the invariant: store = replay of the first blocks of the chain, trees = the rest |
| `Mirror.RewindPreserves` | src/store/indexer.rs:368-383 | rewinding keeps the invariant for the shorter chain: exactly the abandoned blocks and their modifications are gone |
| `Mirror.WritePreserves` | src/store/indexer.rs:565-606 | writing the next range extends the mirrored chain by exactly that range |
| `Mirror.MirrorsUnique` | src/store/indexer.rs:491-518 | chain, cut and record determine the whole state |
| `Mirror.HashFaultKeepsMirrorIff` | src/store/indexer.rs:565-588 | after a failed hash lookup the state still mirrors some chain exactly if the range has no modifications |
| `Tracking.InterimRecord` | src/store/indexer.rs:460-465 | the record written by the rewind carries the ancestor's hash exactly if the ancestor is the direct parent |
| `Tracking.PlanGoesAheadIff` | src/store/indexer.rs:447-472 | a sync gets past its checks exactly on recoverable updates |
| `Tracking.PlanSound` | src/store/indexer.rs:447-472 | where indexing starts, the state mirrors a block shared by the old and the new chain |
| `IndexerOrphans.ChunksCarry` | src/store/indexer.rs:473-484 | indexing a state with orphans does what it does without them, overwrites the orphans it comes by and keeps the others |
| `IndexerOrphans.HashFaultOrphans` | src/store/indexer.rs:565-588 | a failed hash lookup in any chunk leaves what a failed log query in that chunk leaves, plus that chunk's pending batch |
| `OrphanRuns.StepHolds` | src/store/indexer.rs:444-487 | one safe sync under any fault: without its orphans the state mirrors the new chain or a prefix, orphans lie above it, blocks already in the store stay canonical |
| `OrphanRuns.RunHolds` | src/store/indexer.rs:444-518 | the same over every run of safe syncs to any heads, with reorgs and faults of every kind anywhere |
| `OrphanRuns.RunWithoutHashFaultsIsSafe` | src/store/indexer.rs:444-518 | every run without failed hash lookups is safe |
| `OrphanRuns.RetryRestoresMirror` | src/store/indexer.rs:444-606 | after a sync that failed anywhere, a successful sync towards the same block or a descendant leaves no orphans and mirrors its chain |
| `OrphanRuns.MirrorsIffSafe` | src/store/indexer.rs:565-606 | a fault-free sync that goes ahead and moves no orphaned block leaves a mirror of its chain exactly if it was safe |
| `IndexerTheorems.CompletedRunReplaysCanonicalChain` | src/store/indexer.rs:444-518 | after any safe run, faults included, that ends in a successful sync there is a cut below which the store is the replay of the canonical blocks' own lists and from which on the trees hold exactly its blocks, with orphans only above the head |
| `IndexerTheorems.MirrorsTheTree` | src/store/indexer.rs:444-518 | what such a mirror holds, entry by entry, in terms of the block tree |
| `IndexerTheorems.CompletedRunWithoutHashFaults` | src/store/indexer.rs:444-518 | without failed hash lookups every run is safe and the whole state is such a mirror |
| `IndexerTheorems.StoreFollowsChainTimelineIff` | src/store/indexer.rs:444-518 | with the cut at which the store is the replay of the canonical chain, the store reports each assertion active exactly as the timeline of the blocks below the cut does, if and only if that timeline is representable |
| `IndexerTheorems.ReadersFollowChain` | src/store/assertion_store.rs:261-360 | after such a run a read of an adopter gives exactly one answer for an assertion if the canonical chain's timeline is active at the block, from the last addition of a representable timeline on, and none otherwise |
| `IndexerTheorems.StoreOnlyGrows` | src/store/indexer.rs:491-518 | a safe run only applies modifications of further blocks of the same chain on top of the store |
| `IndexerTheorems.ChunkSizeIndependence` | src/store/indexer.rs:473-484 | any two chunk sizes give the same state and outcome |
| `IndexerTheorems.SyncSucceedsIff` | src/store/indexer.rs:444-487 | without faults a sync succeeds exactly on recoverable updates and otherwise changes nothing |
| `IndexerTheorems.FaultAfterRewind` | src/store/indexer.rs:454-484 | what a failed log query leaves right after a rewind |
| `IndexerTheorems.RetryAfterFaultSucceedsIff` | src/store/indexer.rs:454-484 | a retry after such a failure succeeds exactly if the update's parent was on the old chain |
| `IndexerTheorems.TransientFaultWedges` | src/store/indexer.rs:454-484 | otherwise no later sync at least as high, with or without a fault, succeeds or changes anything |
| `IndexerLeak.HashFaultLeaks` | src/store/indexer.rs:565-626 | a failed hash lookup followed by a successful sync to a sibling puts the abandoned block's modifications into the store |
| `IndexerLeak.LeakContradictsReplay` | src/store/indexer.rs:565-626 | that store differs from the canonical replay as soon as an abandoned modification names a new adopter |
| `IndexerLeak.HashFaultLeakExample` | src/store/indexer.rs:565-626 | a concrete tree and run with this outcome |
| `Store.AssertionStore.Insert` | src/store/assertion_store.rs:150-183 | replaces the entry of the same id or appends, returns the previous entry, leaves other adopters alone |
| `Store.AssertionStore.GroupByAdopter` | src/store/assertion_store.rs:190-196 | every adopter's modifications in their original order |
| `Store.AssertionStore.ApplyPendingModifications` | src/store/assertion_store.rs:186-203 | grouping and applying in any adopter order equals applying the flat list one by one |
| `Store.AssertionStore.ApplyPendingModification` | src/store/assertion_store.rs:363-473 | one adopter's list becomes its fold over the modifications, and no other list changes |
| `StoreMeaning.ApplyToListEdits` | src/store/assertion_store.rs:387-450 | one modification sets the start or the end of the id's only entry, or appends one for an unknown id; all other entries stay and ids stay distinct |
| `StoreMeaning.InsertListInserts` | src/store/assertion_store.rs:171-180 | an insert replaces the id's only entry or appends one; all other entries stay and ids stay distinct |
| `StoreMeaning.ReplayStepByStep` | src/store/assertion_store.rs:186-203 | one more modification edits its own adopter's list in this way and leaves every other list alone |
| `Store.GroupingIsFlatReplay` | src/store/assertion_store.rs:186-203 | groups in any order of the adopters give the flat replay |
| `Store.ApplyAllAppend` | src/store/assertion_store.rs:387-450 | applying A ++ B is applying A, then B |
| `Store.ApplyAllPointwise` | src/store/assertion_store.rs:363-450 | each adopter's list depends on its own modifications only |
| `StoreLinearizability.Linearizable` | src/store/assertion_store.rs:150-183 | under every interleaving the store is the completed operations applied one after the other in the order of their writes, each exactly once |
| `StoreLinearizability.RealTimeOrder` | src/store/assertion_store.rs:363-473 | a call completed before another was invoked comes first in that order |
| `StoreLinearizability.RetriesAreBounded` | src/store/assertion_store.rs:452-469 | every failed swap is paid for by a write to the same adopter that completed after the call was invoked and before it took effect |
| `StoreLinearizability.SequentiallyIsCalls` | src/store/assertion_store.rs:150-203 | the sequential order is one call of the store object's methods after the other |
| `StoreLinearizability.UndisturbedModifyCompletes` | src/store/assertion_store.rs:363-473 | a call that nobody disturbs completes at its first swap with the effect the object's method promises |
| `StoreLinearizability.InsertCompletes` | src/store/assertion_store.rs:150-183 | an insert completes in its one step with the effect the object's method promises |
| `StoreLinearizability.SwapDecides` | src/store/assertion_store.rs:450-469 | a swap completes its call exactly if the entry is as it was read, and otherwise changes nothing and retries |
| `StoreLinearizability.EveryCallCanComplete` | src/store/assertion_store.rs:363-473 | from every reachable state a call completes by at most a swap, a read and a swap of its own |
| `StoreLinearizability.NextKeepsLinear` | src/store/assertion_store.rs:363-473 | every scheduler step keeps the invariant behind these |
| `ActivityWindow.LookupIsFold` | src/store/assertion_store.rs:387-450 | the stored entry of an id is the fold of that id's history |
| `StoreMeaning.FoldKeepsFirst` | src/store/assertion_store.rs:406-418 | the stored contract and triggers are those of the id's first addition |
| `StoreMeaning.ReadsListOnce` | src/store/assertion_store.rs:297-357 | on a list with distinct ids a read gives one answer for an id in its window and none for any other |
| `StoreMeaning.ReaderFollowsHistory` | src/store/assertion_store.rs:297-357 | on a store replayed from nothing a read gives exactly one answer for an id if the fold of its history is in its window, and none otherwise |
| `ActivityWindow.WindowAgreesIff` | src/store/assertion_store.rs:297-315 | for every chronological history the stored pair agrees with the timeline from the last addition on exactly if the history is representable |
| `ActivityWindow.StoreAgreesWithTimelineIff` | src/store/assertion_store.rs:297-315 | the same for an entry of a stored list |
| `ActivityWindow.EarlierIntervalsForgotten` | src/store/assertion_store.rs:406-409 | below the last addition nothing is reported active |
| `ActivityWindow.SameBlockReaddIsLost` | src/store/assertion_store.rs:297-315 | a removal and re-addition at one block: the store and the timeline differ |
| `Triggers.CallTracer.RecordCall` | src/inspectors/tracer.rs:40-55 | the map holds exactly the recorded calls by target and selector, in order |
| `Triggers.SelectorMeans` | src/inspectors/tracer.rs:45-49 | the selector is the number written by the first four bytes, or zero for a shorter input |
| `Triggers.SameKeyIff` | src/inspectors/tracer.rs:45-54 | two such calls share a key exactly if target and first four bytes agree |
| `Triggers.RecordedUnderItsBytes` | src/inspectors/tracer.rs:40-55 | every recorded call is found under its target and the selector its input starts with |
| `Triggers.CallsWithChooses` | src/inspectors/tracer.rs:51-54 | the calls kept under a key are chosen one by one, in order |
| `Triggers.CallTracer.GetTriggers` | src/inspectors/tracer.rs:69-115 | lists exactly what fired: recorded calls, changed slots, both sides of balance transfers |
| `Triggers.SelectFunctions` | src/store/assertion_store.rs:317-352 | the selectors registered for a fired trigger or for the catch-all of its kind, independent of iteration order |
| `Triggers.ReadAdopter` | src/store/assertion_store.rs:261-360 | one answer for every stored assertion in its window, in list order |
| `Triggers.Read` | src/store/assertion_store.rs:207-250 | the answers of all triggered adopters one after the other, each adopter once, in any map order; fails exactly if the block number exceeds 64 bits |
| `Triggers.PickedIffDue` | src/store/assertion_store.rs:316-356 | a selector is picked for an adopter exactly if it is registered for something that happened to that adopter |
| `Journal.GetDifferences` | src/inspectors/precompiles/state_changes.rs:54-92 | the loop over the flattened journal computes the old values followed by the present one, error cases included |
| `Journal.DifferencesErrors` | src/inspectors/precompiles/state_changes.rs:78-89 | which error arises: the journal changed the slot but its account, or the slot, is not loaded; and the result is empty exactly if it did not change it |
| `Journal.UndoRestores` | src/inspectors/precompiles/state_changes.rs:61-74 | undoing entries restores what every slot held before them |
| `StateChangesProof.RunRelated` | contract-mocks/src/precompiles/TestGetStateChanges.sol:28-41 | at every point of every run the journal agrees with a machine that copies its whole memory at each checkpoint |
| `StateChangesProof.DifferencesAreSurvivingHistory` | src/inspectors/precompiles/state_changes.rs:54-92 | for every run of writes, checkpoints, commits and reverts: empty if no surviving write changed the slot, else the start value and each surviving new value, adjacent values distinct, the last one present; no error arises |
| `ForkDb.ForkDatabase.Commit` | src/db/fork_db.rs:90-137 | the new layer after a commit, for whatever order the map yields its accounts |
| `ForkDb.CommitOrderIrrelevant` | src/db/fork_db.rs:90-137 | that order does not matter |
| `ForkDb.CommitReads` | src/db/fork_db.rs:55-137 | account and slot reads after a commit: untouched accounts ignored, self-destruct zeroes every slot |
| `ForkDb.CommitCode` | src/db/fork_db.rs:77-110 | code reads after a commit |
| `ForkDb.RefinesFlat` | src/db/fork_db.rs:53-138 | over any sequence of commits account, slot and code reads equal those of a flat database, and block hashes are the inner database's |
| `ForkDb.RecreationHidesInner` | src/db/fork_db.rs:95-105 | after a self-destruct no later history shows a slot of the inner database |
| `ForkDb.ForkDatabase.ReplaceInnerDb` | src/db/fork_db.rs:153-159 | only the inner database changes, and the previous one is returned |
| `ForkDb.ForkDatabase.InsertAccountInfo` | src/db/fork_db.rs:163-165 | only that account's info changes |
| `MultiForkDb.UpdateJournaledState` | src/db/multi_fork_db.rs:143-185 | the merged accounts, the padded journal and the copied depth |
| `MultiForkDb.MultiForkDatabase.SwitchFork` | src/db/multi_fork_db.rs:89-140 | the whole new database, both journals and the error for every switch |
| `MultiForkRuns.MergeShares` | src/db/multi_fork_db.rs:168-185 | if the target tracks no more slots than the active fork, merging makes persistent accounts equal and leaves others alone |
| `MultiForkRuns.MergeMeans` | src/db/multi_fork_db.rs:168-185 | whatever the target tracks: the active fork's info, its value for every slot it tracks, the target's for the others |
| `MultiForkRuns.PaddedMeans` | src/db/multi_fork_db.rs:152-156 | the target keeps its own frames and gets empty ones up to the active journal's length |
| `MultiForkTheorems.RunShows` | src/db/multi_fork_db.rs:72-185 | every run keeps one shared part and one part per fork; the two ids stay bound to their databases; no switch fails |
| `MultiForkTheorems.OneTimelineForPersistentAccounts` | src/db/multi_fork_db.rs:89-185 | a persistent account's slot reads the last value put in either fork, any other slot the last one put in the active fork |
| `MultiForkTheorems.OneTimelineForInfos` | src/db/multi_fork_db.rs:89-185 | the same for balance, nonce and code |
| `MultiForkTheorems.ReentryIsExact` | src/db/multi_fork_db.rs:89-140 | a fork re-entered shows every other account exactly as it was left |
| `MultiForkTheorems.FrameRun` | src/db/multi_fork_db.rs:152-162 | over every run of checkpoints, commits, reverts, entries and switches each open checkpoint lies inside the active journal and the depth is their number |
| `ForkReverts.RevertedValue` | src/db/multi_fork_db.rs:143-185 | after a checkpoint, any writes and switches and a revert, a persistent account's slot holds what the first change in the fork active at the revert replaced, or its last value if there was none |
| `ForkReverts.RevertRestoresIff` | src/db/multi_fork_db.rs:143-185 | the exact condition on the writes and switches under which the revert restores the slot |
| `ForkReverts.RestoredIfChangedHere` | src/db/multi_fork_db.rs:152-162 | a slot changed only in the fork of the revert is restored; one changed for good only in the other fork is not |
| `ForkReverts.WriteElsewhereStays` | src/db/multi_fork_db.rs:152-162 | a write, a switch and a revert: the write stays |
| `ForkReverts.RunsArePoised` | src/db/multi_fork_db.rs:89-140 | every run of writes and switches leaves a state from which the above holds |
| `InstalledAccounts.InsertAssertionContract` | src/executor/mod.rs:447-503 | the layer after committing and shielding the contract and the caller, in either commit order |
| `InstalledAccounts.InsertPrecompileAccount` | src/inspectors/phevm.rs:233-246 | the layer after inserting and shielding the precompile account |
| `InstalledAccounts.InstalledReads` | src/executor/mod.rs:447-503 | after any switches the installed accounts read the same in both forks and every other address reads the active fork's database |
| `InstalledAccounts.InstalledContents` | src/executor/mod.rs:465-496 | the installed accounts read as the info and slots that were installed, and zero elsewhere, whatever the database holds |
| `InstalledAccounts.InstalledAt` | src/inspectors/phevm.rs:233-246 | which accounts the installation puts into the layer and shields from the inner database |
| `InstalledAccounts.SwitchesKeepLayer` | src/db/multi_fork_db.rs:89-140 | switches exchange nothing but the inner database |
| `InstalledAccounts.ContractIsSharedIffTouched` | src/executor/mod.rs:465-488 | the contract's account is the same over every database exactly if its status is touched |
| `Overlay.OverlayDb.Basic` | src/db/overlay/mod.rs:180-209 | the answer and the cache left behind, misses, absences and errors included |
| `Overlay.OverlayDb.Storage` | src/db/overlay/active_overlay.rs:135-154 | the same for slots |
| `Overlay.OverlayDb.Code` | src/db/overlay/mod.rs:211-234 | the same for code |
| `Overlay.OverlayDb.BlockHash` | src/db/overlay/mod.rs:260-282 | the same for block hashes |
| `Overlay.OverlayDb.Commit` | src/db/overlay/mod.rs:319-347 | the cache after a commit, for any account order |
| `Overlay.OverlayDb.CreateOverlay` | src/db/overlay/mod.rs:158-164 | the new overlay has its own database and the parent's cache |
| `OverlayProofs.PlayCacheRun` | src/db/overlay/mod.rs:158-282 | overlays created from one parent, read and evicted in any order, leave the cache of the run |
| `OverlayProofs.ReadsAreTransparent` | src/db/overlay/mod.rs:158-282 | overlays sharing a cache over agreeing databases always read what their database returns, under any eviction, and every entry's variant fits its key |
| `OverlayProofs.ReadsReturnTheDatabases` | src/db/overlay/mod.rs:177-282 | the database's value where it returns one, an error where it does not |
| `OverlayProofs.ReadsAreShared` | src/db/overlay/active_overlay.rs:83-175 | a value read by one overlay is there for every other on the same cache; a failed read leaves nothing behind |
| `OverlayProofs.ReadsWithoutDatabase` | src/db/overlay/mod.rs:177-282 | what is read when there is no underlying database |
| `OverlayProofs.UncommittedIsFetched` | src/db/overlay/mod.rs:177-347 | over any run of reads, commits and evictions, an entry no commit wrote is what the database returns |
| `OverlayProofs.OverlayRefinesBlindFlat` | src/db/overlay/mod.rs:177-347 | over any run of reads, commits and evictions that spare committed entries the overlay reads like a flat database that ignores self-destruction |
| `OverlayProofs.OverlayAgreesWithFork` | src/db/overlay/mod.rs:177-347 | over such runs without self-destructs it answers account, slot and code reads like a fork database given the same commits |
| `OverlayProofs.StorageAgreesIffNeverDestroyed` | src/db/overlay/mod.rs:318-347 | over such runs it does so for all slots of an account over all databases exactly if the account was never destroyed |
| `Executor.CollectInvalid` | src/executor/mod.rs:178-182 | the ids of all functions of every contract with a failing function |
| `Executor.NoInvalidIffNothingFailed` | src/executor/mod.rs:178-184 | no ids exactly if every result of every contract succeeded |
| `Executor.InvalidIdsMeans` | src/executor/mod.rs:178-182 | the ids are exactly those of all functions of every contract with a failing function |
| `Executor.AskedIffDue` | src/executor/mod.rs:211-217 | what the store hands out for a transaction is exactly what is due on it |
| `Executor.RunAssertionContract` | src/executor/mod.rs:248-309 | one result per selector, the sum of the gas and the number of runs; fails exactly if one function ends in an EVM error |
| `Executor.RunAsked` | src/executor/mod.rs:226-243 | one execution for every contract asked for, in order; an error only if one of their functions ends in an EVM error |
| `Executor.ExecuteAssertions` | src/executor/mod.rs:201-245 | fails exactly if the block number is out of range or a due function errs; returns the executions of exactly what the store hands out; shows no failure exactly if every due function succeeds |
| `Executor.ValidateTransaction` | src/executor/mod.rs:137-199 | the database becomes the committed one exactly if the transaction succeeded and the EVM accepts every due function on the databases before and after it; the verdict, the error and the reported executions in every case |
| `Executor.AfterMeans` | src/executor/mod.rs:150-199 | the same over the EVM's answers on the database before and after the commit |
| `Executor.ErrsMeans` | src/executor/mod.rs:153-171 | exactly when validation itself fails |
| `Executor.ReportMeans` | src/executor/mod.rs:356-376 | every reported result is the EVM's for that function on these two databases |
| `Executor.ValidateAll` | src/executor/mod.rs:137-199 | validating one transaction after the other leaves the database with exactly the accepted commits, and every verdict is right for the state it was given in |
| `Executor.RunKeepsExactlyAccepted` | src/executor/mod.rs:137-199 | over any sequence of transactions the database is the fold of exactly the accepted commits |
| `Executor.RunReadsLikeAccepted` | src/executor/mod.rs:137-199 | its reads are those of the flat database after these commits |
| `AssertionWorkers.CountersMatchResults` | src/executor/mod.rs:368-369 | for every interleaving of the workers the counters end as the sum of the gas and the number of results, modulo 2^64 |
| `AssertionWorkers.ReportHasTheCounters` | src/executor/mod.rs:293-306 | whatever the interleaving, the workers' counters end as the totals in the contract's report |

## Left out

- The RPC provider, block subscription, DA client and websocket plumbing: a snapshot of a block tree and its
  modification lists stands for them. The snapshot, the canonical chain and the block to move up to do not
  change during one sync.
- sled and bincode: trees are maps ordered by block number. That serialized keys sort like numbers is assumed.
- Crash points between two writes of one step, and failures of the embedded database itself.
- 64-bit overflow of block numbers in `sync`, and `max_blocks_per_call` zero, with which the loop does not work.
- OrphanRuns.RunHolds: covers runs of safe syncs, because after an unsafe one the property is false; the exact
  condition is `MirrorsIffSafe`, stated for syncs that do not move the orphaned blocks at once.
- StoreLinearizability.Linearizable: treats each locked section as one step and leaves out lock poisoning and storage errors.
- The EVM, precompile dispatch, ABI coding, gas repricing and `extract_assertion_contract`: what they return is
  a parameter, so a transaction stands together with its block environment and external database.
- Executor.ExecuteAssertions: does not say which of several errors is returned, because the source's parallel
  collection does not fix that either.
- revm's journal beyond slot writes, other entries, checkpoints, commits and reverts.
- ForkReverts.RevertedValue: has no nested checkpoints between the checkpoint and its revert, and starts where the
  inactive fork's journal is not the longer one; a longer one, left over from an earlier revert, has frames of its
  own that the revert undoes as well.
- The initial journaled state handed to a switch is one with nothing loaded and one empty frame.
- ForkDb.CommitCode: assumes that accounts of one commit with equal code hashes have equal code.
- moka's policy: any entries may disappear at any time. `UnsafeCell` and Send/Sync claims of `ActiveOverlay`.
- OverlayProofs.OverlayAgreesWithFork: committed entries are not evicted, as the cache is their only copy; any
  other entry may be, at any time.
- The conversion between U256 and B256 is the identity, and the log index stored inside a modification is dropped.
- `fill_tx_env`, `ExecutorConfig`, `BlockChanges::merge_state`, the log and adopter precompiles, benches, fuzz
  targets and mocks: they would only add easy members.
