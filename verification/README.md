# Verified model of the Memory-first-Store object store

A Dafny model of the mutable object store, its durability and tiering layer, the flush worker
with its SQL query copy, the page-store lock, and the sorted set. `dafny verify dfyconfig.toml`
checks everything.

The store keeps values and metadata in memory and writes behind: a flush collects dirty entries
under the lock, calls the backend without it, then commits or requeues. Beside it stand a
write-ahead log, checkpoints, cold generations listed by a manifest, persistent tombstones,
policy demotion, compaction and read-through promotion. The central results say when all of
these together behave like one plain map that knows nothing but the client's calls: always, for
keys without a time-to-idle whose edits see the value a read would; and for the rest, exactly
when every step heeds a condition that can be checked before it.

## How it is organised

| files | contents |
|---|---|
| `Store`, `StoreObject` | the store as a value with one function per operation; the class with sharded queues, each method proved against its function |
| `Cold`, `ColdDisk`, `ColdObject` | the cold tier as a value; its file operations with a crash after any of them; the class that scans, publishes and compacts |
| `World`, `WorldSteps`, `WorldFrame`, `WorldRuns` | the state machine of seventeen step kinds, its invariant, what each step leaves alone, and the theorems over whole runs |
| `PlainMap` | the map of the client's calls, and the exact conditions under which the store agrees with it |
| `Tiering`, `Races`, `Policy` | demotion and promotion, the races around them, and the demotion policy |
| `Log`, `Durability`, `Recovery`, `RecoveryObject`, `LostWrites` | log, checkpoint, crash and recovery; the loading passes; where recovery loses something and exactly when |
| `Bytes`, `Framing`, `Checksum`, `Wal`, `LogFile`, `CheckpointFile`, `CrashFile`, `ColdCodec`, `ColdManifest` | the file formats |
| `FlushWorker`, `SqlCopy` | the worker's protocol and class; the LSN-guarded rows |
| `Locks`, `Ordering`, `SortedSet`, `Types` | the lock protocol, key order, the two-index sorted set, shared vocabulary |

## Assumptions

- A mutator is one atomic step. The code writes the value under the shard lock and draws the
  version after releasing it (crates/mfs-compat/src/object_store.rs:1488-1496), so two racing
  mutators of one key may interleave more finely.
- Flush, demotion and checkpoint are serialised by the persistence handle, which takes itself
  mutably (crates/mfs-compat/src/object_store_durability.rs:164-189, 226-239).
- A cold lookup, and a read-modify-write of the manifest, is one step. The promotion that reads
  first and promotes later is the exception, treated in `Tiering.SplitPromotion`.
- In the crash theorems a checkpoint's records, metadata and LSN come from one moment;
  `LostWrites.PutAgainstRacyCheckpoint` covers the order the code uses.
- A failed append ends at a record boundary, and a log that is appended to is whole;
  `Wal.AppendedAfterTearIsLost` says what happens otherwise.
- Renames are atomic and synced bytes persist; an unsynced log keeps some prefix of its bytes.
- Counters are unbounded, except where wrap-around is the subject (`WorkerModel.CounterReading`,
  `Checksum`, and the field widths of the file formats).
- `pushed_at` of a dirty entry always equals its version in the code, so the model has one field.

## What turned out not to hold

Each of these has a concrete counterexample and an exact condition, both as lemmas.

- A cold record read before, and promoted after, a flushed delete brings the value back:
  `Races.DeletedKeyComesBack`, `Tiering.SplitPromotion`.
- A read between a demotion's snapshot and its eviction can make a TTI key vanish:
  `Races.ReadKeyVanishes`, `Tiering.RacingEviction`, `PlainMap.EvictAgrees`.
- Typed mutators do not look at the cold tier: `Races.DemotedKeyIsUnseen`,
  `Tiering.MutatorSeesTheReadValue`.
- `evict_clean` drops a write or delete that is still dirty, and brings a deleted key with a cold
  copy back: `Races.UncheckedEvictionLosesWrite` and `Tiering.UncheckedEviction`,
  `Races.UncheckedEvictionResurrects` and `Tiering.UncheckedEvictionReads`.
- `write_checkpoint` reads the LSN after the snapshot, so a put in between is filtered out of
  recovery: `LostWrites.RacingPutIsLost`, `LostWrites.PutAgainstRacyCheckpoint`.
- `recover` does not move the clock past the checkpoint's LSN, so the next lifetime's first write
  can be filtered out: `LostWrites.SecondLifetimeLosesPut`, `LostWrites.NextLifetimePut`.
- Expiry metadata is read when the batch reaches the backend, so a rewrite or delete after the
  collect drops the logged deadline: `LostWrites.RewriteLosesDeadline`,
  `LostWrites.LoggedExpiryAfterAnyRun`.
- A checkpoint drops expired keys without a tombstone, which can bring back an older cold value
  after a flushed and synced checkpoint: `LostWrites.ExpiredKeyComesBack`,
  `LostWrites.ExpiredKeyAfterCheckpoint`.
- Recovery turns the clock back to the last loaded stamp, so a key that had passed its deadline
  can be readable again: `LostWrites.DeadlinePassesTwice`, `Recovery.CrashKeepsReads`.
- A delete with the highest LSN makes the SQL row depend on arrival order:
  `SqlCopy.OrderMatters`, `SqlCopy.OrderIndependentIff`.
- The queue counter can wrap below zero, because a record is counted after it is sent:
  `WorkerModel.CounterCanWrap`, `WorkerModel.CounterReading`.
- An object key that starts with the metadata prefix is read back as metadata:
  `LogFile.PrefixedKeyIsMisread`, `LogFile.RecordComesBack`.
- Writers have no size limit where readers do: `Wal.OversizedRecordHidesTheRest` and
  `Wal.FrameReadsBack`, `ColdCodec.OversizedFieldIsRefused` and `ColdCodec.FieldReadsBack`,
  `ColdManifest.OversizedTombstoneBreaksManifest` and `ColdManifest.ManifestReadsBack`.
- Opening a log neither truncates nor repairs it, so what is appended to a log that a crash has
  cut may never be replayed: `Wal.AppendedAfterTearIsLost` (a tear inside a frame's header, for
  every codec), `Wal.AppendedAfterTornBody` (behind it), `Wal.AppendedAtBoundaryIsKept`.

## Model

| member | source | states |
|---|---|---|
| `WorldSteps.StepKeeps` | crates/mfs-compat/src/object_store.rs:1300-2691 | the global invariant (value, metadata, dirty entries, in-flight job, cold copies, tombstones and backend all agree with one reference map) survives every one of the seventeen step kinds, in any interleaving of client calls with the phases of a flush or a demotion |
| `WorldSteps.InitialHolds` | crates/mfs-compat/src/object_store.rs:1161-1193 | the empty store, empty cold tier and empty backend satisfy the global invariant |
| `WorldSteps.ReadKeeps` | crates/mfs-compat/src/object_store_durability.rs:446-458 | a read-through get (hot, else cold with promotion, then hot again) answers exactly what the reference map holds, expiry included, and keeps the invariant |
| `WorldSteps.PutKeeps` | crates/mfs-compat/src/object_store.rs:1488-1496 | a put at any moment of a flush or a demotion keeps the invariant, with the reference map updated at its key |
| `WorldSteps.DeleteKeeps` | crates/mfs-compat/src/object_store.rs:1869-1876 | a delete at any moment keeps the invariant and removes the key from the reference |
| `WorldSteps.MutateKeeps` | crates/mfs-compat/src/object_store.rs:1631-1685 | any typed read-modify-write, as one atomic step with an arbitrary edit function, keeps the invariant |
| `WorldSteps.GetKeeps` | crates/mfs-compat/src/object_store.rs:1499-1511 | a hot get, which may expire the key or touch it, keeps the invariant and moves the reference only by that expiry or touch |
| `WorldSteps.PromoteKeeps` | crates/mfs-compat/src/object_store.rs:1752-1785 | promoting what the cold tier returns never changes the reference map |
| `WorldSteps.CollectKeeps` | crates/mfs-compat/src/object_store.rs:2579-2644 | phase one of a flush drains entries, drops stale ones and defers busy ones, and loses no current entry |
| `WorldSteps.AcceptKeeps` | crates/mfs-compat/src/object_store_durability.rs:570-585 | phase two, accepted: backend and cold tombstones advance together and the invariant holds before the store has cleaned anything up |
| `WorldSteps.RejectKeeps` | crates/mfs-compat/src/object_store.rs:2657-2663 | phase two, refused after any part of the batch landed, or after all of it and its cold tombstones did: the invariant still holds |
| `WorldSteps.CommitKeeps` | crates/mfs-compat/src/object_store.rs:2550-2567 | phase three after success: cleanup removes only tombstones whose version is still the flushed one |
| `WorldSteps.RequeueKeeps` | crates/mfs-compat/src/object_store.rs:1477-1485 | phase three after failure: every collected entry is queued again |
| `WorldSteps.PublishKeeps` | crates/mfs-compat/src/object_store_durability.rs:728-749 | publishing a generation of snapshotted cells keeps per-key versions non-decreasing in generation id |
| `WorldSteps.EvictSucceeds` | crates/mfs-compat/src/object_store.rs:1844-1866 | evicting an unchanged version of a published key keeps the invariant |
| `WorldSteps.EvictFails` | crates/mfs-compat/src/object_store.rs:1844-1866 | an eviction that finds a newer version, a tombstone or a dirty entry changes nothing and is recorded as failed |
| `WorldSteps.FinishDemotionKeeps` | crates/mfs-compat/src/object_store_durability.rs:898-917 | tombstoning the cold copies whose eviction failed blocks exactly those copies |
| `WorldSteps.AbortDemotionKeeps` | crates/mfs-compat/src/object_store_durability.rs:880-917 | a demotion that stops with an error, before or after publishing and without its tombstones, keeps the invariant |
| `WorldSteps.GcKeeps` | crates/mfs-compat/src/object_store_durability.rs:751-837 | compaction keeps the invariant |
| `WorldRuns.RunKeeps` | crates/mfs-compat/src/object_store.rs:1300-2691 | the invariant over whole runs; the map the tiers stand for is the replay of the events as the store carried them out, an eviction's touch included |
| `WorldRuns.ReadsFollowReference` | crates/mfs-compat/src/object_store_durability.rs:446-458 | after every run from empty, a read through hot store and cold tier answers what the map the two tiers stand for holds; the next rows compare that map with one that knows only the calls |
| `PlainMap.StepAgreesIff` | crates/mfs-compat/src/object_store.rs:1300-2691 | for every step: store and plain map (changed by client calls alone, from its own contents) stay in agreement about a key if and only if the step heeds it: an edit of an unseen cold copy has the same outcome either way, a memory-only get misses no touch that matters, an eviction leaves a stamp that ends no earlier |
| `PlainMap.ReadsFollowPlainMap` | crates/mfs-compat/src/object_store_durability.rs:446-458 | after every run from empty whose steps heed the key, TTI or not, a read through both tiers answers what the plain map of the calls answers |
| `PlainMap.UntimedReadsFollowPlainMap` | crates/mfs-compat/src/object_store_durability.rs:446-458 | for a key never put with a time-to-idle, the same in every run whose edits of the key see what a read would return, whatever is flushed, demoted, evicted, promoted or compacted |
| `PlainMap.ReadsAreNeverAhead` | crates/mfs-compat/src/object_store_durability.rs:446-458 | in every run whose edits are handed the plain value, a read shows the plain value or nothing: same data, and a touch no later than the plain map's |
| `PlainMap.HeedingIsObservable` | crates/mfs-compat/src/object_store.rs:1844-1866 | heeding is exactly what reads can tell: from agreement, a step heeds the key if and only if every read of it, at once or after any wait, still answers as the plain map does |
| `PlainMap.EvictAgrees` | crates/mfs-compat/src/object_store.rs:1844-1866 | the eviction case: agreement survives if and only if the published stamp ends when the one in memory does |
| `WorldRuns.AbsentUntilWritten` | crates/mfs-compat/src/object_store.rs:2550-2567 | a key absent from the reference stays absent until an event writes it |
| `WorldRuns.NoResurrection` | crates/mfs-compat/src/object_store.rs:2550-2665 | a key that reads as absent reads as absent after every continuation that does not write it, whatever flushes, cleanups, demotions, promotions and compactions happen |
| `WorldRuns.NoLostDirtyWrite` | crates/mfs-compat/src/object_store.rs:2569-2665 | at every point of every run, a key's current version is either accepted by the backend with its current value or delete, or has an entry of exactly that version and operation queued or in flight |
| `WorldRuns.SentVersionsNeverDecrease` | crates/mfs-compat/src/object_store.rs:2569-2665 | over every run the version the backend holds for a key never goes down |
| `WorldRuns.NothingPendingMeansMatched` | crates/mfs-compat/src/object_store.rs:2527-2548 | an idle store with empty dirty queues has a backend equal to its value map |
| `WorldRuns.RoundDrains` | crates/mfs-compat/src/object_store.rs:2569-2665 | one uninterrupted flush round removes exactly its drained entries from the queues and leaves the reference alone |
| `WorldRuns.BoundedFlushesConverge` | crates/mfs-compat/src/object_store.rs:2527-2665 | repeated flushes of at most n entries, n at least one, empty the queues within as many rounds as there were entries and leave the backend equal to the value map |
| `WorldFrame.StepFrames` | crates/mfs-compat/src/object_store.rs:1300-2691 | every step either gives a key a fresh, pending version or leaves its version, its data and (without TTI, until it expires) its cold copy as they were; clocks never go back; only an accepted batch settles a pending key |
| `Tiering.DemotionIsTransparent` | crates/mfs-compat/src/object_store_durability.rs:839-917 | demoting any selectable set of keys runs to the end, leaves every key's read-through value unchanged and removes exactly those keys from the hot store |
| `Tiering.PromotionUndoesDemotion` | crates/mfs-compat/src/object_store.rs:1752-1785 | promoting a demoted key restores its value, version, last touch, TTL and TTI exactly, with clocks and queues untouched |
| `Tiering.PromotionNeverOverwrites` | crates/mfs-compat/src/object_store.rs:1752-1785 | promotion is a no-op on any key that is hot, live or tombstoned |
| `Tiering.RacingEviction` | crates/mfs-compat/src/object_store.rs:1844-1866 | when reads come between snapshot and eviction, the evicted key reads as before exactly when the published touch has not idled out; without TTI it always does |
| `Tiering.MutatorSeesTheReadValue` | crates/mfs-compat/src/object_store.rs:1631-1685 | a typed mutator sees the value a read-through would return if and only if the key is hot or the cold tier has no unexpired copy |
| `Tiering.UncheckedEviction` | crates/mfs-compat/src/object_store.rs:1835-1842 | after evict_clean every flush drops the key's entry as stale: the backend ends up with the latest write or delete if and only if it had it already |
| `Tiering.UncheckedEvictionReads` | crates/mfs-compat/src/object_store.rs:1835-1842 | after evict_clean a read shows what the cold tier shows, so it answers as before if and only if the cold tier showed the current value, or nothing for a deleted or expired key |
| `Tiering.ReadEarlierOverRuns` | crates/mfs-compat/src/object_store_durability.rs:436-444 | over any run, the version of a cold record read at its start stays at or below the key's hot version and the reference's version, and its stamp below the clock |
| `Tiering.SplitPromotion` | crates/mfs-compat/src/object_store_durability.rs:436-444 | a promotion of a cold record read any number of steps earlier leaves the key's whole cell, touch included, as the reference has it if and only if the hot store refuses it or the cold tier would still return that record |
| `Races.DeleteAndFlushForgets` | crates/mfs-compat/src/object_store.rs:2550-2567 | deleting a cold key and flushing the delete removes all hot metadata of the key |
| `Races.StalePromotionResurrects` | crates/mfs-compat/src/object_store.rs:1752-1785 | for every reachable store: a stale cold record promoted after a flushed delete makes the deleted value readable again |
| `Races.DeletedKeyComesBack` | crates/mfs-compat/src/object_store_durability.rs:436-444 | a concrete run from empty that ends with a deleted key readable |
| `Races.RacingReadLosesKey` | crates/mfs-compat/src/object_store.rs:1844-1866 | for every reachable store: one read between snapshot and eviction makes a TTI key at its limit read as absent |
| `Races.ReadKeyVanishes` | crates/mfs-compat/src/object_store_durability.rs:898-917 | a concrete run from empty that ends with a just-read key absent, while the plain map of the same calls still shows it |
| `Races.DemotedKeyIsUnseen` | crates/mfs-compat/src/object_store.rs:1631-1685 | a concrete run from empty after which a mutator is handed nothing while a read returns the value |
| `Races.UncheckedEvictionLosesWrite` | crates/mfs-compat/src/object_store.rs:1835-1842 | a concrete dirty key whose write, after evict_clean and a full flush, is nowhere |
| `Races.UncheckedEvictionResurrects` | crates/mfs-compat/src/object_store.rs:1835-1842 | a concrete key with an unflushed delete that reads as absent and, after evict_clean, as its old value |
| `ColdTier.NewestDecides` | crates/mfs-compat/src/object_store_durability.rs:1173-1205 | on a reachable manifest the newest copy decides: the lookup returns it, or finds nothing when a tombstone blocks it |
| `ColdTier.PublishShadows` | crates/mfs-compat/src/object_store_durability.rs:1173-1205 | after publishing, a lookup of a published key gives the published cell unless a tombstone covers it, and other keys are unaffected |
| `ColdTier.TombstonesOnlyBlock` | crates/mfs-compat/src/object_store_durability.rs:977-1003 | recording tombstones never makes a lookup return something new |
| `ColdTier.GcKeepsLookups` | crates/mfs-compat/src/object_store_durability.rs:751-837 | compaction leaves each lookup as it was, or drops a copy that had lapsed; an older copy never comes up |
| `ColdTier.GcIsInvisible` | crates/mfs-compat/src/object_store_durability.rs:751-837 | promotion of any key into any store at or after the collection's clock gives the same result and the same store before and after compaction |
| `ColdDisk.NextIdUnused` | crates/mfs-compat/src/object_store_durability.rs:1005-1014 | the next generation id is above every referenced id |
| `ColdDisk.PublishIsCrashSafe` | crates/mfs-compat/src/object_store_durability.rs:728-749 | cut after any number of file operations of a publish, the manifest references only complete generations and the view is the old one, or the new one once the manifest is in place, even if leftover files have the reused id |
| `ColdDisk.GcIsCrashSafe` | crates/mfs-compat/src/object_store_durability.rs:806-834 | the same for compaction, including every point of its deletion of old files |
| `ColdObject.ColdBundle.constructor` | crates/mfs-compat/src/object_store_durability.rs:1357-1366 | no manifest is an empty tier |
| `ColdObject.ColdBundle.ReadRecord` | crates/mfs-compat/src/object_store_durability.rs:1173-1205 | the newest-first scan with tombstone filter returns exactly the tier's lookup |
| `ColdObject.ColdBundle.FindEntry` | crates/mfs-compat/src/object_store_durability.rs:1338-1355 | the scan of an index returns the first entry of the key |
| `ColdObject.ColdBundle.PublishEntries` | crates/mfs-compat/src/object_store_durability.rs:728-749 | the files afterwards show the old tier with one more generation |
| `ColdObject.ColdBundle.RecordColdTombstones` | crates/mfs-compat/src/object_store_durability.rs:977-1003 | per key the highest tombstone version wins, other keys keep theirs, and an empty batch writes nothing |
| `ColdObject.ColdBundle.Survey` | crates/mfs-compat/src/object_store_durability.rs:776-804 | the newest-first pass with its seen set collects exactly the survivors, and counts exactly the survivors and the expired keys |
| `ColdObject.ColdBundle.GcColdTier` | crates/mfs-compat/src/object_store_durability.rs:751-837 | the files afterwards show the compacted tier; the report counts exactly the survivors, the expired keys, and every old generation as removed |
| `Durability.BootIsSound` | crates/mfs-compat/src/object_store_durability.rs:355-386 | the empty machine satisfies the durability invariant |
| `Durability.DoKeeps` | crates/mfs-compat/src/object_store_durability.rs:164-239 | every action (client step, backend append whole or partial, sync, snapshot, checkpoint install, prune, truncate) keeps: latest checkpoint plus log above its LSN reproduce every settled key |
| `Durability.AcceptBatchKeeps` | crates/mfs-compat/src/object_store_durability.rs:587-617 | appending a batch with its metadata records settles exactly the keys of the batch |
| `Durability.RejectBatchKeeps` | crates/mfs-compat/src/object_store_durability.rs:570-585 | a batch that failed after any number of its records were appended, or after its tombstones were recorded too, keeps the invariant |
| `Durability.TakeSnapshotKeeps` | crates/mfs-compat/src/object_store_durability.rs:320-353 | a snapshot and its LSN cover every settled key |
| `Durability.InstallKeeps` | crates/mfs-compat/src/object_store_durability.rs:340-346 | after the rename, the new checkpoint and the old log together still recover everything |
| `Durability.PruneKeepsLatest` | crates/mfs-compat/src/object_store_durability.rs:1523-1545 | pruning never drops the newest checkpoint |
| `Durability.TruncateKeeps` | crates/mfs-compat/src/object_store_durability.rs:226-239 | truncating the log after the install loses nothing |
| `Log.FoldOfExpand` | crates/mfs-compat/src/object_store_durability.rs:587-617 | reading back a batch gives each of its keys its own record and metadata, and leaves every other key alone, whatever the order of the batch |
| `Log.FoldIgnoresPrefix` | crates/mfs-compat/src/object_store_durability.rs:364-372 | records at or below the LSN do not influence recovery |
| `Recovery.ClockStaysBehind` | crates/mfs-compat/src/object_store.rs:1249-1282 | the recovered clock never exceeds the clock at the crash |
| `Recovery.RereadIs` | crates/mfs-compat/src/object_store_durability.rs:355-386 | after any crash, for any key: a read shows the checkpoint's cell overridden by the log, else the cold copy, each judged at the recovered clock |
| `Recovery.CrashKeepsReads` | crates/mfs-compat/src/object_store_durability.rs:355-386 | after any run and a crash that keeps the log's synced part and any more of it, a settled, synced key reads through the recovered store as before if and only if: loaded, it is expired at the recovered clock exactly if it was before; not loaded, the cold tier shows its value exactly if it was not expired. Deleted keys, and unexpired keys without TTI, always do |
| `Recovery.CrashAfterAnyRun` | crates/mfs-compat/src/object_store_durability.rs:355-386 | the same for every key, quantified over every run of the machine from empty |
| `Recovery.CheckpointIsCrashAtomic` | crates/mfs-compat/src/object_store_durability.rs:226-239 | once flushed and synced, a crash after any number of the checkpoint's actions recovers the reads that held when it started, always for deleted keys and unexpired keys without TTI, and for every other key under exactly the same condition |
| `Recovery.CheckpointPlusSuffixIsFullReplay` | crates/mfs-compat/src/object_store_durability.rs:320-386 | before any demotion, checkpoint plus log suffix and replay of everything ever flushed give the same value, version and expiry, and both equal the reference |
| `RecoveryObject.Gather` | crates/mfs-compat/src/object_store_durability.rs:619-645 | the first pass, record by record, gathers for each key what folding the log gives |
| `RecoveryObject.ApplyPersistedRecords` | crates/mfs-compat/src/object_store_durability.rs:619-668 | the store then shows, for every key, exactly the outcome of the log; nothing becomes dirty; the clock is the least one above all loaded versions and touches |
| `RecoveryObject.SnapshotRepresents` | crates/mfs-compat/src/object_store.rs:2693-2728 | the records of a snapshot, read back, give the snapshot |
| `RecoveryObject.Recover` | crates/mfs-compat/src/object_store_durability.rs:355-386 | the two loading passes build a store with empty dirty queues whose contents are the recovered map, with the least admissible clock |
| `LostWrites.LoggedPutSurvives` | crates/mfs-compat/src/object_store_durability.rs:364-372 | a put in the log survives recovery if and only if its version is above the checkpoint's LSN or the checkpoint holds it |
| `LostWrites.PutAgainstRacyCheckpoint` | crates/mfs-compat/src/object_store_durability.rs:320-353 | the same for a checkpoint written in the order of the code, records from one moment and LSN from a later one: if and only if it is above that LSN or was there at the snapshot |
| `LostWrites.RacingPutIsLost` | crates/mfs-compat/src/object_store_durability.rs:325-328 | a concrete put, made between snapshot and LSN and then logged, is missing after recovery |
| `LostWrites.NextLifetimePut` | crates/mfs-compat/src/object_store_durability.rs:355-386 | the first write after a recovery survives a second one if and only if the recovered clock is above the checkpoint's LSN |
| `LostWrites.SecondLifetimeLosesPut` | crates/mfs-compat/src/object_store_durability.rs:355-386 | a concrete put, delete and checkpoint after which it does not |
| `LostWrites.LoggedExpirySurvives` | crates/mfs-compat/src/object_store_durability.rs:587-617 | the expiry a put had when it was collected comes back from the log if and only if it had none, or the key is still at that version at the backend call, or it is deleted by then and the log already carries that version's metadata |
| `LostWrites.LoggedExpiryAfterAnyRun` | crates/mfs-compat/src/object_store_durability.rs:587-668 | the same for every run of the machine before the collect and every run between the collect and the backend call |
| `LostWrites.HonestRun` | crates/mfs-compat/src/object_store_durability.rs:587-617 | in every run, expiry metadata in the log is that of the version it names |
| `LostWrites.RewriteLosesDeadline` | crates/mfs-compat/src/object_store_durability.rs:619-668 | a concrete put with a deadline that is rewritten with another, rewritten without one, or deleted between collect and backend call recovers without a deadline in all three cases |
| `LostWrites.ExpiredKeyAfterCheckpoint` | crates/mfs-compat/src/object_store.rs:2693-2728 | an expired, unread key is still absent after checkpoint and crash if and only if the cold tier has no copy, or the copy ends by the clock that promoting it or loading the snapshot moves to |
| `LostWrites.ExpiredKeyComesBack` | crates/mfs-compat/src/object_store.rs:2693-2728 | a concrete run from empty, through flush, demotion, rewrite with a deadline, flush, sync and checkpoint, whose key reads as absent before the crash and as its older value after it |
| `LostWrites.DeadlinePassesTwice` | crates/mfs-compat/src/object_store_durability.rs:355-386 | a concrete run from empty whose flushed and synced key has passed its deadline before the crash and is readable after it, because the recovered clock is behind |
| `StoreObject.MutableObjectStore.constructor` | crates/mfs-compat/src/object_store.rs:1161-1193 | an empty sharded store represents the empty abstract store |
| `StoreObject.MutableObjectStore.PushDirty` | crates/mfs-compat/src/object_store.rs:1300-1360 | an entry joins its own key's queue and the queues together gain exactly that entry |
| `StoreObject.MutableObjectStore.MarkDirty` | crates/mfs-compat/src/object_store.rs:1300-1360 | one new version, its metadata and its dirty entry, against the abstract step |
| `StoreObject.MutableObjectStore.Put` | crates/mfs-compat/src/object_store.rs:1562-1577 | refines the abstract put, returning the version it drew |
| `StoreObject.MutableObjectStore.Remove` | crates/mfs-compat/src/object_store.rs:1869-1876 | refines the abstract delete |
| `StoreObject.MutableObjectStore.ExpireKeyIfNeeded` | crates/mfs-compat/src/object_store.rs:1457-1471 | expires if and only if the key is due, as a delete |
| `StoreObject.MutableObjectStore.Get` | crates/mfs-compat/src/object_store.rs:1499-1511 | refines the abstract get: result, expiry and touch |
| `StoreObject.MutableObjectStore.Mutate` | crates/mfs-compat/src/object_store.rs:1890-1914 | refines the abstract read-modify-write for any edit |
| `StoreObject.MutableObjectStore.LoadClean` | crates/mfs-compat/src/object_store.rs:1733-1750 | refines the clean load; clocks move past the loaded stamp |
| `StoreObject.MutableObjectStore.LoadCleanDelete` | crates/mfs-compat/src/object_store.rs:1823-1833 | refines the clean delete |
| `StoreObject.MutableObjectStore.Promote` | crates/mfs-compat/src/object_store.rs:1752-1785 | refines promotion, refusals included |
| `StoreObject.MutableObjectStore.HasPendingKey` | crates/mfs-compat/src/object_store.rs:1379-1382 | scanning one shard decides whether any queue holds an entry of the key |
| `StoreObject.MutableObjectStore.EvictVersioned` | crates/mfs-compat/src/object_store.rs:1844-1866 | refines versioned eviction, refusals included |
| `StoreObject.MutableObjectStore.DrainDirty` | crates/mfs-compat/src/object_store.rs:2527-2548 | takes min(max, queued) entries across shards; drained plus remaining are the old queues |
| `StoreObject.MutableObjectStore.Collect` | crates/mfs-compat/src/object_store.rs:2579-2644 | the collecting loop yields the flushable entries, the deferred ones, and for each flushable entry the record of its key's current version |
| `StoreObject.MutableObjectStore.CleanupFlushed` | crates/mfs-compat/src/object_store.rs:2550-2567 | removes metadata of exactly the flushed deletes that are still current tombstones |
| `StoreObject.MutableObjectStore.RequeueDirty` | crates/mfs-compat/src/object_store.rs:1477-1485 | all given entries are back in the queues and nothing else changed |
| `StoreObject.MutableObjectStore.FlushIdle` | crates/mfs-compat/src/object_store.rs:2569-2665 | what was sent, and the state after success or failure, against the abstract phases |
| `StoreObject.MutableObjectStore.Expire` | crates/mfs-compat/src/object_store.rs:2667-2691 | expires exactly the keys due at the start, counts them, leaves a dirty tombstone for each, and touches no other key |
| `Policy.SelectCandidates` | crates/mfs-compat/src/object_store_durability.rs:839-885 | the four counters add up to the snapshot; the selection is a set of candidates of the computed size, minimal in (last touch, version, key); it never takes the store below an exceeded soft limit |
| `Policy.TruncationIsMinimal` | crates/mfs-compat/src/object_store_durability.rs:870-885 | a prefix of a sorted list precedes everything it leaves out |
| `Policy.SortSorts` | crates/mfs-compat/src/object_store_durability.rs:870-876 | the sort is a permutation in strict demotion order |
| `Policy.TieringSnapshot` | crates/mfs-compat/src/object_store.rs:1384-1435 | exactly the live unexpired keys with values, each with its cell and whether an entry is waiting, and the number of such keys without a value |
| `Policy.NothingIsEmpty` | crates/mfs-compat/src/object_store.rs:1404-1408 | on every reachable store that number is zero |
| `Policy.PlanDemotion` | crates/mfs-compat/src/object_store_durability.rs:839-896 | what the policy selects from a snapshot is a legal start of a demotion, so the transparency theorem applies to every policy |
| `Bytes.DecodeEncode` | crates/mfs-compat/src/object_store_durability.rs:1483-1493 | little-endian words decode to what was encoded |
| `Bytes.EncodeDecode` | crates/mfs-compat/src/object_store_durability.rs:1483-1493 | and encode back to the same bytes, so different bytes are different numbers |
| `Checksum.Checksum64` | crates/mfs-compat/src/object_store_durability.rs:1638-1645 | the loop computes 64-bit FNV-1a |
| `Checksum.ScaleIsInjective` | crates/mfs-compat/src/object_store_durability.rs:1638-1645 | multiplying by the FNV prime modulo 2^64 is injective |
| `Checksum.OneByteChangesFnv` | crates/mfs-compat/src/object_store_durability.rs:1638-1645 | changing any one byte of any input changes the checksum |
| `Wal.FrameReadsBack` | crates/mfs-core/src/durability.rs:188-227 | a written frame reads back, whatever follows, if and only if its payload is within the replay limit |
| `Wal.TornFrameIsRefused` | crates/mfs-core/src/durability.rs:810-817 | no proper prefix of a frame reads as a frame |
| `Wal.CutLogReplays` | crates/mfs-core/src/durability.rs:776-838 | a log cut at any byte replays to the records whole before the cut, up to the first over the limit |
| `Wal.ReplayContinues` | crates/mfs-core/src/durability.rs:776-838 | a log of admissible records is transparent to whatever follows |
| `Wal.OversizedRecordHidesTheRest` | crates/mfs-core/src/durability.rs:188-227 | a concrete record over the replay limit, for every codec: it and everything logged after it are not replayed |
| `Wal.AppendedAfterTearIsLost` | crates/mfs-core/src/durability.rs:147-166 | a log cut one to seven bytes into a frame and then appended to replays only the records before the cut, for every codec |
| `Wal.AppendedAfterTornBody` | crates/mfs-core/src/durability.rs:147-166 | a log cut behind a frame's header and then appended to replays only the records before the cut if and only if the torn record is over the limit, or the bytes now standing where its body should be are no valid body |
| `Wal.ShortAppendIsLost` | crates/mfs-core/src/durability.rs:805-817 | which is so, for every codec, if less is appended than the tear removed |
| `Wal.AppendedAtBoundaryIsKept` | crates/mfs-core/src/durability.rs:147-166 | a log appended to at a frame boundary replays both parts |
| `Wal.ReplayFile` | crates/mfs-core/src/durability.rs:780-838 | the replay loop computes that reading |
| `LogFile.ExpiryReadsBack` | crates/mfs-compat/src/object_store_durability.rs:681-703 | expiry metadata survives its 32-byte encoding |
| `LogFile.RecordComesBack` | crates/mfs-compat/src/object_store_durability.rs:670-679 | a record is classified as what it was written as if and only if it is not an object whose key starts with the metadata prefix |
| `LogFile.PrefixedKeyIsMisread` | crates/mfs-compat/src/object_store_durability.rs:670-679 | a concrete object key that is not |
| `LogFile.TornLogIsAPrefix` | crates/mfs-compat/src/object_store_durability.rs:355-386 | what recovery reads from a log file cut at any byte is a prefix of the log |
| `LogFile.SyncedPartSurvives` | crates/mfs-core/src/durability.rs:776-838 | a cut at or after the synced bytes keeps all synced records |
| `CrashFile.TornFileKeepsReads` | crates/mfs-compat/src/object_store_durability.rs:355-386 | the recovery theorem on bytes: after any run, whatever byte the log file is torn at from its synced part on, every durable key reads as before under exactly the condition of the recovery theorem |
| `CheckpointFile.ReadCheckpoint` | crates/mfs-compat/src/object_store_durability.rs:1547-1591 | the reader: footer, name, count and version checks around the replay |
| `CheckpointFile.CollectPuts` | crates/mfs-compat/src/object_store_durability.rs:1558-1572 | keeps the puts that carry values and their highest version |
| `CheckpointFile.WrittenFileReadsBack` | crates/mfs-compat/src/object_store_durability.rs:1598-1636 | a written checkpoint reads back with its records if and only if it is read under its own LSN and no record is above that LSN (or it is zero) |
| `CheckpointFile.OneByteIsCaught` | crates/mfs-compat/src/object_store_durability.rs:1547-1645 | changing any one byte anywhere in a written checkpoint file makes the reader refuse it |
| `CheckpointFile.LoadLatest` | crates/mfs-compat/src/object_store_durability.rs:549-561 | the newest readable file is taken and only unreadable ones are passed over |
| `ColdCodec.FieldReadsBack` | crates/mfs-compat/src/object_store_durability.rs:1463-1481 | a length-prefixed field reads back if and only if it is within 64 MiB, a limit only the reader has |
| `ColdCodec.OversizedFieldIsRefused` | crates/mfs-compat/src/object_store_durability.rs:1463-1481 | a concrete field one byte over it |
| `ColdCodec.WriteColdEntries` | crates/mfs-compat/src/object_store_durability.rs:1092-1151 | the writing loop produces the data file and the index that locates its records |
| `ColdCodec.SlotsTile` | crates/mfs-compat/src/object_store_durability.rs:1109-1127 | the records tile the data file after the magic: each index slot is exactly one record and the next starts where it ends |
| `ColdCodec.EntryReadsBack` | crates/mfs-compat/src/object_store_durability.rs:1289-1336 | a record reads back from any position in a file |
| `ColdCodec.FindIndexEntry` | crates/mfs-compat/src/object_store_durability.rs:1338-1355 | the index loop finds the first slot of the key, and tells a miss from a broken index |
| `ColdCodec.LookupReadsBack` | crates/mfs-compat/src/object_store_durability.rs:1207-1232 | a keyed lookup in a written pair of files returns exactly the generation's cell for the key, and a miss for every other key |
| `ColdCodec.ReadEntries` | crates/mfs-compat/src/object_store_durability.rs:1243-1287 | the scanning loop, error and foreign-file cases included |
| `ColdCodec.ScanReadsBack` | crates/mfs-compat/src/object_store_durability.rs:1243-1287 | scanning a written pair of files returns the entries in order |
| `ColdManifest.WriteManifest` | crates/mfs-compat/src/object_store_durability.rs:1429-1461 | the writing loops produce the manifest encoding |
| `ColdManifest.ReadManifest` | crates/mfs-compat/src/object_store_durability.rs:1357-1427 | the reading loops compute the decoding, with every error case |
| `ColdManifest.ManifestReadsBack` | crates/mfs-compat/src/object_store_durability.rs:1357-1461 | a written manifest followed by anything decodes to itself if and only if nothing follows and every tombstone key is within the reader's limit; otherwise it is an error |
| `ColdManifest.OldManifestReads` | crates/mfs-compat/src/object_store_durability.rs:1401-1421 | the older form decodes to the same generations and no tombstones |
| `ColdManifest.OversizedTombstoneBreaksManifest` | crates/mfs-compat/src/object_store_durability.rs:1401-1421 | a concrete tombstone that makes the whole manifest unreadable |
| `WorkerModel.SendKeeps` | crates/mfs-compat/src/flush_worker.rs:165-173 | enqueueing keeps: committed, pending and queued records are the sent sequence; barriers stand where they were sent; every row of the table is between the committed part and the whole |
| `WorkerModel.SendBarrierKeeps` | crates/mfs-compat/src/flush_worker.rs:185-199 | a barrier remembers how many records were sent before it |
| `WorkerModel.ReceiveKeeps` | crates/mfs-compat/src/flush_worker.rs:251-274 | receiving a job, or the end of the queue, keeps the invariant and the batch limit |
| `WorkerModel.FailKeeps` | crates/mfs-compat/src/flush_worker.rs:290-301 | a failed batch that applied any first part of itself keeps the invariant |
| `WorkerModel.CommitKeeps` | crates/mfs-compat/src/flush_worker.rs:276-305 | after a commit the table is the last-writer-wins fold of everything committed, whatever earlier attempts had applied |
| `WorkerModel.CommitAnswers` | crates/mfs-compat/src/flush_worker.rs:303-309 | the commit that answers a barrier has committed exactly the records sent before it; the one that ends the worker has committed everything |
| `WorkerModel.NothingLostOrReordered` | crates/mfs-compat/src/flush_worker.rs:234-311 | in every run of callers and worker with any failures: committed, pending and queued records are the sent sequence in order, and no batch exceeds its limit |
| `WorkerModel.BarrierMeansCommitted` | crates/mfs-compat/src/flush_worker.rs:185-199 | in every run, an acknowledged barrier's records are all committed |
| `WorkerModel.AcknowledgementMeansCopied` | crates/mfs-compat/src/flush_worker.rs:276-305 | in every run, the action that acknowledges a barrier is a commit, exactly the records sent before the barrier are committed at that moment, and the table is their last-writer-wins fold |
| `WorkerModel.ExitMeansDrained` | crates/mfs-compat/src/flush_worker.rs:307-309 | in every run, the worker has exited only if everything sent is committed |
| `WorkerModel.CounterReading` | crates/mfs-compat/src/flush_worker.rs:157-173 | in every run, the 64-bit counter shows the uncommitted records if and only if every send has been counted; a commit that overtakes the count makes it wrap |
| `WorkerModel.CounterCanWrap` | crates/mfs-compat/src/flush_worker.rs:165-173 | a concrete run after which the counter reads 2^64 - 1 |
| `FlushWorker.Worker.Collect` | crates/mfs-compat/src/flush_worker.rs:251-274 | the collecting loop stops at a barrier, at the batch limit or at an empty queue, and commits nothing |
| `FlushWorker.Worker.CommitBatch` | crates/mfs-compat/src/flush_worker.rs:276-305 | a successful batch, against the abstract commit |
| `FlushWorker.Worker.Turn` | crates/mfs-compat/src/flush_worker.rs:234-311 | one turn of the loop with any outcome keeps the invariant, never uncommits, and stops only when everything is committed |
| `SqlCopy.PartialPass` | crates/mfs-compat/src/schema_flush_sqlite.rs:158-188 | applying any part of an increasing batch leaves every row between the committed part and the whole |
| `SqlCopy.FullPass` | crates/mfs-compat/src/schema_flush_sqlite.rs:158-188 | applying the whole batch then gives exactly the unguarded last-writer-wins table |
| `SqlCopy.HighestPutWins` | crates/mfs-compat/src/schema_flush.rs:339-346 | a put with the highest LSN of its key decides the row in any order |
| `SqlCopy.OrderIndependentIff` | crates/mfs-compat/src/schema_flush.rs:312-358 | the row after distinct-LSN records of one key is independent of their order if and only if the highest is a put or there is no put |
| `SqlCopy.OrderMatters` | crates/mfs-compat/src/schema_flush.rs:348-358 | otherwise two orders disagree, and the lemma builds them |
| `Locks.EveryRunIsSafe` | crates/mfs-compat/src/page_store.rs:225-302 | in every run exclusive implies pending implies reserved implies shared by the same owner, and exclusive leaves no other holder |
| `Locks.OthersNeverGrow` | crates/mfs-compat/src/page_store.rs:255-266 | while a writer is pending the set of other holders never grows, and whoever unlocks is out |
| `Locks.WriterGetsIn` | crates/mfs-compat/src/page_store.rs:268-281 | once the holders of that moment have unlocked, the exclusive request succeeds |
| `Locks.ExclusiveIff` | crates/mfs-compat/src/page_store.rs:268-281 | a pending owner gets exclusive if and only if it is the only holder |
| `Locks.ReleaseUndoes` | crates/mfs-compat/src/page_store.rs:283-294 | an unlock undoes whatever its owner was granted, and a refusal changes nothing |
| `Locks.LockState.LockShared` | crates/mfs-compat/src/page_store.rs:234-242 | refines the abstract request and keeps safety |
| `Locks.LockState.LockReserved` | crates/mfs-compat/src/page_store.rs:244-253 | refines the abstract request and keeps safety |
| `Locks.LockState.LockPending` | crates/mfs-compat/src/page_store.rs:255-266 | refines the abstract request and keeps safety |
| `Locks.LockState.LockExclusive` | crates/mfs-compat/src/page_store.rs:268-281 | refines the abstract request and keeps safety |
| `Locks.LockState.Unlock` | crates/mfs-compat/src/page_store.rs:283-294 | refines the abstract release and keeps safety |
| `SortedSet.ListingIsUnique` | crates/mfs-compat/src/object_store.rs:966-972 | two sorted lists with the same elements are the same list |
| `SortedSet.MutableSortedSet.Add` | crates/mfs-compat/src/object_store.rs:974-1053 | inserting or rescoring a member keeps the score index the sorted graph of the member index |
| `SortedSet.MutableSortedSet.Drop` | crates/mfs-compat/src/object_store.rs:974-1053 | the same for a removal, with the right answer |
| `SortedSet.MutableSortedSet.AddMany` | crates/mfs-compat/src/object_store.rs:974-1053 | the member index afterwards is the old one overridden by the additions in order |
| `SortedSet.MutableSortedSet.Len` | crates/mfs-compat/src/object_store.rs:974-1053 | the two indexes have the same number of members |
| `SortedSet.MutableSortedSet.Range` | crates/mfs-compat/src/object_store.rs:974-1053 | a range read lists the members of the resolved positions in order |
| `SortedSet.BoxedAddMany` | crates/mfs-compat/src/object_store.rs:774-821 | rebuild-and-sort gives the sorted listing of the same map |
| `SortedSet.BoxedRemove` | crates/mfs-compat/src/object_store.rs:866-893 | removal by filtering keeps the rest, sorted |
| `SortedSet.BoxedScore` | crates/mfs-compat/src/object_store.rs:823-840 | linear search finds the member's score if it is there |
| `SortedSet.AddManyRefines` | crates/mfs-compat/src/object_store.rs:736-821 | after the same additions both representations list the same entries |
| `SortedSet.RemoveRefines` | crates/mfs-compat/src/object_store.rs:866-893 | after the same removal too, and both answer alike |
| `SortedSet.ScoreRefines` | crates/mfs-compat/src/object_store.rs:823-840 | both find the same score |
| `SortedSet.RunBoth` | crates/mfs-compat/src/object_store.rs:736-1053 | over any history of additions and removals, the two-index set and the boxed set agree entry for entry |
| `SortedSet.RangeBoundsCover` | crates/mfs-compat/src/object_store.rs:2809-2837 | for all signed bounds, a position is in the resolved range if and only if it is between the resolved indices |

## Left out

- Recovery.CheckpointPlusSuffixIsFullReplay: holds before the first demotion and for unexpired keys; a checkpoint omits evicted and expired keys, which a full replay would load.
- Durability.TakeSnapshotKeeps: takes the records, their metadata and the LSN at one moment; the order in the code is the subject of `LostWrites.PutAgainstRacyCheckpoint`.
- Durability.RejectBatchKeeps: a failed append leaves whole records; a partial frame is the subject of `Wal.AppendedAfterTearIsLost`.
- CheckpointFile.OneByteIsCaught: covers one changed byte; two changed bytes can collide in a 64-bit checksum.
- ColdDisk.PublishIsCrashSafe: represents an index file by the entries it was written for, so an index left beside another data file reads as an empty generation; the code skips such a generation or reports an error.
- ColdDisk.GcIsCrashSafe: the same representation of index files.
- ColdObject.ColdBundle.GcColdTier: does not report the bytes freed, because files have entries here and not sizes.
- Policy.TieringSnapshot: does not sort its records by key, because the selection sorts them again.
- SqlCopy.HighestPutWins: takes the conflict column of the upsert and the key column of the delete to be one key.
- Finer interleavings of two mutators of one key than whole calls.
- Several process lifetimes in one run, beyond the two-lifetime lemmas in `LostWrites`.
- Generations that cannot be read: they count as empty, as in the code, so compaction drops them.
- Legacy cold files without a manifest.
- `demote_all_to_cold`, which publishes a snapshot and then calls `evict_clean` on every key; what that call loses is stated by `Tiering.UncheckedEviction`.
- The checkpoint's text `MANIFEST` file, which recovery does not read.
- The value codec and CRC-32C, which are parameters of the log format: the results hold for any of them.
- Score arithmetic and finiteness checks; scores are integers, which have the same kind of total order as `total_cmp`.
- SQL text generation and column mapping; the statements are modelled by what they do to a row.
- Paths, symlink checks, temporary-file cleanup, directory syncs, sleeps, timeouts, back-off and thread joins.
- Page bytes of the page store, the VFS adapters, and the facades in `lib.rs`: forwarding only.
