/** Checkpoints, the write-ahead log and recovery, wrapped around the world of steps.

    A crash may come after any action. It keeps the installed checkpoints, the cold tier and
    some prefix of the log that contains at least its synced part. */
module Durability {
  import opened Types
  import opened ObjectStore
  import opened ColdTier
  import opened World
  import opened WorldSteps
  import opened WorldFrame
  import opened Log

  datatype Checkpoint = Checkpoint(lsn: nat, cells: map<Key, Cell>)

  /** Progress of `checkpoint_and_reset_wal` after its flush and sync. */
  datatype Phase = Ready | Snapshotted(ck: Checkpoint) | Installed(ck: Checkpoint)

  datatype Machine = Machine(
    w: World,
    ckpts: seq<Checkpoint>,
    wal: seq<LogRecord>,
    synced: nat,
    history: seq<LogRecord>,  // everything ever appended, for comparison with a full replay
    phase: Phase,
    demoted: bool)            // a cold generation has been published

  const BOOT := Machine(INITIAL, [], [], 0, [], Ready, false)

  datatype Action =
    | Act(st: Step)
    | AcceptBatch(order: seq<Key>)
    | RejectBatch(order: seq<Key>, written: nat, marked: bool)
    | Sync
    | TakeSnapshot
    | InstallCheckpoint
    | Prune(keep: nat)
    | TruncateLog

  /** Steps that do not go through the persistence handle. */
  predicate Online(st: Step) {
    st.PutStep? || st.DeleteStep? || st.MutateStep? || st.ExpireStep? || st.GetStep? || st.ReadStep? || st.GcStep?
  }

  predicate BackendCall(st: Step) {
    st.AcceptStep? || st.RejectStep?
  }

  function Latest(ckpts: seq<Checkpoint>): Checkpoint {
    if ckpts == [] then Checkpoint(0, map[]) else ckpts[|ckpts| - 1]
  }

  /** `snapshot_records` with metadata, and the LSN, taken together. */
  function SnapshotOf(s: Store): Checkpoint {
    Checkpoint(s.writeClock,
      map k | k in s.values && Live(s, k) && !Lapsed(s.meta[k].stamp, s.clock) :: HotCell(s, k))
  }

  /** The rename of a finished checkpoint; one of the same LSN has the same file name. */
  function Installing(ckpts: seq<Checkpoint>, ck: Checkpoint): seq<Checkpoint> {
    if ckpts != [] && Latest(ckpts).lsn == ck.lsn then ckpts[..|ckpts| - 1] + [ck] else ckpts + [ck]
  }

  function Pruned(ckpts: seq<Checkpoint>, keep: nat): seq<Checkpoint> {
    if keep == 0 || |ckpts| <= keep then ckpts else ckpts[|ckpts| - keep..]
  }

  ghost predicate Orders(order: seq<Key>, batch: map<Key, Record>) {
    Distinct(order) && (forall k :: k in order ==> k in batch) && (forall k :: k in batch ==> k in order)
  }

  function ObjectKeys(log: seq<LogRecord>): set<Key> {
    set r | r in log && r.Object? :: r.key
  }

  ghost predicate Allowed(m: Machine, a: Action) {
    match a
    case Act(st) => Enabled(m.w, st) && !BackendCall(st) && (m.phase.Ready? || Online(st))
    case AcceptBatch(order) => m.phase.Ready? && m.w.job.Collected? && Orders(order, m.w.job.batch)
    case RejectBatch(order, written, marked) =>
      && m.phase.Ready? && m.w.job.Collected? && Orders(order, m.w.job.batch)
      && written <= |Expand(m.w.store, m.w.job.batch, order)|
      && (marked ==> written == |Expand(m.w.store, m.w.job.batch, order)|)
    case Sync => true
    case TakeSnapshot => m.phase.Ready? && m.w.job.Idle? && m.synced == |m.wal|
    case InstallCheckpoint => m.phase.Snapshotted?
    case Prune(_) => m.phase.Installed?
    case TruncateLog => m.phase.Installed?
  }

  ghost function Do(m: Machine, a: Action): Machine
    requires Allowed(m, a)
  {
    match a
    case Act(st) => m.(w := Next(m.w, st), demoted := m.demoted || st.PublishStep?)
    case AcceptBatch(order) =>
      var out := Expand(m.w.store, m.w.job.batch, order);
      m.(w := Next(m.w, AcceptStep), wal := m.wal + out, history := m.history + out)
    case RejectBatch(order, written, marked) =>
      var out := Expand(m.w.store, m.w.job.batch, order)[..written];
      LandedIsEnabled(m.w, order, written, marked);
      m.(w := Next(m.w, RejectStep(ObjectKeys(out), marked)), wal := m.wal + out, history := m.history + out)
    case Sync => m.(synced := |m.wal|)
    case TakeSnapshot => m.(phase := Snapshotted(SnapshotOf(m.w.store)))
    case InstallCheckpoint => m.(ckpts := Installing(m.ckpts, m.phase.ck), phase := Installed(m.phase.ck))
    case Prune(keep) => m.(ckpts := Pruned(m.ckpts, keep))
    case TruncateLog => m.(wal := [], synced := 0, phase := Ready)
  }

  lemma {:induction false} ExpandCovers(s: Store, batch: map<Key, Record>, order: seq<Key>, k: Key)
    requires (forall j :: j in order ==> j in batch) && k in order
    ensures k in ObjectKeys(Expand(s, batch, order))
    decreases |order|
  {
    var first := RecordsFor(s, order[0], batch[order[0]]);
    if order[0] == k {
      assert first[0] in Expand(s, batch, order) && first[0].Object? && first[0].key == k;
    } else {
      ExpandCovers(s, batch, order[1..], k);
      var r :| r in Expand(s, batch, order[1..]) && r.Object? && r.key == k;
      assert r in Expand(s, batch, order);
    }
  }

  lemma LandedIsEnabled(w: World, order: seq<Key>, written: nat, marked: bool)
    requires w.job.Collected? && Orders(order, w.job.batch)
    requires written <= |Expand(w.store, w.job.batch, order)|
    requires marked ==> written == |Expand(w.store, w.job.batch, order)|
    ensures Enabled(w, RejectStep(ObjectKeys(Expand(w.store, w.job.batch, order)[..written]), marked))
  {
    var out := Expand(w.store, w.job.batch, order);
    forall r | r in out[..written] && r.Object? ensures r.key in w.job.batch {
      ExpandMentions(w.store, w.job.batch, order, r);
    }
    if marked {
      assert out[..written] == out;
      forall k | k in w.job.batch ensures k in ObjectKeys(out) {
        ExpandCovers(w.store, w.job.batch, order, k);
      }
    }
  }

  // ----- The invariant -----

  /** A key not mutated since the checkpoint is in it with its data, or the cold tier has it,
      or it has expired; a deleted key is not in it. */
  ghost predicate Covers(w: World, ck: Checkpoint, demoted: bool, k: Key) {
    && (k in ck.cells ==> ck.cells[k].stamp.version <= ck.lsn)
    && (CurrentVersion(w, k) <= ck.lsn ==>
          && (k in ck.cells ==> k in w.ref && ck.cells[k].stamp.version == w.ref[k].stamp.version
                                && SameData(ck.cells[k], w.ref[k]))
          && (k in w.ref && k !in ck.cells ==>
                RefLapsed(w, k) || (demoted && (HasCopy(w, k) || w.ref[k].stamp.ttiTicks != 0))))
  }

  /** The log above `lsn` ends, for a key, in what the backend last accepted. */
  ghost predicate LogHolds(w: World, log: seq<LogRecord>, lsn: nat, k: Key) {
    var st := Fold(log, k, lsn);
    && st.obj == (if k in w.backend && w.backend[k].version > lsn then Some(w.backend[k]) else None)
    && (k in w.ref && !KeyPending(w, k) && w.ref[k].stamp.version > lsn ==>
          && k in w.backend && w.backend[k].version == w.ref[k].stamp.version
          && st.expiry.Some? && st.expiry.value.version == w.ref[k].stamp.version
          && st.expiry.value.expiresAt == w.ref[k].stamp.expiresAt
          && st.expiry.value.ttiTicks == w.ref[k].stamp.ttiTicks)
  }

  predicate Below(r: LogRecord, s: Store) {
    r.version <= s.writeClock && (r.Expiry? ==> r.meta.version < s.clock && r.meta.lastTouch < s.clock)
  }

  ghost predicate CheckpointOk(w: World, ck: Checkpoint, demoted: bool) {
    && ck.lsn <= w.store.writeClock
    && (forall k :: k in ck.cells ==> ck.cells[k].stamp.lastTouch < w.store.clock)
    && (forall k :: Covers(w, ck, demoted, k))
  }

  ghost predicate Sound(m: Machine) {
    && Inv(m.w)
    && m.synced <= |m.wal|
    && (forall r :: r in m.wal ==> Below(r, m.w.store))
    && CheckpointOk(m.w, Latest(m.ckpts), m.demoted)
    && (forall k :: LogHolds(m.w, m.wal, Latest(m.ckpts).lsn, k))
    && (forall k :: LogHolds(m.w, m.history, 0, k))
    && (m.phase.Ready? || (
          && m.w.job.Idle? && Latest(m.ckpts).lsn <= m.phase.ck.lsn
          && CheckpointOk(m.w, m.phase.ck, m.demoted)
          && (forall k :: k in m.w.backend ==> m.w.backend[k].version <= m.phase.ck.lsn)
          && (forall r :: r in m.wal ==> r.version <= m.phase.ck.lsn)))
    && (m.phase.Installed? ==> Latest(m.ckpts) == m.phase.ck)
    && (!m.demoted ==> m.w.cold.gens == [] && !m.w.job.Evicting?)
  }

  lemma BootIsSound()
    ensures Sound(BOOT)
  {
    InitialHolds();
  }

  // ----- Every action keeps the invariant -----

  lemma CoversKept(w: World, x: World, ck: Checkpoint, demoted: bool, demoted': bool, k: Key)
    requires Framed(w, x, k) && ck.lsn <= w.store.writeClock < w.store.clock && (demoted ==> demoted')
    requires Covers(w, ck, demoted, k)
    ensures Covers(x, ck, demoted', k)
  {
  }

  lemma CheckpointKept(w: World, x: World, ck: Checkpoint, demoted: bool, demoted': bool)
    requires Inv(w) && CheckpointOk(w, ck, demoted) && (demoted ==> demoted')
    requires forall k :: Framed(w, x, k)
    ensures CheckpointOk(x, ck, demoted')
  {
    assert KeyInv(w, []) && Framed(w, x, []);
    forall k ensures Covers(x, ck, demoted', k) {
      assert Framed(w, x, k);
      CoversKept(w, x, ck, demoted, demoted', k);
    }
    forall k | k in ck.cells ensures ck.cells[k].stamp.lastTouch < x.store.clock {
      assert Framed(w, x, k);
    }
  }

  lemma LogKept(w: World, x: World, log: seq<LogRecord>, lsn: nat, k: Key)
    requires LogHolds(w, log, lsn, k) && Framed(w, x, k) && x.backend == w.backend
    requires KeyPending(w, k) && k in x.ref ==> KeyPending(x, k)
    ensures LogHolds(x, log, lsn, k)
  {
  }

  lemma ActKeeps(m: Machine, st: Step)
    requires Sound(m) && Allowed(m, Act(st))
    ensures Sound(Do(m, Act(st)))
  {
    var n := Do(m, Act(st));
    StepKeeps(m.w, st);
    forall k ensures Framed(m.w, n.w, k) && (KeyPending(m.w, k) && k in n.w.ref ==> KeyPending(n.w, k)) {
      StepFrames(m.w, st, k);
    }
    CheckpointKept(m.w, n.w, Latest(m.ckpts), m.demoted, n.demoted);
    if !m.phase.Ready? {
      CheckpointKept(m.w, n.w, m.phase.ck, m.demoted, n.demoted);
    }
    forall k ensures LogHolds(n.w, n.wal, Latest(n.ckpts).lsn, k) && LogHolds(n.w, n.history, 0, k) {
      assert LogHolds(m.w, m.wal, Latest(m.ckpts).lsn, k) && LogHolds(m.w, m.history, 0, k);
      LogKept(m.w, n.w, m.wal, Latest(m.ckpts).lsn, k);
      LogKept(m.w, n.w, m.history, 0, k);
    }
    assert Framed(m.w, n.w, []);
    if !n.demoted {
      NoDemotionNoColdCopies(m.w, st);
    }
  }

  lemma NoDemotionNoColdCopies(w: World, st: Step)
    requires Enabled(w, st) && !st.PublishStep? && w.cold.gens == [] && !w.job.Evicting?
    ensures Next(w, st).cold.gens == [] && !Next(w, st).job.Evicting?
  {
    if st.GcStep? {
      assert Survivors(w.cold, w.store.clock) == map[];
    }
  }

  /** Accepting a batch leaves the log ending in exactly the batch, with matching metadata for
      every key that the acceptance settles. */
  lemma AcceptedLog(w: World, order: seq<Key>, log: seq<LogRecord>, lsn: nat, k: Key)
    requires Inv(w) && w.job.Collected? && Orders(order, w.job.batch) && LogHolds(w, log, lsn, k)
    ensures LogHolds(Next(w, AcceptStep), log + Expand(w.store, w.job.batch, order), lsn, k)
  {
    var batch, s := w.job.batch, w.store;
    FoldOfConcat(NOTHING, log, Expand(s, batch, order), k, lsn);
    FoldOfExpand(Fold(log, k, lsn), s, batch, order, k, lsn);
    if k in batch {
      AcceptedState(w, log, log + Expand(s, batch, order), lsn, k);
    } else {
      AcceptedElsewhere(w, log, log + Expand(s, batch, order), lsn, k);
    }
  }

  lemma AcceptedElsewhere(w: World, log: seq<LogRecord>, grown: seq<LogRecord>, lsn: nat, k: Key)
    requires Inv(w) && w.job.Collected? && k !in w.job.batch && LogHolds(w, log, lsn, k)
    requires Fold(grown, k, lsn) == Fold(log, k, lsn)
    ensures LogHolds(Next(w, AcceptStep), grown, lsn, k)
  {
    if KeyPending(w, k) {
      AcceptSettlesOnlyItsBatch(w, k);
    }
  }

  lemma AcceptedState(w: World, log: seq<LogRecord>, grown: seq<LogRecord>, lsn: nat, k: Key)
    requires Inv(w) && w.job.Collected? && k in w.job.batch && LogHolds(w, log, lsn, k)
    requires Fold(grown, k, lsn) == AfterRecord(Fold(log, k, lsn), w.store, k, w.job.batch[k], lsn)
    ensures LogHolds(Next(w, AcceptStep), grown, lsn, k)
  {
    assert KeyInv(w, k);
    assert BatchInv(w, k, w.job.batch[k]);
    AcceptKeepsBatched(w, k);
  }

  lemma AcceptSettlesOnlyItsBatch(w: World, k: Key)
    requires Inv(w) && w.job.Collected? && k !in w.job.batch && KeyPending(w, k)
    ensures KeyPending(Next(w, AcceptStep), k)
  {
    var e := EntryFor(k, w.store.meta[k]);
    assert e in w.job.flushed ==> FlushedInv(w.job.batch, e);
  }

  lemma AcceptBatchKeeps(m: Machine, order: seq<Key>)
    requires Sound(m) && Allowed(m, AcceptBatch(order))
    ensures Sound(Do(m, AcceptBatch(order)))
  {
    var n := Do(m, AcceptBatch(order));
    AcceptKeeps(m.w);
    forall k ensures Framed(m.w, n.w, k) {
      AcceptFrames(m.w, k);
    }
    CheckpointKept(m.w, n.w, Latest(m.ckpts), m.demoted, n.demoted);
    forall k ensures LogHolds(n.w, n.wal, Latest(n.ckpts).lsn, k) && LogHolds(n.w, n.history, 0, k) {
      AcceptedLog(m.w, order, m.wal, Latest(m.ckpts).lsn, k);
      AcceptedLog(m.w, order, m.history, 0, k);
    }
    forall r | r in n.wal ensures Below(r, n.w.store) {
      if r !in m.wal {
        WrittenBelow(m.w, order, r);
      }
    }
  }

  lemma {:induction false} WrittenBelow(w: World, order: seq<Key>, r: LogRecord)
    requires Inv(w) && w.job.Collected? && (forall k :: k in order ==> k in w.job.batch)
    requires r in Expand(w.store, w.job.batch, order)
    ensures Below(r, w.store)
    decreases |order|
  {
    if r in RecordsFor(w.store, order[0], w.job.batch[order[0]]) {
      assert KeyInv(w, order[0]) && BatchInv(w, order[0], w.job.batch[order[0]]);
    } else {
      WrittenBelow(w, order[1..], r);
    }
  }

  /** A batch that failed part-way leaves some of its records in the log; every key it
      mentions is still pending. */
  lemma RejectedLog(w: World, order: seq<Key>, written: nat, marked: bool, log: seq<LogRecord>, lsn: nat, k: Key)
    requires Inv(w) && w.job.Collected? && Orders(order, w.job.batch) && LogHolds(w, log, lsn, k)
    requires written <= |Expand(w.store, w.job.batch, order)|
    requires marked ==> written == |Expand(w.store, w.job.batch, order)|
    ensures var out := Expand(w.store, w.job.batch, order)[..written];
      && Enabled(w, RejectStep(ObjectKeys(out), marked))
      && LogHolds(Next(w, RejectStep(ObjectKeys(out), marked)), log + out, lsn, k)
  {
    LandedIsEnabled(w, order, written, marked);
    var all := Expand(w.store, w.job.batch, order);
    var out := all[..written];
    FoldOfConcat(NOTHING, log, out, k, lsn);
    forall r | r in out ensures r.key in w.job.batch && (r.Object? ==> Record(r.version, r.value) == w.job.batch[r.key]) {
      ExpandMentions(w.store, w.job.batch, order, r);
    }
    if k in w.job.batch {
      FoldedObject(Fold(log, k, lsn), out, k, lsn, w.job.batch[k]);
      assert (exists r :: r in out && r.Object? && r.key == k) <==> k in ObjectKeys(out);
      RejectedState(w, ObjectKeys(out), marked, log, log + out, lsn, k);
    } else {
      FoldOfSilent(Fold(log, k, lsn), out, k, lsn);
      RejectedElsewhere(w, ObjectKeys(out), marked, log, log + out, lsn, k);
    }
  }

  lemma RejectedState(w: World, landed: set<Key>, marked: bool, log: seq<LogRecord>, grown: seq<LogRecord>, lsn: nat, k: Key)
    requires Inv(w) && Enabled(w, RejectStep(landed, marked)) && k in w.job.batch && LogHolds(w, log, lsn, k)
    requires Fold(grown, k, lsn).obj ==
      if w.job.batch[k].version > lsn && k in landed then Some(w.job.batch[k]) else Fold(log, k, lsn).obj
    ensures LogHolds(Next(w, RejectStep(landed, marked)), grown, lsn, k)
  {
    var x, rec := Next(w, RejectStep(landed, marked)), w.job.batch[k];
    assert BatchInv(w, k, rec) && EntryOf(k, rec) in w.job.flushed;
    assert KeyInv(w, k);
    RejectKeepsBatched(w, landed, marked, k);
    assert k in x.ref ==> KeyPending(x, k);
  }

  lemma RejectedElsewhere(w: World, landed: set<Key>, marked: bool, log: seq<LogRecord>, grown: seq<LogRecord>, lsn: nat, k: Key)
    requires Inv(w) && Enabled(w, RejectStep(landed, marked)) && k !in w.job.batch && LogHolds(w, log, lsn, k)
    requires Fold(grown, k, lsn) == Fold(log, k, lsn)
    ensures LogHolds(Next(w, RejectStep(landed, marked)), grown, lsn, k)
  {
    RejectFrames(w, landed, marked, k);
  }

  lemma RejectBatchKeeps(m: Machine, order: seq<Key>, written: nat, marked: bool)
    requires Sound(m) && Allowed(m, RejectBatch(order, written, marked))
    ensures Sound(Do(m, RejectBatch(order, written, marked)))
  {
    var n := Do(m, RejectBatch(order, written, marked));
    var out := Expand(m.w.store, m.w.job.batch, order)[..written];
    LandedIsEnabled(m.w, order, written, marked);
    RejectKeeps(m.w, ObjectKeys(out), marked);
    forall k ensures Framed(m.w, n.w, k) {
      RejectFrames(m.w, ObjectKeys(out), marked, k);
    }
    CheckpointKept(m.w, n.w, Latest(m.ckpts), m.demoted, n.demoted);
    forall k ensures LogHolds(n.w, n.wal, Latest(n.ckpts).lsn, k) && LogHolds(n.w, n.history, 0, k) {
      RejectedLog(m.w, order, written, marked, m.wal, Latest(m.ckpts).lsn, k);
      RejectedLog(m.w, order, written, marked, m.history, 0, k);
    }
    forall r | r in n.wal ensures Below(r, n.w.store) {
      if r !in m.wal {
        WrittenBelow(m.w, order, r);
      }
    }
  }

  // ----- Checkpoint actions -----

  /** A log with nothing above the LSN holds, when the backend has nothing above it either. */
  lemma QuietLog(w: World, log: seq<LogRecord>, lsn: nat, k: Key)
    requires Inv(w) && w.job.Idle?
    requires k in w.backend ==> w.backend[k].version <= lsn
    requires forall r :: r in log ==> r.version <= lsn
    ensures LogHolds(w, log, lsn, k)
  {
    FoldOfSilent(NOTHING, log, k, lsn);
    assert KeyInv(w, k);
  }

  lemma SnapshotCovers(w: World, demoted: bool, k: Key)
    requires Inv(w) && (!demoted ==> w.cold.gens == [])
    ensures Covers(w, SnapshotOf(w.store), demoted, k)
  {
    assert KeyInv(w, k);
  }

  lemma TakeSnapshotKeeps(m: Machine)
    requires Sound(m) && Allowed(m, TakeSnapshot)
    ensures Sound(Do(m, TakeSnapshot))
  {
    var n := Do(m, TakeSnapshot);
    forall k ensures Covers(n.w, n.phase.ck, n.demoted, k) {
      SnapshotCovers(m.w, m.demoted, k);
    }
    forall k ensures (k in n.phase.ck.cells ==> n.phase.ck.cells[k].stamp.lastTouch < n.w.store.clock)
                     && (k in n.w.backend ==> n.w.backend[k].version <= n.phase.ck.lsn) {
      assert KeyInv(m.w, k);
    }
  }

  lemma InstallKeeps(m: Machine)
    requires Sound(m) && Allowed(m, InstallCheckpoint)
    ensures Sound(Do(m, InstallCheckpoint))
  {
    var n := Do(m, InstallCheckpoint);
    assert Latest(n.ckpts) == m.phase.ck;
    forall k ensures LogHolds(n.w, n.wal, m.phase.ck.lsn, k) {
      QuietLog(m.w, m.wal, m.phase.ck.lsn, k);
    }
  }

  lemma PruneKeepsLatest(ckpts: seq<Checkpoint>, keep: nat)
    ensures Latest(Pruned(ckpts, keep)) == Latest(ckpts)
    ensures keep > 0 ==> |Pruned(ckpts, keep)| <= keep
  {
  }

  lemma TruncateKeeps(m: Machine)
    requires Sound(m) && Allowed(m, TruncateLog)
    ensures Sound(Do(m, TruncateLog))
  {
    var n := Do(m, TruncateLog);
    forall k ensures LogHolds(n.w, [], Latest(n.ckpts).lsn, k) {
      QuietLog(m.w, [], m.phase.ck.lsn, k);
    }
  }

  lemma DoKeeps(m: Machine, a: Action)
    requires Sound(m) && Allowed(m, a)
    ensures Sound(Do(m, a))
  {
    match a
    case Act(st) => ActKeeps(m, st);
    case AcceptBatch(order) => AcceptBatchKeeps(m, order);
    case RejectBatch(order, written, marked) => RejectBatchKeeps(m, order, written, marked);
    case Sync =>
    case TakeSnapshot => TakeSnapshotKeeps(m);
    case InstallCheckpoint => InstallKeeps(m);
    case Prune(keep) => PruneKeepsLatest(m.ckpts, keep);
    case TruncateLog => TruncateKeeps(m);
  }
}
