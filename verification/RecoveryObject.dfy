/** `recover` as it runs: two passes over maps, loading into a store object. */
module RecoveryObject {
  import opened Types
  import opened ObjectStore
  import opened Log
  import opened Durability
  import opened Recovery
  import opened StoreObject

  /** What one key looks like after loading an outcome over an earlier state. */
  ghost predicate Shows(s: Store, before: Store, k: Key, o: Outcome) {
    match o
    case Untouched =>
      && (k in s.values <==> k in before.values) && (k in s.meta <==> k in before.meta)
      && (k in s.values ==> s.values[k] == before.values[k]) && (k in s.meta ==> s.meta[k] == before.meta[k])
    case Gone(_) => k !in s.values && k !in s.meta
    case Loaded(c) => k in s.values && s.values[k] == c.value && k in s.meta && s.meta[k] == Meta(c.stamp, false)
  }

  ghost predicate OutcomesBelow(log: seq<LogRecord>, lsn: nat, n: nat) {
    forall k :: OutcomeBelow(OutcomeOf(Fold(log, k, lsn)), n)
  }

  /** First pass: the last object record and the last metadata of each key. */
  method Gather(records: seq<LogRecord>, lsn: nat) returns (objects: map<Key, Record>, metadata: map<Key, ExpiryMeta>)
    ensures forall k :: Fold(records, k, lsn).obj == if k in objects then Some(objects[k]) else None
    ensures forall k :: Fold(records, k, lsn).expiry == if k in metadata then Some(metadata[k]) else None
  {
    objects, metadata := map[], map[];
    for i := 0 to |records|
      invariant forall k :: Fold(records[..i], k, lsn).obj == if k in objects then Some(objects[k]) else None
      invariant forall k :: Fold(records[..i], k, lsn).expiry == if k in metadata then Some(metadata[k]) else None
    {
      var r := records[i];
      assert records[..i + 1][..i] == records[..i] && records[..i + 1][i] == r;
      if r.version <= lsn {
        continue;
      }
      match r
      case Object(key, version, value) => objects := objects[key := Record(version, value)];
      case Expiry(key, _, meta) => metadata := metadata[key := meta];
      case NoExpiry(key, _) => metadata := metadata - {key};
    }
    assert records[..|records|] == records;
  }

  function LoadOutcome(s: Store, k: Key, o: Outcome): Store {
    match o
    case Untouched => s
    case Gone(version) => ObjectStore.LoadCleanDelete(s, k, version)
    case Loaded(c) => ObjectStore.LoadClean(s, k, c)
  }

  lemma LoadingOneKey(s: Store, before: Store, k: Key, o: Outcome)
    requires Shows(s, before, k, Untouched)
    ensures var x := LoadOutcome(s, k, o);
      && Shows(x, before, k, o) && OutcomeBelow(o, x.clock) && s.clock <= x.clock && x.dirty == s.dirty
      && (forall n :: s.clock <= n && OutcomeBelow(o, n) ==> x.clock <= n)
      && (forall j, p :: j != k && Shows(s, before, j, p) ==> Shows(x, before, j, p))
  {
  }

  method LoadKey(store: MutableObjectStore, k: Key, r: Record, meta: Option<ExpiryMeta>)
    requires store.Valid()
    modifies store
    ensures store.Valid() && store.State() == LoadOutcome(old(store.State()), k, OutcomeOf(KeyState(Some(r), meta)))
  {
    match r.value
    case Some(v) =>
      if meta.Some? && meta.value.version == r.version {
        store.LoadClean(k, Cell(v, meta.value));
      } else {
        store.LoadClean(k, Cell(v, ExpiryMeta(r.version, r.version, 0, 0)));
      }
    case None => store.LoadCleanDelete(k, r.version);
  }

  /** Second pass: load each gathered key, clean, in any order. */
  method ApplyPersistedRecords(store: MutableObjectStore, records: seq<LogRecord>, lsn: nat)
    requires store.Valid()
    modifies store
    ensures store.Valid() && store.State().dirty == old(store.State()).dirty
    ensures forall k :: Shows(store.State(), old(store.State()), k, OutcomeOf(Fold(records, k, lsn)))
    ensures old(store.clock) <= store.clock && OutcomesBelow(records, lsn, store.clock)
    ensures forall n :: old(store.clock) <= n && OutcomesBelow(records, lsn, n) ==> store.clock <= n
  {
    var objects, metadata := Gather(records, lsn);
    ghost var before := store.State();
    var left := objects.Keys;
    while left != {}
      invariant store.Valid() && store.State().dirty == before.dirty && left <= objects.Keys
      invariant before.clock <= store.clock
      invariant forall k :: Shows(store.State(), before, k, if k in left then Untouched else OutcomeOf(Fold(records, k, lsn)))
      invariant forall k :: k !in left ==> OutcomeBelow(OutcomeOf(Fold(records, k, lsn)), store.clock)
      invariant forall n :: before.clock <= n && OutcomesBelow(records, lsn, n) ==> store.clock <= n
      decreases left
    {
      var k :| k in left;
      ghost var s, o := store.State(), OutcomeOf(Fold(records, k, lsn));
      LoadKey(store, k, objects[k], if k in metadata then Some(metadata[k]) else None);
      LoadingOneKey(s, before, k, o);
      left := left - {k};
      forall n | before.clock <= n && OutcomesBelow(records, lsn, n) ensures store.clock <= n {
        assert OutcomeBelow(o, n);
      }
    }
  }

  /** A checkpoint file's records stand for its cells. */
  ghost predicate Represents(ck: Checkpoint, records: seq<LogRecord>) {
    forall k :: OutcomeOf(Fold(records, k, 0)) == if k in ck.cells then Loaded(ck.cells[k]) else Untouched
  }

  /** Writing a snapshot of the store and reading it back gives the snapshot. */
  lemma SnapshotRepresents(s: Store, order: seq<Key>)
    requires forall k :: k in SnapshotOf(s).cells ==> s.meta[k].stamp.version > 0
    requires Distinct(order) && forall k :: k in order <==> k in SnapshotOf(s).cells
    ensures Represents(SnapshotOf(s), Expand(s, SnapshotBatch(s), order))
  {
    forall k ensures OutcomeOf(Fold(Expand(s, SnapshotBatch(s), order), k, 0))
      == if k in SnapshotOf(s).cells then Loaded(SnapshotOf(s).cells[k]) else Untouched {
      FoldOfExpand(NOTHING, s, SnapshotBatch(s), order, k, 0);
    }
  }

  function SnapshotBatch(s: Store): map<Key, Record> {
    map k | k in SnapshotOf(s).cells :: Record(s.meta[k].stamp.version, Some(s.values[k]))
  }

  method Recover(hash: Key -> nat, shards: nat, lsn: nat, checkpoint: seq<LogRecord>, wal: seq<LogRecord>, ghost ck: Checkpoint)
    returns (store: MutableObjectStore)
    requires shards > 0 && ck.lsn == lsn && Represents(ck, checkpoint)
    ensures fresh(store) && store.Valid() && Recovers(ck, wal, store.State())
  {
    store := new MutableObjectStore(hash, shards);
    ApplyPersistedRecords(store, checkpoint, 0);
    ghost var a := store.State();
    ApplyPersistedRecords(store, wal, lsn);
    forall k ensures Shows(store.State(), a, k, OutcomeOf(Fold(wal, k, lsn)))
                  && Shows(a, EMPTY_STORE, k, OutcomeOf(Fold(checkpoint, k, 0))) {
    }
    CheckpointBelow(ck, checkpoint, a.clock);
    forall n | 1 <= n && AllBelow(ck, wal, n) ensures store.clock <= n {
      CheckpointBelow(ck, checkpoint, n);
      assert OutcomesBelow(wal, lsn, n);
    }
  }

  lemma CheckpointBelow(ck: Checkpoint, records: seq<LogRecord>, n: nat)
    requires Represents(ck, records)
    ensures OutcomesBelow(records, 0, n) <==> forall k :: k in ck.cells ==> StampBelow(ck.cells[k].stamp, n)
  {
    if OutcomesBelow(records, 0, n) {
      forall k | k in ck.cells ensures StampBelow(ck.cells[k].stamp, n) {
        assert OutcomeBelow(OutcomeOf(Fold(records, k, 0)), n);
      }
    }
  }
}
