/** The write-ahead log as a sequence of records, and what recovery reads out of it.

    Object records and expiry-metadata records share one log; a metadata record carries the
    version of the object record it follows, so a version filter keeps or drops both. */
module Log {
  import opened Types
  import opened ObjectStore

  datatype LogRecord =
    | Object(key: Key, version: nat, value: Option<Value>)
    | Expiry(key: Key, version: nat, meta: ExpiryMeta)
    | NoExpiry(key: Key, version: nat)

  /** What the loop of `apply_persisted_records` has gathered for one key. */
  datatype KeyState = KeyState(obj: Option<Record>, expiry: Option<ExpiryMeta>)

  const NOTHING := KeyState(None, None)

  function Absorb(st: KeyState, r: LogRecord, k: Key, lsn: nat): KeyState {
    if r.key != k || r.version <= lsn then st
    else match r
      case Object(_, version, value) => st.(obj := Some(Record(version, value)))
      case Expiry(_, _, meta) => st.(expiry := Some(meta))
      case NoExpiry(_, _) => st.(expiry := None)
  }

  function FoldFrom(st: KeyState, log: seq<LogRecord>, k: Key, lsn: nat): KeyState {
    if log == [] then st
    else Absorb(FoldFrom(st, log[..|log| - 1], k, lsn), log[|log| - 1], k, lsn)
  }

  /** What the records above `lsn` say about `k`. */
  function Fold(log: seq<LogRecord>, k: Key, lsn: nat): KeyState {
    FoldFrom(NOTHING, log, k, lsn)
  }

  datatype Outcome = Untouched | Gone(version: nat) | Loaded(cell: Cell)

  /** A put is loaded with its expiry metadata only if that metadata is of the same version. */
  function OutcomeOf(st: KeyState): Outcome {
    match st.obj
    case None => Untouched
    case Some(Record(version, None)) => Gone(version)
    case Some(Record(version, Some(v))) =>
      if st.expiry.Some? && st.expiry.value.version == version then Loaded(Cell(v, st.expiry.value))
      else Loaded(Cell(v, ExpiryMeta(version, version, 0, 0)))
  }

  lemma {:induction false} FoldOfConcat(st: KeyState, a: seq<LogRecord>, b: seq<LogRecord>, k: Key, lsn: nat)
    ensures FoldFrom(st, a + b, k, lsn) == FoldFrom(FoldFrom(st, a, k, lsn), b, k, lsn)
    decreases |b|
  {
    if b == [] {
      assert a + b == a;
    } else {
      assert (a + b)[..|a + b| - 1] == a + b[..|b| - 1];
      FoldOfConcat(st, a, b[..|b| - 1], k, lsn);
    }
  }

  lemma {:induction false} FoldOfSilent(st: KeyState, log: seq<LogRecord>, k: Key, lsn: nat)
    requires forall r :: r in log ==> r.key != k || r.version <= lsn
    ensures FoldFrom(st, log, k, lsn) == st
  {
    if log != [] {
      FoldOfSilent(st, log[..|log| - 1], k, lsn);
    }
  }

  /** Records at or below the checkpoint's LSN do not count; the rest are all above zero. */
  lemma {:induction false} FoldIgnoresPrefix(a: seq<LogRecord>, b: seq<LogRecord>, k: Key, lsn: nat)
    requires forall r :: r in a && r.key == k ==> r.version <= lsn
    ensures Fold(a + b, k, lsn) == Fold(b, k, lsn)
  {
    FoldOfSilent(NOTHING, a, k, lsn);
    FoldOfConcat(NOTHING, a, b, k, lsn);
  }

  // ----- Writing a batch -----

  /** `records_with_metadata` for one record: the metadata is what the store holds now. */
  function RecordsFor(s: Store, k: Key, r: Record): seq<LogRecord> {
    if r.value.None? then [Object(k, r.version, None), NoExpiry(k, r.version)]
    else if Live(s, k) then [Object(k, r.version, r.value), Expiry(k, r.version, s.meta[k].stamp)]
    else [Object(k, r.version, r.value)]
  }

  function Expand(s: Store, batch: map<Key, Record>, order: seq<Key>): seq<LogRecord>
    requires forall k :: k in order ==> k in batch
  {
    if order == [] then []
    else RecordsFor(s, order[0], batch[order[0]]) + Expand(s, batch, order[1..])
  }

  ghost predicate Distinct(order: seq<Key>) {
    forall i, j :: 0 <= i < j < |order| ==> order[i] != order[j]
  }

  function AfterRecord(st: KeyState, s: Store, k: Key, r: Record, lsn: nat): KeyState {
    if r.version <= lsn then st
    else KeyState(Some(r), if r.value.None? then None else if Live(s, k) then Some(s.meta[k].stamp) else st.expiry)
  }

  lemma FoldOfRecordsFor(st: KeyState, s: Store, j: Key, r: Record, k: Key, lsn: nat)
    ensures FoldFrom(st, RecordsFor(s, j, r), k, lsn) == if j == k then AfterRecord(st, s, k, r, lsn) else st
  {
    var log := RecordsFor(s, j, r);
    if |log| == 2 {
      assert log == [log[0]] + [log[1]];
      FoldOfConcat(st, [log[0]], [log[1]], k, lsn);
    }
    assert forall x: LogRecord :: [x][..0] == [];
  }

  /** Appending a batch sets exactly the batch's keys, each to its own record. */
  lemma {:induction false} FoldOfExpand(st: KeyState, s: Store, batch: map<Key, Record>, order: seq<Key>, k: Key, lsn: nat)
    requires (forall j :: j in order ==> j in batch) && Distinct(order)
    ensures FoldFrom(st, Expand(s, batch, order), k, lsn)
      == if k in order then AfterRecord(st, s, k, batch[k], lsn) else st
    decreases |order|
  {
    if order != [] {
      var j, rest := order[0], order[1..];
      assert order == [j] + rest;
      assert forall i :: 0 <= i < |rest| ==> rest[i] == order[i + 1];
      FoldOfConcat(st, RecordsFor(s, j, batch[j]), Expand(s, batch, rest), k, lsn);
      FoldOfRecordsFor(st, s, j, batch[j], k, lsn);
      FoldOfExpand(FoldFrom(st, RecordsFor(s, j, batch[j]), k, lsn), s, batch, rest, k, lsn);
    }
  }

  lemma {:induction false} ExpandMentions(s: Store, batch: map<Key, Record>, order: seq<Key>, r: LogRecord)
    requires (forall j :: j in order ==> j in batch) && r in Expand(s, batch, order)
    ensures r.key in order && r.version == batch[r.key].version
    ensures r.Object? ==> r.value == batch[r.key].value
    decreases |order|
  {
    if r !in RecordsFor(s, order[0], batch[order[0]]) {
      ExpandMentions(s, batch, order[1..], r);
    }
  }

  /** The object part of a fold is the last object record of the key, if any. */
  lemma {:induction false} FoldedObject(st: KeyState, log: seq<LogRecord>, k: Key, lsn: nat, rec: Record)
    requires forall r :: r in log && r.Object? && r.key == k ==> r.version == rec.version && r.value == rec.value
    ensures FoldFrom(st, log, k, lsn).obj ==
      if rec.version > lsn && (exists r :: r in log && r.Object? && r.key == k) then Some(rec) else st.obj
  {
    if log != [] {
      var front, last := log[..|log| - 1], log[|log| - 1];
      assert log == front + [last];
      FoldedObject(st, front, k, lsn, rec);
      if last.Object? && last.key == k {
        assert last in log;
      } else {
        assert (exists r :: r in log && r.Object? && r.key == k) ==> (exists r :: r in front && r.Object? && r.key == k);
      }
    }
  }
}
