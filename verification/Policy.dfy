/** Which keys a policy demotion picks, and how its report accounts for the rest. */
module Policy {
  import opened Types
  import opened Ordering
  import opened ObjectStore
  import opened World
  import opened StoreObject

  datatype TieringRecord = TieringRecord(key: Key, cell: Cell, pendingDirty: bool)

  datatype TieringPolicy = TieringPolicy(
    idleThreshold: nat, maxRecords: nat, softLimit: Option<nat>, minCleanAge: nat)

  datatype TieringReport = TieringReport(
    attempted: nat, skippedDirty: nat, skippedRecent: nat, skippedCapacity: nat)

  predicate OldEnough(r: TieringRecord, now: nat, p: TieringPolicy) {
    && (p.idleThreshold == 0 || SatSub(now, r.cell.stamp.lastTouch) >= p.idleThreshold)
    && (p.minCleanAge == 0 || SatSub(now, r.cell.stamp.version) >= p.minCleanAge)
  }

  predicate Candidate(r: TieringRecord, now: nat, p: TieringPolicy) {
    !r.pendingDirty && OldEnough(r, now, p)
  }

  function SelectionLimit(p: TieringPolicy, hotLen: nat): nat {
    match p.softLimit
    case Some(limit) =>
      if hotLen > limit then Min(p.maxRecords, hotLen - limit)
      else if p.idleThreshold == 0 && p.minCleanAge == 0 then 0
      else p.maxRecords
    case None => p.maxRecords
  }

  // ----- The demotion order: last touch, then version, then key -----

  predicate Before(a: TieringRecord, b: TieringRecord) {
    var x, y := a.cell.stamp, b.cell.stamp;
    || x.lastTouch < y.lastTouch
    || (x.lastTouch == y.lastTouch && x.version < y.version)
    || (x.lastTouch == y.lastTouch && x.version == y.version && KeyBelow(a.key, b.key))
  }

  lemma OrderIsTransitive(a: TieringRecord, b: TieringRecord, c: TieringRecord)
    requires Before(a, b) && Before(b, c)
    ensures Before(a, c)
  {
    if KeyBelow(a.key, b.key) && KeyBelow(b.key, c.key) {
      KeyOrderIsTransitive(a.key, b.key, c.key);
    }
  }

  ghost predicate Sorted(rs: seq<TieringRecord>) {
    forall i, j :: 0 <= i < j < |rs| ==> Before(rs[i], rs[j])
  }

  ghost predicate DistinctKeys(rs: seq<TieringRecord>) {
    forall i, j :: 0 <= i < j < |rs| ==> rs[i].key != rs[j].key
  }

  function InsertSorted(r: TieringRecord, rs: seq<TieringRecord>): seq<TieringRecord> {
    if rs == [] || Before(r, rs[0]) then [r] + rs else [rs[0]] + InsertSorted(r, rs[1..])
  }

  lemma {:induction false} InsertAdds(r: TieringRecord, rs: seq<TieringRecord>)
    ensures multiset(InsertSorted(r, rs)) == multiset(rs) + multiset{r}
    ensures forall x :: x in InsertSorted(r, rs) <==> x == r || x in rs
  {
    if rs != [] && !Before(r, rs[0]) {
      InsertAdds(r, rs[1..]);
      assert rs == [rs[0]] + rs[1..];
    }
  }

  lemma SortedCons(a: TieringRecord, rs: seq<TieringRecord>)
    requires Sorted(rs) && DistinctKeys(rs) && forall x :: x in rs ==> Before(a, x) && a.key != x.key
    ensures Sorted([a] + rs) && DistinctKeys([a] + rs)
  {
  }

  lemma {:induction false} InsertKeepsSorted(r: TieringRecord, rs: seq<TieringRecord>)
    requires Sorted(rs) && DistinctKeys(rs) && forall x :: x in rs ==> x.key != r.key
    ensures Sorted(InsertSorted(r, rs)) && DistinctKeys(InsertSorted(r, rs))
    ensures multiset(InsertSorted(r, rs)) == multiset(rs) + multiset{r}
  {
    InsertAdds(r, rs);
    if rs == [] {
    } else if Before(r, rs[0]) {
      forall x | x in rs ensures Before(r, x) {
        if x != rs[0] {
          OrderIsTransitive(r, rs[0], x);
        }
      }
      SortedCons(r, rs);
    } else {
      assert rs[0] in rs;
      KeysAreComparable(r.key, rs[0].key);
      InsertKeepsSorted(r, rs[1..]);
      InsertAdds(r, rs[1..]);
      SortedCons(rs[0], InsertSorted(r, rs[1..]));
    }
  }

  function SortRecords(rs: seq<TieringRecord>): seq<TieringRecord> {
    if rs == [] then [] else InsertSorted(rs[0], SortRecords(rs[1..]))
  }

  lemma {:induction false} SortSorts(rs: seq<TieringRecord>)
    requires DistinctKeys(rs)
    ensures Sorted(SortRecords(rs)) && DistinctKeys(SortRecords(rs)) && multiset(SortRecords(rs)) == multiset(rs)
    ensures |SortRecords(rs)| == |rs| && forall x :: x in SortRecords(rs) <==> x in rs
  {
    if rs != [] {
      var rest := rs[1..];
      SortSorts(rest);
      assert rs == [rs[0]] + rest;
      forall x | x in SortRecords(rest) ensures x.key != rs[0].key {
        assert x in rest;
      }
      InsertKeepsSorted(rs[0], SortRecords(rest));
    }
    assert |multiset(SortRecords(rs))| == |multiset(rs)|;
    forall x ensures x in SortRecords(rs) <==> x in rs {
      assert x in multiset(SortRecords(rs)) <==> x in multiset(rs);
    }
  }

  function CountCandidates(rs: seq<TieringRecord>, now: nat, p: TieringPolicy): nat {
    if rs == [] then 0
    else CountCandidates(rs[..|rs| - 1], now, p) + if Candidate(rs[|rs| - 1], now, p) then 1 else 0
  }

  /** Demotion selection: every record is accounted for exactly once; the selection is as large
      as the limit allows, is made of candidates only, and precedes every other candidate in the
      demotion order; and it never takes the hot store below a soft limit it exceeds. */
  method SelectCandidates(records: seq<TieringRecord>, now: nat, hotLen: nat, p: TieringPolicy)
    returns (selected: seq<TieringRecord>, report: TieringReport)
    requires DistinctKeys(records)
    ensures p.maxRecords == 0 ==> selected == [] && report == TieringReport(0, 0, 0, 0)
    ensures p.maxRecords > 0 ==>
      report.attempted + report.skippedDirty + report.skippedRecent + report.skippedCapacity == |records|
    ensures report.attempted == |selected|
      == if p.maxRecords == 0 then 0 else Min(SelectionLimit(p, hotLen), CountCandidates(records, now, p))
    ensures DistinctKeys(selected) && forall r :: r in selected ==> r in records && Candidate(r, now, p)
    ensures forall r, s :: s in selected && r in records && Candidate(r, now, p) && r !in selected ==> Before(s, r)
    ensures p.softLimit.Some? && hotLen > p.softLimit.value ==> hotLen - |selected| >= p.softLimit.value
  {
    selected, report := [], TieringReport(0, 0, 0, 0);
    if p.maxRecords == 0 {
      return;
    }
    var candidates := [];
    for i := 0 to |records|
      invariant forall r :: r in candidates <==> r in records[..i] && Candidate(r, now, p)
      invariant DistinctKeys(candidates) && |candidates| == CountCandidates(records[..i], now, p)
      invariant report.attempted == report.skippedCapacity == 0
      invariant report.skippedDirty + report.skippedRecent + |candidates| == i
    {
      var r := records[i];
      assert records[..i + 1][..i] == records[..i] && records[..i + 1] == records[..i] + [r];
      assert forall x :: x in records[..i] ==> x.key != r.key;
      if r.pendingDirty {
        report := report.(skippedDirty := report.skippedDirty + 1);
      } else if !OldEnough(r, now, p) {
        report := report.(skippedRecent := report.skippedRecent + 1);
      } else {
        candidates := candidates + [r];
      }
    }
    assert records[..|records|] == records;
    var sorted := SortRecords(candidates);
    SortSorts(candidates);
    var count := Min(SelectionLimit(p, hotLen), |candidates|);
    report := report.(skippedCapacity := |candidates| - count, attempted := count);
    selected := sorted[..count];
    TruncationIsMinimal(sorted, count);
  }

  lemma TruncationIsMinimal(sorted: seq<TieringRecord>, count: nat)
    requires Sorted(sorted) && count <= |sorted|
    ensures forall r, s :: s in sorted[..count] && r in sorted && r !in sorted[..count] ==> Before(s, r)
  {
    assert sorted == sorted[..count] + sorted[count..];
  }

  predicate Snapshotted(s: Store, k: Key) {
    Live(s, k) && k in s.values && !Lapsed(s.meta[k].stamp, s.clock)
  }

  /** Keys with live, unexpired metadata and no value. */
  function EmptyKeys(s: Store): set<Key> {
    set k | k in s.meta && Live(s, k) && !Lapsed(s.meta[k].stamp, s.clock) && k !in s.values
  }

  /** On a reachable store there are none. */
  lemma NothingIsEmpty(w: World)
    requires Inv(w)
    ensures EmptyKeys(w.store) == {}
  {
    forall k ensures k !in EmptyKeys(w.store) {
      assert KeyInv(w, k);
    }
  }

  /** `tiering_snapshot`: the live, unexpired hot values, each marked if any dirty entry waits. */
  method TieringSnapshot(store: MutableObjectStore)
    returns (records: seq<TieringRecord>, hotLen: nat, skippedEmpty: nat)
    requires store.Valid()
    ensures hotLen == |store.values| && DistinctKeys(records)
    ensures skippedEmpty == |EmptyKeys(store.State())|
    ensures forall r :: r in records ==>
      && Snapshotted(store.State(), r.key)
      && r.cell == HotCell(store.State(), r.key) && (r.pendingDirty <==> PendingKey(store.State(), r.key))
    ensures forall k :: Snapshotted(store.State(), k) ==> exists r :: r in records && r.key == k
  {
    hotLen := |store.values|;
    var empty := EmptyKeys(Store(store.values, store.meta, multiset{}, store.clock, store.writeClock));
    assert empty == EmptyKeys(store.State());
    skippedEmpty := |empty|;
    records := [];
    var left := store.values.Keys;
    while left != {}
      invariant left <= store.values.Keys && DistinctKeys(records)
      invariant forall r :: r in records ==>
        && r.key !in left && Snapshotted(store.State(), r.key)
        && r.cell == HotCell(store.State(), r.key) && (r.pendingDirty <==> PendingKey(store.State(), r.key))
      invariant forall k :: k !in left && Snapshotted(store.State(), k) ==> exists r :: r in records && r.key == k
      decreases left
    {
      var k :| k in left;
      left := left - {k};
      if k in store.meta && !store.meta[k].tombstone && !Lapsed(store.meta[k].stamp, store.clock) {
        var pending := store.HasPendingKey(k);
        var r := TieringRecord(k, Cell(store.values[k], store.meta[k].stamp), pending);
        assert forall x :: x in records ==> x.key != k;
        records := records + [r];
        assert r in records;
      }
    }
  }

  /** What the policy selects from a snapshot is a set of keys the demotion may start with. */
  method PlanDemotion(store: MutableObjectStore, p: TieringPolicy) returns (keys: set<Key>, report: TieringReport)
    requires store.Valid()
    ensures AllSelectable(store.State(), keys)
    ensures |keys| == report.attempted <= p.maxRecords
    ensures p.softLimit.Some? && |store.values| > p.softLimit.value ==> |store.values| - |keys| >= p.softLimit.value
  {
    var records, hotLen, _ := TieringSnapshot(store);
    var selected;
    selected, report := SelectCandidates(records, store.clock, hotLen, p);
    keys := set r | r in selected :: r.key;
    CountKeys(selected);
  }

  lemma {:induction false} CountKeys(rs: seq<TieringRecord>)
    requires DistinctKeys(rs)
    ensures |set r | r in rs :: r.key| == |rs|
  {
    if rs != [] {
      var rest := rs[1..];
      CountKeys(rest);
      assert rs == [rs[0]] + rest;
      assert (set r | r in rs :: r.key) == (set r | r in rest :: r.key) + {rs[0].key};
      assert rs[0].key !in (set r | r in rest :: r.key);
    }
  }
}
