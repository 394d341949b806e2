/** The SQL query copy: what the guarded upsert and delete statements do to the table's rows.

    `INSERT ... ON CONFLICT DO UPDATE ... WHERE row.lsn < new.lsn` and
    `DELETE ... WHERE key = ? AND lsn <= ?`. */
module SqlCopy {
  import opened Types

  datatype Row = Row(lsn: nat, doc: Value)

  /** A queued mutation; no document means a delete. */
  datatype FlushRecord = FlushRecord(key: Key, lsn: nat, doc: Option<Value>)

  type Table = map<Key, Row>

  function At(t: Table, k: Key): Option<Row> {
    if k in t then Some(t[k]) else None
  }

  function Guarded(t: Table, r: FlushRecord): Table {
    match r.doc
    case Some(doc) => if r.key in t && t[r.key].lsn >= r.lsn then t else t[r.key := Row(r.lsn, doc)]
    case None => if r.key in t && t[r.key].lsn <= r.lsn then t - {r.key} else t
  }

  function GuardedAll(t: Table, rs: seq<FlushRecord>): Table {
    if rs == [] then t else Guarded(GuardedAll(t, rs[..|rs| - 1]), rs[|rs| - 1])
  }

  /** The reference: last writer wins, no guards. */
  function Plain(rs: seq<FlushRecord>): Table {
    if rs == [] then map[]
    else
      var r := rs[|rs| - 1];
      var t := Plain(rs[..|rs| - 1]);
      if r.doc.Some? then t[r.key := Row(r.lsn, r.doc.value)] else t - {r.key}
  }

  ghost predicate Increasing(rs: seq<FlushRecord>) {
    forall i, j :: 0 <= i < j < |rs| ==> rs[i].lsn < rs[j].lsn
  }

  // ----- Retries are harmless -----

  /** A row of the reference table comes from a record, and no record of the key is later. */
  lemma {:induction false} PlainRow(rs: seq<FlushRecord>, k: Key)
    requires Increasing(rs)
    ensures forall row :: At(Plain(rs), k) == Some(row) ==> FlushRecord(k, row.lsn, Some(row.doc)) in rs
    ensures forall row, r :: At(Plain(rs), k) == Some(row) && r in rs && r.key == k ==> r.lsn <= row.lsn
  {
    if rs != [] {
      var front := rs[..|rs| - 1];
      PlainRow(front, k);
      assert rs == front + [rs[|rs| - 1]];
    }
  }

  lemma {:induction false} PlainUnmentioned(a: seq<FlushRecord>, b: seq<FlushRecord>, k: Key)
    requires forall r :: r in b ==> r.key != k
    ensures At(Plain(a + b), k) == At(Plain(a), k)
    decreases |b|
  {
    if b == [] {
      assert a + b == a;
    } else {
      assert (a + b)[..|a + b| - 1] == a + b[..|b| - 1];
      PlainUnmentioned(a, b[..|b| - 1], k);
    }
  }

  /** The table's row for `k` is what the reference has after the first `j` records of `all`. */
  ghost predicate StandsAt(t: Table, all: seq<FlushRecord>, j: nat, k: Key) {
    j <= |all| && At(t, k) == At(Plain(all[..j]), k)
  }

  /** Every row stands somewhere between the committed part and the whole. */
  ghost predicate Between(t: Table, all: seq<FlushRecord>, committed: nat) {
    forall k :: RowBetween(t, all, committed, k)
  }

  ghost predicate RowBetween(t: Table, all: seq<FlushRecord>, committed: nat, k: Key) {
    exists j :: committed <= j && StandsAt(t, all, j, k)
  }

  lemma SameTable(t: Table, u: Table)
    requires forall k :: At(t, k) == At(u, k)
    ensures t == u
  {
    forall k ensures (k in t <==> k in u) && (k in t ==> t[k] == u[k]) {
      assert At(t, k) == At(u, k);
    }
  }

  /** Applying record `i` again, or for the first time, to a row that stands at `j`. */
  lemma OneRecord(t: Table, all: seq<FlushRecord>, i: nat, j: nat, k: Key)
    requires Increasing(all) && i < |all| && StandsAt(t, all, j, k)
    ensures var u := Guarded(t, all[i]);
      if all[i].key != k || (i < j && k in t) then At(u, k) == At(t, k) else StandsAt(u, all, i + 1, k)
    ensures i >= j && all[i].key == k ==> StandsAt(Guarded(t, all[i]), all, i + 1, k)
  {
    var r := all[i];
    assert all[..i + 1][..i] == all[..i] && all[..i + 1][i] == r;
    PlainRow(all[..j], k);
    if i < j {
      assert r == all[..j][i];
    }
    if r.key == k && k in t {
      var x := FlushRecord(k, t[k].lsn, Some(t[k].doc));
      assert x in all[..j];
      var n :| 0 <= n < j && all[n] == x;
    }
  }

  /** No record from `from` on is of key `k`. */
  ghost predicate SilentFrom(all: seq<FlushRecord>, from: nat, k: Key) {
    forall i :: from <= i < |all| ==> all[i].key != k
  }

  lemma SilentBefore(all: seq<FlushRecord>, n: nat, k: Key)
    requires n < |all|
    ensures SilentFrom(all, n, k) <==> SilentFrom(all, n + 1, k) && all[n].key != k
  {
  }

  lemma ApplyingOneMore(t: Table, all: seq<FlushRecord>, a: nat, n: nat)
    requires a <= n < |all|
    ensures GuardedAll(t, all[a..n + 1]) == Guarded(GuardedAll(t, all[a..n]), all[n])
  {
    assert all[a..n + 1][..n - a] == all[a..n];
  }

  lemma PassStep(u: Table, all: seq<FlushRecord>, n: nat, k: Key, j: nat) returns (m: nat)
    requires Increasing(all) && n < |all| && StandsAt(u, all, j, k)
    ensures (m == j || m == n + 1) && StandsAt(Guarded(u, all[n]), all, m, k)
    ensures all[n].key != k ==> At(Guarded(u, all[n]), k) == At(u, k)
    ensures all[n].key == k && SilentFrom(all, n + 1, k) ==>
      At(Guarded(u, all[n]), k) == At(Plain(all), k)
  {
    OneRecord(u, all, n, j, k);
    m := if all[n].key == k && !(n < j && k in u) then n + 1 else j;
    if all[n].key == k && SilentFrom(all, n + 1, k) {
      Unmentioned(all, n + 1, k, m);
    }
  }

  lemma {:induction false} Pass(t: Table, all: seq<FlushRecord>, committed: nat, n: nat, k: Key, j: nat) returns (m: nat)
    requires Increasing(all) && committed <= j && committed <= n <= |all| && StandsAt(t, all, j, k)
    ensures committed <= m && StandsAt(GuardedAll(t, all[committed..n]), all, m, k)
    ensures SilentFrom(all, n, k) ==> At(GuardedAll(t, all[committed..n]), k) == At(Plain(all), k)
    decreases n
  {
    if n == committed {
      assert all[committed..n] == [];
      m := j;
      if SilentFrom(all, n, k) {
        Unmentioned(all, committed, k, j);
      }
    } else {
      m := Pass(t, all, committed, n - 1, k, j);
      ApplyingOneMore(t, all, committed, n - 1);
      SilentBefore(all, n - 1, k);
      m := PassStep(GuardedAll(t, all[committed..n - 1]), all, n - 1, k, m);
    }
  }

  /** From `from` on, nothing changes the reference's row of an unmentioned key. */
  lemma Unmentioned(all: seq<FlushRecord>, from: nat, k: Key, j: nat)
    requires from <= j <= |all| && SilentFrom(all, from, k)
    ensures At(Plain(all[..j]), k) == At(Plain(all), k)
  {
    assert all == all[..j] + all[j..];
    PlainUnmentioned(all[..j], all[j..], k);
  }

  /** A partly applied batch leaves every row between the committed part and the whole. */
  lemma PartialPass(t: Table, all: seq<FlushRecord>, committed: nat, n: nat)
    requires Increasing(all) && committed <= n <= |all| && Between(t, all, committed)
    ensures Between(GuardedAll(t, all[committed..n]), all, committed)
  {
    forall k ensures RowBetween(GuardedAll(t, all[committed..n]), all, committed, k) {
      assert RowBetween(t, all, committed, k);
      var j :| committed <= j && StandsAt(t, all, j, k);
      var m := Pass(t, all, committed, n, k, j);
    }
  }

  /** A fully applied batch gives the reference table, whatever earlier attempts left behind. */
  lemma FullPass(t: Table, all: seq<FlushRecord>, committed: nat)
    requires Increasing(all) && committed <= |all| && Between(t, all, committed)
    ensures GuardedAll(t, all[committed..]) == Plain(all)
  {
    var u := GuardedAll(t, all[committed..]);
    assert all[committed..|all|] == all[committed..];
    forall k ensures At(u, k) == At(Plain(all), k) {
      assert RowBetween(t, all, committed, k);
      var j :| committed <= j && StandsAt(t, all, j, k);
      var m := Pass(t, all, committed, |all|, k, j);
    }
    SameTable(u, Plain(all));
  }

  lemma BetweenGrows(t: Table, all: seq<FlushRecord>, more: seq<FlushRecord>, committed: nat)
    requires Between(t, all, committed)
    ensures Between(t, all + more, committed)
  {
    forall k ensures RowBetween(t, all + more, committed, k) {
      assert RowBetween(t, all, committed, k);
      var j :| committed <= j && StandsAt(t, all, j, k);
      assert (all + more)[..j] == all[..j];
      assert StandsAt(t, all + more, j, k);
    }
  }

  // ----- Order independence -----

  /** A put that outranks every other record of its key decides the row, in any order. */
  lemma {:induction false} HighestPutWins(t: Table, rs: seq<FlushRecord>, w: FlushRecord)
    requires w.doc.Some? && w in rs
    requires forall r :: r in rs && r.key == w.key && r != w ==> r.lsn < w.lsn
    requires w.key in t ==> t[w.key].lsn < w.lsn || t[w.key] == Row(w.lsn, w.doc.value)
    ensures At(GuardedAll(t, rs), w.key) == Some(Row(w.lsn, w.doc.value))
  {
    var front, last := rs[..|rs| - 1], rs[|rs| - 1];
    assert rs == front + [last];
    if w in front {
      HighestPutWins(t, front, w);
    } else {
      StaysBelow(t, front, w);
    }
  }

  lemma {:induction false} StaysBelow(t: Table, rs: seq<FlushRecord>, w: FlushRecord)
    requires w.doc.Some?
    requires forall r :: r in rs && r.key == w.key ==> r.lsn < w.lsn
    requires w.key in t ==> t[w.key].lsn < w.lsn || t[w.key] == Row(w.lsn, w.doc.value)
    ensures var u := GuardedAll(t, rs);
      w.key in u ==> u[w.key].lsn < w.lsn || u[w.key] == Row(w.lsn, w.doc.value)
  {
    if rs != [] {
      StaysBelow(t, rs[..|rs| - 1], w);
      assert rs[|rs| - 1] in rs;
    }
  }

  /** A delete that outranks everything, applied last, leaves no row. */
  lemma {:induction false} HighestDeleteLast(rs: seq<FlushRecord>, d: FlushRecord)
    requires d.doc.None? && forall r :: r in rs && r.key == d.key ==> r.lsn < d.lsn
    ensures At(GuardedAll(map[], rs + [d]), d.key) == None
  {
    assert (rs + [d])[..|rs|] == rs;
    StaysBelow(map[], rs, d.(doc := Some([])));
    RowsComeFromRecords(rs, d.key);
  }

  lemma {:induction false} RowsComeFromRecords(rs: seq<FlushRecord>, k: Key)
    ensures At(GuardedAll(map[], rs), k).Some? ==> exists r :: r in rs && r.key == k && r.lsn == At(GuardedAll(map[], rs), k).value.lsn
  {
    if rs != [] {
      var front, last := rs[..|rs| - 1], rs[|rs| - 1];
      RowsComeFromRecords(front, k);
      assert rs == front + [last];
      if At(GuardedAll(map[], rs), k).Some? {
        if At(GuardedAll(map[], rs), k) == At(GuardedAll(map[], front), k) {
          var r :| r in front && r.key == k && r.lsn == At(GuardedAll(map[], front), k).value.lsn;
          assert r in rs;
        } else {
          assert last in rs;
        }
      }
    }
  }

  ghost predicate OneKey(rs: seq<FlushRecord>, k: Key) {
    && (forall r :: r in rs ==> r.key == k)
    && (forall i, j :: 0 <= i < j < |rs| ==> rs[i].lsn != rs[j].lsn)
  }

  ghost predicate OrderIndependent(rs: seq<FlushRecord>, k: Key) {
    forall p, q :: multiset(p) == multiset(rs) && multiset(q) == multiset(rs) ==>
      At(GuardedAll(map[], p), k) == At(GuardedAll(map[], q), k)
  }

  ghost predicate HighestIsPut(rs: seq<FlushRecord>) {
    exists w :: w in rs && w.doc.Some? && forall r :: r in rs && r != w ==> r.lsn < w.lsn
  }

  lemma {:induction false} OnlyDeletes(rs: seq<FlushRecord>)
    requires forall r :: r in rs ==> r.doc.None?
    ensures GuardedAll(map[], rs) == map[]
  {
    if rs != [] {
      OnlyDeletes(rs[..|rs| - 1]);
    }
  }

  lemma {:induction false} Highest(rs: seq<FlushRecord>, k: Key) returns (i: nat)
    requires OneKey(rs, k) && rs != []
    ensures i < |rs| && forall j :: 0 <= j < |rs| && j != i ==> rs[j].lsn < rs[i].lsn
  {
    if |rs| == 1 {
      i := 0;
    } else {
      var front := rs[..|rs| - 1];
      i := Highest(front, k);
      if rs[i].lsn < rs[|rs| - 1].lsn {
        i := |rs| - 1;
      }
    }
  }

  function MoveLast(rs: seq<FlushRecord>, i: nat): seq<FlushRecord>
    requires i < |rs|
  {
    rs[..i] + rs[i + 1..] + [rs[i]]
  }

  lemma MoveLastPermutes(rs: seq<FlushRecord>, i: nat)
    requires i < |rs|
    ensures multiset(MoveLast(rs, i)) == multiset(rs)
  {
    assert rs == rs[..i] + [rs[i]] + rs[i + 1..];
  }

  /** The exact condition: the outcome for a key does not depend on the order in which its
      records arrive if and only if the highest LSN is a put, or there is no put at all. */
  lemma OrderIndependentIff(rs: seq<FlushRecord>, k: Key)
    requires OneKey(rs, k)
    ensures OrderIndependent(rs, k) <==> (HighestIsPut(rs) || forall r :: r in rs ==> r.doc.None?)
  {
    if HighestIsPut(rs) {
      var w :| w in rs && w.doc.Some? && forall r :: r in rs && r != w ==> r.lsn < w.lsn;
      forall p | multiset(p) == multiset(rs) ensures At(GuardedAll(map[], p), k) == Some(Row(w.lsn, w.doc.value)) {
        assert forall r :: r in p <==> r in multiset(p);
        assert forall r :: r in rs <==> r in multiset(rs);
        HighestPutWins(map[], p, w);
      }
    } else if forall r :: r in rs ==> r.doc.None? {
      forall p | multiset(p) == multiset(rs) ensures At(GuardedAll(map[], p), k) == None {
        assert forall r :: r in p <==> r in multiset(p);
        assert forall r :: r in rs <==> r in multiset(rs);
        OnlyDeletes(p);
      }
    } else {
      OrderMatters(rs, k);
    }
  }

  lemma DeleteLast(rs: seq<FlushRecord>, k: Key) returns (p: seq<FlushRecord>)
    requires OneKey(rs, k) && !HighestIsPut(rs) && rs != []
    ensures multiset(p) == multiset(rs) && At(GuardedAll(map[], p), k) == None
  {
    var h := Highest(rs, k);
    assert rs[h] in rs && forall x :: x in rs && x != rs[h] ==> x.lsn < rs[h].lsn;
    p := MoveLast(rs, h);
    MoveLastPermutes(rs, h);
    HighestDeleteLast(rs[..h] + rs[h + 1..], rs[h]);
  }

  lemma PutLast(rs: seq<FlushRecord>, k: Key, r: FlushRecord) returns (q: seq<FlushRecord>)
    requires OneKey(rs, k) && r in rs && r.doc.Some?
    ensures multiset(q) == multiset(rs) && At(GuardedAll(map[], q), k).Some?
  {
    var i :| 0 <= i < |rs| && rs[i] == r;
    q := MoveLast(rs, i);
    MoveLastPermutes(rs, i);
    var front := rs[..i] + rs[i + 1..];
    assert q == front + [r] && q[..|q| - 1] == front;
  }

  lemma OrderMatters(rs: seq<FlushRecord>, k: Key)
    requires OneKey(rs, k) && !HighestIsPut(rs) && exists r :: r in rs && r.doc.Some?
    ensures !OrderIndependent(rs, k)
  {
    var r :| r in rs && r.doc.Some?;
    var p := DeleteLast(rs, k);
    var q := PutLast(rs, k, r);
    assert At(GuardedAll(map[], p), k) != At(GuardedAll(map[], q), k);
  }
}
