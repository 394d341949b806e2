/** The store as the object it is: maps and sharded dirty queues updated in place.

    Each method is proved against the function of module ObjectStore that describes it, so the
    run theorems about those functions are theorems about this object. The lifecycle lock makes
    each method one atomic step. */
module StoreObject {
  import opened Types
  import opened ObjectStore

  function Total(queues: seq<seq<DirtyEntry>>): multiset<DirtyEntry> {
    if queues == [] then multiset{} else multiset(queues[0]) + Total(queues[1..])
  }

  /** Changing one shard's queue changes the total by what that queue gained and lost. */
  lemma {:induction false} TotalUpdate(queues: seq<seq<DirtyEntry>>, i: nat, q: seq<DirtyEntry>)
    requires i < |queues|
    ensures Total(queues[i := q]) + multiset(queues[i]) == Total(queues) + multiset(q)
    ensures multiset(queues[i]) <= Total(queues)
  {
    if i > 0 {
      var rest := queues[1..];
      TotalUpdate(rest, i - 1, q);
      assert queues[i := q][1..] == rest[i - 1 := q];
      assert Total(queues[i := q]) == multiset(queues[0]) + Total(rest[i - 1 := q]);
      assert Total(queues[i := q]) + multiset(queues[i])
          == multiset(queues[0]) + (Total(rest[i - 1 := q]) + multiset(rest[i - 1]));
    } else {
      assert queues[0 := q][1..] == queues[1..];
    }
  }

  lemma Cancel(a: multiset<DirtyEntry>, b: multiset<DirtyEntry>, c: multiset<DirtyEntry>)
    requires a + c == b + c
    ensures a == b
  {
    assert forall x :: (a + c)[x] == a[x] + c[x] && (b + c)[x] == b[x] + c[x];
  }

  /** Moving `part` from what is left to the end of what was taken keeps their sum. */
  lemma Moves(taken: seq<DirtyEntry>, part: seq<DirtyEntry>, left: multiset<DirtyEntry>, before: multiset<DirtyEntry>)
    requires multiset(part) + left == before
    ensures multiset(taken + part) + left == multiset(taken) + before
  {
    assert multiset(taken + part) == multiset(taken) + multiset(part);
  }

  lemma {:induction false} InSomeQueue(queues: seq<seq<DirtyEntry>>, e: DirtyEntry)
    ensures e in Total(queues) <==> exists i :: 0 <= i < |queues| && e in queues[i]
  {
    if queues != [] {
      InSomeQueue(queues[1..], e);
      if exists i :: 0 <= i < |queues| && e in queues[i] {
        var i :| 0 <= i < |queues| && e in queues[i];
        if i > 0 {
          assert queues[1..][i - 1] == queues[i];
        }
      }
      if exists i :: 0 <= i < |queues[1..]| && e in queues[1..][i] {
        var i :| 0 <= i < |queues[1..]| && e in queues[1..][i];
        assert queues[i + 1] == queues[1..][i];
      }
    }
  }

  lemma {:induction false} TotalEmpty(queues: seq<seq<DirtyEntry>>)
    requires forall i :: 0 <= i < |queues| ==> queues[i] == []
    ensures Total(queues) == multiset{}
  {
    if queues != [] {
      TotalEmpty(queues[1..]);
    }
  }

  class MutableObjectStore {
    var values: map<Key, Value>
    var meta: map<Key, Meta>
    var queues: seq<seq<DirtyEntry>>
    var clock: nat
    var writeClock: nat
    const shardOf: Key -> nat

    ghost function State(): Store
      reads this
    {
      Store(values, meta, Total(queues), clock, writeClock)
    }

    /** Every entry waits in its own key's shard. */
    ghost predicate Valid()
      reads this
    {
      && (forall k :: shardOf(k) < |queues|)
      && forall i, e :: 0 <= i < |queues| && e in queues[i] ==> shardOf(e.key) == i
    }

    constructor (hash: Key -> nat, shards: nat)
      requires shards > 0
      ensures Valid() && State() == EMPTY_STORE && |queues| == shards
    {
      shardOf := k => hash(k) % shards;
      values, meta, clock, writeClock := map[], map[], 1, 0;
      queues := seq(shards, _ => []);
      new;
      TotalEmpty(queues);
    }

    method PushDirty(e: DirtyEntry)
      requires Valid()
      modifies this`queues
      ensures Valid() && |queues| == old(|queues|)
      ensures Total(queues) == old(Total(queues)) + multiset{e}
    {
      var i := shardOf(e.key);
      TotalUpdate(queues, i, queues[i] + [e]);
      assert Total(queues) + multiset(queues[i] + [e]) == Total(queues) + multiset{e} + multiset(queues[i]);
      Cancel(Total(queues[i := queues[i] + [e]]), Total(queues) + multiset{e}, multiset(queues[i]));
      queues := queues[i := queues[i] + [e]];
    }

    method MarkDirty(k: Key, op: Op, ttl: nat, tti: nat) returns (version: nat)
      requires Valid()
      modifies this
      ensures Valid() && version == old(clock)
      ensures State() == ObjectStore.MarkDirty(old(State()), k, op, ttl, tti)
    {
      version := clock;
      clock := clock + 1;
      var expiresAt := if ttl == 0 then 0 else version + ttl;
      meta := meta[k := Meta(ExpiryMeta(version, version, expiresAt, tti), op == Delete)];
      PushDirty(DirtyEntry(k, version, op));
      if writeClock < version {
        writeClock := version;
      }
    }

    method Put(k: Key, v: Value, ttl: nat, tti: nat) returns (version: nat)
      requires Valid()
      modifies this
      ensures Valid() && version == old(clock)
      ensures State() == PutWithExpiry(old(State()), k, v, ttl, tti)
    {
      values := values[k := v];
      version := MarkDirty(k, Op.Put, ttl, tti);
    }

    method Remove(k: Key) returns (version: nat)
      requires Valid()
      modifies this
      ensures Valid() && version == old(clock)
      ensures State() == DeleteKey(old(State()), k)
    {
      values := values - {k};
      version := MarkDirty(k, Op.Delete, 0, 0);
    }

    method ExpireKeyIfNeeded(k: Key) returns (expired: bool)
      requires Valid()
      modifies this
      ensures Valid() && expired == old(DueToExpire(State(), k))
      ensures State() == ExpireKey(old(State()), k)
    {
      if k !in meta || meta[k].tombstone || !Lapsed(meta[k].stamp, clock) {
        return false;
      }
      var _ := Remove(k);
      expired := true;
    }

    method Get(k: Key) returns (v: Option<Value>)
      requires Valid()
      modifies this
      ensures Valid() && (State(), v) == ObjectStore.Get(old(State()), k)
    {
      var expired := ExpireKeyIfNeeded(k);
      if expired {
        return None;
      }
      if k !in values {
        return None;
      }
      v := Some(values[k]);
      var tick := clock;
      clock := clock + 1;
      if k in meta {
        meta := meta[k := meta[k].(stamp := meta[k].stamp.(lastTouch := tick))];
      }
    }

    /** Every typed mutator: `edit` is what it does with the hot value it finds. */
    method Mutate(k: Key, edit: Option<Value> -> Edit)
      requires Valid()
      modifies this
      ensures Valid() && State() == ObjectStore.Mutate(old(State()), k, edit)
    {
      var _ := ExpireKeyIfNeeded(k);
      var found := if k in values then Some(values[k]) else None;
      match edit(found)
      case Keep =>
      case Write(v) =>
        var _ := Put(k, v, 0, 0);
      case Remove =>
        var _ := Remove(k);
    }

    method LoadClean(k: Key, c: Cell)
      requires Valid()
      modifies this
      ensures Valid() && State() == ObjectStore.LoadClean(old(State()), k, c)
    {
      values := values[k := c.value];
      meta := meta[k := Meta(c.stamp, false)];
      AdvanceClocks(Max(c.stamp.version, c.stamp.lastTouch), c.stamp.version);
    }

    method LoadCleanDelete(k: Key, version: nat)
      requires Valid()
      modifies this
      ensures Valid() && State() == ObjectStore.LoadCleanDelete(old(State()), k, version)
    {
      values := values - {k};
      meta := meta - {k};
      AdvanceClocks(version, version);
    }

    method AdvanceClocks(seen: nat, version: nat)
      modifies this`clock, this`writeClock
      ensures clock == Max(old(clock), seen + 1) && writeClock == Max(old(writeClock), version)
    {
      if clock < seen + 1 {
        clock := seen + 1;
      }
      if writeClock < version {
        writeClock := version;
      }
    }

    method Promote(k: Key, c: Cell) returns (promoted: bool)
      requires Valid()
      modifies this
      ensures Valid() && (State(), promoted) == PromoteClean(old(State()), k, c)
    {
      if Lapsed(c.stamp, clock) {
        return false;
      }
      if k in meta && (meta[k].tombstone || meta[k].stamp.version >= c.stamp.version) {
        return false;
      }
      LoadClean(k, c);
      promoted := true;
    }

    method HasPendingKey(k: Key) returns (pending: bool)
      requires Valid()
      ensures pending <==> PendingKey(State(), k)
    {
      var q := queues[shardOf(k)];
      pending := false;
      for i := 0 to |q|
        invariant pending <==> exists j :: 0 <= j < i && q[j].key == k
      {
        if q[i].key == k {
          pending := true;
        }
      }
      if pending {
        var j :| 0 <= j < |q| && q[j].key == k;
        InSomeQueue(queues, q[j]);
        assert q[j] in State().dirty;
      } else {
        forall e | e in State().dirty ensures e.key != k {
          InSomeQueue(queues, e);
          var i :| 0 <= i < |queues| && e in queues[i];
          assert shardOf(e.key) == i;
        }
      }
    }

    method EvictVersioned(k: Key, version: nat) returns (evicted: bool)
      requires Valid()
      modifies this
      ensures Valid() && (State(), evicted) == ObjectStore.EvictVersioned(old(State()), k, version)
    {
      var pending := HasPendingKey(k);
      if pending || k !in meta {
        return false;
      }
      var m := meta[k];
      if m.stamp.version != version || m.tombstone || Lapsed(m.stamp, clock) {
        return false;
      }
      evicted := k in values;
      if evicted {
        values := values - {k};
        meta := meta - {k};
      }
    }

    // ----- The three phases of a flush -----

    static ghost predicate EmptyUpTo(queues: seq<seq<DirtyEntry>>, i: nat) {
      i <= |queues| && forall j :: 0 <= j < i ==> queues[j] == []
    }

    static lemma EmptiedNext(before: seq<seq<DirtyEntry>>, i: nat, q: seq<DirtyEntry>)
      requires i < |before| && EmptyUpTo(before, i)
      ensures q == [] ==> EmptyUpTo(before[i := q], i + 1)
    {
    }

    method DrainDirty(max: nat) returns (drained: seq<DirtyEntry>)
      requires Valid()
      modifies this`queues
      ensures Valid() && |queues| == old(|queues|)
      ensures multiset(drained) <= old(State()).dirty
      ensures State().dirty == old(State()).dirty - multiset(drained)
      ensures |drained| == Min(max, |old(State()).dirty|)
    {
      drained := [];
      var i := 0;
      while i < |queues| && |drained| < max
        invariant Valid() && |queues| == old(|queues|) && 0 <= i <= |queues|
        invariant |drained| < max ==> EmptyUpTo(queues, i)
        invariant multiset(drained) + Total(queues) == old(Total(queues))
        invariant |drained| <= max
      {
        ghost var before := queues;
        var part := DrainShard(i, max - |drained|);
        EmptiedNext(before, i, before[i][|part|..]);
        Moves(drained, part, Total(queues), Total(before));
        drained := drained + part;
        i := i + 1;
      }
      DrainEnds(drained, queues, old(Total(queues)), max);
    }

    static lemma DrainEnds(drained: seq<DirtyEntry>, queues: seq<seq<DirtyEntry>>, all: multiset<DirtyEntry>, max: nat)
      requires multiset(drained) + Total(queues) == all && |drained| <= max
      requires |drained| < max ==> EmptyUpTo(queues, |queues|)
      ensures multiset(drained) <= all && Total(queues) == all - multiset(drained)
      ensures |drained| == Min(max, |all|)
    {
      if |drained| < max {
        TotalEmpty(queues);
      }
      DrainedCount(multiset(drained), Total(queues), all);
    }

    static lemma DrainedCount(a: multiset<DirtyEntry>, b: multiset<DirtyEntry>, all: multiset<DirtyEntry>)
      requires a + b == all
      ensures a <= all && b == all - a && |all| == |a| + |b|
    {
    }

    method DrainShard(i: nat, room: nat) returns (part: seq<DirtyEntry>)
      requires Valid() && i < |queues|
      modifies this`queues
      ensures Valid() && |queues| == old(|queues|) && |part| == Min(room, |old(queues[i])|)
      ensures queues == old(queues)[i := old(queues[i])[|part|..]]
      ensures multiset(part) + Total(queues) == old(Total(queues))
    {
      part := [];
      assert old(queues)[i := old(queues[i])[0..]] == queues;
      while |part| < room && queues[i] != []
        invariant Valid() && |queues| == old(|queues|) && |part| <= room
        invariant |part| <= |old(queues[i])|
        invariant queues == old(queues)[i := old(queues[i])[|part|..]]
        invariant multiset(part) + Total(queues) == old(Total(queues))
        decreases |queues[i]|
      {
        ghost var before := Total(queues);
        assert queues[i][1..] == old(queues[i])[|part| + 1..];
        assert queues[i := queues[i][1..]] == old(queues)[i := old(queues[i])[|part| + 1..]];
        var e := PopFront(i);
        assert multiset([e]) == multiset{e};
        Moves(part, [e], Total(queues), before);
        part := part + [e];
      }
    }

    method PopFront(i: nat) returns (e: DirtyEntry)
      requires Valid() && i < |queues| && queues[i] != []
      modifies this`queues
      ensures Valid() && queues == old(queues)[i := old(queues[i])[1..]] && e == old(queues[i])[0]
      ensures multiset{e} + Total(queues) == old(Total(queues))
    {
      var q := queues[i];
      e := q[0];
      TotalUpdate(queues, i, q[1..]);
      assert q == [e] + q[1..];
      assert multiset(q) == multiset{e} + multiset(q[1..]);
      Cancel(multiset{e} + Total(queues[i := q[1..]]), Total(queues), multiset(q[1..]));
      queues := queues[i := q[1..]];
    }

    /** The record of a flushed entry: its key's current version, and its value or delete. */
    static ghost predicate SentOne(s: Store, e: DirtyEntry, record: (Key, Record)) {
      && e.key in s.meta && (!s.meta[e.key].tombstone ==> e.key in s.values)
      && record == (e.key, RecordFor(s, e.key))
    }

    static ghost predicate SentFor(s: Store, flushed: seq<DirtyEntry>, sent: seq<(Key, Record)>) {
      |sent| == |flushed| && forall i :: 0 <= i < |flushed| ==> SentOne(s, flushed[i], sent[i])
    }

    method Collect(drained: seq<DirtyEntry>, idle: nat)
      returns (records: seq<(Key, Record)>, flushed: seq<DirtyEntry>, deferred: seq<DirtyEntry>)
      ensures flushed == FlushableOf(State(), drained, idle)
      ensures deferred == DeferredOf(State(), drained, idle)
      ensures SentFor(State(), flushed, records)
    {
      records, flushed, deferred := [], [], [];
      for i := 0 to |drained|
        invariant flushed == FlushableOf(State(), drained[..i], idle)
        invariant deferred == DeferredOf(State(), drained[..i], idle)
        invariant SentFor(State(), flushed, records)
      {
        var e := drained[i];
        assert drained[..i + 1][..i] == drained[..i] && drained[..i + 1][i] == e;
        if e.key !in meta || meta[e.key].stamp.version != e.version {
          continue;
        }
        var m := meta[e.key];
        if SatSub(clock, Max(m.stamp.lastTouch, e.version)) < idle {
          deferred := deferred + [e];
          continue;
        }
        match e.op
        case Put =>
          if !m.tombstone && e.key in values {
            records := records + [(e.key, Record(e.version, Some(values[e.key])))];
            flushed := flushed + [e];
          }
        case Delete =>
          if m.tombstone {
            records := records + [(e.key, Record(e.version, None))];
            flushed := flushed + [e];
          }
      }
      assert drained[..|drained|] == drained;
    }

    method CleanupFlushed(flushed: seq<DirtyEntry>)
      requires Valid()
      modifies this`values, this`meta
      ensures Valid() && State() == CleanupAfterFlush(old(State()), flushed)
    {
      ghost var s := State();
      for i := 0 to |flushed|
        invariant values == s.values - Settled(s, flushed[..i])
        invariant meta == s.meta - Settled(s, flushed[..i])
      {
        var e := flushed[i];
        assert flushed[..i + 1] == flushed[..i] + [e];
        if e.op == Delete && e.key in meta && meta[e.key].stamp.version == e.version && meta[e.key].tombstone {
          values := values - {e.key};
          meta := meta - {e.key};
          assert Settled(s, flushed[..i + 1]) == Settled(s, flushed[..i]) + {e.key};
        } else {
          assert Settled(s, flushed[..i + 1]) == Settled(s, flushed[..i]);
        }
      }
      assert flushed[..|flushed|] == flushed;
    }

    method RequeueDirty(entries: seq<DirtyEntry>)
      requires Valid()
      modifies this`queues
      ensures Valid() && State() == Requeue(old(State()), entries)
    {
      for i := 0 to |entries|
        invariant Valid()
        invariant Total(queues) == old(Total(queues)) + multiset(entries[..i])
      {
        assert entries[..i + 1] == entries[..i] + [entries[i]];
        PushDirty(entries[i]);
      }
      assert entries[..|entries|] == entries;
    }

    /** A flush with nothing running between its phases; `accepts` is the backend's answer. */
    method FlushIdle(idle: nat, max: nat, accepts: bool) returns (sent: seq<(Key, Record)>, drained: seq<DirtyEntry>)
      requires Valid()
      modifies this
      ensures Valid() && multiset(drained) <= old(State()).dirty && |drained| == Min(max, |old(State()).dirty|)
      ensures var s := old(State()).(dirty := old(State()).dirty - multiset(drained));
        var flushed, deferred := FlushableOf(s, drained, idle), DeferredOf(s, drained, idle);
        && SentFor(s, flushed, sent)
        && State() == (if accepts then Requeue(CleanupAfterFlush(s, flushed), deferred)
                       else Requeue(s, flushed + deferred))
    {
      drained := DrainDirty(max);
      ghost var s := State();
      assert s == old(State()).(dirty := old(State()).dirty - multiset(drained));
      var records, flushed, deferred := Collect(drained, idle);
      sent := records;
      if records == [] {
        assert flushed == [] && flushed + deferred == deferred;
        assert CleanupAfterFlush(s, []) == s;
        RequeueDirty(deferred);
      } else if accepts {
        CleanupFlushed(flushed);
        RequeueDirty(deferred);
      } else {
        RequeueDirty(flushed + deferred);
      }
    }

    // ----- The expiry sweep -----

    /** The sweep from `s0` has expired the keys of `due` outside `left` and nothing else. */
    static ghost predicate Swept(s0: Store, s: Store, due: set<Key>, left: set<Key>) {
      && s0.clock <= s.clock
      && (forall k :: k in due && k !in left ==>
            k !in s.values && k in s.meta && s.meta[k].tombstone && EntryFor(k, s.meta[k]) in s.dirty)
      && (forall k :: k !in due || k in left ==>
            (k in s.meta <==> k in s0.meta) && (k in s.values <==> k in s0.values))
      && (forall k :: (k !in due || k in left) && k in s.meta ==> s.meta[k] == s0.meta[k])
      && (forall k :: (k !in due || k in left) && k in s.values ==> s.values[k] == s0.values[k])
    }

    static lemma SweepOne(s0: Store, s: Store, due: set<Key>, left: set<Key>, k: Key)
      requires Swept(s0, s, due, left) && k in left && k in due && DueToExpire(s0, k)
      ensures DueToExpire(s, k) && Swept(s0, ExpireKey(s, k), due, left - {k})
    {
    }

    /** Expires every key that is due when the sweep starts, and touches no other key. */
    method Expire() returns (expired: nat)
      requires Valid()
      modifies this
      ensures Valid()
      ensures var due := set k | k in old(meta) && old(DueToExpire(State(), k));
        expired == |due| && Swept(old(State()), State(), due, {})
    {
      var due := set k | k in meta && !meta[k].tombstone && Lapsed(meta[k].stamp, clock);
      assert forall k :: k in due <==> DueToExpire(State(), k);
      var left := due;
      expired := 0;
      while left != {}
        invariant Valid() && left <= due && expired == |due| - |left|
        invariant Swept(old(State()), State(), due, left)
        decreases left
      {
        var k :| k in left;
        SweepOne(old(State()), State(), due, left, k);
        left := left - {k};
        var did := ExpireKeyIfNeeded(k);
        if did {
          expired := expired + 1;
        }
      }
      assert due == set k | k in old(meta) && old(DueToExpire(State(), k));
    }
  }
}
