/** Every step keeps the invariant. */
module WorldSteps {
  import opened Types
  import opened ObjectStore
  import opened ColdTier
  import opened World

  // ----- Client steps: one key at a time -----

  ghost predicate OnlyKey(w: World, x: World, k: Key) {
    && x.cold == w.cold && x.backend == w.backend && x.job == w.job
    && w.store.clock <= x.store.clock && w.store.writeClock <= x.store.writeClock < x.store.clock
    && (forall j :: j != k ==> (j in x.store.meta <==> j in w.store.meta))
    && (forall j :: j != k ==> (j in x.store.values <==> j in w.store.values))
    && (forall j :: j != k ==> (j in x.ref <==> j in w.ref))
    && (forall j :: j != k && j in w.store.meta ==> x.store.meta[j] == w.store.meta[j])
    && (forall j :: j != k && j in w.store.values ==> x.store.values[j] == w.store.values[j])
    && (forall j :: j != k && j in w.ref ==> x.ref[j] == w.ref[j])
    && (forall e :: e in w.store.dirty ==> e in x.store.dirty)
    && (forall e :: e in x.store.dirty ==> e in w.store.dirty || e.key == k)
  }

  /** The key got a fresh version, or kept its version and data with at most a later touch. */
  predicate Moved(w: World, x: World, k: Key) {
    && k in x.store.meta
    && (k in w.store.meta ==>
          var a, b := w.store.meta[k], x.store.meta[k];
          || a.stamp.version < b.stamp.version
          || (&& a.stamp.version == b.stamp.version && a.tombstone == b.tombstone
              && HotValue(w.store, k) == HotValue(x.store, k)
              && b.stamp == a.stamp.(lastTouch := b.stamp.lastTouch) && a.stamp.lastTouch <= b.stamp.lastTouch
              && (a.stamp == b.stamp || !Lapsed(a.stamp, w.store.clock))
              && x.store.dirty == w.store.dirty))
  }

  lemma OthersKept(w: World, x: World, k: Key, j: Key)
    requires OnlyKey(w, x, k) && j != k && KeyInv(w, j)
    ensures KeyInv(x, j)
  {
  }

  lemma CandidateKept(w: World, x: World, k: Key, j: Key, c: Cell)
    requires OnlyKey(w, x, k) && Moved(w, x, k) && CandidateInv(w, j, c)
    ensures CandidateInv(x, j, c)
    ensures PublishedInv(w, j, c) && (j == k ==> KeyInv(w, k)) ==> PublishedInv(x, j, c)
  {
    if j != k {
      assert PendingKey(x.store, j) ==> PendingKey(w.store, j);
    }
  }

  lemma JobKept(w: World, x: World, k: Key)
    requires Inv(w) && OnlyKey(w, x, k) && Moved(w, x, k)
    ensures JobInv(x)
  {
    assert KeyInv(w, k);
    match w.job
    case Collected(batch, _, _) =>
      forall j | j in batch ensures BatchInv(x, j, batch[j]) {
        assert BatchInv(w, j, batch[j]);
      }
    case Accepted(batch, _, _) =>
      forall j | j in batch ensures BatchInv(x, j, batch[j]) {
        assert BatchInv(w, j, batch[j]);
      }
    case Selected(cands) =>
      forall j | j in cands ensures CandidateInv(x, j, cands[j]) {
        CandidateKept(w, x, k, j, cands[j]);
      }
    case Evicting(todo, failed) =>
      forall j | j in todo ensures CandidateInv(x, j, todo[j]) && PublishedInv(x, j, todo[j]) {
        CandidateKept(w, x, k, j, todo[j]);
      }
      forall j | j in failed ensures FailedInv(x, j, failed[j]) {
        assert FailedInv(w, j, failed[j]);
      }
    case _ =>
  }

  lemma ClientStep(w: World, x: World, k: Key)
    requires Inv(w) && OnlyKey(w, x, k) && Moved(w, x, k) && KeyInv(x, k)
    ensures Inv(x)
  {
    forall j ensures KeyInv(x, j) {
      assert KeyInv(w, j);
      if j != k {
        OthersKept(w, x, k, j);
      }
    }
    JobKept(w, x, k);
  }

  lemma PutKeeps(w: World, k: Key, v: Value, ttl: nat, tti: nat)
    requires Inv(w)
    ensures Inv(Client(w, PutWithExpiry(w.store, k, v, ttl, tti), Wrote(k, v, w.store.clock, ttl, tti)))
  {
    assert KeyInv(w, k);
    ClientStep(w, Client(w, PutWithExpiry(w.store, k, v, ttl, tti), Wrote(k, v, w.store.clock, ttl, tti)), k);
  }

  lemma DeleteKeeps(w: World, k: Key)
    requires Inv(w)
    ensures Inv(Client(w, DeleteKey(w.store, k), Removed(k)))
  {
    assert KeyInv(w, k);
    ClientStep(w, Client(w, DeleteKey(w.store, k), Removed(k)), k);
  }

  lemma ExpireKeeps(w: World, k: Key)
    requires Inv(w)
    ensures Inv(Client(w, ExpireKey(w.store, k), ExpireEvent(w.store, k)))
  {
    if DueToExpire(w.store, k) {
      DeleteKeeps(w, k);
    } else {
      assert Client(w, w.store, Silent) == w;
    }
  }

  /** A typed mutator is an expiry check followed by nothing, a plain put, or a delete. */
  lemma MutateDecomposes(w: World, k: Key, edit: Option<Value> -> Edit)
    ensures var x := Client(w, ExpireKey(w.store, k), ExpireEvent(w.store, k));
      Client(w, Mutate(w.store, k, edit), MutateEvent(w.store, k, edit)) ==
      match edit(HotValue(x.store, k))
      case Keep => x
      case Write(v) => Client(x, PutWithExpiry(x.store, k, v, 0, 0), Wrote(k, v, x.store.clock, 0, 0))
      case Remove => Client(x, DeleteKey(x.store, k), Removed(k))
  {
    assert w.ref - {k} - {k} == w.ref - {k};
    match edit(HotValue(ExpireKey(w.store, k), k))
    case Write(v) =>
      var e := Wrote(k, v, ExpireKey(w.store, k).clock, 0, 0);
      assert ApplyEvent(w.ref - {k}, e) == ApplyEvent(w.ref, e);
    case _ =>
  }

  lemma MutateKeeps(w: World, k: Key, edit: Option<Value> -> Edit)
    requires Inv(w)
    ensures Inv(Client(w, Mutate(w.store, k, edit), MutateEvent(w.store, k, edit)))
  {
    ExpireKeeps(w, k);
    MutateDecomposes(w, k, edit);
    var x := Client(w, ExpireKey(w.store, k), ExpireEvent(w.store, k));
    match edit(HotValue(x.store, k))
    case Keep =>
    case Write(v) => PutKeeps(x, k, v, 0, 0);
    case Remove => DeleteKeeps(x, k);
  }

  lemma GetKeeps(w: World, k: Key)
    requires Inv(w)
    ensures Inv(Client(w, Get(w.store, k).0, GetEvent(w.store, k)))
  {
    var x := Client(w, Get(w.store, k).0, GetEvent(w.store, k));
    assert KeyInv(w, k);
    if DueToExpire(w.store, k) {
      DeleteKeeps(w, k);
    } else if k in w.store.values {
      ClientStep(w, x, k);
    } else {
      assert x == w;
    }
  }

  /** Promotion moves the cold copy back in front of itself: the reference does not change,
      and neither clock moves. */
  lemma PromoteKeeps(w: World, k: Key)
    requires Inv(w)
    ensures Inv(w.(store := PromoteFrom(w.store, w.cold, k).0))
    ensures PromoteFrom(w.store, w.cold, k).0.clock == w.store.clock
    ensures PromoteFrom(w.store, w.cold, k).1 ==>
      k !in w.store.meta && k in w.ref && Lookup(w.cold, k) == Some(w.ref[k])
      && !Lapsed(w.ref[k].stamp, w.store.clock)
      && PromoteFrom(w.store, w.cold, k).0.values == w.store.values[k := w.ref[k].value]
      && PromoteFrom(w.store, w.cold, k).0.meta == w.store.meta[k := Meta(w.ref[k].stamp, false)]
  {
    assert KeyInv(w, k);
    LookupIsACopy(w.cold.gens, w.cold.tombs, k);
    var x := w.(store := PromoteFrom(w.store, w.cold, k).0);
    if PromoteFrom(w.store, w.cold, k).1 {
      assert k !in w.store.meta;
      ClientStep(w, x, k);
    } else {
      assert x == w;
    }
  }

  lemma ReadAnswers(w: World, k: Key)
    requires Inv(w)
    ensures ReadThrough(w.store, w.cold, k).1 == RefView(w.ref, w.store.clock, k)
  {
    ReadKeeps(w, k);
  }

  lemma ReadKeeps(w: World, k: Key)
    requires Inv(w)
    ensures Inv(Client(w, ReadThrough(w.store, w.cold, k).0, ReadEvent(w.store, w.cold, k)))
    ensures ReadThrough(w.store, w.cold, k).1 == RefView(w.ref, w.store.clock, k)
  {
    GetKeeps(w, k);
    assert KeyInv(w, k);
    var x := Client(w, Get(w.store, k).0, GetEvent(w.store, k));
    if Get(w.store, k).1.None? {
      assert KeyInv(x, k);
      PromoteKeeps(x, k);
      var y := x.(store := PromoteFrom(x.store, x.cold, k).0);
      GetKeeps(y, k);
      assert KeyInv(y, k);
      var z := Client(y, Get(y.store, k).0, GetEvent(y.store, k));
      assert z == Client(w, ReadThrough(w.store, w.cold, k).0, ReadEvent(w.store, w.cold, k));
    }
  }

  // ----- Flush steps -----

  lemma CollectKeepsKey(w: World, drained: seq<DirtyEntry>, idle: nat, k: Key)
    requires KeyInv(w, k) && Enabled(w, CollectStep(drained, idle))
    ensures KeyInv(Next(w, CollectStep(drained, idle)), k)
  {
    var x := Next(w, CollectStep(drained, idle));
    if k in w.store.meta {
      var e := EntryFor(k, w.store.meta[k]);
      assert e in w.store.dirty ==> e in drained || e in x.store.dirty;
      assert Pending(w, e) ==> Pending(x, e);
    }
  }

  lemma CollectKeeps(w: World, drained: seq<DirtyEntry>, idle: nat)
    requires Inv(w) && Enabled(w, CollectStep(drained, idle))
    ensures Inv(Next(w, CollectStep(drained, idle)))
  {
    var x := Next(w, CollectStep(drained, idle));
    forall j ensures KeyInv(x, j) {
      assert KeyInv(w, j);
      CollectKeepsKey(w, drained, idle, j);
    }
    forall j | j in x.job.batch ensures BatchInv(x, j, x.job.batch[j]) && EntryOf(j, x.job.batch[j]) in x.job.flushed {
      assert KeyInv(w, j);
    }
  }

  lemma AcceptKeepsOther(w: World, j: Key)
    requires Ordered(w.cold.gens) && Enabled(w, AcceptStep) && KeyInv(w, j) && j !in w.job.batch
    requires forall e :: e in w.job.flushed ==> FlushedInv(w.job.batch, e)
    ensures KeyInv(Next(w, AcceptStep), j)
  {
    TombstonesOnlyBlock(w.cold, DeletedVersions(w.job.batch), j);
  }

  lemma AcceptKeepsBatched(w: World, j: Key)
    requires Ordered(w.cold.gens) && Enabled(w, AcceptStep) && KeyInv(w, j)
    requires j in w.job.batch && BatchInv(w, j, w.job.batch[j])
    requires forall e :: e in w.job.flushed ==> FlushedInv(w.job.batch, e)
    ensures KeyInv(Next(w, AcceptStep), j)
  {
    TombstonesOnlyBlock(w.cold, DeletedVersions(w.job.batch), j);
  }

  lemma AcceptKeeps(w: World)
    requires Inv(w) && Enabled(w, AcceptStep)
    ensures Inv(Next(w, AcceptStep))
  {
    var x := Next(w, AcceptStep);
    forall j ensures KeyInv(x, j) {
      assert KeyInv(w, j);
      if j in w.job.batch {
        assert BatchInv(w, j, w.job.batch[j]);
        AcceptKeepsBatched(w, j);
      } else {
        AcceptKeepsOther(w, j);
      }
    }
    forall j | j in x.job.batch ensures BatchInv(x, j, x.job.batch[j]) {
      assert BatchInv(w, j, w.job.batch[j]);
    }
  }

  lemma RejectKeepsOther(w: World, landed: set<Key>, marked: bool, j: Key)
    requires Ordered(w.cold.gens) && Enabled(w, RejectStep(landed, marked)) && KeyInv(w, j) && j !in w.job.batch
    ensures KeyInv(Next(w, RejectStep(landed, marked)), j)
  {
    TombstonesOnlyBlock(w.cold, DeletedVersions(w.job.batch), j);
  }

  lemma RejectKeepsBatched(w: World, landed: set<Key>, marked: bool, j: Key)
    requires Ordered(w.cold.gens) && Enabled(w, RejectStep(landed, marked)) && KeyInv(w, j)
    requires j in w.job.batch && BatchInv(w, j, w.job.batch[j])
    ensures KeyInv(Next(w, RejectStep(landed, marked)), j)
  {
    if Live(w.store, j) {
      RejectKeepsLive(w, landed, marked, j);
    } else {
      RejectKeepsTombstone(w, landed, marked, j);
    }
  }

  lemma RejectKeepsLive(w: World, landed: set<Key>, marked: bool, j: Key)
    requires Enabled(w, RejectStep(landed, marked)) && KeyInv(w, j) && Live(w.store, j)
    requires j in w.job.batch && BatchInv(w, j, w.job.batch[j])
    ensures KeyInv(Next(w, RejectStep(landed, marked)), j)
  {
  }

  lemma RejectKeepsTombstone(w: World, landed: set<Key>, marked: bool, j: Key)
    requires Enabled(w, RejectStep(landed, marked)) && KeyInv(w, j) && !Live(w.store, j)
    requires j in w.job.batch && BatchInv(w, j, w.job.batch[j])
    ensures KeyInv(Next(w, RejectStep(landed, marked)), j)
  {
  }

  lemma RejectKeeps(w: World, landed: set<Key>, marked: bool)
    requires Inv(w) && Enabled(w, RejectStep(landed, marked))
    ensures Inv(Next(w, RejectStep(landed, marked)))
  {
    var x := Next(w, RejectStep(landed, marked));
    forall j ensures KeyInv(x, j) {
      assert KeyInv(w, j);
      if j in w.job.batch {
        assert BatchInv(w, j, w.job.batch[j]);
        RejectKeepsBatched(w, landed, marked, j);
      } else {
        RejectKeepsOther(w, landed, marked, j);
      }
    }
  }

  lemma CommitKeeps(w: World)
    requires Inv(w) && Enabled(w, CommitStep)
    ensures Inv(Next(w, CommitStep))
  {
    var x := Next(w, CommitStep);
    forall j ensures KeyInv(x, j) {
      assert KeyInv(w, j);
      if j in Settled(w.store, w.job.flushed) {
        var e :| e in w.job.flushed && e.op == Delete && Current(w.store, e) && w.store.meta[e.key].tombstone && e.key == j;
        assert FlushedInv(w.job.batch, e);
        LookupIsACopy(w.cold.gens, w.cold.tombs, j);
      } else if j in w.store.meta {
        var e := EntryFor(j, w.store.meta[j]);
        assert Pending(w, e) ==> Pending(x, e);
      }
    }
  }

  lemma RequeueKeeps(w: World)
    requires Inv(w) && Enabled(w, RequeueStep)
    ensures Inv(Next(w, RequeueStep))
  {
    var x := Next(w, RequeueStep);
    forall j ensures KeyInv(x, j) {
      assert KeyInv(w, j);
      if j in w.store.meta {
        var e := EntryFor(j, w.store.meta[j]);
        assert Pending(w, e) ==> Pending(x, e);
      }
    }
  }

  // ----- Demotion steps -----

  lemma SelectKeeps(w: World, keys: set<Key>)
    requires Inv(w) && Enabled(w, SelectStep(keys))
    ensures Inv(Next(w, SelectStep(keys)))
  {
    var x := Next(w, SelectStep(keys));
    forall j ensures KeyInv(x, j) {
      assert KeyInv(w, j);
    }
    forall j | j in x.job.cands ensures CandidateInv(x, j, x.job.cands[j]) {
      assert KeyInv(w, j);
    }
  }

  /** What publishing changes about one key: its copies and its lookup. */
  lemma PublishChanges(w: World, j: Key)
    requires Enabled(w, PublishStep)
    ensures var x, cands := Next(w, PublishStep), w.job.cands;
      && (forall c :: IsCopy(x.cold.gens, j, c) ==> IsCopy(w.cold.gens, j, c) || (j in cands && cands[j] == c))
      && Lookup(x.cold, j)
         == (if j in cands && !Blocked(w.cold.tombs, j, cands[j]) then Some(cands[j]) else Lookup(w.cold, j))
  {
    var x, cands := Next(w, PublishStep), w.job.cands;
    PublishShadows(w.cold, cands, j);
    forall c | IsCopy(x.cold.gens, j, c) ensures IsCopy(w.cold.gens, j, c) || (j in cands && cands[j] == c) {
      CopiesAfterPublish(w.cold, cands, j, c);
    }
  }

  lemma PublishKeepsKey(w: World, j: Key)
    requires Enabled(w, PublishStep) && KeyInv(w, j)
    requires j in w.job.cands ==> CandidateInv(w, j, w.job.cands[j])
    ensures KeyInv(Next(w, PublishStep), j)
  {
    PublishChanges(w, j);
  }

  lemma PublishKeepsCandidate(w: World, j: Key)
    requires Enabled(w, PublishStep) && KeyInv(w, j) && j in w.job.cands && CandidateInv(w, j, w.job.cands[j])
    ensures var x := Next(w, PublishStep);
      CandidateInv(x, j, w.job.cands[j]) && PublishedInv(x, j, w.job.cands[j])
  {
    PublishChanges(w, j);
  }

  lemma PublishKeeps(w: World)
    requires Inv(w) && Enabled(w, PublishStep)
    ensures Inv(Next(w, PublishStep))
  {
    var x := Next(w, PublishStep);
    var cands := w.job.cands;
    forall j, c | j in cands && IsCopy(w.cold.gens, j, c) ensures c.stamp.version <= cands[j].stamp.version {
      assert CandidateInv(w, j, cands[j]);
    }
    PublishKeepsOrder(w.cold, cands);
    forall j ensures KeyInv(x, j) && (j in cands ==> CandidateInv(x, j, cands[j]) && PublishedInv(x, j, cands[j])) {
      assert KeyInv(w, j);
      assert j in cands ==> CandidateInv(w, j, cands[j]);
      PublishKeepsKey(w, j);
      if j in cands {
        PublishKeepsCandidate(w, j);
      }
    }
  }

  lemma EvictKeepsKey(w: World, k: Key, j: Key)
    requires Enabled(w, EvictStep(k)) && Evictable(w.store, k, w.job.todo[k].stamp.version)
    requires KeyInv(w, j) && (j == k ==> CandidateInv(w, k, w.job.todo[k]) && PublishedInv(w, k, w.job.todo[k]))
    ensures KeyInv(Next(w, EvictStep(k)), j)
  {
    if j == k {
      assert Next(w, EvictStep(k)).ref[k] == w.job.todo[k];
    }
  }

  lemma EvictSucceeds(w: World, k: Key)
    requires Inv(w) && Enabled(w, EvictStep(k)) && Evictable(w.store, k, w.job.todo[k].stamp.version)
    ensures Inv(Next(w, EvictStep(k)))
  {
    var x := Next(w, EvictStep(k));
    forall j ensures KeyInv(x, j) {
      assert KeyInv(w, j) && CandidateInv(w, k, w.job.todo[k]) && PublishedInv(w, k, w.job.todo[k]);
      EvictKeepsKey(w, k, j);
    }
    forall j | j in x.job.todo ensures CandidateInv(x, j, x.job.todo[j]) && PublishedInv(x, j, x.job.todo[j]) {
      assert CandidateInv(w, j, w.job.todo[j]) && PublishedInv(w, j, w.job.todo[j]);
      assert PendingKey(x.store, j) ==> PendingKey(w.store, j);
    }
    forall j | j in x.job.failed ensures FailedInv(x, j, x.job.failed[j]) {
      assert FailedInv(w, j, w.job.failed[j]);
    }
  }

  lemma EvictFails(w: World, k: Key)
    requires Inv(w) && Enabled(w, EvictStep(k)) && !Evictable(w.store, k, w.job.todo[k].stamp.version)
    ensures Inv(Next(w, EvictStep(k)))
  {
    var x := Next(w, EvictStep(k));
    assert x == w.(job := x.job);
    forall j ensures KeyInv(x, j) {
      assert KeyInv(w, j);
    }
    forall j | j in x.job.todo ensures CandidateInv(x, j, x.job.todo[j]) && PublishedInv(x, j, x.job.todo[j]) {
      assert CandidateInv(w, j, w.job.todo[j]) && PublishedInv(w, j, w.job.todo[j]);
    }
    forall j | j in x.job.failed ensures FailedInv(x, j, x.job.failed[j]) {
      if j == k {
        assert KeyInv(w, k) && CandidateInv(w, k, w.job.todo[k]);
      } else {
        assert FailedInv(w, j, w.job.failed[j]);
      }
    }
  }

  /** A demotion that fails part-way may leave published copies of keys that are still hot; they
      stay shadowed until the key's next write or eviction. */
  lemma AbortDemotionKeeps(w: World)
    requires Inv(w) && Enabled(w, AbortDemotionStep)
    ensures Inv(Next(w, AbortDemotionStep))
  {
    var x := Next(w, AbortDemotionStep);
    assert x == w.(job := Idle);
    forall j ensures KeyInv(x, j) {
      assert KeyInv(w, j);
    }
  }

  lemma FinishDemotionKeeps(w: World)
    requires Inv(w) && Enabled(w, FinishDemotionStep)
    ensures Inv(Next(w, FinishDemotionStep))
  {
    var x := Next(w, FinishDemotionStep);
    forall j ensures KeyInv(x, j) {
      assert KeyInv(w, j);
      TombstonesOnlyBlock(w.cold, Versions(w.job.failed), j);
      if j in w.job.failed {
        assert FailedInv(w, j, w.job.failed[j]);
      }
    }
  }

  lemma GcKeeps(w: World)
    requires Inv(w)
    ensures Inv(Next(w, GcStep))
  {
    var x := Next(w, GcStep);
    forall j ensures KeyInv(x, j) {
      assert KeyInv(w, j);
      GcKeepsLookups(w.cold, w.store.clock, j);
      forall c | IsCopy(x.cold.gens, j, c) ensures IsCopy(w.cold.gens, j, c) {
        CopiesAfterGc(w.cold, w.store.clock, j, c);
      }
    }
    GcKeepsJob(w);
    GcKeepsLookups(w.cold, w.store.clock, []);
  }

  lemma GcKeepsJob(w: World)
    requires Inv(w)
    ensures JobInv(Next(w, GcStep))
  {
    var x := Next(w, GcStep);
    forall j ensures CopiesStay(w.cold, x.cold, j) {
      GcKeepsLookups(w.cold, w.store.clock, j);
      forall c | IsCopy(x.cold.gens, j, c) ensures IsCopy(w.cold.gens, j, c) {
        CopiesAfterGc(w.cold, w.store.clock, j, c);
      }
    }
    match w.job
    case Collected(batch, _, _) =>
      forall j | j in batch ensures BatchInv(x, j, batch[j]) {
        assert BatchInv(w, j, batch[j]);
      }
    case Accepted(batch, _, _) =>
      forall j | j in batch ensures BatchInv(x, j, batch[j]) {
        assert BatchInv(w, j, batch[j]);
      }
    case Selected(cands) =>
      forall j | j in cands ensures CandidateInv(x, j, cands[j]) {
        assert CandidateInv(w, j, cands[j]) && CopiesStay(w.cold, x.cold, j);
      }
    case Evicting(todo, failed) =>
      forall j | j in todo ensures CandidateInv(x, j, todo[j]) && PublishedInv(x, j, todo[j]) {
        assert CandidateInv(w, j, todo[j]) && PublishedInv(w, j, todo[j]) && CopiesStay(w.cold, x.cold, j);
        GcKeepsLookups(w.cold, w.store.clock, j);
      }
      forall j | j in failed ensures FailedInv(x, j, failed[j]) {
        assert FailedInv(w, j, failed[j]);
      }
    case _ =>
  }

  ghost predicate CopiesStay(c: Cold, d: Cold, k: Key) {
    d.tombs == c.tombs && forall x :: IsCopy(d.gens, k, x) ==> IsCopy(c.gens, k, x)
  }

  // ----- All steps -----

  lemma StepKeeps(w: World, st: Step)
    requires Inv(w) && Enabled(w, st)
    ensures Inv(Next(w, st))
  {
    var x := Next(w, st);
    match st
    case PutStep(k, v, ttl, tti) =>
      PutKeeps(w, k, v, ttl, tti);
      assert x == Client(w, x.store, EventOf(w, st));
    case DeleteStep(k) =>
      DeleteKeeps(w, k);
      assert x == Client(w, x.store, EventOf(w, st));
    case MutateStep(k, edit) =>
      MutateKeeps(w, k, edit);
      assert x == Client(w, x.store, EventOf(w, st));
    case ExpireStep(k) =>
      ExpireKeeps(w, k);
      assert x == Client(w, x.store, EventOf(w, st));
    case GetStep(k) =>
      GetKeeps(w, k);
      assert x == Client(w, x.store, EventOf(w, st));
    case ReadStep(k) =>
      ReadKeeps(w, k);
      assert x == Client(w, x.store, EventOf(w, st));
    case CollectStep(drained, idle) => CollectKeeps(w, drained, idle);
    case AcceptStep => AcceptKeeps(w);
    case RejectStep(landed, marked) => RejectKeeps(w, landed, marked);
    case CommitStep => CommitKeeps(w);
    case RequeueStep => RequeueKeeps(w);
    case SelectStep(keys) => SelectKeeps(w, keys);
    case PublishStep => PublishKeeps(w);
    case EvictStep(k) =>
      if Evictable(w.store, k, w.job.todo[k].stamp.version) {
        EvictSucceeds(w, k);
      } else {
        EvictFails(w, k);
      }
    case FinishDemotionStep => FinishDemotionKeeps(w);
    case AbortDemotionStep => AbortDemotionKeeps(w);
    case GcStep => GcKeeps(w);
  }

  lemma InitialHolds()
    ensures Inv(INITIAL)
  {
  }
}
