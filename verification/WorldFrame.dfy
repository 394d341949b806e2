/** What one step can do to one key, seen from the outside: either the key is mutated (fresh
    version, pending), or its version and data stay and its cold copy is not lost. */
module WorldFrame {
  import opened Types
  import opened ObjectStore
  import opened ColdTier
  import opened World
  import opened WorldSteps

  /** The version of the latest mutation of a key, as far as anything still remembers it. */
  function CurrentVersion(w: World, k: Key): nat {
    if k in w.store.meta then w.store.meta[k].stamp.version
    else if k in w.backend then w.backend[k].version
    else 0
  }

  predicate KeyPending(w: World, k: Key) {
    k in w.store.meta && Pending(w, EntryFor(k, w.store.meta[k]))
  }

  predicate RefLapsed(w: World, k: Key) {
    k in w.ref && Lapsed(w.ref[k].stamp, w.store.clock)
  }

  /** The cold tier would return the key's current data. */
  predicate HasCopy(w: World, k: Key) {
    k in w.ref && Lookup(w.cold, k).Some?
    && Lookup(w.cold, k).value.stamp.version == w.ref[k].stamp.version
    && SameData(Lookup(w.cold, k).value, w.ref[k])
  }

  predicate Fresh(w: World, x: World, k: Key) {
    k in x.store.meta && w.store.clock <= x.store.meta[k].stamp.version && KeyPending(x, k)
  }

  predicate Steady(w: World, x: World, k: Key) {
    && CurrentVersion(x, k) == CurrentVersion(w, k)
    && (k in x.ref <==> k in w.ref)
    && (k in w.ref ==> x.ref[k].stamp.version == w.ref[k].stamp.version && SameData(x.ref[k], w.ref[k]))
    && (RefLapsed(w, k) ==> RefLapsed(x, k))
    && (HasCopy(w, k) && w.ref[k].stamp.ttiTicks == 0 ==> HasCopy(x, k) || RefLapsed(x, k))
  }

  predicate Framed(w: World, x: World, k: Key) {
    && w.store.clock <= x.store.clock && w.store.writeClock <= x.store.writeClock
    && (Fresh(w, x, k) || Steady(w, x, k))
  }

  lemma WriteFrames(w: World, j: Key, v: Value, ttl: nat, tti: nat, k: Key)
    requires Inv(w)
    ensures Framed(w, Client(w, PutWithExpiry(w.store, j, v, ttl, tti), Wrote(j, v, w.store.clock, ttl, tti)), k)
    ensures Framed(w, Client(w, DeleteKey(w.store, j), Removed(j)), k)
    ensures KeyPending(w, k) ==>
      KeyPending(Client(w, PutWithExpiry(w.store, j, v, ttl, tti), Wrote(j, v, w.store.clock, ttl, tti)), k)
    ensures KeyPending(w, k) ==> KeyPending(Client(w, DeleteKey(w.store, j), Removed(j)), k)
  {
    assert KeyInv(w, k);
  }

  lemma ExpireFrames(w: World, j: Key, k: Key)
    requires Inv(w)
    ensures Framed(w, Client(w, ExpireKey(w.store, j), ExpireEvent(w.store, j)), k)
    ensures KeyPending(w, k) ==> KeyPending(Client(w, ExpireKey(w.store, j), ExpireEvent(w.store, j)), k)
  {
    WriteFrames(w, j, [], 0, 0, k);
  }

  lemma FramesCompose(w: World, x: World, y: World, k: Key)
    requires Framed(w, x, k) && Framed(x, y, k)
    requires KeyPending(x, k) ==> KeyPending(y, k)
    requires Fresh(w, x, k) && Steady(x, y, k) ==> k in y.store.meta
    ensures Framed(w, y, k)
  {
  }

  lemma MutateFrames(w: World, j: Key, edit: Option<Value> -> Edit, k: Key)
    requires Inv(w)
    ensures Framed(w, Client(w, Mutate(w.store, j, edit), MutateEvent(w.store, j, edit)), k)
    ensures KeyPending(w, k) ==> KeyPending(Client(w, Mutate(w.store, j, edit), MutateEvent(w.store, j, edit)), k)
  {
    var x := Client(w, ExpireKey(w.store, j), ExpireEvent(w.store, j));
    var y := Client(w, Mutate(w.store, j, edit), MutateEvent(w.store, j, edit));
    ExpireKeeps(w, j);
    ExpireFrames(w, j, k);
    MutateDecomposes(w, j, edit);
    var e := edit(HotValue(x.store, j));
    WriteFrames(x, j, if e.Write? then e.value else [], 0, 0, k);
    if !e.Keep? {
      FramesCompose(w, x, y, k);
    }
  }

  lemma GetFrames(w: World, j: Key, k: Key)
    requires Inv(w)
    ensures Framed(w, Client(w, Get(w.store, j).0, GetEvent(w.store, j)), k)
    ensures KeyPending(w, k) ==> KeyPending(Client(w, Get(w.store, j).0, GetEvent(w.store, j)), k)
  {
    assert KeyInv(w, k) && KeyInv(w, j);
    if DueToExpire(w.store, j) {
      WriteFrames(w, j, [], 0, 0, k);
    }
  }

  lemma PromoteFrames(x: World, j: Key, k: Key)
    requires Inv(x)
    ensures var y := x.(store := PromoteFrom(x.store, x.cold, j).0);
      Inv(y) && Framed(x, y, k) && (KeyPending(x, k) ==> KeyPending(y, k)) && (k in x.store.meta ==> k in y.store.meta)
  {
    PromoteKeeps(x, j);
    assert KeyInv(x, j);
  }

  lemma ReadDecomposes(w: World, j: Key)
    requires Inv(w) && Get(w.store, j).1.None?
    ensures var x := Client(w, Get(w.store, j).0, GetEvent(w.store, j));
      var y := x.(store := PromoteFrom(x.store, x.cold, j).0);
      Client(y, Get(y.store, j).0, GetEvent(y.store, j))
      == Client(w, ReadThrough(w.store, w.cold, j).0, ReadEvent(w.store, w.cold, j))
  {
    assert KeyInv(w, j);
  }

  lemma ReadFrames(w: World, j: Key, k: Key)
    requires Inv(w)
    ensures Framed(w, Client(w, ReadThrough(w.store, w.cold, j).0, ReadEvent(w.store, w.cold, j)), k)
    ensures KeyPending(w, k) ==>
      KeyPending(Client(w, ReadThrough(w.store, w.cold, j).0, ReadEvent(w.store, w.cold, j)), k)
  {
    GetFrames(w, j, k);
    GetKeeps(w, j);
    var x := Client(w, Get(w.store, j).0, GetEvent(w.store, j));
    if Get(w.store, j).1.None? {
      PromoteFrames(x, j, k);
      var y := x.(store := PromoteFrom(x.store, x.cold, j).0);
      GetFrames(y, j, k);
      var z := Client(y, Get(y.store, j).0, GetEvent(y.store, j));
      ReadDecomposes(w, j);
      FramesCompose(w, x, y, k);
      FramesCompose(w, y, z, k);
    }
  }

  // ----- Flush steps -----

  lemma CollectFrames(w: World, drained: seq<DirtyEntry>, idle: nat, k: Key)
    requires Inv(w) && Enabled(w, CollectStep(drained, idle))
    ensures Framed(w, Next(w, CollectStep(drained, idle)), k)
    ensures KeyPending(w, k) ==> KeyPending(Next(w, CollectStep(drained, idle)), k)
  {
    assert KeyInv(w, k);
    if KeyPending(w, k) {
      var e := EntryFor(k, w.store.meta[k]);
      assert e in drained || e in Next(w, CollectStep(drained, idle)).store.dirty;
    }
  }

  lemma AcceptFrames(w: World, k: Key)
    requires Inv(w) && Enabled(w, AcceptStep)
    ensures Framed(w, Next(w, AcceptStep), k)
  {
    assert KeyInv(w, k);
    TombstonesOnlyBlock(w.cold, DeletedVersions(w.job.batch), k);
    if k in w.job.batch {
      assert BatchInv(w, k, w.job.batch[k]);
    }
  }

  lemma RejectFrames(w: World, landed: set<Key>, marked: bool, k: Key)
    requires Inv(w) && Enabled(w, RejectStep(landed, marked))
    ensures Framed(w, Next(w, RejectStep(landed, marked)), k)
    ensures KeyPending(w, k) ==> KeyPending(Next(w, RejectStep(landed, marked)), k)
  {
    assert KeyInv(w, k);
    if k in w.job.batch {
      assert BatchInv(w, k, w.job.batch[k]);
    }
    RejectFramesKey(w, landed, marked, k);
  }

  lemma RejectFramesKey(w: World, landed: set<Key>, marked: bool, k: Key)
    requires Ordered(w.cold.gens) && Enabled(w, RejectStep(landed, marked)) && KeyInv(w, k)
    requires k in w.job.batch ==> BatchInv(w, k, w.job.batch[k])
    ensures Framed(w, Next(w, RejectStep(landed, marked)), k)
    ensures KeyPending(w, k) ==> KeyPending(Next(w, RejectStep(landed, marked)), k)
  {
    TombstonesOnlyBlock(w.cold, DeletedVersions(w.job.batch), k);
  }

  lemma CommitFrames(w: World, k: Key)
    requires Inv(w) && Enabled(w, CommitStep)
    ensures Framed(w, Next(w, CommitStep), k)
    ensures KeyPending(w, k) ==> KeyPending(Next(w, CommitStep), k) || k !in Next(w, CommitStep).ref
  {
    assert KeyInv(w, k);
    if k in Settled(w.store, w.job.flushed) {
      var e :| e in w.job.flushed && e.op == Delete && Current(w.store, e) && w.store.meta[e.key].tombstone && e.key == k;
      assert FlushedInv(w.job.batch, e);
    }
  }

  lemma RequeueFrames(w: World, k: Key)
    requires Inv(w) && Enabled(w, RequeueStep)
    ensures Framed(w, Next(w, RequeueStep), k)
    ensures KeyPending(w, k) ==> KeyPending(Next(w, RequeueStep), k)
  {
  }

  // ----- Demotion and compaction -----

  lemma PublishFrames(w: World, k: Key)
    requires Inv(w) && Enabled(w, PublishStep)
    ensures Framed(w, Next(w, PublishStep), k)
    ensures KeyPending(w, k) ==> KeyPending(Next(w, PublishStep), k)
  {
    assert KeyInv(w, k);
    PublishShadows(w.cold, w.job.cands, k);
    LookupIsACopy(w.cold.gens, w.cold.tombs, k);
    if k in w.job.cands {
      assert CandidateInv(w, k, w.job.cands[k]);
    }
  }

  lemma EvictFrames(w: World, j: Key, k: Key)
    requires Inv(w) && Enabled(w, EvictStep(j))
    ensures Framed(w, Next(w, EvictStep(j)), k)
    ensures KeyPending(w, k) ==> KeyPending(Next(w, EvictStep(j)), k)
  {
    assert KeyInv(w, k);
    if k == j {
      EvictFramesKey(w, k);
    }
  }

  lemma EvictFramesKey(w: World, k: Key)
    requires Inv(w) && Enabled(w, EvictStep(k))
    ensures Framed(w, Next(w, EvictStep(k)), k)
    ensures KeyPending(w, k) ==> KeyPending(Next(w, EvictStep(k)), k)
  {
    assert KeyInv(w, k);
    assert CandidateInv(w, k, w.job.todo[k]) && PublishedInv(w, k, w.job.todo[k]);
  }

  lemma FinishFrames(w: World, k: Key)
    requires Inv(w) && Enabled(w, FinishDemotionStep)
    ensures Framed(w, Next(w, FinishDemotionStep), k)
    ensures KeyPending(w, k) ==> KeyPending(Next(w, FinishDemotionStep), k)
  {
    assert KeyInv(w, k);
    TombstonesOnlyBlock(w.cold, Versions(w.job.failed), k);
    if k in w.job.failed {
      assert FailedInv(w, k, w.job.failed[k]);
    }
  }

  lemma AbortFrames(w: World, k: Key)
    requires Inv(w) && Enabled(w, AbortDemotionStep)
    ensures Framed(w, Next(w, AbortDemotionStep), k)
    ensures KeyPending(w, k) ==> KeyPending(Next(w, AbortDemotionStep), k)
  {
    assert KeyInv(w, k);
  }

  lemma GcFrames(w: World, k: Key)
    requires Inv(w)
    ensures Framed(w, Next(w, GcStep), k)
    ensures KeyPending(w, k) ==> KeyPending(Next(w, GcStep), k)
  {
    assert KeyInv(w, k);
    GcKeepsLookups(w.cold, w.store.clock, k);
  }

  /** Every step frames every key, and only an accepted batch settles a pending key. */
  lemma StepFrames(w: World, st: Step, k: Key)
    requires Inv(w) && Enabled(w, st)
    ensures Framed(w, Next(w, st), k)
    ensures KeyPending(w, k) && k in Next(w, st).ref && !st.AcceptStep? ==> KeyPending(Next(w, st), k)
  {
    match st
    case PutStep(j, v, ttl, tti) => WriteFrames(w, j, v, ttl, tti, k);
    case DeleteStep(j) => WriteFrames(w, j, [], 0, 0, k);
    case MutateStep(j, edit) => MutateFrames(w, j, edit, k);
    case ExpireStep(j) => ExpireFrames(w, j, k);
    case GetStep(j) => GetFrames(w, j, k);
    case ReadStep(j) => ReadFrames(w, j, k);
    case CollectStep(drained, idle) => CollectFrames(w, drained, idle, k);
    case AcceptStep => AcceptFrames(w, k);
    case RejectStep(landed, marked) => RejectFrames(w, landed, marked, k);
    case CommitStep => CommitFrames(w, k);
    case RequeueStep => RequeueFrames(w, k);
    case SelectStep(keys) =>
    case PublishStep => PublishFrames(w, k);
    case EvictStep(j) => EvictFrames(w, j, k);
    case FinishDemotionStep => FinishFrames(w, k);
    case AbortDemotionStep => AbortFrames(w, k);
    case GcStep => GcFrames(w, k);
  }
}
