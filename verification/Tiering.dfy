/** Policy demotion and cold promotion: what they preserve, and which races they lose. */
module Tiering {
  import opened Types
  import opened ObjectStore
  import opened ColdTier
  import opened World
  import opened WorldSteps
  import opened WorldFrame
  import opened WorldRuns

  // ----- Uninterrupted demotion -----

  function Evictions(order: seq<Key>): seq<Step> {
    if order == [] then [FinishDemotionStep] else [EvictStep(order[0])] + Evictions(order[1..])
  }

  function DemotionSteps(keys: set<Key>, order: seq<Key>): seq<Step> {
    [SelectStep(keys), PublishStep] + Evictions(order)
  }

  function Without(s: Store, keys: set<Key>): Store {
    s.(values := s.values - keys, meta := s.meta - keys)
  }

  ghost predicate Lists(order: seq<Key>, keys: set<Key>) {
    (forall k :: k in order <==> k in keys)
    && (forall i, j :: 0 <= i < j < |order| ==> order[i] != order[j])
  }

  /** The state after publishing `keys` and evicting all of them but `rest`. */
  function Midway(w: World, keys: set<Key>, rest: set<Key>): World
    requires AllSelectable(w.store, keys)
  {
    World(Without(w.store, keys - rest), Publish(w.cold, Cells(w.store, keys)), w.backend,
          Evicting(Cells(w.store, keys) - (keys - rest), map[]), w.ref)
  }

  lemma EvictOne(w: World, keys: set<Key>, rest: set<Key>, k: Key)
    requires Inv(w) && rest <= keys && k in rest
    requires AllSelectable(w.store, keys)
    ensures Enabled(Midway(w, keys, rest), EvictStep(k))
    ensures Next(Midway(w, keys, rest), EvictStep(k)) == Midway(w, keys, rest - {k})
  {
    var x := Midway(w, keys, rest);
    assert KeyInv(w, k);
    assert !PendingKey(w.store, k) && !PendingKey(x.store, k);
    var y := Next(x, EvictStep(k));
    var z := Midway(w, keys, rest - {k});
    assert keys - (rest - {k}) == (keys - rest) + {k};
    assert y.ref == w.ref;
    assert y.store.values == z.store.values;
    assert y.store.meta == z.store.meta;
    assert y.job.todo == z.job.todo;
  }

  lemma {:induction false} EvictAll(w: World, keys: set<Key>, rest: set<Key>, order: seq<Key>)
    requires Inv(w) && rest <= keys && Lists(order, rest)
    requires AllSelectable(w.store, keys)
    ensures Runs(Midway(w, keys, rest), Evictions(order))
    ensures Run(Midway(w, keys, rest), Evictions(order))
      == World(Without(w.store, keys), Publish(w.cold, Cells(w.store, keys)), w.backend, Idle, w.ref)
    decreases |order|
  {
    if order == [] {
      assert rest == {};
      var x := Midway(w, keys, rest);
      assert keys - rest == keys;
      assert x.job.todo == map[];
      assert Enabled(x, FinishDemotionStep);
      assert RecordTombstones(x.cold, map[]) == x.cold;
      var y := Next(x, FinishDemotionStep);
      assert Evictions(order) == [FinishDemotionStep];
      assert Evictions(order)[1..] == [];
    } else {
      EvictOne(w, keys, rest, order[0]);
      assert Lists(order[1..], rest - {order[0]}) by {
        assert order == [order[0]] + order[1..];
      }
      EvictAll(w, keys, rest - {order[0]}, order[1..]);
      assert Evictions(order)[1..] == Evictions(order[1..]);
    }
  }

  lemma DemotionStarts(w: World, keys: set<Key>)
    requires Enabled(w, SelectStep(keys))
    ensures var a := Next(w, SelectStep(keys));
      Enabled(a, PublishStep) && Next(a, PublishStep) == Midway(w, keys, keys)
  {
    assert Cells(w.store, keys) - (keys - keys) == Cells(w.store, keys);
    assert Without(w.store, keys - keys) == w.store;
  }

  lemma DemotionRuns(w: World, keys: set<Key>, order: seq<Key>)
    requires Inv(w) && Enabled(w, SelectStep(keys)) && Lists(order, keys)
    ensures Runs(w, DemotionSteps(keys, order))
    ensures Run(w, DemotionSteps(keys, order))
      == World(Without(w.store, keys), Publish(w.cold, Cells(w.store, keys)), w.backend, Idle, w.ref)
  {
    DemotionStarts(w, keys);
    EvictAll(w, keys, keys, order);
    RunCons(Next(w, SelectStep(keys)), PublishStep, Evictions(order));
    RunCons(w, SelectStep(keys), [PublishStep] + Evictions(order));
    assert DemotionSteps(keys, order) == [SelectStep(keys)] + ([PublishStep] + Evictions(order));
  }

  /** Demotion is read-transparent: with no client step in between, demoting any set of live,
      clean keys in any order leaves the reference, the clocks and every read as they were,
      and evicts exactly those keys. */
  lemma DemotionIsTransparent(w: World, keys: set<Key>, order: seq<Key>, k: Key)
    requires Inv(w) && Enabled(w, SelectStep(keys)) && Lists(order, keys)
    ensures Runs(w, DemotionSteps(keys, order))
    ensures var x := Run(w, DemotionSteps(keys, order));
      && x.ref == w.ref && x.store == Without(w.store, keys) && x.cold.tombs == w.cold.tombs && Inv(x)
      && ReadThrough(x.store, x.cold, k).1 == ReadThrough(w.store, w.cold, k).1
  {
    DemotionRuns(w, keys, order);
    RunKeeps(w, DemotionSteps(keys, order));
    ReadKeeps(w, k);
    ReadKeeps(Run(w, DemotionSteps(keys, order)), k);
  }

  /** Promoting a demoted key puts back its value, version, last touch, TTL and TTI exactly. */
  lemma PromotionUndoesDemotion(w: World, keys: set<Key>, order: seq<Key>, k: Key)
    requires Inv(w) && Enabled(w, SelectStep(keys)) && Lists(order, keys) && k in keys
    requires Runs(w, DemotionSteps(keys, order))
    ensures var x := Run(w, DemotionSteps(keys, order)); var (s, promoted) := PromoteFrom(x.store, x.cold, k);
      && promoted && s.clock == w.store.clock && s.writeClock == w.store.writeClock && s.dirty == w.store.dirty
      && s.values == x.store.values[k := w.store.values[k]]
      && s.meta == x.store.meta[k := w.store.meta[k]]
  {
    DemotionIsTransparent(w, keys, order, k);
    var x := Run(w, DemotionSteps(keys, order));
    assert KeyInv(w, k);
    assert KeyInv(x, k);
    PromoteKeeps(x, k);
  }

  /** Promotion never overwrites a live hot value or a tombstone. */
  lemma PromotionNeverOverwrites(w: World, k: Key)
    requires Inv(w) && k in w.store.meta
    ensures PromoteFrom(w.store, w.cold, k) == (w.store, false)
  {
    PromoteKeeps(w, k);
  }

  // ----- Races -----

  /** An eviction that races with reads leaves the snapshot's touch behind. It keeps the value
      readable exactly when that older touch has not yet idled out; with no TTI it always does. */
  lemma RacingEviction(w: World, k: Key)
    requires Inv(w) && Enabled(w, EvictStep(k)) && Evictable(w.store, k, w.job.todo[k].stamp.version)
    ensures var x := Next(w, EvictStep(k)); var published := w.job.todo[k].stamp;
      && ReadThrough(w.store, w.cold, k).1 == HotValue(w.store, k)
      && ReadThrough(x.store, x.cold, k).1 ==
           (if Lapsed(published, w.store.clock) then None else HotValue(w.store, k))
      && (published.ttiTicks == 0 ==> !Lapsed(published, w.store.clock))
      && (x.ref == w.ref <==> published.lastTouch == w.store.meta[k].stamp.lastTouch)
  {
    EvictedCell(w, k);
    ReadKeeps(w, k);
    EvictSucceeds(w, k);
    ReadKeeps(Next(w, EvictStep(k)), k);
  }

  lemma EvictedCell(w: World, k: Key)
    requires Inv(w) && Enabled(w, EvictStep(k)) && Evictable(w.store, k, w.job.todo[k].stamp.version)
    ensures var x := Next(w, EvictStep(k)); var published := w.job.todo[k].stamp;
      && RefView(w.ref, w.store.clock, k) == HotValue(w.store, k)
      && x.store.clock == w.store.clock
      && RefView(x.ref, w.store.clock, k) == (if Lapsed(published, w.store.clock) then None else HotValue(w.store, k))
      && (published.ttiTicks == 0 ==> !Lapsed(published, w.store.clock))
      && (x.ref == w.ref <==> published.lastTouch == w.store.meta[k].stamp.lastTouch)
  {
    assert KeyInv(w, k) && CandidateInv(w, k, w.job.todo[k]);
    assert w.ref[k].stamp.lastTouch == w.store.meta[k].stamp.lastTouch;
  }

  /** A typed mutator edits only the hot value. It sees what a read would return exactly when
      the key is hot (live or tombstoned) or the cold tier has no unexpired copy of it. */
  lemma MutatorSeesTheReadValue(w: World, k: Key)
    requires Inv(w)
    ensures HotValue(ExpireKey(w.store, k), k) == ReadThrough(w.store, w.cold, k).1
      <==> (k in w.store.meta || Lookup(w.cold, k).None? || Lapsed(Lookup(w.cold, k).value.stamp, w.store.clock))
  {
    assert KeyInv(w, k);
    ReadKeeps(w, k);
  }

  /** What is known of a cold cell read in an earlier state of the run. */
  ghost predicate ReadEarlier(w: World, k: Key, c: Cell) {
    && c.stamp.version < w.store.clock && c.stamp.lastTouch < w.store.clock
    && (k in w.store.meta ==> c.stamp.version <= w.store.meta[k].stamp.version)
    && (k in w.ref ==> c.stamp.version <= w.ref[k].stamp.version)
  }

  lemma LookupIsReadEarlier(w: World, k: Key)
    requires Inv(w) && Lookup(w.cold, k).Some?
    ensures ReadEarlier(w, k, Lookup(w.cold, k).value)
  {
    assert KeyInv(w, k);
    LookupIsACopy(w.cold.gens, w.cold.tombs, k);
  }

  lemma WritesMoveForward(w: World, j: Key, v: Value, ttl: nat, tti: nat, k: Key, c: Cell)
    requires ReadEarlier(w, k, c)
    ensures ReadEarlier(Client(w, PutWithExpiry(w.store, j, v, ttl, tti), Wrote(j, v, w.store.clock, ttl, tti)), k, c)
    ensures ReadEarlier(Client(w, DeleteKey(w.store, j), Removed(j)), k, c)
    ensures ReadEarlier(Client(w, ExpireKey(w.store, j), ExpireEvent(w.store, j)), k, c)
    ensures ReadEarlier(Client(w, Get(w.store, j).0, GetEvent(w.store, j)), k, c)
  {
  }

  lemma MutationsMoveForward(w: World, j: Key, edit: Option<Value> -> Edit, k: Key, c: Cell)
    requires ReadEarlier(w, k, c)
    ensures ReadEarlier(Client(w, Mutate(w.store, j, edit), MutateEvent(w.store, j, edit)), k, c)
  {
    var x := Client(w, ExpireKey(w.store, j), ExpireEvent(w.store, j));
    WritesMoveForward(w, j, [], 0, 0, k, c);
    MutateDecomposes(w, j, edit);
    var e := edit(HotValue(x.store, j));
    WritesMoveForward(x, j, if e.Write? then e.value else [], 0, 0, k, c);
  }

  lemma ReadsMoveForward(w: World, j: Key, k: Key, c: Cell)
    requires Inv(w) && ReadEarlier(w, k, c)
    ensures ReadEarlier(Client(w, ReadThrough(w.store, w.cold, j).0, ReadEvent(w.store, w.cold, j)), k, c)
  {
    WritesMoveForward(w, j, [], 0, 0, k, c);
    if Get(w.store, j).1.None? {
      GetKeeps(w, j);
      var x := Client(w, Get(w.store, j).0, GetEvent(w.store, j));
      var y := x.(store := PromoteFrom(x.store, x.cold, j).0);
      PromotionMovesForward(x, j, k, c);
      WritesMoveForward(y, j, [], 0, 0, k, c);
      ReadDecomposes(w, j);
    }
  }

  lemma PromotionMovesForward(x: World, j: Key, k: Key, c: Cell)
    requires Inv(x) && ReadEarlier(x, k, c)
    ensures ReadEarlier(x.(store := PromoteFrom(x.store, x.cold, j).0), k, c)
  {
    PromoteKeeps(x, j);
    assert KeyInv(x, j);
  }

  lemma BackgroundStepsKeepVersions(w: World, st: Step, k: Key, c: Cell)
    requires Enabled(w, st) && ReadEarlier(w, k, c) && Background(st)
    ensures ReadEarlier(Next(w, st), k, c)
  {
  }

  predicate Background(st: Step) {
    !(st.PutStep? || st.DeleteStep? || st.MutateStep? || st.ExpireStep? || st.GetStep? || st.ReadStep?)
  }

  lemma ReadEarlierStays(w: World, st: Step, k: Key, c: Cell)
    requires Inv(w) && Enabled(w, st) && ReadEarlier(w, k, c)
    ensures ReadEarlier(Next(w, st), k, c)
  {
    match st
    case PutStep(j, v, ttl, tti) => WritesMoveForward(w, j, v, ttl, tti, k, c);
    case DeleteStep(j) => WritesMoveForward(w, j, [], 0, 0, k, c);
    case ExpireStep(j) => WritesMoveForward(w, j, [], 0, 0, k, c);
    case GetStep(j) => WritesMoveForward(w, j, [], 0, 0, k, c);
    case MutateStep(j, edit) => MutationsMoveForward(w, j, edit, k, c);
    case ReadStep(j) => ReadsMoveForward(w, j, k, c);
    case _ => BackgroundStepsKeepVersions(w, st, k, c);
  }

  lemma {:induction false} ReadEarlierOverRuns(w: World, steps: seq<Step>, k: Key, c: Cell)
    requires Inv(w) && Runs(w, steps) && ReadEarlier(w, k, c)
    ensures ReadEarlier(Run(w, steps), k, c)
    decreases |steps|
  {
    if steps != [] {
      ReadEarlierStays(w, steps[0], k, c);
      StepKeeps(w, steps[0]);
      ReadEarlierOverRuns(Next(w, steps[0]), steps[1..], k, c);
    }
  }

  /** The read-through API looks the record up and promotes it in two separate steps. If other
      steps run in between, the promotion leaves the key agreeing with the reference exactly
      when the hot store refuses it or the cold tier would still return that same record. */
  lemma SplitPromotion(w: World, steps: seq<Step>, k: Key)
    requires Inv(w) && Runs(w, steps) && Lookup(w.cold, k).Some?
    ensures var c := Lookup(w.cold, k).value; var x := Run(w, steps);
      var (s, promoted) := PromoteClean(x.store, k, c);
      (!promoted || (k in x.ref && HotCell(s, k) == x.ref[k]))
      <==> (PromotionRefused(x.store, k, c) || Lookup(x.cold, k) == Some(c))
  {
    LookupIsReadEarlier(w, k);
    ReadEarlierOverRuns(w, steps, k, Lookup(w.cold, k).value);
    RunKeeps(w, steps);
    assert KeyInv(Run(w, steps), k);
  }

  // ----- Eviction without checks -----

  /** `evict_clean`: neither the version nor the dirty queue is looked at. */
  function EvictClean(s: Store, k: Key): Store {
    s.(values := s.values - {k}, meta := s.meta - {k})
  }

  lemma BatchKeys(x: World, drained: seq<DirtyEntry>, k: Key)
    requires Enabled(x, CollectStep(drained, 0)) && forall e :: e in FlushableOf(x.store, drained, 0) ==> e.key != k
    ensures var a := Next(x, CollectStep(drained, 0)); k !in a.job.batch && a.backend == x.backend
  {
  }

  lemma SendsItsBatch(a: World)
    requires Enabled(a, AcceptStep)
    ensures var b := Next(a, AcceptStep); Enabled(b, CommitStep) && Next(b, CommitStep).backend == a.backend + a.job.batch
  {
  }

  lemma RoundSends(x: World, drained: seq<DirtyEntry>, k: Key)
    requires Enabled(x, CollectStep(drained, 0)) && forall e :: e in FlushableOf(x.store, drained, 0) ==> e.key != k
    ensures var y := FlushRound(x, drained);
      (k in y.backend <==> k in x.backend) && (k in x.backend ==> y.backend[k] == x.backend[k])
  {
    BatchKeys(x, drained, k);
    SendsItsBatch(Next(x, CollectStep(drained, 0)));
  }

  /** After an unchecked eviction every flush drops the key's queued entry as stale, so the
      backend ends up with the key's latest write or delete if and only if it had it already; if
      it had not, the only entry of that mutation was in the queue. */
  lemma UncheckedEviction(w: World, k: Key, drained: seq<DirtyEntry>)
    requires Inv(w) && w.job.Idle? && k in w.store.meta && multiset(drained) <= w.store.dirty
    ensures var x := w.(store := EvictClean(w.store, k)); var m := w.store.meta[k];
      && Enabled(x, CollectStep(drained, 0))
      && (Backed(FlushRound(x, drained), k, m.stamp.version) <==> Backed(w, k, m.stamp.version))
      && (!Backed(w, k, m.stamp.version) ==> EntryFor(k, m) in w.store.dirty)
  {
    assert KeyInv(w, k);
    RoundSends(w.(store := EvictClean(w.store, k)), drained, k);
  }

  /** What the cold tier alone shows. */
  function ColdView(c: Cold, now: nat, k: Key): Option<Value> {
    match Lookup(c, k)
    case None => None
    case Some(cell) => if Lapsed(cell.stamp, now) then None else Some(cell.value)
  }

  /** After an unchecked eviction a read shows what the cold tier shows. So it answers as before
      if and only if the cold tier showed the key's current value already, or, for a deleted or
      expired key, nothing: a deleted key with an unexpired cold copy comes back. */
  lemma UncheckedEvictionReads(w: World, k: Key)
    requires Inv(w)
    ensures var x := w.(store := EvictClean(w.store, k));
      && ReadThrough(x.store, x.cold, k).1 == ColdView(w.cold, w.store.clock, k)
      && (ReadThrough(x.store, x.cold, k).1 == ReadThrough(w.store, w.cold, k).1 <==>
            || k !in w.store.meta
            || ColdView(w.cold, w.store.clock, k)
               == if Live(w.store, k) && !DueToExpire(w.store, k) then HotValue(w.store, k) else None)
  {
    EvictedRead(w, k);
    ReadAnswers(w, k);
    assert KeyInv(w, k);
  }

  lemma EvictedRead(w: World, k: Key)
    requires Inv(w)
    ensures var x := EvictClean(w.store, k); ReadThrough(x, w.cold, k).1 == ColdView(w.cold, w.store.clock, k)
  {
    assert KeyInv(w, k);
    LookupIsACopy(w.cold.gens, w.cold.tombs, k);
  }
}
