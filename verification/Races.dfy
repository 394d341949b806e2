/** Interleavings that break read-through, each from a state that a real run reaches. */
module Races {
  import opened Types
  import opened ObjectStore
  import opened ColdTier
  import opened World
  import opened WorldSteps
  import opened WorldRuns
  import PlainMap
  import opened Tiering

  // ----- A stale promotion resurrects a deleted key -----

  function DeleteAndFlush(w: World, k: Key): seq<Step> {
    [DeleteStep(k), CollectStep([DirtyEntry(k, w.store.clock, Delete)], 0), AcceptStep, CommitStep]
  }

  /** Deleting a cold key and flushing the delete removes every trace of it from the hot store. */
  lemma DeleteAndFlushForgets(w: World, k: Key)
    requires Inv(w) && w.job.Idle? && k !in w.store.meta
    ensures Runs(w, DeleteAndFlush(w, k))
    ensures var x := Run(w, DeleteAndFlush(w, k));
      k !in x.store.meta && k !in x.ref && x.store.clock == w.store.clock + 1
  {
    var e := DirtyEntry(k, w.store.clock, Delete);
    var a := Next(w, DeleteStep(k));
    RoundOfOne(a, e);
    RunOfFour(w, DeleteStep(k), CollectStep([e], 0), AcceptStep, CommitStep);
  }

  /** Whenever a key lives only in the cold tier, a reader that looked it up, was overtaken by a
      flushed delete, and only then promoted it, brings the deleted value back. */
  lemma StalePromotionResurrects(w: World, k: Key)
    requires Inv(w) && w.job.Idle? && k !in w.store.meta
    requires Lookup(w.cold, k).Some? && !Lapsed(Lookup(w.cold, k).value.stamp, w.store.clock + 1)
    ensures Runs(w, DeleteAndFlush(w, k))
    ensures var c := Lookup(w.cold, k).value; var x := Run(w, DeleteAndFlush(w, k));
      var s := PromoteClean(x.store, k, c).0;
      ReadThrough(x.store, x.cold, k).1 == None && Get(s, k).1 == Some(c.value)
  {
    DeleteAndFlushForgets(w, k);
    RunKeeps(w, DeleteAndFlush(w, k));
    ReadKeeps(Run(w, DeleteAndFlush(w, k)), k);
    LookupIsReadEarlier(w, k);
  }

  // ----- A racing read makes an eviction drop an idle-limited key early -----

  function ReadWhileDemoting(k: Key): seq<Step> {
    [SelectStep({k}), GetStep(k), PublishStep, EvictStep(k)]
  }

  /** A key with a time-to-idle, read between the demotion's snapshot and its eviction, reads as
      absent right after the eviction, although the read should have kept it alive. */
  lemma RacingReadLosesKey(w: World, k: Key)
    requires Inv(w) && w.job.Idle? && Selectable(w.store, k)
    requires var m := w.store.meta[k].stamp;
      m.expiresAt == 0 && m.ttiTicks >= 2 && w.store.clock + 1 == m.lastTouch + m.ttiTicks
    ensures Runs(w, ReadWhileDemoting(k))
    ensures var x := Run(w, ReadWhileDemoting(k));
      Get(w.store, k).1.Some? && ReadThrough(x.store, x.cold, k).1 == None
  {
    var c := Next(Next(Next(w, SelectStep({k})), GetStep(k)), PublishStep);
    ReadWhileDemotingReaches(w, k);
    assert Lapsed(HotCell(w.store, k).stamp, c.store.clock);
    RacingEviction(c, k);
    RunOfFour(w, SelectStep({k}), GetStep(k), PublishStep, EvictStep(k));
  }

  lemma ReadWhileDemotingReaches(w: World, k: Key)
    requires Inv(w) && w.job.Idle? && Selectable(w.store, k)
    requires w.store.meta[k].stamp.expiresAt == 0 && w.store.meta[k].stamp.ttiTicks != 1
    ensures Enabled(w, SelectStep({k}))
    ensures var c := Next(Next(Next(w, SelectStep({k})), GetStep(k)), PublishStep);
      && Inv(c) && Enabled(c, EvictStep(k)) && c.job.todo[k] == HotCell(w.store, k)
      && Evictable(c.store, k, c.job.todo[k].stamp.version) && c.store.clock == w.store.clock + 1
  {
    var a := Next(w, SelectStep({k}));
    var b := Next(a, GetStep(k));
    StepKeeps(w, SelectStep({k}));
    StepKeeps(a, GetStep(k));
    StepKeeps(b, PublishStep);
    assert !PendingKey(w.store, k) && !PendingKey(Next(b, PublishStep).store, k);
  }

  // ----- Reachable witnesses -----

  /** One key written with a time-to-idle of `tti` ticks and flushed. */
  function WrittenSteps(tti: nat): seq<Step> {
    [PutStep(KEY, TEXT, 0, tti), CollectStep([DirtyEntry(KEY, 1, Put)], 0), AcceptStep, CommitStep]
  }

  lemma WrittenAndDirty(tti: nat)
    ensures Next(INITIAL, PutStep(KEY, TEXT, 0, tti)).store
      == Store(map[KEY := TEXT], map[KEY := Meta(ExpiryMeta(1, 1, 0, tti), false)], multiset{DirtyEntry(KEY, 1, Put)}, 2, 1)
  {
  }

  /** A put into a clean, idle store, and the flush of it. */
  lemma PutAndFlush(x: World, st: Step, e: DirtyEntry)
    requires st.PutStep? && x.job.Idle? && e.op == Put
    requires Next(x, st).store.dirty == multiset{e} && Flushable(Next(x, st).store, 0, e)
    ensures Runs(x, [st, CollectStep([e], 0), AcceptStep, CommitStep])
    ensures var z := Run(x, [st, CollectStep([e], 0), AcceptStep, CommitStep]);
      z.job.Idle? && z.cold == x.cold && z.store == Next(x, st).store.(dirty := multiset{})
  {
    var a := Next(x, st);
    RoundOfOne(a, e);
    PutRoundLeavesCold(a, e);
    RunOfFour(x, st, CollectStep([e], 0), AcceptStep, CommitStep);
    var z := FlushRound(a, [e]);
    assert z.store.dirty == multiset{} && z.store.values == a.store.values && z.store.meta == a.store.meta;
  }

  lemma WrittenIsReachable(tti: nat)
    ensures Runs(INITIAL, WrittenSteps(tti))
    ensures var w := Run(INITIAL, WrittenSteps(tti));
      && Inv(w) && w.job.Idle? && w.cold == EMPTY_COLD
      && w.store == Store(map[KEY := TEXT], map[KEY := Meta(ExpiryMeta(1, 1, 0, tti), false)], multiset{}, 2, 1)
  {
    WrittenAndDirty(tti);
    PutAndFlush(INITIAL, PutStep(KEY, TEXT, 0, tti), DirtyEntry(KEY, 1, Put));
    InitialHolds();
    RunKeeps(INITIAL, WrittenSteps(tti));
  }

  function DemotedSteps(): seq<Step> {
    WrittenSteps(0) + DemotionSteps({KEY}, [KEY])
  }

  lemma DemotedFrom(w: World)
    requires Inv(w) && w.job.Idle? && w.cold == EMPTY_COLD
    requires w.store == Store(map[KEY := TEXT], map[KEY := Meta(ExpiryMeta(1, 1, 0, 0), false)], multiset{}, 2, 1)
    ensures Runs(w, DemotionSteps({KEY}, [KEY]))
    ensures var x := Run(w, DemotionSteps({KEY}, [KEY]));
      && x.job.Idle? && x.store == Store(map[], map[], multiset{}, 2, 1)
      && Lookup(x.cold, KEY) == Some(Cell(TEXT, ExpiryMeta(1, 1, 0, 0)))
  {
    assert !PendingKey(w.store, KEY) && Selectable(w.store, KEY);
    DemotionRuns(w, {KEY}, [KEY]);
    PublishShadows(w.cold, Cells(w.store, {KEY}), KEY);
    assert Without(w.store, {KEY}) == Store(map[], map[], multiset{}, 2, 1);
  }

  /** One key written, flushed and demoted: nothing is hot, and the cold tier has it. */
  lemma DemotedIsReachable()
    ensures Runs(INITIAL, WrittenSteps(0)) && Runs(Run(INITIAL, WrittenSteps(0)), DemotionSteps({KEY}, [KEY]))
    ensures Runs(INITIAL, DemotedSteps())
    ensures var x := Run(INITIAL, DemotedSteps());
      && x == Run(Run(INITIAL, WrittenSteps(0)), DemotionSteps({KEY}, [KEY]))
      && Inv(x) && x.job.Idle? && x.store == Store(map[], map[], multiset{}, 2, 1)
      && Lookup(x.cold, KEY) == Some(Cell(TEXT, ExpiryMeta(1, 1, 0, 0)))
  {
    WrittenIsReachable(0);
    DemotedFrom(Run(INITIAL, WrittenSteps(0)));
    RunConcat(INITIAL, WrittenSteps(0), DemotionSteps({KEY}, [KEY]));
    InitialHolds();
    RunKeeps(INITIAL, DemotedSteps());
  }

  /** A concrete run after which a typed mutator is handed nothing, while a read returns the
      value. */
  lemma DemotedKeyIsUnseen()
    ensures Runs(INITIAL, DemotedSteps())
    ensures var x := Run(INITIAL, DemotedSteps());
      HotValue(ExpireKey(x.store, KEY), KEY) == None && ReadThrough(x.store, x.cold, KEY).1 == Some(TEXT)
  {
    DemotedIsReachable();
    UnseenFrom(Run(INITIAL, DemotedSteps()));
  }

  lemma UnseenFrom(x: World)
    requires x.store == Store(map[], map[], multiset{}, 2, 1)
    requires Lookup(x.cold, KEY) == Some(Cell(TEXT, ExpiryMeta(1, 1, 0, 0)))
    ensures HotValue(ExpireKey(x.store, KEY), KEY) == None && ReadThrough(x.store, x.cold, KEY).1 == Some(TEXT)
  {
  }

  /** A concrete run in which a deleted key comes back. */
  lemma DeletedKeyComesBack()
    ensures Runs(INITIAL, WrittenSteps(0))
    ensures var w := Run(INITIAL, WrittenSteps(0));
      Runs(w, DemotionSteps({KEY}, [KEY])) &&
      var x := Run(w, DemotionSteps({KEY}, [KEY]));
      Lookup(x.cold, KEY).Some? && Runs(x, DeleteAndFlush(x, KEY)) &&
      var y := Run(x, DeleteAndFlush(x, KEY)); var s := PromoteClean(y.store, KEY, Lookup(x.cold, KEY).value).0;
      ReadThrough(y.store, y.cold, KEY).1 == None && Get(s, KEY).1 == Some(TEXT)
  {
    DemotedIsReachable();
    var x := Run(INITIAL, DemotedSteps());
    StalePromotionResurrects(x, KEY);
  }

  function VanishingSteps(): seq<Step> {
    WrittenSteps(2) + ReadWhileDemoting(KEY)
  }

  /** A concrete run in which a read makes a key vanish: it could be read before the demotion, it
      reads as absent afterwards, and the plain map of the same calls still shows it. */
  lemma ReadKeyVanishes()
    ensures Runs(INITIAL, WrittenSteps(2)) && Runs(INITIAL, VanishingSteps())
    ensures var w, x := Run(INITIAL, WrittenSteps(2)), Run(INITIAL, VanishingSteps());
      && Get(w.store, KEY).1 == Some(TEXT) && ReadThrough(x.store, x.cold, KEY).1 == None
      && PlainMap.Look(PlainMap.Calls(INITIAL, map[], VanishingSteps()), x.store.clock, KEY) == Some(TEXT)
  {
    WrittenIsReachable(2);
    var w := Run(INITIAL, WrittenSteps(2));
    VanishesFrom(w);
    RunConcat(INITIAL, WrittenSteps(2), ReadWhileDemoting(KEY));
    WrittenItem();
    TouchedItem(w);
    PlainMap.CallsConcat(INITIAL, map[], WrittenSteps(2), ReadWhileDemoting(KEY));
  }

  lemma VanishesFrom(w: World)
    requires Inv(w) && w.job.Idle?
    requires w.store == Store(map[KEY := TEXT], map[KEY := Meta(ExpiryMeta(1, 1, 0, 2), false)], multiset{}, 2, 1)
    ensures Selectable(w.store, KEY) && Get(w.store, KEY).1 == Some(TEXT)
    ensures Runs(w, ReadWhileDemoting(KEY))
    ensures var x := Run(w, ReadWhileDemoting(KEY)); ReadThrough(x.store, x.cold, KEY).1 == None
  {
    assert !PendingKey(w.store, KEY) && Selectable(w.store, KEY);
    RacingReadLosesKey(w, KEY);
  }

  lemma WrittenItem()
    requires Runs(INITIAL, WrittenSteps(2))
    ensures PlainMap.Calls(INITIAL, map[], WrittenSteps(2)) == map[KEY := PlainMap.Item(TEXT, 0, 2, 1)]
  {
    var st, e := PutStep(KEY, TEXT, 0, 2), DirtyEntry(KEY, 1, Put);
    WrittenAndDirty(2);
    assert multiset([e]) == multiset{e};
    assert Enabled(Next(INITIAL, st), CollectStep([e], 0));
    PlainMap.CallsOfFour(INITIAL, map[], st, CollectStep([e], 0), AcceptStep, CommitStep);
  }

  lemma TouchedByGet(n: nat, m: nat)
    ensures var p := map[KEY := PlainMap.Item(TEXT, 0, 2, 1)];
      PlainMap.Call(PlainMap.Call(PlainMap.Call(PlainMap.Call(p, 2, SelectStep({KEY})), 2, GetStep(KEY)), n, PublishStep), m, EvictStep(KEY))
      == map[KEY := PlainMap.Item(TEXT, 0, 2, 2)]
  {
  }

  lemma ClockWhileDemoting(w: World)
    requires Enabled(w, SelectStep({KEY})) && Enabled(Next(Next(Next(w, SelectStep({KEY})), GetStep(KEY)), PublishStep), EvictStep(KEY))
    ensures var a := Next(w, SelectStep({KEY})); var c := Next(Next(a, GetStep(KEY)), PublishStep);
      a.store.clock == w.store.clock && Next(c, EvictStep(KEY)).store.clock == c.store.clock
  {
  }

  lemma TouchedItem(w: World)
    requires Inv(w) && w.job.Idle? && Selectable(w.store, KEY) && w.store.clock == 2
    requires w.store.meta[KEY].stamp == ExpiryMeta(1, 1, 0, 2)
    ensures Runs(w, ReadWhileDemoting(KEY)) && Run(w, ReadWhileDemoting(KEY)).store.clock == 3
    ensures PlainMap.Calls(w, map[KEY := PlainMap.Item(TEXT, 0, 2, 1)], ReadWhileDemoting(KEY))
         == map[KEY := PlainMap.Item(TEXT, 0, 2, 2)]
  {
    ReadWhileDemotingReaches(w, KEY);
    ClockWhileDemoting(w);
    var b := Next(Next(w, SelectStep({KEY})), GetStep(KEY));
    RunOfFour(w, SelectStep({KEY}), GetStep(KEY), PublishStep, EvictStep(KEY));
    PlainMap.CallsOfFour(w, map[KEY := PlainMap.Item(TEXT, 0, 2, 1)], SelectStep({KEY}), GetStep(KEY), PublishStep, EvictStep(KEY));
    TouchedByGet(b.store.clock, Next(b, PublishStep).store.clock);
  }

  // ----- An expired key over an older cold copy -----

  const NEWER: Value := [8]

  /** The demoted key is written again with a deadline of one tick, and that write is flushed. */
  function ExpiredSteps(): seq<Step> {
    DemotedSteps() + Rewriting()
  }

  function Rewriting(): seq<Step> {
    [PutStep(KEY, NEWER, 1, 0), CollectStep([DirtyEntry(KEY, 2, Put)], 0), AcceptStep, CommitStep]
  }

  lemma RewrittenAndDirty(x: World)
    requires x.job.Idle? && x.store == Store(map[], map[], multiset{}, 2, 1)
    ensures Next(x, PutStep(KEY, NEWER, 1, 0)).store
      == Store(map[KEY := NEWER], map[KEY := Meta(ExpiryMeta(2, 2, 3, 0), false)], multiset{DirtyEntry(KEY, 2, Put)}, 3, 2)
  {
  }

  lemma ExpiredIsReachable()
    ensures Runs(INITIAL, ExpiredSteps())
    ensures var z := Run(INITIAL, ExpiredSteps());
      && Inv(z) && z.job.Idle? && Lookup(z.cold, KEY) == Some(Cell(TEXT, ExpiryMeta(1, 1, 0, 0)))
      && z.store == Store(map[KEY := NEWER], map[KEY := Meta(ExpiryMeta(2, 2, 3, 0), false)], multiset{}, 3, 2)
  {
    DemotedIsReachable();
    RewrittenAndDirty(Run(INITIAL, DemotedSteps()));
    PutAndFlush(Run(INITIAL, DemotedSteps()), PutStep(KEY, NEWER, 1, 0), DirtyEntry(KEY, 2, Put));
    RunConcat(INITIAL, DemotedSteps(), Rewriting());
    InitialHolds();
    RunKeeps(INITIAL, ExpiredSteps());
  }

  lemma NothingFails()
    ensures forall st :: st in ExpiredSteps() ==> !st.RejectStep?
  {
    assert Evictions([KEY]) == [EvictStep(KEY)] + Evictions([]);
  }

  /** A concrete dirty key: evicted without checks, its write never reaches the backend. */
  lemma UncheckedEvictionLosesWrite()
    ensures var w := Next(INITIAL, PutStep(KEY, TEXT, 0, 0)); var x := w.(store := EvictClean(w.store, KEY));
      && Get(w.store, KEY).1 == Some(TEXT) && ReadThrough(x.store, x.cold, KEY).1 == None
      && Enabled(x, CollectStep([DirtyEntry(KEY, 1, Put)], 0))
      && FlushRound(x, [DirtyEntry(KEY, 1, Put)]).store.dirty == multiset{}
      && !Backed(FlushRound(x, [DirtyEntry(KEY, 1, Put)]), KEY, 1)
  {
    var w, e := Next(INITIAL, PutStep(KEY, TEXT, 0, 0)), DirtyEntry(KEY, 1, Put);
    WrittenAndDirty(0);
    InitialHolds();
    StepKeeps(INITIAL, PutStep(KEY, TEXT, 0, 0));
    assert multiset([e]) == multiset{e};
    UncheckedEviction(w, KEY, [e]);
    RoundShape(w.(store := EvictClean(w.store, KEY)), [e]);
  }

  /** A concrete deleted key with an unflushed delete: it reads as absent, and after an eviction
      without checks its old value is back. */
  lemma UncheckedEvictionResurrects()
    ensures Runs(INITIAL, DemotedSteps())
    ensures var w := Next(Run(INITIAL, DemotedSteps()), DeleteStep(KEY)); var x := EvictClean(w.store, KEY);
      ReadThrough(w.store, w.cold, KEY).1 == None && ReadThrough(x, w.cold, KEY).1 == Some(TEXT)
  {
    DemotedIsReachable();
    DeletedThenEvicted(Run(INITIAL, DemotedSteps()));
  }

  lemma DeletedThenEvicted(x: World)
    requires Inv(x) && x.store == Store(map[], map[], multiset{}, 2, 1)
    requires Lookup(x.cold, KEY) == Some(Cell(TEXT, ExpiryMeta(1, 1, 0, 0)))
    ensures var w := Next(x, DeleteStep(KEY));
      && ReadThrough(w.store, w.cold, KEY).1 == None
      && ReadThrough(EvictClean(w.store, KEY), w.cold, KEY).1 == Some(TEXT)
  {
    StepKeeps(x, DeleteStep(KEY));
    UncheckedEvictionReads(Next(x, DeleteStep(KEY)), KEY);
  }
}
