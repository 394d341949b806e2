/** Where recovery loses or revives something, and the exact condition under which it does not. */
module LostWrites {
  import opened Types
  import opened ObjectStore
  import opened ColdTier
  import opened World
  import opened WorldSteps
  import opened WorldFrame
  import opened WorldRuns
  import opened Log
  import opened Durability
  import opened Recovery
  import opened Races

  // ----- The LSN is read after the snapshot -----

  /** `write_checkpoint` as the code orders it: the records from one state of the store, the LSN
      from a later one. */
  function RacyCheckpoint(atSnapshot: Store, atLsn: Store): Checkpoint {
    Checkpoint(atLsn.writeClock, SnapshotOf(atSnapshot).cells)
  }

  lemma {:induction false} FoldAbove(log: seq<LogRecord>, k: Key, lsn: nat, rec: Record)
    requires Fold(log, k, 0).obj == Some(rec) && rec.version > lsn
    ensures Fold(log, k, lsn).obj == Some(rec)
  {
    var last := log[|log| - 1];
    if !(last.Object? && last.key == k && last.version > 0) {
      FoldAbove(log[..|log| - 1], k, lsn, rec);
    }
  }

  predicate Holds(c: Option<Cell>, version: nat, v: Value) {
    c.Some? && c.value.value == v && c.value.stamp.version == version
  }

  /** A put that is in the log survives a recovery exactly when its version is above the
      checkpoint's LSN, or the checkpoint already holds it. */
  lemma LoggedPutSurvives(ck: Checkpoint, log: seq<LogRecord>, k: Key, version: nat, v: Value)
    requires Fold(log, k, 0).obj == Some(Record(version, Some(v)))
    requires forall r :: r in log && r.key == k ==> r.version <= version
    ensures Holds(Recovered(ck, log, k), version, v)
      <==> (version > ck.lsn || (k in ck.cells && Holds(Some(ck.cells[k]), version, v)))
  {
    if version > ck.lsn {
      FoldAbove(log, k, ck.lsn, Record(version, Some(v)));
    } else {
      FoldOfSilent(NOTHING, log, k, ck.lsn);
    }
  }

  /** The same for a checkpoint written as the code writes it: a logged put survives exactly when
      it is above the LSN, or it was in the store when the snapshot was taken. */
  lemma PutAgainstRacyCheckpoint(atSnapshot: Store, atLsn: Store, log: seq<LogRecord>, k: Key, version: nat, v: Value)
    requires Fold(log, k, 0).obj == Some(Record(version, Some(v)))
    requires forall r :: r in log && r.key == k ==> r.version <= version
    ensures var cells := SnapshotOf(atSnapshot).cells;
      Holds(Recovered(RacyCheckpoint(atSnapshot, atLsn), log, k), version, v)
      <==> (version > atLsn.writeClock || (k in cells && Holds(Some(cells[k]), version, v)))
  {
    LoggedPutSurvives(RacyCheckpoint(atSnapshot, atLsn), log, k, version, v);
  }

  /** A put that lands between the snapshot and the LSN is lost: written, flushed and synced
      after the checkpoint, it is filtered out by recovery. */
  lemma RacingPutIsLost()
    ensures var s := PutWithExpiry(EMPTY_STORE, KEY, TEXT, 0, 0);
      var log := RecordsFor(s, KEY, Record(1, Some(TEXT)));
      Get(s, KEY).1 == Some(TEXT) && Recovered(RacyCheckpoint(EMPTY_STORE, s), log, KEY) == None
  {
    var s := PutWithExpiry(EMPTY_STORE, KEY, TEXT, 0, 0);
    var log := RecordsFor(s, KEY, Record(1, Some(TEXT)));
    FoldOfSilent(NOTHING, log, KEY, 1);
  }

  // ----- The recovered clock may lag behind the checkpoint's LSN -----

  /** The first write after a recovery survives the next recovery exactly when the recovered
      clock is above the checkpoint's LSN. */
  lemma NextLifetimePut(ck: Checkpoint, log: seq<LogRecord>, r: Store, k: Key, v: Value)
    requires Recovers(ck, log, r)
    ensures var s := PutWithExpiry(r, k, v, 0, 0);
      var log' := log + RecordsFor(s, k, Record(r.clock, Some(v)));
      Holds(Recovered(ck, log', k), r.clock, v) <==> r.clock > ck.lsn
  {
    var s := PutWithExpiry(r, k, v, 0, 0);
    var rec := Record(r.clock, Some(v));
    FoldOfConcat(NOTHING, log, RecordsFor(s, k, rec), k, ck.lsn);
    FoldOfRecordsFor(Fold(log, k, ck.lsn), s, k, rec, k, ck.lsn);
    assert OutcomeBelow(OutcomeOf(Fold(log, k, ck.lsn)), r.clock);
  }

  /** After a put, a delete and a checkpoint, the recovered clock is below the LSN, so the next
      lifetime's first write does not survive a second crash. */
  lemma SecondLifetimeLosesPut()
    ensures var ck := SnapshotOf(DeleteKey(PutWithExpiry(EMPTY_STORE, KEY, TEXT, 0, 0), KEY));
      var s := PutWithExpiry(EMPTY_STORE, KEY, TEXT, 0, 0);
      Recovers(ck, [], EMPTY_STORE)
      && !Holds(Recovered(ck, RecordsFor(s, KEY, Record(1, Some(TEXT))), KEY), 1, TEXT)
  {
    var ck := SnapshotOf(DeleteKey(PutWithExpiry(EMPTY_STORE, KEY, TEXT, 0, 0), KEY));
    assert ck == Checkpoint(2, map[]);
    assert Recovers(ck, [], EMPTY_STORE);
    NextLifetimePut(ck, [], EMPTY_STORE, KEY, TEXT);
    var s := PutWithExpiry(EMPTY_STORE, KEY, TEXT, 0, 0);
    assert [] + RecordsFor(s, KEY, Record(1, Some(TEXT))) == RecordsFor(s, KEY, Record(1, Some(TEXT)));
  }

  // ----- Expiry metadata is taken when the batch reaches the backend -----

  predicate SameExpiry(a: ExpiryMeta, b: ExpiryMeta) {
    a.expiresAt == b.expiresAt && a.ttiTicks == b.ttiTicks
  }

  /** The deadline and idle limit that a put had when it was collected from `at` come back from
      the log if and only if it had none, or the key is still at that version in the store `s`
      that the backend call reads, or the key is deleted by then and the log already carries
      metadata of that version. */
  lemma LoggedExpirySurvives(st: KeyState, at: Store, s: Store, k: Key, lsn: nat)
    requires Live(at, k) && k in at.values && at.meta[k].stamp.version > lsn
    requires var own := at.meta[k].stamp;
      && (Live(s, k) && s.meta[k].stamp.version == own.version ==> SameExpiry(s.meta[k].stamp, own))
      && (st.expiry.Some? && st.expiry.value.version == own.version ==> SameExpiry(st.expiry.value, own))
    ensures var own := at.meta[k].stamp;
      var out := OutcomeOf(FoldFrom(st, RecordsFor(s, k, RecordFor(at, k)), k, lsn));
      && out.Loaded? && out.cell.value == at.values[k] && out.cell.stamp.version == own.version
      && (SameExpiry(out.cell.stamp, own) <==>
            || (own.expiresAt == 0 && own.ttiTicks == 0)
            || (if Live(s, k) then s.meta[k].stamp.version == own.version
                else st.expiry.Some? && st.expiry.value.version == own.version))
  {
    FoldOfRecordsFor(st, s, k, RecordFor(at, k), k, lsn);
  }

  /** A put with a deadline, collected for a flush and then rewritten with another deadline,
      rewritten without one, or deleted before the backend call, is recovered without one. */
  lemma RewriteLosesDeadline()
    ensures var s := PutWithExpiry(EMPTY_STORE, KEY, TEXT, 5, 0);
      var none := Checkpoint(0, map[]);
      && s.meta[KEY].stamp.expiresAt == 6
      && (forall t :: t in {PutWithExpiry(s, KEY, TEXT, 9, 0), PutWithExpiry(s, KEY, TEXT, 0, 0), DeleteKey(s, KEY)} ==>
            Recovered(none, RecordsFor(t, KEY, RecordFor(s, KEY)), KEY) == Some(Cell(TEXT, ExpiryMeta(1, 1, 0, 0))))
  {
    var s := PutWithExpiry(EMPTY_STORE, KEY, TEXT, 5, 0);
    forall t | t in {PutWithExpiry(s, KEY, TEXT, 9, 0), PutWithExpiry(s, KEY, TEXT, 0, 0), DeleteKey(s, KEY)}
      ensures Recovered(Checkpoint(0, map[]), RecordsFor(t, KEY, RecordFor(s, KEY)), KEY)
           == Some(Cell(TEXT, ExpiryMeta(1, 1, 0, 0)))
    {
      LoggedExpirySurvives(NOTHING, s, t, KEY, 0);
    }
  }

  /** The version that a key had keeps its expiry for as long as it is the key's version. */
  ghost predicate Remembers(w: World, k: Key, own: ExpiryMeta) {
    own.version < w.store.clock
    && (k in w.ref && w.ref[k].stamp.version == own.version ==> SameExpiry(w.ref[k].stamp, own))
  }

  lemma {:induction false} VersionKeepsExpiry(w: World, steps: seq<Step>, k: Key, own: ExpiryMeta)
    requires Inv(w) && Runs(w, steps) && Remembers(w, k, own)
    ensures Inv(Run(w, steps)) && Remembers(Run(w, steps), k, own)
    decreases |steps|
  {
    if steps != [] {
      RemembersStep(w, steps[0], k, own);
      StepKeeps(w, steps[0]);
      VersionKeepsExpiry(Next(w, steps[0]), steps[1..], k, own);
    }
  }

  lemma RemembersStep(w: World, st: Step, k: Key, own: ExpiryMeta)
    requires Inv(w) && Enabled(w, st) && Remembers(w, k, own)
    ensures Remembers(Next(w, st), k, own)
  {
    StepFrames(w, st, k);
    StepKeeps(w, st);
    assert KeyInv(Next(w, st), k);
  }

  /** Metadata in the log belongs to the version it names. */
  ghost predicate HonestLog(m: Machine) {
    forall r :: r in m.wal && r.Expiry? ==> Remembers(m.w, r.key, r.meta)
  }

  lemma {:induction false} ExpandedExpiry(s: Store, batch: map<Key, Record>, order: seq<Key>, r: LogRecord)
    requires (forall k :: k in order ==> k in batch) && r in Expand(s, batch, order) && r.Expiry?
    ensures Live(s, r.key) && r.meta == s.meta[r.key].stamp
    decreases |order|
  {
    if r !in RecordsFor(s, order[0], batch[order[0]]) {
      ExpandedExpiry(s, batch, order[1..], r);
    }
  }

  lemma CurrentIsRemembered(w: World, k: Key)
    requires Inv(w) && Live(w.store, k)
    ensures Remembers(w, k, w.store.meta[k].stamp)
  {
    assert KeyInv(w, k);
  }

  lemma HonestAppend(m: Machine, order: seq<Key>, out: seq<LogRecord>, st: Step, r: LogRecord)
    requires Sound(m) && HonestLog(m) && m.w.job.Collected? && Orders(order, m.w.job.batch) && Enabled(m.w, st)
    requires out <= Expand(m.w.store, m.w.job.batch, order) && r in m.wal + out && r.Expiry?
    ensures Remembers(Next(m.w, st), r.key, r.meta)
  {
    if r !in m.wal {
      ExpandedExpiry(m.w.store, m.w.job.batch, order, r);
      CurrentIsRemembered(m.w, r.key);
    }
    RemembersStep(m.w, st, r.key, r.meta);
  }

  lemma HonestAction(m: Machine, a: Action)
    requires Sound(m) && Allowed(m, a) && HonestLog(m)
    ensures HonestLog(Do(m, a))
  {
    var n := Do(m, a);
    forall r | r in n.wal && r.Expiry? ensures Remembers(n.w, r.key, r.meta) {
      match a
      case Act(st) => RemembersStep(m.w, st, r.key, r.meta);
      case AcceptBatch(order) =>
        HonestAppend(m, order, Expand(m.w.store, m.w.job.batch, order), AcceptStep, r);
      case RejectBatch(order, written, marked) =>
        var out := Expand(m.w.store, m.w.job.batch, order)[..written];
        LandedIsEnabled(m.w, order, written, marked);
        HonestAppend(m, order, out, RejectStep(ObjectKeys(out), marked), r);
      case _ =>
    }
  }

  lemma {:induction false} HonestRun(m: Machine, acts: seq<Action>)
    requires Sound(m) && Performs(m, acts) && HonestLog(m)
    ensures HonestLog(Perform(m, acts))
    decreases |acts|
  {
    if acts != [] {
      HonestAction(m, acts[0]);
      DoKeeps(m, acts[0]);
      HonestRun(Do(m, acts[0]), acts[1..]);
    }
  }

  lemma {:induction false} FoldedExpiry(log: seq<LogRecord>, k: Key, lsn: nat)
    ensures var st := Fold(log, k, lsn);
      st.expiry.Some? ==> exists r :: r in log && r.Expiry? && r.key == k && r.meta == st.expiry.value
  {
    if log != [] {
      var front, last := log[..|log| - 1], log[|log| - 1];
      FoldedExpiry(front, k, lsn);
      assert last in log;
      if Fold(front, k, lsn).expiry.Some? {
        var r :| r in front && r.Expiry? && r.key == k && r.meta == Fold(front, k, lsn).expiry.value;
        assert r in log;
      }
    }
  }

  /** The exact condition in every run: a live key is collected after any run `acts`, any `steps`
      come between the collect and the backend call, and then its record is logged. */
  lemma LoggedExpiryAfterAnyRun(acts: seq<Action>, steps: seq<Step>, k: Key)
    requires Sound(BOOT) && Performs(BOOT, acts)
    requires var m := Perform(BOOT, acts);
      Runs(m.w, steps) && Live(m.w.store, k) && m.w.store.meta[k].stamp.version > Latest(m.ckpts).lsn
    ensures k in Perform(BOOT, acts).w.store.values
    ensures var m := Perform(BOOT, acts); var own, s := m.w.store.meta[k].stamp, Run(m.w, steps).store;
      var st := Fold(m.wal, k, Latest(m.ckpts).lsn);
      var out := OutcomeOf(Fold(m.wal + RecordsFor(s, k, RecordFor(m.w.store, k)), k, Latest(m.ckpts).lsn));
      && out.Loaded? && out.cell.value == m.w.store.values[k] && out.cell.stamp.version == own.version
      && (SameExpiry(out.cell.stamp, own) <==>
            || (own.expiresAt == 0 && own.ttiTicks == 0)
            || (if Live(s, k) then s.meta[k].stamp.version == own.version
                else st.expiry.Some? && st.expiry.value.version == own.version))
  {
    HonestRun(BOOT, acts);
    LoggedExpiryOf(Perform(BOOT, acts), steps, k);
  }

  lemma LoggedExpiryOf(m: Machine, steps: seq<Step>, k: Key)
    requires Sound(m) && HonestLog(m) && Runs(m.w, steps)
    requires Live(m.w.store, k) && m.w.store.meta[k].stamp.version > Latest(m.ckpts).lsn
    ensures k in m.w.store.values
    ensures var own, s := m.w.store.meta[k].stamp, Run(m.w, steps).store;
      var st := Fold(m.wal, k, Latest(m.ckpts).lsn);
      var out := OutcomeOf(Fold(m.wal + RecordsFor(s, k, RecordFor(m.w.store, k)), k, Latest(m.ckpts).lsn));
      && out.Loaded? && out.cell.value == m.w.store.values[k] && out.cell.stamp.version == own.version
      && (SameExpiry(out.cell.stamp, own) <==>
            || (own.expiresAt == 0 && own.ttiTicks == 0)
            || (if Live(s, k) then s.meta[k].stamp.version == own.version
                else st.expiry.Some? && st.expiry.value.version == own.version))
  {
    var own, lsn, s := m.w.store.meta[k].stamp, Latest(m.ckpts).lsn, Run(m.w, steps).store;
    LoggedStamps(m, steps, k);
    FoldOfConcat(NOTHING, m.wal, RecordsFor(s, k, RecordFor(m.w.store, k)), k, lsn);
    LoggedExpirySurvives(Fold(m.wal, k, lsn), m.w.store, s, k, lsn);
  }

  lemma LoggedStamps(m: Machine, steps: seq<Step>, k: Key)
    requires Sound(m) && HonestLog(m) && Runs(m.w, steps) && Live(m.w.store, k)
    ensures k in m.w.store.values
    ensures var own, s, st := m.w.store.meta[k].stamp, Run(m.w, steps).store, Fold(m.wal, k, Latest(m.ckpts).lsn);
      && (Live(s, k) && s.meta[k].stamp.version == own.version ==> SameExpiry(s.meta[k].stamp, own))
      && (st.expiry.Some? && st.expiry.value.version == own.version ==> SameExpiry(st.expiry.value, own))
  {
    assert KeyInv(m.w, k);
    CurrentIsRemembered(m.w, k);
    VersionKeepsExpiry(m.w, steps, k, m.w.store.meta[k].stamp);
    assert KeyInv(Run(m.w, steps), k);
    FoldedExpiry(m.wal, k, Latest(m.ckpts).lsn);
  }

  // ----- Recovery turns the clock back -----

  /** The flush of a single dirty put, as three actions of the machine. */
  lemma FlushingOne(m: Machine, e: DirtyEntry)
    requires Sound(m) && m.phase.Ready? && m.w.job.Idle? && m.w.store.dirty == multiset{e}
    requires Flushable(m.w.store, 0, e) && e.op == Put
    ensures var a, b, c := Act(CollectStep([e], 0)), AcceptBatch([e.key]), Act(CommitStep);
      && Allowed(m, a) && Sound(Do(m, a)) && Allowed(Do(m, a), b) && Sound(Do(Do(m, a), b))
      && Allowed(Do(Do(m, a), b), c) && Sound(Do(Do(Do(m, a), b), c))
      && var n := Do(Do(Do(m, a), b), c);
      && n.w == FlushRound(m.w, [e]) && n.phase.Ready? && n.ckpts == m.ckpts
      && n.wal == m.wal + RecordsFor(m.w.store, e.key, RecordFor(m.w.store, e.key))
  {
    assert multiset([e]) == multiset{e};
    Acting(m, CollectStep([e], 0));
    OneRecordBatch(m.w, e);
    var x := Do(m, Act(CollectStep([e], 0)));
    Accepting(x, e.key);
    Acting(Do(x, AcceptBatch([e.key])), CommitStep);
  }

  lemma Acting(m: Machine, st: Step)
    requires Sound(m) && m.phase.Ready? && Enabled(m.w, st) && !BackendCall(st)
    ensures Allowed(m, Act(st)) && Sound(Do(m, Act(st)))
    ensures var n := Do(m, Act(st)); n.w == Next(m.w, st) && n.phase.Ready? && n.ckpts == m.ckpts && n.wal == m.wal
  {
    DoKeeps(m, Act(st));
  }

  lemma Accepting(m: Machine, k: Key)
    requires Sound(m) && m.phase.Ready? && m.w.job.Collected? && m.w.job.batch.Keys == {k}
    ensures Allowed(m, AcceptBatch([k])) && Sound(Do(m, AcceptBatch([k])))
    ensures var n := Do(m, AcceptBatch([k]));
      && n.w == Next(m.w, AcceptStep) && n.phase.Ready? && n.ckpts == m.ckpts
      && n.wal == m.wal + Expand(m.w.store, m.w.job.batch, [k])
  {
    DoKeeps(m, AcceptBatch([k]));
  }

  lemma OneRecordBatch(w: World, e: DirtyEntry)
    requires w.job.Idle? && w.store.dirty == multiset{e} && Flushable(w.store, 0, e) && e.op == Put
    requires Enabled(w, CollectStep([e], 0))
    ensures var x := Next(w, CollectStep([e], 0));
      && x.job.Collected? && x.job.batch == map[e.key := RecordFor(w.store, e.key)]
      && Expand(x.store, x.job.batch, [e.key]) == RecordsFor(w.store, e.key, RecordFor(w.store, e.key))
  {
    OneFlushable(w.store, e);
    var x := Next(w, CollectStep([e], 0));
    assert x.job.batch == map[e.key := RecordFor(w.store, e.key)];
    assert Expand(x.store, x.job.batch, [e.key][1..]) == [];
  }

  lemma PerformThree(m: Machine, a: Action, b: Action, c: Action, rest: seq<Action>)
    requires Sound(m) && Allowed(m, a) && Sound(Do(m, a)) && Allowed(Do(m, a), b) && Sound(Do(Do(m, a), b))
    requires Allowed(Do(Do(m, a), b), c) && Sound(Do(Do(Do(m, a), b), c)) && Performs(Do(Do(Do(m, a), b), c), rest)
    ensures Performs(m, [a] + ([b] + ([c] + rest)))
    ensures Perform(m, [a] + ([b] + ([c] + rest))) == Perform(Do(Do(Do(m, a), b), c), rest)
  {
    PerformCons(Do(Do(m, a), b), c, rest);
    PerformCons(Do(m, a), b, [c] + rest);
    PerformCons(m, a, [b] + ([c] + rest));
  }

  const OTHER: Key := [2]

  /** One key with its deadline at tick three, written at tick one. */
  const DATED := Store(map[KEY := TEXT], map[KEY := Meta(ExpiryMeta(1, 1, 3, 0), false)], multiset{}, 2, 1)

  lemma DatedPut()
    ensures Next(INITIAL, PutStep(KEY, TEXT, 2, 0)).store == DATED.(dirty := multiset{DirtyEntry(KEY, 1, Put)})
  {
  }

  lemma DatedFlush(w: World)
    requires w.job.Idle? && w.store == DATED.(dirty := multiset{DirtyEntry(KEY, 1, Put)}) && w.cold == EMPTY_COLD
    ensures Enabled(w, CollectStep([DirtyEntry(KEY, 1, Put)], 0))
    ensures var x := FlushRound(w, [DirtyEntry(KEY, 1, Put)]); x.store == DATED && x.cold == EMPTY_COLD && x.job.Idle?
  {
    var e := DirtyEntry(KEY, 1, Put);
    RoundOfOne(w, e);
    PutRoundLeavesCold(w, e);
    assert FlushRound(w, [e]).store == DATED;
  }

  lemma DatedLapses(w: World)
    requires Inv(w) && w.job.Idle? && w.store == DATED && w.cold == EMPTY_COLD
    ensures var x := Next(w, DeleteStep(OTHER));
      && RefLapsed(x, KEY) && !KeyPending(x, KEY) && x.cold == EMPTY_COLD
      && ReadThrough(x.store, x.cold, KEY).1 == None
  {
    assert KeyInv(w, KEY);
    StepKeeps(w, DeleteStep(OTHER));
    DueIsAbsent(Next(w, DeleteStep(OTHER)), KEY);
  }

  lemma DatedRecovers(s: Store)
    requires s == DATED.(dirty := multiset{DirtyEntry(KEY, 1, Put)})
    ensures Recovers(Checkpoint(0, map[]), RecordsFor(s, KEY, RecordFor(s, KEY)), DATED)
    ensures ReadThrough(DATED, EMPTY_COLD, KEY).1 == Some(TEXT)
  {
    var ck, rec := Checkpoint(0, map[]), RecordFor(s, KEY);
    var log := RecordsFor(s, KEY, rec);
    forall k ensures Fold(log, k, 0) == if k == KEY then AfterRecord(NOTHING, s, KEY, rec, 0) else NOTHING {
      FoldOfRecordsFor(NOTHING, s, KEY, rec, k, 0);
    }
    assert OutcomeOf(Fold(log, KEY, 0)) == Loaded(Cell(TEXT, ExpiryMeta(1, 1, 3, 0)));
    assert AllBelow(ck, log, 2);
    assert !OutcomeBelow(OutcomeOf(Fold(log, KEY, 0)), 1);
  }

  /** A concrete run: put with a deadline, flush, sync, and then an unflushed delete of another
      key, which moves the clock to the deadline. The key reads as absent before the crash; the
      recovered clock is behind the deadline, and the value is back. */
  lemma DeadlinePassesTwice() returns (acts: seq<Action>, r: Store)
    ensures Sound(BOOT) && Performs(BOOT, acts)
    ensures var m := Perform(BOOT, acts);
      && m.synced == |m.wal| && Durable(m, KEY) && Recovers(Latest(m.ckpts), m.wal, r)
      && RefLapsed(m.w, KEY) && ReadThrough(m.w.store, m.w.cold, KEY).1 == None
      && ReadThrough(r, m.w.cold, KEY).1 == Some(TEXT)
  {
    BootIsSound();
    DatedPut();
    var put := Act(PutStep(KEY, TEXT, 2, 0));
    DoKeeps(BOOT, put);
    acts, r := DatedRun(Do(BOOT, put));
    PerformCons(BOOT, put, acts);
    acts := [put] + acts;
  }

  lemma DatedRun(m: Machine) returns (acts: seq<Action>, r: Store)
    requires Sound(m) && m.phase.Ready? && m.w.job.Idle? && m.wal == [] && m.ckpts == [] && m.w.cold == EMPTY_COLD
    requires m.w.store == DATED.(dirty := multiset{DirtyEntry(KEY, 1, Put)})
    ensures Performs(m, acts)
    ensures var n := Perform(m, acts);
      && n.synced == |n.wal| && Durable(n, KEY) && Recovers(Latest(n.ckpts), n.wal, r)
      && RefLapsed(n.w, KEY) && ReadThrough(n.w.store, n.w.cold, KEY).1 == None
      && ReadThrough(r, n.w.cold, KEY).1 == Some(TEXT)
  {
    DatedRecovers(m.w.store);
    acts := FlushSyncAndDelete(m);
    r := DATED;
  }

  lemma FlushSyncAndDelete(m: Machine) returns (acts: seq<Action>)
    requires Sound(m) && m.phase.Ready? && m.w.job.Idle? && m.wal == [] && m.ckpts == [] && m.w.cold == EMPTY_COLD
    requires m.w.store == DATED.(dirty := multiset{DirtyEntry(KEY, 1, Put)})
    ensures Performs(m, acts)
    ensures var p := Perform(m, acts);
      && p.synced == |p.wal| && p.wal == RecordsFor(m.w.store, KEY, RecordFor(m.w.store, KEY)) && p.ckpts == []
      && Durable(p, KEY) && p.w.cold == EMPTY_COLD
      && RefLapsed(p.w, KEY) && ReadThrough(p.w.store, p.w.cold, KEY).1 == None
  {
    var e := DirtyEntry(KEY, 1, Put);
    FlushingOne(m, e);
    DatedFlush(m.w);
    var a, b, c := Act(CollectStep([e], 0)), AcceptBatch([KEY]), Act(CommitStep);
    var tail := SyncAndDelete(Do(Do(Do(m, a), b), c));
    PerformThree(m, a, b, c, tail);
    acts := [a] + ([b] + ([c] + tail));
  }

  lemma SyncAndDelete(n: Machine) returns (acts: seq<Action>)
    requires Sound(n) && n.phase.Ready? && n.w.job.Idle? && n.w.store == DATED && n.w.cold == EMPTY_COLD
    ensures Performs(n, acts)
    ensures var p := Perform(n, acts);
      && p.synced == |p.wal| && p.wal == n.wal && p.ckpts == n.ckpts && Durable(p, KEY) && p.w.cold == EMPTY_COLD
      && RefLapsed(p.w, KEY) && ReadThrough(p.w.store, p.w.cold, KEY).1 == None
  {
    var del := Act(DeleteStep(OTHER));
    DoKeeps(n, Sync);
    DoKeeps(Do(n, Sync), del);
    DatedLapses(n.w);
    PerformOne(Do(n, Sync), del);
    PerformCons(n, Sync, [del]);
    acts := [Sync] + [del];
  }

  // ----- An expired key is dropped from the checkpoint without a tombstone -----

  const CHECKPOINTING := [TakeSnapshot, InstallCheckpoint, TruncateLog]

  /** The copy has lapsed by the time a recovered store would promote it: at the clock that
      promotion itself moves to, or at the clock that loading the snapshot moves to. */
  ghost predicate EndsByRecovery(s: Store, c: Cell) {
    var cells := SnapshotOf(s).cells;
    Lapsed(c.stamp, After(c.stamp)) || exists j :: j in cells && Lapsed(c.stamp, After(cells[j].stamp))
  }

  /** After a checkpoint with nothing logged since, the recovered clock is the snapshot's. */
  lemma RecoveredClock(ck: Checkpoint, r: Store)
    requires Recovers(ck, [], r)
    ensures forall j :: j in ck.cells ==> After(ck.cells[j].stamp) <= r.clock
    ensures r.clock == 1 || exists j :: j in ck.cells && After(ck.cells[j].stamp) == r.clock
  {
    if r.clock > 1 {
      assert !AllBelow(ck, [], r.clock - 1);
      var j :| j in ck.cells && !StampBelow(ck.cells[j].stamp, r.clock - 1);
      assert After(ck.cells[j].stamp) == r.clock;
    }
  }

  lemma LapsesWhenPromoted(s: Store, r: Store, c: Cell)
    requires Recovers(SnapshotOf(s), [], r)
    ensures Lapsed(c.stamp, Max(r.clock, After(c.stamp))) <==> EndsByRecovery(s, c)
  {
    RecoveredClock(SnapshotOf(s), r);
  }

  lemma DroppedFromSnapshot(s: Store, r: Store, cold: Cold, k: Key)
    requires DueToExpire(s, k) && Recovers(SnapshotOf(s), [], r)
    ensures ReadThrough(r, cold, k).1 == None <==> (Lookup(cold, k).None? || EndsByRecovery(s, Lookup(cold, k).value))
  {
    RereadIs(SnapshotOf(s), [], r, cold, k);
    if Lookup(cold, k).Some? {
      LapsesWhenPromoted(s, r, Lookup(cold, k).value);
    }
  }

  lemma DueIsAbsent(w: World, k: Key)
    requires Inv(w) && DueToExpire(w.store, k)
    ensures ReadThrough(w.store, w.cold, k).1 == None
  {
    ReadAnswers(w, k);
    assert KeyInv(w, k);
  }

  /** A key that has expired in memory but was never read again leaves no tombstone. After a
      checkpoint and a crash it still reads as absent exactly when the cold tier has no older
      copy, or the copy ends by the time recovery would promote it. */
  lemma ExpiredKeyAfterCheckpoint(m: Machine, r: Store, k: Key)
    requires Sound(m) && m.phase.Ready? && m.w.job.Idle? && m.synced == |m.wal|
    requires DueToExpire(m.w.store, k)
    ensures Performs(m, CHECKPOINTING)
    ensures var n := Perform(m, CHECKPOINTING);
      Recovers(Latest(n.ckpts), n.wal, r) ==>
        && ReadThrough(m.w.store, m.w.cold, k).1 == None
        && (ReadThrough(r, n.w.cold, k).1 == None <==>
              (Lookup(m.w.cold, k).None? || EndsByRecovery(m.w.store, Lookup(m.w.cold, k).value)))
  {
    CheckpointingReaches(m);
    DueIsAbsent(m.w, k);
    if Recovers(SnapshotOf(m.w.store), [], r) {
      DroppedFromSnapshot(m.w.store, r, m.w.cold, k);
    }
  }

  /** Any run of the world without backend failures, then a sync and a checkpoint. */
  lemma {:induction false} RunThenCheckpoint(m: Machine, steps: seq<Step>) returns (acts: seq<Action>)
    requires Sound(m) && m.phase.Ready? && Runs(m.w, steps) && Run(m.w, steps).job.Idle?
    requires forall st :: st in steps ==> !st.RejectStep?
    ensures Performs(m, acts)
    ensures var n := Perform(m, acts);
      n.w == Run(m.w, steps) && n.wal == [] && n.phase.Ready? && Latest(n.ckpts) == SnapshotOf(n.w.store)
    decreases |steps|
  {
    if steps == [] {
      DoKeeps(m, Sync);
      CheckpointingReaches(Do(m, Sync));
      acts := [Sync] + CHECKPOINTING;
      PerformCons(m, Sync, CHECKPOINTING);
    } else {
      assert steps[0] in steps;
      var a := SomeAction(m, steps[0]);
      DoKeeps(m, a);
      var rest := RunThenCheckpoint(Do(m, a), steps[1..]);
      acts := [a] + rest;
      PerformCons(m, a, rest);
    }
  }

  /** A concrete run: put, flush, demote, put with a deadline, flush, sync, checkpoint. The key
      reads as absent before the crash, and as its older value after it. */
  lemma ExpiredKeyComesBack() returns (acts: seq<Action>, r: Store)
    ensures Sound(BOOT) && Performs(BOOT, acts)
    ensures var m := Perform(BOOT, acts);
      && m.phase.Ready? && m.wal == [] && Recovers(Latest(m.ckpts), m.wal, r)
      && ReadThrough(m.w.store, m.w.cold, KEY).1 == None
      && ReadThrough(r, m.w.cold, KEY).1 == Some(TEXT)
  {
    BootIsSound();
    ExpiredIsReachable();
    NothingFails();
    acts := RunThenCheckpoint(BOOT, ExpiredSteps());
    r := EMPTY_STORE;
    EmptySnapshot(Run(INITIAL, ExpiredSteps()).store);
    ExpiredReads(Run(INITIAL, ExpiredSteps()));
  }

  lemma ExpiredReads(z: World)
    requires Lookup(z.cold, KEY) == Some(Cell(TEXT, ExpiryMeta(1, 1, 0, 0)))
    requires z.store == Store(map[KEY := NEWER], map[KEY := Meta(ExpiryMeta(2, 2, 3, 0), false)], multiset{}, 3, 2)
    ensures ReadThrough(z.store, z.cold, KEY).1 == None && ReadThrough(EMPTY_STORE, z.cold, KEY).1 == Some(TEXT)
  {
  }

  lemma EmptySnapshot(s: Store)
    requires s == Store(map[KEY := NEWER], map[KEY := Meta(ExpiryMeta(2, 2, 3, 0), false)], multiset{}, 3, 2)
    ensures SnapshotOf(s) == Checkpoint(2, map[]) && Recovers(SnapshotOf(s), [], EMPTY_STORE)
  {
    assert SnapshotOf(s).cells == map[];
    assert AllBelow(Checkpoint(2, map[]), [], 1);
  }

  lemma Snapshotting(m: Machine)
    requires Sound(m) && m.phase.Ready? && m.w.job.Idle? && m.synced == |m.wal|
    ensures Allowed(m, TakeSnapshot) && Sound(Do(m, TakeSnapshot))
    ensures Do(m, TakeSnapshot) == m.(phase := Snapshotted(SnapshotOf(m.w.store)))
  {
    DoKeeps(m, TakeSnapshot);
  }

  lemma InstallingIt(m: Machine, ck: Checkpoint)
    requires Sound(m) && m.phase == Snapshotted(ck)
    ensures Allowed(m, InstallCheckpoint) && Sound(Do(m, InstallCheckpoint))
    ensures var n := Do(m, InstallCheckpoint); n == m.(ckpts := n.ckpts, phase := Installed(ck)) && Latest(n.ckpts) == ck
  {
    DoKeeps(m, InstallCheckpoint);
  }

  lemma Truncating(m: Machine)
    requires Sound(m) && m.phase.Installed?
    ensures Allowed(m, TruncateLog) && Sound(Do(m, TruncateLog))
    ensures Do(m, TruncateLog) == m.(wal := [], synced := 0, phase := Ready)
  {
    DoKeeps(m, TruncateLog);
  }

  lemma PerformOne(m: Machine, a: Action)
    requires Sound(m) && Allowed(m, a) && Sound(Do(m, a))
    ensures Performs(m, [a]) && Perform(m, [a]) == Do(m, a)
  {
    PerformCons(m, a, []);
    assert [a] + [] == [a];
  }

  lemma CheckpointingReaches(m: Machine)
    requires Sound(m) && m.phase.Ready? && m.w.job.Idle? && m.synced == |m.wal|
    ensures Performs(m, CHECKPOINTING)
    ensures var n := Perform(m, CHECKPOINTING);
      n.w == m.w && n.wal == [] && n.phase.Ready? && Latest(n.ckpts) == SnapshotOf(m.w.store)
  {
    Snapshotting(m);
    var a := Do(m, TakeSnapshot);
    InstallingIt(a, SnapshotOf(m.w.store));
    var b := Do(a, InstallCheckpoint);
    Truncating(b);
    PerformOne(b, TruncateLog);
    PerformCons(a, InstallCheckpoint, [TruncateLog]);
    PerformCons(m, TakeSnapshot, [InstallCheckpoint] + [TruncateLog]);
    assert CHECKPOINTING == [TakeSnapshot] + ([InstallCheckpoint] + [TruncateLog]);
  }
}
