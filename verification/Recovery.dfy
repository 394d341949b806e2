/** Recovery: what a crash at any point gives back, and exactly when it does not. */
module Recovery {
  import opened Types
  import opened ObjectStore
  import opened ColdTier
  import opened World
  import opened WorldSteps
  import opened WorldFrame
  import opened Log
  import opened Durability

  // ----- What `recover` builds -----

  /** The cell recovery loads for a key: the checkpoint's, overridden by the log above its LSN. */
  function Recovered(ck: Checkpoint, log: seq<LogRecord>, k: Key): Option<Cell> {
    match OutcomeOf(Fold(log, k, ck.lsn))
    case Untouched => if k in ck.cells then Some(ck.cells[k]) else None
    case Gone(_) => None
    case Loaded(c) => Some(c)
  }

  predicate StampBelow(e: ExpiryMeta, n: nat) {
    e.version < n && e.lastTouch < n
  }

  predicate OutcomeBelow(o: Outcome, n: nat) {
    match o
    case Untouched => true
    case Gone(version) => version < n
    case Loaded(c) => StampBelow(c.stamp, n)
  }

  /** Every version and touch that recovery loads is below `n`. */
  ghost predicate AllBelow(ck: Checkpoint, log: seq<LogRecord>, n: nat) {
    && (forall k :: k in ck.cells ==> StampBelow(ck.cells[k].stamp, n))
    && (forall k :: OutcomeBelow(OutcomeOf(Fold(log, k, ck.lsn)), n))
  }

  /** `r` is the store recovery returns: the recovered cells, nothing dirty, and the least clock
      (from one) above every loaded version and touch. */
  ghost predicate Recovers(ck: Checkpoint, log: seq<LogRecord>, r: Store) {
    && r.dirty == multiset{}
    && (forall k :: k in r.values <==> Recovered(ck, log, k).Some?)
    && (forall k :: k in r.meta <==> Recovered(ck, log, k).Some?)
    && (forall k :: k in r.meta ==>
          r.values[k] == Recovered(ck, log, k).value.value && r.meta[k] == Meta(Recovered(ck, log, k).value.stamp, false))
    && 1 <= r.clock && AllBelow(ck, log, r.clock)
    && (forall n :: 1 <= n && AllBelow(ck, log, n) ==> r.clock <= n)
  }

  // ----- Runs of the machine -----

  ghost predicate Performs(m: Machine, acts: seq<Action>)
    requires Sound(m)
    decreases |acts|
  {
    acts == [] || (Allowed(m, acts[0]) && (DoKeeps(m, acts[0]); Performs(Do(m, acts[0]), acts[1..])))
  }

  ghost function Perform(m: Machine, acts: seq<Action>): (n: Machine)
    requires Sound(m) && Performs(m, acts)
    ensures Sound(n)
    decreases |acts|
  {
    if acts == [] then m
    else
      DoKeeps(m, acts[0]);
      Perform(Do(m, acts[0]), acts[1..])
  }

  lemma PerformCons(m: Machine, a: Action, rest: seq<Action>)
    requires Sound(m) && Allowed(m, a) && Sound(Do(m, a)) && Performs(Do(m, a), rest)
    ensures Performs(m, [a] + rest) && Perform(m, [a] + rest) == Perform(Do(m, a), rest)
  {
    assert ([a] + rest)[1..] == rest;
  }

  lemma {:induction false} SomeOrder(keys: set<Key>) returns (order: seq<Key>)
    ensures Distinct(order) && forall k :: k in order <==> k in keys
  {
    if keys == {} {
      order := [];
    } else {
      var k :| k in keys;
      var rest := SomeOrder(keys - {k});
      order := [k] + rest;
    }
  }

  /** The action that carries out a step of the world, with a batch appended in some order. */
  lemma SomeAction(m: Machine, st: Step) returns (a: Action)
    requires Sound(m) && m.phase.Ready? && Enabled(m.w, st) && !st.RejectStep?
    ensures Allowed(m, a)
    ensures var n := Do(m, a); n.w == Next(m.w, st) && n.phase.Ready? && n.ckpts == m.ckpts
  {
    if st.AcceptStep? {
      var order := SomeOrder(m.w.job.batch.Keys);
      a := AcceptBatch(order);
    } else {
      a := Act(st);
    }
  }

  // ----- The recovery theorem -----

  /** The key's latest mutation was accepted, and no record of the key is waiting for a sync. */
  ghost predicate Durable(m: Machine, k: Key)
    requires m.synced <= |m.wal|
  {
    !KeyPending(m.w, k) && forall r :: r in m.wal[m.synced..] ==> r.key != k
  }

  lemma {:induction false} FoldBelow(log: seq<LogRecord>, k: Key, lsn: nat, s: Store)
    requires (forall r :: r in log ==> Below(r, s)) && s.writeClock < s.clock
    ensures OutcomeBelow(OutcomeOf(Fold(log, k, lsn)), s.clock)
    ensures Fold(log, k, lsn).obj.Some? ==> Fold(log, k, lsn).obj.value.version < s.clock
    ensures Fold(log, k, lsn).expiry.Some? ==> StampBelow(Fold(log, k, lsn).expiry.value, s.clock)
  {
    if log != [] {
      assert log[|log| - 1] in log;
      FoldBelow(log[..|log| - 1], k, lsn, s);
    }
  }

  /** The recovered clock never runs ahead of the clock at the crash. */
  lemma ClockStaysBehind(m: Machine, cut: nat, r: Store)
    requires Sound(m) && cut <= |m.wal| && Recovers(Latest(m.ckpts), m.wal[..cut], r)
    ensures r.clock <= m.w.store.clock
  {
    var ck, log, s := Latest(m.ckpts), m.wal[..cut], m.w.store;
    assert KeyInv(m.w, []);
    forall k ensures OutcomeBelow(OutcomeOf(Fold(log, k, ck.lsn)), s.clock) {
      FoldBelow(log, k, ck.lsn, s);
    }
    forall k | k in ck.cells ensures StampBelow(ck.cells[k].stamp, s.clock) {
      assert Covers(m.w, ck, m.demoted, k);
    }
    assert AllBelow(ck, log, s.clock);
  }

  lemma TailIsSilent(m: Machine, cut: nat, k: Key, lsn: nat)
    requires m.synced <= cut <= |m.wal| && Durable(m, k)
    ensures Fold(m.wal[..cut], k, lsn) == Fold(m.wal, k, lsn)
  {
    var a, b := m.wal[..cut], m.wal[cut..];
    assert m.wal == a + b;
    forall r | r in b ensures r.key != k {
      assert r in m.wal[m.synced..];
    }
    FoldOfConcat(NOTHING, a, b, k, lsn);
    FoldOfSilent(Fold(a, k, lsn), b, k, lsn);
  }

  /** For a settled key, whatever recovery loads is the key's data; a deleted key is nowhere. */
  lemma RecoveredData(m: Machine, k: Key)
    requires Sound(m) && !KeyPending(m.w, k)
    ensures var c := Recovered(Latest(m.ckpts), m.wal, k);
      if k in m.w.ref then
        c.Some? ==> c.value.stamp.version == m.w.ref[k].stamp.version && SameData(c.value, m.w.ref[k])
      else c.None? && Lookup(m.w.cold, k).None?
  {
    var ck := Latest(m.ckpts);
    assert KeyInv(m.w, k) && Covers(m.w, ck, m.demoted, k) && LogHolds(m.w, m.wal, ck.lsn, k);
    LookupIsACopy(m.w.cold.gens, m.w.cold.tombs, k);
  }

  /** If recovery loads nothing for an unexpired key without a time-to-idle, the cold tier has it. */
  lemma UnloadedIsCold(m: Machine, k: Key)
    requires Sound(m) && !KeyPending(m.w, k) && k in m.w.ref && Recovered(Latest(m.ckpts), m.wal, k).None?
    requires !RefLapsed(m.w, k) && m.w.ref[k].stamp.ttiTicks == 0
    ensures HasCopy(m.w, k)
  {
    var ck := Latest(m.ckpts);
    assert KeyInv(m.w, k) && Covers(m.w, ck, m.demoted, k) && LogHolds(m.w, m.wal, ck.lsn, k);
  }

  // ----- What a read shows after a crash -----

  /** Recovery, and promotion, move the clock past a stamp they load. */
  function After(e: ExpiryMeta): nat {
    Max(e.version, e.lastTouch) + 1
  }

  /** What a read at clock `now` shows of a key that was loaded as `c`, or else has the copy
      `cold`: promotion may itself move the clock past the copy's end. */
  function Reread(c: Option<Cell>, cold: Option<Cell>, now: nat): Option<Value> {
    match c
    case Some(x) => if Lapsed(x.stamp, now) then None else Some(x.value)
    case None =>
      if ShownCold(cold, now) then Some(cold.value.value) else None
  }

  lemma RereadLoaded(r: Store, cold: Cold, k: Key)
    requires Live(r, k) && k in r.values
    ensures ReadThrough(r, cold, k).1 == Reread(Some(HotCell(r, k)), None, r.clock)
  {
  }

  lemma RereadCold(r: Store, cold: Cold, k: Key)
    requires k !in r.meta && k !in r.values
    ensures ReadThrough(r, cold, k).1 == Reread(None, Lookup(cold, k), r.clock)
  {
  }

  /** After any crash, of any key: the checkpoint's cell overridden by the log, else the cold
      copy, each judged at the recovered clock. */
  lemma RereadIs(ck: Checkpoint, log: seq<LogRecord>, r: Store, cold: Cold, k: Key)
    requires Recovers(ck, log, r)
    ensures ReadThrough(r, cold, k).1 == Reread(Recovered(ck, log, k), Lookup(cold, k), r.clock)
  {
    if Recovered(ck, log, k).Some? {
      RereadLoaded(r, cold, k);
    } else {
      RereadCold(r, cold, k);
    }
  }

  /** The copy is there, and promoting it at clock `now` does not find it ended. */
  predicate ShownCold(cold: Option<Cell>, now: nat) {
    cold.Some? && !Lapsed(cold.value.stamp, Max(now, After(cold.value.stamp)))
  }

  /** The exact condition for a durable key to read after the crash as before it. A key that
      recovery loads must be expired at the recovered clock exactly if it was expired before; one
      that it does not load must be shown by the cold tier, with its value, exactly if it was not
      expired before. */
  predicate SameAfterCrash(w: World, k: Key, c: Option<Cell>, now: nat) {
    k in w.ref ==>
      match c
      case Some(x) => Lapsed(x.stamp, now) <==> RefLapsed(w, k)
      case None =>
        if RefLapsed(w, k) then !ShownCold(Lookup(w.cold, k), now)
        else ShownCold(Lookup(w.cold, k), now) && Lookup(w.cold, k).value.value == w.ref[k].value
  }

  predicate SameRead(r: Store, w: World, k: Key) {
    ReadThrough(r, w.cold, k).1 == ReadThrough(w.store, w.cold, k).1
  }

  /** Deleted, or unexpired and without a time-to-idle. */
  predicate Timeless(w: World, k: Key) {
    k in w.ref ==> !RefLapsed(w, k) && w.ref[k].stamp.ttiTicks == 0
  }

  /** No deadline passes by going back in time, and without a time-to-idle nothing else ends. */
  lemma TimelessSurvives(m: Machine, cut: nat, r: Store, k: Key)
    requires Sound(m) && m.synced <= cut <= |m.wal| && Durable(m, k)
    requires Recovers(Latest(m.ckpts), m.wal[..cut], r)
    requires Timeless(m.w, k)
    ensures SameAfterCrash(m.w, k, Recovered(Latest(m.ckpts), m.wal[..cut], k), r.clock)
  {
    TailIsSilent(m, cut, k, Latest(m.ckpts).lsn);
    RecoveredData(m, k);
    ClockStaysBehind(m, cut, r);
    if k in m.w.ref && Recovered(Latest(m.ckpts), m.wal, k).None? {
      UnloadedIsCold(m, k);
      CopyStamps(m.w, k);
    }
  }

  /** After any run, and a crash that keeps any part of the log from its synced prefix on, every
      key whose latest mutation was accepted and synced reads, through the recovered store and
      the cold tier, exactly as it did before the crash if and only if `SameAfterCrash`. That is
      so for every deleted key and for every unexpired key without a time-to-idle. */
  lemma CrashKeepsReads(m: Machine, cut: nat, r: Store, k: Key)
    requires Sound(m) && m.synced <= cut <= |m.wal| && Durable(m, k)
    requires Recovers(Latest(m.ckpts), m.wal[..cut], r)
    ensures SameRead(r, m.w, k) <==> SameAfterCrash(m.w, k, Recovered(Latest(m.ckpts), m.wal[..cut], k), r.clock)
    ensures Timeless(m.w, k) ==> SameRead(r, m.w, k)
  {
    RereadMatches(m, cut, r, k);
    if Timeless(m.w, k) {
      TimelessSurvives(m, cut, r, k);
    }
  }

  lemma RereadMatches(m: Machine, cut: nat, r: Store, k: Key)
    requires Sound(m) && m.synced <= cut <= |m.wal| && Durable(m, k)
    requires Recovers(Latest(m.ckpts), m.wal[..cut], r)
    ensures SameRead(r, m.w, k) <==> SameAfterCrash(m.w, k, Recovered(Latest(m.ckpts), m.wal[..cut], k), r.clock)
  {
    var ck := Latest(m.ckpts);
    TailIsSilent(m, cut, k, ck.lsn);
    RecoveredData(m, k);
    RereadIs(ck, m.wal[..cut], r, m.w.cold, k);
    ReadAnswers(m.w, k);
  }

  lemma CopyStamps(w: World, k: Key)
    requires Inv(w) && Lookup(w.cold, k).Some?
    ensures StampBelow(Lookup(w.cold, k).value.stamp, w.store.clock)
  {
    assert KeyInv(w, k);
    LookupIsACopy(w.cold.gens, w.cold.tombs, k);
  }

  lemma CrashAfterAnyRun(acts: seq<Action>, cut: nat, r: Store, k: Key)
    requires Sound(BOOT) && Performs(BOOT, acts)
    requires var m := Perform(BOOT, acts);
      m.synced <= cut <= |m.wal| && Durable(m, k) && Recovers(Latest(m.ckpts), m.wal[..cut], r)
    ensures var m := Perform(BOOT, acts);
      && (SameRead(r, m.w, k) <==> SameAfterCrash(m.w, k, Recovered(Latest(m.ckpts), m.wal[..cut], k), r.clock))
      && (Timeless(m.w, k) ==> SameRead(r, m.w, k))
  {
    CrashKeepsReads(Perform(BOOT, acts), cut, r, k);
  }

  // ----- Checkpoint and truncate -----

  predicate CheckpointAction(a: Action) {
    a.Sync? || a.TakeSnapshot? || a.InstallCheckpoint? || a.Prune? || a.TruncateLog?
  }

  lemma {:induction false} CheckpointLeavesWorld(m: Machine, acts: seq<Action>)
    requires Sound(m) && Performs(m, acts) && m.synced == |m.wal|
    requires forall a :: a in acts ==> CheckpointAction(a)
    ensures var n := Perform(m, acts); n.w == m.w && n.synced == |n.wal|
    decreases |acts|
  {
    if acts != [] {
      DoKeeps(m, acts[0]);
      assert acts[0] in acts;
      forall a | a in acts[1..] ensures CheckpointAction(a) {
        assert a in acts;
      }
      CheckpointLeavesWorld(Do(m, acts[0]), acts[1..]);
    }
  }

  /** Checkpoint-and-truncate is crash-atomic: once the flush and sync are done, a crash after any
      number of its actions gives back the same reads as the store had when it started, for every
      deleted key and every unexpired key without a time-to-idle, and for any other key if and
      only if `SameAfterCrash`. */
  lemma CheckpointIsCrashAtomic(m: Machine, acts: seq<Action>, r: Store, k: Key)
    requires Sound(m) && Performs(m, acts) && m.synced == |m.wal| && !KeyPending(m.w, k)
    requires forall a :: a in acts ==> CheckpointAction(a)
    requires var n := Perform(m, acts); Recovers(Latest(n.ckpts), n.wal, r)
    ensures var n := Perform(m, acts);
      && (SameRead(r, m.w, k) <==> SameAfterCrash(m.w, k, Recovered(Latest(n.ckpts), n.wal, k), r.clock))
      && (Timeless(m.w, k) ==> SameRead(r, m.w, k))
  {
    CheckpointLeavesWorld(m, acts);
    var n := Perform(m, acts);
    assert n.wal[..|n.wal|] == n.wal;
    CrashKeepsReads(n, |n.wal|, r, k);
  }

  /** Checkpoint plus suffix equals full replay: without demotion, for every settled unexpired
      key, loading the latest checkpoint and the log above its LSN gives the same value, version
      and expiry as replaying everything ever flushed, and that is the reference's. */
  lemma CheckpointPlusSuffixIsFullReplay(m: Machine, k: Key)
    requires Sound(m) && !m.demoted && !KeyPending(m.w, k) && !RefLapsed(m.w, k)
    ensures var short := Recovered(Latest(m.ckpts), m.wal, k);
      var full := Recovered(Checkpoint(0, map[]), m.history, k);
      && (short.Some? <==> full.Some?) && (full.Some? <==> k in m.w.ref)
      && (full.Some? ==>
            && SameData(short.value, full.value) && SameData(full.value, m.w.ref[k])
            && short.value.stamp.version == full.value.stamp.version == m.w.ref[k].stamp.version)
  {
    var ck := Latest(m.ckpts);
    assert KeyInv(m.w, k) && Covers(m.w, ck, m.demoted, k);
    assert LogHolds(m.w, m.wal, ck.lsn, k) && LogHolds(m.w, m.history, 0, k);
  }
}
