/** What holds over whole runs of the store, the cold tier and the flusher. */
module WorldRuns {
  import opened Types
  import opened ObjectStore
  import opened ColdTier
  import opened World
  import opened WorldSteps

  predicate Runs(w: World, steps: seq<Step>)
    decreases |steps|
  {
    steps == [] || (Enabled(w, steps[0]) && Runs(Next(w, steps[0]), steps[1..]))
  }

  function Run(w: World, steps: seq<Step>): World
    requires Runs(w, steps)
    decreases |steps|
  {
    if steps == [] then w else Run(Next(w, steps[0]), steps[1..])
  }

  /** The client events of a run, in order. */
  function Trace(w: World, steps: seq<Step>): seq<Event>
    requires Runs(w, steps)
    decreases |steps|
  {
    if steps == [] then [] else [EventOf(w, steps[0])] + Trace(Next(w, steps[0]), steps[1..])
  }

  function Replay(ref: map<Key, Cell>, events: seq<Event>): map<Key, Cell>
    decreases |events|
  {
    if events == [] then ref else Replay(ApplyEvent(ref, events[0]), events[1..])
  }

  lemma RunCons(w: World, st: Step, rest: seq<Step>)
    requires Enabled(w, st) && Runs(Next(w, st), rest)
    ensures Runs(w, [st] + rest) && Run(w, [st] + rest) == Run(Next(w, st), rest)
  {
    assert ([st] + rest)[1..] == rest;
  }

  lemma Regroup(a: seq<Step>, b: seq<Step>)
    requires a != []
    ensures a + b == [a[0]] + (a[1..] + b)
  {
  }

  lemma RunUncons(w: World, steps: seq<Step>) returns (x: World)
    requires Runs(w, steps) && steps != []
    ensures Enabled(w, steps[0]) && x == Next(w, steps[0]) && Runs(x, steps[1..]) && Run(w, steps) == Run(x, steps[1..])
  {
    x := Next(w, steps[0]);
  }

  lemma {:induction false} RunConcat(w: World, a: seq<Step>, b: seq<Step>)
    requires Runs(w, a) && Runs(Run(w, a), b)
    ensures Runs(w, a + b) && Run(w, a + b) == Run(Run(w, a), b)
    decreases |a|
  {
    if a == [] {
      assert a + b == b;
    } else {
      var x := RunUncons(w, a);
      RunConcat(x, a[1..], b);
      RunCons(w, a[0], a[1..] + b);
      Regroup(a, b);
    }
  }

  lemma RunOfFour(w: World, a: Step, b: Step, c: Step, d: Step)
    requires Enabled(w, a) && Enabled(Next(w, a), b) && Enabled(Next(Next(w, a), b), c)
    requires Enabled(Next(Next(Next(w, a), b), c), d)
    ensures Runs(w, [a, b, c, d])
    ensures Run(w, [a, b, c, d]) == Next(Next(Next(Next(w, a), b), c), d)
  {
    RunCons(Next(Next(Next(w, a), b), c), d, []);
    RunCons(Next(Next(w, a), b), c, [d]);
    RunCons(Next(w, a), b, [c, d]);
    RunCons(w, a, [b, c, d]);
    assert [d] + [] == [d] && [c] + [d] == [c, d] && [b] + [c, d] == [b, c, d];
    assert [a] + [b, c, d] == [a, b, c, d];
  }

  lemma {:induction false} RunKeeps(w: World, steps: seq<Step>)
    requires Inv(w) && Runs(w, steps)
    ensures Inv(Run(w, steps))
    ensures Run(w, steps).ref == Replay(w.ref, Trace(w, steps))
    decreases |steps|
  {
    if steps != [] {
      StepKeeps(w, steps[0]);
      RunKeeps(Next(w, steps[0]), steps[1..]);
      assert Trace(w, steps)[1..] == Trace(Next(w, steps[0]), steps[1..]);
    }
  }

  /** After any run from an empty store, a read through the hot store and the cold tier answers
      what the map the tiers stand for holds. */
  lemma ReadsFollowReference(steps: seq<Step>, k: Key)
    requires Runs(INITIAL, steps)
    ensures var w := Run(INITIAL, steps);
      ReadThrough(w.store, w.cold, k).1 == RefView(Replay(map[], Trace(INITIAL, steps)), w.store.clock, k)
  {
    InitialHolds();
    RunKeeps(INITIAL, steps);
    ReadKeeps(Run(INITIAL, steps), k);
  }

  // ----- No resurrection -----

  predicate Writes(e: Event, k: Key) {
    e.Wrote? && e.k == k
  }

  lemma ReadClock(s: Store, cold: Cold, k: Key)
    ensures s.clock <= ReadThrough(s, cold, k).0.clock
  {
    var t := Get(s, k).0;
    assert s.clock <= t.clock;
    var u := PromoteFrom(t, cold, k).0;
    assert t.clock <= u.clock;
    assert u.clock <= Get(u, k).0.clock;
  }

  lemma ClockNeverGoesBack(w: World, st: Step)
    requires Enabled(w, st)
    ensures w.store.clock <= Next(w, st).store.clock
  {
    if st.ReadStep? {
      ReadClock(w.store, w.cold, st.k);
    }
    assert w.store.clock <= StoreAfter(w, st).clock;
  }

  lemma MissTouchesNothing(s: Store, cold: Cold, k: Key)
    requires ReadThrough(s, cold, k).1 == None
    ensures !ReadEvent(s, cold, k).Touched? && !ReadEvent(s, cold, k).Wrote?
  {
  }

  lemma AbsentLater(ref: map<Key, Cell>, now: nat, later: nat, k: Key)
    requires RefView(ref, now, k) == None && now <= later
    ensures RefView(ref, later, k) == None
  {
  }

  lemma AbsentAfterEvent(ref: map<Key, Cell>, e: Event, now: nat, k: Key)
    requires RefView(ref, now, k) == None && (e.Touched? || e.Wrote? ==> e.k != k)
    ensures RefView(ApplyEvent(ref, e), now, k) == None
  {
  }

  lemma AbsentAfterRead(w: World, j: Key, k: Key)
    requires Inv(w) && RefView(w.ref, w.store.clock, k) == None
    ensures var x := Next(w, ReadStep(j)); RefView(x.ref, x.store.clock, k) == None
  {
    var after, e := ReadThrough(w.store, w.cold, j).0.clock, ReadEvent(w.store, w.cold, j);
    ReadClock(w.store, w.cold, j);
    AbsentLater(w.ref, w.store.clock, after, k);
    if j == k {
      ReadAnswers(w, k);
      MissTouchesNothing(w.store, w.cold, k);
    }
    AbsentAfterEvent(w.ref, e, after, k);
  }

  /** Only a visible key is ever touched. */
  lemma AbsentIsUntouched(w: World, st: Step, k: Key)
    requires KeyInv(w, k) && Enabled(w, st) && RefView(w.ref, w.store.clock, k) == None && !st.ReadStep?
    ensures EventOf(w, st).Touched? ==> EventOf(w, st).k != k
  {
  }

  lemma AbsentStaysAbsent(w: World, st: Step, k: Key)
    requires Inv(w) && Enabled(w, st) && !Writes(EventOf(w, st), k)
    requires RefView(w.ref, w.store.clock, k) == None
    ensures RefView(Next(w, st).ref, Next(w, st).store.clock, k) == None
  {
    if st.ReadStep? {
      AbsentAfterRead(w, st.k, k);
    } else {
      ClockNeverGoesBack(w, st);
      assert KeyInv(w, k);
      AbsentIsUntouched(w, st, k);
      var later := Next(w, st).store.clock;
      AbsentLater(w.ref, w.store.clock, later, k);
      AbsentAfterEvent(w.ref, EventOf(w, st), later, k);
    }
  }

  lemma {:induction false} AbsentUntilWritten(w: World, steps: seq<Step>, k: Key)
    requires Inv(w) && Runs(w, steps)
    requires RefView(w.ref, w.store.clock, k) == None
    requires forall e :: e in Trace(w, steps) ==> !Writes(e, k)
    ensures var x := Run(w, steps); Inv(x) && RefView(x.ref, x.store.clock, k) == None
    decreases |steps|
  {
    if steps != [] {
      var x := Next(w, steps[0]);
      assert Trace(w, steps) == [EventOf(w, steps[0])] + Trace(x, steps[1..]);
      AbsentStaysAbsent(w, steps[0], k);
      StepKeeps(w, steps[0]);
      AbsentUntilWritten(x, steps[1..], k);
    }
  }

  /** Once a key reads as absent (deleted, expired in memory, or expired in the cold tier), it
      reads as absent in every later state until it is written again, whatever flushes,
      tombstone cleanups, demotions, promotions and compactions happen in between. */
  lemma NoResurrection(w: World, steps: seq<Step>, k: Key)
    requires Inv(w) && Runs(w, steps)
    requires ReadThrough(w.store, w.cold, k).1 == None
    requires forall e :: e in Trace(w, steps) ==> !Writes(e, k)
    ensures var x := Run(w, steps); ReadThrough(x.store, x.cold, k).1 == None
  {
    ReadKeeps(w, k);
    AbsentUntilWritten(w, steps, k);
    ReadKeeps(Run(w, steps), k);
  }

  // ----- No lost dirty write -----

  /** At every point of every run, the latest mutation of a hot key has reached the backend, or
      an entry with exactly its version and operation is queued or in flight. */
  lemma NoLostDirtyWrite(steps: seq<Step>, k: Key)
    requires Runs(INITIAL, steps) && k in Run(INITIAL, steps).store.meta
    ensures var w := Run(INITIAL, steps); var m := w.store.meta[k];
      || Pending(w, EntryFor(k, m))
      || (Backed(w, k, m.stamp.version)
          && w.backend[k].value == (if m.tombstone then None else HotValue(w.store, k)))
  {
    InitialHolds();
    RunKeeps(INITIAL, steps);
    assert KeyInv(Run(INITIAL, steps), k);
  }

  lemma SentVersionGrows(w: World, st: Step, k: Key)
    requires Inv(w) && Enabled(w, st) && k in w.backend
    ensures k in Next(w, st).backend && w.backend[k].version <= Next(w, st).backend[k].version
  {
    if (st.AcceptStep? || st.RejectStep?) && k in w.job.batch {
      assert BatchInv(w, k, w.job.batch[k]);
    }
  }

  /** Over any run, the version sent for a key never decreases, whatever was retried. */
  lemma {:induction false} SentVersionsNeverDecrease(w: World, steps: seq<Step>, k: Key)
    requires Inv(w) && Runs(w, steps) && k in w.backend
    ensures k in Run(w, steps).backend && w.backend[k].version <= Run(w, steps).backend[k].version
    decreases |steps|
  {
    if steps != [] {
      SentVersionGrows(w, steps[0], k);
      StepKeeps(w, steps[0]);
      SentVersionsNeverDecrease(Next(w, steps[0]), steps[1..], k);
    }
  }

  // ----- Convergence of the backend -----

  /** The backend holds exactly the reference map. */
  ghost predicate BackendMatches(w: World) {
    forall k :: (k in w.ref <==> k in w.backend && w.backend[k].value.Some?)
                && (k in w.ref ==> w.backend[k] == Record(w.ref[k].stamp.version, Some(w.ref[k].value)))
  }

  lemma NothingPendingMeansMatched(w: World)
    requires Inv(w) && w.job.Idle? && w.store.dirty == multiset{}
    ensures BackendMatches(w)
  {
    forall k ensures (k in w.ref <==> k in w.backend && w.backend[k].value.Some?)
                && (k in w.ref ==> w.backend[k] == Record(w.ref[k].stamp.version, Some(w.ref[k].value))) {
      assert KeyInv(w, k);
    }
  }

  function FlushRound(w: World, drained: seq<DirtyEntry>): World
    requires Enabled(w, CollectStep(drained, 0))
  {
    Next(Next(Next(w, CollectStep(drained, 0)), AcceptStep), CommitStep)
  }

  /** An uninterrupted round with no idle threshold defers nothing and forgets nothing. */
  lemma RoundDrains(w: World, drained: seq<DirtyEntry>)
    requires Inv(w) && Enabled(w, CollectStep(drained, 0))
    ensures var x := FlushRound(w, drained);
      Inv(x) && x.job.Idle? && x.ref == w.ref && x.store.dirty == w.store.dirty - multiset(drained)
  {
    StepKeeps(w, CollectStep(drained, 0));
    StepKeeps(Next(w, CollectStep(drained, 0)), AcceptStep);
    StepKeeps(Next(Next(w, CollectStep(drained, 0)), AcceptStep), CommitStep);
    RoundShape(w, drained);
  }

  lemma RoundShape(w: World, drained: seq<DirtyEntry>)
    requires Enabled(w, CollectStep(drained, 0))
    ensures var x := FlushRound(w, drained);
      && x.job.Idle? && x.ref == w.ref
      && x.store == CleanupAfterFlush(w.store, FlushableOf(w.store, drained, 0))
                      .(dirty := w.store.dirty - multiset(drained))
  {
    var a := Next(w, CollectStep(drained, 0));
    var b := Next(a, AcceptStep);
    assert b.store == w.store.(dirty := w.store.dirty - multiset(drained));
    assert b.job.flushed == FlushableOf(w.store, drained, 0) && b.job.deferred == [];
    assert Settled(b.store, b.job.flushed) == Settled(w.store, b.job.flushed);
  }

  lemma OneFlushable(s: Store, e: DirtyEntry)
    requires Flushable(s, 0, e)
    ensures FlushableOf(s, [e], 0) == [e]
    ensures Settled(s, [e]) == if e.op == Delete then {e.key} else {}
  {
  }

  lemma PutBatchDeletesNothing(w: World, e: DirtyEntry)
    requires w.job.Idle? && Flushable(w.store, 0, e) && e.op == Put && Enabled(w, CollectStep([e], 0))
    ensures var a := Next(w, CollectStep([e], 0)); DeletedVersions(a.job.batch) == map[] && a.cold == w.cold
  {
    OneFlushable(w.store, e);
  }

  lemma AcceptLeavesCold(a: World)
    requires Enabled(a, AcceptStep) && DeletedVersions(a.job.batch) == map[]
    ensures var b := Next(a, AcceptStep); Enabled(b, CommitStep) && Next(b, CommitStep).cold == a.cold
  {
    assert RecordTombstones(a.cold, map[]) == a.cold;
  }

  lemma PutRoundLeavesCold(w: World, e: DirtyEntry)
    requires w.job.Idle? && e in w.store.dirty && Flushable(w.store, 0, e) && e.op == Put
    ensures Enabled(w, CollectStep([e], 0)) && FlushRound(w, [e]).cold == w.cold
  {
    assert multiset([e]) == multiset{e};
    PutBatchDeletesNothing(w, e);
    AcceptLeavesCold(Next(w, CollectStep([e], 0)));
  }

  /** What a round that drains one entry leaves behind. */
  lemma RoundOfOne(w: World, e: DirtyEntry)
    requires w.job.Idle? && e in w.store.dirty && Flushable(w.store, 0, e)
    ensures Enabled(w, CollectStep([e], 0))
    ensures var x := FlushRound(w, [e]); var gone := if e.op == Delete then {e.key} else {};
      && x.store == w.store.(values := w.store.values - gone, meta := w.store.meta - gone,
                             dirty := w.store.dirty - multiset{e})
      && x.ref == w.ref && x.job.Idle?
  {
    assert multiset([e]) == multiset{e};
    RoundShape(w, [e]);
    OneFlushable(w.store, e);
  }

  /** `rounds` is what successive flushes of at most `n` entries drain, until the queue is empty. */
  predicate Drains(dirty: multiset<DirtyEntry>, n: nat, rounds: seq<seq<DirtyEntry>>)
    decreases |rounds|
  {
    if dirty == multiset{} then rounds == []
    else
      && rounds != []
      && |rounds[0]| == Min(n, |dirty|)
      && multiset(rounds[0]) <= dirty
      && Drains(dirty - multiset(rounds[0]), n, rounds[1..])
  }

  ghost function FlushRounds(w: World, n: nat, rounds: seq<seq<DirtyEntry>>): World
    requires Inv(w) && w.job.Idle? && Drains(w.store.dirty, n, rounds)
    decreases |rounds|
  {
    if rounds == [] then w
    else
      RoundDrains(w, rounds[0]);
      FlushRounds(FlushRound(w, rounds[0]), n, rounds[1..])
  }

  /** Bounded flushes reach a state where nothing is dirty and the backend equals the reference,
      after at most one round per entry. */
  lemma {:induction false} BoundedFlushesConverge(w: World, n: nat, rounds: seq<seq<DirtyEntry>>)
    requires Inv(w) && w.job.Idle? && n >= 1 && Drains(w.store.dirty, n, rounds)
    ensures var x := FlushRounds(w, n, rounds);
      Inv(x) && x.ref == w.ref && x.store.dirty == multiset{} && BackendMatches(x)
    ensures |rounds| <= |w.store.dirty|
    decreases |rounds|
  {
    if rounds == [] {
      NothingPendingMeansMatched(w);
    } else {
      RoundDrains(w, rounds[0]);
      BoundedFlushesConverge(FlushRound(w, rounds[0]), n, rounds[1..]);
    }
  }
}
