/** The store against a plain map that knows nothing of it.

    The plain map is changed by client calls alone, from its own contents: an edit is applied to
    the plain map's own value, a read touches its own item, and no flush, eviction, promotion,
    compaction or sweep exists for it. It shares only the clock with the store. */
module PlainMap {
  import opened Types
  import opened ObjectStore
  import opened ColdTier
  import opened World
  import opened WorldSteps
  import opened WorldRuns

  datatype Item = Item(value: Value, deadline: nat, idle: nat, touched: nat)

  /** When an item ends, unless it is touched first. */
  function End(deadline: nat, idle: nat, touched: nat): Option<nat> {
    if idle == 0 then (if deadline == 0 then None else Some(deadline))
    else if deadline == 0 then Some(touched + idle)
    else Some(Min(deadline, touched + idle))
  }

  function ItemEnd(i: Item): Option<nat> {
    End(i.deadline, i.idle, i.touched)
  }

  predicate Over(i: Item, now: nat) {
    ItemEnd(i).Some? && ItemEnd(i).value <= now
  }

  function Look(p: map<Key, Item>, now: nat, k: Key): Option<Value> {
    if k in p && !Over(p[k], now) then Some(p[k].value) else None
  }

  function Touch(p: map<Key, Item>, now: nat, k: Key): map<Key, Item> {
    if Look(p, now, k).Some? then p[k := p[k].(touched := now)] else p
  }

  /** What a step does to the plain map: something for a client call, nothing otherwise. */
  function Call(p: map<Key, Item>, now: nat, st: Step): map<Key, Item> {
    match st
    case PutStep(k, v, ttl, tti) => p[k := Item(v, if ttl == 0 then 0 else now + ttl, tti, now)]
    case DeleteStep(k) => p - {k}
    case MutateStep(k, edit) =>
      (match edit(Look(p, now, k))
       case Keep => p
       case Write(v) => p[k := Item(v, 0, 0, now)]
       case Remove => p - {k})
    case GetStep(k) => Touch(p, now, k)
    case ReadStep(k) => Touch(p, now, k)
    case _ => p
  }

  function Calls(w: World, p: map<Key, Item>, steps: seq<Step>): map<Key, Item>
    requires Runs(w, steps)
    decreases |steps|
  {
    if steps == [] then p else Calls(Next(w, steps[0]), Call(p, w.store.clock, steps[0]), steps[1..])
  }

  lemma CallsCons(w: World, p: map<Key, Item>, st: Step, rest: seq<Step>)
    requires Enabled(w, st) && Runs(Next(w, st), rest)
    ensures Runs(w, [st] + rest)
    ensures Calls(w, p, [st] + rest) == Calls(Next(w, st), Call(p, w.store.clock, st), rest)
  {
    RunCons(w, st, rest);
    assert ([st] + rest)[1..] == rest;
  }

  lemma CallsOfFour(w: World, p: map<Key, Item>, a: Step, b: Step, c: Step, d: Step)
    requires Enabled(w, a) && Enabled(Next(w, a), b) && Enabled(Next(Next(w, a), b), c)
    requires Enabled(Next(Next(Next(w, a), b), c), d)
    ensures Runs(w, [a, b, c, d])
    ensures var x := Next(w, a); var y := Next(x, b); var z := Next(y, c);
      Calls(w, p, [a, b, c, d])
      == Call(Call(Call(Call(p, w.store.clock, a), x.store.clock, b), y.store.clock, c), z.store.clock, d)
  {
    var x := Next(w, a);
    var y := Next(x, b);
    var z := Next(y, c);
    var px := Call(p, w.store.clock, a);
    var py := Call(px, x.store.clock, b);
    var pz := Call(py, y.store.clock, c);
    CallsCons(z, pz, d, []);
    CallsCons(y, py, c, [d]);
    CallsCons(x, px, b, [c, d]);
    CallsCons(w, p, a, [b, c, d]);
    assert [d] + [] == [d] && [c] + [d] == [c, d] && [b] + [c, d] == [b, c, d] && [a] + [b, c, d] == [a, b, c, d];
  }

  lemma CallsUncons(w: World, p: map<Key, Item>, steps: seq<Step>) returns (x: World, q: map<Key, Item>)
    requires Runs(w, steps) && steps != []
    ensures Enabled(w, steps[0]) && x == Next(w, steps[0]) && q == Call(p, w.store.clock, steps[0])
    ensures Runs(x, steps[1..]) && Run(w, steps) == Run(x, steps[1..]) && Calls(w, p, steps) == Calls(x, q, steps[1..])
  {
    x, q := Next(w, steps[0]), Call(p, w.store.clock, steps[0]);
  }

  lemma {:induction false} CallsConcat(w: World, p: map<Key, Item>, a: seq<Step>, b: seq<Step>)
    requires Runs(w, a) && Runs(Run(w, a), b)
    ensures Runs(w, a + b) && Calls(w, p, a + b) == Calls(Run(w, a), Calls(w, p, a), b)
    decreases |a|
  {
    if a == [] {
      assert a + b == b;
    } else {
      var x, q := CallsUncons(w, p, a);
      CallsConcat(x, q, a[1..], b);
      CallsCons(w, p, a[0], a[1..] + b);
      Regroup(a, b);
    }
  }

  // ----- Agreement -----

  function StampEnd(e: ExpiryMeta): Option<nat> {
    End(e.expiresAt, e.ttiTicks, e.lastTouch)
  }

  predicate SameItem(c: Cell, i: Item) {
    c.value == i.value && c.stamp.expiresAt == i.deadline && c.stamp.ttiTicks == i.idle
  }

  /** Present in both with the same value, deadline and idle limit, ending at the same time; or
      absent in both. */
  predicate Agree(ref: map<Key, Cell>, now: nat, p: map<Key, Item>, k: Key) {
    if Look(p, now, k).Some? then k in ref && SameItem(ref[k], p[k]) && StampEnd(ref[k].stamp) == ItemEnd(p[k])
    else RefView(ref, now, k).None?
  }

  lemma LapsesAtItsEnd(e: ExpiryMeta, now: nat)
    ensures Lapsed(e, now) <==> StampEnd(e).Some? && StampEnd(e).value <= now
  {
  }

  lemma AgreeMeansSameView(ref: map<Key, Cell>, now: nat, p: map<Key, Item>, k: Key)
    requires Agree(ref, now, p, k)
    ensures RefView(ref, now, k) == Look(p, now, k)
  {
    if k in ref {
      LapsesAtItsEnd(ref[k].stamp, now);
    }
  }

  lemma AgreeLater(ref: map<Key, Cell>, now: nat, p: map<Key, Item>, later: nat, k: Key)
    requires Agree(ref, now, p, k) && now <= later
    ensures Agree(ref, later, p, k)
  {
    if k in ref {
      LapsesAtItsEnd(ref[k].stamp, now);
      LapsesAtItsEnd(ref[k].stamp, later);
    }
  }

  // ----- When a step keeps the agreement -----

  /** An edit of the hot value alone sees what a read would return: `MutatorSeesTheReadValue`. */
  predicate Seen(w: World, k: Key) {
    k in w.store.meta || Lookup(w.cold, k).None? || Lapsed(Lookup(w.cold, k).value.stamp, w.store.clock)
  }

  /** The value, deadline and idle limit that an edit of `c` leaves. */
  function AfterEdit(e: Edit, c: Cell): Option<(Value, nat, nat)> {
    match e
    case Keep => Some((c.value, c.stamp.expiresAt, c.stamp.ttiTicks))
    case Write(v) => Some((v, 0, 0))
    case Remove => None
  }

  predicate SameOutcome(a: Edit, b: Edit, c: Cell, now: nat) {
    AfterEdit(a, c) == AfterEdit(b, c) || (a.Remove? && b.Keep? && Lapsed(c.stamp, now + 1))
  }

  /** What a caller can check before step `st` so that the store goes on agreeing about `k`: an
      edit of an unseen cold copy must not depend on it, a memory-only get must not miss a touch
      that matters, and an eviction must not leave behind a stamp that ends earlier. */
  predicate Heeds(w: World, st: Step, k: Key)
    requires Enabled(w, st)
  {
    match st
    case MutateStep(j, edit) =>
      j == k && !Seen(w, k) ==>
        var c := Lookup(w.cold, k).value;
        SameOutcome(edit(None), edit(Some(c.value)), c, w.store.clock)
    case GetStep(j) =>
      j == k && !Seen(w, k) ==>
        var e := Lookup(w.cold, k).value.stamp;
        StampEnd(e) == StampEnd(e.(lastTouch := w.store.clock))
    case EvictStep(j) =>
      j == k && Evictable(w.store, k, w.job.todo[k].stamp.version) ==>
        StampEnd(w.job.todo[k].stamp) == StampEnd(w.store.meta[k].stamp)
    case _ => true
  }

  predicate Concerns(st: Step, k: Key) {
    (st.PutStep? || st.DeleteStep? || st.MutateStep? || st.ExpireStep? || st.GetStep? || st.ReadStep? || st.EvictStep?)
    && st.k == k
  }

  lemma ElsewhereAgrees(w: World, p: map<Key, Item>, st: Step, k: Key)
    requires Enabled(w, st) && Agree(w.ref, w.store.clock, p, k) && !Concerns(st, k)
    ensures Heeds(w, st, k) && Agree(Next(w, st).ref, Next(w, st).store.clock, Call(p, w.store.clock, st), k)
  {
    ClockNeverGoesBack(w, st);
    ElsewhereKept(w, p, st, k);
    AgreeLater(w.ref, w.store.clock, p, Next(w, st).store.clock, k);
  }

  lemma ElsewhereKept(w: World, p: map<Key, Item>, st: Step, k: Key)
    requires Enabled(w, st) && !Concerns(st, k)
    ensures var x, q := Next(w, st).ref, Call(p, w.store.clock, st);
      && (k in x <==> k in w.ref) && (k in w.ref ==> x[k] == w.ref[k])
      && (k in q <==> k in p) && (k in p ==> q[k] == p[k])
  {
    assert !EventOf(w, st).Silent? ==> EventOf(w, st).k != k;
  }

  /** A read touches the key if it is visible, at the clock of the call, and nothing otherwise. */
  lemma ReadEventIs(w: World, k: Key)
    requires Inv(w)
    ensures ReadEvent(w.store, w.cold, k) ==
      if RefView(w.ref, w.store.clock, k).Some? then Touched(k, w.store.clock)
      else if DueToExpire(w.store, k) then Removed(k) else Silent
  {
    assert KeyInv(w, k);
    if k !in w.store.meta {
      PromoteKeeps(w, k);
      LookupIsACopy(w.cold.gens, w.cold.tombs, k);
    }
  }

  lemma GetEventIs(w: World, k: Key)
    requires Inv(w)
    ensures GetEvent(w.store, k) ==
      if RefView(w.ref, w.store.clock, k).Some? && k in w.store.meta then Touched(k, w.store.clock)
      else if DueToExpire(w.store, k) then Removed(k) else Silent
  {
    assert KeyInv(w, k);
  }

  /** A key the hot store does not know is read from the cold tier alone. */
  lemma UnseenIsCold(w: World, k: Key)
    requires Inv(w) && !Seen(w, k)
    ensures k in w.ref && Lookup(w.cold, k) == Some(w.ref[k]) && RefView(w.ref, w.store.clock, k) == Some(w.ref[k].value)
  {
    assert KeyInv(w, k);
  }

  lemma SeenIsTheView(w: World, k: Key)
    requires Inv(w) && Seen(w, k)
    ensures HotValue(ExpireKey(w.store, k), k) == RefView(w.ref, w.store.clock, k)
  {
    assert KeyInv(w, k);
  }

  lemma TouchAgrees(ref: map<Key, Cell>, now: nat, p: map<Key, Item>, k: Key, later: nat)
    requires Agree(ref, now, p, k) && now <= later
    requires RefView(ref, now, k).Some?
    ensures Agree(ApplyEvent(ref, Touched(k, now)), later, Touch(p, now, k), k)
  {
    AgreeMeansSameView(ref, now, p, k);
    var x, q := ApplyEvent(ref, Touched(k, now)), Touch(p, now, k);
    LapsesAtItsEnd(x[k].stamp, later);
  }

  lemma AbsentAgrees(ref: map<Key, Cell>, now: nat, p: map<Key, Item>, k: Key, later: nat)
    requires Agree(ref, now, p, k) && now <= later && RefView(ref, now, k).None?
    ensures Agree(ref, later, Touch(p, now, k), k) && Agree(ref - {k}, later, Touch(p, now, k), k)
  {
    AgreeMeansSameView(ref, now, p, k);
    AgreeLater(ref, now, p, later, k);
  }

  lemma ReadAgrees(w: World, p: map<Key, Item>, k: Key)
    requires Inv(w) && Agree(w.ref, w.store.clock, p, k)
    ensures var x := Next(w, ReadStep(k)); Agree(x.ref, x.store.clock, Call(p, w.store.clock, ReadStep(k)), k)
  {
    ClockNeverGoesBack(w, ReadStep(k));
    ReadEventIs(w, k);
    var later := Next(w, ReadStep(k)).store.clock;
    if RefView(w.ref, w.store.clock, k).Some? {
      TouchAgrees(w.ref, w.store.clock, p, k, later);
    } else {
      AbsentAgrees(w.ref, w.store.clock, p, k, later);
    }
  }

  lemma GetAgrees(w: World, p: map<Key, Item>, k: Key)
    requires Inv(w) && Agree(w.ref, w.store.clock, p, k)
    ensures var x := Next(w, GetStep(k));
      Agree(x.ref, x.store.clock, Call(p, w.store.clock, GetStep(k)), k) <==> Heeds(w, GetStep(k), k)
  {
    ClockNeverGoesBack(w, GetStep(k));
    GetEventIs(w, k);
    AgreeMeansSameView(w.ref, w.store.clock, p, k);
    var later := Next(w, GetStep(k)).store.clock;
    if RefView(w.ref, w.store.clock, k).None? {
      AbsentAgrees(w.ref, w.store.clock, p, k, later);
      if !Seen(w, k) {
        UnseenIsCold(w, k);
      }
    } else if k in w.store.meta {
      TouchAgrees(w.ref, w.store.clock, p, k, later);
    } else {
      MissedTouch(w, p, k);
    }
  }

  lemma MissedTouch(w: World, p: map<Key, Item>, k: Key)
    requires Inv(w) && Agree(w.ref, w.store.clock, p, k)
    requires RefView(w.ref, w.store.clock, k).Some? && k !in w.store.meta
    ensures var x := Next(w, GetStep(k));
      Agree(x.ref, x.store.clock, Call(p, w.store.clock, GetStep(k)), k) <==> Heeds(w, GetStep(k), k)
  {
    assert KeyInv(w, k);
    UnseenIsCold(w, k);
    AgreeMeansSameView(w.ref, w.store.clock, p, k);
    LapsesAtItsEnd(w.ref[k].stamp, w.store.clock);
    assert Next(w, GetStep(k)).ref == w.ref && Next(w, GetStep(k)).store == w.store;
    var e := w.ref[k].stamp;
    assert StampEnd(e.(lastTouch := w.store.clock)) == ItemEnd(Touch(p, w.store.clock, k)[k]);
  }

  lemma EvictAgrees(w: World, p: map<Key, Item>, k: Key)
    requires Inv(w) && Enabled(w, EvictStep(k)) && Agree(w.ref, w.store.clock, p, k)
    ensures Agree(Next(w, EvictStep(k)).ref, Next(w, EvictStep(k)).store.clock, p, k) <==> Heeds(w, EvictStep(k), k)
  {
    assert KeyInv(w, k) && CandidateInv(w, k, w.job.todo[k]);
    AgreeMeansSameView(w.ref, w.store.clock, p, k);
    if Evictable(w.store, k, w.job.todo[k].stamp.version) {
      var x := ApplyEvent(w.ref, Touched(k, w.job.todo[k].stamp.lastTouch));
      assert StampEnd(x[k].stamp) == StampEnd(w.job.todo[k].stamp);
    }
  }

  function RefEdit(ref: map<Key, Cell>, k: Key, e: Edit, at: nat): map<Key, Cell> {
    match e
    case Keep => ref
    case Write(v) => ApplyEvent(ref, Wrote(k, v, at, 0, 0))
    case Remove => ref - {k}
  }

  function ItemEdit(p: map<Key, Item>, k: Key, e: Edit, now: nat): map<Key, Item> {
    match e
    case Keep => p
    case Write(v) => p[k := Item(v, 0, 0, now)]
    case Remove => p - {k}
  }

  /** Two edits of one visible key leave it in agreement exactly when they leave the same data,
      or one removes what the other keeps and it ends with the call anyway. */
  lemma TwoEdits(ref: map<Key, Cell>, now: nat, p: map<Key, Item>, k: Key, a: Edit, b: Edit)
    requires Agree(ref, now, p, k) && Look(p, now, k).Some?
    ensures Agree(RefEdit(ref, k, a, now), if a.Keep? then now else now + 1, ItemEdit(p, k, b, now), k)
      <==> SameOutcome(a, b, ref[k], now)
  {
    LapsesAtItsEnd(ref[k].stamp, now);
    LapsesAtItsEnd(ref[k].stamp, now + 1);
  }

  /** The same edit on both sides keeps the agreement. */
  lemma SameEdit(ref: map<Key, Cell>, now: nat, p: map<Key, Item>, k: Key, e: Edit, at: nat, later: nat)
    requires Agree(ref, now, p, k) && now <= later
    ensures Agree(RefEdit(ref, k, e, at), later, ItemEdit(p, k, e, now), k)
  {
    AgreeLater(ref, now, p, later, k);
  }

  lemma EditAgrees(w: World, p: map<Key, Item>, edit: Option<Value> -> Edit, k: Key)
    requires Inv(w) && Agree(w.ref, w.store.clock, p, k)
    ensures var x := Next(w, MutateStep(k, edit));
      Agree(x.ref, x.store.clock, Call(p, w.store.clock, MutateStep(k, edit)), k) <==> Heeds(w, MutateStep(k, edit), k)
  {
    AgreeMeansSameView(w.ref, w.store.clock, p, k);
    if Seen(w, k) {
      SeenIsTheView(w, k);
      SeenEdit(w, p, edit, k);
    } else {
      UnseenIsCold(w, k);
      UnseenEdit(w, edit, k);
      TwoEdits(w.ref, w.store.clock, p, k, edit(None), edit(Some(w.ref[k].value)));
    }
  }

  lemma SeenEdit(w: World, p: map<Key, Item>, edit: Option<Value> -> Edit, k: Key)
    requires Inv(w) && Agree(w.ref, w.store.clock, p, k)
    requires HotValue(ExpireKey(w.store, k), k) == Look(p, w.store.clock, k)
    ensures var x := Next(w, MutateStep(k, edit)); Agree(x.ref, x.store.clock, Call(p, w.store.clock, MutateStep(k, edit)), k)
  {
    var e := edit(Look(p, w.store.clock, k));
    ClockNeverGoesBack(w, MutateStep(k, edit));
    var later := Next(w, MutateStep(k, edit)).store.clock;
    SameEdit(w.ref, w.store.clock, p, k, e, ExpireKey(w.store, k).clock, later);
    if e.Keep? && DueToExpire(w.store, k) {
      assert KeyInv(w, k);
      AgreeMeansSameView(w.ref, w.store.clock, p, k);
      AbsentAgrees(w.ref, w.store.clock, p, k, later);
    }
  }

  lemma UnseenEdit(w: World, edit: Option<Value> -> Edit, k: Key)
    requires Inv(w) && !Seen(w, k)
    ensures var x := Next(w, MutateStep(k, edit));
      && x.ref == RefEdit(w.ref, k, edit(None), w.store.clock)
      && x.store.clock == if edit(None).Keep? then w.store.clock else w.store.clock + 1
  {
    assert KeyInv(w, k);
  }

  lemma WriteAgrees(w: World, p: map<Key, Item>, st: Step, k: Key)
    requires Inv(w) && Agree(w.ref, w.store.clock, p, k) && Concerns(st, k)
    requires st.PutStep? || st.DeleteStep? || st.ExpireStep?
    ensures Agree(Next(w, st).ref, Next(w, st).store.clock, Call(p, w.store.clock, st), k)
  {
    ClockNeverGoesBack(w, st);
    AgreeLater(w.ref, w.store.clock, p, Next(w, st).store.clock, k);
    if st.ExpireStep? && DueToExpire(w.store, k) {
      assert KeyInv(w, k);
      AbsentAgrees(w.ref, w.store.clock, p, k, Next(w, st).store.clock);
      AgreeMeansSameView(w.ref, w.store.clock, p, k);
    }
  }

  /** A step keeps store and plain map in agreement about a key if and only if it heeds it. */
  lemma StepAgreesIff(w: World, p: map<Key, Item>, st: Step, k: Key)
    requires Inv(w) && Enabled(w, st) && Agree(w.ref, w.store.clock, p, k)
    ensures Agree(Next(w, st).ref, Next(w, st).store.clock, Call(p, w.store.clock, st), k) <==> Heeds(w, st, k)
  {
    if !Concerns(st, k) {
      ElsewhereAgrees(w, p, st, k);
    } else {
      match st
      case MutateStep(_, edit) => EditAgrees(w, p, edit, k);
      case GetStep(_) => GetAgrees(w, p, k);
      case ReadStep(_) => ReadAgrees(w, p, k);
      case EvictStep(_) => EvictAgrees(w, p, k);
      case _ => WriteAgrees(w, p, st, k);
    }
  }

  // ----- Runs -----

  predicate Heedful(w: World, steps: seq<Step>, k: Key)
    requires Runs(w, steps)
    decreases |steps|
  {
    steps == [] || (Heeds(w, steps[0], k) && Heedful(Next(w, steps[0]), steps[1..], k))
  }

  lemma {:induction false} RunAgrees(w: World, p: map<Key, Item>, steps: seq<Step>, k: Key)
    requires Inv(w) && Runs(w, steps) && Heedful(w, steps, k) && Agree(w.ref, w.store.clock, p, k)
    ensures var x := Run(w, steps); Inv(x) && Agree(x.ref, x.store.clock, Calls(w, p, steps), k)
    decreases |steps|
  {
    if steps != [] {
      StepAgreesIff(w, p, steps[0], k);
      StepKeeps(w, steps[0]);
      RunAgrees(Next(w, steps[0]), Call(p, w.store.clock, steps[0]), steps[1..], k);
    }
  }

  /** Five mechanisms, one map: after any run from empty whose steps heed the key, a read through
      the hot store and the cold tier answers what the plain map of the client's calls answers. */
  lemma ReadsFollowPlainMap(steps: seq<Step>, k: Key)
    requires Runs(INITIAL, steps) && Heedful(INITIAL, steps, k)
    ensures var w := Run(INITIAL, steps);
      ReadThrough(w.store, w.cold, k).1 == Look(Calls(INITIAL, map[], steps), w.store.clock, k)
  {
    InitialHolds();
    RunAgrees(INITIAL, map[], steps, k);
    var w := Run(INITIAL, steps);
    ReadAnswers(w, k);
    AgreeMeansSameView(w.ref, w.store.clock, Calls(INITIAL, map[], steps), k);
  }

  // ----- Keys without a time-to-idle -----

  /** The key is never put with a time-to-idle, and every edit of it sees what a read would. */
  predicate Untimed(w: World, steps: seq<Step>, k: Key)
    requires Runs(w, steps)
    decreases |steps|
  {
    steps == []
    || ((steps[0].PutStep? && steps[0].k == k ==> steps[0].tti == 0)
        && (steps[0].MutateStep? && steps[0].k == k ==> Seen(w, k))
        && Untimed(Next(w, steps[0]), steps[1..], k))
  }

  lemma UntimedStepHeeds(w: World, p: map<Key, Item>, st: Step, k: Key)
    requires Inv(w) && Enabled(w, st) && Agree(w.ref, w.store.clock, p, k) && (k in p ==> p[k].idle == 0)
    requires st.MutateStep? && st.k == k ==> Seen(w, k)
    ensures Heeds(w, st, k)
  {
    AgreeMeansSameView(w.ref, w.store.clock, p, k);
    if st.GetStep? && st.k == k && !Seen(w, k) {
      UnseenIsCold(w, k);
    } else if st.EvictStep? && st.k == k && Evictable(w.store, k, w.job.todo[k].stamp.version) {
      assert KeyInv(w, k) && CandidateInv(w, k, w.job.todo[k]);
    }
  }

  lemma {:induction false} UntimedRunHeeds(w: World, p: map<Key, Item>, steps: seq<Step>, k: Key)
    requires Inv(w) && Runs(w, steps) && Untimed(w, steps, k)
    requires Agree(w.ref, w.store.clock, p, k) && (k in p ==> p[k].idle == 0)
    ensures Heedful(w, steps, k)
    decreases |steps|
  {
    if steps != [] {
      UntimedStepHeeds(w, p, steps[0], k);
      StepAgreesIff(w, p, steps[0], k);
      StepKeeps(w, steps[0]);
      UntimedRunHeeds(Next(w, steps[0]), Call(p, w.store.clock, steps[0]), steps[1..], k);
    }
  }

  /** For a key without a time-to-idle nothing needs heeding but its edits. */
  lemma UntimedReadsFollowPlainMap(steps: seq<Step>, k: Key)
    requires Runs(INITIAL, steps) && Untimed(INITIAL, steps, k)
    ensures var w := Run(INITIAL, steps);
      ReadThrough(w.store, w.cold, k).1 == Look(Calls(INITIAL, map[], steps), w.store.clock, k)
  {
    InitialHolds();
    UntimedRunHeeds(INITIAL, map[], steps, k);
    ReadsFollowPlainMap(steps, k);
  }

  // ----- Keys with a time-to-idle -----

  /** What the store shows, the plain map shows, with the same data and, if it can idle out, a
      touch at least as late. */
  predicate Trails(ref: map<Key, Cell>, now: nat, p: map<Key, Item>, k: Key) {
    RefView(ref, now, k).Some? ==>
      Look(p, now, k).Some? && SameItem(ref[k], p[k]) && (p[k].idle == 0 || ref[k].stamp.lastTouch <= p[k].touched)
  }

  lemma TrailsLater(ref: map<Key, Cell>, now: nat, p: map<Key, Item>, later: nat, k: Key)
    requires Trails(ref, now, p, k) && now <= later
    ensures Trails(ref, later, p, k)
  {
    if k in ref {
      LapsesAtItsEnd(ref[k].stamp, now);
      LapsesAtItsEnd(ref[k].stamp, later);
    }
  }

  /** A touch of a visible key at `now`, in the store or not, leaves the store trailing. */
  lemma TouchTrails(ref: map<Key, Cell>, now: nat, p: map<Key, Item>, k: Key)
    requires Trails(ref, now, p, k) && (RefView(ref, now, k).Some? ==> ref[k].stamp.lastTouch <= now)
    ensures Trails(ref, now, Touch(p, now, k), k) && Trails(ref - {k}, now, Touch(p, now, k), k)
    ensures RefView(ref, now, k).Some? ==> Trails(ApplyEvent(ref, Touched(k, now)), now, Touch(p, now, k), k)
  {
    if RefView(ref, now, k).Some? {
      LapsesAtItsEnd(ref[k].stamp, now);
    }
  }

  /** Every edit of the key is handed the plain map's value. */
  predicate Handed(w: World, p: map<Key, Item>, st: Step, k: Key) {
    st.MutateStep? && st.k == k ==> HotValue(ExpireKey(w.store, k), k) == Look(p, w.store.clock, k)
  }

  lemma TouchesAreOld(w: World, k: Key)
    requires Inv(w) && RefView(w.ref, w.store.clock, k).Some?
    ensures w.ref[k].stamp.lastTouch < w.store.clock
  {
    assert KeyInv(w, k);
    if k !in w.store.meta && Lookup(w.cold, k).Some? {
      LookupIsACopy(w.cold.gens, w.cold.tombs, k);
    }
  }

  lemma ElsewhereTrails(w: World, p: map<Key, Item>, st: Step, k: Key)
    requires Enabled(w, st) && Trails(w.ref, w.store.clock, p, k) && !Concerns(st, k)
    ensures Trails(Next(w, st).ref, Next(w, st).store.clock, Call(p, w.store.clock, st), k)
  {
    ClockNeverGoesBack(w, st);
    ElsewhereKept(w, p, st, k);
    TrailsLater(w.ref, w.store.clock, p, Next(w, st).store.clock, k);
  }

  lemma ReadTrails(w: World, p: map<Key, Item>, st: Step, k: Key)
    requires Inv(w) && Trails(w.ref, w.store.clock, p, k) && (st == GetStep(k) || st == ReadStep(k))
    ensures Trails(Next(w, st).ref, Next(w, st).store.clock, Call(p, w.store.clock, st), k)
  {
    if RefView(w.ref, w.store.clock, k).Some? {
      TouchesAreOld(w, k);
    }
    TouchTrails(w.ref, w.store.clock, p, k);
    GetEventIs(w, k);
    ReadEventIs(w, k);
    ClockNeverGoesBack(w, st);
    TrailsLater(Next(w, st).ref, w.store.clock, Touch(p, w.store.clock, k), Next(w, st).store.clock, k);
  }

  lemma EvictTrails(w: World, p: map<Key, Item>, k: Key)
    requires Inv(w) && Enabled(w, EvictStep(k)) && Trails(w.ref, w.store.clock, p, k)
    ensures Trails(Next(w, EvictStep(k)).ref, Next(w, EvictStep(k)).store.clock, p, k)
  {
    assert KeyInv(w, k) && CandidateInv(w, k, w.job.todo[k]);
  }

  lemma EditTrails(w: World, p: map<Key, Item>, edit: Option<Value> -> Edit, k: Key)
    requires Inv(w) && Trails(w.ref, w.store.clock, p, k) && Handed(w, p, MutateStep(k, edit), k)
    ensures var x := Next(w, MutateStep(k, edit)); Trails(x.ref, x.store.clock, Call(p, w.store.clock, MutateStep(k, edit)), k)
  {
    ClockNeverGoesBack(w, MutateStep(k, edit));
    TrailsLater(w.ref, w.store.clock, p, Next(w, MutateStep(k, edit)).store.clock, k);
  }

  lemma WriteTrails(w: World, p: map<Key, Item>, st: Step, k: Key)
    requires Trails(w.ref, w.store.clock, p, k) && Concerns(st, k)
    requires st.PutStep? || st.DeleteStep? || st.ExpireStep?
    ensures Trails(Next(w, st).ref, Next(w, st).store.clock, Call(p, w.store.clock, st), k)
  {
    ClockNeverGoesBack(w, st);
    TrailsLater(w.ref, w.store.clock, p, Next(w, st).store.clock, k);
  }

  lemma StepTrails(w: World, p: map<Key, Item>, st: Step, k: Key)
    requires Inv(w) && Enabled(w, st) && Trails(w.ref, w.store.clock, p, k) && Handed(w, p, st, k)
    ensures Trails(Next(w, st).ref, Next(w, st).store.clock, Call(p, w.store.clock, st), k)
  {
    if !Concerns(st, k) {
      ElsewhereTrails(w, p, st, k);
    } else {
      match st
      case MutateStep(_, edit) => EditTrails(w, p, edit, k);
      case GetStep(_) => ReadTrails(w, p, st, k);
      case ReadStep(_) => ReadTrails(w, p, st, k);
      case EvictStep(_) => EvictTrails(w, p, k);
      case _ => WriteTrails(w, p, st, k);
    }
  }

  predicate AllHanded(w: World, p: map<Key, Item>, steps: seq<Step>, k: Key)
    requires Runs(w, steps)
    decreases |steps|
  {
    steps == []
    || (Handed(w, p, steps[0], k) && AllHanded(Next(w, steps[0]), Call(p, w.store.clock, steps[0]), steps[1..], k))
  }

  lemma {:induction false} RunTrails(w: World, p: map<Key, Item>, steps: seq<Step>, k: Key)
    requires Inv(w) && Runs(w, steps) && AllHanded(w, p, steps, k) && Trails(w.ref, w.store.clock, p, k)
    ensures var x := Run(w, steps); Inv(x) && Trails(x.ref, x.store.clock, Calls(w, p, steps), k)
    decreases |steps|
  {
    if steps != [] {
      StepTrails(w, p, steps[0], k);
      StepKeeps(w, steps[0]);
      RunTrails(Next(w, steps[0]), Call(p, w.store.clock, steps[0]), steps[1..], k);
    }
  }

  /** Whatever is evicted, missed or idled out on the way, a read never shows anything but the
      plain map's value: the only fault left is a key with a time-to-idle that ends too early. */
  lemma ReadsAreNeverAhead(steps: seq<Step>, k: Key)
    requires Runs(INITIAL, steps) && AllHanded(INITIAL, map[], steps, k)
    ensures var w := Run(INITIAL, steps); var p := Calls(INITIAL, map[], steps);
      ReadThrough(w.store, w.cold, k).1.Some? ==>
        ReadThrough(w.store, w.cold, k).1 == Look(p, w.store.clock, k) && Trails(w.ref, w.store.clock, p, k)
  {
    InitialHolds();
    RunTrails(INITIAL, map[], steps, k);
    ReadAnswers(Run(INITIAL, steps), k);
  }

  // ----- Disagreement shows -----

  /** `n` deletes of another key: nothing but time passes for `k`. */
  function Later(w: World, j: Key, n: nat): World {
    if n == 0 then w else Next(Later(w, j, n - 1), DeleteStep(j))
  }

  lemma {:induction false} TimePasses(w: World, j: Key, n: nat, k: Key)
    requires Inv(w) && j != k
    ensures var x := Later(w, j, n);
      && Inv(x) && x.store.clock == w.store.clock + n
      && (k in x.ref <==> k in w.ref) && (k in w.ref ==> x.ref[k] == w.ref[k])
  {
    if n > 0 {
      TimePasses(w, j, n - 1, k);
      StepKeeps(Later(w, j, n - 1), DeleteStep(j));
    }
  }

  lemma ReadLater(w: World, j: Key, n: nat, k: Key)
    requires Inv(w) && j != k
    ensures var x := Later(w, j, n); ReadThrough(x.store, x.cold, k).1 == RefView(w.ref, w.store.clock + n, k)
  {
    TimePasses(w, j, n, k);
    ReadAnswers(Later(w, j, n), k);
  }

  ghost predicate AgreesLater(w: World, p: map<Key, Item>, k: Key, j: Key, n: nat) {
    ReadThrough(Later(w, j, n).store, Later(w, j, n).cold, k).1 == Look(p, w.store.clock + n, k)
  }

  ghost predicate AlwaysAgrees(w: World, p: map<Key, Item>, k: Key, j: Key) {
    forall n :: AgreesLater(w, p, k, j, n)
  }

  lemma DisagreementShows(w: World, p: map<Key, Item>, k: Key, j: Key, n: nat)
    requires Inv(w) && j != k && RefView(w.ref, w.store.clock + n, k) != Look(p, w.store.clock + n, k)
    ensures !AlwaysAgrees(w, p, k, j)
  {
    ReadLater(w, j, n, k);
    assert !AgreesLater(w, p, k, j, n);
  }

  lemma AgreesAfterWait(w: World, p: map<Key, Item>, k: Key, j: Key, n: nat)
    requires Inv(w) && j != k && Agree(w.ref, w.store.clock, p, k)
    ensures AgreesLater(w, p, k, j, n)
  {
    ReadLater(w, j, n, k);
    AgreeLater(w.ref, w.store.clock, p, w.store.clock + n, k);
    AgreeMeansSameView(w.ref, w.store.clock + n, p, k);
  }

  lemma AgreementShows(w: World, p: map<Key, Item>, k: Key, j: Key)
    requires Inv(w) && j != k && Agree(w.ref, w.store.clock, p, k)
    ensures AlwaysAgrees(w, p, k, j)
  {
    forall n ensures AgreesLater(w, p, k, j, n) {
      AgreesAfterWait(w, p, k, j, n);
    }
  }

  /** Two edits with different outcomes are told apart by a read, at once or after a wait. */
  lemma UnlikeEditsShow(ref: map<Key, Cell>, now: nat, p: map<Key, Item>, k: Key, a: Edit, b: Edit) returns (n: nat)
    requires Agree(ref, now, p, k) && Look(p, now, k).Some? && !SameOutcome(a, b, ref[k], now)
    ensures var later := if a.Keep? then now else now + 1;
      RefView(RefEdit(ref, k, a, now), later + n, k) != Look(ItemEdit(p, k, b, now), later + n, k)
  {
    var later, end := if a.Keep? then now else now + 1, StampEnd(ref[k].stamp);
    LapsesAtItsEnd(ref[k].stamp, now);
    LapsesAtItsEnd(ref[k].stamp, now + 1);
    n := 0;
    if RefView(RefEdit(ref, k, a, now), later, k) == Look(ItemEdit(p, k, b, now), later, k) {
      assert end.Some? && later <= end.value;
      n := end.value - later;
      LapsesAtItsEnd(ref[k].stamp, later + n);
    }
  }

  lemma UnlikeEndsShow(ref: map<Key, Cell>, now: nat, p: map<Key, Item>, k: Key) returns (n: nat)
    requires k in ref && Look(p, now, k).Some? && SameItem(ref[k], p[k]) && StampEnd(ref[k].stamp) != ItemEnd(p[k])
    ensures RefView(ref, now + n, k) != Look(p, now + n, k)
  {
    var a, b := StampEnd(ref[k].stamp), ItemEnd(p[k]);
    LapsesAtItsEnd(ref[k].stamp, now);
    n := if a.value <= now then 0 else Min(a.value, b.value) - now;
    LapsesAtItsEnd(ref[k].stamp, now + n);
  }

  lemma UnheededEditShows(w: World, p: map<Key, Item>, edit: Option<Value> -> Edit, k: Key) returns (n: nat)
    requires Inv(w) && Agree(w.ref, w.store.clock, p, k) && !Heeds(w, MutateStep(k, edit), k)
    ensures var x := Next(w, MutateStep(k, edit));
      RefView(x.ref, x.store.clock + n, k) != Look(Call(p, w.store.clock, MutateStep(k, edit)), x.store.clock + n, k)
  {
    UnseenIsCold(w, k);
    AgreeMeansSameView(w.ref, w.store.clock, p, k);
    UnseenEdit(w, edit, k);
    n := UnlikeEditsShow(w.ref, w.store.clock, p, k, edit(None), edit(Some(w.ref[k].value)));
  }

  lemma UnheededGetShows(w: World, p: map<Key, Item>, k: Key) returns (n: nat)
    requires Inv(w) && Agree(w.ref, w.store.clock, p, k) && !Heeds(w, GetStep(k), k)
    ensures var x := Next(w, GetStep(k));
      RefView(x.ref, x.store.clock + n, k) != Look(Call(p, w.store.clock, GetStep(k)), x.store.clock + n, k)
  {
    UnseenIsCold(w, k);
    AgreeMeansSameView(w.ref, w.store.clock, p, k);
    assert KeyInv(w, k);
    var q := Touch(p, w.store.clock, k);
    assert Next(w, GetStep(k)).ref == w.ref && Next(w, GetStep(k)).store == w.store;
    assert StampEnd(w.ref[k].stamp.(lastTouch := w.store.clock)) == ItemEnd(q[k]);
    assert !Over(q[k], w.store.clock);
    n := UnlikeEndsShow(w.ref, w.store.clock, q, k);
  }

  lemma UnheededEvictionShows(w: World, p: map<Key, Item>, k: Key) returns (n: nat)
    requires Inv(w) && Enabled(w, EvictStep(k)) && Agree(w.ref, w.store.clock, p, k) && !Heeds(w, EvictStep(k), k)
    ensures var x := Next(w, EvictStep(k)); RefView(x.ref, x.store.clock + n, k) != Look(p, x.store.clock + n, k)
  {
    assert KeyInv(w, k) && CandidateInv(w, k, w.job.todo[k]);
    AgreeMeansSameView(w.ref, w.store.clock, p, k);
    var x := Next(w, EvictStep(k));
    assert StampEnd(x.ref[k].stamp) == StampEnd(w.job.todo[k].stamp);
    n := UnlikeEndsShow(x.ref, x.store.clock, p, k);
  }

  lemma UnheededStepShows(w: World, p: map<Key, Item>, st: Step, k: Key) returns (n: nat)
    requires Inv(w) && Enabled(w, st) && Agree(w.ref, w.store.clock, p, k) && !Heeds(w, st, k)
    ensures var x := Next(w, st);
      RefView(x.ref, x.store.clock + n, k) != Look(Call(p, w.store.clock, st), x.store.clock + n, k)
  {
    match st
    case MutateStep(_, edit) => n := UnheededEditShows(w, p, edit, k);
    case GetStep(_) => n := UnheededGetShows(w, p, k);
    case EvictStep(_) => n := UnheededEvictionShows(w, p, k);
  }

  /** The exact condition, in terms of reads alone: from agreement, a step heeds a key if and only
      if every read of the key, at once or after any wait, still answers as the plain map does. */
  lemma HeedingIsObservable(w: World, p: map<Key, Item>, st: Step, k: Key, j: Key)
    requires Inv(w) && Enabled(w, st) && Agree(w.ref, w.store.clock, p, k) && j != k
    ensures Heeds(w, st, k) <==> AlwaysAgrees(Next(w, st), Call(p, w.store.clock, st), k, j)
  {
    StepKeeps(w, st);
    if Heeds(w, st, k) {
      StepAgreesIff(w, p, st, k);
      AgreementShows(Next(w, st), Call(p, w.store.clock, st), k, j);
    } else {
      var n := UnheededStepShows(w, p, st, k);
      DisagreementShows(Next(w, st), Call(p, w.store.clock, st), k, j, n);
    }
  }
}
