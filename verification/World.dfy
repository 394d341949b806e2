/** The store, its cold tier and its flush backend, run as one state machine.

    Every step is one lock-protected action of the program, so any number of client steps may
    come between the phases of a flush (collect, backend call, commit or requeue) and between
    the phases of a policy demotion (snapshot, publish, one eviction at a time, tombstones).
    The persistence handle runs one flush or demotion at a time: that is the single `job`.

    `ref` is the map the two tiers stand for together: the client events as the store carried
    them out, with the touch that an eviction leaves behind. How far it agrees with a map that
    knows the client's calls alone is the subject of `PlainMap`. */
module World {
  import opened Types
  import opened ObjectStore
  import opened ColdTier

  datatype Job =
    | Idle
    | Collected(batch: map<Key, Record>, flushed: seq<DirtyEntry>, deferred: seq<DirtyEntry>)
    | Accepted(batch: map<Key, Record>, flushed: seq<DirtyEntry>, deferred: seq<DirtyEntry>)
    | Rejected(flushed: seq<DirtyEntry>, deferred: seq<DirtyEntry>)
    | Selected(cands: map<Key, Cell>)
    | Evicting(todo: map<Key, Cell>, failed: map<Key, Cell>)

  datatype World = World(
    store: Store,
    cold: Cold,
    backend: map<Key, Record>,
    job: Job,
    ref: map<Key, Cell>)

  const INITIAL := World(EMPTY_STORE, EMPTY_COLD, map[], Idle, map[])

  datatype Step =
    | PutStep(k: Key, v: Value, ttl: nat, tti: nat)
    | DeleteStep(k: Key)
    | MutateStep(k: Key, edit: Option<Value> -> Edit)
    | ExpireStep(k: Key)
    | GetStep(k: Key)
    | ReadStep(k: Key)
    | CollectStep(drained: seq<DirtyEntry>, idle: nat)
    | AcceptStep
    | RejectStep(landed: set<Key>, marked: bool)
    | CommitStep
    | RequeueStep
    | SelectStep(keys: set<Key>)
    | PublishStep
    | EvictStep(k: Key)
    | FinishDemotionStep
    | AbortDemotionStep
    | GcStep

  // ----- The reference map -----

  datatype Event =
    | Wrote(k: Key, v: Value, at: nat, ttl: nat, tti: nat)
    | Removed(k: Key)
    | Touched(k: Key, at: nat)
    | Silent

  function ApplyEvent(ref: map<Key, Cell>, e: Event): map<Key, Cell> {
    match e
    case Wrote(k, v, at, ttl, tti) =>
      ref[k := Cell(v, ExpiryMeta(at, at, if ttl == 0 then 0 else at + ttl, tti))]
    case Removed(k) => ref - {k}
    case Touched(k, at) =>
      if k in ref then ref[k := ref[k].(stamp := ref[k].stamp.(lastTouch := at))] else ref
    case Silent => ref
  }

  function RefView(ref: map<Key, Cell>, now: nat, k: Key): Option<Value> {
    if k in ref && !Lapsed(ref[k].stamp, now) then Some(ref[k].value) else None
  }

  // ----- Steps -----

  /** `get_with_cold_promotion`. */
  function ReadThrough(s: Store, c: Cold, k: Key): (Store, Option<Value>) {
    var (s1, r) := Get(s, k);
    if r.Some? then (s1, r) else Get(PromoteFrom(s1, c, k).0, k)
  }

  function ExpireEvent(s: Store, k: Key): Event {
    if DueToExpire(s, k) then Removed(k) else Silent
  }

  function GetEvent(s: Store, k: Key): Event {
    if DueToExpire(s, k) then Removed(k)
    else if k in s.values then Touched(k, s.clock)
    else Silent
  }

  function ReadEvent(s: Store, c: Cold, k: Key): Event {
    if DueToExpire(s, k) || k in s.values then GetEvent(s, k)
    else GetEvent(PromoteFrom(s, c, k).0, k)
  }

  function MutateEvent(s: Store, k: Key, edit: Option<Value> -> Edit): Event {
    var t := ExpireKey(s, k);
    match edit(HotValue(t, k))
    case Keep => ExpireEvent(s, k)
    case Write(v) => Wrote(k, v, t.clock, 0, 0)
    case Remove => Removed(k)
  }

  function HotCell(s: Store, k: Key): Cell
    requires k in s.meta && k in s.values
  {
    Cell(s.values[k], s.meta[k].stamp)
  }

  predicate Selectable(s: Store, k: Key) {
    Live(s, k) && k in s.values && !Lapsed(s.meta[k].stamp, s.clock) && !PendingKey(s, k)
  }

  predicate AllSelectable(s: Store, keys: set<Key>) {
    forall k :: k in keys ==> Selectable(s, k)
  }

  function Cells(s: Store, keys: set<Key>): map<Key, Cell>
    requires AllSelectable(s, keys)
  {
    map k | k in keys :: HotCell(s, k)
  }

  function DeletedVersions(batch: map<Key, Record>): map<Key, nat> {
    map k | k in batch && batch[k].value.None? :: batch[k].version
  }

  function Versions(cells: map<Key, Cell>): map<Key, nat> {
    map k | k in cells :: cells[k].stamp.version
  }

  predicate Enabled(w: World, st: Step) {
    match st
    case CollectStep(drained, _) => w.job.Idle? && multiset(drained) <= w.store.dirty
    case AcceptStep => w.job.Collected?
    // A failed call may have landed any part of its batch; once all of it has, the deletes'
    // cold tombstones may be in place as well.
    case RejectStep(landed, marked) =>
      w.job.Collected? && landed <= w.job.batch.Keys && (marked ==> landed == w.job.batch.Keys)
    case CommitStep => w.job.Accepted?
    case RequeueStep => w.job.Rejected?
    case SelectStep(keys) => w.job.Idle? && keys != {} && AllSelectable(w.store, keys)
    case PublishStep => w.job.Selected?
    case EvictStep(k) => w.job.Evicting? && k in w.job.todo
    case FinishDemotionStep => w.job.Evicting? && w.job.todo == map[]
    // Publishing, or writing the tombstones, failed: what is in place stays in place.
    case AbortDemotionStep => w.job.Selected? || w.job.Evicting?
    case _ => true
  }

  function Client(w: World, s: Store, e: Event): World {
    w.(store := s, ref := ApplyEvent(w.ref, e))
  }

  function EventOf(w: World, st: Step): Event
    requires Enabled(w, st)
  {
    match st
    case PutStep(k, v, ttl, tti) => Wrote(k, v, w.store.clock, ttl, tti)
    case DeleteStep(k) => Removed(k)
    case MutateStep(k, edit) => MutateEvent(w.store, k, edit)
    case ExpireStep(k) => ExpireEvent(w.store, k)
    case GetStep(k) => GetEvent(w.store, k)
    case ReadStep(k) => ReadEvent(w.store, w.cold, k)
    case EvictStep(k) =>
      // An eviction leaves the published stamp behind, not the one in memory.
      if Evictable(w.store, k, w.job.todo[k].stamp.version) then Touched(k, w.job.todo[k].stamp.lastTouch) else Silent
    case _ => Silent
  }

  function StoreAfter(w: World, st: Step): Store
    requires Enabled(w, st)
  {
    var s := w.store;
    match st
    case PutStep(k, v, ttl, tti) => PutWithExpiry(s, k, v, ttl, tti)
    case DeleteStep(k) => DeleteKey(s, k)
    case MutateStep(k, edit) => Mutate(s, k, edit)
    case ExpireStep(k) => ExpireKey(s, k)
    case GetStep(k) => Get(s, k).0
    case ReadStep(k) => ReadThrough(s, w.cold, k).0
    case CollectStep(drained, _) => s.(dirty := s.dirty - multiset(drained))
    case CommitStep => Requeue(CleanupAfterFlush(s, w.job.flushed), w.job.deferred)
    case RequeueStep => Requeue(s, w.job.flushed + w.job.deferred)
    case EvictStep(k) => EvictVersioned(s, k, w.job.todo[k].stamp.version).0
    case _ => s
  }

  function ColdAfter(w: World, st: Step): Cold
    requires Enabled(w, st)
  {
    match st
    case AcceptStep => RecordTombstones(w.cold, DeletedVersions(w.job.batch))
    case RejectStep(_, marked) =>
      if marked then RecordTombstones(w.cold, DeletedVersions(w.job.batch)) else w.cold
    case PublishStep => Publish(w.cold, w.job.cands)
    case FinishDemotionStep => RecordTombstones(w.cold, Versions(w.job.failed))
    case GcStep => Gc(w.cold, w.store.clock)
    case _ => w.cold
  }

  function JobAfter(w: World, st: Step): Job
    requires Enabled(w, st)
  {
    var s := w.store;
    match st
    case CollectStep(drained, idle) =>
      var flushed := FlushableOf(s, drained, idle);
      Collected(BatchOf(s, flushed), flushed, DeferredOf(s, drained, idle))
    case AcceptStep => Accepted(w.job.batch, w.job.flushed, w.job.deferred)
    case RejectStep(_, _) => Rejected(w.job.flushed, w.job.deferred)
    case CommitStep => Idle
    case RequeueStep => Idle
    case SelectStep(keys) => Selected(Cells(s, keys))
    case PublishStep => Evicting(w.job.cands, map[])
    case EvictStep(k) =>
      if Evictable(s, k, w.job.todo[k].stamp.version)
      then Evicting(w.job.todo - {k}, w.job.failed)
      else Evicting(w.job.todo - {k}, w.job.failed[k := w.job.todo[k]])
    case FinishDemotionStep => Idle
    case AbortDemotionStep => Idle
    case _ => w.job
  }

  function BackendAfter(w: World, st: Step): map<Key, Record>
    requires Enabled(w, st)
  {
    match st
    case AcceptStep => w.backend + w.job.batch
    case RejectStep(landed, _) => w.backend + (map k | k in landed :: w.job.batch[k])
    case _ => w.backend
  }

  function Next(w: World, st: Step): World
    requires Enabled(w, st)
  {
    World(StoreAfter(w, st), ColdAfter(w, st), BackendAfter(w, st), JobAfter(w, st),
          ApplyEvent(w.ref, EventOf(w, st)))
  }

  // ----- The invariant -----

  predicate Backed(w: World, k: Key, version: nat) {
    k in w.backend && w.backend[k].version == version
  }

  predicate InFlight(j: Job, e: DirtyEntry) {
    match j
    case Collected(_, flushed, deferred) => e in flushed || e in deferred
    case Rejected(flushed, deferred) => e in flushed || e in deferred
    case Accepted(_, _, deferred) => e in deferred
    case _ => false
  }

  predicate Pending(w: World, e: DirtyEntry) {
    e in w.store.dirty || InFlight(w.job, e)
  }

  predicate SameData(x: Cell, y: Cell) {
    x.value == y.value && x.stamp.expiresAt == y.stamp.expiresAt && x.stamp.ttiTicks == y.stamp.ttiTicks
  }

  /** No cold copy is newer than `c`, and one of the same version carries the same data. */
  ghost predicate CopiesUpTo(cold: Cold, k: Key, c: Cell) {
    forall x :: IsCopy(cold.gens, k, x) ==>
      x.stamp.version <= c.stamp.version && (x.stamp.version == c.stamp.version ==> SameData(x, c))
  }

  ghost predicate CopiesBelow(cold: Cold, k: Key, version: nat) {
    forall x :: IsCopy(cold.gens, k, x) ==> x.stamp.version < version
  }

  ghost predicate Bounds(w: World, k: Key) {
    && w.store.writeClock < w.store.clock
    && (k in w.store.meta ==>
          && 0 < w.store.meta[k].stamp.version <= w.store.writeClock
          && w.store.meta[k].stamp.lastTouch < w.store.clock)
    && (k in w.backend ==> 0 < w.backend[k].version <= w.store.writeClock)
    && (k in w.cold.tombs ==> w.cold.tombs[k] <= w.store.writeClock)
    && (forall x :: IsCopy(w.cold.gens, k, x) ==>
          0 < x.stamp.version <= w.store.writeClock && x.stamp.lastTouch < w.store.clock)
    && (k in w.store.values <==> Live(w.store, k))
  }

  ghost predicate LiveInv(w: World, k: Key)
    requires Live(w.store, k) && k in w.store.values
  {
    var m := w.store.meta[k];
    var c := HotCell(w.store, k);
    && k in w.ref && w.ref[k] == c
    && CopiesUpTo(w.cold, k, c)
    && (Blocked(w.cold.tombs, k, c) ==> Lapsed(m.stamp, w.store.clock))
    && (k in w.backend ==> w.backend[k].version <= m.stamp.version)
    && (Backed(w, k, m.stamp.version) ==> w.backend[k].value == Some(c.value))
    && (Backed(w, k, m.stamp.version) || Pending(w, EntryFor(k, m)))
  }

  ghost predicate TombstoneInv(w: World, k: Key)
    requires k in w.store.meta
  {
    var m := w.store.meta[k];
    && k !in w.ref
    && CopiesBelow(w.cold, k, m.stamp.version)
    && (k in w.backend ==> w.backend[k].version <= m.stamp.version)
    && (Backed(w, k, m.stamp.version) ==> w.backend[k].value == None)
    && ((Backed(w, k, m.stamp.version) && k in w.cold.tombs && w.cold.tombs[k] >= m.stamp.version)
        || Pending(w, EntryFor(k, m)))
  }

  ghost predicate AbsentInv(w: World, k: Key) {
    if k in w.ref then
      && CopiesUpTo(w.cold, k, w.ref[k])
      && k in w.backend && w.backend[k] == Record(w.ref[k].stamp.version, Some(w.ref[k].value))
      && (Lookup(w.cold, k) == Some(w.ref[k])
          || (Lookup(w.cold, k) == None && Lapsed(w.ref[k].stamp, w.store.clock)))
    else
      && Lookup(w.cold, k) == None
      && (k in w.backend ==> w.backend[k].value == None)
  }

  ghost predicate KeyInv(w: World, k: Key) {
    && Bounds(w, k)
    && (if Live(w.store, k) then LiveInv(w, k)
        else if k in w.store.meta then TombstoneInv(w, k)
        else AbsentInv(w, k))
  }

  /** A snapshotted candidate is at most as new as its key, and equal to it when as new. */
  ghost predicate CandidateInv(w: World, k: Key, c: Cell) {
    && k in w.store.meta
    && 0 < c.stamp.version <= w.store.meta[k].stamp.version
    && c.stamp.lastTouch < w.store.clock
    && CopiesUpTo(w.cold, k, c)
    && (c.stamp.version == w.store.meta[k].stamp.version ==>
          && k in w.store.values && SameData(c, HotCell(w.store, k)) && !PendingKey(w.store, k)
          && c.stamp.lastTouch <= w.store.meta[k].stamp.lastTouch)
  }

  ghost predicate PublishedInv(w: World, k: Key, c: Cell) {
    k in w.store.meta && c.stamp.version == w.store.meta[k].stamp.version
    && !Lapsed(w.store.meta[k].stamp, w.store.clock)
    ==> Lookup(w.cold, k) == Some(c) || (Lookup(w.cold, k) == None && Lapsed(c.stamp, w.store.clock))
  }

  ghost predicate FailedInv(w: World, k: Key, c: Cell) {
    && k in w.store.meta
    && c.stamp.version <= w.store.meta[k].stamp.version
    && (c.stamp.version == w.store.meta[k].stamp.version ==>
          Live(w.store, k) && Lapsed(w.store.meta[k].stamp, w.store.clock))
  }

  ghost predicate BatchInv(w: World, k: Key, r: Record) {
    && k in w.store.meta
    && 0 < r.version <= w.store.meta[k].stamp.version
    && (r.version == w.store.meta[k].stamp.version ==>
          r.value == (if Live(w.store, k) then HotValue(w.store, k) else None))
    && (k in w.backend ==> w.backend[k].version <= r.version)
  }

  function EntryOf(k: Key, r: Record): DirtyEntry {
    DirtyEntry(k, r.version, if r.value.None? then Delete else Put)
  }

  predicate FlushedInv(batch: map<Key, Record>, e: DirtyEntry) {
    e.key in batch && batch[e.key].version == e.version && (e.op == Delete <==> batch[e.key].value.None?)
  }

  ghost predicate JobInv(w: World) {
    match w.job
    case Idle => true
    case Collected(batch, flushed, _) =>
      && (forall k :: k in batch ==> BatchInv(w, k, batch[k]) && EntryOf(k, batch[k]) in flushed)
      && (forall e :: e in flushed ==> FlushedInv(batch, e))
    case Accepted(batch, flushed, _) =>
      && (forall k :: k in batch ==> BatchInv(w, k, batch[k]) && k in w.backend && w.backend[k] == batch[k])
      && (forall k :: k in batch && batch[k].value.None? ==> k in w.cold.tombs && w.cold.tombs[k] >= batch[k].version)
      && (forall e :: e in flushed ==> FlushedInv(batch, e))
    case Rejected(_, _) => true
    case Selected(cands) => forall k :: k in cands ==> CandidateInv(w, k, cands[k])
    case Evicting(todo, failed) =>
      && todo.Keys !! failed.Keys
      && (forall k :: k in todo ==> CandidateInv(w, k, todo[k]) && PublishedInv(w, k, todo[k]))
      && (forall k :: k in failed ==> FailedInv(w, k, failed[k]))
  }

  ghost predicate Inv(w: World) {
    && Ordered(w.cold.gens)
    && (forall k :: KeyInv(w, k))
    && JobInv(w)
  }
}
