/** The write-behind object store as a value: value map, metadata map, dirty entries, clocks.

    Shards are merged into one map, and the dirty queues into one multiset, so that a flush
    may drain any part of it: every theorem below holds whatever the shard layout and the
    order in which the shards are visited. */
module ObjectStore {
  import opened Types

  datatype Op = Put | Delete

  datatype ExpiryMeta = ExpiryMeta(version: nat, lastTouch: nat, expiresAt: nat, ttiTicks: nat)

  datatype Meta = Meta(stamp: ExpiryMeta, tombstone: bool)

  /** A value with its expiry metadata: what a cold generation stores for a key. */
  datatype Cell = Cell(value: Value, stamp: ExpiryMeta)

  /** The queue's `pushed_at` is always the version, so it is not a field of its own. */
  datatype DirtyEntry = DirtyEntry(key: Key, version: nat, op: Op)

  /** What a typed mutator does once it has looked at the hot value. */
  datatype Edit = Keep | Write(value: Value) | Remove

  datatype Store = Store(
    values: map<Key, Value>,
    meta: map<Key, Meta>,
    dirty: multiset<DirtyEntry>,
    clock: nat,
    writeClock: nat)

  const EMPTY_STORE := Store(map[], map[], multiset{}, 1, 0)

  predicate Lapsed(e: ExpiryMeta, now: nat) {
    (e.expiresAt != 0 && now >= e.expiresAt)
    || (e.ttiTicks != 0 && SatSub(now, e.lastTouch) >= e.ttiTicks)
  }

  predicate Live(s: Store, k: Key) {
    k in s.meta && !s.meta[k].tombstone
  }

  function EntryFor(k: Key, m: Meta): DirtyEntry {
    DirtyEntry(k, m.stamp.version, if m.tombstone then Delete else Put)
  }

  predicate PendingKey(s: Store, k: Key) {
    exists e :: e in s.dirty && e.key == k
  }

  // ----- Mutators -----

  function MarkDirty(s: Store, k: Key, op: Op, ttl: nat, tti: nat): Store {
    var version := s.clock;
    var stamp := ExpiryMeta(version, version, if ttl == 0 then 0 else version + ttl, tti);
    s.(meta := s.meta[k := Meta(stamp, op == Delete)],
       dirty := s.dirty + multiset{DirtyEntry(k, version, op)},
       clock := s.clock + 1,
       writeClock := Max(s.writeClock, version))
  }

  function PutWithExpiry(s: Store, k: Key, v: Value, ttl: nat, tti: nat): Store {
    MarkDirty(s.(values := s.values[k := v]), k, Put, ttl, tti)
  }

  function DeleteKey(s: Store, k: Key): Store {
    MarkDirty(s.(values := s.values - {k}), k, Delete, 0, 0)
  }

  predicate DueToExpire(s: Store, k: Key) {
    Live(s, k) && Lapsed(s.meta[k].stamp, s.clock)
  }

  function ExpireKey(s: Store, k: Key): Store {
    if DueToExpire(s, k) then DeleteKey(s, k) else s
  }

  function TouchKey(s: Store, k: Key): Store {
    s.(meta := if k in s.meta
               then s.meta[k := s.meta[k].(stamp := s.meta[k].stamp.(lastTouch := s.clock))]
               else s.meta,
       clock := s.clock + 1)
  }

  function HotValue(s: Store, k: Key): Option<Value> {
    if k in s.values then Some(s.values[k]) else None
  }

  function Get(s: Store, k: Key): (Store, Option<Value>) {
    if DueToExpire(s, k) then (DeleteKey(s, k), None)
    else if k in s.values then (TouchKey(s, k), Some(s.values[k]))
    else (s, None)
  }

  /** Every typed mutator: expire the key if due, then edit the hot value. */
  function Mutate(s: Store, k: Key, edit: Option<Value> -> Edit): Store {
    var t := ExpireKey(s, k);
    match edit(HotValue(t, k))
    case Keep => t
    case Write(v) => PutWithExpiry(t, k, v, 0, 0)
    case Remove => DeleteKey(t, k)
  }

  // ----- Clean loads, promotion and eviction -----

  function LoadClean(s: Store, k: Key, c: Cell): Store {
    s.(values := s.values[k := c.value],
       meta := s.meta[k := Meta(c.stamp, false)],
       clock := Max(s.clock, Max(c.stamp.version, c.stamp.lastTouch) + 1),
       writeClock := Max(s.writeClock, c.stamp.version))
  }

  function LoadCleanDelete(s: Store, k: Key, version: nat): Store {
    s.(values := s.values - {k},
       meta := s.meta - {k},
       clock := Max(s.clock, version + 1),
       writeClock := Max(s.writeClock, version))
  }

  predicate PromotionRefused(s: Store, k: Key, c: Cell) {
    Lapsed(c.stamp, s.clock)
    || (k in s.meta && (s.meta[k].tombstone || s.meta[k].stamp.version >= c.stamp.version))
  }

  function PromoteClean(s: Store, k: Key, c: Cell): (Store, bool) {
    if PromotionRefused(s, k, c) then (s, false) else (LoadClean(s, k, c), true)
  }

  predicate Evictable(s: Store, k: Key, version: nat) {
    && !PendingKey(s, k)
    && Live(s, k)
    && s.meta[k].stamp.version == version
    && !Lapsed(s.meta[k].stamp, s.clock)
    && k in s.values
  }

  function EvictVersioned(s: Store, k: Key, version: nat): (Store, bool) {
    if Evictable(s, k, version)
    then (s.(values := s.values - {k}, meta := s.meta - {k}), true)
    else (s, false)
  }

  // ----- The three phases of a flush -----

  /** A record handed to a backend; no value means a delete. */
  datatype Record = Record(version: nat, value: Option<Value>)

  predicate Current(s: Store, e: DirtyEntry) {
    e.key in s.meta && s.meta[e.key].stamp.version == e.version
  }

  predicate IdleEnough(s: Store, e: DirtyEntry, idle: nat)
    requires Current(s, e)
  {
    SatSub(s.clock, Max(s.meta[e.key].stamp.lastTouch, e.version)) >= idle
  }

  predicate Deferred(s: Store, idle: nat, e: DirtyEntry) {
    Current(s, e) && !IdleEnough(s, e, idle)
  }

  predicate Flushable(s: Store, idle: nat, e: DirtyEntry) {
    && Current(s, e)
    && IdleEnough(s, e, idle)
    && s.meta[e.key].tombstone == (e.op == Delete)
    && (e.op == Put ==> e.key in s.values)
  }

  function RecordFor(s: Store, k: Key): Record
    requires k in s.meta && (!s.meta[k].tombstone ==> k in s.values)
  {
    Record(s.meta[k].stamp.version, if s.meta[k].tombstone then None else Some(s.values[k]))
  }

  function FlushableOf(s: Store, drained: seq<DirtyEntry>, idle: nat): (r: seq<DirtyEntry>)
    ensures forall e :: e in r <==> e in drained && Flushable(s, idle, e)
  {
    if drained == [] then []
    else
      var rest := FlushableOf(s, drained[..|drained| - 1], idle);
      var e := drained[|drained| - 1];
      if Flushable(s, idle, e) then rest + [e] else rest
  }

  function DeferredOf(s: Store, drained: seq<DirtyEntry>, idle: nat): (r: seq<DirtyEntry>)
    ensures forall e :: e in r <==> e in drained && Deferred(s, idle, e)
    ensures idle == 0 ==> r == []
  {
    if drained == [] then []
    else
      var rest := DeferredOf(s, drained[..|drained| - 1], idle);
      var e := drained[|drained| - 1];
      if Deferred(s, idle, e) then rest + [e] else rest
  }

  function BatchOf(s: Store, flushed: seq<DirtyEntry>): map<Key, Record>
    requires forall e :: e in flushed ==>
      e.key in s.meta && (!s.meta[e.key].tombstone ==> e.key in s.values)
  {
    map e | e in flushed :: e.key := RecordFor(s, e.key)
  }

  /** Keys whose flushed delete is still the latest word on them: their tombstone is dropped. */
  function Settled(s: Store, flushed: seq<DirtyEntry>): set<Key> {
    set e | e in flushed && e.op == Delete && Current(s, e) && s.meta[e.key].tombstone :: e.key
  }

  function CleanupAfterFlush(s: Store, flushed: seq<DirtyEntry>): Store {
    s.(values := s.values - Settled(s, flushed), meta := s.meta - Settled(s, flushed))
  }

  function Requeue(s: Store, entries: seq<DirtyEntry>): Store {
    s.(dirty := s.dirty + multiset(entries))
  }
}
