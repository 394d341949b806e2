/** The cold tier behind the manifest: generations in publication order, and tombstones. */
module ColdTier {
  import opened Types
  import opened ObjectStore

  /** A generation's readable content; one that cannot be read contributes no cells. */
  datatype Generation = Generation(id: nat, cells: map<Key, Cell>)

  datatype Cold = Cold(gens: seq<Generation>, tombs: map<Key, nat>)

  const EMPTY_COLD := Cold([], map[])

  predicate Blocked(tombs: map<Key, nat>, k: Key, c: Cell) {
    k in tombs && tombs[k] >= c.stamp.version
  }

  /** `read_manifest_cold_record`: newest generation first, skipping blocked copies. */
  function LookupIn(gens: seq<Generation>, tombs: map<Key, nat>, k: Key): Option<Cell> {
    if gens == [] then None
    else
      var g := gens[|gens| - 1];
      if k in g.cells && !Blocked(tombs, k, g.cells[k]) then Some(g.cells[k])
      else LookupIn(gens[..|gens| - 1], tombs, k)
  }

  function Lookup(c: Cold, k: Key): Option<Cell> {
    LookupIn(c.gens, c.tombs, k)
  }

  function Newest(gens: seq<Generation>, k: Key): Option<Cell> {
    LookupIn(gens, map[], k)
  }

  ghost predicate IsCopy(gens: seq<Generation>, k: Key, c: Cell) {
    exists i :: 0 <= i < |gens| && k in gens[i].cells && gens[i].cells[k] == c
  }

  function NextId(gens: seq<Generation>): nat {
    if gens == [] then 1
    else Max(gens[|gens| - 1].id + 1, NextId(gens[..|gens| - 1]))
  }

  function Publish(c: Cold, cells: map<Key, Cell>): Cold {
    if cells == map[] then c else c.(gens := c.gens + [Generation(NextId(c.gens), cells)])
  }

  function RecordTombstones(c: Cold, incoming: map<Key, nat>): Cold {
    c.(tombs := map k | k in c.tombs.Keys + incoming.Keys ::
         if k !in incoming then c.tombs[k]
         else if k !in c.tombs then incoming[k]
         else Max(c.tombs[k], incoming[k]))
  }

  function KeysOf(gens: seq<Generation>): set<Key> {
    set i, k | 0 <= i < |gens| && k in gens[i].cells :: k
  }

  /** What `gc_cold_tier` keeps: per key the newest copy, unless blocked or lapsed. */
  function Survivors(c: Cold, now: nat): map<Key, Cell> {
    map k | k in KeysOf(c.gens) && Newest(c.gens, k).Some?
            && !Blocked(c.tombs, k, Newest(c.gens, k).value)
            && !Lapsed(Newest(c.gens, k).value.stamp, now)
         :: Newest(c.gens, k).value
  }

  function Gc(c: Cold, now: nat): Cold {
    var kept := Survivors(c, now);
    c.(gens := if kept == map[] then [] else [Generation(NextId(c.gens), kept)])
  }

  // ----- Reachable manifests -----

  /** Ids strictly increase, and a later generation never holds an older copy of a key. */
  ghost predicate Ordered(gens: seq<Generation>) {
    && (forall i, j :: 0 <= i < j < |gens| ==> gens[i].id < gens[j].id)
    && (forall i, j, k :: 0 <= i < j < |gens| && k in gens[i].cells && k in gens[j].cells
          ==> gens[i].cells[k].stamp.version <= gens[j].cells[k].stamp.version)
  }

  lemma {:induction false} NextIdIsFresh(gens: seq<Generation>)
    ensures forall i :: 0 <= i < |gens| ==> gens[i].id < NextId(gens)
  {
    if gens != [] {
      NextIdIsFresh(gens[..|gens| - 1]);
    }
  }

  /** A lookup only ever returns an unblocked copy, and finds nothing only if all are blocked. */
  lemma {:induction false} LookupIsACopy(gens: seq<Generation>, tombs: map<Key, nat>, k: Key)
    ensures LookupIn(gens, tombs, k).Some? ==>
      IsCopy(gens, k, LookupIn(gens, tombs, k).value) && !Blocked(tombs, k, LookupIn(gens, tombs, k).value)
    ensures LookupIn(gens, tombs, k).None? ==> forall c :: IsCopy(gens, k, c) ==> Blocked(tombs, k, c)
  {
    if gens != [] {
      var front := gens[..|gens| - 1];
      LookupIsACopy(front, tombs, k);
      var g := gens[|gens| - 1];
      forall c | IsCopy(gens, k, c)
        ensures IsCopy(front, k, c) || (k in g.cells && g.cells[k] == c)
      {
        var i :| 0 <= i < |gens| && k in gens[i].cells && gens[i].cells[k] == c;
        if i < |front| {
          assert front[i] == gens[i];
        }
      }
      if LookupIn(front, tombs, k).Some? {
        var c := LookupIn(front, tombs, k).value;
        var i :| 0 <= i < |front| && k in front[i].cells && front[i].cells[k] == c;
        assert gens[i] == front[i];
      }
    }
  }

  /** In an ordered manifest no copy is newer than the newest one. */
  lemma {:induction false} NewestIsGreatest(gens: seq<Generation>, k: Key, c: Cell)
    requires Ordered(gens) && IsCopy(gens, k, c)
    ensures Newest(gens, k).Some? && c.stamp.version <= Newest(gens, k).value.stamp.version
  {
    var g := gens[|gens| - 1];
    if k !in g.cells {
      var front := gens[..|gens| - 1];
      var i :| 0 <= i < |gens| && k in gens[i].cells && gens[i].cells[k] == c;
      assert front[i] == gens[i];
      NewestIsGreatest(front, k, c);
    }
  }

  /** A blocked newest copy never uncovers an older one: the scan is decided by the newest copy. */
  lemma {:induction false} NewestDecides(c: Cold, k: Key)
    requires Ordered(c.gens)
    ensures Lookup(c, k) ==
      (match Newest(c.gens, k)
       case None => None
       case Some(cell) => if Blocked(c.tombs, k, cell) then None else Some(cell))
  {
    LookupIsACopy(c.gens, map[], k);
    LookupIsACopy(c.gens, c.tombs, k);
    if Newest(c.gens, k).Some? {
      var cell := Newest(c.gens, k).value;
      if Blocked(c.tombs, k, cell) {
        if Lookup(c, k).Some? {
          NewestIsGreatest(c.gens, k, Lookup(c, k).value);
        }
      } else {
        UnblockedNewestIsFound(c.gens, c.tombs, k);
      }
    }
  }

  lemma {:induction false} UnblockedNewestIsFound(gens: seq<Generation>, tombs: map<Key, nat>, k: Key)
    requires Newest(gens, k).Some? && !Blocked(tombs, k, Newest(gens, k).value)
    ensures LookupIn(gens, tombs, k) == Newest(gens, k)
  {
    if k !in gens[|gens| - 1].cells {
      UnblockedNewestIsFound(gens[..|gens| - 1], tombs, k);
    }
  }

  /** Raising tombstones keeps every lookup, except those whose copies it now blocks. */
  lemma {:induction false} TombstonesOnlyBlock(c: Cold, incoming: map<Key, nat>, k: Key)
    requires Ordered(c.gens)
    ensures var d := RecordTombstones(c, incoming);
      Lookup(d, k) == Lookup(c, k)
      || (Lookup(d, k).None? && Lookup(c, k).Some? && k in incoming
          && incoming[k] >= Lookup(c, k).value.stamp.version)
  {
    NewestDecides(c, k);
    NewestDecides(RecordTombstones(c, incoming), k);
  }

  /** Publishing puts exactly the published cells in front, unless a tombstone blocks them. */
  lemma PublishShadows(c: Cold, cells: map<Key, Cell>, k: Key)
    ensures Lookup(Publish(c, cells), k) ==
      if k in cells && !Blocked(c.tombs, k, cells[k]) then Some(cells[k]) else Lookup(c, k)
  {
    if cells != map[] {
      var gens := Publish(c, cells).gens;
      assert gens[..|gens| - 1] == c.gens;
    }
  }

  lemma PublishKeepsOrder(c: Cold, cells: map<Key, Cell>)
    requires Ordered(c.gens)
    requires forall k, x :: k in cells && IsCopy(c.gens, k, x) ==> x.stamp.version <= cells[k].stamp.version
    ensures Ordered(Publish(c, cells).gens)
  {
    NextIdIsFresh(c.gens);
    var gens := Publish(c, cells).gens;
    forall i, j, k | 0 <= i < j < |gens| && k in gens[i].cells && k in gens[j].cells
      ensures gens[i].cells[k].stamp.version <= gens[j].cells[k].stamp.version
    {
      if j == |c.gens| {
        assert IsCopy(c.gens, k, gens[i].cells[k]);
      }
    }
  }

  lemma CopiesAfterPublish(c: Cold, cells: map<Key, Cell>, k: Key, x: Cell)
    requires IsCopy(Publish(c, cells).gens, k, x)
    ensures IsCopy(c.gens, k, x) || (k in cells && cells[k] == x)
  {
    var gens := Publish(c, cells).gens;
    var i :| 0 <= i < |gens| && k in gens[i].cells && gens[i].cells[k] == x;
    if i < |c.gens| {
      assert c.gens[i] == gens[i];
    }
  }

  // ----- Compaction -----

  lemma CopiesAfterGc(c: Cold, now: nat, k: Key, x: Cell)
    requires IsCopy(Gc(c, now).gens, k, x)
    ensures IsCopy(c.gens, k, x)
  {
    LookupIsACopy(c.gens, map[], k);
  }

  /** Compaction is invisible: a lookup is unchanged, or its copy had already lapsed. */
  lemma {:induction false} GcKeepsLookups(c: Cold, now: nat, k: Key)
    requires Ordered(c.gens)
    ensures Ordered(Gc(c, now).gens) && Gc(c, now).tombs == c.tombs
    ensures Lookup(Gc(c, now), k) == Lookup(c, k)
      || (Lookup(Gc(c, now), k).None? && Lookup(c, k).Some? && Lapsed(Lookup(c, k).value.stamp, now))
  {
    NewestDecides(c, k);
    LookupIsACopy(c.gens, map[], k);
    var kept := Survivors(c, now);
    var d := Gc(c, now);
    if kept != map[] {
      assert d.gens[..0] == [];
      assert Lookup(d, k) == if k in kept && !Blocked(d.tombs, k, kept[k]) then Some(kept[k]) else LookupIn([], d.tombs, k);
    }
    if Newest(c.gens, k).Some? {
      var cell := Newest(c.gens, k).value;
      assert IsCopy(c.gens, k, cell);
    }
  }

  /** A key read through the store gets the same answer and the same store before and after
      compaction, at the collection's clock or any later one. */
  lemma GcIsInvisible(c: Cold, now: nat, s: Store, k: Key)
    requires Ordered(c.gens) && now <= s.clock
    ensures PromoteFrom(s, Gc(c, now), k) == PromoteFrom(s, c, k)
  {
    GcKeepsLookups(c, now, k);
  }

  /** `promote_cold_key`. */
  function PromoteFrom(s: Store, c: Cold, k: Key): (Store, bool) {
    match Lookup(c, k)
    case None => (s, false)
    case Some(cell) => PromoteClean(s, k, cell)
  }
}
