/** The cold tier's operations as they run over the manifest and the generation files. */
module ColdObject {
  import opened Types
  import opened ObjectStore
  import opened ColdTier
  import opened ColdDisk

  // ----- Newest first -----

  function InsertById(g: GenerationRef, sorted: seq<GenerationRef>): seq<GenerationRef> {
    if sorted == [] || sorted[0].id <= g.id then [g] + sorted
    else [sorted[0]] + InsertById(g, sorted[1..])
  }

  /** The stable sort by descending id that every scan starts with. */
  function NewestFirst(refs: seq<GenerationRef>): seq<GenerationRef> {
    if refs == [] then [] else InsertById(refs[0], NewestFirst(refs[1..]))
  }

  ghost predicate Ascending(refs: seq<GenerationRef>) {
    forall i, j :: 0 <= i < j < |refs| ==> refs[i].id < refs[j].id
  }

  /** On a reachable manifest the sort puts the last generation first, and so on down. */
  lemma {:induction false} NewestFirstPeels(refs: seq<GenerationRef>)
    requires Ascending(refs) && refs != []
    ensures NewestFirst(refs) == [refs[|refs| - 1]] + NewestFirst(refs[..|refs| - 1])
  {
    var rest := refs[1..];
    if rest != [] {
      NewestFirstPeels(rest);
      assert refs[..|refs| - 1][1..] == rest[..|rest| - 1];
      assert refs[..|refs| - 1][0] == refs[0];
    }
  }

  ghost predicate Rising(gens: seq<Generation>) {
    forall i, j :: 0 <= i < j < |gens| ==> gens[i].id < gens[j].id
  }

  lemma {:induction false} SameIds(d: Disk, refs: seq<GenerationRef>, i: nat)
    requires i < |refs|
    ensures |Contents(d, refs)| == |refs| && Contents(d, refs)[i].id == refs[i].id
  {
    NextIdsAgree(d, refs);
    NextIdsAgree(d, refs[..|refs| - 1]);
    if i < |refs| - 1 {
      SameIds(d, refs[..|refs| - 1], i);
    }
  }

  lemma AscendingIffRising(d: Disk)
    ensures Ascending(ManifestOf(d).gens) <==> Rising(View(d).gens)
  {
    var refs := ManifestOf(d).gens;
    NextIdsAgree(d, refs);
    forall i | 0 <= i < |refs| ensures View(d).gens[i].id == refs[i].id {
      SameIds(d, refs, i);
    }
  }

  lemma PublishRises(c: Cold, cells: map<Key, Cell>)
    requires Rising(c.gens)
    ensures Rising(Publish(c, cells).gens)
  {
    NextIdIsFresh(c.gens);
  }

  function ReadGeneration(d: Disk, id: nat): Generation {
    Generation(id, CellsOf(Readable(d, id)))
  }

  /** `order` visits `gens` from last to first. */
  ghost predicate InScanOrder(d: Disk, order: seq<GenerationRef>, gens: seq<Generation>) {
    |gens| == |order|
    && (order != [] ==>
          gens[|gens| - 1] == ReadGeneration(d, order[0].id) && InScanOrder(d, order[1..], gens[..|gens| - 1]))
  }

  lemma {:induction false} ScanOrder(d: Disk, refs: seq<GenerationRef>)
    requires Ascending(refs)
    ensures InScanOrder(d, NewestFirst(refs), Contents(d, refs))
    decreases |refs|
  {
    if refs != [] {
      var front := refs[..|refs| - 1];
      ScanOrder(d, front);
      NewestFirstPeels(refs);
      NextIdsAgree(d, front);
      assert Contents(d, refs)[..|front|] == Contents(d, front);
      assert NewestFirst(refs)[1..] == NewestFirst(front);
    }
  }

  // ----- Surveying generations for compaction -----

  lemma {:induction false} CellsOfAppend(entries: seq<Entry>, e: Entry)
    ensures CellsOf(entries + [e]) ==
      if e.key in CellsOf(entries) then CellsOf(entries) else CellsOf(entries)[e.key := e.cell]
  {
    if entries == [] {
      assert entries + [e] == [e];
      assert [e][1..] == [];
    } else {
      assert (entries + [e])[1..] == entries[1..] + [e];
      CellsOfAppend(entries[1..], e);
    }
  }

  lemma {:induction false} NewestCons(g: Generation, gens: seq<Generation>, k: Key)
    ensures Newest([g] + gens, k) ==
      if Newest(gens, k).Some? then Newest(gens, k)
      else if k in g.cells then Some(g.cells[k]) else None
  {
    var all := [g] + gens;
    if gens == [] {
      assert all == [g] && all[..0] == [];
    } else {
      assert all[..|all| - 1] == [g] + gens[..|gens| - 1];
      NewestCons(g, gens[..|gens| - 1], k);
    }
  }

  lemma KeysOfCons(g: Generation, gens: seq<Generation>)
    ensures KeysOf([g] + gens) == g.cells.Keys + KeysOf(gens)
  {
    var all := [g] + gens;
    forall k ensures k in KeysOf(all) <==> k in g.cells.Keys + KeysOf(gens) {
      if k in KeysOf(gens) {
        var i :| 0 <= i < |gens| && k in gens[i].cells;
        assert all[i + 1] == gens[i];
      }
      if k in g.cells {
        assert all[0] == g;
      }
      if k in KeysOf(all) {
        var i :| 0 <= i < |all| && k in all[i].cells;
        if i > 0 {
          assert all[i] == gens[i - 1];
        }
      }
    }
  }

  lemma HasNewest(gens: seq<Generation>, k: Key)
    ensures Newest(gens, k).Some? <==> k in KeysOf(gens)
  {
    LookupIsACopy(gens, map[], k);
    if k in KeysOf(gens) {
      var i :| 0 <= i < |gens| && k in gens[i].cells;
      assert IsCopy(gens, k, gens[i].cells[k]);
    }
  }

  predicate Keeps(tombs: map<Key, nat>, now: nat, k: Key, c: Option<Cell>) {
    c.Some? && !Blocked(tombs, k, c.value) && !Lapsed(c.value.stamp, now)
  }

  predicate Drops(tombs: map<Key, nat>, now: nat, k: Key, c: Option<Cell>) {
    c.Some? && !Blocked(tombs, k, c.value) && Lapsed(c.value.stamp, now)
  }

  /** Keys whose deciding copy is not blocked but has expired. */
  function ExpiredKeys(c: Cold, now: nat): set<Key> {
    set k | k in KeysOf(c.gens) && Drops(c.tombs, now, k, Newest(c.gens, k))
  }

  ghost predicate KeptAre(gens: seq<Generation>, tombs: map<Key, nat>, now: nat, survivors: seq<Entry>) {
    && (forall k :: k in CellsOf(survivors) <==> Keeps(tombs, now, k, Newest(gens, k)))
    && (forall k :: k in CellsOf(survivors) ==> CellsOf(survivors)[k] == Newest(gens, k).value)
    && |CellsOf(survivors)| == |survivors|
  }

  ghost predicate DroppedAre(gens: seq<Generation>, tombs: map<Key, nat>, now: nat, dropped: set<Key>) {
    forall k :: k in dropped <==> Drops(tombs, now, k, Newest(gens, k))
  }

  /** After looking at `gens`: which keys were seen, exactly which copies survive, and exactly
      which keys were dropped as expired. */
  ghost predicate Surveyed(gens: seq<Generation>, tombs: map<Key, nat>, now: nat,
                           seen: set<Key>, survivors: seq<Entry>, dropped: set<Key>)
  {
    seen == KeysOf(gens) && KeptAre(gens, tombs, now, survivors) && DroppedAre(gens, tombs, now, dropped)
  }

  lemma NewestAfterEntry(id: nat, entries: seq<Entry>, gens: seq<Generation>, e: Entry, k: Key)
    ensures var before, after := [Generation(id, CellsOf(entries))] + gens, [Generation(id, CellsOf(entries + [e]))] + gens;
      && Newest(after, k) == (if k == e.key && k !in KeysOf(before) then Some(e.cell) else Newest(before, k))
      && (k in KeysOf(after) <==> k in KeysOf(before) || k == e.key)
      && (k !in KeysOf(before) ==> Newest(before, k).None?)
  {
    var g, h := Generation(id, CellsOf(entries)), Generation(id, CellsOf(entries + [e]));
    CellsOfAppend(entries, e);
    NewestCons(g, gens, k);
    NewestCons(h, gens, k);
    KeysOfCons(g, gens);
    KeysOfCons(h, gens);
    HasNewest(gens, k);
  }

  /** One more entry of an older generation. */
  lemma SurveyEntry(id: nat, entries: seq<Entry>, gens: seq<Generation>, e: Entry,
                    tombs: map<Key, nat>, now: nat, seen: set<Key>, survivors: seq<Entry>, dropped: set<Key>)
    requires Surveyed([Generation(id, CellsOf(entries))] + gens, tombs, now, seen, survivors, dropped)
    ensures Surveyed([Generation(id, CellsOf(entries + [e]))] + gens, tombs, now, seen + {e.key},
      if e.key !in seen && Keeps(tombs, now, e.key, Some(e.cell)) then survivors + [e] else survivors,
      if e.key !in seen && Drops(tombs, now, e.key, Some(e.cell)) then dropped + {e.key} else dropped)
    ensures dropped <= seen
  {
    var before, after := [Generation(id, CellsOf(entries))] + gens, [Generation(id, CellsOf(entries + [e]))] + gens;
    assert OneMore(before, after, e, seen) by {
      forall k ensures Newest(after, k) == (if k == e.key && k !in seen then Some(e.cell) else Newest(before, k))
                    && (k in KeysOf(after) <==> k in seen || k == e.key)
                    && (k !in seen ==> Newest(before, k).None?) {
        NewestAfterEntry(id, entries, gens, e, k);
      }
    }
    KeptStep(before, after, e, tombs, now, seen, survivors);
    DroppedStep(before, after, e, tombs, now, seen, dropped);
    assert KeysOf(after) == seen + {e.key};
  }

  ghost predicate OneMore(before: seq<Generation>, after: seq<Generation>, e: Entry, seen: set<Key>) {
    && (forall k :: Newest(after, k) == (if k == e.key && k !in seen then Some(e.cell) else Newest(before, k)))
    && (forall k :: k in KeysOf(after) <==> k in seen || k == e.key)
    && (forall k :: k !in seen ==> Newest(before, k).None?)
  }

  lemma KeptStep(before: seq<Generation>, after: seq<Generation>, e: Entry,
                 tombs: map<Key, nat>, now: nat, seen: set<Key>, survivors: seq<Entry>)
    requires KeptAre(before, tombs, now, survivors) && OneMore(before, after, e, seen)
    ensures KeptAre(after, tombs, now,
      if e.key !in seen && Keeps(tombs, now, e.key, Some(e.cell)) then survivors + [e] else survivors)
  {
    CellsOfAppend(survivors, e);
  }

  lemma DroppedStep(before: seq<Generation>, after: seq<Generation>, e: Entry,
                    tombs: map<Key, nat>, now: nat, seen: set<Key>, dropped: set<Key>)
    requires DroppedAre(before, tombs, now, dropped) && OneMore(before, after, e, seen)
    ensures DroppedAre(after, tombs, now,
      if e.key !in seen && Drops(tombs, now, e.key, Some(e.cell)) then dropped + {e.key} else dropped)
    ensures dropped <= seen
  {
  }

  lemma SurveyNothing(tombs: map<Key, nat>, now: nat)
    ensures Surveyed([], tombs, now, {}, [], {})
  {
  }

  lemma SurveyedAll(c: Cold, now: nat, seen: set<Key>, survivors: seq<Entry>, dropped: set<Key>)
    requires Surveyed(c.gens, c.tombs, now, seen, survivors, dropped)
    ensures CellsOf(survivors) == Survivors(c, now) && |survivors| == |Survivors(c, now)|
    ensures dropped == ExpiredKeys(c, now)
  {
    forall k ensures k in dropped <==> k in ExpiredKeys(c, now) {
      HasNewest(c.gens, k);
    }
    forall k ensures k in CellsOf(survivors) <==> k in Survivors(c, now) {
      HasNewest(c.gens, k);
    }
  }

  datatype GcReport = GcReport(
    generationsScanned: nat, recordsScanned: nat, recordsKept: nat, droppedExpired: nat, generationsRemoved: nat)

  class ColdBundle {
    var disk: Disk

    /** Every referenced generation is complete, and ids rise in manifest order. */
    ghost predicate Valid()
      reads this
    {
      Complete(disk) && Ascending(ManifestOf(disk).gens)
    }

    constructor ()
      ensures Valid() && View(disk) == Cold([], map[])
    {
      disk := EMPTY_DISK;
    }

    /** `read_manifest_cold_record`. */
    method ReadRecord(k: Key) returns (r: Option<Cell>)
      requires Valid()
      ensures r == Lookup(View(disk), k)
    {
      var m := ManifestOf(disk);
      ScanOrder(disk, m.gens);
      r := Scan(disk, NewestFirst(m.gens), m.tombs, k, Contents(disk, m.gens));
    }

    static method Scan(d: Disk, order: seq<GenerationRef>, tombs: map<Key, nat>, k: Key, ghost gens: seq<Generation>)
      returns (r: Option<Cell>)
      requires InScanOrder(d, order, gens)
      ensures r == LookupIn(gens, tombs, k)
    {
      ghost var front := gens;
      for i := 0 to |order|
        invariant InScanOrder(d, order[i..], front)
        invariant LookupIn(gens, tombs, k) == LookupIn(front, tombs, k)
      {
        assert order[i..][1..] == order[i + 1..];
        var found := FindEntry(Readable(d, order[i].id), k);
        if found.Some? && !(k in tombs && tombs[k] >= found.value.stamp.version) {
          return found;
        }
        front := front[..|front| - 1];
      }
      return None;
    }

    /** The first index entry of the key. */
    static method FindEntry(entries: seq<Entry>, k: Key) returns (c: Option<Cell>)
      ensures c == if k in CellsOf(entries) then Some(CellsOf(entries)[k]) else None
    {
      for i := 0 to |entries|
        invariant k in CellsOf(entries) <==> k in CellsOf(entries[i..])
        invariant k in CellsOf(entries) ==> CellsOf(entries)[k] == CellsOf(entries[i..])[k]
      {
        assert entries[i..][1..] == entries[i + 1..];
        if entries[i].key == k {
          return Some(entries[i].cell);
        }
      }
      return None;
    }

    method Perform(ops: seq<DiskOp>)
      modifies this
      ensures disk == ApplyAll(old(disk), ops)
    {
      assert ops[..0] == [];
      for i := 0 to |ops|
        invariant disk == ApplyAll(old(disk), ops[..i])
      {
        ApplyLast(old(disk), ops, i);
        disk := Apply(disk, ops[i]);
      }
      assert ops[..|ops|] == ops;
    }

    /** `publish_cold_entries`. */
    method PublishEntries(entries: seq<Entry>)
      requires Valid()
      modifies this
      ensures Valid() && View(disk) == Publish(old(View(disk)), CellsOf(entries))
    {
      AscendingIffRising(disk);
      PublishRises(View(disk), CellsOf(entries));
      var ops := PublishOps(disk, entries);
      PublishIsCrashSafe(disk, entries, |ops|);
      assert ops[..|ops|] == ops;
      Perform(ops);
      if entries == [] {
        assert ops == [];
      }
      AscendingIffRising(disk);
    }

    /** `record_cold_tombstones`: the highest version per key wins; nothing is written for an
        empty batch. */
    method RecordColdTombstones(incoming: map<Key, nat>)
      requires Valid()
      modifies this
      ensures Valid() && View(disk) == RecordTombstones(old(View(disk)), incoming)
      ensures incoming == map[] ==> disk == old(disk)
    {
      if incoming == map[] {
        assert RecordTombstones(View(disk), incoming) == View(disk);
        return;
      }
      var m := ManifestOf(disk);
      var tombs := m.tombs;
      var left := incoming.Keys;
      while left != {}
        invariant left <= incoming.Keys
        invariant tombs.Keys == m.tombs.Keys + (incoming.Keys - left)
        invariant forall k :: k in tombs && (k !in incoming || k in left) ==> tombs[k] == m.tombs[k]
        invariant forall k :: k in incoming && k !in left ==>
          tombs[k] == if k in m.tombs then Max(m.tombs[k], incoming[k]) else incoming[k]
        decreases left
      {
        var k :| k in left;
        left := left - {k};
        tombs := tombs[k := if k in tombs then Max(tombs[k], incoming[k]) else incoming[k]];
      }
      assert tombs == RecordTombstones(View(disk), incoming).tombs;
      ContentsFramed(disk, Apply(disk, InstallManifest(m.(tombs := tombs))), m.gens);
      disk := Apply(disk, InstallManifest(m.(tombs := tombs)));
    }

    /** The scan of `gc_cold_tier`: newest generation first, first copy of a key decides. */
    static method Survey(d: Disk, now: nat) returns (survivors: seq<Entry>, report: GcReport)
      requires Ascending(ManifestOf(d).gens)
      ensures CellsOf(survivors) == Survivors(View(d), now)
      ensures report.recordsKept == |survivors| == |Survivors(View(d), now)|
      ensures report.droppedExpired == |ExpiredKeys(View(d), now)|
      ensures report.generationsScanned == |ManifestOf(d).gens| && report.generationsRemoved == 0
    {
      var m := ManifestOf(d);
      var order := NewestFirst(m.gens);
      ScanOrder(d, m.gens);
      ghost var seen, dropped;
      seen, survivors, report, dropped := SurveyInOrder(d, order, m.tombs, now, Contents(d, m.gens));
      NextIdsAgree(d, m.gens);
      SurveyedAll(View(d), now, seen, survivors, dropped);
    }

    static method SurveyInOrder(d: Disk, order: seq<GenerationRef>, tombs: map<Key, nat>, now: nat, ghost gens: seq<Generation>)
      returns (seen: set<Key>, survivors: seq<Entry>, report: GcReport, ghost dropped: set<Key>)
      requires InScanOrder(d, order, gens)
      ensures Surveyed(gens, tombs, now, seen, survivors, dropped)
      ensures report.recordsKept == |survivors| && report.droppedExpired == |dropped|
      ensures report.generationsScanned == |order| && report.generationsRemoved == 0
    {
      seen, survivors, report, dropped := {}, [], GcReport(0, 0, 0, 0, 0), {};
      ghost var newer, older := [], gens;
      SurveyNothing(tombs, now);
      for i := 0 to |order|
        invariant gens == older + newer && InScanOrder(d, order[i..], older)
        invariant Surveyed(newer, tombs, now, seen, survivors, dropped)
        invariant report.recordsKept == |survivors| && report.droppedExpired == |dropped|
        invariant report.generationsScanned == i && report.generationsRemoved == 0
      {
        var id := order[i].id;
        assert order[i..][1..] == order[i + 1..];
        seen, survivors, report, dropped :=
          SurveyGeneration(id, Readable(d, id), newer, tombs, now, seen, survivors, report, dropped);
        ShiftOne(gens, older, newer);
        newer := [ReadGeneration(d, id)] + newer;
        older := older[..|older| - 1];
      }
      assert newer == gens;
    }

    static lemma ShiftOne(gens: seq<Generation>, older: seq<Generation>, newer: seq<Generation>)
      requires gens == older + newer && older != []
      ensures gens == older[..|older| - 1] + ([older[|older| - 1]] + newer)
    {
    }

    static method SurveyGeneration(id: nat, entries: seq<Entry>, ghost newer: seq<Generation>, tombs: map<Key, nat>, now: nat,
                                   seen0: set<Key>, survivors0: seq<Entry>, report0: GcReport, ghost dropped0: set<Key>)
      returns (seen: set<Key>, survivors: seq<Entry>, report: GcReport, ghost dropped: set<Key>)
      requires Surveyed(newer, tombs, now, seen0, survivors0, dropped0)
      requires report0.recordsKept == |survivors0| && report0.droppedExpired == |dropped0|
      ensures Surveyed([Generation(id, CellsOf(entries))] + newer, tombs, now, seen, survivors, dropped)
      ensures report.recordsKept == |survivors| && report.droppedExpired == |dropped|
      ensures report.generationsScanned == report0.generationsScanned + 1
      ensures report.recordsScanned == report0.recordsScanned + |entries|
      ensures report.generationsRemoved == report0.generationsRemoved
    {
      seen, survivors, dropped := seen0, survivors0, dropped0;
      report := report0.(generationsScanned := report0.generationsScanned + 1);
      StartGeneration(id, newer, tombs, now, seen, survivors, dropped);
      for j := 0 to |entries|
        invariant Surveyed([Generation(id, CellsOf(entries[..j]))] + newer, tombs, now, seen, survivors, dropped)
        invariant report.recordsKept == |survivors| && report.droppedExpired == |dropped|
        invariant report.generationsScanned == report0.generationsScanned + 1
        invariant report.recordsScanned == report0.recordsScanned + j
        invariant report.generationsRemoved == report0.generationsRemoved
      {
        var e := entries[j];
        SurveyAt(id, entries, j, newer, tombs, now, seen, survivors, dropped);
        report := report.(recordsScanned := report.recordsScanned + 1);
        if e.key in seen {
          continue;
        }
        seen := seen + {e.key};
        if e.key in tombs && tombs[e.key] >= e.cell.stamp.version {
          continue;
        }
        if Lapsed(e.cell.stamp, now) {
          report := report.(droppedExpired := report.droppedExpired + 1);
          dropped := dropped + {e.key};
          continue;
        }
        report := report.(recordsKept := report.recordsKept + 1);
        survivors := survivors + [e];
      }
      assert entries[..|entries|] == entries;
    }

    static lemma SurveyAt(id: nat, entries: seq<Entry>, j: nat, newer: seq<Generation>, tombs: map<Key, nat>, now: nat,
                          seen: set<Key>, survivors: seq<Entry>, dropped: set<Key>)
      requires j < |entries|
      requires Surveyed([Generation(id, CellsOf(entries[..j]))] + newer, tombs, now, seen, survivors, dropped)
      ensures var e := entries[j];
        Surveyed([Generation(id, CellsOf(entries[..j + 1]))] + newer, tombs, now, seen + {e.key},
          if e.key !in seen && Keeps(tombs, now, e.key, Some(e.cell)) then survivors + [e] else survivors,
          if e.key !in seen && Drops(tombs, now, e.key, Some(e.cell)) then dropped + {e.key} else dropped)
      ensures entries[j].key in seen ==> seen + {entries[j].key} == seen
      ensures dropped <= seen
    {
      SurveyEntry(id, entries[..j], newer, entries[j], tombs, now, seen, survivors, dropped);
      assert entries[..j + 1] == entries[..j] + [entries[j]];
    }

    static lemma StartGeneration(id: nat, gens: seq<Generation>, tombs: map<Key, nat>, now: nat,
                                 seen: set<Key>, survivors: seq<Entry>, dropped: set<Key>)
      requires Surveyed(gens, tombs, now, seen, survivors, dropped)
      ensures Surveyed([Generation(id, map[])] + gens, tombs, now, seen, survivors, dropped)
    {
      KeysOfCons(Generation(id, map[]), gens);
      forall k ensures Newest([Generation(id, map[])] + gens, k) == Newest(gens, k) {
        NewestCons(Generation(id, map[]), gens, k);
      }
    }

    /** `gc_cold_tier`. */
    method GcColdTier(now: nat) returns (report: GcReport)
      requires Valid()
      modifies this
      ensures Valid() && View(disk) == Gc(old(View(disk)), now)
      ensures report.recordsKept == |Survivors(old(View(disk)), now)|
      ensures report.droppedExpired == |ExpiredKeys(old(View(disk)), now)|
      ensures report.generationsScanned == report.generationsRemoved == |old(View(disk)).gens|
    {
      var survivors;
      survivors, report := Survey(disk, now);
      var was := ManifestOf(disk).gens;
      NextIdsAgree(disk, was);
      var ops := GcOps(disk, survivors);
      GcIsCrashSafe(disk, survivors, |ops|);
      assert ops[..|ops|] == ops;
      var id := NextGenerationId(was);
      Perform(ops);
      AscendingIffRising(disk);
      NextIdUnused(was);
      for i := 0 to |was|
        invariant report.generationsRemoved == i
        invariant report.recordsKept == |Survivors(old(View(disk)), now)|
        invariant report.droppedExpired == |ExpiredKeys(old(View(disk)), now)|
        invariant report.generationsScanned == |was|
      {
        assert was[i] in was;
        if survivors == [] || was[i].id != id {
          report := report.(generationsRemoved := report.generationsRemoved + 1);
        }
      }
    }
  }
}
