/** The cold tier on disk: one manifest, and a data and an index file per generation.

    Every file reaches its final name by a rename, so it is complete or absent; a crash may come
    after any single remove or rename. */
module ColdDisk {
  import opened Types
  import opened ObjectStore
  import opened ColdTier

  datatype Entry = Entry(key: Key, cell: Cell)

  datatype GenerationRef = GenerationRef(id: nat, records: nat)

  datatype Manifest = Manifest(gens: seq<GenerationRef>, tombs: map<Key, nat>)

  /** An index file locates the records of one particular data file; it is represented by the
      entries it was built for. */
  datatype Disk = Disk(manifest: Option<Manifest>, data: map<nat, seq<Entry>>, index: map<nat, seq<Entry>>)

  const EMPTY_DISK := Disk(None, map[], map[])

  datatype DiskOp =
    | RemoveData(id: nat)
    | RemoveIndex(id: nat)
    | InstallData(id: nat, entries: seq<Entry>)
    | InstallIndex(id: nat, entries: seq<Entry>)
    | InstallManifest(manifest: Manifest)

  function Apply(d: Disk, op: DiskOp): Disk {
    match op
    case RemoveData(id) => d.(data := d.data - {id})
    case RemoveIndex(id) => d.(index := d.index - {id})
    case InstallData(id, entries) => d.(data := d.data[id := entries])
    case InstallIndex(id, entries) => d.(index := d.index[id := entries])
    case InstallManifest(m) => d.(manifest := Some(m))
  }

  function ApplyAll(d: Disk, ops: seq<DiskOp>): Disk {
    if ops == [] then d else Apply(ApplyAll(d, ops[..|ops| - 1]), ops[|ops| - 1])
  }

  // ----- What a reader sees -----

  function CellsOf(entries: seq<Entry>): map<Key, Cell> {
    if entries == [] then map[] else CellsOf(entries[1..])[entries[0].key := entries[0].cell]
  }

  /** A generation whose two files are not both there, or do not belong together, is skipped. */
  function Readable(d: Disk, id: nat): seq<Entry> {
    if id in d.data && id in d.index && d.data[id] == d.index[id] then d.data[id] else []
  }

  function ManifestOf(d: Disk): Manifest {
    match d.manifest
    case None => Manifest([], map[])
    case Some(m) => m
  }

  function Contents(d: Disk, refs: seq<GenerationRef>): seq<Generation> {
    if refs == [] then []
    else
      var id := refs[|refs| - 1].id;
      Contents(d, refs[..|refs| - 1]) + [Generation(id, CellsOf(Readable(d, id)))]
  }

  /** The cold tier that the files show through the manifest. */
  function View(d: Disk): Cold {
    Cold(Contents(d, ManifestOf(d).gens), ManifestOf(d).tombs)
  }

  /** Every referenced generation is complete on disk. */
  ghost predicate Complete(d: Disk) {
    forall g :: g in ManifestOf(d).gens ==> g.id in d.data && g.id in d.index && d.data[g.id] == d.index[g.id]
  }

  ghost predicate Referenced(d: Disk, id: nat) {
    exists g :: g in ManifestOf(d).gens && g.id == id
  }

  // ----- The operations as sequences of disk steps -----

  function NextGenerationId(refs: seq<GenerationRef>): nat {
    if refs == [] then 1 else Max(refs[|refs| - 1].id + 1, NextGenerationId(refs[..|refs| - 1]))
  }

  function WriteGeneration(id: nat, entries: seq<Entry>): seq<DiskOp> {
    [RemoveData(id), RemoveIndex(id), InstallData(id, entries), InstallIndex(id, entries)]
  }

  function PublishOps(d: Disk, entries: seq<Entry>): seq<DiskOp> {
    if entries == [] then []
    else
      var m := ManifestOf(d);
      var id := NextGenerationId(m.gens);
      WriteGeneration(id, entries)
      + [InstallManifest(m.(gens := m.gens + [GenerationRef(id, |entries|)]))]
  }

  function RemoveAll(refs: seq<GenerationRef>): seq<DiskOp> {
    if refs == [] then []
    else RemoveAll(refs[..|refs| - 1]) + [RemoveData(refs[|refs| - 1].id), RemoveIndex(refs[|refs| - 1].id)]
  }

  /** The part of a compaction up to and including its manifest switch. */
  function SwitchOps(d: Disk, survivors: seq<Entry>): seq<DiskOp> {
    var m := ManifestOf(d);
    var id := NextGenerationId(m.gens);
    if survivors == [] then [InstallManifest(m.(gens := []))]
    else WriteGeneration(id, survivors) + [InstallManifest(m.(gens := [GenerationRef(id, |survivors|)]))]
  }

  /** Compaction: write the survivors, switch the manifest, then delete the old files. */
  function GcOps(d: Disk, survivors: seq<Entry>): seq<DiskOp> {
    SwitchOps(d, survivors) + RemoveAll(ManifestOf(d).gens)
  }

  // ----- Crash safety -----

  lemma {:induction false} NextIdUnused(refs: seq<GenerationRef>)
    ensures forall g :: g in refs ==> g.id < NextGenerationId(refs)
  {
    if refs != [] {
      NextIdUnused(refs[..|refs| - 1]);
    }
  }

  lemma {:induction false} NextIdsAgree(d: Disk, refs: seq<GenerationRef>)
    ensures NextId(Contents(d, refs)) == NextGenerationId(refs)
    ensures |Contents(d, refs)| == |refs|
  {
    if refs != [] {
      var front := refs[..|refs| - 1];
      NextIdsAgree(d, front);
      var c := Contents(d, refs);
      assert c[..|c| - 1] == Contents(d, front);
    }
  }

  lemma ContentsAppend(d: Disk, refs: seq<GenerationRef>, g: GenerationRef)
    ensures Contents(d, refs + [g]) == Contents(d, refs) + [Generation(g.id, CellsOf(Readable(d, g.id)))]
  {
    assert (refs + [g])[..|refs|] == refs;
  }

  /** Contents depend only on the files of the referenced generations. */
  lemma {:induction false} ContentsFramed(d: Disk, x: Disk, refs: seq<GenerationRef>)
    requires forall g :: g in refs ==> Readable(x, g.id) == Readable(d, g.id)
    ensures Contents(x, refs) == Contents(d, refs)
  {
    if refs != [] {
      ContentsFramed(d, x, refs[..|refs| - 1]);
    }
  }

  ghost predicate SameReferencedFiles(d: Disk, x: Disk) {
    && x.manifest == d.manifest
    && forall g :: g in ManifestOf(d).gens ==>
         && (g.id in x.data <==> g.id in d.data) && (g.id in x.index <==> g.id in d.index)
         && (g.id in d.data ==> x.data[g.id] == d.data[g.id])
         && (g.id in d.index ==> x.index[g.id] == d.index[g.id])
  }

  lemma SameFilesSameView(d: Disk, x: Disk)
    requires Complete(d) && SameReferencedFiles(d, x)
    ensures Complete(x) && View(x) == View(d)
  {
    ContentsFramed(d, x, ManifestOf(d).gens);
  }

  lemma ApplyLast(d: Disk, ops: seq<DiskOp>, n: nat)
    requires n < |ops|
    ensures ApplyAll(d, ops[..n + 1]) == Apply(ApplyAll(d, ops[..n]), ops[n])
  {
    assert ops[..n + 1][..n] == ops[..n];
  }

  /** Writing an unreferenced generation never shows, at any of its steps; the last one leaves
      its two files complete. */
  lemma WriteIsHidden(d: Disk, id: nat, entries: seq<Entry>, n: nat)
    requires Complete(d) && !Referenced(d, id) && n <= 4
    ensures var x := ApplyAll(d, WriteGeneration(id, entries)[..n]);
      && SameReferencedFiles(d, x) && Complete(x) && View(x) == View(d)
      && (n == 4 ==> Readable(x, id) == entries && id in x.data && id in x.index)
  {
    var ops := WriteGeneration(id, entries);
    assert ops[..0] == [];
    ApplyLast(d, ops, 0);
    ApplyLast(d, ops, 1);
    ApplyLast(d, ops, 2);
    ApplyLast(d, ops, 3);
    SameFilesSameView(d, ApplyAll(d, ops[..n]));
  }

  /** A manifest switch to `kept` referenced generations and one freshly written one. */
  lemma SwitchedView(d: Disk, x: Disk, kept: seq<GenerationRef>, g: GenerationRef, entries: seq<Entry>)
    requires Complete(d) && SameReferencedFiles(d, x) && (forall h :: h in kept ==> h in ManifestOf(d).gens)
    requires g.id in x.data && g.id in x.index && x.data[g.id] == x.index[g.id] == entries
    ensures var y := Apply(x, InstallManifest(Manifest(kept + [g], ManifestOf(d).tombs)));
      && Complete(y)
      && View(y) == Cold(Contents(d, kept) + [Generation(g.id, CellsOf(entries))], ManifestOf(d).tombs)
  {
    var y := Apply(x, InstallManifest(Manifest(kept + [g], ManifestOf(d).tombs)));
    ContentsFramed(d, y, kept);
    ContentsAppend(y, kept, g);
    assert Readable(y, g.id) == entries;
    forall h | h in kept + [g] ensures h.id in y.data && h.id in y.index && y.data[h.id] == y.index[h.id] {
      assert h in kept || h == g;
    }
  }

  /** Manifest-last publishing is crash-safe: after every step the manifest references only
      complete generations, and all lookups together give the old tier or the new one. */
  lemma PublishIsCrashSafe(d: Disk, entries: seq<Entry>, n: nat)
    requires Complete(d) && n <= |PublishOps(d, entries)|
    ensures var x := ApplyAll(d, PublishOps(d, entries)[..n]);
      && Complete(x)
      && View(x) == if n < |PublishOps(d, entries)| then View(d) else Publish(View(d), CellsOf(entries))
  {
    if entries != [] {
      var m := ManifestOf(d);
      var id := NextGenerationId(m.gens);
      NextIdUnused(m.gens);
      var ops := PublishOps(d, entries);
      var write := WriteGeneration(id, entries);
      WriteIsHidden(d, id, entries, if n <= 4 then n else 4);
      if n <= 4 {
        assert ops[..n] == write[..n];
      } else {
        assert write[..4] == ops[..4];
        ApplyLast(d, ops, 4);
        SwitchedView(d, ApplyAll(d, ops[..4]), m.gens, GenerationRef(id, |entries|), entries);
        NextIdsAgree(d, m.gens);
        assert entries[0].key in CellsOf(entries);
      }
    }
  }

  lemma {:induction false} RemovalsAreHidden(d: Disk, refs: seq<GenerationRef>, n: nat)
    requires Complete(d) && n <= |RemoveAll(refs)|
    requires forall g :: g in refs ==> !Referenced(d, g.id)
    ensures SameReferencedFiles(d, ApplyAll(d, RemoveAll(refs)[..n]))
  {
    var ops := RemoveAll(refs);
    if n > 0 {
      var front := refs[..|refs| - 1];
      var g := refs[|refs| - 1];
      assert g in refs && ops == RemoveAll(front) + [RemoveData(g.id), RemoveIndex(g.id)];
      if n <= |RemoveAll(front)| {
        assert ops[..n] == RemoveAll(front)[..n];
        RemovalsAreHidden(d, front, n);
      } else {
        var all := |RemoveAll(front)|;
        assert ops[..all] == RemoveAll(front) == RemoveAll(front)[..all];
        RemovalsAreHidden(d, front, all);
        ApplyLast(d, ops, all);
        if n == all + 2 {
          ApplyLast(d, ops, all + 1);
        }
        assert !Referenced(d, g.id);
      }
    }
  }

  lemma {:induction false} ApplyConcat(d: Disk, a: seq<DiskOp>, b: seq<DiskOp>)
    ensures ApplyAll(d, a + b) == ApplyAll(ApplyAll(d, a), b)
    decreases |b|
  {
    if b == [] {
      assert a + b == a;
    } else {
      assert (a + b)[..|a + b| - 1] == a + b[..|b| - 1];
      ApplyConcat(d, a, b[..|b| - 1]);
    }
  }

  function Compacted(c: Cold, survivors: seq<Entry>): Cold {
    c.(gens := if survivors == [] then [] else [Generation(NextId(c.gens), CellsOf(survivors))])
  }

  /** A compaction that keeps something is hidden until its switch... */
  lemma BeforeSwitch(d: Disk, survivors: seq<Entry>, n: nat)
    requires Complete(d) && survivors != [] && n <= 4
    ensures |SwitchOps(d, survivors)| == 5
    ensures var x := ApplyAll(d, SwitchOps(d, survivors)[..n]); Complete(x) && View(x) == View(d)
  {
    var id := NextGenerationId(ManifestOf(d).gens);
    NextIdUnused(ManifestOf(d).gens);
    WriteIsHidden(d, id, survivors, n);
    assert SwitchOps(d, survivors)[..n] == WriteGeneration(id, survivors)[..n];
  }

  lemma SwitchShows(d: Disk, x: Disk, g: GenerationRef, survivors: seq<Entry>)
    requires Complete(d) && SameReferencedFiles(d, x) && survivors != []
    requires g.id == NextGenerationId(ManifestOf(d).gens) && g.id in x.data && g.id in x.index
    requires x.data[g.id] == x.index[g.id] == survivors
    ensures var y := Apply(x, InstallManifest(Manifest([g], ManifestOf(d).tombs)));
      Complete(y) && View(y) == Compacted(View(d), survivors) && ManifestOf(y).gens == [g]
  {
    SwitchedView(d, x, [], g, survivors);
    assert [] + [g] == [g];
    assert Contents(d, []) + [Generation(g.id, CellsOf(survivors))] == [Generation(g.id, CellsOf(survivors))];
    NextIdsAgree(d, ManifestOf(d).gens);
  }

  lemma ApplySnoc(d: Disk, ops: seq<DiskOp>, op: DiskOp)
    ensures ApplyAll(d, ops + [op]) == Apply(ApplyAll(d, ops), op)
  {
    assert (ops + [op])[..|ops|] == ops;
  }

  lemma WrittenIsHidden(d: Disk, id: nat, entries: seq<Entry>)
    requires Complete(d) && !Referenced(d, id)
    ensures var x := ApplyAll(d, WriteGeneration(id, entries));
      SameReferencedFiles(d, x) && id in x.data && id in x.index && x.data[id] == x.index[id] == entries
  {
    var write := WriteGeneration(id, entries);
    assert write[..4] == write;
    WriteIsHidden(d, id, entries, 4);
  }

  /** ...and shows the compacted tier after it. */
  lemma AfterSwitch(d: Disk, survivors: seq<Entry>)
    requires Complete(d) && survivors != []
    ensures var x := ApplyAll(d, SwitchOps(d, survivors));
      && Complete(x) && View(x) == Compacted(View(d), survivors)
      && ManifestOf(x).gens == [GenerationRef(NextGenerationId(ManifestOf(d).gens), |survivors|)]
  {
    var m := ManifestOf(d);
    var g := GenerationRef(NextGenerationId(m.gens), |survivors|);
    var write := WriteGeneration(g.id, survivors);
    NextIdUnused(m.gens);
    WrittenIsHidden(d, g.id, survivors);
    ApplySnoc(d, write, InstallManifest(m.(gens := [g])));
    SwitchShows(d, ApplyAll(d, write), g, survivors);
  }

  lemma NonemptySwitch(d: Disk, survivors: seq<Entry>, n: nat)
    requires Complete(d) && survivors != [] && n <= 5
    ensures |SwitchOps(d, survivors)| == 5
    ensures var x := ApplyAll(d, SwitchOps(d, survivors)[..n]);
      && Complete(x) && View(x) == (if n < 5 then View(d) else Compacted(View(d), survivors))
      && (n == 5 ==> ManifestOf(x).gens == [GenerationRef(NextGenerationId(ManifestOf(d).gens), |survivors|)])
  {
    if n <= 4 {
      BeforeSwitch(d, survivors, n);
    } else {
      assert SwitchOps(d, survivors)[..5] == SwitchOps(d, survivors);
      AfterSwitch(d, survivors);
    }
  }

  lemma SwitchIsCrashSafe(d: Disk, survivors: seq<Entry>, n: nat)
    requires Complete(d) && n <= |SwitchOps(d, survivors)|
    ensures var x := ApplyAll(d, SwitchOps(d, survivors)[..n]);
      && Complete(x)
      && View(x) == (if n < |SwitchOps(d, survivors)| then View(d) else Compacted(View(d), survivors))
      && (n == |SwitchOps(d, survivors)| ==> forall g :: g in ManifestOf(d).gens ==> !Referenced(x, g.id))
  {
    var ops := SwitchOps(d, survivors);
    if survivors != [] {
      NonemptySwitch(d, survivors, n);
      NextIdUnused(ManifestOf(d).gens);
    } else {
      assert ops[..0] == [];
      ApplyLast(d, ops, 0);
    }
  }

  /** Compaction is crash-safe in the same sense, including while it deletes the old files. */
  lemma GcIsCrashSafe(d: Disk, survivors: seq<Entry>, n: nat)
    requires Complete(d) && n <= |GcOps(d, survivors)|
    ensures var x := ApplyAll(d, GcOps(d, survivors)[..n]);
      && Complete(x)
      && View(x) == if n < |SwitchOps(d, survivors)| then View(d) else Compacted(View(d), survivors)
  {
    var switch, removals := SwitchOps(d, survivors), RemoveAll(ManifestOf(d).gens);
    var ops := GcOps(d, survivors);
    assert ops == switch + removals;
    if n < |switch| {
      assert ops[..n] == switch[..n];
      SwitchIsCrashSafe(d, survivors, n);
    } else {
      assert switch[..|switch|] == switch;
      SwitchIsCrashSafe(d, survivors, |switch|);
      var mid := ApplyAll(d, switch);
      assert ops[..n] == switch + removals[..n - |switch|];
      ApplyConcat(d, switch, removals[..n - |switch|]);
      RemovalsAreHidden(mid, ManifestOf(d).gens, n - |switch|);
      SameFilesSameView(mid, ApplyAll(d, ops[..n]));
    }
  }
}
