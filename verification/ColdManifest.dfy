/** The manifest file: its generations and, in the newer form, its tombstones. */
module ColdManifest {
  import opened Types
  import opened Bytes
  import opened Framing
  import opened ColdDisk
  import opened ColdCodec

  datatype Tombstone = Tombstone(key: Key, version: nat)

  datatype ManifestFile = ManifestFile(gens: seq<GenerationRef>, tombs: seq<Tombstone>)

  function RefBytes(g: GenerationRef): seq<Byte> {
    LittleEndian(g.id, 8) + LittleEndian(g.records, 8)
  }

  function ReadRef(bs: seq<Byte>): Parsed<GenerationRef> {
    match ReadPair(bs)
    case Fail => Fail
    case Got(p, rest) => Got(GenerationRef(p.0, p.1), rest)
  }

  function TombBytes(t: Tombstone): seq<Byte> {
    Field(t.key) + LittleEndian(t.version, 8)
  }

  function ReadTomb(bs: seq<Byte>): Parsed<Tombstone> {
    match ReadField(bs)
    case Fail => Fail
    case Got(key, rest) =>
      match ReadWord(rest, 8)
      case Fail => Fail
      case Got(version, tail) => Got(Tombstone(key, version), tail)
  }

  predicate AnyRef(g: GenerationRef) {
    true
  }

  predicate ReadableTomb(t: Tombstone) {
    |t.key| <= MAX_FIELD
  }

  function RefList(gens: seq<GenerationRef>): seq<Byte> {
    LittleEndian(|gens|, 8) + Join(RefBytes, gens)
  }

  function TombList(tombs: seq<Tombstone>): seq<Byte> {
    LittleEndian(|tombs|, 8) + Join(TombBytes, tombs)
  }

  function Header(): seq<Byte> {
    MANIFEST_MAGIC + LittleEndian(MANIFEST_VERSION, 4)
  }

  /** The form written before tombstones were recorded. */
  function EncodeOld(gens: seq<GenerationRef>): seq<Byte> {
    Header() + RefList(gens)
  }

  function Encode(m: ManifestFile): seq<Byte> {
    Header() + (RefList(m.gens) + TombList(m.tombs))
  }

  function ReadList<T>(read: seq<Byte> -> Parsed<T>, bs: seq<Byte>): Parsed<seq<T>> {
    match ReadWord(bs, 8)
    case Fail => Fail
    case Got(count, rest) => ReadCount(read, rest, count)
  }

  /** Nothing after the generations means no tombstones; anything after the tombstones is an
      error. */
  function DecodeTombs(bs: seq<Byte>): Reply<seq<Tombstone>> {
    if bs == [] then Found([])
    else
      match ReadList(ReadTomb, bs)
      case Fail => Broken
      case Got(tombs, rest) => if rest == [] then Found(tombs) else Broken
  }

  function Decode(bs: seq<Byte>): Reply<ManifestFile> {
    if |bs| < 12 || bs[..8] != MANIFEST_MAGIC || FromLittle(bs[8..12]) != MANIFEST_VERSION then Broken
    else
      match ReadList(ReadRef, bs[12..])
      case Fail => Broken
      case Got(gens, rest) =>
        match DecodeTombs(rest)
        case Found(tombs) => Found(ManifestFile(gens, tombs))
        case _ => Broken
  }

  method WriteManifest(m: ManifestFile) returns (out: seq<Byte>)
    ensures out == Encode(m)
  {
    var gens := WriteItems(RefBytes, m.gens);
    var tombs := WriteItems(TombBytes, m.tombs);
    out := Header() + ((LittleEndian(|m.gens|, 8) + gens) + (LittleEndian(|m.tombs|, 8) + tombs));
  }

  method ReadManifest(bs: seq<Byte>) returns (out: Reply<ManifestFile>)
    ensures out == Decode(bs)
  {
    if |bs| < 12 || bs[..8] != MANIFEST_MAGIC || FromLittle(bs[8..12]) != MANIFEST_VERSION {
      return Broken;
    }
    var count := ReadWord(bs[12..], 8);
    if count.Fail? {
      return Broken;
    }
    var gens := ReadItems(ReadRef, count.rest, count.value);
    if gens.Fail? {
      return Broken;
    }
    if gens.rest == [] {
      return Found(ManifestFile(gens.value, []));
    }
    count := ReadWord(gens.rest, 8);
    if count.Fail? {
      return Broken;
    }
    var tombs := ReadItems(ReadTomb, count.rest, count.value);
    if tombs.Fail? || tombs.rest != [] {
      return Broken;
    }
    return Found(ManifestFile(gens.value, tombs.value));
  }

  // ----- Round trips -----

  ghost predicate Fits(m: ManifestFile) {
    && Fits64(|m.gens|) && (forall g :: g in m.gens ==> Fits64(g.id) && Fits64(g.records))
    && Fits64(|m.tombs|) && (forall t :: t in m.tombs ==> Fits32(|t.key|) && Fits64(t.version))
  }

  lemma RefComesBack(g: GenerationRef)
    requires Fits64(g.id) && Fits64(g.records)
    ensures ReadsBack(RefBytes, ReadRef, AnyRef, g)
  {
    forall rest ensures ReadRef(RefBytes(g) + rest) == Got(g, rest) {
      PairReadsBack(g.id, g.records, rest);
    }
  }

  lemma TombComesBack(t: Tombstone)
    requires Fits32(|t.key|) && Fits64(t.version)
    ensures ReadsBack(TombBytes, ReadTomb, ReadableTomb, t)
  {
    forall rest ensures ReadTomb(TombBytes(t) + rest) == if ReadableTomb(t) then Got(t, rest) else Fail {
      var v := LittleEndian(t.version, 8);
      assert TombBytes(t) + rest == Field(t.key) + (v + rest);
      FieldReadsBack(t.key, v + rest);
      ReadsWord64(t.version, rest);
    }
  }

  lemma RefListReadsBack(gens: seq<GenerationRef>, rest: seq<Byte>)
    requires Fits64(|gens|) && forall g :: g in gens ==> Fits64(g.id) && Fits64(g.records)
    ensures ReadList(ReadRef, RefList(gens) + rest) == Got(gens, rest)
  {
    forall g | g in gens ensures ReadsBack(RefBytes, ReadRef, AnyRef, g) {
      RefComesBack(g);
    }
    var n, body := LittleEndian(|gens|, 8), Join(RefBytes, gens);
    assert n + body + rest == n + (body + rest);
    ReadsWord64(|gens|, body + rest);
    CountedReadsBack(RefBytes, ReadRef, AnyRef, gens, rest);
  }

  /** A tombstone list reads back, whatever follows, exactly when every key is within the
      reader's limit. */
  lemma TombListReadsBack(tombs: seq<Tombstone>, rest: seq<Byte>)
    requires Fits64(|tombs|) && forall t :: t in tombs ==> Fits32(|t.key|) && Fits64(t.version)
    ensures ReadList(ReadTomb, TombList(tombs) + rest)
         == if forall t :: t in tombs ==> ReadableTomb(t) then Got(tombs, rest) else Fail
  {
    forall t | t in tombs ensures ReadsBack(TombBytes, ReadTomb, ReadableTomb, t) {
      TombComesBack(t);
    }
    var n, body := LittleEndian(|tombs|, 8), Join(TombBytes, tombs);
    assert n + body + rest == n + (body + rest);
    ReadsWord64(|tombs|, body + rest);
    if forall t :: t in tombs ==> ReadableTomb(t) {
      CountedReadsBack(TombBytes, ReadTomb, ReadableTomb, tombs, rest);
    } else {
      CountedRefused(TombBytes, ReadTomb, ReadableTomb, tombs, rest);
    }
  }

  lemma HeaderIsRead(rest: seq<Byte>)
    ensures
      var bs := Header() + rest;
      |bs| >= 12 && bs[..8] == MANIFEST_MAGIC && FromLittle(bs[8..12]) == MANIFEST_VERSION && bs[12..] == rest
  {
    var v := LittleEndian(MANIFEST_VERSION, 4);
    var bs := MANIFEST_MAGIC + v + rest;
    assert bs[..8] == MANIFEST_MAGIC && bs[8..12] == v && bs[12..] == rest;
    Widths();
    DecodeEncode(MANIFEST_VERSION, 4);
  }

  /** A written manifest, followed by anything: it reads back exactly when nothing follows and
      every tombstone key is within the reader's limit; otherwise it is an error. */
  lemma ManifestReadsBack(m: ManifestFile, extra: seq<Byte>)
    requires Fits(m)
    ensures Decode(Encode(m) + extra)
         == if extra == [] && (forall t :: t in m.tombs ==> ReadableTomb(t)) then Found(m) else Broken
  {
    var a, b := RefList(m.gens), TombList(m.tombs);
    assert Encode(m) + extra == Header() + (a + (b + extra));
    HeaderIsRead(a + (b + extra));
    RefListReadsBack(m.gens, b + extra);
    TombListReadsBack(m.tombs, extra);
    assert b + extra != [];
  }

  /** A manifest of the older form reads as one without tombstones. */
  lemma OldManifestReads(gens: seq<GenerationRef>)
    requires Fits(ManifestFile(gens, []))
    ensures Decode(EncodeOld(gens)) == Found(ManifestFile(gens, []))
  {
    HeaderIsRead(RefList(gens));
    assert RefList(gens) == RefList(gens) + [];
    RefListReadsBack(gens, []);
  }

  /** One tombstone whose key is a byte over the limit makes the whole manifest unreadable. */
  lemma OversizedTombstoneBreaksManifest()
    ensures var m := ManifestFile([], [Tombstone(seq(MAX_FIELD + 1, _ => 0), 1)]); Fits(m) && Decode(Encode(m)) == Broken
  {
    var t := Tombstone(seq(MAX_FIELD + 1, _ => 0), 1);
    var m := ManifestFile([], [t]);
    assert t in m.tombs && !ReadableTomb(t);
    assert Encode(m) + [] == Encode(m);
    ManifestReadsBack(m, []);
  }
}
