/** The checkpoint file: a log of put records, then a footer with the LSN, the record count and
    a checksum of the log bytes. */
module CheckpointFile {
  import opened Types
  import opened Bytes
  import opened Checksum
  import opened ObjectStore
  import opened Wal

  /** "MFSOCFTR" */
  const FOOTER_MAGIC: seq<Byte> := [0x4D, 0x46, 0x53, 0x4F, 0x43, 0x46, 0x54, 0x52]

  const FOOTER_LEN: nat := 32

  function Footer(lsn: nat, count: nat, sum: nat): (f: seq<Byte>)
    ensures |f| == FOOTER_LEN
  {
    FOOTER_MAGIC + LittleEndian(lsn, 8) + LittleEndian(count, 8) + LittleEndian(sum, 8)
  }

  function FileBytes(c: Codec, rs: seq<WalRecord>, lsn: nat): seq<Byte> {
    var body := LogBytes(c, rs);
    body + Footer(lsn, |rs|, Fnv(body))
  }

  /** The LSN and count of a footer that matches its file. */
  function ReadFooter(bytes: seq<Byte>): Option<(nat, nat)> {
    if |bytes| < FOOTER_LEN then None
    else
      var at := |bytes| - FOOTER_LEN;
      var f := bytes[at..];
      if f[..8] != FOOTER_MAGIC || FromLittle(f[24..32]) != Fnv(bytes[..at]) then None
      else Some((FromLittle(f[8..16]), FromLittle(f[16..24])))
  }

  function Puts(rs: seq<WalRecord>): seq<WalRecord> {
    if rs == [] then []
    else Puts(rs[..|rs| - 1]) + (if rs[|rs| - 1].op.Put? && rs[|rs| - 1].value.Some? then [rs[|rs| - 1]] else [])
  }

  function MaxVersion(rs: seq<WalRecord>): nat {
    if rs == [] then 0 else Max(MaxVersion(rs[..|rs| - 1]), rs[|rs| - 1].version)
  }

  predicate Acceptable(count: nat, fileLsn: nat, rs: seq<WalRecord>) {
    |rs| == count && (fileLsn == 0 || MaxVersion(rs) <= fileLsn)
  }

  /** What a file of this name gives: its effective LSN and its put records, or nothing. */
  ghost function Read(c: Codec, bytes: seq<Byte>, fileLsn: nat): Option<(nat, seq<WalRecord>)> {
    match ReadFooter(bytes)
    case None => None
    case Some((lsn, count)) =>
      var rs := Puts(Replay(c, bytes));
      if lsn == fileLsn && Acceptable(count, fileLsn, rs) then Some((Max(fileLsn, MaxVersion(rs)), rs)) else None
  }

  /** The callback of the replay: keep the puts that carry a value and their highest version. */
  method CollectPuts(replayed: seq<WalRecord>) returns (rs: seq<WalRecord>, maxLsn: nat)
    ensures rs == Puts(replayed) && maxLsn == MaxVersion(rs)
  {
    rs, maxLsn := [], 0;
    for i := 0 to |replayed|
      invariant rs == Puts(replayed[..i]) && maxLsn == MaxVersion(rs)
    {
      assert replayed[..i + 1][..i] == replayed[..i];
      var r := replayed[i];
      if r.op.Put? && r.value.Some? {
        maxLsn := Max(maxLsn, r.version);
        assert (rs + [r])[..|rs|] == rs;
        rs := rs + [r];
      }
    }
    assert replayed[..|replayed|] == replayed;
  }

  method ReadCheckpoint(c: Codec, bytes: seq<Byte>, fileLsn: nat) returns (out: Option<(nat, seq<WalRecord>)>)
    ensures out == Read(c, bytes, fileLsn)
  {
    if |bytes| < FOOTER_LEN {
      return None;
    }
    var at := |bytes| - FOOTER_LEN;
    var f := bytes[at..];
    if f[..8] != FOOTER_MAGIC {
      return None;
    }
    var sum := Checksum64(bytes[..at]);
    if sum != FromLittle(f[24..32]) || FromLittle(f[8..16]) != fileLsn {
      return None;
    }
    var replayed := ReplayFile(c, bytes);
    var rs, maxLsn := CollectPuts(replayed);
    if |rs| != FromLittle(f[16..24]) || (fileLsn != 0 && maxLsn > fileLsn) {
      return None;
    }
    return Some((Max(fileLsn, maxLsn), rs));
  }

  // ----- Round trip -----

  ghost predicate Snapshot(c: Codec, rs: seq<WalRecord>) {
    Replayable(c, rs) && Fits64(|rs|) && forall r :: r in rs ==> r.op.Put? && r.value.Some?
  }

  lemma {:induction false} AllPuts(rs: seq<WalRecord>)
    requires forall r :: r in rs ==> r.op.Put? && r.value.Some?
    ensures Puts(rs) == rs
  {
    if rs != [] {
      var front, last := rs[..|rs| - 1], rs[|rs| - 1];
      assert last in rs && rs == front + [last];
      AllPuts(front);
    }
  }

  /** No record can be read from a footer, whatever its fields hold. */
  lemma FooterIsNotARecord(c: Codec, f: seq<Byte>)
    requires |f| == FOOTER_LEN && f[..8] == FOOTER_MAGIC
    ensures Replay(c, f) == []
  {
    assert f[..4] == f[..8][..4];
    assert f[..4][0] == 0x4D;
    assert Reader(c)(f).Fail?;
  }

  lemma ReplayOfFile(c: Codec, rs: seq<WalRecord>, f: seq<Byte>)
    requires Snapshot(c, rs) && |f| == FOOTER_LEN && f[..8] == FOOTER_MAGIC
    ensures Puts(Replay(c, LogBytes(c, rs) + f)) == rs
  {
    ReplayContinues(c, rs, f);
    FooterIsNotARecord(c, f);
    assert rs + [] == rs;
    AllPuts(rs);
  }

  lemma FooterInParts(m: seq<Byte>, lsn: seq<Byte>, count: seq<Byte>, sum: seq<Byte>)
    requires |m| == |lsn| == |count| == |sum| == 8
    ensures
      var f := m + lsn + count + sum;
      f[..8] == m && f[8..16] == lsn && f[16..24] == count && f[24..32] == sum
  {
  }

  lemma FooterFields(lsn: nat, count: nat, sum: nat)
    requires Fits64(lsn) && Fits64(count) && Fits64(sum)
    ensures
      var f := Footer(lsn, count, sum);
      f[..8] == FOOTER_MAGIC && FromLittle(f[8..16]) == lsn && FromLittle(f[16..24]) == count && FromLittle(f[24..32]) == sum
  {
    Widths();
    DecodeEncode(lsn, 8);
    DecodeEncode(count, 8);
    DecodeEncode(sum, 8);
    FooterInParts(FOOTER_MAGIC, LittleEndian(lsn, 8), LittleEndian(count, 8), LittleEndian(sum, 8));
  }

  lemma FooterOfFile(body: seq<Byte>, f: seq<Byte>)
    requires |f| == FOOTER_LEN && f[..8] == FOOTER_MAGIC && FromLittle(f[24..32]) == Fnv(body)
    ensures ReadFooter(body + f) == Some((FromLittle(f[8..16]), FromLittle(f[16..24])))
  {
    Splits(body, f);
  }

  /** A written checkpoint reads back under its own name exactly when no record is above the LSN
      (or the LSN is zero), and under no other name. */
  lemma WrittenFileReadsBack(c: Codec, rs: seq<WalRecord>, lsn: nat, name: nat)
    requires Snapshot(c, rs) && Fits64(lsn)
    ensures Read(c, FileBytes(c, rs, lsn), name)
         == if name == lsn && (lsn == 0 || MaxVersion(rs) <= lsn) then Some((Max(lsn, MaxVersion(rs)), rs)) else None
  {
    var body := LogBytes(c, rs);
    var f := Footer(lsn, |rs|, Fnv(body));
    FnvInRange(body);
    FooterFields(lsn, |rs|, Fnv(body));
    FooterOfFile(body, f);
    ReplayOfFile(c, rs, f);
  }

  // ----- Corruption -----

  /** A file that differs from a written one in one byte of its log part is refused. */
  lemma BodyByteIsCaught(c: Codec, rs: seq<WalRecord>, lsn: nat, i: nat, b: Byte)
    requires Snapshot(c, rs) && Fits64(lsn) && i < |LogBytes(c, rs)| && b != LogBytes(c, rs)[i]
    ensures ReadFooter(FileBytes(c, rs, lsn)[i := b]).None?
  {
    var body := LogBytes(c, rs);
    var f := Footer(lsn, |rs|, Fnv(body));
    FnvInRange(body);
    FooterFields(lsn, |rs|, Fnv(body));
    assert (body + f)[i := b] == body[i := b] + f;
    Splits(body[i := b], f);
    OneByteChangesFnv(body, i, b);
  }

  /** Changing one byte of an eight-byte field changes its value and leaves the other fields. */
  lemma FieldsAfterChange(f: seq<Byte>, j: nat, b: Byte, lo: nat)
    requires |f| == FOOTER_LEN && j < FOOTER_LEN && b != f[j] && lo + 8 <= FOOTER_LEN
    ensures lo <= j < lo + 8 ==> FromLittle(f[j := b][lo..lo + 8]) != FromLittle(f[lo..lo + 8]) && f[j := b][lo..lo + 8] != f[lo..lo + 8]
    ensures !(lo <= j < lo + 8) ==> f[j := b][lo..lo + 8] == f[lo..lo + 8]
  {
    var x, y := f[j := b][lo..lo + 8], f[lo..lo + 8];
    if lo <= j < lo + 8 {
      assert x[j - lo] != y[j - lo];
      DecodingIsInjective(x, y);
    }
  }

  /** A file that differs from a written one in one byte of its footer is refused. */
  lemma FooterByteIsCaught(c: Codec, rs: seq<WalRecord>, lsn: nat, j: nat, b: Byte)
    requires Snapshot(c, rs) && Fits64(lsn)
    requires j < FOOTER_LEN && b != Footer(lsn, |rs|, Fnv(LogBytes(c, rs)))[j]
    ensures Read(c, LogBytes(c, rs) + Footer(lsn, |rs|, Fnv(LogBytes(c, rs)))[j := b], lsn).None?
  {
    var body := LogBytes(c, rs);
    var f := Footer(lsn, |rs|, Fnv(body));
    var g := f[j := b];
    FnvInRange(body);
    FooterFields(lsn, |rs|, Fnv(body));
    FieldsAfterChange(f, j, b, 0);
    FieldsAfterChange(f, j, b, 8);
    FieldsAfterChange(f, j, b, 16);
    FieldsAfterChange(f, j, b, 24);
    Splits(body, g);
    if 8 <= j < 24 {
      FooterOfFile(body, g);
      ReplayOfFile(c, rs, g);
    }
  }

  /** Changing any one byte of a written checkpoint, anywhere in the file, makes it unreadable. */
  lemma OneByteIsCaught(c: Codec, rs: seq<WalRecord>, lsn: nat, i: nat, b: Byte)
    requires Snapshot(c, rs) && Fits64(lsn) && i < |FileBytes(c, rs, lsn)| && b != FileBytes(c, rs, lsn)[i]
    ensures Read(c, FileBytes(c, rs, lsn)[i := b], lsn).None?
  {
    var body := LogBytes(c, rs);
    var f := Footer(lsn, |rs|, Fnv(body));
    if i < |body| {
      BodyByteIsCaught(c, rs, lsn, i, b);
    } else {
      assert (body + f)[i := b] == body + f[i - |body| := b];
      FooterByteIsCaught(c, rs, lsn, i - |body|, b);
    }
  }

  // ----- Choosing a checkpoint -----

  datatype Named = Named(lsn: nat, bytes: seq<Byte>)

  /** The newest file that reads, with the files newest first; unreadable ones are passed over. */
  method LoadLatest(c: Codec, files: seq<Named>) returns (found: nat, out: Option<(nat, seq<WalRecord>)>)
    ensures found <= |files|
    ensures forall i :: 0 <= i < found ==> Read(c, files[i].bytes, files[i].lsn).None?
    ensures if found < |files| then out.Some? && out == Read(c, files[found].bytes, files[found].lsn) else out.None?
  {
    found, out := 0, None;
    while found < |files|
      invariant found <= |files| && out.None?
      invariant forall i :: 0 <= i < found ==> Read(c, files[i].bytes, files[i].lsn).None?
    {
      out := ReadCheckpoint(c, files[found].bytes, files[found].lsn);
      if out.Some? {
        return;
      }
      found := found + 1;
    }
  }
}
