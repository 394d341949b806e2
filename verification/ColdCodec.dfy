/** The cold tier's file formats: data files of records, index files that locate them, and the
    manifest. */
module ColdCodec {
  import opened Types
  import opened Bytes
  import opened Framing
  import opened ObjectStore
  import opened ColdDisk
  import LogFile

  /** "MFSOCLD1", "MFSOIDX1" and "MFSCMNF1". */
  const DATA_MAGIC: seq<Byte> := [0x4D, 0x46, 0x53, 0x4F, 0x43, 0x4C, 0x44, 0x31]
  const INDEX_MAGIC: seq<Byte> := [0x4D, 0x46, 0x53, 0x4F, 0x49, 0x44, 0x58, 0x31]
  const MANIFEST_MAGIC: seq<Byte> := [0x4D, 0x46, 0x53, 0x43, 0x4D, 0x4E, 0x46, 0x31]

  const MANIFEST_VERSION: nat := 1

  const MAX_FIELD: nat := 64 * 1024 * 1024

  /** An I/O error, a clean miss, or a result. */
  datatype Reply<+T> = Broken | Missing | Found(value: T)

  // ----- Length-prefixed fields -----

  function Field(bs: seq<Byte>): seq<Byte> {
    LittleEndian(|bs|, 4) + bs
  }

  function ReadField(bs: seq<Byte>): Parsed<seq<Byte>> {
    match ReadWord(bs, 4)
    case Fail => Fail
    case Got(n, rest) => if n > MAX_FIELD then Fail else ReadBytes(rest, n)
  }

  /** A written field is read back exactly when it is within the reader's limit. */
  lemma FieldReadsBack(bs: seq<Byte>, rest: seq<Byte>)
    requires Fits32(|bs|)
    ensures ReadField(Field(bs) + rest) == if |bs| <= MAX_FIELD then Got(bs, rest) else Fail
  {
    assert Field(bs) + rest == LittleEndian(|bs|, 4) + (bs + rest);
    ReadsWord32(|bs|, bs + rest);
    Splits(bs, rest);
  }

  // ----- Data records -----

  function EntryTail(e: Entry): seq<Byte> {
    LittleEndian(|e.cell.value|, 4) + (LogFile.Words(e.cell.stamp) + e.cell.value)
  }

  function EntryBytes(e: Entry): seq<Byte> {
    Field(e.key) + EntryTail(e)
  }

  /** Everything after the key: value length, stamp, value. `len` is the whole record's length in
      the index. */
  function ReadEntryTail(decodes: Value -> bool, key: Key, bs: seq<Byte>, len: nat): Reply<Entry> {
    if |bs| < 36 then Broken
    else
      var n := FromLittle(bs[..4]);
      if 4 + |key| + 4 + 32 + n != len then Missing
      else if |bs| < 36 + n || !decodes(bs[36..36 + n]) then Broken
      else Found(Entry(key, Cell(bs[36..36 + n], LogFile.FromWords(bs[4..36]))))
  }

  /** `read_cold_entry_at`, with the key the index names. */
  function ReadEntryAt(decodes: Value -> bool, data: seq<Byte>, offset: nat, len: nat, key: Key): Reply<Entry> {
    if offset < |DATA_MAGIC| || len == 0 || offset + len > |data| then Missing
    else
      match ReadField(data[offset..])
      case Fail => Broken
      case Got(found, rest) => if found != key then Missing else ReadEntryTail(decodes, key, rest, len)
  }

  ghost predicate Storable(decodes: Value -> bool, e: Entry) {
    && |e.key| <= MAX_FIELD && Fits32(|e.cell.value|)
    && decodes(e.cell.value) && LogFile.FitsExpiry(e.cell.stamp)
  }

  lemma TailInParts(n: seq<Byte>, words: seq<Byte>, v: seq<Byte>, rest: seq<Byte>)
    requires |n| == 4 && |words| == 32
    ensures
      var bs := n + (words + v) + rest;
      bs[..4] == n && bs[4..36] == words && bs[36..36 + |v|] == v
  {
  }

  lemma TailReadsBack(decodes: Value -> bool, e: Entry, rest: seq<Byte>)
    requires Storable(decodes, e)
    ensures ReadEntryTail(decodes, e.key, EntryTail(e) + rest, |EntryBytes(e)|) == Found(e)
  {
    var v := e.cell.value;
    Widths();
    DecodeEncode(|v|, 4);
    TailInParts(LittleEndian(|v|, 4), LogFile.Words(e.cell.stamp), v, rest);
    LogFile.WordsReadBack(e.cell.stamp);
  }

  /** A record is found wherever it sits in the file. */
  lemma EntryReadsBack(decodes: Value -> bool, before: seq<Byte>, e: Entry, rest: seq<Byte>)
    requires Storable(decodes, e) && |before| >= |DATA_MAGIC|
    ensures ReadEntryAt(decodes, before + EntryBytes(e) + rest, |before|, |EntryBytes(e)|, e.key) == Found(e)
  {
    var data := before + EntryBytes(e) + rest;
    assert data[|before|..] == Field(e.key) + (EntryTail(e) + rest);
    FieldReadsBack(e.key, EntryTail(e) + rest);
    TailReadsBack(decodes, e, rest);
  }

  // ----- The data and index files of a generation -----

  datatype Slot = Slot(key: Key, offset: nat, len: nat)

  function DataFrom(entries: seq<Entry>): seq<Byte> {
    if entries == [] then [] else EntryBytes(entries[0]) + DataFrom(entries[1..])
  }

  function DataFile(entries: seq<Entry>): seq<Byte> {
    DATA_MAGIC + DataFrom(entries)
  }

  /** Where the records lie when the first of them starts at `offset`. */
  function SlotsFrom(entries: seq<Entry>, offset: nat): seq<Slot> {
    if entries == [] then []
    else
      var n := |EntryBytes(entries[0])|;
      [Slot(entries[0].key, offset, n)] + SlotsFrom(entries[1..], offset + n)
  }

  function SlotBytes(s: Slot): seq<Byte> {
    Field(s.key) + (LittleEndian(s.offset, 8) + LittleEndian(s.len, 8))
  }

  function IndexFile(entries: seq<Entry>): seq<Byte> {
    INDEX_MAGIC + (LittleEndian(|entries|, 8) + Join(SlotBytes, SlotsFrom(entries, |DATA_MAGIC|)))
  }

  lemma WriteStep(entries: seq<Entry>, i: nat, data: seq<Byte>, slots: seq<Slot>)
    requires i < |entries|
    ensures
      var b := EntryBytes(entries[i]);
      && data + DataFrom(entries[i..]) == data + b + DataFrom(entries[i + 1..])
      && slots + SlotsFrom(entries[i..], |data|)
         == slots + [Slot(entries[i].key, |data|, |b|)] + SlotsFrom(entries[i + 1..], |data + b|)
  {
    var b := EntryBytes(entries[i]);
    assert entries[i..][0] == entries[i] && entries[i..][1..] == entries[i + 1..];
    assert DataFrom(entries[i..]) == b + DataFrom(entries[i + 1..]);
  }

  lemma SlotsEnd(offset: nat, slots: seq<Slot>)
    ensures slots + SlotsFrom([], offset) == slots
  {
  }

  /** The writing loop: the data file grows record by record, and the index remembers where. */
  method WriteColdEntries(entries: seq<Entry>) returns (data: seq<Byte>, index: seq<Byte>)
    ensures data == DataFile(entries) && index == IndexFile(entries)
  {
    var slots;
    slots, data := WriteRecords(entries);
    SlotsCount(entries, |DATA_MAGIC|);
    index := INDEX_MAGIC + (LittleEndian(|slots|, 8) + Join(SlotBytes, slots));
  }

  method WriteRecords(entries: seq<Entry>) returns (slots: seq<Slot>, data: seq<Byte>)
    ensures data == DataFile(entries) && slots == SlotsFrom(entries, |DATA_MAGIC|)
  {
    data, slots := DATA_MAGIC, [];
    assert entries[0..] == entries;
    for i := 0 to |entries|
      invariant data + DataFrom(entries[i..]) == DataFile(entries)
      invariant slots + SlotsFrom(entries[i..], |data|) == SlotsFrom(entries, |DATA_MAGIC|)
    {
      var offset := |data|;
      WriteStep(entries, i, data, slots);
      data := data + EntryBytes(entries[i]);
      slots := slots + [Slot(entries[i].key, offset, |data| - offset)];
    }
    assert entries[|entries|..] == [];
    SlotsEnd(|data|, slots);
    assert data + [] == data;
  }

  lemma {:induction false} SlotsCount(entries: seq<Entry>, offset: nat)
    ensures |SlotsFrom(entries, offset)| == |entries|
  {
    if entries != [] {
      SlotsCount(entries[1..], offset + |EntryBytes(entries[0])|);
    }
  }

  /** The records tile the data file: each slot is one record, the next starts where it ends. */
  lemma {:induction false} SlotsTile(entries: seq<Entry>, before: seq<Byte>, i: nat)
    requires i < |entries|
    ensures
      var slots, data := SlotsFrom(entries, |before|), before + DataFrom(entries);
      && |slots| == |entries| && slots[i].key == entries[i].key
      && |before| <= slots[i].offset && slots[i].offset + slots[i].len <= |data|
      && data[slots[i].offset..slots[i].offset + slots[i].len] == EntryBytes(entries[i])
      && slots[i].offset + slots[i].len == if i + 1 < |entries| then slots[i + 1].offset else |data|
  {
    SlotsCount(entries, |before|);
    var b := EntryBytes(entries[0]);
    assert before + (b + DataFrom(entries[1..])) == before + b + DataFrom(entries[1..]);
    if i > 0 {
      SlotsTile(entries[1..], before + b, i - 1);
    } else {
      assert (before + b + DataFrom(entries[1..]))[|before|..|before| + |b|] == b;
      if |entries| > 1 {
        assert SlotsFrom(entries[1..], |before + b|)[0].offset == |before + b|;
      }
    }
  }

  lemma RecordReadsBack(decodes: Value -> bool, data: seq<Byte>, s: Slot, e: Entry)
    requires Storable(decodes, e) && s.key == e.key && |DATA_MAGIC| <= s.offset && s.offset + s.len <= |data|
    requires data[s.offset..s.offset + s.len] == EntryBytes(e)
    ensures ReadEntryAt(decodes, data, s.offset, s.len, s.key) == Found(e)
  {
    var before, rest := data[..s.offset], data[s.offset + s.len..];
    assert data == before + EntryBytes(e) + rest;
    EntryReadsBack(decodes, before, e, rest);
  }

  function SlotOf(entries: seq<Entry>, i: nat): Slot
    requires i < |entries|
  {
    SlotsCount(entries, |DATA_MAGIC|);
    SlotsFrom(entries, |DATA_MAGIC|)[i]
  }

  /** The record at any slot reads back as its entry. */
  lemma SlotReadsBack(decodes: Value -> bool, entries: seq<Entry>, i: nat)
    requires i < |entries| && Storable(decodes, entries[i])
    ensures
      var s := SlotOf(entries, i);
      s.key == entries[i].key && ReadEntryAt(decodes, DataFile(entries), s.offset, s.len, s.key) == Found(entries[i])
  {
    SlotsTile(entries, DATA_MAGIC, i);
    RecordReadsBack(decodes, DataFile(entries), SlotOf(entries, i), entries[i]);
  }

  // ----- Reading an index -----

  function ReadPair(bs: seq<Byte>): Parsed<(nat, nat)> {
    match ReadWord(bs, 8)
    case Fail => Fail
    case Got(a, rest) =>
      match ReadWord(rest, 8)
      case Fail => Fail
      case Got(b, tail) => Got((a, b), tail)
  }

  lemma PairReadsBack(a: nat, b: nat, rest: seq<Byte>)
    requires Fits64(a) && Fits64(b)
    ensures ReadPair(LittleEndian(a, 8) + LittleEndian(b, 8) + rest) == Got((a, b), rest)
  {
    var x, y := LittleEndian(a, 8), LittleEndian(b, 8);
    assert x + y + rest == x + (y + rest);
    ReadsWord64(a, y + rest);
    ReadsWord64(b, rest);
  }

  function ReadSlot(bs: seq<Byte>): Parsed<Slot> {
    match ReadField(bs)
    case Fail => Fail
    case Got(key, rest) =>
      match ReadPair(rest)
      case Fail => Fail
      case Got(at, tail) => Got(Slot(key, at.0, at.1), tail)
  }

  predicate ReadableSlot(s: Slot) {
    |s.key| <= MAX_FIELD
  }

  ghost predicate FitsSlot(s: Slot) {
    Fits32(|s.key|) && Fits64(s.offset) && Fits64(s.len)
  }

  lemma SlotInParts(field: seq<Byte>, at: seq<Byte>, rest: seq<Byte>)
    ensures field + at + rest == field + (at + rest)
  {
  }

  lemma ReadableSlotReads(s: Slot, rest: seq<Byte>)
    requires FitsSlot(s) && ReadableSlot(s)
    ensures ReadSlot(SlotBytes(s) + rest) == Got(s, rest)
  {
    var at := LittleEndian(s.offset, 8) + LittleEndian(s.len, 8);
    SlotInParts(Field(s.key), at, rest);
    FieldReadsBack(s.key, at + rest);
    PairReadsBack(s.offset, s.len, rest);
  }

  lemma LongSlotIsRefused(s: Slot, rest: seq<Byte>)
    requires FitsSlot(s) && !ReadableSlot(s)
    ensures ReadSlot(SlotBytes(s) + rest).Fail?
  {
    var at := LittleEndian(s.offset, 8) + LittleEndian(s.len, 8);
    SlotInParts(Field(s.key), at, rest);
    FieldReadsBack(s.key, at + rest);
  }

  lemma SlotComesBack(s: Slot)
    requires FitsSlot(s)
    ensures ReadsBack(SlotBytes, ReadSlot, ReadableSlot, s)
  {
    forall rest ensures ReadSlot(SlotBytes(s) + rest) == if ReadableSlot(s) then Got(s, rest) else Fail {
      if ReadableSlot(s) {
        ReadableSlotReads(s, rest);
      } else {
        LongSlotIsRefused(s, rest);
      }
    }
  }

  /** The first of `count` slots with this key. */
  function FindWith(read: seq<Byte> -> Parsed<Slot>, bs: seq<Byte>, count: nat, key: Key): Reply<Slot>
    decreases count
  {
    if count == 0 then Missing
    else
      match read(bs)
      case Fail => Broken
      case Got(s, rest) => if s.key == key then Found(s) else FindWith(read, rest, count - 1, key)
  }

  function FindFrom(bs: seq<Byte>, count: nat, key: Key): Reply<Slot> {
    FindWith(ReadSlot, bs, count, key)
  }

  function Find(index: seq<Byte>, key: Key): Reply<Slot> {
    if |index| < 8 then Broken
    else if index[..8] != INDEX_MAGIC then Missing
    else
      match ReadWord(index[8..], 8)
      case Fail => Broken
      case Got(count, rest) => FindFrom(rest, count, key)
  }

  method FindIndexEntry(index: seq<Byte>, key: Key) returns (out: Reply<Slot>)
    ensures out == Find(index, key)
  {
    if |index| < 8 {
      return Broken;
    }
    if index[..8] != INDEX_MAGIC {
      return Missing;
    }
    var header := ReadWord(index[8..], 8);
    if header.Fail? {
      return Broken;
    }
    out := FindSlot(ReadSlot, header.rest, header.value, key);
  }

  method FindSlot(read: seq<Byte> -> Parsed<Slot>, bs: seq<Byte>, n: nat, key: Key) returns (out: Reply<Slot>)
    ensures out == FindWith(read, bs, n, key)
  {
    var left, count := bs, n;
    while count > 0
      invariant FindWith(read, left, count, key) == FindWith(read, bs, n, key)
    {
      var next := read(left);
      if next.Fail? {
        return Broken;
      }
      if next.value.key == key {
        return Found(next.value);
      }
      left, count := next.rest, count - 1;
    }
    return Missing;
  }

  /** `read_cold_record_from_files`: locate the key, then read the record there. */
  function Lookup(decodes: Value -> bool, index: seq<Byte>, data: seq<Byte>, key: Key): Reply<Entry> {
    match Find(index, key)
    case Broken => Broken
    case Missing => Missing
    case Found(s) =>
      if |data| < 8 then Broken
      else if data[..8] != DATA_MAGIC then Missing
      else ReadEntryAt(decodes, data, s.offset, s.len, key)
  }

  function FirstWith(slots: seq<Slot>, key: Key): (i: nat)
    ensures i <= |slots| && (i < |slots| ==> slots[i].key == key)
    ensures forall j :: 0 <= j < i ==> slots[j].key != key
  {
    if slots == [] || slots[0].key == key then 0 else 1 + FirstWith(slots[1..], key)
  }

  lemma {:induction false} FindsFirst(slots: seq<Slot>, key: Key)
    requires forall s :: s in slots ==> FitsSlot(s) && ReadableSlot(s)
    ensures FindFrom(Join(SlotBytes, slots), |slots|, key)
         == if FirstWith(slots, key) < |slots| then Found(slots[FirstWith(slots, key)]) else Missing
  {
    if slots != [] {
      SlotComesBack(slots[0]);
      FindsFirst(slots[1..], key);
    }
  }

  ghost predicate Writable(decodes: Value -> bool, entries: seq<Entry>) {
    && (forall e :: e in entries ==> Storable(decodes, e))
    && Fits64(|entries|) && Fits64(|DataFile(entries)|)
  }

  lemma SlotsFit(decodes: Value -> bool, entries: seq<Entry>)
    requires Writable(decodes, entries)
    ensures forall s :: s in SlotsFrom(entries, |DATA_MAGIC|) ==> FitsSlot(s) && ReadableSlot(s)
  {
    var slots := SlotsFrom(entries, |DATA_MAGIC|);
    forall s | s in slots ensures FitsSlot(s) && ReadableSlot(s) {
      SlotsCount(entries, |DATA_MAGIC|);
      var i :| 0 <= i < |slots| && s == slots[i];
      SlotsTile(entries, DATA_MAGIC, i);
      assert entries[i] in entries;
    }
  }

  lemma IndexHeader(count: nat, body: seq<Byte>)
    requires Fits64(count)
    ensures
      var index := INDEX_MAGIC + (LittleEndian(count, 8) + body);
      index[..8] == INDEX_MAGIC && ReadWord(index[8..], 8) == Got(count, body)
  {
    Splits(INDEX_MAGIC, LittleEndian(count, 8) + body);
    ReadsWord64(count, body);
  }

  /** The keys of the slots are the keys of the entries, so the first match is the first entry. */
  lemma {:induction false} FirstEntryDecides(entries: seq<Entry>, key: Key, i: nat)
    requires i <= |entries| && (i < |entries| ==> entries[i].key == key)
    requires forall j :: 0 <= j < i ==> entries[j].key != key
    ensures key in CellsOf(entries) <==> i < |entries|
    ensures i < |entries| ==> CellsOf(entries)[key] == entries[i].cell
  {
    if i > 0 {
      FirstEntryDecides(entries[1..], key, i - 1);
    }
  }

  lemma FirstSlotIsFirstEntry(entries: seq<Entry>, key: Key, i: nat)
    requires i == FirstWith(SlotsFrom(entries, |DATA_MAGIC|), key)
    ensures i <= |entries| && (i < |entries| ==> entries[i].key == key)
    ensures forall j :: 0 <= j < i ==> entries[j].key != key
  {
    SlotsCount(entries, |DATA_MAGIC|);
    if i < |entries| {
      SlotsTile(entries, DATA_MAGIC, i);
    }
    forall j | 0 <= j < i ensures entries[j].key != key {
      SlotsTile(entries, DATA_MAGIC, j);
    }
  }

  lemma FindsInFile(decodes: Value -> bool, entries: seq<Entry>, key: Key)
    requires Writable(decodes, entries)
    ensures
      var i := FirstWith(SlotsFrom(entries, |DATA_MAGIC|), key);
      && i <= |entries|
      && Find(IndexFile(entries), key) == if i < |entries| then Found(SlotOf(entries, i)) else Missing
  {
    var slots := SlotsFrom(entries, |DATA_MAGIC|);
    SlotsCount(entries, |DATA_MAGIC|);
    SlotsFit(decodes, entries);
    IndexHeader(|entries|, Join(SlotBytes, slots));
    FindsFirst(slots, key);
  }

  lemma LookupOf(decodes: Value -> bool, index: seq<Byte>, data: seq<Byte>, key: Key, s: Slot)
    requires Find(index, key) == Found(s) && |data| >= 8 && data[..8] == DATA_MAGIC
    ensures Lookup(decodes, index, data, key) == ReadEntryAt(decodes, data, s.offset, s.len, key)
  {
  }

  /** A keyed lookup in the two files of a generation gives exactly the cell that the generation
      holds for the key, and a miss for every other key. */
  lemma LookupReadsBack(decodes: Value -> bool, entries: seq<Entry>, key: Key)
    requires Writable(decodes, entries)
    ensures Lookup(decodes, IndexFile(entries), DataFile(entries), key)
         == if key in CellsOf(entries) then Found(Entry(key, CellsOf(entries)[key])) else Missing
  {
    var i := FirstWith(SlotsFrom(entries, |DATA_MAGIC|), key);
    FindsInFile(decodes, entries, key);
    FirstSlotIsFirstEntry(entries, key, i);
    FirstEntryDecides(entries, key, i);
    if i < |entries| {
      assert entries[i] in entries;
      SlotReadsBack(decodes, entries, i);
      Splits(DATA_MAGIC, DataFrom(entries));
      LookupOf(decodes, IndexFile(entries), DataFile(entries), key, SlotOf(entries, i));
    }
  }

  // ----- Reading a whole generation -----

  /** A slot and the record it points to; one that does not match its slot is an error. */
  function ReadLocated(decodes: Value -> bool, data: seq<Byte>, bs: seq<Byte>): Parsed<Entry> {
    match ReadSlot(bs)
    case Fail => Fail
    case Got(s, rest) =>
      match ReadEntryAt(decodes, data, s.offset, s.len, s.key)
      case Found(e) => Got(e, rest)
      case _ => Fail
  }

  function Located(decodes: Value -> bool, data: seq<Byte>): seq<Byte> -> Parsed<Entry> {
    bs => ReadLocated(decodes, data, bs)
  }

  /** `read_cold_entries_from_files`: a foreign magic reads as an empty generation. */
  function Scan(decodes: Value -> bool, index: seq<Byte>, data: seq<Byte>): Reply<seq<Entry>> {
    if |index| < 8 then Broken
    else if index[..8] != INDEX_MAGIC then Found([])
    else
      match ReadWord(index[8..], 8)
      case Fail => Broken
      case Got(count, rest) =>
        if |data| < 8 then Broken
        else if data[..8] != DATA_MAGIC then Found([])
        else
          match ReadCount(Located(decodes, data), rest, count)
          case Fail => Broken
          case Got(entries, _) => Found(entries)
  }

  method ReadEntries(decodes: Value -> bool, index: seq<Byte>, data: seq<Byte>) returns (out: Reply<seq<Entry>>)
    ensures out == Scan(decodes, index, data)
  {
    if |index| < 8 {
      return Broken;
    }
    if index[..8] != INDEX_MAGIC {
      return Found([]);
    }
    var header := ReadWord(index[8..], 8);
    if header.Fail? || |data| < 8 {
      return Broken;
    }
    if data[..8] != DATA_MAGIC {
      return Found([]);
    }
    var entries := ReadItems(Located(decodes, data), header.rest, header.value);
    return if entries.Fail? then Broken else Found(entries.value);
  }

  lemma {:induction false} ScanReadsSlots(decodes: Value -> bool, data: seq<Byte>, slots: seq<Slot>, entries: seq<Entry>)
    requires |slots| == |entries| && forall s :: s in slots ==> FitsSlot(s) && ReadableSlot(s)
    requires forall i :: 0 <= i < |slots| ==>
      ReadEntryAt(decodes, data, slots[i].offset, slots[i].len, slots[i].key) == Found(entries[i])
    ensures ReadCount(Located(decodes, data), Join(SlotBytes, slots), |slots|) == Got(entries, [])
  {
    if slots != [] {
      SlotComesBack(slots[0]);
      assert ReadSlot(SlotBytes(slots[0]) + Join(SlotBytes, slots[1..])) == Got(slots[0], Join(SlotBytes, slots[1..]));
      ScanReadsSlots(decodes, data, slots[1..], entries[1..]);
      assert entries == [entries[0]] + entries[1..];
    }
  }

  /** Scanning the two files gives back the entries they were written from, in order. */
  lemma ScanReadsBack(decodes: Value -> bool, entries: seq<Entry>)
    requires Writable(decodes, entries)
    ensures Scan(decodes, IndexFile(entries), DataFile(entries)) == Found(entries)
  {
    var slots, data := SlotsFrom(entries, |DATA_MAGIC|), DataFile(entries);
    SlotsCount(entries, |DATA_MAGIC|);
    SlotsFit(decodes, entries);
    IndexHeader(|entries|, Join(SlotBytes, slots));
    Splits(DATA_MAGIC, DataFrom(entries));
    forall i | 0 <= i < |slots|
      ensures ReadEntryAt(decodes, data, slots[i].offset, slots[i].len, slots[i].key) == Found(entries[i])
    {
      assert entries[i] in entries;
      SlotReadsBack(decodes, entries, i);
    }
    ScanReadsSlots(decodes, data, slots, entries);
  }

  /** A field one byte over the limit is written and then refused. */
  lemma OversizedFieldIsRefused()
    ensures var bs: seq<Byte> := seq(MAX_FIELD + 1, _ => 0); Fits32(|bs|) && ReadField(Field(bs)).Fail?
  {
    var bs: seq<Byte> := seq(MAX_FIELD + 1, _ => 0);
    assert Field(bs) + [] == Field(bs);
    FieldReadsBack(bs, []);
  }
}
