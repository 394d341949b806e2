/** The bytes of the write-ahead log: framed records, each guarded by a magic word, a length and
    a checksum, and the replay that stops at the first frame that is not whole and valid. */
module Wal {
  import opened Types
  import opened Bytes
  import opened Framing
  import opened ObjectStore

  /** 0x4D46_5750, little-endian. */
  const RECORD_MAGIC: seq<Byte> := [0x50, 0x57, 0x46, 0x4D]

  const MAX_REPLAY_PAYLOAD: nat := 128 * 1024 * 1024

  datatype WalRecord = WalRecord(op: Op, version: nat, key: Key, value: Option<Value>)

  /** The CRC and the value decoder are parameters: every result holds for any of them. */
  datatype Codec = Codec(crc: seq<Byte> -> Word32, decodes: Value -> bool)

  // ----- Payloads -----

  function OpByte(op: Op): Byte {
    if op.Put? then 0 else 1
  }

  function ValuePart(v: Option<Value>): seq<Byte> {
    match v
    case None => LittleEndian(0, 4)
    case Some(bytes) => LittleEndian(|bytes|, 4) + bytes
  }

  function Payload(r: WalRecord): seq<Byte> {
    [OpByte(r.op)] + (LittleEndian(r.version, 8) + (LittleEndian(|r.key|, 4) + (r.key + ValuePart(r.value))))
  }

  /** A zero length means no value; anything left over is an error. */
  function ParseValue(c: Codec, bs: seq<Byte>): Option<Option<Value>> {
    match ReadWord(bs, 4)
    case Fail => None
    case Got(n, rest) =>
      if n == 0 then (if rest == [] then Some(None) else None)
      else if |rest| == n && c.decodes(rest) then Some(Some(rest)) else None
  }

  function ParseKeyValue(c: Codec, bs: seq<Byte>): Option<(Key, Option<Value>)> {
    match ReadWord(bs, 4)
    case Fail => None
    case Got(n, rest) =>
      match ReadBytes(rest, n)
      case Fail => None
      case Got(key, tail) =>
        match ParseValue(c, tail)
        case None => None
        case Some(v) => Some((key, v))
  }

  function ParsePayload(c: Codec, bs: seq<Byte>): Option<WalRecord> {
    if bs == [] || bs[0] > 1 then None
    else
      match ReadWord(bs[1..], 8)
      case Fail => None
      case Got(version, rest) =>
        match ParseKeyValue(c, rest)
        case None => None
        case Some(kv) => Some(WalRecord(if bs[0] == 0 then Put else Delete, version, kv.0, kv.1))
  }

  /** What the writer can put in a frame. The value codec never produces an empty encoding. */
  ghost predicate Writable(c: Codec, r: WalRecord) {
    && Fits64(r.version) && Fits32(|r.key|) && Fits32(|Payload(r)|)
    && (r.value.Some? ==> r.value.value != [] && Fits32(|r.value.value|) && c.decodes(r.value.value))
  }

  lemma ValueReadsBack(c: Codec, v: Option<Value>)
    requires v.Some? ==> v.value != [] && Fits32(|v.value|) && c.decodes(v.value)
    ensures ParseValue(c, ValuePart(v)) == Some(v)
  {
    match v
    case None =>
      assert LittleEndian(0, 4) == LittleEndian(0, 4) + [];
      ReadsWord32(0, []);
    case Some(bytes) => ReadsWord32(|bytes|, bytes);
  }

  lemma KeyValueReadsBack(c: Codec, key: Key, v: Option<Value>)
    requires Fits32(|key|) && (v.Some? ==> v.value != [] && Fits32(|v.value|) && c.decodes(v.value))
    ensures ParseKeyValue(c, LittleEndian(|key|, 4) + (key + ValuePart(v))) == Some((key, v))
  {
    ReadsWord32(|key|, key + ValuePart(v));
    Splits(key, ValuePart(v));
    ValueReadsBack(c, v);
  }

  lemma PayloadInParts(c: Codec, op: Byte, version: seq<Byte>, tail: seq<Byte>, key: Key, v: Option<Value>)
    requires op <= 1 && |version| == 8 && ParseKeyValue(c, tail) == Some((key, v))
    ensures ParsePayload(c, [op] + (version + tail))
         == Some(WalRecord(if op == 0 then Put else Delete, FromLittle(version), key, v))
  {
    assert ([op] + (version + tail))[1..] == version + tail;
    Splits(version, tail);
  }

  lemma PayloadReadsBack(c: Codec, r: WalRecord)
    requires Writable(c, r)
    ensures ParsePayload(c, Payload(r)) == Some(r)
  {
    KeyValueReadsBack(c, r.key, r.value);
    Widths();
    DecodeEncode(r.version, 8);
    PayloadInParts(c, OpByte(r.op), LittleEndian(r.version, 8),
      LittleEndian(|r.key|, 4) + (r.key + ValuePart(r.value)), r.key, r.value);
  }

  // ----- Frames -----

  function Checked(n: nat, payload: seq<Byte>): seq<Byte> {
    RECORD_MAGIC + LittleEndian(n, 4) + payload
  }

  function Frame(c: Codec, r: WalRecord): seq<Byte> {
    var p := Payload(r);
    RECORD_MAGIC + (LittleEndian(|p|, 4) + (p + LittleEndian(c.crc(Checked(|p|, p)), 4)))
  }

  /** The body of a frame, once its header has announced `n` bytes of payload. */
  function ReadBody(c: Codec, bs: seq<Byte>, n: nat): Parsed<WalRecord> {
    if |bs| < n + 4 then Fail
    else
      var p := bs[..n];
      if FromLittle(bs[n..n + 4]) != c.crc(Checked(n, p)) then Fail
      else
        match ParsePayload(c, p)
        case None => Fail
        case Some(r) => Got(r, bs[n + 4..])
  }

  function ReadFrame(c: Codec, bs: seq<Byte>): (out: Parsed<WalRecord>)
    ensures out.Got? ==> |out.rest| < |bs|
  {
    if |bs| < 8 || bs[..4] != RECORD_MAGIC || FromLittle(bs[4..8]) > MAX_REPLAY_PAYLOAD then Fail
    else ReadBody(c, bs[8..], FromLittle(bs[4..8]))
  }

  lemma BodyReadsBack(c: Codec, r: WalRecord, rest: seq<Byte>)
    requires Writable(c, r)
    ensures
      var p := Payload(r);
      ReadBody(c, p + LittleEndian(c.crc(Checked(|p|, p)), 4) + rest, |p|) == Got(r, rest)
  {
    var p := Payload(r);
    var sum := LittleEndian(c.crc(Checked(|p|, p)), 4);
    var bs := p + sum + rest;
    assert bs[..|p|] == p && bs[|p|..|p| + 4] == sum && bs[|p| + 4..] == rest;
    Widths();
    DecodeEncode(c.crc(Checked(|p|, p)), 4);
    PayloadReadsBack(c, r);
  }

  lemma FrameInParts(m: seq<Byte>, n: seq<Byte>, p: seq<Byte>, sum: seq<Byte>, rest: seq<Byte>)
    requires |m| == |n| == |sum| == 4
    ensures
      var bs := m + (n + (p + sum)) + rest;
      bs[..4] == m && bs[4..8] == n && bs[8..] == p + sum + rest
  {
  }

  lemma HeaderReadsBack(c: Codec, r: WalRecord, rest: seq<Byte>)
    requires Fits32(|Payload(r)|)
    ensures
      var p := Payload(r);
      var bs := Frame(c, r) + rest;
      && |Frame(c, r)| == |p| + 12
      && bs[..4] == RECORD_MAGIC && FromLittle(bs[4..8]) == |p|
      && bs[8..] == p + LittleEndian(c.crc(Checked(|p|, p)), 4) + rest
  {
    var p := Payload(r);
    Widths();
    DecodeEncode(|p|, 4);
    FrameInParts(RECORD_MAGIC, LittleEndian(|p|, 4), p, LittleEndian(c.crc(Checked(|p|, p)), 4), rest);
  }

  /** A written frame is read back, whatever follows it, exactly when its payload is within the
      replay limit; the writer has no such limit. */
  lemma FrameReadsBack(c: Codec, r: WalRecord, rest: seq<Byte>)
    requires Writable(c, r)
    ensures ReadFrame(c, Frame(c, r) + rest) == if |Payload(r)| <= MAX_REPLAY_PAYLOAD then Got(r, rest) else Fail
  {
    HeaderReadsBack(c, r, rest);
    BodyReadsBack(c, r, rest);
  }

  /** No proper prefix of a frame is taken for a frame. */
  lemma TornFrameIsRefused(c: Codec, r: WalRecord, n: nat)
    requires Writable(c, r) && n < |Frame(c, r)|
    ensures ReadFrame(c, Frame(c, r)[..n]).Fail?
  {
    var f := Frame(c, r);
    HeaderReadsBack(c, r, []);
    assert f + [] == f;
    if n >= 8 {
      assert f[..n][4..8] == f[4..8];
    }
  }

  // ----- Replay -----

  function Writer(c: Codec): WalRecord -> seq<Byte> {
    r => Frame(c, r)
  }

  function Reader(c: Codec): seq<Byte> -> Parsed<WalRecord> {
    bs => ReadFrame(c, bs)
  }

  predicate WithinLimit(r: WalRecord) {
    |Payload(r)| <= MAX_REPLAY_PAYLOAD
  }

  ghost function Replay(c: Codec, bs: seq<Byte>): seq<WalRecord> {
    ReadAll(Reader(c), bs)
  }

  function LogBytes(c: Codec, rs: seq<WalRecord>): seq<Byte> {
    Join(Writer(c), rs)
  }

  lemma FramesReadBack(c: Codec, r: WalRecord)
    requires Writable(c, r)
    ensures ReadsBack(Writer(c), Reader(c), WithinLimit, r) && RefusesTorn(Writer(c), Reader(c), r)
  {
    forall rest ensures Reader(c)(Writer(c)(r) + rest) == if WithinLimit(r) then Got(r, rest) else Fail {
      FrameReadsBack(c, r, rest);
    }
    forall n | 0 <= n < |Writer(c)(r)| ensures Reader(c)(Writer(c)(r)[..n]).Fail? {
      TornFrameIsRefused(c, r, n);
    }
  }

  ghost predicate AllWritable(c: Codec, rs: seq<WalRecord>) {
    forall r :: r in rs ==> Writable(c, r)
  }

  /** A log cut anywhere replays to the records that are whole before the cut, up to the first
      one over the limit. */
  lemma CutLogReplays(c: Codec, rs: seq<WalRecord>, n: nat)
    requires AllWritable(c, rs) && n <= |LogBytes(c, rs)|
    ensures Replay(c, LogBytes(c, rs)[..n]) == rs[..Surviving(Writer(c), WithinLimit, rs, n)]
  {
    forall r | r in rs ensures ReadsBack(Writer(c), Reader(c), WithinLimit, r) && RefusesTorn(Writer(c), Reader(c), r) {
      FramesReadBack(c, r);
    }
    CutStream(Writer(c), Reader(c), WithinLimit, rs, n);
  }

  ghost predicate Replayable(c: Codec, rs: seq<WalRecord>) {
    forall r :: r in rs ==> Writable(c, r) && WithinLimit(r)
  }

  /** A log of records within the limit is transparent to whatever follows it. */
  lemma ReplayContinues(c: Codec, rs: seq<WalRecord>, tail: seq<Byte>)
    requires Replayable(c, rs)
    ensures Replay(c, LogBytes(c, rs) + tail) == rs + Replay(c, tail)
  {
    forall r | r in rs ensures ReadsBack(Writer(c), Reader(c), WithinLimit, r) {
      FramesReadBack(c, r);
    }
    StreamContinues(Writer(c), Reader(c), WithinLimit, rs, tail);
  }

  /** A record over the replay limit, here by the length of its key, hides every record logged
      after it. */
  lemma OversizedRecordHidesTheRest(c: Codec, more: seq<WalRecord>)
    requires AllWritable(c, more)
    ensures var r := WalRecord(Delete, 1, seq(MAX_REPLAY_PAYLOAD, _ => 0), None);
      Writable(c, r) && Replay(c, LogBytes(c, [r] + more)) == []
  {
    var r := WalRecord(Delete, 1, seq(MAX_REPLAY_PAYLOAD, _ => 0), None);
    assert ([r] + more)[1..] == more;
    FrameReadsBack(c, r, LogBytes(c, more));
    assert Reader(c)(LogBytes(c, [r] + more)).Fail?;
  }

  // ----- Appending to a log that a crash has cut -----

  lemma TornStartIsNoMagic(f: seq<Byte>, n: nat, rest: seq<Byte>)
    requires 1 <= n <= 3 && RECORD_MAGIC <= f && (rest == [] || (|rest| >= 4 && rest[..4] == RECORD_MAGIC))
    ensures |f[..n] + rest| < 8 || (f[..n] + rest)[..4] != RECORD_MAGIC
  {
    if rest != [] {
      assert (f[..n] + rest)[n] == rest[..4][0];
    }
  }

  lemma LogStartsWithMagic(c: Codec, more: seq<WalRecord>)
    ensures var bs := LogBytes(c, more); bs == [] || (|bs| >= 4 && bs[..4] == RECORD_MAGIC)
  {
    if more != [] {
      var f := Writer(c)(more[0]);
      assert LogBytes(c, more) == f + Join(Writer(c), more[1..]);
      assert f[..4] == RECORD_MAGIC;
    }
  }

  lemma TopByteDecides(bs: seq<Byte>)
    requires |bs| == 4
    ensures FromLittle(bs) >= bs[3] as nat * 0x100_0000
  {
    assert FromLittle(bs[3..]) >= bs[3] as nat;
    assert bs[2..][1..] == bs[3..] && bs[1..][1..] == bs[2..];
    assert FromLittle(bs[2..]) >= 256 * FromLittle(bs[3..]);
    assert FromLittle(bs[1..]) >= 256 * FromLittle(bs[2..]);
  }

  /** A length word cut short takes its top byte from the next frame's magic, which announces far
      more than the replay limit. */
  lemma TornLengthIsTooLong(f: seq<Byte>, n: nat, rest: seq<Byte>)
    requires 4 <= n <= 7 && n <= |f| && (rest == [] || (|rest| >= 4 && rest[..4] == RECORD_MAGIC))
    ensures var bs := f[..n] + rest; |bs| < 8 || FromLittle(bs[4..8]) > MAX_REPLAY_PAYLOAD
  {
    if rest != [] {
      var bs := f[..n] + rest;
      assert bs[4..8][3] == rest[..4][7 - n];
      TopByteDecides(bs[4..8]);
    }
  }

  /** Opening the log neither truncates nor repairs it. If a crash left a frame's header
      incomplete, nothing appended later is ever replayed, however well it is synced. */
  lemma AppendedAfterTearIsLost(c: Codec, rs: seq<WalRecord>, torn: WalRecord, n: nat, more: seq<WalRecord>)
    requires Replayable(c, rs) && Writable(c, torn) && 1 <= n <= 7
    ensures n < |Frame(c, torn)|
    ensures Replay(c, LogBytes(c, rs) + (Frame(c, torn)[..n] + LogBytes(c, more))) == rs
  {
    var f, tail := Frame(c, torn), LogBytes(c, more);
    HeaderReadsBack(c, torn, []);
    assert f + [] == f;
    assert RECORD_MAGIC <= f;
    LogStartsWithMagic(c, more);
    if n <= 3 {
      TornStartIsNoMagic(f, n, tail);
    } else {
      TornLengthIsTooLong(f, n, tail);
    }
    assert Reader(c)(f[..n] + tail).Fail?;
    ReplayContinues(c, rs, f[..n] + tail);
    assert rs + [] == rs;
  }

  lemma TornBodyReads(c: Codec, torn: WalRecord, n: nat, tail: seq<Byte>)
    requires Writable(c, torn) && 8 <= n < |Frame(c, torn)|
    ensures var f := Frame(c, torn);
      ReadFrame(c, f[..n] + tail)
      == if WithinLimit(torn) then ReadBody(c, f[8..n] + tail, |Payload(torn)|) else Fail
  {
    var f := Frame(c, torn);
    HeaderReadsBack(c, torn, []);
    assert f + [] == f;
    var bs := f[..n] + tail;
    assert bs[..4] == f[..4] && bs[4..8] == f[4..8] && bs[8..] == f[8..n] + tail;
  }

  /** A tear behind the header: the header announces a body, and the appended bytes are read as
      the rest of it. Everything appended is lost exactly when the record is over the replay
      limit, or the bytes that now stand where the body should be are not a valid body. */
  lemma AppendedAfterTornBody(c: Codec, rs: seq<WalRecord>, torn: WalRecord, n: nat, more: seq<WalRecord>)
    requires Replayable(c, rs) && Writable(c, torn) && 8 <= n < |Frame(c, torn)|
    ensures Replay(c, LogBytes(c, rs) + (Frame(c, torn)[..n] + LogBytes(c, more))) == rs <==>
      !WithinLimit(torn) || ReadBody(c, Frame(c, torn)[8..n] + LogBytes(c, more), |Payload(torn)|).Fail?
  {
    var f, tail := Frame(c, torn), LogBytes(c, more);
    TornBodyReads(c, torn, n, tail);
    ReplayContinues(c, rs, f[..n] + tail);
    FirstDecides(c, f[..n] + tail);
  }

  lemma FirstDecides(c: Codec, bs: seq<Byte>)
    ensures Replay(c, bs) == [] <==> ReadFrame(c, bs).Fail?
  {
    assert Reader(c)(bs) == ReadFrame(c, bs);
  }

  /** In particular all is lost, for every codec, if less is appended than the tear removed. */
  lemma ShortAppendIsLost(c: Codec, rs: seq<WalRecord>, torn: WalRecord, n: nat, more: seq<WalRecord>)
    requires Replayable(c, rs) && Writable(c, torn) && 8 <= n < |Frame(c, torn)|
    requires |LogBytes(c, more)| < |Frame(c, torn)| - n
    ensures Replay(c, LogBytes(c, rs) + (Frame(c, torn)[..n] + LogBytes(c, more))) == rs
  {
    HeaderReadsBack(c, torn, []);
    AppendedAfterTornBody(c, rs, torn, n, more);
  }

  /** At a frame boundary, appending works: both parts are replayed. */
  lemma AppendedAtBoundaryIsKept(c: Codec, rs: seq<WalRecord>, more: seq<WalRecord>)
    requires Replayable(c, rs) && Replayable(c, more)
    ensures Replay(c, LogBytes(c, rs) + LogBytes(c, more)) == rs + more
  {
    ReplayContinues(c, rs, LogBytes(c, more));
    assert LogBytes(c, more) + [] == LogBytes(c, more);
    ReplayContinues(c, more, []);
    ReadsNothing(Reader(c));
    assert more + [] == more;
  }

  method NextFrame(c: Codec, left: seq<Byte>) returns (out: Parsed<WalRecord>)
    ensures out == ReadFrame(c, left)
  {
    if |left| < 8 || left[..4] != RECORD_MAGIC {
      return Fail;
    }
    var n := FromLittle(left[4..8]);
    var body := left[8..];
    if n > MAX_REPLAY_PAYLOAD || |body| < n + 4 {
      return Fail;
    }
    var payload := body[..n];
    var stored := FromLittle(body[n..n + 4]);
    if c.crc(Checked(n, payload)) != stored {
      return Fail;
    }
    var decoded := ParsePayload(c, payload);
    if decoded.None? {
      return Fail;
    }
    return Got(decoded.value, body[n + 4..]);
  }

  /** The replay loop. */
  method ReplayFile(c: Codec, bytes: seq<Byte>) returns (records: seq<WalRecord>)
    ensures records == Replay(c, bytes)
  {
    records := [];
    var left := bytes;
    while true
      invariant Replay(c, bytes) == records + Replay(c, left)
      decreases |left|
    {
      var next := NextFrame(c, left);
      assert next == Reader(c)(left);
      if next.Fail? {
        break;
      }
      records := records + [next.value];
      left := next.rest;
    }
  }
}
