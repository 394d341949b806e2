/** Object and expiry records as log bytes: how metadata shares the log with objects, and what a
    torn log file gives back to recovery. */
module LogFile {
  import opened Types
  import opened Bytes
  import opened Framing
  import opened ObjectStore
  import opened Log
  import opened Wal

  /** "\0mfs:object-meta:v1\0" */
  const META_PREFIX: seq<Byte> := [
    0, 0x6D, 0x66, 0x73, 0x3A, 0x6F, 0x62, 0x6A, 0x65, 0x63, 0x74, 0x2D, 0x6D, 0x65, 0x74, 0x61, 0x3A, 0x76, 0x31, 0]

  predicate IsMetaKey(k: Key) {
    META_PREFIX <= k
  }

  // ----- Expiry metadata as a value -----

  /** A byte-string value is a zero tag, a length and the bytes; the bytes are four words. */
  function EncodeExpiry(e: ExpiryMeta): Value {
    [0] + (LittleEndian(32, 4) + Words(e))
  }

  function Words(e: ExpiryMeta): (bs: seq<Byte>)
    ensures |bs| == 32
  {
    LittleEndian(e.version, 8) + LittleEndian(e.lastTouch, 8) + LittleEndian(e.expiresAt, 8) + LittleEndian(e.ttiTicks, 8)
  }

  function FromWords(bs: seq<Byte>): ExpiryMeta
    requires |bs| == 32
  {
    ExpiryMeta(FromLittle(bs[..8]), FromLittle(bs[8..16]), FromLittle(bs[16..24]), FromLittle(bs[24..32]))
  }

  /** Anything but a byte string of exactly 32 bytes is not metadata. */
  function DecodeExpiry(v: Value): Option<ExpiryMeta> {
    if |v| != 37 || v[0] != 0 || FromLittle(v[1..5]) != 32 then None else Some(FromWords(v[5..]))
  }

  predicate FitsExpiry(e: ExpiryMeta) {
    Fits64(e.version) && Fits64(e.lastTouch) && Fits64(e.expiresAt) && Fits64(e.ttiTicks)
  }

  lemma WordsInParts(a: seq<Byte>, b: seq<Byte>, c: seq<Byte>, d: seq<Byte>)
    requires |a| == |b| == |c| == |d| == 8
    ensures
      var bs := a + b + c + d;
      bs[..8] == a && bs[8..16] == b && bs[16..24] == c && bs[24..32] == d
  {
  }

  lemma WordsReadBack(e: ExpiryMeta)
    requires FitsExpiry(e)
    ensures FromWords(Words(e)) == e
  {
    Widths();
    DecodeEncode(e.version, 8);
    DecodeEncode(e.lastTouch, 8);
    DecodeEncode(e.expiresAt, 8);
    DecodeEncode(e.ttiTicks, 8);
    WordsInParts(LittleEndian(e.version, 8), LittleEndian(e.lastTouch, 8),
      LittleEndian(e.expiresAt, 8), LittleEndian(e.ttiTicks, 8));
  }

  lemma ExpiryReadsBack(e: ExpiryMeta)
    requires FitsExpiry(e)
    ensures DecodeExpiry(EncodeExpiry(e)) == Some(e)
  {
    var n := LittleEndian(32, 4);
    Widths();
    DecodeEncode(32, 4);
    assert ([0] + (n + Words(e)))[1..5] == n;
    assert ([0] + (n + Words(e)))[5..] == Words(e);
    WordsReadBack(e);
  }

  // ----- Records -----

  function ToWal(r: LogRecord): WalRecord {
    match r
    case Object(k, version, None) => WalRecord(Delete, version, k, None)
    case Object(k, version, Some(v)) => WalRecord(Put, version, k, Some(v))
    case Expiry(k, version, e) => WalRecord(Put, version, META_PREFIX + k, Some(EncodeExpiry(e)))
    case NoExpiry(k, version) => WalRecord(Delete, version, META_PREFIX + k, None)
  }

  /** How recovery classifies a replayed record; undecodable metadata, and a put without a value,
      load nothing. */
  function FromWal(r: WalRecord): Option<LogRecord> {
    if IsMetaKey(r.key) then
      var k := r.key[|META_PREFIX|..];
      if r.op.Delete? then Some(NoExpiry(k, r.version))
      else if r.value.Some? && DecodeExpiry(r.value.value).Some? then
        Some(Expiry(k, r.version, DecodeExpiry(r.value.value).value))
      else None
    else if r.op.Delete? then Some(Object(r.key, r.version, None))
    else if r.value.Some? then Some(Object(r.key, r.version, r.value))
    else None
  }

  /** A record comes back as itself exactly when its object key does not look like a metadata key. */
  lemma RecordComesBack(r: LogRecord)
    requires r.Expiry? ==> FitsExpiry(r.meta)
    ensures FromWal(ToWal(r)) == Some(r) <==> !(r.Object? && IsMetaKey(r.key))
  {
    if !r.Object? {
      assert (META_PREFIX + r.key)[|META_PREFIX|..] == r.key;
      if r.Expiry? {
        ExpiryReadsBack(r.meta);
      }
    }
  }

  function ToWalAll(log: seq<LogRecord>): seq<WalRecord> {
    seq(|log|, i requires 0 <= i < |log| => ToWal(log[i]))
  }

  /** The records recovery hands on, in order. */
  function Classified(rs: seq<WalRecord>): seq<LogRecord> {
    if rs == [] then []
    else Classified(rs[..|rs| - 1]) + (match FromWal(rs[|rs| - 1]) case None => [] case Some(r) => [r])
  }

  ghost predicate Loggable(c: Codec, log: seq<LogRecord>) {
    forall r :: r in log ==> Writable(c, ToWal(r)) && Returns(r)
  }

  lemma ClassifiedStep(rs: seq<WalRecord>, w: WalRecord, r: LogRecord)
    requires FromWal(w) == Some(r)
    ensures Classified(rs + [w]) == Classified(rs) + [r]
  {
    assert (rs + [w])[..|rs|] == rs;
  }

  lemma ToWalStep(log: seq<LogRecord>, r: LogRecord)
    ensures ToWalAll(log + [r]) == ToWalAll(log) + [ToWal(r)]
  {
  }

  ghost predicate Returns(r: LogRecord) {
    (r.Expiry? ==> FitsExpiry(r.meta)) && !(r.Object? && IsMetaKey(r.key))
  }

  lemma ClassifiedSnoc(log: seq<LogRecord>, r: LogRecord)
    requires Returns(r)
    ensures Classified(ToWalAll(log + [r])) == Classified(ToWalAll(log)) + [r]
  {
    RecordComesBack(r);
    ToWalStep(log, r);
    ClassifiedStep(ToWalAll(log), ToWal(r), r);
  }

  lemma {:induction false} ClassifiedComesBack(log: seq<LogRecord>)
    requires forall r :: r in log ==> Returns(r)
    ensures Classified(ToWalAll(log)) == log
  {
    if log != [] {
      var front, r := log[..|log| - 1], log[|log| - 1];
      ClassifiedComesBack(front);
      ClassifiedSnoc(front, r);
      assert log == front + [r];
    }
  }

  /** What recovery can read of a log file that was cut at any byte is a prefix of the log: the
      records that are whole before the cut, up to the first over the replay limit. */
  lemma TornLogIsAPrefix(c: Codec, log: seq<LogRecord>, n: nat)
    requires Loggable(c, log) && n <= |LogBytes(c, ToWalAll(log))|
    ensures
      var kept := Surviving(Writer(c), WithinLimit, ToWalAll(log), n);
      kept <= |log| && Classified(Replay(c, LogBytes(c, ToWalAll(log))[..n])) == log[..kept]
  {
    var rs := ToWalAll(log);
    var kept := Surviving(Writer(c), WithinLimit, rs, n);
    forall r | r in rs ensures Writable(c, r) {
      var i :| 0 <= i < |log| && r == ToWal(log[i]);
      assert log[i] in log;
    }
    CutLogReplays(c, rs, n);
    assert rs[..kept] == ToWalAll(log[..kept]);
    ClassifiedComesBack(log[..kept]);
  }

  /** The synced part of the log is never lost: a cut at or after it keeps all of it, provided
      every record of it is within the replay limit. */
  lemma SyncedPartSurvives(c: Codec, rs: seq<WalRecord>, m: nat, n: nat)
    requires m <= |rs| && |LogBytes(c, rs[..m])| <= n
    requires forall r :: r in rs[..m] ==> WithinLimit(r)
    ensures m <= Surviving(Writer(c), WithinLimit, rs, n)
  {
    PrefixSurvives(Writer(c), WithinLimit, rs, m, n);
  }

  /** An object whose key is the bare metadata prefix does not come back as itself. */
  lemma PrefixedKeyIsMisread()
    ensures FromWal(ToWal(Object(META_PREFIX, 1, Some([7])))) != Some(Object(META_PREFIX, 1, Some([7])))
  {
    RecordComesBack(Object(META_PREFIX, 1, Some([7])));
  }
}
