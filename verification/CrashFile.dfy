/** The recovery theorem down to the bytes: a log file torn at any byte at or after its synced
    part. */
module CrashFile {
  import opened Types
  import opened Framing
  import opened ObjectStore
  import opened World
  import opened WorldFrame
  import opened Durability
  import opened Recovery
  import opened Wal
  import opened LogFile

  /** The file holds the log's frames; a crash leaves its first `n` bytes, no fewer than were
      synced. */
  ghost predicate Torn(c: Codec, m: Machine, n: nat)
    requires m.synced <= |m.wal|
  {
    && Loggable(c, m.wal)
    && |LogBytes(c, ToWalAll(m.wal[..m.synced]))| <= n <= |LogBytes(c, ToWalAll(m.wal))|
    && forall r :: r in m.wal[..m.synced] ==> WithinLimit(ToWal(r))
  }

  lemma SyncedRecordsAreKept(c: Codec, m: Machine, n: nat)
    requires m.synced <= |m.wal| && Torn(c, m, n)
    ensures
      var kept := Surviving(Writer(c), WithinLimit, ToWalAll(m.wal), n);
      m.synced <= kept <= |m.wal| && Classified(Replay(c, LogBytes(c, ToWalAll(m.wal))[..n])) == m.wal[..kept]
  {
    TornLogIsAPrefix(c, m.wal, n);
    var rs := ToWalAll(m.wal);
    assert rs[..m.synced] == ToWalAll(m.wal[..m.synced]);
    forall r | r in rs[..m.synced] ensures WithinLimit(r) {
      var i :| 0 <= i < m.synced && r == rs[i];
      assert m.wal[..m.synced][i] in m.wal[..m.synced];
    }
    SyncedPartSurvives(c, rs, m.synced, n);
  }

  /** After any run, whatever byte the log file is torn at, what recovery replays from the file
      gives back every durable key's read under exactly the condition of `CrashKeepsReads`. */
  lemma TornFileKeepsReads(c: Codec, m: Machine, n: nat, r: Store, k: Key)
    requires Sound(m) && m.synced <= |m.wal| && Torn(c, m, n) && Durable(m, k)
    requires Recovers(Latest(m.ckpts), Classified(Replay(c, LogBytes(c, ToWalAll(m.wal))[..n])), r)
    ensures var log := Classified(Replay(c, LogBytes(c, ToWalAll(m.wal))[..n]));
      && (SameRead(r, m.w, k) <==> SameAfterCrash(m.w, k, Recovered(Latest(m.ckpts), log, k), r.clock))
      && (Timeless(m.w, k) ==> SameRead(r, m.w, k))
  {
    SyncedRecordsAreKept(c, m, n);
    CrashKeepsReads(m, Surviving(Writer(c), WithinLimit, ToWalAll(m.wal), n), r, k);
  }
}
