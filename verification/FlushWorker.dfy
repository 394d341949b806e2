/** The flush worker: a queue, a pending batch, retries and barriers.

    `State` holds the worker's and the callers' variables and, beside them, the history that the
    guarantees speak of: what was sent, what is committed, and where each barrier stands. Every
    action below is atomic, so the invariant covers every interleaving of callers and worker. */
module WorkerModel {
  import opened Types
  import opened SqlCopy

  datatype Job = Work(record: FlushRecord) | Barrier(id: nat)

  datatype State = State(
    channel: seq<Job>,
    senderOpen: bool,
    pending: seq<FlushRecord>,
    barrier: Option<nat>,
    closed: bool,
    running: bool,
    queued: int,                   // the shared counter, before reduction modulo 2^64
    table: Table,                  // the query copy
    acked: set<nat>,
    sent: seq<FlushRecord>,
    committed: seq<FlushRecord>,
    uncounted: nat,                // sent, but not yet added to the counter
    cuts: map<nat, nat>)           // how many records were sent before each barrier

  const START := State([], true, [], None, false, true, 0, map[], {}, [], [], 0, map[])

  function Records(jobs: seq<Job>): seq<FlushRecord> {
    if jobs == [] then []
    else
      var front := Records(jobs[..|jobs| - 1]);
      if jobs[|jobs| - 1].Work? then front + [jobs[|jobs| - 1].record] else front
  }

  function RecordsIn(job: Job): seq<FlushRecord> {
    if job.Work? then [job.record] else []
  }

  lemma {:induction false} RecordsOfCons(job: Job, jobs: seq<Job>)
    ensures Records([job] + jobs) == RecordsIn(job) + Records(jobs)
  {
    if jobs == [] {
      assert [job] + jobs == [job] && [job][..0] == [];
    } else {
      assert ([job] + jobs)[..|jobs|] == [job] + jobs[..|jobs| - 1];
      RecordsOfCons(job, jobs[..|jobs| - 1]);
    }
  }

  lemma RecordsOfSnoc(jobs: seq<Job>, job: Job)
    ensures Records(jobs + [job]) == Records(jobs) + RecordsIn(job)
  {
    assert (jobs + [job])[..|jobs|] == jobs;
  }

  // ----- Actions of callers -----

  function Send(s: State, r: FlushRecord): State {
    s.(channel := s.channel + [Work(r)], sent := s.sent + [r], uncounted := s.uncounted + 1)
  }

  function Count(s: State): State
    requires s.uncounted > 0
  {
    s.(queued := s.queued + 1, uncounted := s.uncounted - 1)
  }

  function SendBarrier(s: State, id: nat): State {
    s.(channel := s.channel + [Barrier(id)], cuts := s.cuts[id := |s.sent|])
  }

  function Close(s: State): State {
    s.(senderOpen := false)
  }

  // ----- Actions of the worker -----

  function Receive(s: State): State {
    if s.channel == [] then s.(closed := s.closed || !s.senderOpen)
    else
      var t := s.(channel := s.channel[1..]);
      match s.channel[0]
      case Work(r) => t.(pending := s.pending + [r])
      case Barrier(id) => t.(barrier := Some(id))
  }

  /** A failed attempt may have applied any first part of the batch; the batch stays in front. */
  function Fail(s: State, applied: nat): State
    requires applied <= |s.pending|
  {
    s.(table := GuardedAll(s.table, s.pending[..applied]))
  }

  function Commit(s: State): State {
    s.(table := GuardedAll(s.table, s.pending),
       queued := s.queued - |s.pending|,
       committed := s.committed + s.pending,
       pending := [],
       acked := if s.barrier.Some? then s.acked + {s.barrier.value} else s.acked,
       barrier := None,
       running := s.running && !s.closed)
  }

  // ----- The invariant -----

  ghost predicate InOrder(s: State) {
    s.sent == s.committed + s.pending + Records(s.channel)
  }

  ghost predicate CutsHold(s: State) {
    && (forall i :: 0 <= i < |s.channel| && s.channel[i].Barrier? ==>
          s.channel[i].id in s.cuts
          && s.cuts[s.channel[i].id] == |s.committed| + |s.pending| + |Records(s.channel[..i])|)
    && (s.barrier.Some? ==> s.barrier.value in s.cuts && s.cuts[s.barrier.value] == |s.committed| + |s.pending|)
    && (forall b :: b in s.acked ==> b in s.cuts && s.cuts[b] <= |s.committed|)
  }

  ghost predicate LifeHolds(s: State, batchMax: nat) {
    && (s.closed ==> !s.senderOpen && s.channel == [])
    && (!s.running ==> s.closed && s.pending == [] && s.barrier.None?)
    && |s.pending| <= Max(1, batchMax)
    && s.queued + s.uncounted == |s.pending| + |Records(s.channel)|
    && s.uncounted <= |s.sent|
  }

  ghost predicate TableHolds(s: State) {
    Increasing(s.sent) ==> Between(s.table, s.committed + s.pending, |s.committed|)
  }

  ghost predicate Inv(s: State, batchMax: nat) {
    InOrder(s) && CutsHold(s) && LifeHolds(s, batchMax) && TableHolds(s)
  }

  lemma StartHolds(batchMax: nat)
    ensures Inv(START, batchMax)
  {
    forall k ensures RowBetween(map[], [], 0, k) {
      assert StandsAt(map[], [], 0, k);
    }
    assert START.committed + START.pending == [];
  }

  lemma SendKeeps(s: State, r: FlushRecord, batchMax: nat)
    requires Inv(s, batchMax) && s.senderOpen
    ensures Inv(Send(s, r), batchMax)
  {
    var t := Send(s, r);
    RecordsOfSnoc(s.channel, Work(r));
    assert s.committed + s.pending + (Records(s.channel) + [r]) == s.sent + [r];
    forall i | 0 <= i < |s.channel| ensures t.channel[i] == s.channel[i] && t.channel[..i] == s.channel[..i] {
    }
    assert Increasing(t.sent) ==> Increasing(s.sent) by {
      assert forall i :: 0 <= i < |s.sent| ==> t.sent[i] == s.sent[i];
    }
  }

  lemma SentBarrierCuts(s: State, id: nat)
    requires InOrder(s) && CutsHold(s) && id !in s.cuts
    ensures CutsHold(SendBarrier(s, id))
  {
    var t := SendBarrier(s, id);
    forall i | 0 <= i < |t.channel| && t.channel[i].Barrier?
      ensures t.channel[i].id in t.cuts
           && t.cuts[t.channel[i].id] == |t.committed| + |t.pending| + |Records(t.channel[..i])|
    {
      assert t.channel[..i] == s.channel[..i];
      if i == |s.channel| {
        assert s.channel[..i] == s.channel;
      }
    }
  }

  lemma SendBarrierKeeps(s: State, id: nat, batchMax: nat)
    requires Inv(s, batchMax) && s.senderOpen && id !in s.cuts
    ensures Inv(SendBarrier(s, id), batchMax)
  {
    SentBarrierCuts(s, id);
    RecordsOfSnoc(s.channel, Barrier(id));
  }

  lemma PrefixOfTail(jobs: seq<Job>, i: nat)
    requires i < |jobs|
    ensures jobs[..i + 1] == [jobs[0]] + jobs[1..][..i]
  {
  }

  lemma ReceivedPrefix(jobs: seq<Job>, i: nat)
    requires i < |jobs|
    ensures Records(jobs[..i + 1]) == RecordsIn(jobs[0]) + Records(jobs[1..][..i])
  {
    PrefixOfTail(jobs, i);
    RecordsOfCons(jobs[0], jobs[1..][..i]);
  }

  lemma ReceivedCuts(s: State)
    requires CutsHold(s) && s.channel != [] && s.barrier.None?
    ensures CutsHold(Receive(s))
  {
    var job, rest := s.channel[0], s.channel[1..];
    forall i | 0 <= i < |rest|
      ensures rest[i] == s.channel[i + 1] && Records(s.channel[..i + 1]) == RecordsIn(job) + Records(rest[..i])
    {
      ReceivedPrefix(s.channel, i);
    }
    assert s.channel[..0] == [];
  }

  lemma ReceivedOrder(s: State)
    requires InOrder(s) && s.channel != []
    ensures InOrder(Receive(s))
    ensures |Records(s.channel)| == |RecordsIn(s.channel[0])| + |Records(s.channel[1..])|
  {
    var job, rest := s.channel[0], s.channel[1..];
    assert s.channel == [job] + rest;
    RecordsOfCons(job, rest);
    if job.Work? {
      assert s.committed + s.pending + ([job.record] + Records(rest))
          == s.committed + (s.pending + [job.record]) + Records(rest);
    } else {
      assert [] + Records(rest) == Records(rest);
    }
  }

  lemma ReceivedTable(s: State)
    requires TableHolds(s) && s.channel != []
    ensures TableHolds(Receive(s))
  {
    var job := s.channel[0];
    if job.Work? && Increasing(s.sent) {
      BetweenGrows(s.table, s.committed + s.pending, [job.record], |s.committed|);
      assert s.committed + (s.pending + [job.record]) == s.committed + s.pending + [job.record];
    }
  }

  lemma ReceiveKeeps(s: State, batchMax: nat)
    requires Inv(s, batchMax) && s.running && s.barrier.None? && |s.pending| < Max(1, batchMax)
    ensures Inv(Receive(s), batchMax)
  {
    if s.channel != [] {
      ReceivedOrder(s);
      ReceivedCuts(s);
      ReceivedTable(s);
    }
  }

  lemma PrefixIncreases(a: seq<FlushRecord>, b: seq<FlushRecord>)
    requires Increasing(a + b)
    ensures Increasing(a)
  {
    assert forall i :: 0 <= i < |a| ==> (a + b)[i] == a[i];
  }

  lemma FailKeeps(s: State, applied: nat, batchMax: nat)
    requires Inv(s, batchMax) && applied <= |s.pending|
    ensures Inv(Fail(s, applied), batchMax)
  {
    if Increasing(s.sent) {
      var all := s.committed + s.pending;
      PrefixIncreases(all, Records(s.channel));
      PartialPass(s.table, all, |s.committed|, |s.committed| + applied);
      assert all[|s.committed|..|s.committed| + applied] == s.pending[..applied];
    }
  }

  /** A committed batch leaves the copy equal to the last-writer-wins table of everything
      committed, whatever earlier attempts had applied. */
  lemma CommitKeeps(s: State, batchMax: nat)
    requires Inv(s, batchMax)
    ensures Inv(Commit(s), batchMax)
    ensures Increasing(s.sent) ==> Commit(s).table == Plain(Commit(s).committed)
  {
    var t := Commit(s);
    var all := s.committed + s.pending;
    assert t.committed + t.pending == all;
    if Increasing(s.sent) {
      PrefixIncreases(all, Records(s.channel));
      FullPass(s.table, all, |s.committed|);
      assert all[|s.committed|..] == s.pending;
      forall k ensures RowBetween(t.table, all, |all|, k) {
        assert all[..|all|] == all;
        assert StandsAt(t.table, all, |all|, k);
      }
    }
  }

  /** When a commit answers a barrier, exactly the records sent before it are committed; when it
      ends the worker, everything is. */
  lemma CommitAnswers(s: State, batchMax: nat)
    requires Inv(s, batchMax) && s.running
    ensures s.barrier.Some? ==>
      s.barrier.value in s.cuts && s.cuts[s.barrier.value] <= |s.sent|
      && Commit(s).committed == s.sent[..s.cuts[s.barrier.value]]
    ensures !Commit(s).running ==> Commit(s).committed == s.sent
  {
    assert s.sent[..|s.committed| + |s.pending|] == s.committed + s.pending;
  }

  // ----- Runs: any interleaving of callers and worker, with any failures -----

  datatype Action =
    | SendAction(record: FlushRecord)
    | CountAction
    | BarrierAction(id: nat)
    | CloseAction
    | ReceiveAction
    | FailAction(applied: nat)
    | CommitAction

  predicate Can(s: State, a: Action, batchMax: nat) {
    match a
    case SendAction(_) => s.senderOpen
    case CountAction => s.uncounted > 0
    case BarrierAction(id) => s.senderOpen && id !in s.cuts
    case CloseAction => true
    case ReceiveAction => s.running && s.barrier.None? && |s.pending| < Max(1, batchMax)
    case FailAction(applied) => s.running && s.pending != [] && applied <= |s.pending|
    case CommitAction => s.running && (s.pending != [] || s.barrier.Some? || s.closed)
  }

  function Act(s: State, a: Action, batchMax: nat): State
    requires Can(s, a, batchMax)
  {
    match a
    case SendAction(r) => Send(s, r)
    case CountAction => Count(s)
    case BarrierAction(id) => SendBarrier(s, id)
    case CloseAction => Close(s)
    case ReceiveAction => Receive(s)
    case FailAction(applied) => Fail(s, applied)
    case CommitAction => Commit(s)
  }

  predicate Runs(s: State, acts: seq<Action>, batchMax: nat)
    decreases |acts|
  {
    acts == [] || (Can(s, acts[0], batchMax) && Runs(Act(s, acts[0], batchMax), acts[1..], batchMax))
  }

  function Run(s: State, acts: seq<Action>, batchMax: nat): State
    requires Runs(s, acts, batchMax)
    decreases |acts|
  {
    if acts == [] then s else Run(Act(s, acts[0], batchMax), acts[1..], batchMax)
  }

  lemma ActKeeps(s: State, a: Action, batchMax: nat)
    requires Inv(s, batchMax) && Can(s, a, batchMax)
    ensures Inv(Act(s, a, batchMax), batchMax)
  {
    match a
    case SendAction(r) => SendKeeps(s, r, batchMax);
    case BarrierAction(id) => SendBarrierKeeps(s, id, batchMax);
    case ReceiveAction => ReceiveKeeps(s, batchMax);
    case FailAction(applied) => FailKeeps(s, applied, batchMax);
    case CommitAction => CommitKeeps(s, batchMax);
    case _ =>
  }

  lemma {:induction false} RunKeeps(s: State, acts: seq<Action>, batchMax: nat)
    requires Inv(s, batchMax) && Runs(s, acts, batchMax)
    ensures Inv(Run(s, acts, batchMax), batchMax)
    decreases |acts|
  {
    if acts != [] {
      ActKeeps(s, acts[0], batchMax);
      RunKeeps(Act(s, acts[0], batchMax), acts[1..], batchMax);
    }
  }

  /** In every run, committed, pending and queued records are the sent sequence, in order, and no
      batch exceeds its limit. */
  lemma NothingLostOrReordered(acts: seq<Action>, batchMax: nat)
    requires Runs(START, acts, batchMax)
    ensures var s := Run(START, acts, batchMax);
      s.sent == s.committed + s.pending + Records(s.channel) && |s.pending| <= Max(1, batchMax)
  {
    StartHolds(batchMax);
    RunKeeps(START, acts, batchMax);
  }

  /** In every run, a barrier is acknowledged only once every record sent before it is committed. */
  lemma BarrierMeansCommitted(acts: seq<Action>, batchMax: nat, b: nat)
    requires Runs(START, acts, batchMax) && b in Run(START, acts, batchMax).acked
    ensures var s := Run(START, acts, batchMax);
      b in s.cuts && s.cuts[b] <= |s.committed| <= |s.sent| && s.committed == s.sent[..|s.committed|]
  {
    StartHolds(batchMax);
    RunKeeps(START, acts, batchMax);
    var s := Run(START, acts, batchMax);
    assert s.sent == s.committed + (s.pending + Records(s.channel));
  }

  /** In every run, the worker has exited only when everything ever sent is committed. */
  lemma ExitMeansDrained(acts: seq<Action>, batchMax: nat)
    requires Runs(START, acts, batchMax) && !Run(START, acts, batchMax).running
    ensures Run(START, acts, batchMax).committed == Run(START, acts, batchMax).sent
  {
    StartHolds(batchMax);
    RunKeeps(START, acts, batchMax);
  }

  /** The action of a run that acknowledges a barrier is a commit. At that moment exactly the
      records sent before the barrier are committed, and the table is their last-writer-wins
      fold, whatever failed attempts had applied. */
  lemma AcknowledgementMeansCopied(acts: seq<Action>, a: Action, batchMax: nat, b: nat)
    requires Runs(START, acts, batchMax) && Can(Run(START, acts, batchMax), a, batchMax)
    requires b !in Run(START, acts, batchMax).acked && b in Act(Run(START, acts, batchMax), a, batchMax).acked
    ensures var t := Act(Run(START, acts, batchMax), a, batchMax);
      && a.CommitAction? && b in t.cuts && t.cuts[b] <= |t.sent|
      && t.committed == t.sent[..t.cuts[b]]
      && (Increasing(t.sent) ==> t.table == Plain(t.sent[..t.cuts[b]]))
  {
    StartHolds(batchMax);
    RunKeeps(START, acts, batchMax);
    var s := Run(START, acts, batchMax);
    CommitAnswers(s, batchMax);
    CommitKeeps(s, batchMax);
  }

  const COUNTER_MODULUS: nat := 0x1_0000_0000_0000_0000

  /** In every run, the shared counter shows the uncommitted records exactly when every send has
      been counted; a commit that overtakes the count makes it wrap around to a huge number. */
  lemma CounterReading(acts: seq<Action>, batchMax: nat)
    requires Runs(START, acts, batchMax) && |Run(START, acts, batchMax).sent| < COUNTER_MODULUS
    ensures var s := Run(START, acts, batchMax); var uncommitted := |s.sent| - |s.committed|;
      && (s.queued % COUNTER_MODULUS == uncommitted <==> s.uncounted == 0)
      && (s.uncounted > uncommitted ==> s.queued % COUNTER_MODULUS == COUNTER_MODULUS + uncommitted - s.uncounted)
  {
    StartHolds(batchMax);
    RunKeeps(START, acts, batchMax);
    var s := Run(START, acts, batchMax);
    WrapsBelowZero(|s.sent| - |s.committed|, s.uncounted);
  }

  lemma WrapsBelowZero(uncommitted: nat, uncounted: nat)
    requires uncommitted < COUNTER_MODULUS && uncounted < COUNTER_MODULUS
    ensures (uncommitted - uncounted) % COUNTER_MODULUS == uncommitted <==> uncounted == 0
    ensures uncounted > uncommitted ==>
      (uncommitted - uncounted) % COUNTER_MODULUS == COUNTER_MODULUS + uncommitted - uncounted
  {
  }

  lemma RunCons(s: State, a: Action, rest: seq<Action>, batchMax: nat)
    requires Can(s, a, batchMax) && Runs(Act(s, a, batchMax), rest, batchMax)
    ensures Runs(s, [a] + rest, batchMax)
    ensures Run(s, [a] + rest, batchMax) == Run(Act(s, a, batchMax), rest, batchMax)
  {
    assert ([a] + rest)[1..] == rest;
  }

  lemma RunOfThree(s: State, a: Action, b: Action, c: Action, batchMax: nat)
    requires Can(s, a, batchMax) && Can(Act(s, a, batchMax), b, batchMax)
    requires Can(Act(Act(s, a, batchMax), b, batchMax), c, batchMax)
    ensures Runs(s, [a, b, c], batchMax)
    ensures Run(s, [a, b, c], batchMax) == Act(Act(Act(s, a, batchMax), b, batchMax), c, batchMax)
  {
    RunCons(Act(Act(s, a, batchMax), b, batchMax), c, [], batchMax);
    RunCons(Act(s, a, batchMax), b, [c], batchMax);
    RunCons(s, a, [b, c], batchMax);
    assert [c] + [] == [c] && [b] + [c] == [b, c] && [a] + [b, c] == [a, b, c];
  }

  /** Sending one record and committing it before its count is added does wrap the counter. */
  lemma CounterCanWrap(r: FlushRecord)
    ensures var acts := [SendAction(r), ReceiveAction, CommitAction];
      Runs(START, acts, 1) && var s := Run(START, acts, 1);
      s.committed == s.sent && s.queued % COUNTER_MODULUS == COUNTER_MODULUS - 1
  {
    RunOfThree(START, SendAction(r), ReceiveAction, CommitAction, 1);
    assert Receive(Send(START, r)).pending == [r];
    WrapsBelowZero(0, 1);
  }
}

/** The worker as an object: the fields of its loop, updated in place. */
module FlushWorker {
  import opened Types
  import opened SqlCopy
  import WorkerModel

  class Worker {
    const batchMax: nat
    var channel: seq<WorkerModel.Job>
    var senderOpen: bool
    var pending: seq<FlushRecord>
    var barrier: Option<nat>
    var closed: bool
    var running: bool
    var queued: int
    var table: Table
    var acked: set<nat>
    ghost var sent: seq<FlushRecord>
    ghost var committed: seq<FlushRecord>
    ghost var uncounted: nat
    ghost var cuts: map<nat, nat>

    ghost function View(): WorkerModel.State
      reads this
    {
      WorkerModel.State(channel, senderOpen, pending, barrier, closed, running, queued, table, acked,
                        sent, committed, uncounted, cuts)
    }

    ghost predicate Valid()
      reads this
    {
      WorkerModel.Inv(View(), batchMax)
    }

    constructor (batchMax: nat)
      ensures Valid() && View() == WorkerModel.START && this.batchMax == batchMax
    {
      this.batchMax := batchMax;
      channel, senderOpen, pending, barrier, closed, running := [], true, [], None, false, true;
      queued, table, acked := 0, map[], {};
      sent, committed, uncounted, cuts := [], [], 0, map[];
      new;
      WorkerModel.StartHolds(batchMax);
    }

    /** The send half of `enqueue`; the count follows separately. */
    method Send(r: FlushRecord) returns (ok: bool)
      requires Valid()
      modifies this
      ensures Valid() && ok == old(senderOpen)
      ensures View() == if ok then WorkerModel.Send(old(View()), r) else old(View())
    {
      ok := senderOpen;
      if ok {
        WorkerModel.SendKeeps(View(), r, batchMax);
        channel := channel + [WorkerModel.Work(r)];
        sent := sent + [r];
        uncounted := uncounted + 1;
      }
    }

    method Count()
      requires Valid() && uncounted > 0
      modifies this
      ensures Valid() && View() == WorkerModel.Count(old(View()))
    {
      queued := queued + 1;
      uncounted := uncounted - 1;
    }

    /** The send half of `barrier`. */
    method SendBarrier(id: nat) returns (ok: bool)
      requires Valid() && id !in cuts
      modifies this
      ensures Valid() && ok == old(senderOpen)
      ensures View() == if ok then WorkerModel.SendBarrier(old(View()), id) else old(View())
    {
      ok := senderOpen;
      if ok {
        WorkerModel.SendBarrierKeeps(View(), id, batchMax);
        channel := channel + [WorkerModel.Barrier(id)];
        cuts := cuts[id := |sent|];
      }
    }

    method Close()
      requires Valid()
      modifies this
      ensures Valid() && View() == WorkerModel.Close(old(View()))
    {
      senderOpen := false;
    }

    /** One receive: a record joins the batch, a barrier is held, or the queue has nothing. */
    method Receive() returns (received: bool)
      requires Valid() && running && barrier.None? && |pending| < Max(1, batchMax)
      modifies this
      ensures Valid() && View() == WorkerModel.Receive(old(View())) && received == old(channel != [])
    {
      WorkerModel.ReceiveKeeps(View(), batchMax);
      received := channel != [];
      if !received {
        closed := closed || !senderOpen;
        return;
      }
      var job := channel[0];
      channel := channel[1..];
      match job
      case Work(r) => pending := pending + [r];
      case Barrier(id) => barrier := Some(id);
    }

    /** Collects a batch, stopping at a barrier, at the batch limit, or at an empty queue. */
    method Collect()
      requires Valid() && running
      modifies this
      ensures Valid() && running && sent == old(sent) && committed == old(committed) && table == old(table)
      ensures acked == old(acked) && cuts == old(cuts) && |pending| <= Max(batchMax, old(|pending|))
      ensures |pending| >= batchMax || barrier.Some? || channel == []
    {
      while |pending| < batchMax && barrier.None?
        invariant Valid() && running && sent == old(sent) && committed == old(committed) && table == old(table)
        invariant acked == old(acked) && cuts == old(cuts) && |pending| <= Max(batchMax, old(|pending|))
        decreases |channel|
      {
        var received := Receive();
        if !received {
          return;
        }
      }
    }

    /** Writes the batch and answers the barrier, or puts the batch back. */
    method Flush(ok: bool, applied: nat)
      requires Valid() && running && (pending != [] || barrier.Some?) && applied <= |pending|
      modifies this
      ensures Valid() && sent == old(sent) && cuts == old(cuts)
      ensures View() == if ok || old(pending) == [] then WorkerModel.Commit(old(View()))
                        else WorkerModel.Fail(old(View()), applied)
      ensures acked != old(acked) ==> old(barrier).Some? && committed == sent[..cuts[old(barrier).value]]
      ensures acked != old(acked) && Increasing(sent) ==> table == Plain(sent[..cuts[old(barrier).value]])
      ensures !running ==> committed == sent
    {
      ghost var s := View();
      if pending != [] && !ok {
        PutBack(applied);
      } else {
        WorkerModel.CommitKeeps(s, batchMax);
        WorkerModel.CommitAnswers(s, batchMax);
        CommitBatch();
      }
    }

    /** The batch failed after applying some of it; its records go back in front, in order. */
    method PutBack(applied: nat)
      requires Valid() && applied <= |pending|
      modifies this
      ensures Valid() && View() == WorkerModel.Fail(old(View()), applied)
    {
      WorkerModel.FailKeeps(View(), applied, batchMax);
      table := GuardedAll(table, pending[..applied]);
      var batch := pending;
      pending := [];
      for i := |batch| downto 0
        invariant pending == batch[i..] && View() == WorkerModel.Fail(old(View()), applied).(pending := batch[i..])
      {
        pending := [batch[i]] + pending;
      }
    }

    method CommitBatch()
      modifies this
      ensures View() == WorkerModel.Commit(old(View()))
    {
      table := GuardedAll(table, pending);
      queued := queued - |pending|;
      committed := committed + pending;
      pending := [];
      if barrier.Some? {
        acked := acked + {barrier.value};
        barrier := None;
      }
      if closed {
        running := false;
      }
    }

    /** One turn of the worker's outer loop, with nothing running in between; `arrives` says
        whether the timed wait found a job. */
    method Turn(arrives: bool, ok: bool, applied: nat)
      requires Valid() && running
      modifies this
      ensures Valid() && sent == old(sent) && cuts == old(cuts) && old(committed) <= committed
      ensures !running ==> committed == sent
    {
      Collect();
      if pending == [] && barrier.None? {
        if closed {
          running := false;
        } else if arrives || channel == [] {
          var _ := Receive();
        }
        return;
      }
      Flush(ok, Min(applied, |pending|));
    }
  }
}
