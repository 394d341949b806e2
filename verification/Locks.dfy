/** Advisory page-file locks: shared, reserved, pending, exclusive. */
module Locks {
  import opened Types

  datatype LockMode = Shared | Reserved | Pending | Exclusive

  datatype Lock = Lock(shared: set<nat>, reserved: Option<nat>, pending: Option<nat>, exclusive: Option<nat>)

  const FREE := Lock({}, None, None, None)

  datatype Request = Acquire(mode: LockMode, owner: nat) | Release(owner: nat)

  predicate HeldByOther(slot: Option<nat>, owner: nat) {
    slot.Some? && slot.value != owner
  }

  function Acquiring(l: Lock, mode: LockMode, owner: nat): (Lock, bool) {
    var entered := l.(shared := l.shared + {owner});
    match mode
    case Shared =>
      if HeldByOther(l.exclusive, owner) || HeldByOther(l.pending, owner) then (l, false)
      else (entered, true)
    case Reserved =>
      if HeldByOther(l.exclusive, owner) || HeldByOther(l.reserved, owner) then (l, false)
      else (entered.(reserved := Some(owner)), true)
    case Pending =>
      if HeldByOther(l.exclusive, owner) || HeldByOther(l.pending, owner) || HeldByOther(l.reserved, owner) then (l, false)
      else (entered.(reserved := Some(owner), pending := Some(owner)), true)
    case Exclusive =>
      if HeldByOther(l.exclusive, owner) || HeldByOther(l.pending, owner) || HeldByOther(l.reserved, owner)
         || exists o :: o in l.shared && o != owner then (l, false)
      else (entered.(reserved := Some(owner), pending := Some(owner), exclusive := Some(owner)), true)
  }

  function Clear(slot: Option<nat>, owner: nat): Option<nat> {
    if slot == Some(owner) then None else slot
  }

  function Releasing(l: Lock, owner: nat): Lock {
    Lock(l.shared - {owner}, Clear(l.reserved, owner), Clear(l.pending, owner), Clear(l.exclusive, owner))
  }

  function Handle(l: Lock, r: Request): Lock {
    match r
    case Acquire(mode, owner) => Acquiring(l, mode, owner).0
    case Release(owner) => Releasing(l, owner)
  }

  function HandleAll(l: Lock, rs: seq<Request>): Lock
    decreases |rs|
  {
    if rs == [] then l else HandleAll(Handle(l, rs[0]), rs[1..])
  }

  /** Each level implies the one below it, for the same owner, and an exclusive owner is alone. */
  predicate Safe(l: Lock) {
    && (l.exclusive.Some? ==> l.pending == l.exclusive && l.shared == {l.exclusive.value})
    && (l.pending.Some? ==> l.reserved == l.pending)
    && (l.reserved.Some? ==> l.reserved.value in l.shared)
  }

  lemma HandleKeepsSafe(l: Lock, r: Request)
    requires Safe(l)
    ensures Safe(Handle(l, r))
  {
  }

  /** Safety in every run, from no locks at all. */
  lemma {:induction false} EveryRunIsSafe(l: Lock, rs: seq<Request>)
    requires Safe(l)
    ensures Safe(HandleAll(l, rs))
    decreases |rs|
  {
    if rs != [] {
      HandleKeepsSafe(l, rs[0]);
      EveryRunIsSafe(Handle(l, rs[0]), rs[1..]);
    }
  }

  function Others(l: Lock, writer: nat): set<nat> {
    l.shared - {writer}
  }

  predicate Waiting(l: Lock, writer: nat) {
    Safe(l) && l.pending == Some(writer)
  }

  /** While a writer holds pending, no request adds another holder, and an unlock removes one. */
  lemma OthersOnlyLeave(l: Lock, writer: nat, r: Request)
    requires Waiting(l, writer) && r != Release(writer)
    ensures Waiting(Handle(l, r), writer)
    ensures Others(Handle(l, r), writer) <= Others(l, writer)
    ensures r.Release? ==> r.owner !in Others(Handle(l, r), writer)
  {
  }

  lemma {:induction false} OthersNeverGrow(l: Lock, writer: nat, rs: seq<Request>)
    requires Waiting(l, writer) && Release(writer) !in rs
    ensures Waiting(HandleAll(l, rs), writer) && Others(HandleAll(l, rs), writer) <= Others(l, writer)
    ensures forall o :: Release(o) in rs ==> o !in Others(HandleAll(l, rs), writer)
    decreases |rs|
  {
    if rs != [] {
      OthersOnlyLeave(l, writer, rs[0]);
      OthersNeverGrow(Handle(l, rs[0]), writer, rs[1..]);
    }
  }

  /** Writer progress: whatever else is requested, once every reader that was in when the writer
      took pending has unlocked, the writer's exclusive request succeeds. */
  lemma WriterGetsIn(l: Lock, writer: nat, rs: seq<Request>)
    requires Waiting(l, writer) && Release(writer) !in rs
    requires forall o :: o in Others(l, writer) ==> Release(o) in rs
    ensures Acquiring(HandleAll(l, rs), Exclusive, writer).1
  {
    OthersNeverGrow(l, writer, rs);
    var m := HandleAll(l, rs);
    forall o | o in m.shared ensures o == writer {
      assert o != writer ==> o in Others(m, writer);
    }
  }

  /** Exclusive is granted to a pending owner exactly when it is the only holder. */
  lemma ExclusiveIff(l: Lock, writer: nat)
    requires Waiting(l, writer)
    ensures Acquiring(l, Exclusive, writer).1 <==> l.shared == {writer}
  {
    if Acquiring(l, Exclusive, writer).1 {
      assert forall o :: o in l.shared ==> o == writer;
    }
  }

  /** A refused request changes nothing, and a release undoes everything its owner held. */
  lemma ReleaseUndoes(l: Lock, mode: LockMode, owner: nat)
    requires Safe(l) && owner !in l.shared
    ensures Releasing(Acquiring(l, mode, owner).0, owner) == l
  {
    var (m, ok) := Acquiring(l, mode, owner);
    if ok {
      assert m.shared - {owner} == l.shared;
    } else {
      assert l.shared - {owner} == l.shared;
    }
  }

  class LockState {
    var shared: set<nat>
    var reserved: Option<nat>
    var pending: Option<nat>
    var exclusive: Option<nat>

    function View(): Lock
      reads this
    {
      Lock(shared, reserved, pending, exclusive)
    }

    constructor ()
      ensures View() == FREE
    {
      shared, reserved, pending, exclusive := {}, None, None, None;
    }

    method LockShared(owner: nat) returns (ok: bool)
      requires Safe(View())
      modifies this
      ensures (View(), ok) == Acquiring(old(View()), Shared, owner) && Safe(View())
    {
      if HeldByOther(exclusive, owner) || HeldByOther(pending, owner) {
        return false;
      }
      shared := shared + {owner};
      ok := true;
    }

    method LockReserved(owner: nat) returns (ok: bool)
      requires Safe(View())
      modifies this
      ensures (View(), ok) == Acquiring(old(View()), Reserved, owner) && Safe(View())
    {
      if HeldByOther(exclusive, owner) || HeldByOther(reserved, owner) {
        return false;
      }
      shared := shared + {owner};
      reserved := Some(owner);
      ok := true;
    }

    method LockPending(owner: nat) returns (ok: bool)
      requires Safe(View())
      modifies this
      ensures (View(), ok) == Acquiring(old(View()), Pending, owner) && Safe(View())
    {
      if HeldByOther(exclusive, owner) || HeldByOther(pending, owner) || HeldByOther(reserved, owner) {
        return false;
      }
      shared := shared + {owner};
      reserved := Some(owner);
      pending := Some(owner);
      ok := true;
    }

    method LockExclusive(owner: nat) returns (ok: bool)
      requires Safe(View())
      modifies this
      ensures (View(), ok) == Acquiring(old(View()), Exclusive, owner) && Safe(View())
    {
      if HeldByOther(exclusive, owner) || HeldByOther(pending, owner) || HeldByOther(reserved, owner)
         || exists o :: o in shared && o != owner {
        return false;
      }
      shared := shared + {owner};
      reserved := Some(owner);
      pending := Some(owner);
      exclusive := Some(owner);
      ok := true;
    }

    method Unlock(owner: nat)
      requires Safe(View())
      modifies this
      ensures View() == Releasing(old(View()), owner) && Safe(View())
    {
      shared := shared - {owner};
      if reserved == Some(owner) {
        reserved := None;
      }
      if pending == Some(owner) {
        pending := None;
      }
      if exclusive == Some(owner) {
        exclusive := None;
      }
    }
  }
}
