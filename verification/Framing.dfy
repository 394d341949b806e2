/** Streams of self-delimiting items, for any writer and reader of one item. */
module Framing {
  import opened Types
  import opened Bytes

  function Join<T>(write: T -> seq<Byte>, xs: seq<T>): seq<Byte> {
    if xs == [] then [] else write(xs[0]) + Join(write, xs[1..])
  }

  /** A reader that succeeds has consumed something. */
  ghost predicate Shrinks<T(!new)>(read: seq<Byte> -> Parsed<T>) {
    forall bs :: read(bs).Got? ==> |read(bs).rest| < |bs|
  }

  /** Items from the front, up to the first that cannot be read. */
  ghost function ReadAll<T(!new)>(read: seq<Byte> -> Parsed<T>, bs: seq<Byte>): seq<T>
    requires Shrinks(read)
    decreases |bs|
  {
    match read(bs)
    case Fail => []
    case Got(x, rest) => [x] + ReadAll(read, rest)
  }

  /** Reading one written item, whatever follows: back if it is acceptable, refused if not. */
  ghost predicate ReadsBack<T>(write: T -> seq<Byte>, read: seq<Byte> -> Parsed<T>, ok: T -> bool, x: T) {
    forall rest :: read(write(x) + rest) == if ok(x) then Got(x, rest) else Fail
  }

  /** No proper prefix of a written item reads as an item. */
  ghost predicate RefusesTorn<T>(write: T -> seq<Byte>, read: seq<Byte> -> Parsed<T>, x: T) {
    forall n | 0 <= n < |write(x)| :: read(write(x)[..n]).Fail?
  }

  /** How many items from the front are acceptable and whole within the first `n` bytes. */
  function Surviving<T>(write: T -> seq<Byte>, ok: T -> bool, xs: seq<T>, n: nat): (k: nat)
    ensures k <= |xs|
  {
    if xs == [] || n < |write(xs[0])| || !ok(xs[0]) then 0
    else 1 + Surviving(write, ok, xs[1..], n - |write(xs[0])|)
  }

  lemma {:induction false} CutStream<T(!new)>(
      write: T -> seq<Byte>, read: seq<Byte> -> Parsed<T>, ok: T -> bool, xs: seq<T>, n: nat)
    requires Shrinks(read) && n <= |Join(write, xs)|
    requires forall x :: x in xs ==> ReadsBack(write, read, ok, x) && RefusesTorn(write, read, x)
    ensures ReadAll(read, Join(write, xs)[..n]) == xs[..Surviving(write, ok, xs, n)]
  {
    if xs == [] {
      assert Join(write, xs)[..n] == [];
      ReadsNothing(read);
    } else {
      var x, f, tail := xs[0], write(xs[0]), Join(write, xs[1..]);
      if n < |f| {
        assert Join(write, xs)[..n] == f[..n];
        assert RefusesTorn(write, read, x);
        assert read(write(x)[..n]).Fail?;
      } else {
        assert Join(write, xs)[..n] == f + tail[..n - |f|];
        assert ReadsBack(write, read, ok, x);
        if ok(x) {
          CutStream(write, read, ok, xs[1..], n - |f|);
        }
      }
    }
  }

  /** A cut at or after the end of acceptable first items keeps them all. */
  lemma {:induction false} PrefixSurvives<T>(write: T -> seq<Byte>, ok: T -> bool, xs: seq<T>, m: nat, n: nat)
    requires m <= |xs| && |Join(write, xs[..m])| <= n && forall x :: x in xs[..m] ==> ok(x)
    ensures m <= Surviving(write, ok, xs, n)
    decreases m
  {
    if m > 0 {
      assert xs[..m][0] == xs[0] && xs[..m][1..] == xs[1..][..m - 1];
      assert xs[0] in xs[..m];
      forall x | x in xs[1..][..m - 1] ensures ok(x) {
        assert x in xs[..m];
      }
      PrefixSurvives(write, ok, xs[1..], m - 1, n - |write(xs[0])|);
    }
  }

  lemma ReadsNothing<T(!new)>(read: seq<Byte> -> Parsed<T>)
    requires Shrinks(read)
    ensures ReadAll(read, []) == []
  {
    assert read([]).Fail?;
  }

  /** A stream of acceptable items is transparent to whatever follows it. */
  lemma {:induction false} StreamContinues<T(!new)>(
      write: T -> seq<Byte>, read: seq<Byte> -> Parsed<T>, ok: T -> bool, xs: seq<T>, tail: seq<Byte>)
    requires Shrinks(read) && forall x :: x in xs ==> ReadsBack(write, read, ok, x) && ok(x)
    ensures ReadAll(read, Join(write, xs) + tail) == xs + ReadAll(read, tail)
  {
    if xs == [] {
      assert Join(write, xs) + tail == tail;
    } else {
      var f, rest := write(xs[0]), Join(write, xs[1..]);
      assert Join(write, xs) + tail == f + (rest + tail);
      assert ReadsBack(write, read, ok, xs[0]);
      StreamContinues(write, read, ok, xs[1..], tail);
      assert xs == [xs[0]] + xs[1..];
    }
  }

  // ----- Counted lists -----

  /** Exactly `count` items from the front. */
  function ReadCount<T>(read: seq<Byte> -> Parsed<T>, bs: seq<Byte>, count: nat): Parsed<seq<T>>
    decreases count
  {
    if count == 0 then Got([], bs)
    else
      match read(bs)
      case Fail => Fail
      case Got(x, rest) =>
        match ReadCount(read, rest, count - 1)
        case Fail => Fail
        case Got(xs, tail) => Got([x] + xs, tail)
  }

  lemma {:induction false} CountedReadsBack<T>(
      write: T -> seq<Byte>, read: seq<Byte> -> Parsed<T>, ok: T -> bool, xs: seq<T>, tail: seq<Byte>)
    requires forall x :: x in xs ==> ReadsBack(write, read, ok, x) && ok(x)
    ensures ReadCount(read, Join(write, xs) + tail, |xs|) == Got(xs, tail)
  {
    if xs == [] {
      assert Join(write, xs) + tail == tail;
    } else {
      var f, rest := write(xs[0]), Join(write, xs[1..]);
      assert Join(write, xs) + tail == f + (rest + tail);
      assert ReadsBack(write, read, ok, xs[0]);
      CountedReadsBack(write, read, ok, xs[1..], tail);
      assert xs == [xs[0]] + xs[1..];
    }
  }

  lemma {:induction false} CountedRefused<T(!new)>(
      write: T -> seq<Byte>, read: seq<Byte> -> Parsed<T>, ok: T -> bool, xs: seq<T>, tail: seq<Byte>)
    requires (forall x :: x in xs ==> ReadsBack(write, read, ok, x)) && (exists x :: x in xs && !ok(x))
    ensures ReadCount(read, Join(write, xs) + tail, |xs|).Fail?
  {
    var f, rest := write(xs[0]), Join(write, xs[1..]);
    assert Join(write, xs) + tail == f + (rest + tail);
    assert ReadsBack(write, read, ok, xs[0]);
    if ok(xs[0]) {
      var x :| x in xs && !ok(x);
      assert x in xs[1..];
      CountedRefused(write, read, ok, xs[1..], tail);
    }
  }

  // ----- The loops -----

  function Joined<T>(xs: seq<T>, more: Parsed<seq<T>>): Parsed<seq<T>> {
    match more
    case Fail => Fail
    case Got(ys, rest) => Got(xs + ys, rest)
  }

  lemma CountStep<T>(read: seq<Byte> -> Parsed<T>, bs: seq<Byte>, count: nat, xs: seq<T>)
    requires count > 0 && read(bs).Got?
    ensures Joined(xs, ReadCount(read, bs, count))
         == Joined(xs + [read(bs).value], ReadCount(read, read(bs).rest, count - 1))
  {
    var more := ReadCount(read, read(bs).rest, count - 1);
    if more.Got? {
      assert xs + ([read(bs).value] + more.value) == xs + [read(bs).value] + more.value;
    }
  }

  lemma JoinedNothing<T>(more: Parsed<seq<T>>)
    ensures Joined([], more) == more
  {
    if more.Got? {
      assert [] + more.value == more.value;
    }
  }

  method ReadItems<T>(read: seq<Byte> -> Parsed<T>, bs: seq<Byte>, n: nat) returns (out: Parsed<seq<T>>)
    ensures out == ReadCount(read, bs, n)
  {
    var items: seq<T> := [];
    var left, count := bs, n;
    JoinedNothing(ReadCount(read, bs, n));
    while count > 0
      invariant Joined(items, ReadCount(read, left, count)) == ReadCount(read, bs, n)
    {
      var next := read(left);
      if next.Fail? {
        return Fail;
      }
      CountStep(read, left, count, items);
      items := items + [next.value];
      left, count := next.rest, count - 1;
    }
    assert items + [] == items;
    return Got(items, left);
  }

  method WriteItems<T>(write: T -> seq<Byte>, xs: seq<T>) returns (out: seq<Byte>)
    ensures out == Join(write, xs)
  {
    out := [];
    for i := 0 to |xs|
      invariant out + Join(write, xs[i..]) == Join(write, xs)
    {
      assert xs[i..][0] == xs[i] && xs[i..][1..] == xs[i + 1..];
      assert out + (write(xs[i]) + Join(write, xs[i + 1..])) == out + write(xs[i]) + Join(write, xs[i + 1..]);
      out := out + write(xs[i]);
    }
    assert xs[|xs|..] == [];
  }
}
