/** The two-index sorted set against the boxed store's rebuild-and-sort sorted set.

    A score is an element of a total order (as the source's total comparison gives); whether it
    is finite is checked before it gets here. */
module SortedSet {
  import opened Types
  import opened Ordering

  type Score = int

  datatype Scored = Scored(score: Score, member: Key)

  predicate Below(a: Scored, b: Scored) {
    a.score < b.score || (a.score == b.score && KeyBelow(a.member, b.member))
  }

  lemma BelowIsTransitive(a: Scored, b: Scored, c: Scored)
    requires Below(a, b) && Below(b, c)
    ensures Below(a, c)
  {
    if a.score == b.score == c.score {
      KeyOrderIsTransitive(a.member, b.member, c.member);
    }
  }

  lemma BelowIsTotal(a: Scored, b: Scored)
    ensures a == b || Below(a, b) || Below(b, a)
    ensures !Below(a, a)
  {
    KeyOrderIsIrreflexive(a.member);
    if a.score == b.score && a.member != b.member {
      KeysAreComparable(a.member, b.member);
    }
  }

  ghost predicate Sorted(xs: seq<Scored>) {
    forall i, j :: 0 <= i < j < |xs| ==> Below(xs[i], xs[j])
  }

  /** `xs` lists exactly the pairs of `m`, in strict order. */
  ghost predicate Lists(xs: seq<Scored>, m: map<Key, Score>) {
    Sorted(xs) && forall x :: x in xs <==> x.member in m && m[x.member] == x.score
  }

  /** There is only one sorted listing of a map. */
  lemma {:induction false} ListingIsUnique(xs: seq<Scored>, ys: seq<Scored>)
    requires Sorted(xs) && Sorted(ys) && forall x :: x in xs <==> x in ys
    ensures xs == ys
  {
    if xs != [] && ys != [] {
      var x, y := xs[0], ys[0];
      assert x in ys && y in xs;
      BelowIsTotal(x, y);
      BelowIsTotal(y, x);
      FirstIsLeast(xs, y);
      FirstIsLeast(ys, x);
      if Below(x, y) && Below(y, x) {
        BelowIsTransitive(x, y, x);
      }
      assert x == y;
      forall z ensures z in xs[1..] <==> z in ys[1..] {
        TailMembers(xs, z);
        TailMembers(ys, z);
      }
      ListingIsUnique(xs[1..], ys[1..]);
      assert xs == [x] + xs[1..] && ys == [y] + ys[1..];
    } else {
      NonemptyHasMember(xs);
      NonemptyHasMember(ys);
    }
  }

  lemma NonemptyHasMember(xs: seq<Scored>)
    ensures xs != [] ==> exists x :: x in xs
  {
    if xs != [] {
      assert xs[0] in xs;
    }
  }

  lemma FirstIsLeast(xs: seq<Scored>, y: Scored)
    requires Sorted(xs) && y in xs
    ensures xs[0] == y || Below(xs[0], y)
  {
  }

  lemma TailMembers(xs: seq<Scored>, z: Scored)
    requires Sorted(xs) && xs != []
    ensures z in xs[1..] <==> z in xs && z != xs[0]
  {
    BelowIsTotal(xs[0], xs[0]);
    assert xs == [xs[0]] + xs[1..];
    assert forall y :: y in xs[1..] ==> Below(xs[0], y);
  }

  // ----- Ordered-set primitives -----

  function Insert(x: Scored, xs: seq<Scored>): seq<Scored> {
    if xs == [] then [x]
    else if xs[0] == x then xs
    else if Below(x, xs[0]) then [x] + xs
    else [xs[0]] + Insert(x, xs[1..])
  }

  function Remove(x: Scored, xs: seq<Scored>): seq<Scored> {
    if xs == [] then []
    else if xs[0] == x then xs[1..]
    else [xs[0]] + Remove(x, xs[1..])
  }

  lemma {:induction false} InsertInserts(x: Scored, xs: seq<Scored>)
    requires Sorted(xs)
    ensures Sorted(Insert(x, xs)) && forall y :: y in Insert(x, xs) <==> y in xs || y == x
  {
    if xs != [] {
      var rest := xs[1..];
      assert xs == [xs[0]] + rest;
      BelowIsTotal(x, xs[0]);
      if Below(x, xs[0]) && xs[0] != x {
        forall y | y in xs ensures Below(x, y) {
          if y != xs[0] {
            BelowIsTransitive(x, xs[0], y);
          }
        }
      } else if xs[0] != x {
        InsertInserts(x, rest);
        assert forall y :: y in Insert(x, rest) ==> Below(xs[0], y);
      }
    }
  }

  lemma {:induction false} RemoveRemoves(x: Scored, xs: seq<Scored>)
    requires Sorted(xs)
    ensures Sorted(Remove(x, xs)) && forall y :: y in Remove(x, xs) <==> y in xs && y != x
  {
    if xs != [] {
      var rest := xs[1..];
      assert xs == [xs[0]] + rest;
      forall y ensures y in rest <==> y in xs && y != xs[0] {
        TailMembers(xs, y);
      }
      if xs[0] != x {
        RemoveRemoves(x, rest);
        assert forall y :: y in Remove(x, rest) ==> Below(xs[0], y);
      }
    }
  }

  // ----- Range bounds -----

  function Resolve(len: nat, index: int): int {
    if index < 0 then len + index else index
  }

  /** `inclusive_range_bounds`. */
  function RangeBounds(len: nat, start: int, stop: int): Option<(nat, nat)> {
    if len == 0 then None
    else
      var a := if Resolve(len, start) < 0 then 0 else Resolve(len, start);
      var b := Resolve(len, stop);
      if b < 0 || a >= len then None
      else
        var c := if b >= len then len - 1 else b;
        if a > c then None else Some((a, c))
  }

  /** For all signed bounds, a position is in the range exactly when it lies between the two
      resolved indices; so there is no range exactly when no position does. */
  lemma RangeBoundsCover(len: nat, start: int, stop: int, i: nat)
    requires i < len
    ensures var r := RangeBounds(len, start, stop);
      && (r.Some? ==> r.value.0 <= r.value.1 < len)
      && (Resolve(len, start) <= i <= Resolve(len, stop) <==> r.Some? && r.value.0 <= i <= r.value.1)
  {
  }

  function RangeOf(xs: seq<Scored>, start: int, stop: int): seq<Scored> {
    match RangeBounds(|xs|, start, stop)
    case None => []
    case Some((a, b)) => xs[a..b + 1]
  }

  // ----- The boxed store: rebuild and sort -----

  /** The member map a boxed sorted set is rebuilt from. */
  function MapOf(xs: seq<Scored>): map<Key, Score> {
    if xs == [] then map[] else MapOf(xs[..|xs| - 1])[xs[|xs| - 1].member := xs[|xs| - 1].score]
  }

  lemma {:induction false} MapOfMembers(xs: seq<Scored>)
    ensures forall k :: k in MapOf(xs) <==> exists x :: x in xs && x.member == k
    ensures forall k :: k in MapOf(xs) ==> Scored(MapOf(xs)[k], k) in xs
  {
    if xs != [] {
      var front := xs[..|xs| - 1];
      assert xs == front + [xs[|xs| - 1]];
      MapOfMembers(front);
    }
  }

  /** Rebuilding the map of a listing gives back the map it lists. */
  lemma MapOfListing(xs: seq<Scored>, m: map<Key, Score>)
    requires Lists(xs, m)
    ensures MapOf(xs) == m
  {
    MapOfMembers(xs);
    forall k | k in m ensures k in MapOf(xs) && MapOf(xs)[k] == m[k] {
      assert Scored(m[k], k) in xs;
      assert Scored(m[k], k).member == k;
    }
  }

  /** Collects a map's pairs and sorts them. */
  method SortAll(m: map<Key, Score>) returns (xs: seq<Scored>)
    ensures Lists(xs, m)
  {
    xs := [];
    var left := m.Keys;
    while left != {}
      invariant left <= m.Keys && Sorted(xs)
      invariant forall x :: x in xs <==> x.member in m && x.member !in left && m[x.member] == x.score
      decreases left
    {
      var k :| k in left;
      left := left - {k};
      InsertInserts(Scored(m[k], k), xs);
      xs := Insert(Scored(m[k], k), xs);
    }
  }

  /** Boxed `zadd_many`: rebuild the map, insert every pair, sort everything. */
  method BoxedAddMany(entries: seq<Scored>, added: seq<Scored>) returns (xs: seq<Scored>)
    ensures Lists(xs, MapOf(entries + added))
  {
    var m := MapOf(entries);
    assert entries + added[..0] == entries;
    for i := 0 to |added|
      invariant m == MapOf(entries + added[..i])
    {
      assert (entries + added[..i + 1])[..|entries| + i] == entries + added[..i];
      m := m[added[i].member := added[i].score];
    }
    assert added[..|added|] == added;
    xs := SortAll(m);
  }

  /** Boxed `zrem`: keep every entry but the member's. */
  method BoxedRemove(entries: seq<Scored>, member: Key) returns (xs: seq<Scored>, removed: bool)
    requires Sorted(entries)
    ensures Sorted(xs) && (forall x :: x in xs <==> x in entries && x.member != member)
    ensures removed <==> exists x :: x in entries && x.member == member
  {
    xs, removed := [], false;
    for i := 0 to |entries|
      invariant Sorted(xs) && (forall x :: x in xs <==> x in entries[..i] && x.member != member)
      invariant removed <==> exists x :: x in entries[..i] && x.member == member
    {
      assert entries[..i + 1] == entries[..i] + [entries[i]];
      if entries[i].member != member {
        assert forall x :: x in entries[..i] ==> Below(x, entries[i]);
        xs := xs + [entries[i]];
      } else {
        removed := true;
      }
    }
    assert entries[..|entries|] == entries;
  }

  /** Boxed `zscore`: the first entry of the member. */
  method BoxedScore(entries: seq<Scored>, member: Key) returns (s: Option<Score>)
    ensures s.Some? ==> Scored(s.value, member) in entries
    ensures s.None? ==> forall x :: x in entries ==> x.member != member
  {
    for i := 0 to |entries|
      invariant forall j :: 0 <= j < i ==> entries[j].member != member
    {
      if entries[i].member == member {
        return Some(entries[i].score);
      }
    }
    return None;
  }

  // ----- The two-index set -----

  class MutableSortedSet {
    var byMember: map<Key, Score>
    var byScore: seq<Scored>

    /** The score index is exactly the graph of the member index, in order. */
    ghost predicate Valid()
      reads this
    {
      Lists(byScore, byMember)
    }

    constructor (entries: seq<Scored>)
      ensures Valid() && byMember == MapOf(entries)
    {
      byMember := MapOf(entries);
      byScore := [];
      new;
      byScore := SortAll(byMember);
    }

    method Add(member: Key, score: Score)
      requires Valid()
      modifies this
      ensures Valid() && byMember == old(byMember)[member := score]
    {
      if member in byMember {
        RemoveRemoves(Scored(byMember[member], member), byScore);
        byScore := Remove(Scored(byMember[member], member), byScore);
      }
      byMember := byMember[member := score];
      InsertInserts(Scored(score, member), byScore);
      byScore := Insert(Scored(score, member), byScore);
    }

    method Drop(member: Key) returns (removed: bool)
      requires Valid()
      modifies this
      ensures Valid() && removed == (member in old(byMember)) && byMember == old(byMember) - {member}
    {
      removed := member in byMember;
      if removed {
        RemoveRemoves(Scored(byMember[member], member), byScore);
        byScore := Remove(Scored(byMember[member], member), byScore);
        byMember := byMember - {member};
      }
    }

    method AddMany(entries: seq<Scored>)
      requires Valid()
      modifies this
      ensures Valid() && byMember == MapOf(old(byScore) + entries)
    {
      MapOfListing(byScore, byMember);
      ghost var start := byScore;
      assert start + entries[..0] == start;
      for i := 0 to |entries|
        invariant Valid() && byMember == MapOf(start + entries[..i])
      {
        assert (start + entries[..i + 1])[..|start| + i] == start + entries[..i];
        Add(entries[i].member, entries[i].score);
      }
      assert entries[..|entries|] == entries;
    }

    method Len() returns (n: nat)
      requires Valid()
      ensures n == |byScore| == |byMember|
    {
      n := |byMember|;
      ListingLength(byScore, byMember);
    }

    method Range(start: int, stop: int) returns (xs: seq<Key>)
      requires Valid()
      ensures |xs| == |RangeOf(byScore, start, stop)|
      ensures forall i :: 0 <= i < |xs| ==> xs[i] == RangeOf(byScore, start, stop)[i].member
    {
      xs := [];
      var picked := RangeOf(byScore, start, stop);
      for i := 0 to |picked|
        invariant |xs| == i && forall j :: 0 <= j < i ==> xs[j] == picked[j].member
      {
        xs := xs + [picked[i].member];
      }
    }
  }

  lemma PairIsListed(xs: seq<Scored>, m: map<Key, Score>, k: Key)
    requires Lists(xs, m) && k in m
    ensures Scored(m[k], k) in xs
  {
  }

  lemma {:induction false} ListingLength(xs: seq<Scored>, m: map<Key, Score>)
    requires Lists(xs, m)
    ensures |xs| == |m|
  {
    if xs == [] {
      if m.Keys != {} {
        var k :| k in m.Keys;
        PairIsListed(xs, m, k);
        assert false;
      }
    } else {
      var x, rest, n := xs[0], xs[1..], m - {xs[0].member};
      assert x in xs;
      forall y ensures y in rest <==> y.member in n && n[y.member] == y.score {
        TailMembers(xs, y);
      }
      ListingLength(rest, n);
      assert m.Keys == n.Keys + {x.member};
    }
  }

  // ----- The refinement -----

  /** After the same additions the two sets hold the same entries in the same order, so every
      score, length and range agrees. */
  lemma AddManyRefines(mutableEntries: seq<Scored>, boxedEntries: seq<Scored>, before: seq<Scored>, added: seq<Scored>)
    requires Lists(mutableEntries, MapOf(before + added)) && Lists(boxedEntries, MapOf(before + added))
    ensures mutableEntries == boxedEntries
  {
    ListingIsUnique(mutableEntries, boxedEntries);
  }

  /** After the same removal, too; and both report the same answer. */
  lemma RemoveRefines(before: seq<Scored>, m: map<Key, Score>, member: Key, mutableEntries: seq<Scored>, boxedEntries: seq<Scored>)
    requires Lists(before, m) && Lists(mutableEntries, m - {member})
    requires Sorted(boxedEntries) && forall x :: x in boxedEntries <==> x in before && x.member != member
    ensures mutableEntries == boxedEntries
    ensures member in m <==> exists x :: x in before && x.member == member
  {
    ListingIsUnique(mutableEntries, boxedEntries);
    if member in m {
      assert Scored(m[member], member) in before;
      assert Scored(m[member], member).member == member;
    }
  }

  /** Members are unique in a listing, so the boxed linear search finds the indexed score. */
  lemma ScoreRefines(entries: seq<Scored>, m: map<Key, Score>, member: Key, s: Option<Score>)
    requires Lists(entries, m)
    requires s.Some? ==> Scored(s.value, member) in entries
    requires s.None? ==> forall x :: x in entries ==> x.member != member
    ensures s == if member in m then Some(m[member]) else None
  {
    if member in m {
      assert Scored(m[member], member) in entries;
    }
  }

  // ----- Whole histories -----

  datatype SetOp = AddOp(entries: seq<Scored>) | RemoveOp(member: Key)

  /** The plain map that a history of additions and removals describes. */
  function Replayed(ops: seq<SetOp>): map<Key, Score> {
    if ops == [] then map[]
    else
      var m := Replayed(ops[..|ops| - 1]);
      match ops[|ops| - 1]
      case AddOp(entries) => m + MapOf(entries)
      case RemoveOp(member) => m - {member}
  }

  lemma {:induction false} MapOfConcat(a: seq<Scored>, b: seq<Scored>)
    ensures MapOf(a + b) == MapOf(a) + MapOf(b)
    decreases |b|
  {
    if b == [] {
      assert a + b == a;
    } else {
      assert (a + b)[..|a + b| - 1] == a + b[..|b| - 1];
      MapOfConcat(a, b[..|b| - 1]);
    }
  }

  /** Runs a history on the two-index set and on the boxed set: they agree entry for entry. */
  method RunBoth(ops: seq<SetOp>) returns (indexed: MutableSortedSet, boxed: seq<Scored>)
    ensures fresh(indexed) && indexed.Valid() && indexed.byMember == Replayed(ops)
    ensures indexed.byScore == boxed && Lists(boxed, Replayed(ops))
  {
    indexed := new MutableSortedSet([]);
    boxed := [];
    assert ops[..0] == [];
    ListingLength(indexed.byScore, map[]);
    for i := 0 to |ops|
      invariant fresh(indexed) && indexed.Valid() && indexed.byMember == Replayed(ops[..i])
      invariant indexed.byScore == boxed
    {
      assert ops[..i + 1][..i] == ops[..i];
      ghost var before := boxed;
      match ops[i]
      case AddOp(entries) =>
        MapOfListing(boxed, indexed.byMember);
        MapOfConcat(boxed, entries);
        boxed := BoxedAddMany(boxed, entries);
        indexed.AddMany(entries);
        AddManyRefines(indexed.byScore, boxed, before, entries);
      case RemoveOp(member) =>
        ghost var m := indexed.byMember;
        var found;
        boxed, found := BoxedRemove(boxed, member);
        var dropped := indexed.Drop(member);
        RemoveRefines(before, m, member, indexed.byScore, boxed);
        assert found == dropped;
    }
    assert ops[..|ops|] == ops;
  }
}
