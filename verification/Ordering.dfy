/** The byte-wise order of keys, as every sorted map and sort in the store uses it. */
module Ordering {
  import opened Types

  predicate KeyBelow(a: Key, b: Key) {
    b != [] && (a == [] || a[0] < b[0] || (a[0] == b[0] && KeyBelow(a[1..], b[1..])))
  }

  lemma {:induction false} KeysAreComparable(a: Key, b: Key)
    requires a != b
    ensures KeyBelow(a, b) || KeyBelow(b, a)
  {
    if a != [] && b != [] && a[0] == b[0] {
      assert a == [a[0]] + a[1..] && b == [b[0]] + b[1..];
      KeysAreComparable(a[1..], b[1..]);
    }
  }

  lemma {:induction false} KeyOrderIsTransitive(a: Key, b: Key, c: Key)
    requires KeyBelow(a, b) && KeyBelow(b, c)
    ensures KeyBelow(a, c)
  {
    if a != [] && a[0] == b[0] == c[0] {
      KeyOrderIsTransitive(a[1..], b[1..], c[1..]);
    }
  }

  lemma {:induction false} KeyOrderIsIrreflexive(a: Key)
    ensures !KeyBelow(a, a)
  {
    if a != [] {
      KeyOrderIsIrreflexive(a[1..]);
    }
  }
}
