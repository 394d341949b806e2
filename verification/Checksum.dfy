/** The checkpoint's 64-bit FNV-1a checksum: xor in a byte, multiply by an odd prime, keep 64
    bits (section 2 of draft-eastlake-fnv). */
module Checksum {
  import opened Types

  const MODULUS: nat := 0x1_0000_0000_0000_0000
  const OFFSET_BASIS: nat := 0xcbf2_9ce4_8422_2325
  const PRIME: nat := 0x0000_0100_0000_01b3

  /** The prime's inverse: PRIME * INVERSE == 1 + MODULUS * QUOTIENT. */
  const INVERSE: nat := 0xce96_5057_aff6_957b
  const QUOTIENT: nat := 887285111055

  function XorBit(a: nat, b: nat): nat {
    (a + b) % 2
  }

  /** Bitwise exclusive or, bit by bit from the low end. */
  function Xor(x: nat, y: nat): nat
    decreases x + y
  {
    if x == 0 && y == 0 then 0 else XorBit(x % 2, y % 2) + 2 * Xor(x / 2, y / 2)
  }

  function Power2(n: nat): (p: nat)
    ensures p >= 1
  {
    if n == 0 then 1 else 2 * Power2(n - 1)
  }

  lemma {:induction false} XorInRange(x: nat, y: nat, n: nat)
    requires x < Power2(n) && y < Power2(n)
    ensures Xor(x, y) < Power2(n)
  {
    if n > 0 {
      XorInRange(x / 2, y / 2, n - 1);
    }
  }

  /** Xor undoes itself. */
  lemma {:induction false} XorUndoes(x: nat, y: nat)
    ensures Xor(Xor(x, y), y) == x
    decreases x + y
  {
    if x != 0 || y != 0 {
      XorUndoes(x / 2, y / 2);
      var z := Xor(x / 2, y / 2);
      BitUndoes(x % 2, y % 2, z);
      XorStep(Xor(x, y), y);
    }
  }

  lemma XorStep(x: nat, y: nat)
    ensures Xor(x, y) == XorBit(x % 2, y % 2) + 2 * Xor(x / 2, y / 2)
  {
  }

  lemma BitUndoes(a: nat, b: nat, z: nat)
    requires a < 2 && b < 2
    ensures (XorBit(a, b) + 2 * z) / 2 == z && XorBit((XorBit(a, b) + 2 * z) % 2, b) == a
  {
  }

  lemma {:induction false} XorCommutes(x: nat, y: nat)
    ensures Xor(x, y) == Xor(y, x)
    decreases x + y
  {
    if x != 0 || y != 0 {
      XorCommutes(x / 2, y / 2);
    }
  }

  lemma WordWidth()
    ensures Power2(64) == MODULUS
  {
    assert Power2(8) == 256;
    assert Power2(16) == 65536;
    assert Power2(24) == 16777216;
    assert Power2(32) == 4294967296;
    assert Power2(40) == 1099511627776;
    assert Power2(48) == 281474976710656;
    assert Power2(56) == 72057594037927936;
  }

  function Scale(h: nat): nat {
    (h * PRIME) % MODULUS
  }

  function Fnv(bytes: seq<Byte>): nat {
    if bytes == [] then OFFSET_BASIS else Scale(Xor(Fnv(bytes[..|bytes| - 1]), bytes[|bytes| - 1] as nat))
  }

  lemma MixInRange(h: nat, b: Byte)
    requires h < MODULUS
    ensures Xor(h, b as nat) < MODULUS
  {
    WordWidth();
    XorInRange(h, b as nat, 64);
  }

  lemma MixIsInjective(h: nat, b: Byte, g: nat, c: Byte)
    requires Xor(h, b as nat) == Xor(g, c as nat)
    ensures b == c <==> h == g
  {
    XorUndoes(h, b as nat);
    XorUndoes(g, c as nat);
    XorUndoes(b as nat, h);
    XorUndoes(c as nat, g);
    XorCommutes(h, b as nat);
    XorCommutes(g, c as nat);
  }

  /** Multiplying by the prime loses nothing, because it has an inverse. */
  lemma ScaleIsInjective(x: nat, y: nat)
    requires x < MODULUS && y < MODULUS && Scale(x) == Scale(y)
    ensures x == y
  {
    var d := x - y;
    var t := x * PRIME / MODULUS - y * PRIME / MODULUS;
    assert d * PRIME == MODULUS * t;
    MultipleOfModulus(d, t);
  }

  lemma MultipleOfModulus(d: int, t: int)
    requires d * PRIME == MODULUS * t && 0 - MODULUS < d < MODULUS
    ensures d == 0
  {
    assert PRIME * INVERSE == 1 + MODULUS * QUOTIENT;
    assert d * PRIME * INVERSE == MODULUS * t * INVERSE;
    assert d * (1 + MODULUS * QUOTIENT) == MODULUS * (t * INVERSE);
    var q := t * INVERSE - d * QUOTIENT;
    assert d == MODULUS * q;
    assert -1 < q < 1;
  }

  lemma FnvInRange(bytes: seq<Byte>)
    ensures Fnv(bytes) < MODULUS
  {
  }

  /** Changing any one byte changes the checksum. */
  lemma {:induction false} OneByteChangesFnv(bytes: seq<Byte>, i: nat, b: Byte)
    requires i < |bytes| && b != bytes[i]
    ensures Fnv(bytes[i := b]) != Fnv(bytes)
  {
    var n := |bytes| - 1;
    var front, changed := bytes[..n], bytes[i := b];
    assert i == n ==> changed[..n] == front;
    FnvInRange(front);
    FnvInRange(changed[..n]);
    MixInRange(Fnv(front), bytes[n]);
    MixInRange(Fnv(changed[..n]), changed[n]);
    if Fnv(changed) == Fnv(bytes) {
      ScaleIsInjective(Xor(Fnv(front), bytes[n] as nat), Xor(Fnv(changed[..n]), changed[n] as nat));
      MixIsInjective(Fnv(front), bytes[n], Fnv(changed[..n]), changed[n]);
      if i < n {
        assert changed[..n] == front[i := b];
        OneByteChangesFnv(front, i, b);
      }
    }
  }

  method Checksum64(bytes: seq<Byte>) returns (hash: nat)
    ensures hash == Fnv(bytes) && hash < MODULUS
  {
    hash := OFFSET_BASIS;
    for i := 0 to |bytes|
      invariant hash == Fnv(bytes[..i]) && hash < MODULUS
    {
      assert bytes[..i + 1][..i] == bytes[..i];
      hash := Xor(hash, bytes[i] as nat);
      hash := (hash * PRIME) % MODULUS;
    }
    assert bytes[..|bytes|] == bytes;
  }
}
