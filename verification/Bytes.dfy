/** Little-endian integers of a fixed width. */
module Bytes {
  import opened Types

  function Power256(w: nat): (p: nat)
    ensures p >= 1
  {
    if w == 0 then 1 else 256 * Power256(w - 1)
  }

  function LittleEndian(n: nat, w: nat): (bs: seq<Byte>)
    ensures |bs| == w
  {
    if w == 0 then [] else [(n % 256) as Byte] + LittleEndian(n / 256, w - 1)
  }

  function FromLittle(bs: seq<Byte>): nat {
    if bs == [] then 0 else bs[0] as nat + 256 * FromLittle(bs[1..])
  }

  lemma {:induction false} DecodeEncode(n: nat, w: nat)
    requires n < Power256(w)
    ensures FromLittle(LittleEndian(n, w)) == n
  {
    if w > 0 {
      DecodeEncode(n / 256, w - 1);
      assert LittleEndian(n, w)[1..] == LittleEndian(n / 256, w - 1);
    }
  }

  lemma {:induction false} EncodeDecode(bs: seq<Byte>)
    ensures LittleEndian(FromLittle(bs), |bs|) == bs && FromLittle(bs) < Power256(|bs|)
  {
    if bs != [] {
      EncodeDecode(bs[1..]);
      var n := FromLittle(bs[1..]);
      assert (bs[0] as nat + 256 * n) / 256 == n && (bs[0] as nat + 256 * n) % 256 == bs[0] as nat;
      assert bs == [bs[0]] + bs[1..];
    }
  }

  /** Different bytes of the same width are different numbers. */
  lemma DecodingIsInjective(a: seq<Byte>, b: seq<Byte>)
    requires |a| == |b| && a != b
    ensures FromLittle(a) != FromLittle(b)
  {
    EncodeDecode(a);
    EncodeDecode(b);
  }

  lemma Widths()
    ensures Power256(4) == 0x1_0000_0000 && Power256(8) == 0x1_0000_0000_0000_0000
  {
    assert Power256(1) == 256 && Power256(2) == 65536 && Power256(3) == 16777216;
    assert Power256(4) == 0x1_0000_0000;
    assert Power256(5) == 0x100_0000_0000 && Power256(6) == 0x1_0000_0000_0000;
    assert Power256(7) == 0x100_0000_0000_0000;
  }

  // ----- Reading from the front of a byte sequence -----

  datatype Parsed<+T> = Fail | Got(value: T, rest: seq<Byte>)

  type Word32 = n: nat | n < 0x1_0000_0000

  predicate Fits32(n: nat) {
    n < 0x1_0000_0000
  }

  predicate Fits64(n: nat) {
    n < 0x1_0000_0000_0000_0000
  }

  function ReadWord(bs: seq<Byte>, w: nat): Parsed<nat> {
    if |bs| < w then Fail else Got(FromLittle(bs[..w]), bs[w..])
  }

  function ReadBytes(bs: seq<Byte>, n: nat): Parsed<seq<Byte>> {
    if |bs| < n then Fail else Got(bs[..n], bs[n..])
  }

  lemma ReadsWord32(n: nat, rest: seq<Byte>)
    requires Fits32(n)
    ensures ReadWord(LittleEndian(n, 4) + rest, 4) == Got(n, rest)
  {
    Widths();
    DecodeEncode(n, 4);
    Splits(LittleEndian(n, 4), rest);
  }

  lemma ReadsWord64(n: nat, rest: seq<Byte>)
    requires Fits64(n)
    ensures ReadWord(LittleEndian(n, 8) + rest, 8) == Got(n, rest)
  {
    Widths();
    DecodeEncode(n, 8);
    Splits(LittleEndian(n, 8), rest);
  }

  lemma Splits(a: seq<Byte>, rest: seq<Byte>)
    ensures (a + rest)[..|a|] == a && (a + rest)[|a|..] == rest
  {
  }
}
