/** Small shared vocabulary: bytes, keys, values and a few total helpers. */
module Types {
  newtype Byte = x: int | 0 <= x < 256

  type Key = seq<Byte>

  /** A stored value, as its encoded bytes: nothing in the store looks inside one. */
  type Value = seq<Byte>

  /** A key and a value for concrete runs. */
  const KEY: Key := [1]
  const TEXT: Value := [7]

  datatype Option<+T> = None | Some(value: T)

  /** Rust's `saturating_sub` on unsigned counters. */
  function SatSub(a: nat, b: nat): nat {
    if a <= b then 0 else a - b
  }

  function Max(a: nat, b: nat): nat {
    if a < b then b else a
  }

  function Min(a: nat, b: nat): nat {
    if a < b then a else b
  }
}
