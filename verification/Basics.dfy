/** What several components share. */
module Basics {

  datatype Option<+T> = None | Some(value: T)

  type Byte = b: int | 0 <= b < 256
  type Bytes = seq<Byte>

  const U64_MAX: nat := 0xFFFF_FFFF_FFFF_FFFF

  function Min(a: nat, b: nat): nat { if a <= b then a else b }
  function Max(a: nat, b: nat): nat { if a <= b then b else a }

  /** 64-bit saturating addition. */
  function SaturatingAdd(a: nat, b: nat): (r: nat)
    ensures r <= 0xFFFF_FFFF_FFFF_FFFF && r <= a + b && (r == a + b || r == 0xFFFF_FFFF_FFFF_FFFF)
  {
    if a + b > U64_MAX then U64_MAX else a + b
  }
}
