/** Go's fixed-width integers, written out over unbounded ones, and powers of two. */
module Integers {
  const TWO_7: int := 128
  const TWO_31: int := 0x8000_0000
  const TWO_32: int := 0x1_0000_0000
  const TWO_63: int := 0x8000_0000_0000_0000
  const TWO_64: int := 0x1_0000_0000_0000_0000

  type int32 = x: int | -TWO_31 <= x < TWO_31
  type uint64 = x: int | 0 <= x < TWO_64

  /** Conversions keep the low bits. */
  function ToInt32(x: nat): int32 { var y := x % TWO_32; if y >= TWO_31 then y - TWO_32 else y }

  function ToInt64(x: nat): int { var y := x % TWO_64; if y >= TWO_63 then y - TWO_64 else y }

  /** Widening a signed integer extends its sign. */
  function SignExtend(x: int32): uint64 { if x < 0 then x + TWO_64 else x }

  lemma SignExtendInverse(x: int32)
    ensures ToInt32(SignExtend(x)) == x
  {
  }

  function Pow2(n: nat): (p: nat)
    ensures p > 0
  {
    if n == 0 then 1 else 2 * Pow2(n - 1)
  }
}
