/**
 Base 128 varints as pb/dht.pb.go writes and reads them.
 `|=` on bits not yet set is addition; a shift beyond the width drops bits, which is reduction modulo the width.
 */
module Varint {
  import opened Integers

  newtype byte = x: int | 0 <= x < 256
  type Bytes = seq<byte>

  datatype Error =
    | IntOverflow
    | UnexpectedEOF
    | InvalidLength
    | EndGroup
    | IllegalTag
    | WrongWireType
    | IllegalWireType
    | UnexpectedEndOfGroup
    | BadRecord

  datatype Result<T> = Ok(value: T) | Err(error: Error)

  // ----- writing -----

  function EncodeVarint(v: nat): (r: Bytes)
    ensures |r| > 0
    decreases v
  {
    if v < TWO_7 then [v as byte] else [(v % TWO_7 + TWO_7) as byte] + EncodeVarint(v / TWO_7)
  }

  /** math/bits.Len64. */
  function BitLen(v: nat): nat
    decreases v
  {
    if v == 0 then 0 else 1 + BitLen(v / 2)
  }

  /** sovDht: the size of a varint from the bit length of x|1. */
  function Sov(x: nat): nat { (BitLen(if x % 2 == 0 then x + 1 else x) + 6) / 7 }

  lemma BitLenOfSeven(v: nat)
    requires v >= TWO_7
    ensures BitLen(v) == 7 + BitLen(v / TWO_7)
  {
    var a, b := v / 2, v / 4;
    var c, d := v / 8, v / 16;
    var e, f := v / 32, v / 64;
    assert b == a / 2 && c == b / 2 && d == c / 2 && e == d / 2 && f == e / 2 && v / 128 == f / 2;
    assert BitLen(v) == 1 + BitLen(a);
    assert BitLen(a) == 1 + BitLen(b);
    assert BitLen(b) == 1 + BitLen(c);
    assert BitLen(c) == 1 + BitLen(d);
    assert BitLen(d) == 1 + BitLen(e);
    assert BitLen(e) == 1 + BitLen(f);
    assert BitLen(f) == 1 + BitLen(f / 2);
  }

  lemma BitLenSmall(v: nat)
    requires 0 < v < TWO_7
    ensures 1 <= BitLen(v) <= 7
  {
    assert v / 2 < 64 && v / 4 < 32 && v / 8 < 16 && v / 16 < 8 && v / 32 < 4 && v / 64 < 2 && v / 128 == 0;
    assert BitLen(v / 64) <= 1;
    assert BitLen(v / 32) <= 2;
    assert BitLen(v / 16) <= 3;
    assert BitLen(v / 8) <= 4;
    assert BitLen(v / 4) <= 5;
    assert BitLen(v / 2) <= 6;
  }

  lemma BitLenIgnoresLowBit(v: nat)
    requires v >= 1
    ensures BitLen(if v % 2 == 0 then v + 1 else v) == BitLen(v)
  {
    assert (v + 1) / 2 == v / 2 || v % 2 == 1;
  }

  /** Seven bits more are one byte more. */
  lemma SovOfSeven(v: nat)
    requires v >= TWO_7
    ensures Sov(v) == 1 + Sov(v / TWO_7)
  {
    BitLenIgnoresLowBit(v);
    BitLenIgnoresLowBit(v / TWO_7);
    BitLenOfSeven(v);
  }

  lemma SovSmall(v: nat)
    requires v < TWO_7
    ensures Sov(v) == 1
  {
    BitLenSmall(if v % 2 == 0 then v + 1 else v);
  }

  /** The computed size is the number of bytes written. */
  lemma {:induction false} SovIsLength(v: nat)
    ensures Sov(v) == |EncodeVarint(v)|
    decreases v
  {
    if v < TWO_7 {
      SovSmall(v);
    } else {
      SovOfSeven(v);
      SovIsLength(v / TWO_7);
    }
  }

  // ----- reading -----

  /** How many bytes a varint took, and the number they spell, before any reduction. */
  datatype Varint = Varint(n: nat, raw: nat)

  /** The read loop after k bytes, at shift 7k; it gives up at shift 64. */
  function VarintAt(t: Bytes, k: nat): (r: Result<Varint>)
    ensures r.Ok? ==> 0 < r.value.n <= |t|
    decreases |t|
  {
    if 7 * k >= 64 then Err(IntOverflow)
    else if t == [] then Err(UnexpectedEOF)
    else if t[0] < 128 then Ok(Varint(1, t[0] as nat))
    else
      match VarintAt(t[1..], k + 1)
      case Err(e) => Err(e)
      case Ok(v) => Ok(Varint(v.n + 1, (t[0] - 128) as nat + TWO_7 * v.raw))
  }

  lemma Pow2Seven(n: nat)
    ensures Pow2(n + 7) == TWO_7 * Pow2(n)
  {
    assert Pow2(n + 7) == 2 * Pow2(n + 6) == 4 * Pow2(n + 5) == 8 * Pow2(n + 4);
    assert Pow2(n + 4) == 2 * Pow2(n + 3) == 4 * Pow2(n + 2) == 8 * Pow2(n + 1);
  }

  /** What was written is read back, whatever follows it. */
  lemma {:induction false} VarintRoundTripAt(v: nat, k: nat, rest: Bytes)
    requires 7 * k < 64 && v < Pow2(64 - 7 * k)
    ensures VarintAt(EncodeVarint(v) + rest, k) == Ok(Varint(|EncodeVarint(v)|, v))
    decreases v
  {
    var t := EncodeVarint(v) + rest;
    if v >= TWO_7 {
      NeedsMoreThanSeven(v, 64 - 7 * k);
      Pow2Seven(64 - 7 * (k + 1));
      VarintRoundTripAt(v / TWO_7, k + 1, rest);
      assert t[1..] == EncodeVarint(v / TWO_7) + rest;
    }
  }

  lemma {:induction false} Pow2Monotone(n: nat, m: nat)
    requires n <= m
    ensures Pow2(n) <= Pow2(m)
  {
    if n < m {
      Pow2Monotone(n, m - 1);
    }
  }

  lemma NeedsMoreThanSeven(v: nat, n: nat)
    requires TWO_7 <= v < Pow2(n)
    ensures n > 7
  {
    Pow2Seven(0);
    if n <= 7 {
      Pow2Monotone(n, 7);
    }
  }

  lemma Pow2Of36()
    ensures Pow2(36) == TWO_32 * 16
  {
    Pow2Seven(29); Pow2Seven(22); Pow2Seven(15); Pow2Seven(8); Pow2Seven(1);
  }

  lemma Pow2Of64()
    ensures Pow2(64) == TWO_64
  {
    Pow2Seven(57); Pow2Seven(50); Pow2Seven(43); Pow2Seven(36);
    Pow2Of36();
  }

  lemma VarintRoundTrip(v: uint64, rest: Bytes)
    ensures VarintAt(EncodeVarint(v) + rest, 0) == Ok(Varint(|EncodeVarint(v)|, v))
  {
    Pow2Of64();
    VarintRoundTripAt(v, 0, rest);
  }
}
