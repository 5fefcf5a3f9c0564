/**
 Keys as the byte slices that kbucket/keyspace/xor.go works on, and why a key may be read as a bit string:
 the byte-wise XOR, zero prefix, comparison and big-endian integer are those of `KeySpace`.
 */
module ByteKeys {
  import opened Integers
  import opened KeySpace

  type ByteKey = seq<bv8>

  function Mask(i: nat): bv8
    requires i < 8
  {
    if i == 0 then 0x80 else if i == 1 then 0x40 else if i == 2 then 0x20 else if i == 3 then 0x10
    else if i == 4 then 0x08 else if i == 5 then 0x04 else if i == 6 then 0x02 else 0x01
  }

  /** The i-th bit of a byte, most significant first. */
  predicate Bit(b: bv8, i: nat)
    requires i < 8
  {
    b & Mask(i) != 0
  }

  function Bits8(b: bv8): (r: Bits)
    ensures |r| == 8
  {
    seq(8, i requires 0 <= i < 8 => Bit(b, i))
  }

  function ToBits(s: ByteKey): (r: Bits)
    ensures |r| == 8 * |s|
  {
    if s == [] then [] else Bits8(s[0]) + ToBits(s[1..])
  }

  lemma {:induction false} BitOf(s: ByteKey, i: nat, j: nat)
    requires i < |s| && j < 8
    ensures ToBits(s)[8 * i + j] == Bits8(s[i])[j]
  {
    if i > 0 {
      BitOf(s[1..], i - 1, j);
    }
  }

  // ----- byte-wise operations -----

  function XorBytes(a: ByteKey, b: ByteKey): (r: ByteKey)
    requires |a| == |b|
    ensures |r| == |a|
  {
    if a == [] then [] else [a[0] ^ b[0]] + XorBytes(a[1..], b[1..])
  }

  function LeadingZeros8(b: bv8): nat {
    if b >= 0x80 then 0 else if b >= 0x40 then 1 else if b >= 0x20 then 2 else if b >= 0x10 then 3
    else if b >= 0x08 then 4 else if b >= 0x04 then 5 else if b >= 0x02 then 6 else if b >= 0x01 then 7 else 8
  }

  function ZeroPrefixLenBytes(s: ByteKey): nat {
    if s == [] then 0 else if s[0] != 0 then LeadingZeros8(s[0]) else 8 + ZeroPrefixLenBytes(s[1..])
  }

  /** bytes.Compare(a, b) < 0 for slices of one length. */
  predicate CompareLess(a: ByteKey, b: ByteKey)
    requires |a| == |b|
  {
    a != [] && if a[0] != b[0] then a[0] < b[0] else CompareLess(a[1..], b[1..])
  }

  // ----- they are the bit-wise ones -----

  lemma XorOfMasked(a: bv8, b: bv8, m: bv8)
    requires m in {0x80, 0x40, 0x20, 0x10, 0x08, 0x04, 0x02, 0x01}
    ensures ((a ^ b) & m != 0) == ((a & m != 0) != (b & m != 0))
  {
  }

  lemma XorOfByte(a: bv8, b: bv8)
    ensures Bits8(a ^ b) == Xor(Bits8(a), Bits8(b))
  {
    forall i | 0 <= i < 8 ensures Bit(a ^ b, i) == (Bit(a, i) != Bit(b, i)) {
      XorOfMasked(a, b, Mask(i));
    }
  }

  lemma XorConcat(a: Bits, b: Bits, c: Bits, d: Bits)
    requires |a| == |c| && |b| == |d|
    ensures Xor(a + b, c + d) == Xor(a, c) + Xor(b, d)
  {
  }

  lemma {:induction false} XorBytesIsXor(a: ByteKey, b: ByteKey)
    requires |a| == |b|
    ensures ToBits(XorBytes(a, b)) == Xor(ToBits(a), ToBits(b))
  {
    if a != [] {
      XorOfByte(a[0], b[0]);
      XorBytesIsXor(a[1..], b[1..]);
      XorConcat(Bits8(a[0]), ToBits(a[1..]), Bits8(b[0]), ToBits(b[1..]));
      assert XorBytes(a, b)[1..] == XorBytes(a[1..], b[1..]);
    }
  }

  lemma ZeroPrefixOfByte(b: bv8)
    ensures ZeroPrefixLen(Bits8(b)) == LeadingZeros8(b)
    ensures b != 0 <==> ZeroPrefixLen(Bits8(b)) < 8
  {
    ByteByBit(b);
    ZeroPrefixUnique(Bits8(b), LeadingZeros8(b));
  }

  lemma ByteByBit(b: bv8)
    ensures LeadingZeros8(b) < 8 ==> Bit(b, LeadingZeros8(b))
    ensures forall i :: 0 <= i < LeadingZeros8(b) ==> !Bit(b, i)
    ensures b == 0 <==> LeadingZeros8(b) == 8
  {
  }

  lemma {:induction false} ZeroPrefixConcat(a: Bits, b: Bits)
    ensures ZeroPrefixLen(a + b) == if ZeroPrefixLen(a) < |a| then ZeroPrefixLen(a) else |a| + ZeroPrefixLen(b)
  {
    ZeroPrefixIs(a);
    if a == [] {
      assert a + b == b;
    } else if !a[0] {
      assert (a + b)[1..] == a[1..] + b;
      ZeroPrefixConcat(a[1..], b);
    }
  }

  /** Counting leading zero bytes and the leading zeros of the next byte counts the zero prefix. */
  lemma {:induction false} ZeroPrefixLenBytesIs(s: ByteKey)
    ensures ZeroPrefixLenBytes(s) == ZeroPrefixLen(ToBits(s))
  {
    if s != [] {
      ZeroPrefixOfByte(s[0]);
      ZeroPrefixIs(Bits8(s[0]));
      ZeroPrefixLenBytesIs(s[1..]);
      ZeroPrefixConcat(Bits8(s[0]), ToBits(s[1..]));
    }
  }

  // ----- order -----

  lemma ByteOrder(a: bv8, b: bv8, i: nat)
    requires i < 8 && (forall j :: 0 <= j < i ==> Bit(a, j) == Bit(b, j)) && !Bit(a, i) && Bit(b, i)
    ensures a < b
  {
    assert i == 0 || i == 1 || i == 2 || i == 3 || i == 4 || i == 5 || i == 6 || i == 7;
    assert i > 0 ==> Bit(a, 0) == Bit(b, 0);
    assert i > 1 ==> Bit(a, 1) == Bit(b, 1);
    assert i > 2 ==> Bit(a, 2) == Bit(b, 2);
    assert i > 3 ==> Bit(a, 3) == Bit(b, 3);
    assert i > 4 ==> Bit(a, 4) == Bit(b, 4);
    assert i > 5 ==> Bit(a, 5) == Bit(b, 5);
    assert i > 6 ==> Bit(a, 6) == Bit(b, 6);
  }

  lemma ByteEquality(a: bv8, b: bv8)
    requires forall j :: 0 <= j < 8 ==> Bit(a, j) == Bit(b, j)
    ensures a == b
  {
    assert Bit(a, 0) == Bit(b, 0) && Bit(a, 1) == Bit(b, 1) && Bit(a, 2) == Bit(b, 2) && Bit(a, 3) == Bit(b, 3);
    assert Bit(a, 4) == Bit(b, 4) && Bit(a, 5) == Bit(b, 5) && Bit(a, 6) == Bit(b, 6) && Bit(a, 7) == Bit(b, 7);
  }

  /** Where two bit strings first differ decides their order. */
  lemma {:induction false} LessAtFirstDifference(a: Bits, b: Bits, i: nat)
    requires |a| == |b| && i < |a| && a[i] != b[i] && forall j :: 0 <= j < i ==> a[j] == b[j]
    ensures Less(a, b) == b[i]
  {
    if i > 0 {
      assert a[0] == b[0];
      LessAtFirstDifference(a[1..], b[1..], i - 1);
    }
  }

  lemma {:induction false} LessSkipsCommonPrefix(c: Bits, a: Bits, b: Bits)
    requires |a| == |b|
    ensures Less(c + a, c + b) == Less(a, b)
  {
    if c == [] {
      assert c + a == a && c + b == b;
    } else {
      assert (c + a)[1..] == c[1..] + a && (c + b)[1..] == c[1..] + b;
      LessSkipsCommonPrefix(c[1..], a, b);
    }
  }

  /** Comparing bytes compares bits. */
  lemma {:induction false} CompareLessIsLess(a: ByteKey, b: ByteKey)
    requires |a| == |b|
    ensures CompareLess(a, b) == Less(ToBits(a), ToBits(b))
  {
    if a != [] {
      var x, y := ToBits(a[1..]), ToBits(b[1..]);
      if a[0] == b[0] {
        CompareLessIsLess(a[1..], b[1..]);
        LessSkipsCommonPrefix(Bits8(a[0]), x, y);
      } else {
        var i := FirstDifference(a[0], b[0]);
        var s, t := ToBits(a), ToBits(b);
        assert s[i] == Bit(a[0], i) && t[i] == Bit(b[0], i);
        forall j | 0 <= j < i ensures s[j] == t[j] {
          assert s[j] == Bit(a[0], j) && t[j] == Bit(b[0], j);
        }
        LessAtFirstDifference(s, t, i);
      }
    }
  }

  lemma FirstDifference(a: bv8, b: bv8) returns (i: nat)
    requires a != b
    ensures i < 8 && Bit(a, i) != Bit(b, i) && (forall j :: 0 <= j < i ==> Bit(a, j) == Bit(b, j))
    ensures a < b <==> Bit(b, i)
  {
    i := 0;
    while i < 8 && Bit(a, i) == Bit(b, i)
      invariant i <= 8 && forall j :: 0 <= j < i ==> Bit(a, j) == Bit(b, j)
    {
      i := i + 1;
    }
    if i == 8 {
      ByteEquality(a, b);
      assert false;
    }
    if Bit(b, i) { ByteOrder(a, b, i); } else { ByteOrder(b, a, i); }
  }

  // ----- the integer -----

  /** big.Int.SetBytes: a digit per byte. */
  function SetBytes(s: ByteKey): nat {
    if s == [] then 0 else 256 * SetBytes(s[..|s| - 1]) + s[|s| - 1] as nat
  }

  function One(b: bool): nat { if b then 1 else 0 }

  function Nibble(a: bool, b: bool, c: bool, d: bool): nat { 8 * One(a) + 4 * One(b) + 2 * One(c) + One(d) }

  lemma ByteIsNibbles(b: bv8)
    ensures b as nat == 16 * Nibble(Bit(b, 0), Bit(b, 1), Bit(b, 2), Bit(b, 3)) +
        Nibble(Bit(b, 4), Bit(b, 5), Bit(b, 6), Bit(b, 7))
  {
  }

  lemma {:induction false} ValueConcat(a: Bits, b: Bits)
    ensures Value(a + b) == Value(a) * Pow2(|b|) + Value(b)
  {
    if a == [] {
      assert a + b == b;
    } else {
      ValueConcat(a[1..], b);
      assert (a + b)[1..] == a[1..] + b;
      Pow2Sum(|a| - 1, |b|);
      var v := Value(a[1..]);
      assert (Pow2(|a| - 1) + v) * Pow2(|b|) == Pow2(|a| - 1) * Pow2(|b|) + v * Pow2(|b|);
    }
  }

  lemma {:induction false} Pow2Sum(m: nat, n: nat)
    ensures Pow2(m + n) == Pow2(m) * Pow2(n)
  {
    if m > 0 {
      Pow2Sum(m - 1, n);
      Doubled(Pow2(m - 1), Pow2(n));
      assert Pow2(m + n) == 2 * Pow2(m - 1 + n);
    }
  }

  lemma Doubled(a: nat, b: nat)
    ensures (2 * a) * b == 2 * (a * b)
  {
  }

  lemma ValueOfNibble(s: Bits)
    requires |s| == 4
    ensures Value(s) == Nibble(s[0], s[1], s[2], s[3])
  {
    assert s[3..][1..] == [];
    assert Value(s[3..]) == One(s[3]);
    assert s[2..][1..] == s[3..] && Pow2(1) == 2;
    assert Value(s[2..]) == 2 * One(s[2]) + One(s[3]);
    assert s[1..][1..] == s[2..] && Pow2(2) == 4;
    assert Value(s[1..]) == 4 * One(s[1]) + 2 * One(s[2]) + One(s[3]);
    assert Pow2(3) == 8;
  }

  lemma ValueOfEight(s: Bits)
    requires |s| == 8
    ensures Value(s) == 16 * Nibble(s[0], s[1], s[2], s[3]) + Nibble(s[4], s[5], s[6], s[7])
  {
    assert s == s[..4] + s[4..];
    ValueConcat(s[..4], s[4..]);
    ValueOfNibble(s[..4]);
    ValueOfNibble(s[4..]);
    assert Pow2(2) == 4 && Pow2(4) == 16;
  }

  lemma ValueOfByte(b: bv8)
    ensures Value(Bits8(b)) == b as nat
  {
    var s := Bits8(b);
    ValueOfEight(s);
    ByteIsNibbles(b);
  }

  lemma {:induction false} ToBitsSnoc(s: ByteKey, b: bv8)
    ensures ToBits(s + [b]) == ToBits(s) + Bits8(b)
  {
    if s == [] {
      assert s + [b] == [b];
    } else {
      assert (s + [b])[1..] == s[1..] + [b];
      ToBitsSnoc(s[1..], b);
    }
  }

  /** The big-endian integer of the bytes is the integer of the bits. */
  lemma {:induction false} SetBytesIsValue(s: ByteKey)
    ensures SetBytes(s) == Value(ToBits(s))
  {
    if s != [] {
      var t, b := s[..|s| - 1], s[|s| - 1];
      SetBytesIsValue(t);
      assert s == t + [b];
      ToBitsSnoc(t, b);
      ValueConcat(ToBits(t), Bits8(b));
      ValueOfByte(b);
      assert Pow2(8) == 256;
    }
  }

  /** The two distance orders of the code agree: comparing XORs byte by byte, and comparing them as big integers. */
  lemma DistanceOrdersAgree(a: ByteKey, b: ByteKey, key: ByteKey)
    requires |a| == |b| == |key|
    ensures CompareLess(XorBytes(key, a), XorBytes(key, b)) <==> SetBytes(XorBytes(a, key)) < SetBytes(XorBytes(b, key))
  {
    var x, y := XorBytes(key, a), XorBytes(key, b);
    CompareLessIsLess(x, y);
    LessIsIntegerOrder(ToBits(x), ToBits(y));
    XorBytesSymmetric(a, key);
    XorBytesSymmetric(b, key);
    SetBytesIsValue(x);
    SetBytesIsValue(y);
  }

  lemma {:induction false} XorBytesSymmetric(a: ByteKey, b: ByteKey)
    requires |a| == |b|
    ensures XorBytes(a, b) == XorBytes(b, a)
  {
    if a != [] {
      XorBytesSymmetric(a[1..], b[1..]);
    }
  }
}
