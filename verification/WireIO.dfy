/**
 The buffers and cursors of pb/dht.pb.go: the printer's helpers fill an array from the back, the parser's
 helpers advance an index. Each is proved against the functions of `Varint` and `Wire`.
 */
module WireIO {
  import opened Integers
  import opened Varint
  import opened Wire
  import opened WireFormat

  // ----- filling a buffer from the back -----

  /** s with the bytes from i on overwritten by p. */
  function Splice(s: Bytes, i: nat, p: Bytes): (r: Bytes)
    requires i + |p| <= |s|
    ensures |r| == |s|
  {
    s[..i] + p + s[i + |p|..]
  }

  /** Putting a in front of b is putting a + b. */
  lemma SpliceInFront(s: Bytes, i: nat, a: Bytes, b: Bytes)
    requires |a| <= i && i + |b| <= |s|
    ensures Splice(Splice(s, i, b), i - |a|, a) == Splice(s, i - |a|, a + b)
  {
  }

  /** Bytes `tail` stand from i on; `a` was then written just before them: now a + tail stand there. */
  lemma Grown(before: Bytes, mid: Bytes, after: Bytes, i: nat, a: Bytes, tail: Bytes)
    requires |a| <= i && i + |tail| <= |before|
    requires mid == Splice(before, i, tail)
    requires after == Splice(mid, i - |a|, a)
    ensures after == Splice(before, i - |a|, a + tail)
  {
  }

  lemma SpliceNothing(s: Bytes, i: nat)
    requires i <= |s|
    ensures Splice(s, i, []) == s
  {
  }

  /** One byte after the last one put there. */
  lemma SpliceSnoc(s: Bytes, i: nat, p: Bytes, b: byte)
    requires i + |p| < |s|
    ensures Splice(s, i, p)[i + |p| := b] == Splice(s, i, p + [b])
  {
  }

  lemma VarintSplits(v: nat, done: Bytes, w: nat)
    requires w >= TWO_7 && EncodeVarint(v) == done + EncodeVarint(w)
    ensures EncodeVarint(v) == done + [(w % TWO_7 + TWO_7) as byte] + EncodeVarint(w / TWO_7)
    ensures |EncodeVarint(w)| == 1 + |EncodeVarint(w / TWO_7)|
  {
    assert EncodeVarint(w) == [(w % TWO_7 + TWO_7) as byte] + EncodeVarint(w / TWO_7);
  }

  /** encodeVarintDht: the bytes before `offset` become the varint; returns where it starts. */
  method EncodeVarintDht(dAtA: array<byte>, offset: nat, v: uint64) returns (base: nat)
    requires |EncodeVarint(v)| <= offset <= dAtA.Length
    modifies dAtA
    ensures base == offset - |EncodeVarint(v)|
    ensures dAtA[..] == Splice(old(dAtA[..]), base, EncodeVarint(v))
  {
    SovIsLength(v);
    base := offset - Sov(v);
    var i, w := base, v;
    ghost var done := [];
    while w >= 128
      invariant 0 <= w < TWO_64 && i == base + |done| && i + |EncodeVarint(w)| == offset
      invariant EncodeVarint(v) == done + EncodeVarint(w)
      invariant dAtA[..] == Splice(old(dAtA[..]), base, done)
      decreases w
    {
      var b := (w % TWO_7 + TWO_7) as byte;
      ghost var was := dAtA[..];
      VarintSplits(v, done, w);
      SpliceSnoc(old(dAtA[..]), base, done, b);
      dAtA[i] := b;
      assert dAtA[..] == was[i := b];
      done := done + [b];
      w := w / TWO_7;
      i := i + 1;
    }
    ghost var was := dAtA[..];
    SpliceSnoc(old(dAtA[..]), base, done, w as byte);
    dAtA[i] := w as byte;
    assert dAtA[..] == was[i := w as byte];
  }

  /** Copy bytes to just before `offset`. */
  method PutBytes(dAtA: array<byte>, offset: nat, p: Bytes) returns (i: nat)
    requires |p| <= offset <= dAtA.Length
    modifies dAtA
    ensures i == offset - |p|
    ensures dAtA[..] == Splice(old(dAtA[..]), i, p)
  {
    i := offset - |p|;
    for k := 0 to |p|
      invariant dAtA[..] == Splice(old(dAtA[..]), i, p[..k])
    {
      ghost var was := dAtA[..];
      SpliceSnoc(old(dAtA[..]), i, p[..k], p[k]);
      dAtA[i + k] := p[k];
      assert dAtA[..] == was[i + k := p[k]];
      assert p[..k + 1] == p[..k] + [p[k]];
    }
    assert p[..|p|] == p;
  }

  /** The length of the n bytes from `offset` on, and a tag, put in front of them. */
  method PutHeader(dAtA: array<byte>, offset: nat, n: nat, tag: byte) returns (i: nat)
    requires n < TWO_63 && 1 + |EncodeVarint(n)| <= offset <= dAtA.Length
    modifies dAtA
    ensures i == offset - 1 - |EncodeVarint(n)|
    ensures dAtA[..] == Splice(old(dAtA[..]), i, [tag] + EncodeVarint(n))
  {
    i := EncodeVarintDht(dAtA, offset, n);
    ghost var was := dAtA[..];
    SpliceInFront(old(dAtA[..]), i, [tag], EncodeVarint(n));
    i := i - 1;
    dAtA[i] := tag;
    assert dAtA[..] == Splice(was, i, [tag]);
  }

  // ----- reading -----

  /** The low bits of a number, in a 32-bit integer or in a 64-bit one. */
  function Low(x: nat, wide: bool): nat { if wide then x % TWO_64 else x % TWO_32 }

  function Reduced(r: Result<Varint>, wide: bool): Result<Varint> {
    match r
    case Err(e) => Err(e)
    case Ok(v) => Ok(Varint(v.n, Low(v.raw, wide)))
  }

  lemma ModAdd32(a: nat, b: nat)
    ensures (a % TWO_32 + b % TWO_32) % TWO_32 == (a + b) % TWO_32
  {
  }

  lemma ModAdd64(a: nat, b: nat)
    ensures (a % TWO_64 + b % TWO_64) % TWO_64 == (a + b) % TWO_64
  {
  }

  lemma LowAdd(a: nat, b: nat, wide: bool)
    ensures Low(Low(a, wide) + Low(b, wide), wide) == Low(a + b, wide)
  {
    if wide { ModAdd64(a, b); } else { ModAdd32(a, b); }
  }

  /** A varint of which k bytes worth `low` were read, given how its rest reads. */
  function Extended(rest: Result<Varint>, k: nat, low: nat, unit: nat): Result<Varint> {
    match rest
    case Err(e) => Err(e)
    case Ok(v) => Ok(Varint(k + v.n, low + unit * v.raw))
  }

  /** Reading one more byte, whose seven bits are worth `shifted` where they stand. */
  lemma OneMoreByte(t: Bytes, k: nat, low: nat, unit: nat, shifted: nat)
    requires 7 * k < 64 && t != [] && shifted == unit * (t[0] % 128) as nat
    ensures Extended(VarintAt(t, k), k, low, unit) ==
            if t[0] < 128 then Ok(Varint(k + 1, low + shifted))
            else Extended(VarintAt(t[1..], k + 1), k + 1, low + shifted, unit * TWO_7)
  {
    var rest := VarintAt(t[1..], k + 1);
    var bits := (t[0] % 128) as nat;
    if t[0] >= 128 && rest.Ok? {
      assert unit * (bits + TWO_7 * rest.value.raw) == unit * bits + (unit * TWO_7) * rest.value.raw;
    }
  }

  /** One of the hand-unrolled read loops: the varint at index i, accumulated in an integer of the given width. */
  method ReadVarint(dAtA: Bytes, start: nat, wide: bool) returns (r: Result<Varint>)
    requires start <= |dAtA|
    ensures r == Reduced(VarintAt(dAtA[start..], 0), wide)
  {
    var iNdEx, shift, unit: nat, wire := start, 0, 1, 0;
    ghost var k: nat, low: nat := 0, 0;
    ghost var whole := VarintAt(dAtA[start..], 0);
    while true
      invariant start <= iNdEx <= |dAtA| && shift == 7 * k && iNdEx == start + k
      invariant wire == Low(low, wide)
      invariant whole == Extended(VarintAt(dAtA[iNdEx..], k), k, low, unit)
      decreases |dAtA| - iNdEx
    {
      if shift >= 64 {
        return Err(IntOverflow);
      }
      if iNdEx >= |dAtA| {
        return Err(UnexpectedEOF);
      }
      var b := dAtA[iNdEx];
      ghost var t := dAtA[iNdEx..];
      iNdEx := iNdEx + 1;
      assert t[1..] == dAtA[iNdEx..];
      var shifted := unit * (b % 128) as nat;
      OneMoreByte(t, k, low, unit, shifted);
      LowAdd(low, shifted, wide);
      wire := Low(wire + Low(shifted, wide), wide);
      low := low + shifted;
      if b < 128 {
        return Ok(Varint(iNdEx - start, wire));
      }
      k, shift, unit := k + 1, shift + 7, unit * TWO_7;
    }
  }

  method ReadTag(dAtA: Bytes, iNdEx: nat) returns (r: Result<Tag>)
    requires iNdEx <= |dAtA|
    ensures r == TagAt(dAtA[iNdEx..])
  {
    var v := ReadVarint(dAtA, iNdEx, true);
    if v.Err? {
      return Err(v.error);
    }
    var fieldNum, wireType := ToInt32(v.value.raw / 8), v.value.raw % 8;
    if wireType == 4 {
      return Err(EndGroup);
    }
    if fieldNum <= 0 {
      return Err(IllegalTag);
    }
    return Ok(Tag(fieldNum, wireType, v.value.n));
  }

  method ReadInt32(dAtA: Bytes, iNdEx: nat) returns (r: Result<Varint>)
    requires iNdEx <= |dAtA|
    ensures r == Reduced(VarintAt(dAtA[iNdEx..], 0), false)
    ensures r.Ok? ==> ToInt32(r.value.raw) == ToInt32(VarintAt(dAtA[iNdEx..], 0).value.raw)
  {
    r := ReadVarint(dAtA, iNdEx, false);
  }

  /** An index that overflowed is negative; one that did not is itself. */
  lemma IndexWraps(x: nat)
    requires x < TWO_64
    ensures ToInt64(x) == if x < TWO_63 then x else x - TWO_64
  {
  }

  lemma SliceOfSuffix(s: Bytes, i: nat, n: nat, m: nat)
    requires i + n <= i + m <= |s|
    ensures s[i..][n..m] == s[i + n..i + m]
  {
  }

  method ReadLength(dAtA: Bytes, iNdEx: nat) returns (r: Result<Varint>)
    requires iNdEx <= |dAtA|
    ensures r == LengthAt(dAtA[iNdEx..])
  {
    var v := ReadVarint(dAtA, iNdEx, true);
    if v.Err? {
      return Err(v.error);
    }
    var length := ToInt64(v.value.raw);
    if length < 0 {
      return Err(InvalidLength);
    }
    return Ok(Varint(v.value.n, length));
  }

  /** A length and its payload. The three checks guard against negative lengths, index overflow and short input. */
  method ReadChunk(dAtA: Bytes, iNdEx: nat) returns (r: Result<Chunk>)
    requires iNdEx <= |dAtA| < TWO_63
    ensures r == ChunkAt(dAtA[iNdEx..], |dAtA|)
  {
    var v := ReadLength(dAtA, iNdEx);
    if v.Err? {
      return Err(v.error);
    }
    var byteLen := v.value.raw;
    var at := iNdEx + v.value.n;
    IndexWraps(at + byteLen);
    var postIndex := ToInt64(at + byteLen);
    if postIndex < 0 {
      return Err(InvalidLength);
    }
    if postIndex > |dAtA| {
      return Err(UnexpectedEOF);
    }
    SliceOfSuffix(dAtA, iNdEx, v.value.n, v.value.n + byteLen);
    return Ok(Chunk(dAtA[at..postIndex], v.value.n + byteLen));
  }

  /** What follows a tag in skipDht; a result at or past 2^63 is the caller's to refuse. */
  method ReadPayload(dAtA: Bytes, i: nat, wireType: nat, n: nat, depth: nat) returns (r: Result<Hop>)
    requires i <= |dAtA|
    ensures r == PayloadAt(dAtA[i..], wireType, n, depth)
    ensures wireType == 1 ==> r == Ok(Hop(n + 8, depth))
    ensures wireType == 5 ==> r == Ok(Hop(n + 4, depth))
    ensures wireType == 3 ==> r == Ok(Hop(n, depth + 1))
    ensures wireType == 4 ==> r == if depth == 0 then Err(UnexpectedEndOfGroup) else Ok(Hop(n, depth - 1))
    ensures wireType > 5 ==> r == Err(IllegalWireType)
  {
    if wireType == 0 {
      var w := ReadVarint(dAtA, i, true);
      if w.Err? {
        return Err(w.error);
      }
      return Ok(Hop(n + w.value.n, depth));
    } else if wireType == 1 {
      return Ok(Hop(n + 8, depth));
    } else if wireType == 2 {
      var w := ReadLength(dAtA, i);
      if w.Err? {
        return Err(w.error);
      }
      return Ok(Hop(n + w.value.n + w.value.raw, depth));
    } else if wireType == 3 {
      return Ok(Hop(n, depth + 1));
    } else if wireType == 4 {
      if depth == 0 {
        return Err(UnexpectedEndOfGroup);
      }
      return Ok(Hop(n, depth - 1));
    } else if wireType == 5 {
      return Ok(Hop(n + 4, depth));
    }
    return Err(IllegalWireType);
  }

  /** One hop of skipDht from index i. */
  method ReadHop(dAtA: Bytes, i: nat, depth: nat) returns (r: Result<Hop>)
    requires i <= |dAtA|
    ensures r == HopAt(dAtA[i..], depth)
  {
    var v := ReadVarint(dAtA, i, true);
    if v.Err? {
      return Err(v.error);
    }
    var n := v.value.n;
    assert dAtA[i..][n..] == dAtA[i + n..];
    r := ReadPayload(dAtA, i + n, v.value.raw % 8, n, depth);
  }

  /** One turn of skipDht's loop: an end with a result, or a later index and a depth from which it goes on. */
  method SkipTurn(dAtA: Bytes, i: nat, depth: nat) returns (end: bool, r: Result<nat>, i': nat, depth': nat)
    requires i < |dAtA| < TWO_63
    ensures end ==> r == SkipFrom(dAtA, i, depth)
    ensures !end ==> i < i' && SkipFrom(dAtA, i', depth') == SkipFrom(dAtA, i, depth)
  {
    i', depth' := i, depth;
    var h := ReadHop(dAtA, i, depth);
    if h.Err? {
      SkipFails(dAtA, i, depth, h.error);
      return true, Err(h.error), i', depth';
    }
    SkipAdvances(dAtA, i, depth, h.value);
    IndexWraps(i + h.value.n);
    var next := ToInt64(i + h.value.n);
    if next < 0 {
      return true, Err(InvalidLength), i', depth';
    }
    return h.value.depth == 0, Ok(next), next, h.value.depth;
  }

  /** skipDht: a success is strictly positive progress, though it may point beyond the input. */
  method SkipDht(dAtA: Bytes) returns (r: Result<nat>)
    requires |dAtA| < TWO_63
    ensures r == SkipFrom(dAtA, 0, 0)
    ensures r.Ok? ==> 0 < r.value < TWO_63
    ensures forall f :: Spelled(f) && StandsAt(dAtA, 0, Written(f)) ==> r == Ok(|Written(f)|)
    ensures r.Ok? && r.value <= |dAtA| ==> exists f :: Spelled(f) && StandsAt(dAtA, 0, Written(f))
  {
    SkipMeans(dAtA);
    var iNdEx: nat, depth: nat := 0, 0;
    while iNdEx < |dAtA|
      invariant SkipFrom(dAtA, iNdEx, depth) == SkipFrom(dAtA, 0, 0)
      decreases |dAtA| - iNdEx
    {
      var end;
      end, r, iNdEx, depth := SkipTurn(dAtA, iNdEx, depth);
      if end {
        return;
      }
    }
    return Err(UnexpectedEOF);
  }

  method SkipUnknown(dAtA: Bytes, iNdEx: nat) returns (r: Result<nat>)
    requires iNdEx <= |dAtA| < TWO_63
    ensures r == UnknownAt(dAtA[iNdEx..], |dAtA|)
  {
    var s := SkipDht(dAtA[iNdEx..]);
    if s.Err? {
      return Err(s.error);
    }
    var skippy := s.value;
    IndexWraps(iNdEx + skippy);
    if ToInt64(iNdEx + skippy) < 0 {
      return Err(InvalidLength);
    }
    if iNdEx + skippy > |dAtA| {
      return Err(UnexpectedEOF);
    }
    return Ok(skippy);
  }
}
