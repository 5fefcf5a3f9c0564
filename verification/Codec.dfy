/**
 The generated Size, MarshalToSizedBuffer, Marshal and Unmarshal of pb/dht.pb.go.

 The printer fills a buffer back to front, from an end that nested messages move; the size is computed
 separately and beforehand. A buffer is shorter than 2^63 bytes, as every Go slice is.
 */
module Codec {
  import opened Integers
  import opened Varint
  import opened WireIO
  import opened Messages
  import opened Wrappers

  // ----- sizes -----

  method ChunkSize(l: nat) returns (n: nat)
    ensures n == 1 + |EncodeVarint(l)| + l
  {
    SovIsLength(l);
    n := 1 + l + Sov(l);
  }

  method IntSize(x: int32) returns (n: nat)
    ensures forall tag :: n == |IntField(tag, x)|
  {
    n := 0;
    if x != 0 {
      SovIsLength(SignExtend(x));
      n := 1 + Sov(SignExtend(x));
    }
  }

  lemma {:induction false} ChunkFieldsSnoc(tag: byte, bs: seq<Bytes>, b: Bytes)
    ensures ChunkFields(tag, bs + [b]) == ChunkFields(tag, bs) + ChunkField(tag, b)
  {
    if bs == [] {
      assert bs + [b] == [b];
      assert ChunkFields(tag, [b]) == ChunkField(tag, b) + ChunkFields(tag, []);
    } else {
      assert (bs + [b])[1..] == bs[1..] + [b];
      ChunkFieldsSnoc(tag, bs[1..], b);
    }
  }

  lemma {:induction false} EncodePeersAt(ps: seq<Peer>, i: nat)
    requires i < |ps|
    ensures EncodePeers(ps)[i] == EncodePeer(ps[i])
  {
    if i > 0 {
      EncodePeersAt(ps[1..], i - 1);
    }
  }

  method PeerSize(p: Peer) returns (n: nat)
    ensures n == |EncodePeer(p)|
  {
    n := ChunkSize(|p.id|);
    for i := 0 to |p.addrs|
      invariant n == |ChunkField(0x0a, p.id)| + |ChunkFields(0x12, p.addrs[..i])|
    {
      var l := ChunkSize(|p.addrs[i]|);
      ChunkFieldsSnoc(0x12, p.addrs[..i], p.addrs[i]);
      assert p.addrs[..i + 1] == p.addrs[..i] + [p.addrs[i]];
      n := n + l;
    }
    assert p.addrs[..|p.addrs|] == p.addrs;
    var c := IntSize(p.connection);
    n := n + c + |p.unrecognized|;
  }

  method ClosestSize(c: ClosestPeers) returns (n: nat)
    ensures n == |EncodeClosest(c)|
  {
    n := 0;
    if |c.self| > 0 {
      n := ChunkSize(|c.self|);
    }
    var l := IntSize(c.mode);
    assert l == |IntField(0x10, c.mode)|;
    n := n + l + |c.unrecognized|;
  }

  method PeersSize(ps: seq<Peer>, ghost tag: byte) returns (n: nat)
    ensures n == |ChunkFields(tag, EncodePeers(ps))|
  {
    n := 0;
    ghost var es := EncodePeers(ps);
    for i := 0 to |ps|
      invariant n == |ChunkFields(tag, es[..i])|
    {
      var l := PeerSize(ps[i]);
      var c := ChunkSize(l);
      EncodePeersAt(ps, i);
      ChunkFieldsSnoc(tag, es[..i], es[i]);
      assert es[..i + 1] == es[..i] + [es[i]];
      n := n + c;
    }
    assert es[..|ps|] == es;
  }

  method BytesSize(b: Bytes, ghost tag: byte) returns (n: nat)
    ensures n == |BytesField(tag, b)|
  {
    n := 0;
    if |b| > 0 {
      n := ChunkSize(|b|);
    }
  }

  method NestedSize<R>(rc: RecordCodec<R>, record: Option<R>, closest: Option<ClosestPeers>) returns (r: nat, c: nat)
    ensures r == |RecordField(rc, record)| && c == |ClosestField(closest)|
  {
    r, c := 0, 0;
    if record.Some? {
      r := ChunkSize(|rc.encode(record.value)|);
    }
    if closest.Some? {
      c := ClosestSize(closest.value);
      c := ChunkSize(c);
    }
  }

  method MessageSize<R>(rc: RecordCodec<R>, m: Message<R>) returns (n: nat)
    ensures n == |EncodeMessage(rc, m)|
  {
    n := IntSize(m.kind);
    var key := BytesSize(m.key, 0x12);
    var record, closest := NestedSize(rc, m.record, m.closestPeers);
    var closer := PeersSize(m.closerPeers, 0x42);
    var provider := PeersSize(m.providerPeers, 0x4a);
    var level := IntSize(m.clusterLevelRaw);
    var value := BytesSize(m.value, 0x62);
    assert n == |IntField(0x08, m.kind)| && level == |IntField(0x50, m.clusterLevelRaw)|;
    n := n + key + record + closer + provider + level + closest + value + |m.unrecognized|;
  }

  // ----- printing -----

  method PutTag(dAtA: array<byte>, offset: nat, tag: byte) returns (i: nat)
    requires 1 <= offset <= dAtA.Length
    modifies dAtA
    ensures i == offset - 1
    ensures dAtA[..] == Splice(old(dAtA[..]), i, [tag])
  {
    i := offset - 1;
    dAtA[i] := tag;
  }

  method PutInt(dAtA: array<byte>, offset: nat, x: int32, tag: byte) returns (i: nat)
    requires |IntField(tag, x)| <= offset <= dAtA.Length
    modifies dAtA
    ensures i == offset - |IntField(tag, x)|
    ensures dAtA[..] == Splice(old(dAtA[..]), i, IntField(tag, x))
  {
    ghost var s0 := dAtA[..];
    i := offset;
    if x != 0 {
      i := EncodeVarintDht(dAtA, i, SignExtend(x));
      ghost var s1 := dAtA[..];
      i := PutTag(dAtA, i, tag);
      Grown(s0, s1, dAtA[..], i + 1, [tag], EncodeVarint(SignExtend(x)));
    } else {
      SpliceNothing(s0, i);
    }
  }

  method PutChunk(dAtA: array<byte>, offset: nat, b: Bytes, tag: byte) returns (i: nat)
    requires |ChunkField(tag, b)| <= offset <= dAtA.Length < TWO_63
    modifies dAtA
    ensures i == offset - |ChunkField(tag, b)|
    ensures dAtA[..] == Splice(old(dAtA[..]), i, ChunkField(tag, b))
  {
    ghost var s0 := dAtA[..];
    i := PutBytes(dAtA, offset, b);
    ghost var s1 := dAtA[..];
    i := PutHeader(dAtA, i, |b|, tag);
    Grown(s0, s1, dAtA[..], offset - |b|, [tag] + EncodeVarint(|b|), b);
    assert [tag] + EncodeVarint(|b|) + b == ChunkField(tag, b);
  }

  // Each of the following writes one more piece in front of the `tail` that the call of this printer has
  // already written over the buffer `s0`.

  ghost predicate Holds(s: Bytes, s0: Bytes, i: nat, tail: Bytes) {
    i + |tail| <= |s0| && s == Splice(s0, i, tail)
  }

  method BytesBefore(dAtA: array<byte>, offset: nat, b: Bytes, ghost s0: Bytes) returns (i: nat)
    requires Holds(dAtA[..], s0, offset, []) && |b| <= offset
    modifies dAtA
    ensures i == offset - |b| && Holds(dAtA[..], s0, i, b)
  {
    SpliceNothing(s0, offset);
    i := PutBytes(dAtA, offset, b);
  }

  method IntBefore(dAtA: array<byte>, offset: nat, x: int32, tag: byte, ghost s0: Bytes, ghost tail: Bytes)
    returns (i: nat)
    requires Holds(dAtA[..], s0, offset, tail) && |IntField(tag, x)| <= offset
    modifies dAtA
    ensures i == offset - |IntField(tag, x)| && Holds(dAtA[..], s0, i, IntField(tag, x) + tail)
  {
    ghost var s1 := dAtA[..];
    i := PutInt(dAtA, offset, x, tag);
    Grown(s0, s1, dAtA[..], offset, IntField(tag, x), tail);
  }

  method ChunkBefore(dAtA: array<byte>, offset: nat, b: Bytes, tag: byte, ghost s0: Bytes, ghost tail: Bytes)
    returns (i: nat)
    requires Holds(dAtA[..], s0, offset, tail) && |ChunkField(tag, b)| <= offset && dAtA.Length < TWO_63
    modifies dAtA
    ensures i == offset - |ChunkField(tag, b)| && Holds(dAtA[..], s0, i, ChunkField(tag, b) + tail)
  {
    ghost var s1 := dAtA[..];
    i := PutChunk(dAtA, offset, b, tag);
    Grown(s0, s1, dAtA[..], offset, ChunkField(tag, b), tail);
  }

  lemma LastChunk(tag: byte, bs: seq<Bytes>, k: nat, rest: Bytes)
    requires k < |bs|
    ensures |ChunkFields(tag, bs[..k + 1])| == |ChunkFields(tag, bs[..k])| + |ChunkField(tag, bs[k])|
    ensures ChunkField(tag, bs[k]) + (ChunkFields(tag, bs[k + 1..]) + rest) == ChunkFields(tag, bs[k..]) + rest
  {
    assert bs[k..][1..] == bs[k + 1..];
    assert bs[..k + 1] == bs[..k] + [bs[k]];
    ChunkFieldsSnoc(tag, bs[..k], bs[k]);
  }

  /** The addresses, last first. */
  method AddrsBefore(dAtA: array<byte>, offset: nat, addrs: seq<Bytes>, ghost s0: Bytes, ghost tail: Bytes)
    returns (i: nat)
    requires Holds(dAtA[..], s0, offset, tail) && |ChunkFields(0x12, addrs)| <= offset && dAtA.Length < TWO_63
    modifies dAtA
    ensures i == offset - |ChunkFields(0x12, addrs)| && Holds(dAtA[..], s0, i, ChunkFields(0x12, addrs) + tail)
  {
    i := offset;
    var k := |addrs|;
    assert addrs[..k] == addrs && addrs[k..] == [] && [] + tail == tail;
    while k > 0
      invariant 0 <= k <= |addrs|
      invariant i == offset - |ChunkFields(0x12, addrs)| + |ChunkFields(0x12, addrs[..k])|
      invariant Holds(dAtA[..], s0, i, ChunkFields(0x12, addrs[k..]) + tail)
    {
      k := k - 1;
      LastChunk(0x12, addrs, k, tail);
      i := ChunkBefore(dAtA, i, addrs[k], 0x12, s0, ChunkFields(0x12, addrs[k + 1..]) + tail);
    }
    assert addrs[0..] == addrs;
  }

  /** Fills the buffer's bytes before `end` from the back with the peer's encoding, and touches no others. */
  method PeerMarshalToSizedBuffer(p: Peer, dAtA: array<byte>, end: nat) returns (n: nat)
    requires |EncodePeer(p)| <= end <= dAtA.Length < TWO_63
    modifies dAtA
    ensures n == |EncodePeer(p)|
    ensures dAtA[..] == Splice(old(dAtA[..]), end - n, EncodePeer(p))
  {
    ghost var s0 := dAtA[..];
    SpliceNothing(s0, end);
    var i := BytesBefore(dAtA, end, p.unrecognized, s0);
    i := IntBefore(dAtA, i, p.connection, 0x18, s0, p.unrecognized);
    ghost var tail := IntField(0x18, p.connection) + p.unrecognized;
    i := AddrsBefore(dAtA, i, p.addrs, s0, tail);
    i := ChunkBefore(dAtA, i, p.id, 0x0a, s0, ChunkFields(0x12, p.addrs) + tail);
    n := end - i;
  }

  method ClosestMarshalToSizedBuffer(c: ClosestPeers, dAtA: array<byte>, end: nat) returns (n: nat)
    requires |EncodeClosest(c)| <= end <= dAtA.Length < TWO_63
    modifies dAtA
    ensures n == |EncodeClosest(c)|
    ensures dAtA[..] == Splice(old(dAtA[..]), end - n, EncodeClosest(c))
  {
    ghost var s0 := dAtA[..];
    SpliceNothing(s0, end);
    var i := BytesBefore(dAtA, end, c.unrecognized, s0);
    i := IntBefore(dAtA, i, c.mode, 0x10, s0, c.unrecognized);
    i := BytesFieldBefore(dAtA, i, c.self, 0x0a, s0, IntField(0x10, c.mode) + c.unrecognized);
    n := end - i;
  }

  /** The peers, last first: each is printed into the buffer before the bytes already there, then headed by its size. */
  method PeersBefore(dAtA: array<byte>, offset: nat, ps: seq<Peer>, tag: byte, ghost s0: Bytes, ghost tail: Bytes)
    returns (i: nat)
    requires Holds(dAtA[..], s0, offset, tail) && |ChunkFields(tag, EncodePeers(ps))| <= offset && dAtA.Length < TWO_63
    modifies dAtA
    ensures i == offset - |ChunkFields(tag, EncodePeers(ps))|
    ensures Holds(dAtA[..], s0, i, ChunkFields(tag, EncodePeers(ps)) + tail)
  {
    ghost var es := EncodePeers(ps);
    i := offset;
    var k := |ps|;
    assert es[..k] == es && es[k..] == [] && [] + tail == tail;
    while k > 0
      invariant 0 <= k <= |ps|
      invariant i == offset - |ChunkFields(tag, es)| + |ChunkFields(tag, es[..k])|
      invariant Holds(dAtA[..], s0, i, ChunkFields(tag, es[k..]) + tail)
    {
      k := k - 1;
      LastChunk(tag, es, k, tail);
      EncodePeersAt(ps, k);
      i := PeerBefore(dAtA, i, ps[k], tag, s0, ChunkFields(tag, es[k + 1..]) + tail);
    }
    assert es[0..] == es;
  }

  method PeerBefore(dAtA: array<byte>, offset: nat, p: Peer, tag: byte, ghost s0: Bytes, ghost tail: Bytes)
    returns (i: nat)
    requires Holds(dAtA[..], s0, offset, tail) && |ChunkField(tag, EncodePeer(p))| <= offset && dAtA.Length < TWO_63
    modifies dAtA
    ensures i == offset - |ChunkField(tag, EncodePeer(p))|
    ensures Holds(dAtA[..], s0, i, ChunkField(tag, EncodePeer(p)) + tail)
  {
    ghost var s1 := dAtA[..];
    var size := PeerMarshalToSizedBuffer(p, dAtA, offset);
    Grown(s0, s1, dAtA[..], offset, EncodePeer(p), tail);
    i := HeaderBefore(dAtA, offset - size, size, tag, s0, EncodePeer(p), tail);
  }

  /** A length and a tag in front of the payload just printed. */
  method HeaderBefore(dAtA: array<byte>, offset: nat, size: nat, tag: byte, ghost s0: Bytes, ghost payload: Bytes,
        ghost tail: Bytes)
    returns (i: nat)
    requires size == |payload|
    requires Holds(dAtA[..], s0, offset, payload + tail) && 1 + |EncodeVarint(|payload|)| <= offset
        && dAtA.Length < TWO_63
    modifies dAtA
    ensures i == offset + |payload| - |ChunkField(tag, payload)|
    ensures Holds(dAtA[..], s0, i, ChunkField(tag, payload) + tail)
  {
    ghost var s1 := dAtA[..];
    i := PutHeader(dAtA, offset, size, tag);
    Grown(s0, s1, dAtA[..], offset, [tag] + EncodeVarint(|payload|), payload + tail);
    assert [tag] + EncodeVarint(|payload|) + (payload + tail) == ChunkField(tag, payload) + tail;
  }

  method BytesFieldBefore(dAtA: array<byte>, offset: nat, b: Bytes, tag: byte, ghost s0: Bytes, ghost tail: Bytes)
    returns (i: nat)
    requires Holds(dAtA[..], s0, offset, tail) && |BytesField(tag, b)| <= offset && dAtA.Length < TWO_63
    modifies dAtA
    ensures i == offset - |BytesField(tag, b)| && Holds(dAtA[..], s0, i, BytesField(tag, b) + tail)
  {
    i := offset;
    if |b| > 0 {
      i := ChunkBefore(dAtA, i, b, tag, s0, tail);
    } else {
      assert BytesField(tag, b) + tail == tail;
    }
  }

  method ClosestBefore(dAtA: array<byte>, offset: nat, c: Option<ClosestPeers>, ghost s0: Bytes, ghost tail: Bytes)
    returns (i: nat)
    requires Holds(dAtA[..], s0, offset, tail) && |ClosestField(c)| <= offset && dAtA.Length < TWO_63
    modifies dAtA
    ensures i == offset - |ClosestField(c)| && Holds(dAtA[..], s0, i, ClosestField(c) + tail)
  {
    i := offset;
    if c.Some? {
      ghost var s1 := dAtA[..];
      assert ClosestField(c) == ChunkField(0x5a, EncodeClosest(c.value));
      var size := ClosestMarshalToSizedBuffer(c.value, dAtA, offset);
      Grown(s0, s1, dAtA[..], offset, EncodeClosest(c.value), tail);
      i := HeaderBefore(dAtA, offset - size, size, 0x5a, s0, EncodeClosest(c.value), tail);
    } else {
      assert ClosestField(c) + tail == tail;
    }
  }

  /** The other package's record prints its own bytes. */
  method RecordBefore<R>(rc: RecordCodec<R>, dAtA: array<byte>, offset: nat, r: Option<R>, ghost s0: Bytes,
        ghost tail: Bytes)
    returns (i: nat)
    requires Holds(dAtA[..], s0, offset, tail) && |RecordField(rc, r)| <= offset && dAtA.Length < TWO_63
    modifies dAtA
    ensures i == offset - |RecordField(rc, r)| && Holds(dAtA[..], s0, i, RecordField(rc, r) + tail)
  {
    i := offset;
    if r.Some? {
      i := ChunkBefore(dAtA, i, rc.encode(r.value), 0x1a, s0, tail);
    } else {
      assert RecordField(rc, r) + tail == tail;
    }
  }

  /** From the integer field 10 on. */
  method RearBefore<R>(m: Message<R>, dAtA: array<byte>, offset: nat, ghost s0: Bytes) returns (i: nat)
    requires Holds(dAtA[..], s0, offset, []) && |Rear(m)| <= offset && dAtA.Length < TWO_63
    modifies dAtA
    ensures i == offset - |Rear(m)| && Holds(dAtA[..], s0, i, Rear(m))
  {
    i := BytesBefore(dAtA, offset, m.unrecognized, s0);
    ghost var tail := m.unrecognized;
    i := BytesFieldBefore(dAtA, i, m.value, 0x62, s0, tail);
    tail := BytesField(0x62, m.value) + tail;
    i := ClosestBefore(dAtA, i, m.closestPeers, s0, tail);
    tail := ClosestField(m.closestPeers) + tail;
    i := IntBefore(dAtA, i, m.clusterLevelRaw, 0x50, s0, tail);
  }

  method MessageMarshalToSizedBuffer<R>(rc: RecordCodec<R>, m: Message<R>, dAtA: array<byte>, end: nat) returns (n: nat)
    requires |EncodeMessage(rc, m)| <= end <= dAtA.Length < TWO_63
    modifies dAtA
    ensures n == |EncodeMessage(rc, m)|
    ensures dAtA[..] == Splice(old(dAtA[..]), end - n, EncodeMessage(rc, m))
  {
    ghost var s0 := dAtA[..];
    SpliceNothing(s0, end);
    var i := RearBefore(m, dAtA, end, s0);
    i := PeersBefore(dAtA, i, m.providerPeers, 0x4a, s0, Rear(m));
    i := PeersBefore(dAtA, i, m.closerPeers, 0x42, s0, ChunkFields(0x4a, EncodePeers(m.providerPeers)) + Rear(m));
    i := RecordBefore(rc, dAtA, i, m.record, s0, PeerFields(m));
    ghost var tail := RecordField(rc, m.record) + PeerFields(m);
    i := BytesFieldBefore(dAtA, i, m.key, 0x12, s0, tail);
    tail := BytesField(0x12, m.key) + tail;
    i := IntBefore(dAtA, i, m.kind, 0x08, s0, tail);
    n := end - i;
  }

  /** The marshalled message: the computed size is exactly filled. */
  method MessageMarshal<R>(rc: RecordCodec<R>, m: Message<R>) returns (dAtA: array<byte>)
    requires |EncodeMessage(rc, m)| < TWO_63
    ensures fresh(dAtA) && dAtA[..] == EncodeMessage(rc, m)
  {
    var size := MessageSize(rc, m);
    dAtA := new byte[size](_ => 0);
    var n := MessageMarshalToSizedBuffer(rc, m, dAtA, size);
    assert n == size;
  }

  // ----- parsing -----

  lemma NextSuffix(s: Bytes, i: nat, n: nat)
    requires i + n <= |s|
    ensures s[i..][n..] == s[i + n..]
  {
  }

  lemma PeerAdvances(m: Peer, dAtA: Bytes, i: nat)
    requires i < |dAtA|
    ensures var s, rest := PeerStep(m, dAtA[i..], |dAtA|), DecodePeer(m, dAtA[i..], |dAtA|);
            if s.Err? then rest == Err(s.error)
            else i + s.value.n <= |dAtA| && rest == DecodePeer(s.value.m, dAtA[i + s.value.n..], |dAtA|)
  {
  }

  lemma PeerEnds(m: Peer, total: nat)
    ensures DecodePeer(m, [], total) == Ok(m)
  {
  }

  method PeerUnmarshal(dAtA: Bytes, start: Peer) returns (r: Result<Peer>)
    requires |dAtA| < TWO_63
    ensures r == DecodePeer(start, dAtA, |dAtA|)
  {
    var m, iNdEx := start, 0;
    ghost var whole := DecodePeer(start, dAtA, |dAtA|);
    assert dAtA[0..] == dAtA;
    while iNdEx < |dAtA|
      invariant 0 <= iNdEx <= |dAtA|
      invariant whole == DecodePeer(m, dAtA[iNdEx..], |dAtA|)
      decreases |dAtA| - iNdEx
    {
      PeerAdvances(m, dAtA, iNdEx);
      var s := PeerField(dAtA, iNdEx, m);
      if s.Err? {
        return Err(s.error);
      }
      m, iNdEx := s.value.m, iNdEx + s.value.n;
    }
    assert dAtA[iNdEx..] == [];
    PeerEnds(m, |dAtA|);
    return Ok(m);
  }

  /** The body of Peer's parse loop. */
  method PeerField(dAtA: Bytes, iNdEx: nat, m: Peer) returns (r: Result<Moved<Peer>>)
    requires iNdEx <= |dAtA| < TWO_63
    ensures r == PeerStep(m, dAtA[iNdEx..], |dAtA|)
  {
    var tag := ReadTag(dAtA, iNdEx);
    if tag.Err? {
      return Err(tag.error);
    }
    var Tag(fieldNum, wireType, n) := tag.value;
    NextSuffix(dAtA, iNdEx, n);
    if fieldNum == 1 || fieldNum == 2 {
      if wireType != 2 {
        return Err(WrongWireType);
      }
      var c := ReadChunk(dAtA, iNdEx + n);
      if c.Err? {
        return Err(c.error);
      }
      var m' := if fieldNum == 1 then m.(id := c.value.bytes) else m.(addrs := m.addrs + [c.value.bytes]);
      return Ok(Moved(m', n + c.value.n));
    } else if fieldNum == 3 {
      if wireType != 0 {
        return Err(WrongWireType);
      }
      var v := ReadInt32(dAtA, iNdEx + n);
      if v.Err? {
        return Err(v.error);
      }
      return Ok(Moved(m.(connection := ToInt32(v.value.raw)), n + v.value.n));
    }
    var skippy := SkipUnknown(dAtA, iNdEx);
    if skippy.Err? {
      return Err(skippy.error);
    }
    assert dAtA[iNdEx..][..skippy.value] == dAtA[iNdEx..iNdEx + skippy.value];
    return Ok(Moved(m.(unrecognized := m.unrecognized + dAtA[iNdEx..iNdEx + skippy.value]), skippy.value));
  }

  lemma ClosestAdvances(m: ClosestPeers, dAtA: Bytes, i: nat)
    requires i < |dAtA|
    ensures var s, rest := ClosestStep(m, dAtA[i..], |dAtA|), DecodeClosest(m, dAtA[i..], |dAtA|);
            if s.Err? then rest == Err(s.error)
            else i + s.value.n <= |dAtA| && rest == DecodeClosest(s.value.m, dAtA[i + s.value.n..], |dAtA|)
  {
  }

  lemma ClosestEnds(m: ClosestPeers, total: nat)
    ensures DecodeClosest(m, [], total) == Ok(m)
  {
  }

  method ClosestUnmarshal(dAtA: Bytes, start: ClosestPeers) returns (r: Result<ClosestPeers>)
    requires |dAtA| < TWO_63
    ensures r == DecodeClosest(start, dAtA, |dAtA|)
  {
    var m, iNdEx := start, 0;
    ghost var whole := DecodeClosest(start, dAtA, |dAtA|);
    assert dAtA[0..] == dAtA;
    while iNdEx < |dAtA|
      invariant 0 <= iNdEx <= |dAtA|
      invariant whole == DecodeClosest(m, dAtA[iNdEx..], |dAtA|)
      decreases |dAtA| - iNdEx
    {
      ClosestAdvances(m, dAtA, iNdEx);
      var s := ClosestFieldAt(dAtA, iNdEx, m);
      if s.Err? {
        return Err(s.error);
      }
      m, iNdEx := s.value.m, iNdEx + s.value.n;
    }
    assert dAtA[iNdEx..] == [];
    ClosestEnds(m, |dAtA|);
    return Ok(m);
  }

  /** The body of ClosestPeers' parse loop. */
  method ClosestFieldAt(dAtA: Bytes, iNdEx: nat, m: ClosestPeers) returns (r: Result<Moved<ClosestPeers>>)
    requires iNdEx <= |dAtA| < TWO_63
    ensures r == ClosestStep(m, dAtA[iNdEx..], |dAtA|)
  {
    var tag := ReadTag(dAtA, iNdEx);
    if tag.Err? {
      return Err(tag.error);
    }
    var Tag(fieldNum, wireType, n) := tag.value;
    NextSuffix(dAtA, iNdEx, n);
    if fieldNum == 1 {
      if wireType != 2 {
        return Err(WrongWireType);
      }
      var c := ReadChunk(dAtA, iNdEx + n);
      if c.Err? {
        return Err(c.error);
      }
      return Ok(Moved(m.(self := c.value.bytes), n + c.value.n));
    } else if fieldNum == 2 {
      if wireType != 0 {
        return Err(WrongWireType);
      }
      var v := ReadInt32(dAtA, iNdEx + n);
      if v.Err? {
        return Err(v.error);
      }
      return Ok(Moved(m.(mode := ToInt32(v.value.raw)), n + v.value.n));
    }
    var skippy := SkipUnknown(dAtA, iNdEx);
    if skippy.Err? {
      return Err(skippy.error);
    }
    assert dAtA[iNdEx..][..skippy.value] == dAtA[iNdEx..iNdEx + skippy.value];
    return Ok(Moved(m.(unrecognized := m.unrecognized + dAtA[iNdEx..iNdEx + skippy.value]), skippy.value));
  }

  /** A payload goes where its field number says; nested messages are parsed from it. */
  method StoreChunk<R>(rc: RecordCodec<R>, m: Message<R>, fieldNum: int, b: Bytes) returns (r: Result<Message<R>>)
    requires |b| < TWO_63
    ensures r == ChunkInto(rc, m, fieldNum, b)
  {
    if fieldNum == 2 {
      return Ok(m.(key := b));
    } else if fieldNum == 3 {
      var record := rc.merge(if m.record.None? then rc.zero else m.record.value, b);
      if record.None? {
        return Err(BadRecord);
      }
      return Ok(m.(record := record));
    } else if fieldNum == 8 || fieldNum == 9 {
      var p := PeerUnmarshal(b, NO_PEER);
      if p.Err? {
        return Err(p.error);
      }
      return Ok(if fieldNum == 8 then m.(closerPeers := m.closerPeers + [p.value])
          else m.(providerPeers := m.providerPeers + [p.value]));
    } else if fieldNum == 11 {
      var c := ClosestUnmarshal(b, if m.closestPeers.None? then NO_CLOSEST else m.closestPeers.value);
      if c.Err? {
        return Err(c.error);
      }
      return Ok(m.(closestPeers := Some(c.value)));
    }
    return Ok(m.(value := b));
  }

  method MessageIntField<R>(dAtA: Bytes, i: nat, m: Message<R>, fieldNum: int, n: nat)
    returns (r: Result<Moved<Message<R>>>)
    requires i <= |dAtA| < TWO_63
    ensures r == MessageIntStep(m, fieldNum, dAtA[i..], n)
  {
    var v := ReadInt32(dAtA, i);
    if v.Err? {
      return Err(v.error);
    }
    var x := ToInt32(v.value.raw);
    return Ok(Moved(if fieldNum == 1 then m.(kind := x) else m.(clusterLevelRaw := x), n + v.value.n));
  }

  method MessageChunkField<R>(rc: RecordCodec<R>, dAtA: Bytes, i: nat, m: Message<R>, fieldNum: int, n: nat)
    returns (r: Result<Moved<Message<R>>>)
    requires i <= |dAtA| < TWO_63
    ensures r == MessageChunkStep(rc, m, fieldNum, dAtA[i..], |dAtA|, n)
  {
    var c := ReadChunk(dAtA, i);
    if c.Err? {
      return Err(c.error);
    }
    var m' := StoreChunk(rc, m, fieldNum, c.value.bytes);
    if m'.Err? {
      return Err(m'.error);
    }
    return Ok(Moved(m'.value, n + c.value.n));
  }

  /** The body of Message's parse loop. */
  method MessageField<R>(rc: RecordCodec<R>, dAtA: Bytes, iNdEx: nat, m: Message<R>)
    returns (r: Result<Moved<Message<R>>>)
    requires iNdEx <= |dAtA| < TWO_63
    ensures r == MessageStep(rc, m, dAtA[iNdEx..], |dAtA|)
  {
    var tag := ReadTag(dAtA, iNdEx);
    if tag.Err? {
      return Err(tag.error);
    }
    var Tag(fieldNum, wireType, n) := tag.value;
    NextSuffix(dAtA, iNdEx, n);
    if fieldNum in {1, 10} {
      if wireType != 0 {
        return Err(WrongWireType);
      }
      r := MessageIntField(dAtA, iNdEx + n, m, fieldNum, n);
      return;
    } else if fieldNum in {2, 3, 8, 9, 11, 12} {
      if wireType != 2 {
        return Err(WrongWireType);
      }
      r := MessageChunkField(rc, dAtA, iNdEx + n, m, fieldNum, n);
      return;
    }
    var skippy := SkipUnknown(dAtA, iNdEx);
    if skippy.Err? {
      return Err(skippy.error);
    }
    assert dAtA[iNdEx..][..skippy.value] == dAtA[iNdEx..iNdEx + skippy.value];
    return Ok(Moved(m.(unrecognized := m.unrecognized + dAtA[iNdEx..iNdEx + skippy.value]), skippy.value));
  }

  lemma MessageAdvances<R>(rc: RecordCodec<R>, m: Message<R>, dAtA: Bytes, i: nat)
    requires i < |dAtA|
    ensures var s, rest := MessageStep(rc, m, dAtA[i..], |dAtA|), DecodeMessage(rc, m, dAtA[i..], |dAtA|);
            if s.Err? then rest == Err(s.error)
            else i + s.value.n <= |dAtA| && rest == DecodeMessage(rc, s.value.m, dAtA[i + s.value.n..], |dAtA|)
  {
  }

  lemma MessageEnds<R>(rc: RecordCodec<R>, m: Message<R>, total: nat)
    ensures DecodeMessage(rc, m, [], total) == Ok(m)
  {
  }

  method MessageUnmarshal<R>(rc: RecordCodec<R>, dAtA: Bytes, start: Message<R>) returns (r: Result<Message<R>>)
    requires |dAtA| < TWO_63
    ensures r == DecodeMessage(rc, start, dAtA, |dAtA|)
  {
    var m, iNdEx := start, 0;
    ghost var whole := DecodeMessage(rc, start, dAtA, |dAtA|);
    assert dAtA[0..] == dAtA;
    while iNdEx < |dAtA|
      invariant 0 <= iNdEx <= |dAtA|
      invariant whole == DecodeMessage(rc, m, dAtA[iNdEx..], |dAtA|)
      decreases |dAtA| - iNdEx
    {
      MessageAdvances(rc, m, dAtA, iNdEx);
      var s := MessageField(rc, dAtA, iNdEx, m);
      if s.Err? {
        return Err(s.error);
      }
      m, iNdEx := s.value.m, iNdEx + s.value.n;
    }
    assert dAtA[iNdEx..] == [];
    MessageEnds(rc, m, |dAtA|);
    return Ok(m);
  }
}
