/**
 Round trips: what is marshalled is unmarshalled to the same message, exactly for the messages whose unknown
 bytes are whole unknown fields, which is what every unmarshalled message has.
 */
module MessageLaws {
  import opened Integers
  import opened Varint
  import opened Wire
  import opened Messages
  import opened Wrappers

  // ----- one field -----

  /** The parser at a length-delimited field: its tag, its payload, and what follows. */
  lemma AtChunkField(tag: byte, b: Bytes, rest: Bytes, total: nat)
    requires 8 <= tag < 128 && tag % 8 == 2
    requires |ChunkField(tag, b) + rest| <= total < TWO_63
    ensures var t := ChunkField(tag, b) + rest;
            && TagAt(t) == Ok(Tag((tag / 8) as int, 2, 1))
            && ChunkAt(t[1..], total) == Ok(Chunk(b, |ChunkField(tag, b)| - 1))
            && t[|ChunkField(tag, b)|..] == rest
  {
    var t := ChunkField(tag, b) + rest;
    assert t == [tag] + (EncodeChunk(b) + rest);
    TagRoundTrip(tag, EncodeChunk(b) + rest);
    assert t[1..] == EncodeChunk(b) + rest;
    ChunkRoundTrip(b, rest, total);
  }

  /** The parser at an integer field. */
  lemma AtIntField(tag: byte, x: int32, rest: Bytes)
    requires 8 <= tag < 128 && tag % 8 == 0 && x != 0
    ensures var t := IntField(tag, x) + rest;
            && TagAt(t) == Ok(Tag((tag / 8) as int, 0, 1))
            && VarintAt(t[1..], 0).Ok?
            && ToInt32(VarintAt(t[1..], 0).value.raw) == x
            && VarintAt(t[1..], 0).value.n == |IntField(tag, x)| - 1
            && t[|IntField(tag, x)|..] == rest
  {
    var v := EncodeVarint(SignExtend(x));
    var t := IntField(tag, x) + rest;
    assert t == [tag] + (v + rest);
    TagRoundTrip(tag, v + rest);
    assert t[1..] == v + rest;
    Int32RoundTrip(x, rest);
  }

  // ----- peers -----

  lemma PeerReadsChunk(m: Peer, tag: byte, b: Bytes, rest: Bytes, total: nat)
    requires tag == 0x0a || tag == 0x12
    requires |ChunkField(tag, b) + rest| <= total < TWO_63
    ensures DecodePeer(m, ChunkField(tag, b) + rest, total) ==
            DecodePeer(if tag == 0x0a then m.(id := b) else m.(addrs := m.addrs + [b]), rest, total)
  {
    AtChunkField(tag, b, rest, total);
  }

  lemma ChunkFieldsCons(tag: byte, bs: seq<Bytes>, rest: Bytes)
    requires bs != []
    ensures ChunkFields(tag, bs) + rest == ChunkField(tag, bs[0]) + (ChunkFields(tag, bs[1..]) + rest)
  {
  }

  lemma PeerReadsFirstAddr(m: Peer, bs: seq<Bytes>, rest: Bytes, total: nat)
    requires bs != [] && |ChunkFields(0x12, bs) + rest| <= total < TWO_63
    ensures DecodePeer(m, ChunkFields(0x12, bs) + rest, total) ==
            DecodePeer(m.(addrs := m.addrs + [bs[0]]), ChunkFields(0x12, bs[1..]) + rest, total)
  {
    ChunkFieldsCons(0x12, bs, rest);
    PeerReadsChunk(m, 0x12, bs[0], ChunkFields(0x12, bs[1..]) + rest, total);
  }

  lemma {:induction false} PeerReadsAddrs(m: Peer, bs: seq<Bytes>, rest: Bytes, total: nat)
    requires |ChunkFields(0x12, bs) + rest| <= total < TWO_63
    ensures DecodePeer(m, ChunkFields(0x12, bs) + rest, total) == DecodePeer(m.(addrs := m.addrs + bs), rest, total)
    decreases |bs|
  {
    if bs == [] {
      assert ChunkFields(0x12, bs) + rest == rest && m.addrs + bs == m.addrs;
    } else {
      var m1 := m.(addrs := m.addrs + [bs[0]]);
      assert m1.(addrs := m1.addrs + bs[1..]) == m.(addrs := m.addrs + bs);
      PeerReadsFirstAddr(m, bs, rest, total);
      PeerReadsAddrs(m1, bs[1..], rest, total);
    }
  }

  lemma PeerReadsConnection(m: Peer, x: int32, rest: Bytes, total: nat)
    requires m.connection == 0
    ensures DecodePeer(m, IntField(0x18, x) + rest, total) == DecodePeer(m.(connection := x), rest, total)
  {
    if x == 0 {
      assert IntField(0x18, x) + rest == rest;
    } else {
      AtIntField(0x18, x, rest);
    }
  }

  /** What a parser reads before the unknown bytes of an encoded peer. */
  lemma PeerReadsKnown(p: Peer)
    requires |EncodePeer(p)| < TWO_63
    ensures DecodePeer(NO_PEER, EncodePeer(p), |EncodePeer(p)|) ==
            DecodePeer(p.(unrecognized := []), p.unrecognized, |EncodePeer(p)|)
  {
    var total := |EncodePeer(p)|;
    var tail := p.unrecognized;
    var conn := IntField(0x18, p.connection) + tail;
    var addrs := ChunkFields(0x12, p.addrs) + conn;
    PeerReadsChunk(NO_PEER, 0x0a, p.id, addrs, total);
    PeerReadsAddrs(NO_PEER.(id := p.id), p.addrs, conn, total);
    assert [] + p.addrs == p.addrs;
    PeerReadsConnection(Peer(p.id, p.addrs, 0, []), p.connection, tail, total);
  }

  lemma PeerReadsUnknown(m: Peer, u: Bytes, n: nat, total: nat)
    requires n <= |u| <= total < TWO_63 && StartsUnknown(PEER_FIELDS, u, n)
    ensures DecodePeer(m, u, total) == DecodePeer(m.(unrecognized := m.unrecognized + u[..n]), u[n..], total)
  {
    UnknownAtAnyTotal(u, total);
  }

  /** Whole unknown fields are kept. */
  lemma {:induction false} PeerTail(m: Peer, u: Bytes, total: nat)
    requires UnknownFields(PEER_FIELDS, u) && |u| <= total < TWO_63
    ensures DecodePeer(m, u, total) == Ok(m.(unrecognized := m.unrecognized + u))
    decreases |u|
  {
    if u == [] {
      assert m.unrecognized + u == m.unrecognized;
    } else {
      var n := UnknownFieldsFirst(PEER_FIELDS, u);
      assert m.unrecognized + u[..n] + u[n..] == m.unrecognized + u;
      PeerReadsUnknown(m, u, n, total);
      PeerTail(m.(unrecognized := m.unrecognized + u[..n]), u[n..], total);
    }
  }

  predicate WellFormedPeer(p: Peer) { UnknownFields(PEER_FIELDS, p.unrecognized) }

  /** Whatever bytes are parsed, the unknown bytes kept are whole unknown fields. */
  lemma {:induction false} DecodedPeerIsWellFormed(m: Peer, t: Bytes, total: nat)
    requires WellFormedPeer(m) && |m.unrecognized| + |t| <= total < TWO_63
    requires DecodePeer(m, t, total).Ok?
    ensures WellFormedPeer(DecodePeer(m, t, total).value)
    decreases |t|
  {
    if t != [] {
      var s := PeerStep(m, t, total).value;
      if TagAt(t).value.fieldNum !in PEER_FIELDS {
        OneUnknownField(PEER_FIELDS, t, total);
        UnknownFieldsConcat(PEER_FIELDS, m.unrecognized, t[..s.n]);
      }
      DecodedPeerIsWellFormed(s.m, t[s.n..], total);
    }
  }

  /** Unmarshalling a marshalled peer yields the same peer exactly if its unknown bytes are whole unknown fields. */
  lemma PeerRoundTrip(p: Peer)
    requires |EncodePeer(p)| < TWO_63
    ensures DecodePeer(NO_PEER, EncodePeer(p), |EncodePeer(p)|) == Ok(p) <==> WellFormedPeer(p)
  {
    var t := EncodePeer(p);
    PeerReadsKnown(p);
    if WellFormedPeer(p) {
      PeerTail(p.(unrecognized := []), p.unrecognized, |t|);
      assert [] + p.unrecognized == p.unrecognized;
    }
    if DecodePeer(NO_PEER, t, |t|).Ok? {
      DecodedPeerIsWellFormed(NO_PEER, t, |t|);
    }
  }

  /** A byte that is no whole field, kept as unknown, does not survive. */
  lemma LooseByteIsLost()
    ensures var p := Peer([], [], 0, [4]);
            !WellFormedPeer(p) && DecodePeer(NO_PEER, EncodePeer(p), |EncodePeer(p)|) != Ok(p)
  {
    var p := Peer([], [], 0, [4]);
    assert TagAt([4]).Err?;
    assert EncodeVarint(0) == [0];
    assert EncodePeer(p) == [0x0a, 0, 4];
    PeerRoundTrip(p);
  }

  // ----- closest peers -----

  lemma ClosestReadsSelf(m: ClosestPeers, b: Bytes, rest: Bytes, total: nat)
    requires m.self == [] && |BytesField(0x0a, b) + rest| <= total < TWO_63
    ensures DecodeClosest(m, BytesField(0x0a, b) + rest, total) == DecodeClosest(m.(self := b), rest, total)
  {
    if b == [] {
      assert BytesField(0x0a, b) + rest == rest;
    } else {
      AtChunkField(0x0a, b, rest, total);
    }
  }

  lemma ClosestReadsMode(m: ClosestPeers, x: int32, rest: Bytes, total: nat)
    requires m.mode == 0
    ensures DecodeClosest(m, IntField(0x10, x) + rest, total) == DecodeClosest(m.(mode := x), rest, total)
  {
    if x == 0 {
      assert IntField(0x10, x) + rest == rest;
    } else {
      AtIntField(0x10, x, rest);
    }
  }

  /** What a parser reads before the unknown bytes of encoded closest peers. */
  lemma ClosestReadsKnown(c: ClosestPeers)
    requires |EncodeClosest(c)| < TWO_63
    ensures DecodeClosest(NO_CLOSEST, EncodeClosest(c), |EncodeClosest(c)|) ==
            DecodeClosest(c.(unrecognized := []), c.unrecognized, |EncodeClosest(c)|)
  {
    var total, mode := |EncodeClosest(c)|, IntField(0x10, c.mode) + c.unrecognized;
    ClosestReadsSelf(NO_CLOSEST, c.self, mode, total);
    ClosestReadsMode(ClosestPeers(c.self, 0, []), c.mode, c.unrecognized, total);
  }

  lemma ClosestReadsUnknown(m: ClosestPeers, u: Bytes, n: nat, total: nat)
    requires n <= |u| <= total < TWO_63 && StartsUnknown(CLOSEST_FIELDS, u, n)
    ensures DecodeClosest(m, u, total) == DecodeClosest(m.(unrecognized := m.unrecognized + u[..n]), u[n..], total)
  {
    UnknownAtAnyTotal(u, total);
  }

  lemma {:induction false} ClosestTail(m: ClosestPeers, u: Bytes, total: nat)
    requires UnknownFields(CLOSEST_FIELDS, u) && |u| <= total < TWO_63
    ensures DecodeClosest(m, u, total) == Ok(m.(unrecognized := m.unrecognized + u))
    decreases |u|
  {
    if u == [] {
      assert m.unrecognized + u == m.unrecognized;
    } else {
      var n := UnknownFieldsFirst(CLOSEST_FIELDS, u);
      assert m.unrecognized + u[..n] + u[n..] == m.unrecognized + u;
      ClosestReadsUnknown(m, u, n, total);
      ClosestTail(m.(unrecognized := m.unrecognized + u[..n]), u[n..], total);
    }
  }

  predicate WellFormedClosest(c: ClosestPeers) { UnknownFields(CLOSEST_FIELDS, c.unrecognized) }

  lemma {:induction false} DecodedClosestIsWellFormed(m: ClosestPeers, t: Bytes, total: nat)
    requires WellFormedClosest(m) && |m.unrecognized| + |t| < TWO_63 && |t| <= total < TWO_63
    requires DecodeClosest(m, t, total).Ok?
    ensures WellFormedClosest(DecodeClosest(m, t, total).value)
    ensures |DecodeClosest(m, t, total).value.unrecognized| <= |m.unrecognized| + |t|
    decreases |t|
  {
    if t != [] {
      var s := ClosestStep(m, t, total).value;
      if TagAt(t).value.fieldNum !in CLOSEST_FIELDS {
        OneUnknownField(CLOSEST_FIELDS, t, total);
        UnknownFieldsConcat(CLOSEST_FIELDS, m.unrecognized, t[..s.n]);
      }
      DecodedClosestIsWellFormed(s.m, t[s.n..], total);
    }
  }

  lemma ClosestRoundTrip(c: ClosestPeers)
    requires |EncodeClosest(c)| < TWO_63
    ensures DecodeClosest(NO_CLOSEST, EncodeClosest(c), |EncodeClosest(c)|) == Ok(c) <==> WellFormedClosest(c)
  {
    var t := EncodeClosest(c);
    ClosestReadsKnown(c);
    if WellFormedClosest(c) {
      ClosestTail(c.(unrecognized := []), c.unrecognized, |t|);
      assert [] + c.unrecognized == c.unrecognized;
    }
    if DecodeClosest(NO_CLOSEST, t, |t|).Ok? {
      DecodedClosestIsWellFormed(NO_CLOSEST, t, |t|);
    }
  }

  // ----- messages -----

  lemma MessageReadsInt<R>(rc: RecordCodec<R>, m: Message<R>, tag: byte, x: int32, rest: Bytes, total: nat)
    requires (tag == 0x08 && m.kind == 0) || (tag == 0x50 && m.clusterLevelRaw == 0)
    ensures DecodeMessage(rc, m, IntField(tag, x) + rest, total) ==
            DecodeMessage(rc, if tag == 0x08 then m.(kind := x) else m.(clusterLevelRaw := x), rest, total)
  {
    if x == 0 {
      assert IntField(tag, x) + rest == rest;
    } else {
      AtIntField(tag, x, rest);
    }
  }

  lemma MessageReadsChunk<R>(rc: RecordCodec<R>, m: Message<R>, tag: byte, b: Bytes, rest: Bytes, total: nat)
    requires tag in {0x12, 0x1a, 0x42, 0x4a, 0x5a, 0x62}
    requires |ChunkField(tag, b) + rest| <= total < TWO_63
    ensures var r := ChunkInto(rc, m, (tag / 8) as int, b);
            DecodeMessage(rc, m, ChunkField(tag, b) + rest, total) ==
            if r.Err? then Err(r.error) else DecodeMessage(rc, r.value, rest, total)
  {
    AtChunkField(tag, b, rest, total);
  }

  lemma MessageReadsBytes<R>(rc: RecordCodec<R>, m: Message<R>, tag: byte, b: Bytes, rest: Bytes, total: nat)
    requires (tag == 0x12 && m.key == []) || (tag == 0x62 && m.value == [])
    requires |BytesField(tag, b) + rest| <= total < TWO_63
    ensures DecodeMessage(rc, m, BytesField(tag, b) + rest, total) ==
            DecodeMessage(rc, if tag == 0x12 then m.(key := b) else m.(value := b), rest, total)
  {
    if b == [] {
      assert BytesField(tag, b) + rest == rest;
    } else {
      MessageReadsChunk(rc, m, tag, b, rest, total);
    }
  }

  ghost predicate Faithful<R(!new)>(rc: RecordCodec<R>) {
    forall r :: rc.merge(rc.zero, rc.encode(r)) == Some(r)
  }

  lemma MessageReadsRecord<R(!new)>(rc: RecordCodec<R>, m: Message<R>, r: Option<R>, rest: Bytes, total: nat)
    requires Faithful(rc) && m.record.None?
    requires |RecordField(rc, r) + rest| <= total < TWO_63
    ensures DecodeMessage(rc, m, RecordField(rc, r) + rest, total) == DecodeMessage(rc, m.(record := r), rest, total)
  {
    if r.None? {
      assert RecordField(rc, r) + rest == rest;
    } else {
      MessageReadsChunk(rc, m, 0x1a, rc.encode(r.value), rest, total);
    }
  }

  function WithPeers<R>(m: Message<R>, tag: byte, ps: seq<Peer>): Message<R> {
    if tag == 0x42 then m.(closerPeers := m.closerPeers + ps) else m.(providerPeers := m.providerPeers + ps)
  }

  lemma WithMorePeers<R>(m: Message<R>, tag: byte, a: seq<Peer>, b: seq<Peer>)
    ensures WithPeers(WithPeers(m, tag, a), tag, b) == WithPeers(m, tag, a + b)
    ensures WithPeers(m, tag, []) == m
  {
  }

  lemma PeerInto<R>(rc: RecordCodec<R>, m: Message<R>, tag: byte, p: Peer)
    requires (tag == 0x42 || tag == 0x4a) && WellFormedPeer(p) && |EncodePeer(p)| < TWO_63
    ensures ChunkInto(rc, m, (tag / 8) as int, EncodePeer(p)) == Ok(WithPeers(m, tag, [p]))
  {
    PeerRoundTrip(p);
  }

  lemma MessageReadsPeer<R>(rc: RecordCodec<R>, m: Message<R>, tag: byte, p: Peer, rest: Bytes, total: nat)
    requires (tag == 0x42 || tag == 0x4a) && WellFormedPeer(p)
    requires |ChunkField(tag, EncodePeer(p)) + rest| <= total < TWO_63
    ensures DecodeMessage(rc, m, ChunkField(tag, EncodePeer(p)) + rest, total) ==
            DecodeMessage(rc, WithPeers(m, tag, [p]), rest, total)
  {
    PeerInto(rc, m, tag, p);
    MessageReadsChunk(rc, m, tag, EncodePeer(p), rest, total);
  }

  lemma {:induction false} MessageReadsPeers<R>(rc: RecordCodec<R>, m: Message<R>, tag: byte, ps: seq<Peer>,
        rest: Bytes, total: nat)
    requires tag == 0x42 || tag == 0x4a
    requires forall i :: 0 <= i < |ps| ==> WellFormedPeer(ps[i])
    requires |ChunkFields(tag, EncodePeers(ps)) + rest| <= total < TWO_63
    ensures DecodeMessage(rc, m, ChunkFields(tag, EncodePeers(ps)) + rest, total) ==
            DecodeMessage(rc, WithPeers(m, tag, ps), rest, total)
    decreases |ps|
  {
    if ps == [] {
      assert ChunkFields(tag, EncodePeers(ps)) + rest == rest;
      WithMorePeers(m, tag, [], []);
    } else {
      var p, qs := ps[0], ps[1..];
      var more := ChunkFields(tag, EncodePeers(qs)) + rest;
      assert EncodePeers(ps)[1..] == EncodePeers(qs);
      ChunkFieldsCons(tag, EncodePeers(ps), rest);
      MessageReadsPeer(rc, m, tag, p, more, total);
      MessageReadsPeers(rc, WithPeers(m, tag, [p]), tag, qs, rest, total);
      WithMorePeers(m, tag, [p], qs);
      assert [p] + qs == ps;
    }
  }

  lemma ClosestChunkInto<R>(rc: RecordCodec<R>, m: Message<R>, b: Bytes, c: ClosestPeers)
    requires m.closestPeers.None? && DecodeClosest(NO_CLOSEST, b, |b|) == Ok(c)
    ensures ChunkInto(rc, m, 11, b) == Ok(m.(closestPeers := Some(c)))
  {
  }

  lemma ClosestInto<R>(rc: RecordCodec<R>, m: Message<R>, c: ClosestPeers)
    requires m.closestPeers.None? && WellFormedClosest(c) && |EncodeClosest(c)| < TWO_63
    ensures ChunkInto(rc, m, 11, EncodeClosest(c)) == Ok(m.(closestPeers := Some(c)))
  {
    ClosestRoundTrip(c);
    ClosestChunkInto(rc, m, EncodeClosest(c), c);
  }

  lemma MessageReadsSomeClosest<R>(rc: RecordCodec<R>, m: Message<R>, c: ClosestPeers, rest: Bytes, total: nat)
    requires m.closestPeers.None? && WellFormedClosest(c)
    requires |ChunkField(0x5a, EncodeClosest(c)) + rest| <= total < TWO_63
    ensures DecodeMessage(rc, m, ChunkField(0x5a, EncodeClosest(c)) + rest, total) ==
            DecodeMessage(rc, m.(closestPeers := Some(c)), rest, total)
  {
    ClosestInto(rc, m, c);
    MessageReadsChunk(rc, m, 0x5a, EncodeClosest(c), rest, total);
  }

  lemma MessageReadsClosest<R>(rc: RecordCodec<R>, m: Message<R>, c: Option<ClosestPeers>, rest: Bytes, total: nat)
    requires m.closestPeers.None? && (c.Some? ==> WellFormedClosest(c.value))
    requires |ClosestField(c) + rest| <= total < TWO_63
    ensures DecodeMessage(rc, m, ClosestField(c) + rest, total) == DecodeMessage(rc, m.(closestPeers := c), rest, total)
  {
    if c.None? {
      assert ClosestField(c) + rest == rest;
    } else {
      MessageReadsSomeClosest(rc, m, c.value, rest, total);
    }
  }

  lemma MessageReadsUnknown<R>(rc: RecordCodec<R>, m: Message<R>, u: Bytes, n: nat, total: nat)
    requires n <= |u| <= total < TWO_63 && StartsUnknown(MESSAGE_FIELDS, u, n)
    ensures DecodeMessage(rc, m, u, total) ==
        DecodeMessage(rc, m.(unrecognized := m.unrecognized + u[..n]), u[n..], total)
  {
    UnknownAtAnyTotal(u, total);
  }

  lemma {:induction false} MessageTail<R>(rc: RecordCodec<R>, m: Message<R>, u: Bytes, total: nat)
    requires UnknownFields(MESSAGE_FIELDS, u) && |u| <= total < TWO_63
    ensures DecodeMessage(rc, m, u, total) == Ok(m.(unrecognized := m.unrecognized + u))
    decreases |u|
  {
    if u == [] {
      assert m.unrecognized + u == m.unrecognized;
    } else {
      var n := UnknownFieldsFirst(MESSAGE_FIELDS, u);
      assert m.unrecognized + u[..n] + u[n..] == m.unrecognized + u;
      MessageReadsUnknown(rc, m, u, n, total);
      MessageTail(rc, m.(unrecognized := m.unrecognized + u[..n]), u[n..], total);
    }
  }

  ghost predicate WellFormedMessage<R>(m: Message<R>) {
    && (forall i :: 0 <= i < |m.closerPeers| ==> WellFormedPeer(m.closerPeers[i]))
    && (forall i :: 0 <= i < |m.providerPeers| ==> WellFormedPeer(m.providerPeers[i]))
    && (m.closestPeers.Some? ==> WellFormedClosest(m.closestPeers.value))
    && UnknownFields(MESSAGE_FIELDS, m.unrecognized)
  }

  lemma MessageReadsRear<R(!new)>(rc: RecordCodec<R>, m: Message<R>, total: nat)
    requires WellFormedMessage(m) && |Rear(m)| <= total < TWO_63
    ensures DecodeMessage(rc, Message(m.kind, m.key, m.record, m.closerPeers, m.providerPeers, 0, None, [], []),
        Rear(m), total) == Ok(m)
  {
    var u := m.unrecognized;
    var t7 := BytesField(0x62, m.value) + u;
    var t6 := ClosestField(m.closestPeers) + t7;
    var m5 := Message(m.kind, m.key, m.record, m.closerPeers, m.providerPeers, 0, None, [], []);
    var m6 := m5.(clusterLevelRaw := m.clusterLevelRaw);
    var m7 := m6.(closestPeers := m.closestPeers);
    assert [] + u == u;
    MessageReadsInt(rc, m5, 0x50, m.clusterLevelRaw, t6, total);
    MessageReadsClosest(rc, m6, m.closestPeers, t7, total);
    MessageReadsBytes(rc, m7, 0x62, m.value, u, total);
    MessageTail(rc, m7.(value := m.value), u, total);
  }

  lemma MessageReadsMiddle<R(!new)>(rc: RecordCodec<R>, m: Message<R>, total: nat)
    requires WellFormedMessage(m) && |PeerFields(m)| <= total < TWO_63
    ensures DecodeMessage(rc, Message(m.kind, m.key, m.record, [], [], 0, None, [], []), PeerFields(m), total) == Ok(m)
  {
    var m3 := Message(m.kind, m.key, m.record, [], [], 0, None, [], []);
    var m4 := m3.(closerPeers := m.closerPeers);
    assert [] + m.closerPeers == m.closerPeers && [] + m.providerPeers == m.providerPeers;
    MessageReadsPeers(rc, m3, 0x42, m.closerPeers, ChunkFields(0x4a, EncodePeers(m.providerPeers)) + Rear(m), total);
    MessageReadsPeers(rc, m4, 0x4a, m.providerPeers, Rear(m), total);
    MessageReadsRear(rc, m, total);
  }

  lemma MessageReadsBack<R(!new)>(rc: RecordCodec<R>, m: Message<R>)
    requires Faithful(rc) && WellFormedMessage(m) && |EncodeMessage(rc, m)| < TWO_63
    ensures DecodeMessage(rc, NoMessage(), EncodeMessage(rc, m), |EncodeMessage(rc, m)|) == Ok(m)
  {
    var total := |EncodeMessage(rc, m)|;
    var t2 := RecordField(rc, m.record) + PeerFields(m);
    var t1 := BytesField(0x12, m.key) + t2;
    var m0: Message<R> := NoMessage();
    var m1 := m0.(kind := m.kind);
    var m2 := m1.(key := m.key);
    MessageReadsInt(rc, m0, 0x08, m.kind, t1, total);
    MessageReadsBytes(rc, m1, 0x12, m.key, t2, total);
    MessageReadsRecord(rc, m2, m.record, PeerFields(m), total);
    MessageReadsMiddle(rc, m, total);
  }

  lemma ChunkIntoKeepsWellFormed<R>(rc: RecordCodec<R>, m: Message<R>, fieldNum: int, b: Bytes)
    requires WellFormedMessage(m) && |b| < TWO_63 && ChunkInto(rc, m, fieldNum, b).Ok?
    requires m.closestPeers.Some? ==> |m.closestPeers.value.unrecognized| + |b| < TWO_63
    ensures WellFormedMessage(ChunkInto(rc, m, fieldNum, b).value)
    ensures ClosestRoom(ChunkInto(rc, m, fieldNum, b).value) <= ClosestRoom(m) + |b|
    ensures ChunkInto(rc, m, fieldNum, b).value.unrecognized == m.unrecognized
  {
    if fieldNum == 8 || fieldNum == 9 {
      DecodedPeerIsWellFormed(NO_PEER, b, |b|);
    } else if fieldNum == 11 {
      DecodedClosestIsWellFormed(if m.closestPeers.None? then NO_CLOSEST else m.closestPeers.value, b, |b|);
    }
  }

  /** Unknown bytes collected so far by a nested message that repeated fields merge into. */
  function ClosestRoom<R>(m: Message<R>): nat {
    if m.closestPeers.None? then 0 else |m.closestPeers.value.unrecognized|
  }

  /** Room for t more unknown bytes, in the message and in the nested one. */
  predicate HasRoom<R>(m: Message<R>, t: Bytes) {
    |m.unrecognized| + |t| < TWO_63 && ClosestRoom(m) + |t| < TWO_63
  }

  lemma MessageStepKeepsWellFormed<R>(rc: RecordCodec<R>, m: Message<R>, t: Bytes, total: nat)
    requires WellFormedMessage(m) && HasRoom(m, t) && |t| <= total < TWO_63
    requires MessageStep(rc, m, t, total).Ok?
    ensures var s := MessageStep(rc, m, t, total).value; WellFormedMessage(s.m) && HasRoom(s.m, t[s.n..])
  {
    var s := MessageStep(rc, m, t, total).value;
    var tag := TagAt(t).value;
    if tag.fieldNum !in MESSAGE_FIELDS {
      OneUnknownField(MESSAGE_FIELDS, t, total);
      UnknownFieldsConcat(MESSAGE_FIELDS, m.unrecognized, t[..s.n]);
    } else if tag.fieldNum in {2, 3, 8, 9, 11, 12} {
      ChunkIntoKeepsWellFormed(rc, m, tag.fieldNum, ChunkAt(t[tag.n..], total).value.bytes);
    }
  }

  lemma {:induction false} DecodedMessageIsWellFormed<R>(rc: RecordCodec<R>, m: Message<R>, t: Bytes, total: nat)
    requires WellFormedMessage(m) && HasRoom(m, t) && |t| <= total < TWO_63
    requires DecodeMessage(rc, m, t, total).Ok?
    ensures WellFormedMessage(DecodeMessage(rc, m, t, total).value)
    decreases |t|
  {
    if t != [] {
      MessageStepKeepsWellFormed(rc, m, t, total);
      var s := MessageStep(rc, m, t, total).value;
      DecodedMessageIsWellFormed(rc, s.m, t[s.n..], total);
    }
  }

  /**
   Unmarshalling a marshalled message yields the same message exactly if all its unknown bytes, nested ones included,
   are whole unknown fields.
   */
  lemma MessageRoundTrip<R(!new)>(rc: RecordCodec<R>, m: Message<R>)
    requires Faithful(rc) && |EncodeMessage(rc, m)| < TWO_63
    ensures DecodeMessage(rc, NoMessage(), EncodeMessage(rc, m), |EncodeMessage(rc, m)|) == Ok(m) <==>
        WellFormedMessage(m)
  {
    var t := EncodeMessage(rc, m);
    if WellFormedMessage(m) {
      MessageReadsBack(rc, m);
    }
    if DecodeMessage(rc, NoMessage(), t, |t|) == Ok(m) {
      DecodedMessageIsWellFormed(rc, NoMessage(), t, |t|);
    }
  }

  /** Whatever parses, parses to a message that survives being written and parsed again. */
  lemma ParsedSurvives<R(!new)>(rc: RecordCodec<R>, t: Bytes)
    requires Faithful(rc) && |t| < TWO_63 && DecodeMessage(rc, NoMessage(), t, |t|).Ok?
    requires |EncodeMessage(rc, DecodeMessage(rc, NoMessage(), t, |t|).value)| < TWO_63
    ensures var m := DecodeMessage(rc, NoMessage(), t, |t|).value;
            DecodeMessage(rc, NoMessage(), EncodeMessage(rc, m), |EncodeMessage(rc, m)|) == Ok(m)
  {
    DecodedMessageIsWellFormed(rc, NoMessage(), t, |t|);
    MessageRoundTrip(rc, DecodeMessage(rc, NoMessage(), t, |t|).value);
  }
}
