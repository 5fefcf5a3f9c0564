/**
 The three generated messages of pb/dht.pb.go: what their encoding is and how their parsers read one field.

 The nested record belongs to another package; it is an opaque codec given as a parameter.
 A nil slice and an empty one are the same value here.
 */
module Messages {
  import opened Integers
  import opened Varint
  import opened Wire
  import opened Wrappers

  datatype Peer = Peer(id: Bytes, addrs: seq<Bytes>, connection: int32, unrecognized: Bytes)

  datatype ClosestPeers = ClosestPeers(self: Bytes, mode: int32, unrecognized: Bytes)

  datatype Message<R> = Message(
    kind: int32,
    key: Bytes,
    record: Option<R>,
    closerPeers: seq<Peer>,
    providerPeers: seq<Peer>,
    clusterLevelRaw: int32,
    closestPeers: Option<ClosestPeers>,
    value: Bytes,
    unrecognized: Bytes)

  const NO_PEER := Peer([], [], 0, [])
  const NO_CLOSEST := ClosestPeers([], 0, [])

  function NoMessage<R>(): Message<R> { Message(0, [], None, [], [], 0, None, [], []) }

  /** The record codec: `merge` parses into an existing record, `zero` is the fresh one. */
  datatype RecordCodec<!R> = RecordCodec(encode: R -> Bytes, merge: (R, Bytes) -> Option<R>, zero: R)

  const PEER_FIELDS: set<int> := {1, 2, 3}
  const CLOSEST_FIELDS: set<int> := {1, 2}
  const MESSAGE_FIELDS: set<int> := {1, 2, 3, 8, 9, 10, 11, 12}

  // ----- encoding -----

  function IntField(tag: byte, x: int32): Bytes {
    if x == 0 then [] else [tag] + EncodeVarint(SignExtend(x))
  }

  function ChunkField(tag: byte, b: Bytes): Bytes { [tag] + EncodeChunk(b) }

  function BytesField(tag: byte, b: Bytes): Bytes { if b == [] then [] else ChunkField(tag, b) }

  function ChunkFields(tag: byte, bs: seq<Bytes>): Bytes {
    if bs == [] then [] else ChunkField(tag, bs[0]) + ChunkFields(tag, bs[1..])
  }

  function EncodePeer(p: Peer): Bytes {
    ChunkField(0x0a, p.id) + (ChunkFields(0x12, p.addrs) + (IntField(0x18, p.connection) + p.unrecognized))
  }

  function EncodeClosest(c: ClosestPeers): Bytes {
    BytesField(0x0a, c.self) + (IntField(0x10, c.mode) + c.unrecognized)
  }

  function EncodePeers(ps: seq<Peer>): (r: seq<Bytes>)
    ensures |r| == |ps|
  {
    if ps == [] then [] else [EncodePeer(ps[0])] + EncodePeers(ps[1..])
  }

  function RecordField<R>(rc: RecordCodec<R>, r: Option<R>): Bytes {
    if r.None? then [] else ChunkField(0x1a, rc.encode(r.value))
  }

  function ClosestField(c: Option<ClosestPeers>): Bytes {
    if c.None? then [] else ChunkField(0x5a, EncodeClosest(c.value))
  }

  /** From the integer field 10 on. */
  function Rear<R>(m: Message<R>): Bytes {
    IntField(0x50, m.clusterLevelRaw) + (ClosestField(m.closestPeers) + (BytesField(0x62, m.value) + m.unrecognized))
  }

  function PeerFields<R>(m: Message<R>): Bytes {
    ChunkFields(0x42, EncodePeers(m.closerPeers)) + (ChunkFields(0x4a, EncodePeers(m.providerPeers)) + Rear(m))
  }

  function EncodeMessage<R>(rc: RecordCodec<R>, m: Message<R>): Bytes {
    IntField(0x08, m.kind) + (BytesField(0x12, m.key) + (RecordField(rc, m.record) + PeerFields(m)))
  }

  // ----- decoding -----

  /** A message after one field, and how many bytes the field took. */
  datatype Moved<M> = Moved(m: M, n: nat)

  function PeerStep(m: Peer, t: Bytes, total: nat): (r: Result<Moved<Peer>>)
    ensures r.Ok? ==> 0 < r.value.n <= |t|
  {
    match TagAt(t)
    case Err(e) => Err(e)
    case Ok(tag) =>
      var rest := t[tag.n..];
      if tag.fieldNum == 1 || tag.fieldNum == 2 then
        if tag.wireType != 2 then Err(WrongWireType)
        else
          match ChunkAt(rest, total)
          case Err(e) => Err(e)
          case Ok(c) =>
            Ok(Moved(if tag.fieldNum == 1 then m.(id := c.bytes) else m.(addrs := m.addrs + [c.bytes]), tag.n + c.n))
      else if tag.fieldNum == 3 then
        if tag.wireType != 0 then Err(WrongWireType)
        else
          match VarintAt(rest, 0)
          case Err(e) => Err(e)
          case Ok(v) => Ok(Moved(m.(connection := ToInt32(v.raw)), tag.n + v.n))
      else
        match UnknownAt(t, total)
        case Err(e) => Err(e)
        case Ok(n) => Ok(Moved(m.(unrecognized := m.unrecognized + t[..n]), n))
  }

  function DecodePeer(m: Peer, t: Bytes, total: nat): Result<Peer>
    decreases |t|
  {
    if t == [] then Ok(m)
    else
      match PeerStep(m, t, total)
      case Err(e) => Err(e)
      case Ok(s) => DecodePeer(s.m, t[s.n..], total)
  }

  function ClosestStep(m: ClosestPeers, t: Bytes, total: nat): (r: Result<Moved<ClosestPeers>>)
    ensures r.Ok? ==> 0 < r.value.n <= |t|
  {
    match TagAt(t)
    case Err(e) => Err(e)
    case Ok(tag) =>
      var rest := t[tag.n..];
      if tag.fieldNum == 1 then
        if tag.wireType != 2 then Err(WrongWireType)
        else
          match ChunkAt(rest, total)
          case Err(e) => Err(e)
          case Ok(c) => Ok(Moved(m.(self := c.bytes), tag.n + c.n))
      else if tag.fieldNum == 2 then
        if tag.wireType != 0 then Err(WrongWireType)
        else
          match VarintAt(rest, 0)
          case Err(e) => Err(e)
          case Ok(v) => Ok(Moved(m.(mode := ToInt32(v.raw)), tag.n + v.n))
      else
        match UnknownAt(t, total)
        case Err(e) => Err(e)
        case Ok(n) => Ok(Moved(m.(unrecognized := m.unrecognized + t[..n]), n))
  }

  function DecodeClosest(m: ClosestPeers, t: Bytes, total: nat): Result<ClosestPeers>
    decreases |t|
  {
    if t == [] then Ok(m)
    else
      match ClosestStep(m, t, total)
      case Err(e) => Err(e)
      case Ok(s) => DecodeClosest(s.m, t[s.n..], total)
  }

  /** Fields that hold a length and a payload. */
  function ChunkInto<R>(rc: RecordCodec<R>, m: Message<R>, fieldNum: int, b: Bytes): Result<Message<R>> {
    if fieldNum == 2 then Ok(m.(key := b))
    else if fieldNum == 3 then
      match rc.merge(if m.record.None? then rc.zero else m.record.value, b)
      case None => Err(BadRecord)
      case Some(r) => Ok(m.(record := Some(r)))
    else if fieldNum == 8 then
      match DecodePeer(NO_PEER, b, |b|)
      case Err(e) => Err(e)
      case Ok(p) => Ok(m.(closerPeers := m.closerPeers + [p]))
    else if fieldNum == 9 then
      match DecodePeer(NO_PEER, b, |b|)
      case Err(e) => Err(e)
      case Ok(p) => Ok(m.(providerPeers := m.providerPeers + [p]))
    else if fieldNum == 11 then
      match DecodeClosest(if m.closestPeers.None? then NO_CLOSEST else m.closestPeers.value, b, |b|)
      case Err(e) => Err(e)
      case Ok(c) => Ok(m.(closestPeers := Some(c)))
    else Ok(m.(value := b))
  }

  function MessageIntStep<R>(m: Message<R>, fieldNum: int, rest: Bytes, n: nat): (r: Result<Moved<Message<R>>>)
    ensures r.Ok? ==> n < r.value.n <= n + |rest|
  {
    match VarintAt(rest, 0)
    case Err(e) => Err(e)
    case Ok(v) =>
      Ok(Moved(if fieldNum == 1 then m.(kind := ToInt32(v.raw)) else m.(clusterLevelRaw := ToInt32(v.raw)), n + v.n))
  }

  function MessageChunkStep<R>(rc: RecordCodec<R>, m: Message<R>, fieldNum: int, rest: Bytes, total: nat, n: nat)
    : (r: Result<Moved<Message<R>>>)
    ensures r.Ok? ==> n < r.value.n <= n + |rest|
  {
    match ChunkAt(rest, total)
    case Err(e) => Err(e)
    case Ok(c) =>
      match ChunkInto(rc, m, fieldNum, c.bytes)
      case Err(e) => Err(e)
      case Ok(m') => Ok(Moved(m', n + c.n))
  }

  function MessageStep<R>(rc: RecordCodec<R>, m: Message<R>, t: Bytes, total: nat): (r: Result<Moved<Message<R>>>)
    ensures r.Ok? ==> 0 < r.value.n <= |t|
  {
    match TagAt(t)
    case Err(e) => Err(e)
    case Ok(tag) =>
      var rest := t[tag.n..];
      if tag.fieldNum in {1, 10} then
        if tag.wireType != 0 then Err(WrongWireType) else MessageIntStep(m, tag.fieldNum, rest, tag.n)
      else if tag.fieldNum in {2, 3, 8, 9, 11, 12} then
        if tag.wireType != 2 then Err(WrongWireType) else MessageChunkStep(rc, m, tag.fieldNum, rest, total, tag.n)
      else
        match UnknownAt(t, total)
        case Err(e) => Err(e)
        case Ok(n) => Ok(Moved(m.(unrecognized := m.unrecognized + t[..n]), n))
  }

  function DecodeMessage<R>(rc: RecordCodec<R>, m: Message<R>, t: Bytes, total: nat): Result<Message<R>>
    decreases |t|
  {
    if t == [] then Ok(m)
    else
      match MessageStep(rc, m, t, total)
      case Err(e) => Err(e)
      case Ok(s) => DecodeMessage(rc, s.m, t[s.n..], total)
  }
}
