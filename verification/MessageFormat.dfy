/**
 What the bytes of a message mean, field by field: the parsers are proved to accept exactly the inputs that are lists of
 fields, and to make of them what `Take...` says of each field in turn. What the printers write is such a list.
 */
module MessageFormat {
  import opened Integers
  import opened Varint
  import opened Wire
  import opened WireFormat
  import opened Messages
  import opened MessageLaws
  import opened Wrappers

  // ----- reading one field -----

  lemma ReadsKey(t: Bytes, f: Field)
    requires Spelled(f) && StandsAt(t, 0, Written(f)) && Num(f) > 0
    ensures TagAt(t) == Ok(Tag(Num(f), WireTypeOf(f.body), |f.key|))
  {
    TagOfField(t, f);
  }

  /** At a field whose payload is a varint. */
  lemma ReadsInt(t: Bytes, f: Field)
    requires Spelled(f) && StandsAt(t, 0, Written(f)) && f.body.VarintBody?
    ensures VarintAt(t[|f.key|..], 0) == Ok(Varint(|Written(f)| - |f.key|, Spells(f.body.v)))
  {
    KeyThenPayload(t, 0, f);
    ReadsVarint(t, |f.key|, f.body.v);
  }

  lemma ReadsLength(t: Bytes, k: nat, len: Bytes, n: nat)
    requires IsVarint(len) && Spells(len) % TWO_64 == n < TWO_63 && StandsAt(t, k, len)
    ensures LengthAt(t[k..]) == Ok(Varint(|len|, n))
  {
    ReadsVarint(t, k, len);
  }

  lemma ChunkIs(rest: Bytes, l: nat, n: nat, total: nat)
    requires LengthAt(rest) == Ok(Varint(l, n)) && l + n <= |rest| <= total < TWO_63
    ensures ChunkAt(rest, total) == Ok(Chunk(rest[l..l + n], l + n))
  {
  }

  lemma ReadsChunk(t: Bytes, k: nat, l: nat, n: nat, total: nat)
    requires k + l + n <= |t| <= total < TWO_63 && LengthAt(t[k..]) == Ok(Varint(l, n))
    ensures ChunkAt(t[k..], total) == Ok(Chunk(t[k + l..k + l + n], l + n))
  {
    ChunkIs(t[k..], l, n, total);
    assert t[k..][l..l + n] == t[k + l..k + l + n];
  }

  lemma LengthFieldParts(t: Bytes, f: Field)
    requires Spelled(f) && StandsAt(t, 0, Written(f)) && f.body.LengthBody?
    ensures var k, l := |f.key|, |f.body.len|;
            && IsVarint(f.body.len) && Spells(f.body.len) % TWO_64 == |f.body.b|
            && StandsAt(t, k, f.body.len) && StandsAt(t, k + l, f.body.b) && |Written(f)| == k + l + |f.body.b|
  {
    KeyThenPayload(t, 0, f);
    StandsParts(t, |f.key|, f.body.len, f.body.b);
  }

  /** At a field whose payload has a length. */
  lemma ReadsBytes(t: Bytes, f: Field, total: nat)
    requires Spelled(f) && StandsAt(t, 0, Written(f)) && f.body.LengthBody? && |t| <= total < TWO_63
    ensures ChunkAt(t[|f.key|..], total) == Ok(Chunk(f.body.b, |Written(f)| - |f.key|))
  {
    LengthFieldParts(t, f);
    ReadsLength(t, |f.key|, f.body.len, |f.body.b|);
    ReadsChunk(t, |f.key|, |f.body.len|, |f.body.b|, total);
  }

  lemma KeyWasRead(t: Bytes)
    requires TagAt(t).Ok?
    ensures var tag := TagAt(t).value;
            IsVarint(t[..tag.n]) && Spells(t[..tag.n]) % 8 == tag.wireType
            && ToInt32(Spells(t[..tag.n]) % TWO_64 / 8) == tag.fieldNum
  {
    ReadIsVarint(t);
    WireTypeOfKey(VarintAt(t, 0).value.raw);
  }

  lemma IntWasRead(t: Bytes) returns (f: Field)
    requires TagAt(t).Ok? && TagAt(t).value.wireType == 0 && VarintAt(t[TagAt(t).value.n..], 0).Ok?
    ensures var tag := TagAt(t).value;
            var v := VarintAt(t[tag.n..], 0).value;
            && Spelled(f) && Num(f) == tag.fieldNum && t[..tag.n + v.n] == Written(f)
            && f.body.VarintBody? && Spells(f.body.v) == v.raw
  {
    var n := TagAt(t).value.n;
    var v := VarintAt(t[n..], 0).value;
    KeyWasRead(t);
    ReadIsVarint(t[n..]);
    f := Field(t[..n], VarintBody(t[n..][..v.n]));
    assert t[..n + v.n] == t[..n] + t[n..][..v.n];
  }

  lemma ChunkWasRead(rest: Bytes, total: nat) returns (len: Bytes)
    requires ChunkAt(rest, total).Ok?
    ensures var c := ChunkAt(rest, total).value;
            IsVarint(len) && Spells(len) % TWO_64 == |c.bytes| && rest[..c.n] == len + c.bytes
  {
    var c, l := ChunkAt(rest, total).value, LengthAt(rest).value.n;
    ReadIsVarint(rest);
    len := rest[..l];
    assert rest[..c.n] == rest[..l] + rest[l..c.n];
  }

  lemma PrefixParts(t: Bytes, n: nat, m: nat)
    requires n + m <= |t|
    ensures t[..n + m] == t[..n] + t[n..][..m]
  {
  }

  lemma BytesWereRead(t: Bytes, total: nat) returns (f: Field)
    requires TagAt(t).Ok? && TagAt(t).value.wireType == 2 && ChunkAt(t[TagAt(t).value.n..], total).Ok?
    ensures var tag := TagAt(t).value;
            var c := ChunkAt(t[tag.n..], total).value;
            && Spelled(f) && Num(f) == tag.fieldNum && t[..tag.n + c.n] == Written(f)
            && f.body.LengthBody? && f.body.b == c.bytes
  {
    var n := TagAt(t).value.n;
    var c := ChunkAt(t[n..], total).value;
    KeyWasRead(t);
    var len := ChunkWasRead(t[n..], total);
    f := LengthField(t[..n], len, c.bytes);
    PrefixParts(t, n, c.n);
  }

  lemma LengthField(key: Bytes, len: Bytes, b: Bytes) returns (f: Field)
    requires IsVarint(key) && Spells(key) % 8 == 2 && IsVarint(len) && Spells(len) % TWO_64 == |b|
    ensures f == Field(key, LengthBody(len, b)) && Spelled(f) && Written(f) == key + (len + b)
  {
    f := Field(key, LengthBody(len, b));
  }

  lemma InFront(t: Bytes, n: nat, f: Field, more: seq<Field>) returns (fs: seq<Field>)
    requires n <= |t| && Spelled(f) && SpelledAll(more) && t[..n] == Written(f) && t[n..] == WrittenAll(more)
    ensures SpelledAll(fs) && t == WrittenAll(fs)
  {
    OneMore(f, more);
    fs := [f] + more;
    assert t == t[..n] + t[n..];
  }

  // ----- what is refused -----

  /** A varint is refused exactly if its first ten bytes all go on, or if the input ends while they do. */
  lemma VarintRefused(t: Bytes)
    ensures VarintAt(t, 0) == Err(IntOverflow) <==> |t| >= 10 && forall i :: 0 <= i < 10 ==> t[i] >= 128
    ensures VarintAt(t, 0) == Err(UnexpectedEOF) <==> |t| < 10 && forall i :: 0 <= i < |t| ==> t[i] >= 128
    ensures VarintAt(t, 0).Err? ==> VarintAt(t, 0).error in {IntOverflow, UnexpectedEOF}
  {
    VarintRefusedAt(t, 0);
  }

  lemma {:induction false} VarintRefusedAt(t: Bytes, k: nat)
    requires k <= 10
    ensures VarintAt(t, k) == Err(IntOverflow) <==> |t| >= 10 - k && forall i :: 0 <= i < 10 - k ==> t[i] >= 128
    ensures VarintAt(t, k) == Err(UnexpectedEOF) <==> |t| < 10 - k && forall i :: 0 <= i < |t| ==> t[i] >= 128
    ensures VarintAt(t, k).Err? ==> VarintAt(t, k).error in {IntOverflow, UnexpectedEOF}
    decreases |t|
  {
    if k < 10 && t != [] && t[0] >= 128 {
      VarintRefusedAt(t[1..], k + 1);
      assert forall i :: 0 < i < |t| ==> t[i] == t[1..][i - 1];
    }
  }

  /** A tag is refused if its varint is, if it ends a group, or if its field number is not positive. */
  lemma TagRefused(t: Bytes, key: Bytes)
    requires IsVarint(key) && StandsAt(t, 0, key)
    ensures TagAt(t) ==
        if Spells(key) % 8 == 4 then Err(EndGroup)
        else if ToInt32(Spells(key) % TWO_64 / 8) <= 0 then Err(IllegalTag)
        else Ok(Tag(ToInt32(Spells(key) % TWO_64 / 8), Spells(key) % 8, |key|))
    ensures VarintAt(t, 0).Ok?
  {
    ReadsVarint(t, 0, key);
    assert t[0..] == t;
    WireTypeOfKey(Spells(key));
  }

  /** A payload is refused if its length is negative as a signed integer, or reaches beyond the input. */
  lemma ChunkRefused(t: Bytes, len: Bytes, total: nat)
    requires IsVarint(len) && StandsAt(t, 0, len) && |t| <= total < TWO_63
    ensures var l := Spells(len) % TWO_64;
            && (l >= TWO_63 ==> ChunkAt(t, total) == Err(InvalidLength))
            && (l < TWO_63 && |len| + l > |t| ==>
                  ChunkAt(t, total) == Err(if total - |t| + |len| + l >= TWO_63 then InvalidLength else UnexpectedEOF))
            && (|len| + l <= |t| ==> ChunkAt(t, total) == Ok(Chunk(t[|len|..|len| + l], |len| + l)))
  {
    assert t[0..] == t;
    var l := Spells(len) % TWO_64;
    if l < TWO_63 {
      ReadsLength(t, 0, len, l);
    } else {
      ReadsVarint(t, 0, len);
      assert LengthAt(t) == Err(InvalidLength);
    }
  }

  // ----- peers -----

  /** What one field does to a peer. */
  function TakePeer(m: Peer, f: Field): Result<Peer> {
    if Num(f) <= 0 then Err(IllegalTag)
    else if Num(f) == 1 then if f.body.LengthBody? then Ok(m.(id := f.body.b)) else Err(WrongWireType)
    else if Num(f) == 2 then
      if f.body.LengthBody? then Ok(m.(addrs := m.addrs + [f.body.b])) else Err(WrongWireType)
    else if Num(f) == 3 then
      if f.body.VarintBody? then Ok(m.(connection := ToInt32(Spells(f.body.v)))) else Err(WrongWireType)
    else Ok(m.(unrecognized := m.unrecognized + Written(f)))
  }

  function TakePeerAll(m: Peer, fs: seq<Field>): Result<Peer>
    decreases |fs|
  {
    if fs == [] then Ok(m)
    else
      match TakePeer(m, fs[0])
      case Err(e) => Err(e)
      case Ok(m') => TakePeerAll(m', fs[1..])
  }

  function Took<M>(r: Result<M>, n: nat): Result<Moved<M>> {
    match r
    case Err(e) => Err(e)
    case Ok(m) => Ok(Moved(m, n))
  }

  lemma PeerStepTakes(m: Peer, t: Bytes, f: Field, total: nat)
    requires Spelled(f) && StandsAt(t, 0, Written(f)) && |t| <= total < TWO_63
    ensures PeerStep(m, t, total) == Took(TakePeer(m, f), |Written(f)|)
  {
    TagOfField(t, f);
    if Num(f) == 1 || Num(f) == 2 {
      if f.body.LengthBody? { ReadsBytes(t, f, total); }
    } else if Num(f) == 3 {
      if f.body.VarintBody? { ReadsInt(t, f); }
    } else if Num(f) > 0 {
      UnknownIsField(t, f, total);
    }
  }

  lemma PeerStepTook(m: Peer, t: Bytes, total: nat) returns (f: Field)
    requires PeerStep(m, t, total).Ok?
    ensures Spelled(f) && t[..PeerStep(m, t, total).value.n] == Written(f)
  {
    var tag := TagAt(t).value;
    if tag.fieldNum == 1 || tag.fieldNum == 2 {
      f := BytesWereRead(t, total);
    } else if tag.fieldNum == 3 {
      f := IntWasRead(t);
    } else {
      f := FieldWasUnknown(t, total);
    }
  }

  lemma FieldThenRest(fs: seq<Field>)
    requires fs != []
    ensures var t, n := WrittenAll(fs), |Written(fs[0])|;
            StandsAt(t, 0, Written(fs[0])) && t[n..] == WrittenAll(fs[1..])
    ensures SpelledAll(fs) ==> |Written(fs[0])| > 0
  {
  }

  /** The parser makes of a list of fields what each field in turn does. */
  lemma {:induction false} PeerParserTakes(m: Peer, fs: seq<Field>, total: nat)
    requires SpelledAll(fs) && |WrittenAll(fs)| <= total < TWO_63
    ensures DecodePeer(m, WrittenAll(fs), total) == TakePeerAll(m, fs)
    decreases fs
  {
    if fs != [] {
      FieldThenRest(fs);
      PeerStepTakes(m, WrittenAll(fs), fs[0], total);
      if TakePeer(m, fs[0]).Ok? {
        PeerParserTakes(TakePeer(m, fs[0]).value, fs[1..], total);
      }
    }
  }

  /** And it accepts nothing else. */
  lemma {:induction false} PeerParserTook(m: Peer, t: Bytes, total: nat) returns (fs: seq<Field>)
    requires DecodePeer(m, t, total).Ok?
    ensures SpelledAll(fs) && t == WrittenAll(fs)
    decreases |t|
  {
    fs := [];
    if t != [] {
      var s := PeerStep(m, t, total).value;
      var f := PeerStepTook(m, t, total);
      var more := PeerParserTook(s.m, t[s.n..], total);
      fs := InFront(t, s.n, f, more);
    }
  }

  /** Unmarshalling a peer: the input is a list of fields, and the peer what they make of the one it starts from. */
  lemma PeerUnmarshalMeans(m: Peer, t: Bytes, p: Peer)
    requires |t| < TWO_63
    ensures DecodePeer(m, t, |t|) == Ok(p) <==>
        exists fs :: SpelledAll(fs) && t == WrittenAll(fs) && TakePeerAll(m, fs) == Ok(p)
  {
    if DecodePeer(m, t, |t|) == Ok(p) {
      var fs := PeerParserTook(m, t, |t|);
      PeerParserTakes(m, fs, |t|);
    }
    if fs :| SpelledAll(fs) && t == WrittenAll(fs) && TakePeerAll(m, fs) == Ok(p) {
      PeerParserTakes(m, fs, |t|);
    }
  }

  // ----- closest peers -----

  /** What one field does to closest peers. */
  function TakeClosest(m: ClosestPeers, f: Field): Result<ClosestPeers> {
    if Num(f) <= 0 then Err(IllegalTag)
    else if Num(f) == 1 then if f.body.LengthBody? then Ok(m.(self := f.body.b)) else Err(WrongWireType)
    else if Num(f) == 2 then
      if f.body.VarintBody? then Ok(m.(mode := ToInt32(Spells(f.body.v)))) else Err(WrongWireType)
    else Ok(m.(unrecognized := m.unrecognized + Written(f)))
  }

  function TakeClosestAll(m: ClosestPeers, fs: seq<Field>): Result<ClosestPeers>
    decreases |fs|
  {
    if fs == [] then Ok(m)
    else
      match TakeClosest(m, fs[0])
      case Err(e) => Err(e)
      case Ok(m') => TakeClosestAll(m', fs[1..])
  }

  lemma ClosestStepTakes(m: ClosestPeers, t: Bytes, f: Field, total: nat)
    requires Spelled(f) && StandsAt(t, 0, Written(f)) && |t| <= total < TWO_63
    ensures ClosestStep(m, t, total) == Took(TakeClosest(m, f), |Written(f)|)
  {
    TagOfField(t, f);
    if Num(f) == 1 {
      if f.body.LengthBody? { ReadsBytes(t, f, total); }
    } else if Num(f) == 2 {
      if f.body.VarintBody? { ReadsInt(t, f); }
    } else if Num(f) > 0 {
      UnknownIsField(t, f, total);
    }
  }

  lemma ClosestStepTook(m: ClosestPeers, t: Bytes, total: nat) returns (f: Field)
    requires ClosestStep(m, t, total).Ok?
    ensures Spelled(f) && t[..ClosestStep(m, t, total).value.n] == Written(f)
  {
    var tag := TagAt(t).value;
    if tag.fieldNum == 1 {
      f := BytesWereRead(t, total);
    } else if tag.fieldNum == 2 {
      f := IntWasRead(t);
    } else {
      f := FieldWasUnknown(t, total);
    }
  }

  lemma {:induction false} ClosestParserTakes(m: ClosestPeers, fs: seq<Field>, total: nat)
    requires SpelledAll(fs) && |WrittenAll(fs)| <= total < TWO_63
    ensures DecodeClosest(m, WrittenAll(fs), total) == TakeClosestAll(m, fs)
    decreases fs
  {
    if fs != [] {
      FieldThenRest(fs);
      ClosestStepTakes(m, WrittenAll(fs), fs[0], total);
      if TakeClosest(m, fs[0]).Ok? {
        ClosestParserTakes(TakeClosest(m, fs[0]).value, fs[1..], total);
      }
    }
  }

  lemma {:induction false} ClosestParserTook(m: ClosestPeers, t: Bytes, total: nat) returns (fs: seq<Field>)
    requires DecodeClosest(m, t, total).Ok?
    ensures SpelledAll(fs) && t == WrittenAll(fs)
    decreases |t|
  {
    fs := [];
    if t != [] {
      var s := ClosestStep(m, t, total).value;
      var f := ClosestStepTook(m, t, total);
      var more := ClosestParserTook(s.m, t[s.n..], total);
      fs := InFront(t, s.n, f, more);
    }
  }

  lemma ClosestUnmarshalMeans(m: ClosestPeers, t: Bytes, c: ClosestPeers)
    requires |t| < TWO_63
    ensures DecodeClosest(m, t, |t|) == Ok(c) <==>
        exists fs :: SpelledAll(fs) && t == WrittenAll(fs) && TakeClosestAll(m, fs) == Ok(c)
  {
    if DecodeClosest(m, t, |t|) == Ok(c) {
      var fs := ClosestParserTook(m, t, |t|);
      ClosestParserTakes(m, fs, |t|);
    }
    if fs :| SpelledAll(fs) && t == WrittenAll(fs) && TakeClosestAll(m, fs) == Ok(c) {
      ClosestParserTakes(m, fs, |t|);
    }
  }

  // ----- messages -----

  /** What the payload of a field does to a message: a repeated record or closest peers goes into the one there is. */
  function TakeBytes<R>(rc: RecordCodec<R>, m: Message<R>, num: int, b: Bytes): Result<Message<R>> {
    match num
    case 2 => Ok(m.(key := b))
    case 3 =>
      var r := rc.merge(if m.record.Some? then m.record.value else rc.zero, b);
      if r.Some? then Ok(m.(record := r)) else Err(BadRecord)
    case 11 =>
      var c := DecodeClosest(if m.closestPeers.Some? then m.closestPeers.value else NO_CLOSEST, b, |b|);
      if c.Ok? then Ok(m.(closestPeers := Some(c.value))) else Err(c.error)
    case 12 => Ok(m.(value := b))
    case _ =>
      var p := DecodePeer(NO_PEER, b, |b|);
      if p.Err? then Err(p.error)
      else if num == 8 then Ok(m.(closerPeers := m.closerPeers + [p.value]))
      else Ok(m.(providerPeers := m.providerPeers + [p.value]))
  }

  /** What one field does to a message. */
  function TakeMessage<R>(rc: RecordCodec<R>, m: Message<R>, f: Field): Result<Message<R>> {
    if Num(f) <= 0 then Err(IllegalTag)
    else if Num(f) == 1 then
      if f.body.VarintBody? then Ok(m.(kind := ToInt32(Spells(f.body.v)))) else Err(WrongWireType)
    else if Num(f) == 10 then
      if f.body.VarintBody? then Ok(m.(clusterLevelRaw := ToInt32(Spells(f.body.v)))) else Err(WrongWireType)
    else if Num(f) == 2 || Num(f) == 3 || Num(f) == 8 || Num(f) == 9 || Num(f) == 11 || Num(f) == 12 then
      if f.body.LengthBody? then TakeBytes(rc, m, Num(f), f.body.b) else Err(WrongWireType)
    else Ok(m.(unrecognized := m.unrecognized + Written(f)))
  }

  function TakeMessageAll<R>(rc: RecordCodec<R>, m: Message<R>, fs: seq<Field>): Result<Message<R>>
    decreases |fs|
  {
    if fs == [] then Ok(m)
    else
      match TakeMessage(rc, m, fs[0])
      case Err(e) => Err(e)
      case Ok(m') => TakeMessageAll(rc, m', fs[1..])
  }

  lemma ChunkIntoTakes<R>(rc: RecordCodec<R>, m: Message<R>, num: int, b: Bytes)
    requires num in {2, 3, 8, 9, 11, 12}
    ensures ChunkInto(rc, m, num, b) == TakeBytes(rc, m, num, b)
  {
  }

  lemma MessageStepTakesInt<R>(rc: RecordCodec<R>, m: Message<R>, t: Bytes, f: Field, total: nat)
    requires Spelled(f) && StandsAt(t, 0, Written(f)) && (Num(f) == 1 || Num(f) == 10)
    ensures MessageStep(rc, m, t, total) == Took(TakeMessage(rc, m, f), |Written(f)|)
  {
    TagOfField(t, f);
    if f.body.VarintBody? { ReadsInt(t, f); }
  }

  lemma MessageStepTakesBytes<R>(rc: RecordCodec<R>, m: Message<R>, t: Bytes, f: Field, total: nat)
    requires Spelled(f) && StandsAt(t, 0, Written(f)) && |t| <= total < TWO_63 && Num(f) in {2, 3, 8, 9, 11, 12}
    ensures MessageStep(rc, m, t, total) == Took(TakeMessage(rc, m, f), |Written(f)|)
  {
    TagOfField(t, f);
    if f.body.LengthBody? {
      ReadsBytes(t, f, total);
      ChunkIntoTakes(rc, m, Num(f), f.body.b);
    }
  }

  lemma MessageStepTakesOther<R>(rc: RecordCodec<R>, m: Message<R>, t: Bytes, f: Field, total: nat)
    requires Spelled(f) && StandsAt(t, 0, Written(f)) && |t| <= total < TWO_63
    requires Num(f) !in {1, 2, 3, 8, 9, 10, 11, 12}
    ensures MessageStep(rc, m, t, total) == Took(TakeMessage(rc, m, f), |Written(f)|)
  {
    TagOfField(t, f);
    if Num(f) > 0 { UnknownIsField(t, f, total); }
  }

  lemma MessageStepTakes<R>(rc: RecordCodec<R>, m: Message<R>, t: Bytes, f: Field, total: nat)
    requires Spelled(f) && StandsAt(t, 0, Written(f)) && |t| <= total < TWO_63
    ensures MessageStep(rc, m, t, total) == Took(TakeMessage(rc, m, f), |Written(f)|)
  {
    if Num(f) == 1 || Num(f) == 10 {
      MessageStepTakesInt(rc, m, t, f, total);
    } else if Num(f) in {2, 3, 8, 9, 11, 12} {
      MessageStepTakesBytes(rc, m, t, f, total);
    } else {
      MessageStepTakesOther(rc, m, t, f, total);
    }
  }

  lemma MessageStepTook<R>(rc: RecordCodec<R>, m: Message<R>, t: Bytes, total: nat) returns (f: Field)
    requires MessageStep(rc, m, t, total).Ok?
    ensures Spelled(f) && t[..MessageStep(rc, m, t, total).value.n] == Written(f)
  {
    var tag := TagAt(t).value;
    if tag.fieldNum in {1, 10} {
      f := IntWasRead(t);
    } else if tag.fieldNum in {2, 3, 8, 9, 11, 12} {
      f := BytesWereRead(t, total);
    } else {
      f := FieldWasUnknown(t, total);
    }
  }

  lemma {:induction false} MessageParserTakes<R>(rc: RecordCodec<R>, m: Message<R>, fs: seq<Field>, total: nat)
    requires SpelledAll(fs) && |WrittenAll(fs)| <= total < TWO_63
    ensures DecodeMessage(rc, m, WrittenAll(fs), total) == TakeMessageAll(rc, m, fs)
    decreases fs
  {
    if fs != [] {
      FieldThenRest(fs);
      MessageStepTakes(rc, m, WrittenAll(fs), fs[0], total);
      if TakeMessage(rc, m, fs[0]).Ok? {
        MessageParserTakes(rc, TakeMessage(rc, m, fs[0]).value, fs[1..], total);
      }
    }
  }

  lemma {:induction false} MessageParserTook<R>(rc: RecordCodec<R>, m: Message<R>, t: Bytes, total: nat)
    returns (fs: seq<Field>)
    requires DecodeMessage(rc, m, t, total).Ok?
    ensures SpelledAll(fs) && t == WrittenAll(fs)
    decreases |t|
  {
    fs := [];
    if t != [] {
      var s := MessageStep(rc, m, t, total).value;
      var f := MessageStepTook(rc, m, t, total);
      var more := MessageParserTook(rc, s.m, t[s.n..], total);
      fs := InFront(t, s.n, f, more);
    }
  }

  /** Unmarshalling a message: the input is a list of fields, and the message what they make of the initial one. */
  lemma MessageUnmarshalMeans<R>(rc: RecordCodec<R>, m: Message<R>, t: Bytes, m': Message<R>)
    requires |t| < TWO_63
    ensures DecodeMessage(rc, m, t, |t|) == Ok(m') <==>
        exists fs :: SpelledAll(fs) && t == WrittenAll(fs) && TakeMessageAll(rc, m, fs) == Ok(m')
  {
    if DecodeMessage(rc, m, t, |t|) == Ok(m') {
      var fs := MessageParserTook(rc, m, t, |t|);
      MessageParserTakes(rc, m, fs, |t|);
    }
    if fs :| SpelledAll(fs) && t == WrittenAll(fs) && TakeMessageAll(rc, m, fs) == Ok(m') {
      MessageParserTakes(rc, m, fs, |t|);
    }
  }

  // ----- what is printed -----

  function IntOf(num: nat, x: int32): seq<Field> {
    if x == 0 then [] else [Field(EncodeVarint(8 * num), VarintBody(EncodeVarint(SignExtend(x))))]
  }

  function BytesOf(num: nat, b: Bytes): Field { Field(EncodeVarint(8 * num + 2), LengthBody(EncodeVarint(|b|), b)) }

  function SomeBytesOf(num: nat, b: Bytes): seq<Field> { if b == [] then [] else [BytesOf(num, b)] }

  function EachBytesOf(num: nat, bs: seq<Bytes>): seq<Field> {
    if bs == [] then [] else [BytesOf(num, bs[0])] + EachBytesOf(num, bs[1..])
  }

  lemma {:induction false} WrittenConcat(a: seq<Field>, b: seq<Field>)
    ensures WrittenAll(a + b) == WrittenAll(a) + WrittenAll(b)
    decreases |a|
  {
    if a == [] {
      assert a + b == b;
    } else {
      assert (a + b)[1..] == a[1..] + b;
      WrittenConcat(a[1..], b);
    }
  }

  lemma OneWritten(f: Field)
    ensures WrittenAll([f]) == Written(f)
  {
    assert WrittenAll([f][1..]) == [];
  }

  lemma IntFieldIs(tag: byte, num: nat, x: int32)
    requires tag as nat == 8 * num && tag < 128
    ensures IntField(tag, x) == WrittenAll(IntOf(num, x))
  {
    if x != 0 {
      OneWritten(IntOf(num, x)[0]);
    }
  }

  lemma ChunkFieldIs(tag: byte, num: nat, b: Bytes)
    requires tag as nat == 8 * num + 2 && tag < 128
    ensures ChunkField(tag, b) == Written(BytesOf(num, b)) && BytesField(tag, b) == WrittenAll(SomeBytesOf(num, b))
    ensures ChunkField(tag, b) == WrittenAll([BytesOf(num, b)])
  {
    OneWritten(BytesOf(num, b));
  }

  lemma {:induction false} ChunkFieldsAre(tag: byte, num: nat, bs: seq<Bytes>)
    requires tag as nat == 8 * num + 2 && tag < 128
    ensures ChunkFields(tag, bs) == WrittenAll(EachBytesOf(num, bs))
  {
    if bs != [] {
      ChunkFieldIs(tag, num, bs[0]);
      ChunkFieldsAre(tag, num, bs[1..]);
      assert EachBytesOf(num, bs)[1..] == EachBytesOf(num, bs[1..]);
    }
  }

  /** A printed peer: its id as field 1, each address as field 2, its connection as field 3, and the unknown bytes. */
  lemma PrintedPeer(p: Peer)
    ensures EncodePeer(p) ==
        WrittenAll([BytesOf(1, p.id)] + EachBytesOf(2, p.addrs) + IntOf(3, p.connection)) + p.unrecognized
  {
    ChunkFieldIs(0x0a, 1, p.id);
    ChunkFieldsAre(0x12, 2, p.addrs);
    IntFieldIs(0x18, 3, p.connection);
    WrittenConcat([BytesOf(1, p.id)], EachBytesOf(2, p.addrs));
    WrittenConcat([BytesOf(1, p.id)] + EachBytesOf(2, p.addrs), IntOf(3, p.connection));
  }

  lemma PrintedClosest(c: ClosestPeers)
    ensures EncodeClosest(c) == WrittenAll(SomeBytesOf(1, c.self) + IntOf(2, c.mode)) + c.unrecognized
  {
    ChunkFieldIs(0x0a, 1, c.self);
    IntFieldIs(0x10, 2, c.mode);
    WrittenConcat(SomeBytesOf(1, c.self), IntOf(2, c.mode));
  }

  function FrontOf<R>(rc: RecordCodec<R>, m: Message<R>): seq<Field> {
    IntOf(1, m.kind) + SomeBytesOf(2, m.key) +
    if m.record.None? then [] else [BytesOf(3, rc.encode(m.record.value))]
  }

  function MiddleOf<R>(m: Message<R>): seq<Field> {
    EachBytesOf(8, EncodePeers(m.closerPeers)) + EachBytesOf(9, EncodePeers(m.providerPeers))
  }

  function RearOf<R>(m: Message<R>): seq<Field> {
    IntOf(10, m.clusterLevelRaw) +
    (if m.closestPeers.None? then [] else [BytesOf(11, EncodeClosest(m.closestPeers.value))]) +
    SomeBytesOf(12, m.value)
  }

  lemma ConcatThree(a: seq<Field>, b: seq<Field>, c: seq<Field>)
    ensures WrittenAll(a + b + c) == WrittenAll(a) + (WrittenAll(b) + WrittenAll(c))
  {
    WrittenConcat(a, b);
    WrittenConcat(a + b, c);
  }

  lemma PrintedFront<R>(rc: RecordCodec<R>, m: Message<R>)
    ensures WrittenAll(FrontOf(rc, m)) == IntField(0x08, m.kind) + (BytesField(0x12, m.key) + RecordField(rc, m.record))
  {
    var r := if m.record.None? then [] else [BytesOf(3, rc.encode(m.record.value))];
    IntFieldIs(0x08, 1, m.kind);
    ChunkFieldIs(0x12, 2, m.key);
    if m.record.Some? { ChunkFieldIs(0x1a, 3, rc.encode(m.record.value)); }
    ConcatThree(IntOf(1, m.kind), SomeBytesOf(2, m.key), r);
  }

  lemma PrintedMiddle<R>(m: Message<R>)
    ensures WrittenAll(MiddleOf(m)) ==
        ChunkFields(0x42, EncodePeers(m.closerPeers)) + ChunkFields(0x4a, EncodePeers(m.providerPeers))
  {
    ChunkFieldsAre(0x42, 8, EncodePeers(m.closerPeers));
    ChunkFieldsAre(0x4a, 9, EncodePeers(m.providerPeers));
    WrittenConcat(EachBytesOf(8, EncodePeers(m.closerPeers)), EachBytesOf(9, EncodePeers(m.providerPeers)));
  }

  lemma PrintedRear<R>(m: Message<R>)
    ensures WrittenAll(RearOf(m)) ==
        IntField(0x50, m.clusterLevelRaw) + (ClosestField(m.closestPeers) + BytesField(0x62, m.value))
  {
    var c := if m.closestPeers.None? then [] else [BytesOf(11, EncodeClosest(m.closestPeers.value))];
    IntFieldIs(0x50, 10, m.clusterLevelRaw);
    ChunkFieldIs(0x62, 12, m.value);
    if m.closestPeers.Some? { ChunkFieldIs(0x5a, 11, EncodeClosest(m.closestPeers.value)); }
    ConcatThree(IntOf(10, m.clusterLevelRaw), c, SomeBytesOf(12, m.value));
  }

  lemma Regroup(a: Bytes, b: Bytes, c: Bytes, d: Bytes, e: Bytes, x: Bytes, u: Bytes)
    ensures a + (b + (c + (d + (e + (x + u))))) == (a + (b + c)) + ((d + e) + x) + u
  {
    assert c + (d + (e + (x + u))) == c + ((d + e) + x + u);
    assert b + (c + ((d + e) + x + u)) == (b + c) + ((d + e) + x + u);
    assert a + ((b + c) + ((d + e) + x + u)) == (a + (b + c)) + ((d + e) + x + u);
  }

  lemma RearThenUnknown<R>(m: Message<R>)
    ensures Rear(m) == WrittenAll(RearOf(m)) + m.unrecognized
  {
    PrintedRear(m);
  }

  /** A printed message: its fields by number, in ascending order, those with a zero value left out. */
  lemma PrintedMessage<R>(rc: RecordCodec<R>, m: Message<R>)
    ensures EncodeMessage(rc, m) == WrittenAll(FrontOf(rc, m) + MiddleOf(m) + RearOf(m)) + m.unrecognized
  {
    ConcatThree(FrontOf(rc, m), MiddleOf(m), RearOf(m));
    PrintedFront(rc, m);
    PrintedMiddle(m);
    RearThenUnknown(m);
    Regroup(IntField(0x08, m.kind), BytesField(0x12, m.key), RecordField(rc, m.record),
      ChunkFields(0x42, EncodePeers(m.closerPeers)), ChunkFields(0x4a, EncodePeers(m.providerPeers)),
      WrittenAll(RearOf(m)), m.unrecognized);
  }

  // ----- round trips -----

  /** A peer survives printing and parsing exactly if its unknown bytes are those of fields other than 1, 2 and 3. */
  lemma PeerSurvives(p: Peer)
    requires |EncodePeer(p)| < TWO_63
    ensures DecodePeer(NO_PEER, EncodePeer(p), |EncodePeer(p)|) == Ok(p) <==>
        AreUnknownFields({1, 2, 3}, p.unrecognized)
  {
    PeerRoundTrip(p);
    UnknownFieldsAre({1, 2, 3}, p.unrecognized);
  }

  lemma ClosestSurvives(c: ClosestPeers)
    requires |EncodeClosest(c)| < TWO_63
    ensures DecodeClosest(NO_CLOSEST, EncodeClosest(c), |EncodeClosest(c)|) == Ok(c) <==>
        AreUnknownFields({1, 2}, c.unrecognized)
  {
    ClosestRoundTrip(c);
    UnknownFieldsAre({1, 2}, c.unrecognized);
  }

  /** A message: exactly if its unknown bytes and those of every nested peer are such. */
  lemma MessageSurvives<R(!new)>(rc: RecordCodec<R>, m: Message<R>)
    requires Faithful(rc) && |EncodeMessage(rc, m)| < TWO_63
    ensures DecodeMessage(rc, NoMessage(), EncodeMessage(rc, m), |EncodeMessage(rc, m)|) == Ok(m) <==>
        && (forall i :: 0 <= i < |m.closerPeers| ==> AreUnknownFields({1, 2, 3}, m.closerPeers[i].unrecognized))
        && (forall i :: 0 <= i < |m.providerPeers| ==> AreUnknownFields({1, 2, 3}, m.providerPeers[i].unrecognized))
        && (m.closestPeers.Some? ==> AreUnknownFields({1, 2}, m.closestPeers.value.unrecognized))
        && AreUnknownFields({1, 2, 3, 8, 9, 10, 11, 12}, m.unrecognized)
  {
    MessageRoundTrip(rc, m);
    UnknownFitIn(rc, m);
    forall i | 0 <= i < |m.closerPeers| { UnknownFieldsAre({1, 2, 3}, m.closerPeers[i].unrecognized); }
    forall i | 0 <= i < |m.providerPeers| { UnknownFieldsAre({1, 2, 3}, m.providerPeers[i].unrecognized); }
    if m.closestPeers.Some? { UnknownFieldsAre({1, 2}, m.closestPeers.value.unrecognized); }
    UnknownFieldsAre({1, 2, 3, 8, 9, 10, 11, 12}, m.unrecognized);
  }

  lemma {:induction false} NoLongerThanAll(tag: byte, ps: seq<Peer>, i: nat)
    requires i < |ps|
    ensures |ps[i].unrecognized| <= |ChunkFields(tag, EncodePeers(ps))|
    decreases i
  {
    if i > 0 {
      NoLongerThanAll(tag, ps[1..], i - 1);
      assert EncodePeers(ps)[1..] == EncodePeers(ps[1..]);
    }
  }

  lemma UnknownFitIn<R>(rc: RecordCodec<R>, m: Message<R>)
    ensures var n := |EncodeMessage(rc, m)|;
            && (forall i :: 0 <= i < |m.closerPeers| ==> |m.closerPeers[i].unrecognized| <= n)
            && (forall i :: 0 <= i < |m.providerPeers| ==> |m.providerPeers[i].unrecognized| <= n)
            && (m.closestPeers.Some? ==> |m.closestPeers.value.unrecognized| <= n)
            && |m.unrecognized| <= n
  {
    forall i | 0 <= i < |m.closerPeers| ensures |m.closerPeers[i].unrecognized| <= |EncodeMessage(rc, m)| {
      NoLongerThanAll(0x42, m.closerPeers, i);
    }
    forall i | 0 <= i < |m.providerPeers| ensures |m.providerPeers[i].unrecognized| <= |EncodeMessage(rc, m)| {
      NoLongerThanAll(0x4a, m.providerPeers, i);
    }
  }
}
