/**
 The wire format of pb/dht.pb.go one field at a time: tags, length-delimited payloads, and the fields a message
 does not know, which are skipped and kept byte for byte.

 A read position is the suffix t of the input from there on; `total` is the length of the whole input, which
 fixes the index and so where Go's int would overflow.
 */
module Wire {
  import opened Integers
  import opened Varint

  datatype Tag = Tag(fieldNum: int32, wireType: nat, n: nat)

  function TagAt(t: Bytes): (r: Result<Tag>)
    ensures r.Ok? ==> 0 < r.value.n <= |t|
  {
    match VarintAt(t, 0)
    case Err(e) => Err(e)
    case Ok(v) =>
      var wire := v.raw % TWO_64;
      var fieldNum, wireType := ToInt32(wire / 8), wire % 8;
      if wireType == 4 then Err(EndGroup)
      else if fieldNum <= 0 then Err(IllegalTag)
      else Ok(Tag(fieldNum, wireType, v.n))
  }

  /** A varint that must be a length. */
  function LengthAt(t: Bytes): (r: Result<Varint>)
    ensures r.Ok? ==> 0 < r.value.n <= |t| && r.value.raw < TWO_63
  {
    match VarintAt(t, 0)
    case Err(e) => Err(e)
    case Ok(v) => if ToInt64(v.raw) < 0 then Err(InvalidLength) else Ok(Varint(v.n, ToInt64(v.raw)))
  }

  datatype Chunk = Chunk(bytes: Bytes, n: nat)

  /** A length and that many bytes. */
  function ChunkAt(t: Bytes, total: nat): (r: Result<Chunk>)
    ensures r.Ok? ==> 0 < r.value.n <= |t| && |r.value.bytes| < r.value.n
  {
    match LengthAt(t)
    case Err(e) => Err(e)
    case Ok(v) =>
      if total - |t| + v.n + v.raw >= TWO_63 then Err(InvalidLength)
      else if v.n + v.raw > |t| then Err(UnexpectedEOF)
      else Ok(Chunk(t[v.n..v.n + v.raw], v.n + v.raw))
  }

  // ----- skipping -----

  /** How far one tag and its payload reach, and what they do to the depth of open groups. */
  datatype Hop = Hop(n: nat, depth: nat)

  /** The payload of a tag that took n bytes. */
  function PayloadAt(rest: Bytes, wireType: nat, n: nat, depth: nat): (r: Result<Hop>)
    ensures r.Ok? ==> n <= r.value.n < n + |rest| + TWO_63
  {
    if wireType == 0 then
      match VarintAt(rest, 0)
      case Err(e) => Err(e)
      case Ok(w) => Ok(Hop(n + w.n, depth))
    else if wireType == 1 then Ok(Hop(n + 8, depth))
    else if wireType == 2 then
      match LengthAt(rest)
      case Err(e) => Err(e)
      case Ok(w) => Ok(Hop(n + w.n + w.raw, depth))
    else if wireType == 3 then Ok(Hop(n, depth + 1))
    else if wireType == 4 then if depth == 0 then Err(UnexpectedEndOfGroup) else Ok(Hop(n, depth - 1))
    else if wireType == 5 then Ok(Hop(n + 4, depth))
    else Err(IllegalWireType)
  }

  /** From inside the input one hop cannot wrap the index all the way round. */
  function HopAt(t: Bytes, depth: nat): (r: Result<Hop>)
    ensures r.Ok? ==> 0 < r.value.n < |t| + TWO_63
  {
    match VarintAt(t, 0)
    case Err(e) => Err(e)
    case Ok(v) => PayloadAt(t[v.n..], v.raw % TWO_64 % 8, v.n, depth)
  }

  /** skipDht from index i on: hop until no group is open. The result may lie beyond the input. */
  function SkipFrom(s: Bytes, i: nat, depth: nat): (r: Result<nat>)
    ensures r.Ok? ==> i < r.value < TWO_63
    decreases |s| - i
  {
    if i >= |s| then Err(UnexpectedEOF)
    else
      match HopAt(s[i..], depth)
      case Err(e) => Err(e)
      case Ok(h) =>
        if i + h.n >= TWO_63 then Err(InvalidLength)
        else if h.depth == 0 then Ok(i + h.n)
        else SkipFrom(s, i + h.n, h.depth)
  }

  /** The unknown field at t: skipped if that stays inside the input. */
  function UnknownAt(t: Bytes, total: nat): (r: Result<nat>)
    ensures r.Ok? ==> 0 < r.value <= |t|
  {
    match SkipFrom(t, 0, 0)
    case Err(e) => Err(e)
    case Ok(n) =>
      if total - |t| + n >= TWO_63 then Err(InvalidLength)
      else if n > |t| then Err(UnexpectedEOF)
      else Ok(n)
  }

  /** Bytes that are a run of whole fields none of which is known. */
  predicate UnknownFields(known: set<int>, u: Bytes)
    decreases |u|
  {
    u == [] ||
    (&& TagAt(u).Ok? && TagAt(u).value.fieldNum !in known
     && UnknownAt(u, |u|).Ok? && UnknownFields(known, u[UnknownAt(u, |u|).value..]))
  }

  // ----- what is written is what is read -----

  lemma TagRoundTrip(b: byte, rest: Bytes)
    requires b < 128 && b % 8 != 4 && b >= 8
    ensures TagAt([b] + rest) == Ok(Tag((b / 8) as int, (b % 8) as nat, 1))
  {
    var x := b as nat;
    assert VarintAt([b] + rest, 0) == Ok(Varint(1, x));
    assert x % TWO_64 == x && ToInt32(x / 8) == x / 8;
  }

  lemma Int32RoundTrip(x: int32, rest: Bytes)
    ensures VarintAt(EncodeVarint(SignExtend(x)) + rest, 0).Ok?
    ensures var v := VarintAt(EncodeVarint(SignExtend(x)) + rest, 0).value;
            v.n == |EncodeVarint(SignExtend(x))| && ToInt32(v.raw) == x
  {
    VarintRoundTrip(SignExtend(x), rest);
    SignExtendInverse(x);
  }

  function EncodeChunk(p: Bytes): Bytes { EncodeVarint(|p|) + p }

  lemma ChunkRoundTrip(p: Bytes, rest: Bytes, total: nat)
    requires |EncodeChunk(p) + rest| <= total < TWO_63
    ensures ChunkAt(EncodeChunk(p) + rest, total) == Ok(Chunk(p, |EncodeChunk(p)|))
  {
    var t := EncodeChunk(p) + rest;
    assert t == EncodeVarint(|p|) + (p + rest);
    VarintRoundTrip(|p|, p + rest);
    var n := |EncodeVarint(|p|)|;
    assert t[n..n + |p|] == p;
  }

  lemma UnknownAtAnyTotal(u: Bytes, total: nat)
    requires |u| <= total < TWO_63
    ensures UnknownAt(u, total).Ok? <==> UnknownAt(u, |u|).Ok?
    ensures UnknownAt(u, total).Ok? ==> UnknownAt(u, total) == UnknownAt(u, |u|)
  {
  }

  // ----- reading is local: only the bytes consumed matter -----

  ghost predicate SameUpTo(s: Bytes, s': Bytes, n: nat) {
    n <= |s| && n <= |s'| && forall j :: 0 <= j < n ==> s[j] == s'[j]
  }

  lemma {:induction false} VarintLocal(t: Bytes, t': Bytes, k: nat)
    requires VarintAt(t, k).Ok? && SameUpTo(t, t', VarintAt(t, k).value.n)
    ensures VarintAt(t', k) == VarintAt(t, k)
    decreases |t|
  {
    if t[0] >= 128 {
      VarintLocal(t[1..], t'[1..], k + 1);
    }
  }

  lemma PayloadLocal(rest: Bytes, rest': Bytes, wireType: nat, n: nat, depth: nat)
    requires var r := PayloadAt(rest, wireType, n, depth); r.Ok? && SameUpTo(rest, rest', r.value.n - n)
    ensures PayloadAt(rest', wireType, n, depth) == PayloadAt(rest, wireType, n, depth)
  {
    if wireType == 0 || wireType == 2 {
      VarintLocal(rest, rest', 0);
    }
  }

  lemma HopLocal(t: Bytes, t': Bytes, depth: nat)
    requires HopAt(t, depth).Ok? && SameUpTo(t, t', HopAt(t, depth).value.n)
    ensures HopAt(t', depth) == HopAt(t, depth)
  {
    var v := VarintAt(t, 0).value;
    VarintLocal(t, t', 0);
    PayloadLocal(t[v.n..], t'[v.n..], v.raw % TWO_64 % 8, v.n, depth);
  }

  lemma HopLocalAfter(s: Bytes, s': Bytes, i: nat, depth: nat, h: Hop, n: nat)
    requires SameUpTo(s, s', n) && i + h.n <= n && HopAt(s[i..], depth) == Ok(h)
    ensures HopAt(s'[i..], depth) == Ok(h)
  {
    HopLocal(s[i..], s'[i..], depth);
  }

  lemma SkipAdvances(s: Bytes, i: nat, depth: nat, h: Hop)
    requires i < |s| && HopAt(s[i..], depth) == Ok(h)
    ensures SkipFrom(s, i, depth) ==
            if i + h.n >= TWO_63 then Err(InvalidLength)
            else if h.depth == 0 then Ok(i + h.n)
            else SkipFrom(s, i + h.n, h.depth)
  {
  }

  lemma SkipFails(s: Bytes, i: nat, depth: nat, e: Error)
    requires i < |s| && HopAt(s[i..], depth) == Err(e)
    ensures SkipFrom(s, i, depth) == Err(e)
  {
  }

  /** A skip starts with one hop, after which it ends or goes on. */
  lemma SkipStarts(s: Bytes, i: nat, depth: nat, n: nat) returns (h: Hop)
    requires SkipFrom(s, i, depth) == Ok(n)
    ensures i < |s| && HopAt(s[i..], depth) == Ok(h)
    ensures if h.depth == 0 then n == i + h.n else SkipFrom(s, i + h.n, h.depth) == Ok(n) && i + h.n < n
  {
    h := HopAt(s[i..], depth).value;
  }

  lemma {:induction false} SkipLocal(s: Bytes, s': Bytes, i: nat, depth: nat, n: nat)
    requires SkipFrom(s, i, depth) == Ok(n) && SameUpTo(s, s', n)
    ensures SkipFrom(s', i, depth) == Ok(n)
    decreases |s| - i
  {
    var h := SkipStarts(s, i, depth, n);
    if h.depth != 0 {
      SkipLocal(s, s', i + h.n, h.depth, n);
    }
    SkipJoins(s, s', i, depth, h, n);
  }

  /** The first hop is the same where the bytes are the same; the rest is given. */
  lemma SkipJoins(s: Bytes, s': Bytes, i: nat, depth: nat, h: Hop, n: nat)
    requires SameUpTo(s, s', n) && i < i + h.n <= n < TWO_63 && HopAt(s[i..], depth) == Ok(h)
    requires if h.depth == 0 then n == i + h.n else SkipFrom(s', i + h.n, h.depth) == Ok(n)
    ensures SkipFrom(s', i, depth) == Ok(n)
  {
    HopLocalAfter(s, s', i, depth, h, n);
    SkipAdvances(s', i, depth, h);
  }

  /** An unknown field is the same field wherever its bytes stand. */
  lemma UnknownLocal(t: Bytes, t': Bytes, total: nat, n: nat)
    requires |t| <= total < TWO_63 && |t'| < TWO_63
    requires TagAt(t).Ok? && UnknownAt(t, total) == Ok(n) && SameUpTo(t, t', n)
    ensures TagAt(t') == TagAt(t) && UnknownAt(t', |t'|) == Ok(n)
  {
    SkipLocal(t, t', 0, 0, n);
    assert t[0..] == t;
    VarintLocal(t, t', 0);
  }

  /** The first field of u takes n bytes and is not a known one. */
  predicate StartsUnknown(known: set<int>, u: Bytes, n: nat) {
    TagAt(u).Ok? && TagAt(u).value.fieldNum !in known && UnknownAt(u, |u|) == Ok(n)
  }

  lemma UnknownFieldsFirst(known: set<int>, u: Bytes) returns (n: nat)
    requires UnknownFields(known, u) && u != []
    ensures 0 < n <= |u| && StartsUnknown(known, u, n) && UnknownFields(known, u[n..])
  {
    n := UnknownAt(u, |u|).value;
  }

  lemma UnknownFieldsCons(known: set<int>, u: Bytes, n: nat)
    requires n <= |u| && StartsUnknown(known, u, n) && UnknownFields(known, u[n..])
    ensures UnknownFields(known, u)
  {
  }

  lemma DropOfConcat(a: Bytes, b: Bytes, n: nat)
    requires n <= |a|
    ensures (a + b)[n..] == a[n..] + b
  {
  }

  lemma StartsUnknownLocal(known: set<int>, a: Bytes, b: Bytes, n: nat)
    requires n <= |a| && StartsUnknown(known, a, n) && |a| + |b| < TWO_63
    ensures StartsUnknown(known, a + b, n)
  {
    UnknownLocal(a, a + b, |a|, n);
  }

  lemma {:induction false} UnknownFieldsConcat(known: set<int>, a: Bytes, b: Bytes)
    requires UnknownFields(known, a) && UnknownFields(known, b) && |a| + |b| < TWO_63
    ensures UnknownFields(known, a + b)
    decreases |a|
  {
    if a == [] {
      assert a + b == b;
    } else {
      var n := UnknownFieldsFirst(known, a);
      DropOfConcat(a, b, n);
      UnknownFieldsConcat(known, a[n..], b);
      StartsUnknownLocal(known, a, b, n);
      UnknownFieldsCons(known, a + b, n);
    }
  }

  /** One unknown field read from the middle of an input is a run of one unknown field. */
  lemma OneUnknownField(known: set<int>, t: Bytes, total: nat)
    requires |t| <= total < TWO_63
    requires TagAt(t).Ok? && TagAt(t).value.fieldNum !in known && UnknownAt(t, total).Ok?
    ensures UnknownFields(known, t[..UnknownAt(t, total).value])
  {
    var n := UnknownAt(t, total).value;
    var u := t[..n];
    UnknownLocal(t, u, total, n);
    assert u[n..] == [];
  }
}
