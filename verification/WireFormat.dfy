/**
 The wire format written down as a grammar, independently of the parser: varints as groups of seven bits, and fields
 as a key and a payload, groups nested. What the parser skips, and keeps as unknown, is proved to be exactly that.
 */
module WireFormat {
  import opened Integers
  import opened Varint
  import opened Wire

  // ----- varints -----

  /** At most ten bytes, all but the last with the continuation bit. */
  predicate IsVarint(b: Bytes) {
    1 <= |b| <= 10 && b[|b| - 1] < 128 && forall i :: 0 <= i < |b| - 1 ==> b[i] >= 128
  }

  /** Seven bits a byte, the low ones first. */
  function Spells(b: Bytes): nat {
    if b == [] then 0 else (b[0] % 128) as nat + 128 * Spells(b[1..])
  }

  lemma {:induction false} ReadsVarintAt(b: Bytes, k: nat, rest: Bytes)
    requires IsVarint(b) && k + |b| <= 10
    ensures VarintAt(b + rest, k) == Ok(Varint(|b|, Spells(b)))
    decreases |b|
  {
    var t := b + rest;
    assert t[0] == b[0];
    if |b| == 1 {
      assert b[1..] == [];
    } else {
      assert t[1..] == b[1..] + rest;
      ReadsVarintAt(b[1..], k + 1, rest);
    }
  }

  /** What is spelled as a varint is read as that number, minimal or not. */
  lemma ReadsVarint(t: Bytes, i: nat, b: Bytes)
    requires IsVarint(b) && i + |b| <= |t| && t[i..i + |b|] == b
    ensures VarintAt(t[i..], 0) == Ok(Varint(|b|, Spells(b)))
  {
    assert t[i..] == b + t[i + |b|..];
    ReadsVarintAt(b, 0, t[i + |b|..]);
  }

  lemma LongerVarint(x: byte, b: Bytes)
    requires x >= 128 && IsVarint(b) && |b| < 10
    ensures IsVarint([x] + b) && Spells([x] + b) == (x - 128) as nat + 128 * Spells(b)
  {
    assert ([x] + b)[1..] == b;
  }

  lemma {:induction false} ReadIsVarintAt(t: Bytes, k: nat)
    requires VarintAt(t, k).Ok?
    ensures var v := VarintAt(t, k).value; IsVarint(t[..v.n]) && k + v.n <= 10 && Spells(t[..v.n]) == v.raw
    decreases |t|
  {
    var n := VarintAt(t, k).value.n;
    if t[0] < 128 {
      assert t[..n] == [t[0]] && t[..n][1..] == [];
    } else {
      ReadIsVarintAt(t[1..], k + 1);
      LongerVarint(t[0], t[1..][..n - 1]);
      assert t[..n] == [t[0]] + t[1..][..n - 1];
    }
  }

  /** And nothing else is read as a varint. */
  lemma ReadIsVarint(t: Bytes)
    requires VarintAt(t, 0).Ok?
    ensures var v := VarintAt(t, 0).value; IsVarint(t[..v.n]) && Spells(t[..v.n]) == v.raw
  {
    ReadIsVarintAt(t, 0);
  }

  /** The printer spells every 64-bit number, and without leading zeros. */
  lemma WritesVarint(v: uint64)
    ensures IsVarint(EncodeVarint(v)) && Spells(EncodeVarint(v)) == v
    ensures var b := EncodeVarint(v); |b| > 1 ==> b[|b| - 1] != 0
  {
    VarintRoundTrip(v, []);
    ReadIsVarint(EncodeVarint(v) + []);
    assert (EncodeVarint(v) + [])[..|EncodeVarint(v)|] == EncodeVarint(v);
    NoLeadingZero(v);
  }

  lemma {:induction false} NoLeadingZero(v: nat)
    ensures var b := EncodeVarint(v); v > 0 ==> b[|b| - 1] != 0
    decreases v
  {
    if v >= TWO_7 {
      NoLeadingZero(v / TWO_7);
    }
  }

  // ----- fields -----

  datatype Field = Field(key: Bytes, body: Body)

  datatype Body =
    | VarintBody(v: Bytes)
    | EightBytes(b: Bytes)
    | LengthBody(len: Bytes, b: Bytes)
    | GroupBody(fields: seq<Field>, end: Bytes)
    | FourBytes(b: Bytes)

  function WireTypeOf(b: Body): nat {
    match b
    case VarintBody(_) => 0
    case EightBytes(_) => 1
    case LengthBody(_, _) => 2
    case GroupBody(_, _) => 3
    case FourBytes(_) => 5
  }

  /** The field number is the key's, above its three lowest bits, cut to 32 bits. */
  function Num(f: Field): int32 { ToInt32(Spells(f.key) % TWO_64 / 8) }

  predicate Spelled(f: Field) {
    && IsVarint(f.key) && Spells(f.key) % 8 == WireTypeOf(f.body)
    && match f.body
       case VarintBody(v) => IsVarint(v)
       case EightBytes(b) => |b| == 8
       case LengthBody(len, b) => IsVarint(len) && Spells(len) % TWO_64 == |b|
       case GroupBody(fs, end) =>
         (forall i :: 0 <= i < |fs| ==> Spelled(fs[i])) && IsVarint(end) && Spells(end) % 8 == 4
       case FourBytes(b) => |b| == 4
  }

  function Written(f: Field): Bytes { f.key + Payload(f.body) }

  function Payload(b: Body): Bytes {
    match b
    case VarintBody(v) => v
    case EightBytes(b) => b
    case LengthBody(len, b) => len + b
    case GroupBody(fs, end) => WrittenAll(fs) + end
    case FourBytes(b) => b
  }

  function WrittenAll(fs: seq<Field>): Bytes {
    if fs == [] then [] else Written(fs[0]) + WrittenAll(fs[1..])
  }

  predicate SpelledAll(fs: seq<Field>) { forall i :: 0 <= i < |fs| ==> Spelled(fs[i]) }

  ghost predicate StandsAt(s: Bytes, i: nat, b: Bytes) { i + |b| <= |s| && s[i..i + |b|] == b }

  lemma StandsParts(s: Bytes, i: nat, a: Bytes, b: Bytes)
    ensures StandsAt(s, i, a + b) <==> StandsAt(s, i, a) && StandsAt(s, i + |a|, b)
  {
    if StandsAt(s, i, a + b) {
      assert s[i..i + |a|] == s[i..i + |a + b|][..|a|];
      assert s[i + |a|..i + |a| + |b|] == s[i..i + |a + b|][|a|..];
    }
    if StandsAt(s, i, a) && StandsAt(s, i + |a|, b) {
      assert s[i..i + |a + b|] == s[i..i + |a|] + s[i + |a|..i + |a| + |b|];
    }
  }

  // ----- what is skipped -----

  lemma WireTypeOfKey(x: nat)
    ensures x % TWO_64 % 8 == x % 8
  {
  }

  /** A hop starts at a key; how far it goes is the payload's. */
  lemma HopAfterKey(s: Bytes, i: nat, depth: nat, key: Bytes, wireType: nat)
    requires IsVarint(key) && Spells(key) % 8 == wireType && StandsAt(s, i, key)
    ensures HopAt(s[i..], depth) == PayloadAt(s[i + |key|..], wireType, |key|, depth)
  {
    ReadsVarint(s, i, key);
    WireTypeOfKey(Spells(key));
    assert s[i..][|key|..] == s[i + |key|..];
  }

  /** The payload of a field that is no group. */
  predicate SpelledBody(b: Body) {
    match b
    case VarintBody(v) => IsVarint(v)
    case EightBytes(b) => |b| == 8
    case LengthBody(len, b) => IsVarint(len) && Spells(len) % TWO_64 == |b|
    case GroupBody(_, _) => false
    case FourBytes(b) => |b| == 4
  }

  lemma HopsPayload(s: Bytes, k: nat, n: nat, depth: nat, b: Body, n': nat)
    requires SpelledBody(b) && StandsAt(s, k, Payload(b)) && |s| < TWO_63 && n' == n + |Payload(b)|
    ensures PayloadAt(s[k..], WireTypeOf(b), n, depth) == Ok(Hop(n', depth))
  {
    match b
    case VarintBody(v) => ReadsVarint(s, k, v);
    case LengthBody(len, b) =>
      StandsParts(s, k, len, b);
      ReadsVarint(s, k, len);
    case _ =>
  }

  lemma KeyThenPayload(s: Bytes, i: nat, f: Field)
    requires StandsAt(s, i, Written(f))
    ensures StandsAt(s, i, f.key) && StandsAt(s, i + |f.key|, Payload(f.body))
  {
    StandsParts(s, i, f.key, Payload(f.body));
  }

  lemma HopsOver(s: Bytes, i: nat, depth: nat, key: Bytes, wireType: nat, n: nat)
    requires IsVarint(key) && Spells(key) % 8 == wireType && StandsAt(s, i, key)
    requires PayloadAt(s[i + |key|..], wireType, |key|, depth) == Ok(Hop(n, depth))
    ensures HopAt(s[i..], depth) == Ok(Hop(n, depth))
  {
    HopAfterKey(s, i, depth, key, wireType);
  }

  /** One hop over a field that is no group. */
  lemma HopsField(s: Bytes, i: nat, depth: nat, f: Field, n: nat)
    requires Spelled(f) && SpelledBody(f.body) && StandsAt(s, i, Written(f)) && |s| < TWO_63 && n == |Written(f)|
    ensures HopAt(s[i..], depth) == Ok(Hop(n, depth))
  {
    KeyThenPayload(s, i, f);
    HopsPayload(s, i + |f.key|, |f.key|, depth, f.body, n);
    HopsOver(s, i, depth, f.key, WireTypeOf(f.body), n);
  }

  /** Where a skip ends that has got to j: there if no group is open, and else where it gets from there. */
  function Onward(s: Bytes, j: nat, depth: nat): Result<nat> { if depth == 0 then Ok(j) else SkipFrom(s, j, depth) }

  lemma AfterHop(s: Bytes, i: nat, depth: nat, j: nat, depth': nat)
    requires i < j <= |s| < TWO_63 && HopAt(s[i..], depth) == Ok(Hop(j - i, depth'))
    ensures SkipFrom(s, i, depth) == Onward(s, j, depth')
  {
    SkipAdvances(s, i, depth, Hop(j - i, depth'));
  }

  lemma OpensGroup(s: Bytes, i: nat, depth: nat, key: Bytes, j: nat)
    requires IsVarint(key) && Spells(key) % 8 == 3 && StandsAt(s, i, key) && |s| < TWO_63 && j == i + |key|
    ensures SkipFrom(s, i, depth) == Onward(s, j, depth + 1)
  {
    HopAfterKey(s, i, depth, key, 3);
    AfterHop(s, i, depth, j, depth + 1);
  }

  lemma ClosesGroup(s: Bytes, i: nat, depth: nat, end: Bytes, j: nat)
    requires IsVarint(end) && Spells(end) % 8 == 4 && StandsAt(s, i, end) && |s| < TWO_63 && j == i + |end|
    ensures SkipFrom(s, i, depth + 1) == Onward(s, j, depth)
  {
    HopAfterKey(s, i, depth + 1, end, 4);
    AfterHop(s, i, depth + 1, j, depth);
  }

  lemma SkipsSimple(s: Bytes, i: nat, depth: nat, f: Field, j: nat)
    requires Spelled(f) && !f.body.GroupBody? && StandsAt(s, i, Written(f)) && |s| < TWO_63 && j == i + |Written(f)|
    ensures SkipFrom(s, i, depth) == Onward(s, j, depth)
  {
    HopsField(s, i, depth, f, j - i);
    AfterHop(s, i, depth, j, depth);
  }

  lemma GroupIsSpelled(f: Field)
    requires f.body.GroupBody? && Spelled(f)
    ensures IsVarint(f.key) && Spells(f.key) % 8 == 3 && IsVarint(f.body.end) && Spells(f.body.end) % 8 == 4
    ensures SpelledAll(f.body.fields)
  {
  }

  lemma GroupParts(s: Bytes, i: nat, f: Field)
    requires f.body.GroupBody? && StandsAt(s, i, Written(f))
    ensures var k := i + |f.key|;
            && StandsAt(s, i, f.key)
            && StandsAt(s, k, WrittenAll(f.body.fields))
            && StandsAt(s, k + |WrittenAll(f.body.fields)|, f.body.end)
            && |Written(f)| == |f.key| + |WrittenAll(f.body.fields)| + |f.body.end|
  {
    KeyThenPayload(s, i, f);
    StandsParts(s, i + |f.key|, WrittenAll(f.body.fields), f.body.end);
  }

  /**
   From a field on, wherever it stands and however deep groups are open: the skip is past it if no group is open around
   it, and else goes on behind it.
   */
  lemma {:induction false} SkipsField(s: Bytes, i: nat, depth: nat, f: Field, j: nat)
    requires Spelled(f) && StandsAt(s, i, Written(f)) && |s| < TWO_63 && j == i + |Written(f)|
    ensures SkipFrom(s, i, depth) == Onward(s, j, depth)
    decreases f, 1
  {
    if f.body.GroupBody? {
      var k := i + |f.key|;
      GroupIsSpelled(f);
      GroupParts(s, i, f);
      SkipsGroup(s, i, depth, f.key, k, f.body.fields, k + |WrittenAll(f.body.fields)|, f.body.end, j);
    } else {
      SkipsSimple(s, i, depth, f, j);
    }
  }

  lemma SkipsGroup(s: Bytes, i: nat, depth: nat, key: Bytes, k: nat, fs: seq<Field>, e: nat, end: Bytes, j: nat)
    requires |s| < TWO_63 && k == i + |key| && e == k + |WrittenAll(fs)| && j == e + |end|
    requires IsVarint(key) && Spells(key) % 8 == 3 && StandsAt(s, i, key)
    requires SpelledAll(fs) && StandsAt(s, k, WrittenAll(fs))
    requires IsVarint(end) && Spells(end) % 8 == 4 && StandsAt(s, e, end)
    ensures SkipFrom(s, i, depth) == Onward(s, j, depth)
    decreases fs, 3
  {
    OpensGroup(s, i, depth, key, k);
    SkipsFields(s, k, depth + 1, fs, e);
    ClosesGroup(s, e, depth, end, j);
  }

  lemma FirstAndRest(s: Bytes, i: nat, fs: seq<Field>)
    requires fs != [] && StandsAt(s, i, WrittenAll(fs))
    ensures StandsAt(s, i, Written(fs[0])) && StandsAt(s, i + |Written(fs[0])|, WrittenAll(fs[1..]))
    ensures |WrittenAll(fs)| == |Written(fs[0])| + |WrittenAll(fs[1..])|
  {
    StandsParts(s, i, Written(fs[0]), WrittenAll(fs[1..]));
  }

  lemma {:induction false} SkipsFields(s: Bytes, i: nat, depth: nat, fs: seq<Field>, e: nat)
    requires SpelledAll(fs) && StandsAt(s, i, WrittenAll(fs)) && |s| < TWO_63 && e == i + |WrittenAll(fs)|
    requires depth > 0
    ensures Onward(s, i, depth) == Onward(s, e, depth)
    decreases fs, 2
  {
    if fs != [] {
      var j := i + |Written(fs[0])|;
      FirstAndRest(s, i, fs);
      SkipsField(s, i, depth, fs[0], j);
      SkipsFields(s, j, depth, fs[1..], e);
    }
  }

  // ----- and nothing else is skipped -----

  /** A hop reads a key: the start of a group, the end of one, or a whole field. */
  ghost predicate HopReads(s: Bytes, i: nat, depth: nat, h: Hop, kind: nat, key: Bytes, b: Body) {
    && IsVarint(key) && kind == Spells(key) % 8 && StandsAt(s, i, key)
    && (kind == 3 ==> h == Hop(|key|, depth + 1))
    && (kind == 4 ==> depth > 0 && h == Hop(|key|, depth - 1))
    && (kind != 3 && kind != 4 ==>
          && WireTypeOf(b) == kind && SpelledBody(b) && StandsAt(s, i, key + Payload(b))
          && h == Hop(|key| + |Payload(b)|, depth))
  }

  lemma PayloadWasRead(s: Bytes, k: nat, wireType: nat, n: nat, depth: nat, h: Hop) returns (b: Body)
    requires k <= |s| && wireType != 3 && wireType != 4
    requires PayloadAt(s[k..], wireType, n, depth) == Ok(h) && k + h.n - n <= |s|
    ensures WireTypeOf(b) == wireType && SpelledBody(b) && StandsAt(s, k, Payload(b))
    ensures h == Hop(n + |Payload(b)|, depth)
  {
    var rest, e := s[k..], k + h.n - n;
    match wireType
    case 0 =>
      ReadIsVarint(rest);
      b := VarintBody(s[k..e]);
      assert s[k..e] == rest[..h.n - n];
    case 1 => b := EightBytes(s[k..e]);
    case 2 =>
      ReadIsVarint(rest);
      var l := k + VarintAt(rest, 0).value.n;
      assert s[k..l] == rest[..l - k];
      b := LengthBody(s[k..l], s[l..e]);
      assert s[k..l] + s[l..e] == s[k..e];
    case _ => b := FourBytes(s[k..e]);
  }

  lemma HopWasRead(s: Bytes, i: nat, depth: nat, h: Hop) returns (kind: nat, key: Bytes, b: Body)
    requires i <= |s| && HopAt(s[i..], depth) == Ok(h) && i + h.n <= |s|
    ensures HopReads(s, i, depth, h, kind, key, b)
  {
    var v := VarintAt(s[i..], 0).value;
    ReadIsVarint(s[i..]);
    WireTypeOfKey(v.raw);
    var k := i + v.n;
    kind, key, b := v.raw % 8, s[i..k], VarintBody([]);
    assert key == s[i..][..v.n] && s[i..][v.n..] == s[k..];
    if kind != 3 && kind != 4 {
      b := PayloadWasRead(s, k, kind, v.n, depth, h);
      StandsParts(s, i, key, Payload(b));
    }
  }

  lemma Join(s: Bytes, i: nat, k: nat, j: nat, a: Bytes, b: Bytes)
    requires i <= k <= j <= |s| && s[i..k] == a && s[k..j] == b
    ensures s[i..j] == a + b
  {
    assert s[i..j] == s[i..k] + s[k..j];
  }

  lemma FieldWasRead(s: Bytes, i: nat, depth: nat, h: Hop, kind: nat, key: Bytes, b: Body)
    requires HopReads(s, i, depth, h, kind, key, b) && kind != 3 && kind != 4
    ensures Spelled(Field(key, b)) && h.depth == depth
    ensures i + h.n <= |s| && s[i..i + h.n] == Written(Field(key, b))
  {
  }

  lemma SkipHops(s: Bytes, i: nat, depth: nat, n: nat) returns (h: Hop)
    requires SkipFrom(s, i, depth) == Ok(n)
    ensures i < |s| && i + h.n <= n && HopAt(s[i..], depth) == Ok(h) && Onward(s, i + h.n, h.depth) == Ok(n)
  {
    h := SkipStarts(s, i, depth, n);
  }

  /** A skip starts with a key: of a group, of the end of one, or of a field, from behind which it goes on. */
  lemma SkipReads(s: Bytes, i: nat, depth: nat, n: nat) returns (kind: nat, key: Bytes, b: Body, j: nat)
    requires SkipFrom(s, i, depth) == Ok(n) && n <= |s|
    ensures i < j <= n && IsVarint(key) && kind == Spells(key) % 8
    ensures kind == 3 ==> s[i..j] == key && Onward(s, j, depth + 1) == Ok(n)
    ensures kind == 4 ==> s[i..j] == key && depth > 0 && Onward(s, j, depth - 1) == Ok(n)
    ensures kind != 3 && kind != 4 ==>
        Spelled(Field(key, b)) && s[i..j] == Written(Field(key, b)) && Onward(s, j, depth) == Ok(n)
  {
    var h := SkipHops(s, i, depth, n);
    kind, key, b := HopWasRead(s, i, depth, h);
    j := i + h.n;
    if kind != 3 && kind != 4 {
      FieldWasRead(s, i, depth, h, kind, key, b);
    }
  }

  lemma GroupOf(key: Bytes, fs: seq<Field>, end: Bytes) returns (f: Field)
    requires IsVarint(key) && Spells(key) % 8 == 3 && SpelledAll(fs) && IsVarint(end) && Spells(end) % 8 == 4
    ensures f == Field(key, GroupBody(fs, end)) && Spelled(f) && Written(f) == key + (WrittenAll(fs) + end)
  {
    f := Field(key, GroupBody(fs, end));
  }

  lemma OneMore(f: Field, fs: seq<Field>)
    requires Spelled(f) && SpelledAll(fs)
    ensures SpelledAll([f] + fs) && WrittenAll([f] + fs) == Written(f) + WrittenAll(fs)
  {
    assert ([f] + fs)[1..] == fs;
  }

  lemma Prepend(s: Bytes, i: nat, j: nat, m: nat, f: Field, more: seq<Field>, end: Bytes) returns (fs: seq<Field>)
    requires i <= j <= m <= |s| && s[i..j] == Written(f) && s[j..m] == WrittenAll(more) + end
    requires Spelled(f) && SpelledAll(more)
    ensures SpelledAll(fs) && s[i..m] == WrittenAll(fs) + end
  {
    fs := [f] + more;
    OneMore(f, more);
    Join(s, i, j, m, Written(f), WrittenAll(more) + end);
    assert Written(f) + (WrittenAll(more) + end) == Written(f) + WrittenAll(more) + end;
  }

  /** What a skip has gone over with no group open is one field, whatever is nested in it. */
  lemma SkippedIsField(s: Bytes, i: nat, n: nat) returns (f: Field)
    requires SkipFrom(s, i, 0) == Ok(n) && n <= |s|
    ensures i < n && Spelled(f) && s[i..n] == Written(f)
    decreases |s| - i
  {
    var kind, key, b, k := SkipReads(s, i, 0, n);
    if kind == 3 {
      var fs, end, m := SkippedAreFields(s, k, 0, n);
      f := GroupOf(key, fs, end);
      Join(s, i, k, m, key, WrittenAll(fs) + end);
    } else {
      f := Field(key, b);
    }
  }

  /** With groups open: fields, the end of the innermost group, and what follows that. */
  lemma SkippedAreFields(s: Bytes, i: nat, depth: nat, n: nat) returns (fs: seq<Field>, end: Bytes, m: nat)
    requires SkipFrom(s, i, depth + 1) == Ok(n) && n <= |s|
    ensures i < m <= n && SpelledAll(fs) && IsVarint(end) && Spells(end) % 8 == 4 && s[i..m] == WrittenAll(fs) + end
    ensures Onward(s, m, depth) == Ok(n)
    decreases |s| - i, 0
  {
    var kind, key, b, k := SkipReads(s, i, depth + 1, n);
    if kind == 4 {
      fs, end, m := [], key, k;
    } else if kind == 3 {
      var f, j := GroupWasSkipped(s, i, k, key, depth + 1, n);
      fs, end, m := FieldThenMore(s, i, j, depth, f, n);
    } else {
      fs, end, m := FieldThenMore(s, i, k, depth, Field(key, b), n);
    }
  }

  lemma FieldThenMore(s: Bytes, i: nat, j: nat, depth: nat, f: Field, n: nat)
    returns (fs: seq<Field>, end: Bytes, m: nat)
    requires i < j <= n <= |s| && Spelled(f) && s[i..j] == Written(f) && Onward(s, j, depth + 1) == Ok(n)
    ensures i < m <= n && SpelledAll(fs) && IsVarint(end) && Spells(end) % 8 == 4 && s[i..m] == WrittenAll(fs) + end
    ensures Onward(s, m, depth) == Ok(n)
    decreases |s| - j, 1
  {
    fs, end, m := SkippedAreFields(s, j, depth, n);
    fs := Prepend(s, i, j, m, f, fs, end);
  }

  lemma GroupWasSkipped(s: Bytes, i: nat, k: nat, key: Bytes, depth: nat, n: nat) returns (f: Field, j: nat)
    requires depth > 0 && i < k <= n <= |s| && s[i..k] == key && Onward(s, k, depth + 1) == Ok(n)
    requires IsVarint(key) && Spells(key) % 8 == 3
    ensures i < j <= n && Spelled(f) && s[i..j] == Written(f) && Onward(s, j, depth) == Ok(n)
    decreases |s| - k, 1
  {
    var fs, end;
    fs, end, j := SkippedAreFields(s, k, depth, n);
    f := GroupOf(key, fs, end);
    Join(s, i, k, j, key, WrittenAll(fs) + end);
  }

  // ----- unknown fields -----

  /** The tag read where a field stands. */
  lemma TagOfField(t: Bytes, f: Field)
    requires Spelled(f) && StandsAt(t, 0, Written(f))
    ensures TagAt(t) == if Num(f) <= 0 then Err(IllegalTag) else Ok(Tag(Num(f), WireTypeOf(f.body), |f.key|))
  {
    KeyThenPayload(t, 0, f);
    ReadsVarint(t, 0, f.key);
    assert t[0..] == t;
    WireTypeOfKey(Spells(f.key));
  }

  /** Skipping reaches exactly over a field, whatever follows it. */
  lemma SkipReachesOver(f: Field, rest: Bytes)
    requires Spelled(f) && |Written(f) + rest| < TWO_63
    ensures SkipFrom(Written(f) + rest, 0, 0) == Ok(|Written(f)|)
  {
    var t := Written(f) + rest;
    assert t[0..0 + |Written(f)|] == Written(f);
    SkipsField(t, 0, 0, f, |Written(f)|);
  }

  /**
   What a skip of the whole input tells: it stays inside exactly if the input starts with a field, and then it has gone
   exactly over that field.
   */
  lemma SkipMeans(t: Bytes)
    requires |t| < TWO_63
    ensures forall f :: Spelled(f) && StandsAt(t, 0, Written(f)) ==> SkipFrom(t, 0, 0) == Ok(|Written(f)|)
    ensures var r := SkipFrom(t, 0, 0);
            r.Ok? && r.value <= |t| ==> exists f :: Spelled(f) && StandsAt(t, 0, Written(f))
  {
    forall f | Spelled(f) && StandsAt(t, 0, Written(f)) ensures SkipFrom(t, 0, 0) == Ok(|Written(f)|) {
      SkipsField(t, 0, 0, f, |Written(f)|);
    }
    var r := SkipFrom(t, 0, 0);
    if r.Ok? && r.value <= |t| {
      var f := SkippedIsField(t, 0, r.value);
      assert StandsAt(t, 0, Written(f));
    }
  }

  lemma UnknownIsField(t: Bytes, f: Field, total: nat)
    requires Spelled(f) && StandsAt(t, 0, Written(f)) && |t| <= total < TWO_63
    ensures UnknownAt(t, total) == Ok(|Written(f)|) && |Written(f)| > 0
  {
    SkipsField(t, 0, 0, f, |Written(f)|);
  }

  lemma FieldWasUnknown(t: Bytes, total: nat) returns (f: Field)
    requires UnknownAt(t, total).Ok?
    ensures Spelled(f) && t[..UnknownAt(t, total).value] == Written(f)
  {
    f := SkippedIsField(t, 0, UnknownAt(t, total).value);
  }

  ghost predicate NoneKnown(known: set<int>, fs: seq<Field>) {
    forall i :: 0 <= i < |fs| ==> Num(fs[i]) > 0 && Num(fs[i]) !in known
  }

  /** The bytes of some fields of unknown numbers. */
  ghost predicate AreUnknownFields(known: set<int>, u: Bytes) {
    exists fs :: SpelledAll(fs) && NoneKnown(known, fs) && u == WrittenAll(fs)
  }

  lemma {:induction false} WrittenAreUnknown(known: set<int>, fs: seq<Field>)
    requires SpelledAll(fs) && NoneKnown(known, fs) && |WrittenAll(fs)| < TWO_63
    ensures UnknownFields(known, WrittenAll(fs))
    decreases fs
  {
    if fs != [] {
      var u, n := WrittenAll(fs), |Written(fs[0])|;
      assert u[..n] == Written(fs[0]) && u[n..] == WrittenAll(fs[1..]);
      TagOfField(u, fs[0]);
      UnknownIsField(u, fs[0], |u|);
      WrittenAreUnknown(known, fs[1..]);
      UnknownFieldsCons(known, u, n);
    }
  }

  lemma {:induction false} UnknownAreWritten(known: set<int>, u: Bytes) returns (fs: seq<Field>)
    requires UnknownFields(known, u)
    ensures SpelledAll(fs) && NoneKnown(known, fs) && u == WrittenAll(fs)
    decreases |u|
  {
    fs := [];
    if u != [] {
      var n := UnknownFieldsFirst(known, u);
      var f := FieldWasUnknown(u, |u|);
      TagOfField(u, f);
      var more := UnknownAreWritten(known, u[n..]);
      OneMore(f, more);
      fs := [f] + more;
      assert u == u[..n] + u[n..];
    }
  }

  /** What the parsers keep as unknown is exactly the bytes of fields of unknown numbers. */
  lemma UnknownFieldsAre(known: set<int>, u: Bytes)
    requires |u| < TWO_63
    ensures UnknownFields(known, u) <==> AreUnknownFields(known, u)
  {
    if UnknownFields(known, u) {
      var fs := UnknownAreWritten(known, u);
    }
    if AreUnknownFields(known, u) {
      var fs :| SpelledAll(fs) && NoneKnown(known, fs) && u == WrittenAll(fs);
      WrittenAreUnknown(known, fs);
    }
  }
}
