/**
 Keys with a chosen common prefix length (kbucket/table_refresh.go). Random bytes are a parameter.
 */
module KeyGen {
  import opened KeySpace
  import opened ByteKeys
  import opened Integers
  import opened Nearest
  import opened RoutingTables
  import opened TableLaws

  const MAX_CPL_FOR_REFRESH: nat := 15

  /** A slice expression or index out of range is a panic. */
  datatype Generated = Key(key: ByteKey) | Rejected | Panicked

  /** The check at the top: it compares the successor, wrapped to 64 bits and read as signed. */
  predicate Accepted(keyBytes: nat, targetCpl: nat)
    requires targetCpl < TWO_64
  {
    ToInt64(targetCpl + 1) < keyBytes * 8
  }

  /** The check lets pass some depths that lie beyond the key, whatever its length: 2^63, for one. */
  lemma AcceptedBeyondTheKey(keyBytes: nat)
    requires keyBytes * 8 < TWO_63
    ensures Accepted(keyBytes, TWO_63) && TWO_63 / 8 > keyBytes
  {
  }

  /** Of the depths within the key the check accepts all but the last. */
  lemma AcceptedOfTheKey(keyBytes: nat, targetCpl: nat)
    requires keyBytes * 8 < TWO_63 && targetCpl < 8 * keyBytes
    ensures Accepted(keyBytes, targetCpl) <==> targetCpl + 1 < 8 * keyBytes
    ensures !Accepted(keyBytes, 8 * keyBytes - 1)
  {
  }

  /** An accepted depth lies within the key exactly if its successor fits a signed integer. */
  lemma AcceptedWithinTheKey(keyBytes: nat, targetCpl: nat)
    requires keyBytes * 8 < TWO_63 && targetCpl < TWO_64 && Accepted(keyBytes, targetCpl)
    ensures targetCpl / 8 < keyBytes <==> targetCpl + 1 < TWO_63
    ensures targetCpl / 8 < keyBytes <==> targetCpl + 1 < keyBytes * 8
  {
  }

  function OrigMask(remainingBits: bv4): bv8
    requires 1 <= remainingBits <= 8
  {
    0xFF << remainingBits
  }

  function Mix(orig: bv8, random: bv8, origMask: bv8, flippedBitMask: bv8, randMask: bv8): bv8 {
    (((orig & origMask) | (orig & flippedBitMask)) ^ flippedBitMask) | (random & randMask)
  }

  /** The byte in which the prefix ends: `keep` bits of the original, then its next bit flipped, then random bits. */
  function MixByte(orig: bv8, keep: nat, random: bv8): bv8
    requires keep < 8
  {
    var remainingBits := (8 - keep) as bv4;
    var origMask := OrigMask(remainingBits);
    Mix(orig, random, origMask, 1 << (remainingBits - 1), (0xFF ^ origMask) >> 1)
  }

  lemma KeptBit(orig: bv8, random: bv8, o: bv8, f: bv8, r: bv8, m: bv8)
    requires m & o == m && m & f == 0 && m & r == 0
    ensures Mix(orig, random, o, f, r) & m == orig & m
  {
  }

  lemma RandomBit(orig: bv8, random: bv8, o: bv8, f: bv8, r: bv8, m: bv8)
    requires m & o == 0 && m & f == 0 && m & r == m
    ensures Mix(orig, random, o, f, r) & m == random & m
  {
  }

  lemma FlippedBit(orig: bv8, random: bv8, o: bv8, f: bv8, r: bv8)
    requires f & o == 0 && f & r == 0
    ensures Mix(orig, random, o, f, r) & f == (orig & f) ^ f
  {
  }

  lemma MasksFor(keep: nat)
    requires keep < 8
    ensures var remainingBits := (8 - keep) as bv4;
            var o := OrigMask(remainingBits);
            && Mask(keep) == 1 << (remainingBits - 1)
            && Mask(keep) & o == 0 && Mask(keep) & ((0xFF ^ o) >> 1) == 0
            && (forall i :: keep < i < 8 ==>
                Mask(i) & o == 0 && Mask(i) & Mask(keep) == 0 && Mask(i) & ((0xFF ^ o) >> 1) == Mask(i))
            && forall i :: 0 <= i < keep ==>
                Mask(i) & o == Mask(i) && Mask(i) & Mask(keep) == 0 && Mask(i) & ((0xFF ^ o) >> 1) == 0
  {
  }

  lemma MixByteKeeps(orig: bv8, keep: nat, random: bv8, i: nat)
    requires i < keep < 8
    ensures Bit(MixByte(orig, keep, random), i) == Bit(orig, i)
  {
    var o := OrigMask((8 - keep) as bv4);
    MasksFor(keep);
    KeptBit(orig, random, o, Mask(keep), (0xFF ^ o) >> 1, Mask(i));
  }

  lemma MixByteFlips(orig: bv8, keep: nat, random: bv8)
    requires keep < 8
    ensures Bit(MixByte(orig, keep, random), keep) != Bit(orig, keep)
  {
    var o := OrigMask((8 - keep) as bv4);
    MasksFor(keep);
    FlippedBit(orig, random, o, Mask(keep), (0xFF ^ o) >> 1);
    SingleBit(orig, keep);
  }

  lemma MixByteFills(orig: bv8, keep: nat, random: bv8, i: nat)
    requires keep < i < 8
    ensures Bit(MixByte(orig, keep, random), i) == Bit(random, i)
  {
    var o := OrigMask((8 - keep) as bv4);
    MasksFor(keep);
    RandomBit(orig, random, o, Mask(keep), (0xFF ^ o) >> 1, Mask(i));
  }

  /** The mixed byte: the first bits are the original's, the next one is not, the others are random. */
  lemma MixByteIs(orig: bv8, keep: nat, random: bv8)
    requires keep < 8
    ensures var b := MixByte(orig, keep, random);
            && (forall i :: 0 <= i < keep ==> Bit(b, i) == Bit(orig, i))
            && Bit(b, keep) != Bit(orig, keep)
            && forall i :: keep < i < 8 ==> Bit(b, i) == Bit(random, i)
  {
    MixByteFlips(orig, keep, random);
    forall i | 0 <= i < keep ensures Bit(MixByte(orig, keep, random), i) == Bit(orig, i) {
      MixByteKeeps(orig, keep, random, i);
    }
    forall i | keep < i < 8 ensures Bit(MixByte(orig, keep, random), i) == Bit(random, i) {
      MixByteFills(orig, keep, random, i);
    }
  }

  lemma SingleBit(x: bv8, i: nat)
    requires i < 8
    ensures ((x & Mask(i)) ^ Mask(i) != 0) == (x & Mask(i) == 0)
  {
  }

  lemma EqualBytesEqualBits(a: ByteKey, b: ByteKey, n: nat, i: nat)
    requires n <= |a| && |a| == |b| && (forall j :: 0 <= j < n ==> a[j] == b[j]) && i < 8 * n
    ensures ToBits(a)[i] == ToBits(b)[i]
  {
    var o, j := i / 8, i % 8;
    assert i == 8 * o + j && a[o] == b[o];
    BitOf(a, o, j);
    BitOf(b, o, j);
  }

  lemma SameBit(a: ByteKey, b: ByteKey, o: nat, j: nat)
    requires |a| == |b| && o < |a| && j < 8
    ensures (ToBits(a)[8 * o + j] == ToBits(b)[8 * o + j]) == (Bit(a[o], j) == Bit(b[o], j))
  {
    BitOf(a, o, j);
    BitOf(b, o, j);
  }

  lemma BitBeforeFlip(key: ByteKey, local: ByteKey, targetCpl: nat, i: nat)
    requires |key| == |local| && i < targetCpl < 8 * |local|
    requires forall j :: 0 <= j < targetCpl / 8 ==> key[j] == local[j]
    requires forall j :: 0 <= j < targetCpl % 8 ==> Bit(key[targetCpl / 8], j) == Bit(local[targetCpl / 8], j)
    ensures ToBits(key)[i] == ToBits(local)[i]
  {
    var o := targetCpl / 8;
    if i < 8 * o {
      EqualBytesEqualBits(key, local, o, i);
    } else {
      SameBit(key, local, o, i - 8 * o);
    }
  }

  /** Whole bytes of the local key, then one mixed byte: the common prefix ends exactly where the mixed byte flips. */
  lemma PrefixEndsAtFlip(key: ByteKey, local: ByteKey, targetCpl: nat, random: bv8)
    requires |key| == |local| && targetCpl < 8 * |local|
    requires forall j :: 0 <= j < targetCpl / 8 ==> key[j] == local[j]
    requires key[targetCpl / 8] == MixByte(local[targetCpl / 8], targetCpl % 8, random)
    ensures CommonPrefixLen(ToBits(key), ToBits(local)) == targetCpl
  {
    var o, keep := targetCpl / 8, targetCpl % 8;
    MixByteIs(local[o], keep, random);
    var x, y := ToBits(key), ToBits(local);
    forall i | 0 <= i < targetCpl ensures x[i] == y[i] {
      BitBeforeFlip(key, local, targetCpl, i);
    }
    SameBit(key, local, o, keep);
    PrefixUnique(x, y, targetCpl);
  }

  /** From the flipped bit on the key is the random one. */
  lemma RestIsRandom(key: ByteKey, local: ByteKey, random: ByteKey, targetCpl: nat, i: nat)
    requires |key| == |local| == |random| && targetCpl < i < 8 * |local|
    requires key[targetCpl / 8] == MixByte(local[targetCpl / 8], targetCpl % 8, random[targetCpl / 8])
    requires forall j :: targetCpl / 8 < j < |local| ==> key[j] == random[j]
    ensures ToBits(key)[i] == ToBits(random)[i]
  {
    MixByteIs(local[targetCpl / 8], targetCpl % 8, random[targetCpl / 8]);
    BitOf(key, i / 8, i % 8);
    BitOf(random, i / 8, i % 8);
  }

  /**
   A key whose common prefix with the local key is exactly targetCpl bits, for every request that is not rejected,
   but for requests whose successor does not fit a signed integer: those pass the check and run off the key.
   */
  method GenRandomKey(local: ByteKey, targetCpl: nat, random: ByteKey) returns (r: Generated)
    requires 8 * |local| < TWO_63 && targetCpl < TWO_64 && |random| == |local|
    ensures r.Rejected? <==> !Accepted(|local|, targetCpl)
    ensures r.Panicked? <==> Accepted(|local|, targetCpl) && targetCpl + 1 >= TWO_63
    ensures r.Key? ==> |r.key| == |local| && CommonPrefixLen(ToBits(r.key), ToBits(local)) == targetCpl
    ensures r.Key? ==> forall i :: targetCpl < i < 8 * |local| ==> ToBits(r.key)[i] == ToBits(random)[i]
  {
    if ToInt64(targetCpl + 1) >= |local| * 8 {
      return Rejected;
    }
    AcceptedWithinTheKey(|local|, targetCpl);
    var partialOffset := targetCpl / 8;
    if partialOffset >= |local| {
      return Panicked;
    }
    var output := new bv8[|local|](_ => 0);
    for j := 0 to partialOffset
      invariant forall k :: 0 <= k < j ==> output[k] == local[k]
    {
      output[j] := local[j];
    }
    for j := partialOffset to |local|
      invariant forall k :: 0 <= k < partialOffset ==> output[k] == local[k]
      invariant forall k :: partialOffset <= k < j ==> output[k] == random[k]
    {
      output[j] := random[j];
    }
    output[partialOffset] := MixByte(local[partialOffset], targetCpl % 8, output[partialOffset]);
    var key := output[..];
    PrefixEndsAtFlip(key, local, targetCpl, random[partialOffset]);
    forall i | targetCpl < i < 8 * |local| ensures ToBits(key)[i] == ToBits(random)[i] {
      RestIsRandom(key, local, random, targetCpl, i);
    }
    return Key(key);
  }

  // ----- sixteen-bit prefixes -----

  function Mask16(i: bv5): bv16
    requires i < 16
  {
    0x8000 >> i
  }

  /** The i-th of sixteen bits, most significant first. */
  predicate Bit16(x: bv16, i: bv5)
    requires i < 16
  {
    x & Mask16(i) != 0
  }

  function Mix16(x: bv16, y: bv16, f: bv16, mask: bv16): bv16 { ((x ^ f) & mask) | (y & (0xFFFF ^ mask)) }

  function PrefixMask(targetCpl: bv5): bv16
    requires targetCpl < 16
  {
    0xFFFF << (16 - (targetCpl + 1))
  }

  /** The prefix GenRandPeerID looks up: the local prefix up to targetCpl, the flipped bit, then random bits. */
  function TargetPrefix(localPrefix: bv16, targetCpl: bv5, randPrefix: bv16): bv16
    requires targetCpl < 16
  {
    Mix16(localPrefix, randPrefix, Mask16(targetCpl), PrefixMask(targetCpl))
  }

  /** The looked-up prefix agrees with the local one on exactly the first targetCpl bits. */
  lemma TargetPrefixIsExact(localPrefix: bv16, targetCpl: bv5, randPrefix: bv16)
    requires targetCpl < 16
    ensures var p := TargetPrefix(localPrefix, targetCpl, randPrefix);
            && (forall i: bv5 :: i < targetCpl ==> Bit16(p, i) == Bit16(localPrefix, i))
            && Bit16(p, targetCpl) != Bit16(localPrefix, targetCpl)
  {
  }

  lemma TargetPrefixIsRandomAfter(localPrefix: bv16, targetCpl: bv5, randPrefix: bv16, i: bv5)
    requires targetCpl < i < 16
    ensures Bit16(TargetPrefix(localPrefix, targetCpl, randPrefix), i) == Bit16(randPrefix, i)
  {
    BeyondPrefixMask(targetCpl, i);
    MixedBeyond(localPrefix, randPrefix, Mask16(targetCpl), PrefixMask(targetCpl), Mask16(i));
  }

  lemma BeyondPrefixMask(t: bv5, i: bv5)
    requires t < i < 16
    ensures Mask16(i) & PrefixMask(t) == 0
  {
  }

  lemma MixedBeyond(x: bv16, y: bv16, f: bv16, mask: bv16, m: bv16)
    requires m & mask == 0
    ensures Mix16(x, y, f, mask) & m == y & m
  {
  }

  /** binary.BigEndian.Uint16: the first two bytes as one number. */
  function Uint16(s: ByteKey): bv16
    requires |s| >= 2
  {
    ((s[0] as bv16) << 8) | (s[1] as bv16)
  }

  function Index(i: nat): (r: bv5)
    requires i < 16
    ensures r < 16
  {
    if i == 0 then 0 else if i == 1 then 1 else if i == 2 then 2 else if i == 3 then 3 else if i == 4 then 4
    else if i == 5 then 5
    else if i == 6 then 6 else if i == 7 then 7 else if i == 8 then 8 else if i == 9 then 9 else if i == 10 then 10
    else if i == 11 then 11 else if i == 12 then 12 else if i == 13 then 13 else if i == 14 then 14 else 15
  }

  /** The first two bytes hold the first sixteen bits, in order. */
  lemma Bit16OfHigh(a: bv8, b: bv8, i: nat)
    requires i < 8
    ensures Bit16(((a as bv16) << 8) | (b as bv16), Index(i)) == Bit(a, i)
  {
  }

  lemma Bit16OfLow(a: bv8, b: bv8, i: nat)
    requires i < 8
    ensures Bit16(((a as bv16) << 8) | (b as bv16), Index(8 + i)) == Bit(b, i)
  {
  }

  lemma PrefixBit(s: ByteKey, i: nat)
    requires |s| >= 2 && i < 16
    ensures Bit16(Uint16(s), Index(i)) == ToBits(s)[i]
  {
    if i < 8 {
      BitOf(s, 0, i);
      Bit16OfHigh(s[0], s[1], i);
    } else {
      BitOf(s, 1, i - 8);
      Bit16OfLow(s[0], s[1], i - 8);
    }
  }

  lemma IndexOrder(i: nat, t: nat)
    requires i < t < 16
    ensures Index(i) < Index(t)
  {
  }

  /** Any key with the prefix that was looked up shares exactly targetCpl bits with the local key. */
  lemma KeysUnderTargetPrefix(key: ByteKey, local: ByteKey, targetCpl: nat, randPrefix: bv16)
    requires |key| == |local| >= 2 && targetCpl <= MAX_CPL_FOR_REFRESH
    requires Uint16(key) == TargetPrefix(Uint16(local), Index(targetCpl), randPrefix)
    ensures CommonPrefixLen(ToBits(key), ToBits(local)) == targetCpl
  {
    TargetPrefixIsExact(Uint16(local), Index(targetCpl), randPrefix);
    forall i | 0 <= i < targetCpl ensures ToBits(key)[i] == ToBits(local)[i] {
      IndexOrder(i, targetCpl);
      PrefixBit(key, i);
      PrefixBit(local, i);
    }
    PrefixBit(key, targetCpl);
    PrefixBit(local, targetCpl);
    PrefixUnique(ToBits(key), ToBits(local), targetCpl);
  }

  datatype Sought = Sought(prefix: bv16) | TooDeep

  /**
   The prefix under which a peer of the requested depth is looked up; requests beyond the tracked depths are refused.
   */
  method GenRandPeerPrefix(local: ByteKey, targetCpl: nat, randPrefix: bv16) returns (r: Sought)
    requires |local| >= 2
    ensures r.TooDeep? <==> targetCpl > MAX_CPL_FOR_REFRESH
    ensures r.Sought? ==> forall key :: |key| == |local| && Uint16(key) == r.prefix ==>
                                    CommonPrefixLen(ToBits(key), ToBits(local)) == targetCpl
    ensures r.Sought? ==> forall i: bv5 :: Index(targetCpl) < i < 16 ==> Bit16(r.prefix, i) == Bit16(randPrefix, i)
  {
    if targetCpl > MAX_CPL_FOR_REFRESH {
      return TooDeep;
    }
    var targetPrefix := TargetPrefix(Uint16(local), Index(targetCpl), randPrefix);
    forall i: bv5 | Index(targetCpl) < i < 16 ensures Bit16(targetPrefix, i) == Bit16(randPrefix, i) {
      TargetPrefixIsRandomAfter(Uint16(local), Index(targetCpl), randPrefix, i);
    }
    forall key: ByteKey | |key| == |local| && Uint16(key) == targetPrefix
      ensures CommonPrefixLen(ToBits(key), ToBits(local)) == targetCpl
    {
      KeysUnderTargetPrefix(key, local, targetCpl, randPrefix);
    }
    return Sought(targetPrefix);
  }

  // ----- refresh times -----

  /** When each depth was last refreshed; depths beyond MAX_CPL_FOR_REFRESH are not tracked. */
  class RefreshTimes {
    const local: Id
    var cplRefreshedAt: map<nat, int>

    constructor (local: Id)
      ensures this.local == local && cplRefreshedAt == map[]
    {
      this.local := local;
      cplRefreshedAt := map[];
    }

    method ResetCplRefreshedAtForID(id: Id, newTime: int)
      modifies this
      ensures var cpl := CommonPrefixLen(id, local);
              cplRefreshedAt == if cpl > MAX_CPL_FOR_REFRESH then old(cplRefreshedAt)
                  else old(cplRefreshedAt)[cpl := newTime]
    {
      var cpl := CommonPrefixLen(id, local);
      if cpl > MAX_CPL_FOR_REFRESH {
        return;
      }
      cplRefreshedAt := cplRefreshedAt[cpl := newTime];
    }

    /**
     One time for each depth up to that of the table's deepest peer, or up to the limit; zero where there was no
     refresh.
     */
    method GetTrackedCplsForRefresh(rt: RoutingTable, zero: int) returns (cpls: seq<int>, ghost deepest: nat)
      requires rt.Valid()
      ensures IsDeepest(deepest, Lists(rt.buckets), rt.local)
      ensures |cpls| == Min(deepest, MAX_CPL_FOR_REFRESH) + 1
      ensures forall i :: 0 <= i < |cpls| ==> cpls[i] == if i in cplRefreshedAt then cplRefreshedAt[i] else zero
    {
      var maxCommonPrefix := rt.MaxCommonPrefix();
      deepest := maxCommonPrefix;
      var last := if maxCommonPrefix > MAX_CPL_FOR_REFRESH then MAX_CPL_FOR_REFRESH else maxCommonPrefix;
      cpls := [];
      for i := 0 to last + 1
        invariant |cpls| == i
        invariant forall j :: 0 <= j < i ==> cpls[j] == if j in cplRefreshedAt then cplRefreshedAt[j] else zero
      {
        cpls := cpls + [if i in cplRefreshedAt then cplRefreshedAt[i] else zero];
      }
    }
  }
}
