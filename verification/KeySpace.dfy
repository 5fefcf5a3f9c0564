/**
 The XOR key space of Kademlia (kbucket/util.go and kbucket/keyspace/xor.go).

 A key is a string of BITS bits, most significant first, which is what a SHA-256 digest is.
 A peer is its raw identifier together with that digest, so that hashing a peer is reading `kad`.
 Distinct peers may carry the same digest; results that need collision freedom say so with `Injective`.
 */
module KeySpace {
  import opened Integers
  import opened Nearest

  const BITS: nat := 256

  type Bits = seq<bool>
  type Id = s: Bits | |s| == BITS witness seq(BITS, _ => false)

  datatype PeerId = PeerId(raw: string, kad: Id)

  function Xor(a: Bits, b: Bits): (r: Bits)
    requires |a| == |b|
    ensures |r| == |a|
  {
    seq(|a|, i requires 0 <= i < |a| => a[i] != b[i])
  }

  function ZeroPrefixLen(s: Bits): nat {
    if s == [] || s[0] then 0 else 1 + ZeroPrefixLen(s[1..])
  }

  function CommonPrefixLen(a: Bits, b: Bits): nat
    requires |a| == |b|
  {
    ZeroPrefixLen(Xor(a, b))
  }

  /** Strict big-endian lexicographic order: what a byte-wise compare decides. */
  predicate Less(a: Bits, b: Bits)
    requires |a| == |b|
  {
    a != [] && if a[0] != b[0] then b[0] else Less(a[1..], b[1..])
  }

  /** The unsigned big-endian integer a bit string denotes. */
  function Value(s: Bits): nat {
    if s == [] then 0 else (if s[0] then Pow2(|s| - 1) else 0) + Value(s[1..])
  }

  /** XOR distance as an integer. */
  function Dist(target: Id, id: Id): nat {
    Value(Xor(target, id))
  }

  function By(target: Id): PeerId -> nat { (p: PeerId) => Dist(target, p.kad) }

  ghost predicate Injective(pool: set<PeerId>) {
    forall p, q :: p in pool && q in pool && p.kad == q.kad ==> p == q
  }

  // ----- order -----

  lemma {:induction false} ValueBound(s: Bits)
    ensures Value(s) < Pow2(|s|)
  {
    if s != [] {
      ValueBound(s[1..]);
    }
  }

  /** The lexicographic order and the integer order are the same order. */
  lemma {:induction false} LessIsIntegerOrder(a: Bits, b: Bits)
    requires |a| == |b|
    ensures Less(a, b) <==> Value(a) < Value(b)
  {
    if a != [] {
      ValueBound(a[1..]);
      ValueBound(b[1..]);
      LessIsIntegerOrder(a[1..], b[1..]);
    }
  }

  lemma {:induction false} ValueInjective(a: Bits, b: Bits)
    requires |a| == |b| && Value(a) == Value(b)
    ensures a == b
  {
    if a != [] {
      ValueBound(a[1..]);
      ValueBound(b[1..]);
      ValueInjective(a[1..], b[1..]);
      assert a == [a[0]] + a[1..] && b == [b[0]] + b[1..];
    }
  }

  lemma XorSymmetric(a: Bits, b: Bits)
    requires |a| == |b|
    ensures Xor(a, b) == Xor(b, a)
  {
  }

  lemma DistInjective(target: Id, a: Id, b: Id)
    requires Dist(target, a) == Dist(target, b)
    ensures a == b
  {
    var x, y := Xor(target, a), Xor(target, b);
    ValueInjective(x, y);
    forall i | 0 <= i < BITS ensures a[i] == b[i] {
      assert x[i] == y[i];
    }
  }

  lemma InjectiveSeparates(target: Id, pool: set<PeerId>)
    requires Injective(pool)
    ensures Separates(By(target), pool)
  {
    forall p, q | p in pool && q in pool && By(target)(p) == By(target)(q) ensures p == q {
      DistInjective(target, p.kad, q.kad);
    }
  }

  /** Without collisions the nearest list is unique: it is the brute-force ranking of the whole pool, cut. */
  lemma NearestIsBruteForce(out: seq<PeerId>, pool: set<PeerId>, n: nat, target: Id)
    requires IsNearest(out, pool, n, By(target))
    ensures Injective(pool) ==> out == Ranking(pool, By(target))[..Min(n, |pool|)]
  {
    if Injective(pool) {
      InjectiveSeparates(target, pool);
      NearestIsRankingPrefix(out, pool, n, By(target));
    }
  }

  // ----- prefixes -----

  /** A zero prefix is a run of zeros that is maximal. */
  lemma {:induction false} ZeroPrefixIs(s: Bits)
    ensures ZeroPrefixLen(s) <= |s|
    ensures forall i :: 0 <= i < ZeroPrefixLen(s) ==> !s[i]
    ensures ZeroPrefixLen(s) < |s| ==> s[ZeroPrefixLen(s)]
  {
    if s != [] && !s[0] {
      ZeroPrefixIs(s[1..]);
      forall i | 0 <= i < ZeroPrefixLen(s) ensures !s[i] {
        if i > 0 { assert s[i] == s[1..][i - 1]; }
      }
    }
  }

  lemma ZeroPrefixUnique(s: Bits, c: nat)
    requires c <= |s| && (forall i :: 0 <= i < c ==> !s[i]) && (c < |s| ==> s[c])
    ensures ZeroPrefixLen(s) == c
  {
    ZeroPrefixIs(s);
  }

  lemma PrefixIs(a: Bits, b: Bits)
    requires |a| == |b|
    ensures var c := CommonPrefixLen(a, b);
            && c <= |a|
            && (forall i :: 0 <= i < c ==> a[i] == b[i])
            && (c < |a| ==> a[c] != b[c])
  {
    var x := Xor(a, b);
    ZeroPrefixIs(x);
    forall i | 0 <= i < ZeroPrefixLen(x) ensures a[i] == b[i] {
      assert !x[i];
    }
  }

  /** The properties of `PrefixIs` determine the common prefix length. */
  lemma PrefixUnique(a: Bits, b: Bits, c: nat)
    requires |a| == |b| && c <= |a|
    requires forall i :: 0 <= i < c ==> a[i] == b[i]
    requires c < |a| ==> a[c] != b[c]
    ensures CommonPrefixLen(a, b) == c
  {
    PrefixIs(a, b);
    var d := CommonPrefixLen(a, b);
    assert d >= c && c >= d;
  }

  lemma PrefixSymmetric(a: Bits, b: Bits)
    requires |a| == |b|
    ensures CommonPrefixLen(a, b) == CommonPrefixLen(b, a)
  {
    XorSymmetric(a, b);
  }

  /** Two keys seen from a third: unequal prefixes give the shorter one, equal prefixes give strictly more. */
  lemma PrefixTriangle(l: Bits, t: Bits, p: Bits)
    requires |l| == |t| == |p|
    ensures var c, d := CommonPrefixLen(l, t), CommonPrefixLen(l, p);
            && (d != c ==> CommonPrefixLen(t, p) == Min(c, d))
            && (d == c ==> CommonPrefixLen(t, p) >= Min(c + 1, |l|))
  {
    PrefixIs(l, t);
    PrefixIs(l, p);
    PrefixIs(t, p);
    var c, d, e := CommonPrefixLen(l, t), CommonPrefixLen(l, p), CommonPrefixLen(t, p);
    if d != c {
      PrefixUnique(t, p, Min(c, d));
    } else {
      assert forall i :: 0 <= i < Min(c + 1, |l|) ==> t[i] == p[i];
    }
  }

  lemma {:induction false} ZeroPrefixOrders(x: Bits, y: Bits)
    requires |x| == |y|
    requires ZeroPrefixLen(x) > ZeroPrefixLen(y)
    ensures Value(x) < Value(y)
  {
    assert x != [] && !x[0] by { ZeroPrefixIs(x); }
    ValueBound(x[1..]);
    if !y[0] {
      ZeroPrefixOrders(x[1..], y[1..]);
    }
  }

  /** Sharing a longer prefix with the target is being strictly closer to it. */
  lemma LongerPrefixIsCloser(target: Id, a: Id, b: Id)
    requires CommonPrefixLen(target, a) > CommonPrefixLen(target, b)
    ensures Dist(target, a) < Dist(target, b)
  {
    ZeroPrefixOrders(Xor(target, a), Xor(target, b));
  }

  /** A key is at distance zero from itself only. */
  lemma DistZero(target: Id, a: Id)
    ensures Dist(target, a) == 0 <==> target == a
  {
    var z := Xor(target, target);
    ValueOfZeros(z);
    assert Dist(target, target) == 0;
    if Dist(target, a) == 0 {
      DistInjective(target, target, a);
    }
  }

  lemma {:induction false} ValueOfZeros(z: Bits)
    requires forall i :: 0 <= i < |z| ==> !z[i]
    ensures Value(z) == 0
  {
    if z != [] {
      ValueOfZeros(z[1..]);
    }
  }
}
