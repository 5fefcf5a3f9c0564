/**
 What "the n closest" means for any notion of distance, independently of how they are found,
 and the sort that finds them.
 */
module Nearest {

  function Min(a: int, b: int): int { if a < b then a else b }

  ghost predicate NoDup<T>(s: seq<T>) {
    forall i, j :: 0 <= i < j < |s| ==> s[i] != s[j]
  }

  function Elems<T>(s: seq<T>): set<T> { set x | x in s }

  /** At most the first n. */
  function FirstN<T>(s: seq<T>, n: nat): (r: seq<T>)
    ensures r == s[..Min(n, |s|)]
  {
    if n < |s| then s[..n] else s
  }

  ghost predicate Ascending<T(!new)>(s: seq<T>, d: T -> nat) {
    forall i, j :: 0 <= i < j < |s| ==> d(s[i]) <= d(s[j])
  }

  ghost predicate IsClosest<T(!new)>(p: T, pool: set<T>, d: T -> nat) {
    p in pool && forall q :: q in pool ==> d(p) <= d(q)
  }

  /** `out` is a closest member of the pool followed by the n - 1 closest of the others, as far as the pool reaches. */
  ghost predicate IsNearest<T(!new)>(out: seq<T>, pool: set<T>, n: nat, d: T -> nat) {
    if n == 0 || pool == {} then out == []
    else out != [] && IsClosest(out[0], pool, d) && IsNearest(out[1..], pool - {out[0]}, n - 1, d)
  }

  /**
   What being the n nearest gives: distinct members in distance order, and nobody left out is closer than anybody
   listed.
   */
  lemma {:induction false} NearestMeans<T(!new)>(out: seq<T>, pool: set<T>, n: nat, d: T -> nat)
    requires IsNearest(out, pool, n, d)
    ensures |out| == Min(n, |pool|)
    ensures NoDup(out) && Ascending(out, d)
    ensures forall i :: 0 <= i < |out| ==> out[i] in pool
    ensures forall i, p :: 0 <= i < |out| && p in pool && p !in out ==> d(out[i]) <= d(p)
  {
    if out != [] {
      NearestMeans(out[1..], pool - {out[0]}, n - 1, d);
      ClosestLeads(out, pool, d);
    }
  }

  lemma ClosestLeads<T(!new)>(out: seq<T>, pool: set<T>, d: T -> nat)
    requires out != [] && IsClosest(out[0], pool, d) && NoDup(out[1..]) && Ascending(out[1..], d)
    requires forall i :: 0 <= i < |out[1..]| ==> out[1..][i] in pool - {out[0]}
    requires forall i, p :: 0 <= i < |out[1..]| && p in pool - {out[0]} && p !in out[1..] ==> d(out[1..][i]) <= d(p)
    ensures NoDup(out) && Ascending(out, d)
    ensures forall i :: 0 <= i < |out| ==> out[i] in pool
    ensures forall i, p :: 0 <= i < |out| && p in pool && p !in out ==> d(out[i]) <= d(p)
  {
    var rest := out[1..];
    assert forall i :: 1 <= i < |out| ==> out[i] == rest[i - 1];
    forall i, p | 0 <= i < |out| && p in pool && p !in out ensures d(out[i]) <= d(p) {
      assert p !in rest;
    }
  }

  lemma NearestCons<T(!new)>(x: T, rest: seq<T>, pool: set<T>, n: nat, d: T -> nat)
    requires n > 0 && IsClosest(x, pool, d) && IsNearest(rest, pool - {x}, n - 1, d)
    ensures IsNearest([x] + rest, pool, n, d)
  {
    assert ([x] + rest)[1..] == rest;
  }

  lemma PrefixOfCons<T>(r: seq<T>, k: nat)
    requires 0 < k <= |r|
    ensures r[..k] == [r[0]] + r[1..][..k - 1]
  {
  }

  /** No two members of the pool are equally far. */
  ghost predicate Separates<T(!new)>(d: T -> nat, pool: set<T>) {
    forall p, q :: p in pool && q in pool && d(p) == d(q) ==> p == q
  }

  lemma {:induction false} ClosestExists<T(!new)>(pool: set<T>, d: T -> nat)
    requires pool != {}
    ensures exists p :: IsClosest(p, pool, d)
  {
    var q :| q in pool;
    var others := pool - {q};
    assert pool == others + {q};
    if others == {} {
      assert IsClosest(q, pool, d);
    } else {
      ClosestExists(others, d);
      var r :| IsClosest(r, others, d);
      assert IsClosest(if d(q) < d(r) then q else r, pool, d);
    }
  }

  /** The brute-force reference: the whole pool by repeated selection of a closest member. */
  ghost function Ranking<T(!new)>(pool: set<T>, d: T -> nat): (r: seq<T>)
    ensures |r| == |pool|
    decreases |pool|
  {
    if pool == {} then []
    else
      ClosestExists(pool, d);
      var p :| IsClosest(p, pool, d);
      [p] + Ranking(pool - {p}, d)
  }

  /** The brute-force ranking cut anywhere is a nearest list; where distances separate it is the only one. */
  lemma {:induction false} RankingPrefixIsNearest<T(!new)>(pool: set<T>, n: nat, d: T -> nat)
    ensures IsNearest(Ranking(pool, d)[..Min(n, |pool|)], pool, n, d)
    decreases n
  {
    if n > 0 && pool != {} {
      var r := Ranking(pool, d);
      RankingPrefixIsNearest(pool - {r[0]}, n - 1, d);
      PrefixOfCons(r, Min(n, |pool|));
      NearestCons(r[0], r[1..][..Min(n, |pool|) - 1], pool, n, d);
    }
  }

  lemma {:induction false} NearestIsRankingPrefix<T(!new)>(out: seq<T>, pool: set<T>, n: nat, d: T -> nat)
    requires Separates(d, pool) && IsNearest(out, pool, n, d)
    ensures out == Ranking(pool, d)[..Min(n, |pool|)]
    decreases n
  {
    if n > 0 && pool != {} {
      var r := Ranking(pool, d);
      assert IsClosest(r[0], pool, d) && out[0] == r[0];
      NearestIsRankingPrefix(out[1..], pool - {out[0]}, n - 1, d);
      PrefixOfCons(r, Min(n, |pool|));
    }
  }

  /** A sorted list of members that nobody in the pool but not in the list beats. */
  ghost predicate LeadsPool<T(!new)>(s: seq<T>, pool: set<T>, d: T -> nat) {
    && NoDup(s)
    && Ascending(s, d)
    && (forall x :: x in s ==> x in pool)
    && (forall x, p :: x in s && p in pool && p !in s ==> d(x) <= d(p))
  }

  lemma LeadsPoolTail<T(!new)>(s: seq<T>, pool: set<T>, d: T -> nat)
    requires LeadsPool(s, pool, d) && s != []
    ensures IsClosest(s[0], pool, d)
    ensures LeadsPool(s[1..], pool - {s[0]}, d)
  {
  }

  lemma CoversTail<T>(s: seq<T>, pool: set<T>)
    requires s != [] && forall p :: p in pool ==> p in s
    ensures forall p :: p in pool - {s[0]} ==> p in s[1..]
  {
    assert s == [s[0]] + s[1..];
  }

  lemma {:induction false} LeadersAreNearest<T(!new)>(out: seq<T>, pool: set<T>, n: nat, d: T -> nat)
    requires LeadsPool(out, pool, d)
    requires |out| == n || (|out| < n && forall p :: p in pool ==> p in out)
    ensures IsNearest(out, pool, n, d)
    decreases n
  {
    if out == [] {
      assert n > 0 ==> pool == {};
    } else {
      LeadsPoolTail(out, pool, d);
      if |out| < n {
        CoversTail(out, pool);
      }
      LeadersAreNearest(out[1..], pool - {out[0]}, n - 1, d);
    }
  }

  lemma PrefixLeads<T(!new)>(s: seq<T>, k: nat, pool: set<T>, d: T -> nat)
    requires LeadsPool(s, pool, d) && k <= |s|
    ensures LeadsPool(s[..k], pool, d)
  {
    assert s == s[..k] + s[k..];
    forall x, p | x in s[..k] && p in pool && p !in s[..k] ensures d(x) <= d(p) {
      if p in s {
        var i :| 0 <= i < k && s[i] == x;
        var j :| 0 <= j < |s[k..]| && s[k..][j] == p;
        assert s[k + j] == p;
      }
    }
  }

  /** Sorting enough of the pool and cutting is finding the nearest, when what was not sorted is no closer. */
  lemma SortedPrefixIsNearest<T(!new)>(s: seq<T>, pool: set<T>, n: nat, d: T -> nat)
    requires LeadsPool(s, pool, d)
    requires |s| >= n || forall p :: p in pool ==> p in s
    ensures IsNearest(s[..Min(n, |s|)], pool, n, d)
  {
    var k := Min(n, |s|);
    PrefixLeads(s, k, pool, d);
    assert k < n ==> s[..k] == s;
    LeadersAreNearest(s[..k], pool, n, d);
  }

  // ----- lists without repetition -----

  lemma ElemsCons<T>(x: T, s: seq<T>)
    ensures Elems([x] + s) == {x} + Elems(s)
  {
  }

  lemma {:induction false} NoDupCardinality<T>(s: seq<T>)
    requires NoDup(s)
    ensures |Elems(s)| == |s|
  {
    if s != [] {
      var i := |s| - 1;
      NoDupCardinality(s[..i]);
      assert Elems(s) == Elems(s[..i]) + {s[i]};
    }
  }

  lemma {:induction false} NoDupMultiset<T>(s: seq<T>)
    requires NoDup(s)
    ensures forall x :: multiset(s)[x] <= 1
  {
    if s != [] {
      var i := |s| - 1;
      NoDupMultiset(s[..i]);
      assert s == s[..i] + [s[i]];
      assert s[i] !in s[..i];
    }
  }

  lemma NoDupPermutation<T>(a: seq<T>, b: seq<T>)
    requires multiset(a) == multiset(b) && NoDup(a)
    ensures NoDup(b) && Elems(a) == Elems(b)
  {
    forall x ensures x in a <==> x in b {
      assert x in a <==> x in multiset(a);
      assert x in b <==> x in multiset(b);
    }
    NoDupMultiset(a);
    forall i, j | 0 <= i < j < |b| ensures b[i] != b[j] {
      assert b == b[..i] + [b[i]] + b[i + 1..j] + [b[j]] + b[j + 1..];
      assert b[i] == b[j] ==> multiset(b)[b[i]] >= 2;
    }
  }

  lemma Subset<T>(a: set<T>, b: set<T>)
    requires a <= b
    ensures |a| <= |b|
  {
    assert b == a + (b - a);
  }

  lemma Whole<T(!new)>(s: seq<T>, pool: set<T>)
    requires NoDup(s) && |s| == |pool| && forall i :: 0 <= i < |s| ==> s[i] in pool
    ensures forall p :: p in pool ==> p in s
  {
    NoDupCardinality(s);
    assert Elems(s) <= pool;
    SameSize(Elems(s), pool);
    assert forall p :: p in pool ==> p in Elems(s);
  }

  lemma SameSize<T>(a: set<T>, b: set<T>)
    requires a <= b && |a| == |b|
    ensures a == b
  {
    assert |b - a| == |b| - |a|;
  }

  // ----- the library sort -----

  function InsertAt<T>(s: seq<T>, k: nat, x: T): seq<T>
    requires k <= |s|
  {
    s[..k] + [x] + s[k..]
  }

  lemma InsertKeepsOrder<T(!new)>(s: seq<T>, k: nat, x: T, d: T -> nat)
    requires k <= |s| && Ascending(s, d)
    requires k > 0 ==> d(s[k - 1]) <= d(x)
    requires k < |s| ==> d(x) <= d(s[k])
    ensures Ascending(InsertAt(s, k, x), d)
  {
  }

  lemma InsertIsPermutation<T>(s: seq<T>, k: nat, x: T)
    requires k <= |s|
    ensures multiset(InsertAt(s, k, x)) == multiset(s) + multiset{x}
  {
    assert s == s[..k] + s[k..];
  }

  /**
   A permutation in non-decreasing order of the key that `less` compares.
   The algorithm is not the library's, and ties may come out in any order.
   */
  method Sort<T(!new)>(s: seq<T>, less: (T, T) -> bool, ghost key: T -> nat) returns (r: seq<T>)
    requires forall x, y :: less(x, y) <==> key(x) < key(y)
    ensures multiset(r) == multiset(s)
    ensures Ascending(r, key)
  {
    r := [];
    for n := 0 to |s|
      invariant multiset(r) == multiset(s[..n])
      invariant Ascending(r, key)
    {
      var k := |r|;
      while k > 0 && less(s[n], r[k - 1])
        invariant 0 <= k <= |r|
        invariant k < |r| ==> key(s[n]) <= key(r[k])
      {
        k := k - 1;
      }
      InsertKeepsOrder(r, k, s[n], key);
      InsertIsPermutation(r, k, s[n]);
      assert s[..n + 1] == s[..n] + [s[n]];
      assert multiset(s[..n + 1]) == multiset(s[..n]) + multiset{s[n]};
      r := InsertAt(r, k, s[n]);
    }
    assert s[..|s|] == s;
  }
}
