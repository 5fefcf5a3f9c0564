/**
 The peer set of one lookup (qpeerset/qpeerset.go): a slice that is appended to, sorted when asked for and
 then only if something was appended since, with states overwritten in place.
 */
module QPeersets {
  import opened KeySpace
  import opened Nearest
  import opened Lookup

  /** `distance` is the big-endian integer value of the XOR with the key. */
  datatype QueryPeerState = QueryPeerState(id: PeerId, distance: nat, state: PeerState, referredBy: PeerId)

  ghost predicate DistinctIds(all: seq<QueryPeerState>) {
    forall i, j :: 0 <= i < j < |all| ==> all[i].id != all[j].id
  }

  lemma ReachableStates(m: States)
    ensures InStates(m, {PeerHeard, PeerWaiting, PeerQueried}) == Reachable(m)
  {
  }

  lemma AllStates(m: States)
    ensures InStates(m, {PeerHeard, PeerWaiting, PeerQueried, PeerUnreachable}) == m.Keys
  {
    forall p | p in m ensures p in InStates(m, {PeerHeard, PeerWaiting, PeerQueried, PeerUnreachable}) {
      assert m[p].PeerHeard? || m[p].PeerWaiting? || m[p].PeerQueried? || m[p].PeerUnreachable?;
    }
  }

  lemma OneState(m: States, st: PeerState)
    ensures InStates(m, {st}) == With(m, st)
  {
  }

  /** The slice says of every peer what the map says. */
  ghost predicate Tells(all: seq<QueryPeerState>, m: States, key: Id) {
    && (forall e :: e in Elems(all) ==> e.id in m && e.state == m[e.id] && e.distance == Dist(key, e.id.kad))
    && (forall p :: p in m ==> exists e :: e in Elems(all) && e.id == p)
  }

  function IdsIn(all: seq<QueryPeerState>, ss: set<PeerState>): seq<PeerId> {
    if all == [] then []
    else IdsIn(all[..|all| - 1], ss) + if all[|all| - 1].state in ss then [all[|all| - 1].id] else []
  }

  lemma {:induction false} IdsInAre(all: seq<QueryPeerState>, ss: set<PeerState>)
    ensures forall p :: p in Elems(IdsIn(all, ss)) <==> exists e :: e in Elems(all) && e.id == p && e.state in ss
  {
    if all != [] {
      var t, x := all[..|all| - 1], all[|all| - 1];
      IdsInAre(t, ss);
      assert all == t + [x] && Elems(all) == Elems(t) + {x};
      assert Elems(IdsIn(all, ss)) == Elems(IdsIn(t, ss)) + if x.state in ss then {x.id} else {};
    }
  }

  function DistanceOf(e: QueryPeerState): nat { e.distance }

  lemma LastIsFarthest(t: seq<QueryPeerState>, x: QueryPeerState, r: seq<PeerId>, key: Id)
    requires DistinctIds(t + [x]) && Ascending(t + [x], DistanceOf)
    requires forall e :: e in Elems(t) || e == x ==> e.distance == Dist(key, e.id.kad)
    requires forall p :: p in Elems(r) ==> exists e :: e in Elems(t) && e.id == p
    ensures forall i :: 0 <= i < |r| ==> r[i] != x.id && By(key)(r[i]) <= By(key)(x.id)
  {
    var all := t + [x];
    forall i | 0 <= i < |r| ensures r[i] != x.id && By(key)(r[i]) <= By(key)(x.id) {
      assert r[i] in Elems(r);
      var e :| e in Elems(t) && e.id == r[i];
      var j :| 0 <= j < |t| && t[j] == e;
      assert all[j] == e && all[|t|] == x;
      assert DistanceOf(all[j]) <= DistanceOf(all[|t|]);
    }
  }

  /** Filtering the sorted slice by state keeps distinctness and distance order. */
  lemma {:induction false} IdsInOrder(all: seq<QueryPeerState>, ss: set<PeerState>, key: Id)
    requires DistinctIds(all) && Ascending(all, DistanceOf)
    requires forall e :: e in Elems(all) ==> e.distance == Dist(key, e.id.kad)
    ensures NoDup(IdsIn(all, ss)) && Ascending(IdsIn(all, ss), By(key))
  {
    if all != [] {
      var t, x := all[..|all| - 1], all[|all| - 1];
      assert all == t + [x];
      assert Elems(all) == Elems(t) + {x};
      IdsInOrder(t, ss, key);
      IdsInAre(t, ss);
      LastIsFarthest(t, x, IdsIn(t, ss), key);
      SnocInOrder(IdsIn(t, ss), x.id, By(key));
    }
  }

  lemma SnocInOrder(r: seq<PeerId>, p: PeerId, d: PeerId -> nat)
    requires NoDup(r) && Ascending(r, d) && forall i :: 0 <= i < |r| ==> r[i] != p && d(r[i]) <= d(p)
    ensures NoDup(r + [p]) && Ascending(r + [p], d)
  {
  }

  lemma SortedListAnswers(all: seq<QueryPeerState>, m: States, key: Id, n: nat, ss: set<PeerState>)
    requires DistinctIds(all) && Ascending(all, DistanceOf) && Tells(all, m, key)
    ensures var r := IdsIn(all, ss);
            IsNearest(r[..Min(n, |r|)], InStates(m, ss), n, By(key)) && |r| == |InStates(m, ss)|
  {
    var r, pool := IdsIn(all, ss), InStates(m, ss);
    IdsInOrder(all, ss, key);
    IdsInAre(all, ss);
    forall p ensures p in r <==> p in pool {
      assert p in r <==> p in Elems(r);
    }
    assert Elems(r) == pool;
    NoDupCardinality(r);
    SortedPrefixIsNearest(r, pool, n, By(key));
  }

  lemma AppendTells(all: seq<QueryPeerState>, m: States, key: Id, e: QueryPeerState)
    requires DistinctIds(all) && Tells(all, m, key) && e.id !in m && e.distance == Dist(key, e.id.kad)
    ensures DistinctIds(all + [e]) && Tells(all + [e], m[e.id := e.state], key)
  {
  }

  lemma OverwriteElems(all: seq<QueryPeerState>, i: nat, e: QueryPeerState)
    requires DistinctIds(all) && i < |all| && e.id == all[i].id
    ensures DistinctIds(all[i := e])
    ensures Elems(all[i := e]) == Elems(all) - {all[i]} + {e}
  {
    var r := all[i := e];
    forall x | x in Elems(all) - {all[i]} + {e} ensures x in Elems(r) {
      if x != e {
        var j :| 0 <= j < |all| && all[j] == x;
        assert r[j] == x;
      } else {
        assert r[i] == x;
      }
    }
    forall x | x in Elems(r) && x != e ensures x in Elems(all) - {all[i]} {
      var j :| 0 <= j < |r| && r[j] == x;
      assert all[j] == x && all[j].id != all[i].id;
    }
  }

  lemma OverwriteTells(all: seq<QueryPeerState>, m: States, key: Id, i: nat, st: PeerState)
    requires DistinctIds(all) && Tells(all, m, key) && i < |all|
    ensures var e := all[i].(state := st);
            DistinctIds(all[i := e]) && Tells(all[i := e], m[e.id := st], key)
    ensures forall j :: 0 <= j < |all| ==> all[i := all[i].(state := st)][j].distance == all[j].distance
  {
    var e := all[i].(state := st);
    OverwriteElems(all, i, e);
    assert all[i] in Elems(all);
    forall x | x in Elems(all) && x.id == e.id ensures x == all[i] {
      var j :| 0 <= j < |all| && all[j] == x;
    }
    forall p | p in m ensures exists x :: x in Elems(all[i := e]) && x.id == p {
      var x :| x in Elems(all) && x.id == p;
      assert (if x == all[i] then e else x) in Elems(all[i := e]);
    }
  }

  lemma PermutationTells(a: seq<QueryPeerState>, b: seq<QueryPeerState>, m: States, key: Id)
    requires multiset(a) == multiset(b) && DistinctIds(a) && Tells(a, m, key)
    ensures DistinctIds(b) && Tells(b, m, key)
  {
    NoDupPermutation(a, b);
    forall i, j | 0 <= i < j < |b| ensures b[i].id != b[j].id {
      assert b[i] in Elems(a) && b[j] in Elems(a);
      var x :| 0 <= x < |a| && a[x] == b[i];
      var y :| 0 <= y < |a| && a[y] == b[j];
    }
  }

  lemma NotMoreThanAll(all: seq<QueryPeerState>, m: States, key: Id, ss: set<PeerState>)
    requires Tells(all, m, key)
    ensures |InStates(m, ss)| <= |all|
  {
    IdsInAre(all, ss);
    var r := IdsIn(all, ss);
    assert InStates(m, ss) == Elems(r);
    IdsInNoMore(all, ss);
  }

  lemma {:induction false} IdsInNoMore(all: seq<QueryPeerState>, ss: set<PeerState>)
    ensures |Elems(IdsIn(all, ss))| <= |IdsIn(all, ss)| <= |all|
  {
    if all != [] {
      var t, x := all[..|all| - 1], all[|all| - 1];
      IdsInNoMore(t, ss);
      assert Elems(IdsIn(all, ss)) == Elems(IdsIn(t, ss)) + if x.state in ss then {x.id} else {};
    }
  }

  /** Asking for more than there are is asking for all. */
  lemma {:induction false} NearestMonotone<T(!new)>(out: seq<T>, pool: set<T>, n: nat, n': nat, d: T -> nat)
    requires IsNearest(out, pool, n, d) && |pool| <= n && |pool| <= n'
    ensures IsNearest(out, pool, n', d)
    decreases n
  {
    if n > 0 && pool != {} {
      assert |pool - {out[0]}| == |pool| - 1;
      NearestMonotone(out[1..], pool - {out[0]}, n - 1, n' - 1, d);
    }
  }

  class QueryPeerset {
    const key: Id
    var all: seq<QueryPeerState>
    var sorted: bool
    ghost var states: States

    ghost predicate Valid()
      reads this
    {
      && DistinctIds(all)
      && Tells(all, states, key)
      && (sorted ==> Ascending(all, DistanceOf))
    }

    constructor (key: Id)
      ensures Valid() && states == map[] && this.key == key
    {
      this.key := key;
      all, sorted, states := [], false, map[];
    }

    method Find(p: PeerId) returns (i: int)
      requires Valid()
      ensures i == -1 || (0 <= i < |all| && all[i].id == p)
      ensures i == -1 <==> p !in states
    {
      for j := 0 to |all|
        invariant forall k :: 0 <= k < j ==> all[k].id != p
      {
        if all[j].id == p {
          assert all[j] in Elems(all);
          return j;
        }
      }
      return -1;
    }

    method DistanceToKey(p: PeerId) returns (d: nat)
      ensures d == Dist(key, p.kad)
    {
      XorSymmetric(p.kad, key);
      d := Value(Xor(p.kad, key));
    }

    /** A peer not yet known is heard of; a known one is left as it is. */
    method TryAdd(p: PeerId, referredBy: PeerId) returns (added: bool)
      requires Valid()
      modifies this
      ensures Valid()
      ensures added <==> p !in old(states)
      ensures states == if added then old(states)[p := PeerHeard] else old(states)
    {
      var i := Find(p);
      if i >= 0 {
        return false;
      }
      var d := DistanceToKey(p);
      var e := QueryPeerState(p, d, PeerHeard, referredBy);
      AppendTells(all, states, key, e);
      all := all + [e];
      sorted := false;
      states := states[p := PeerHeard];
      return true;
    }

    method Sort()
      requires Valid()
      modifies this
      ensures Valid() && sorted && states == old(states) && |all| == |old(all)|
    {
      if sorted {
        return;
      }
      var r := Nearest.Sort(all, (a: QueryPeerState, b: QueryPeerState) => a.distance < b.distance, DistanceOf);
      assert |multiset(r)| == |multiset(all)|;
      PermutationTells(all, r, states, key);
      all := r;
      sorted := true;
    }

    method SetState(p: PeerId, st: PeerState)
      requires Valid() && p in states
      modifies this
      ensures Valid() && states == old(states)[p := st]
    {
      var i := Find(p);
      OverwriteTells(all, states, key, i, st);
      all := all[i := all[i].(state := st)];
      states := states[p := st];
    }

    method GetState(p: PeerId) returns (st: PeerState)
      requires Valid() && p in states
      ensures st == states[p]
    {
      var i := Find(p);
      assert all[i] in Elems(all);
      st := all[i].state;
    }

    method IdsInStates(ss: set<PeerState>) returns (result: seq<PeerId>)
      ensures result == IdsIn(all, ss)
    {
      result := [];
      for i := 0 to |all|
        invariant result == IdsIn(all[..i], ss)
      {
        assert all[..i + 1][..i] == all[..i];
        if all[i].state in ss {
          result := result + [all[i].id];
        }
      }
      assert all[..|all|] == all;
    }

    /** The n closest of the peers in the given states. */
    method GetClosestNInStates(n: nat, ss: set<PeerState>) returns (result: seq<PeerId>)
      requires Valid()
      modifies this
      ensures Valid() && states == old(states)
      ensures IsNearest(result, InStates(states, ss), n, By(key))
    {
      Sort();
      var r := IdsInStates(ss);
      SortedListAnswers(all, states, key, n, ss);
      result := if |r| >= n then r[..n] else r;
      assert result == r[..Nearest.Min(n, |r|)];
    }

    /** All peers in the given states, closest first. */
    method GetClosestInStates(ss: set<PeerState>) returns (result: seq<PeerId>)
      requires Valid()
      modifies this
      ensures Valid() && states == old(states)
      ensures IsNearest(result, InStates(states, ss), |InStates(states, ss)|, By(key))
      ensures |result| == |InStates(states, ss)|
    {
      var n := |all|;
      ghost var pool := InStates(states, ss);
      NotMoreThanAll(all, states, key, ss);
      result := GetClosestNInStates(n, ss);
      NearestMeans(result, pool, n, By(key));
      NearestMonotone(result, pool, n, |pool|, By(key));
    }

    method NumIn(st: PeerState) returns (n: nat)
      requires Valid()
      modifies this
      ensures Valid() && states == old(states)
      ensures n == |With(states, st)|
    {
      var r := GetClosestInStates({st});
      OneState(states, st);
      n := |r|;
    }
  }
}
