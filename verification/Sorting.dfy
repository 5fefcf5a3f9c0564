/**
 The distance sorter (kbucket/sorting.go): peers are collected with their distance to a target and sorted by it.
 */
module DistanceSorting {
  import opened KeySpace
  import opened Nearest
  import opened Table

  datatype PeerDistance = PeerDistance(p: PeerId, mode: int, distance: Id)

  function PeersOf(ds: seq<PeerDistance>): (r: seq<PeerId>)
    ensures |r| == |ds|
  {
    seq(|ds|, i requires 0 <= i < |ds| => ds[i].p)
  }

  function Key(x: PeerDistance): nat { Value(x.distance) }

  predicate Closer(x: PeerDistance, y: PeerDistance) { Less(x.distance, y.distance) }

  /** Every distance is the peer's to the target; no mode was ever filled in. */
  ghost predicate Measured(ds: seq<PeerDistance>, target: Id) {
    forall i :: 0 <= i < |ds| ==> ds[i].distance == Xor(target, ds[i].p.kad) && ds[i].mode == 0
  }

  lemma CloserIsKeyOrder()
    ensures forall x: PeerDistance, y: PeerDistance :: Closer(x, y) <==> Key(x) < Key(y)
  {
    forall x: PeerDistance, y: PeerDistance ensures Closer(x, y) <==> Key(x) < Key(y) {
      LessIsIntegerOrder(x.distance, y.distance);
    }
  }

  lemma PeersOfConcat(a: seq<PeerDistance>, b: seq<PeerDistance>)
    ensures PeersOf(a + b) == PeersOf(a) + PeersOf(b)
  {
  }

  lemma PeersOfInsert(l: seq<PeerDistance>, x: PeerDistance, r: seq<PeerDistance>)
    ensures multiset(PeersOf(l + [x] + r)) == multiset{x.p} + multiset(PeersOf(l + r))
  {
    PeersOfConcat(l + [x], r);
    PeersOfConcat(l, [x]);
    PeersOfConcat(l, r);
    assert PeersOf([x]) == [x.p];
  }

  lemma TakeOut(b: seq<PeerDistance>, x: PeerDistance) returns (l: seq<PeerDistance>, r: seq<PeerDistance>)
    requires x in b
    ensures b == l + [x] + r && |l + r| == |b| - 1
    ensures multiset(l + r) == multiset(b) - multiset{x}
  {
    var j :| 0 <= j < |b| && b[j] == x;
    l, r := b[..j], b[j + 1..];
    assert b == l + [x] + r;
  }

  /** A permutation lists each peer as often as before. */
  lemma {:induction false} PermutationKeepsPeers(a: seq<PeerDistance>, b: seq<PeerDistance>)
    requires multiset(a) == multiset(b)
    ensures multiset(PeersOf(a)) == multiset(PeersOf(b))
    decreases |a|
  {
    if a == [] {
      assert |b| == |multiset(b)| == 0;
    } else {
      var x := a[0];
      assert x in multiset(a) && x in multiset(b);
      var k, t := TakeOut(a, x);
      var l, r := TakeOut(b, x);
      PermutationKeepsPeers(k + t, l + r);
      PeersOfInsert(k, x, t);
      PeersOfInsert(l, x, r);
    }
  }

  lemma PeersOfFirstN(ds: seq<PeerDistance>, n: nat)
    ensures PeersOf(FirstN(ds, n)) == PeersOf(ds)[..Min(n, |ds|)]
  {
  }

  lemma PermutationIsMeasured(a: seq<PeerDistance>, b: seq<PeerDistance>, target: Id)
    requires multiset(a) == multiset(b) && Measured(a, target)
    ensures Measured(b, target)
  {
    forall i | 0 <= i < |b| ensures b[i].distance == Xor(target, b[i].p.kad) && b[i].mode == 0 {
      assert b[i] in multiset(b);
      assert b[i] in a;
    }
  }

  class PeerDistanceSorter {
    var peers: seq<PeerDistance>
    const target: Id

    constructor (target: Id)
      ensures peers == [] && this.target == target
    {
      this.target := target;
      peers := [];
    }

    /** The mode field is not given a value, so it is zero. */
    method AppendPeer(p: PeerId, dhtId: Id)
      modifies this
      ensures peers == old(peers) + [PeerDistance(p, 0, Xor(target, dhtId))]
    {
      peers := peers + [PeerDistance(p, 0, Xor(target, dhtId))];
    }

    method AppendPeersFromList(b: Entries)
      requires Measured(peers, target)
      requires forall x :: x in Elems(b) ==> x.dhtId == x.id.kad
      modifies this
      ensures Measured(peers, target)
      ensures PeersOf(peers) == PeersOf(old(peers)) + IdsOf(b)
    {
      for e := 0 to |b|
        invariant Measured(peers, target)
        invariant PeersOf(peers) == PeersOf(old(peers)) + IdsOf(b[..e])
      {
        assert b[e] in Elems(b);
        ghost var before := peers;
        AppendPeer(b[e].id, b[e].dhtId);
        assert PeersOf(peers) == PeersOf(before) + [b[e].id];
        assert IdsOf(b[..e + 1]) == IdsOf(b[..e]) + [b[e].id];
      }
      assert b[..|b|] == b;
    }

    /** The same peers, closest first. */
    method Sort()
      requires Measured(peers, target)
      modifies this
      ensures Measured(peers, target)
      ensures multiset(PeersOf(peers)) == multiset(PeersOf(old(peers)))
      ensures Ascending(PeersOf(peers), By(target))
    {
      CloserIsKeyOrder();
      var sorted := Nearest.Sort(peers, Closer, Key);
      PermutationKeepsPeers(peers, sorted);
      PermutationIsMeasured(peers, sorted, target);
      forall i, j | 0 <= i < j < |sorted| ensures By(target)(PeersOf(sorted)[i]) <= By(target)(PeersOf(sorted)[j]) {
        assert Key(sorted[i]) <= Key(sorted[j]);
      }
      peers := sorted;
    }
  }

  /** kbucket's `SortClosestPeers`: the given peers, closest to the target first. */
  method SortClosestPeers(peers: seq<PeerId>, target: Id) returns (out: seq<PeerId>)
    ensures multiset(out) == multiset(peers)
    ensures Ascending(out, By(target))
  {
    var sorter := new PeerDistanceSorter(target);
    for i := 0 to |peers|
      invariant Measured(sorter.peers, target)
      invariant PeersOf(sorter.peers) == peers[..i]
    {
      sorter.AppendPeer(peers[i], peers[i].kad);
    }
    assert peers[..|peers|] == peers;
    sorter.Sort();
    out := PeersOf(sorter.peers);
  }
}
