/**
 What the routing table keeps: shape, exact contents and agreement with the filter and the callbacks,
 for every operation and over every run.
 */
module TableLaws {
  import opened KeySpace
  import opened Nearest
  import opened Table

  // ----- one bucket at a time -----

  lemma FindsIt(b: Entries, p: PeerId)
    ensures Has(b, p) <==> !Avoids(b, p)
  {
  }

  lemma WithoutIs(b: Entries, p: PeerId)
    requires Distinct(b) && Has(b, p)
    ensures Distinct(Without(b, p))
    ensures Elems(Without(b, p)) == Elems(b) - {b[Find(b, p)]}
    ensures |Without(b, p)| == |b| - 1
  {
  }

  /** A peer is in the table exactly if it is in the bucket of its depth. */
  lemma Located(bs: Buckets, k: nat, local: Id, p: PeerId)
    requires Shape(bs, k, local)
    ensures p in Members(bs) <==> Has(bs[BucketIdFor(bs, local, p)], p)
  {
    var i := BucketIdFor(bs, local, p);
    FindsIt(bs[i], p);
    if Has(bs[i], p) {
      assert bs[i][Find(bs[i], p)] in Infos(bs);
    }
    if p in Members(bs) {
      var j, x :| 0 <= j < |bs| && x in Elems(bs[j]) && x.id == p;
      assert BucketShape(bs[j], j, j == |bs| - 1, k, local);
      assert Fits(x, j, j == |bs| - 1, local);
      assert j == i;
    }
  }

  lemma OneBucketEach(bs: Buckets, k: nat, local: Id, i: nat, j: nat, x: PeerInfo, y: PeerInfo)
    requires Shape(bs, k, local)
    requires i < |bs| && j < |bs| && x in Elems(bs[i]) && y in Elems(bs[j]) && x.id == y.id
    ensures i == j && x == y
  {
  }

  lemma OtherBucketsLackIt(bs: Buckets, k: nat, local: Id, i: nat, j: nat, x: PeerInfo)
    requires Shape(bs, k, local)
    requires i < |bs| && j < |bs| && i != j && x in Elems(bs[j])
    ensures x !in Elems(bs[i])
  {
  }

  lemma ReplaceBucket(bs: Buckets, k: nat, local: Id, i: nat, b: Entries)
    requires Shape(bs, k, local) && i < |bs|
    ensures Infos(bs[i := b]) == Infos(bs) - Elems(bs[i]) + Elems(b)
  {
    var r := bs[i := b];
    forall x | x in Infos(bs) - Elems(bs[i]) ensures x in Infos(r) {
      var j :| 0 <= j < |bs| && x in Elems(bs[j]);
      assert x in Elems(r[j]);
    }
    forall x | x in Elems(b) ensures x in Infos(r) {
      assert x in Elems(r[i]);
    }
    forall x | x in Infos(r) ensures x in Infos(bs) - Elems(bs[i]) + Elems(b) {
      var j: nat :| 0 <= j < |r| && x in Elems(r[j]);
      if j != i {
        assert x in Elems(bs[j]);
        OtherBucketsLackIt(bs, k, local, i, j, x);
      }
    }
  }

  // ----- collapsing -----

  lemma DropLast(bs: Buckets, k: nat, local: Id)
    requires Shape(bs, k, local) && |bs| > 1 && bs[|bs| - 1] == []
    ensures Shape(bs[..|bs| - 1], k, local)
    ensures Infos(bs[..|bs| - 1]) == Infos(bs)
  {
  }

  lemma MergeLast(bs: Buckets, k: nat, local: Id)
    requires Shape(bs, k, local) && |bs| >= 2 && bs[|bs| - 2] == []
    ensures Shape(bs[..|bs| - 2] + [bs[|bs| - 1]], k, local)
    ensures Infos(bs[..|bs| - 2] + [bs[|bs| - 1]]) == Infos(bs)
  {
    var n, r := |bs|, bs[..|bs| - 2] + [bs[|bs| - 1]];
    forall i | 0 <= i < n - 1 ensures BucketShape(r[i], i, i == n - 2, k, local) {
      assert BucketShape(bs[if i == n - 2 then n - 1 else i], if i == n - 2 then n - 1 else i, i == n - 2, k, local);
    }
    forall i, x | 0 <= i < n && x in Elems(bs[i]) ensures x in Infos(r) {
      assert x in Elems(r[if i == n - 1 then n - 2 else i]);
    }
    forall i, x | 0 <= i < n - 1 && x in Elems(r[i]) ensures x in Infos(bs) {
      assert x in Elems(bs[if i == n - 2 then n - 1 else i]);
    }
  }

  ghost predicate TailFull(bs: Buckets) {
    |bs| == 1 || (bs[|bs| - 1] != [] && bs[|bs| - 2] != [])
  }

  lemma {:induction false} CollapseKeeps(bs: Buckets, k: nat, local: Id)
    requires Shape(bs, k, local)
    ensures Shape(Collapse(bs), k, local)
    ensures Infos(Collapse(bs)) == Infos(bs)
    ensures TailFull(Collapse(bs))
    decreases |bs|
  {
    var n := |bs|;
    if n > 1 && bs[n - 1] == [] {
      DropLast(bs, k, local);
      CollapseKeeps(bs[..n - 1], k, local);
    } else if n >= 2 && bs[n - 2] == [] {
      MergeLast(bs, k, local);
      CollapseKeeps(bs[..n - 2] + [bs[n - 1]], k, local);
    }
  }

  // ----- adding and removing -----

  lemma InItsBucket(bs: Buckets, k: nat, local: Id, i: nat, x: PeerInfo)
    requires Shape(bs, k, local) && i < |bs|
    ensures x in Elems(bs[i]) <==> x in Infos(bs) && Min(Cpl(local, x), |bs| - 1) == i
  {
  }

  lemma DistinctCardinality(b: Entries)
    requires Distinct(b)
    ensures |Elems(b)| == |b|
  {
    NoDupCardinality(b);
  }

  lemma ShapeMonotone(bs: Buckets, k: nat, k': nat, local: Id)
    requires Shape(bs, k, local) && k <= k'
    ensures Shape(bs, k', local)
  {
  }

  lemma PushKeepsShape(bs: Buckets, k: nat, local: Id, e: PeerInfo)
    requires Shape(bs, k, local) && e.dhtId == e.id.kad
    requires var b := bs[BucketIdFor(bs, local, e.id)]; !Has(b, e.id) && |b| < k
    ensures var i := BucketIdFor(bs, local, e.id);
            && Shape(bs[i := [e] + bs[i]], k, local)
            && Infos(bs[i := [e] + bs[i]]) == Infos(bs) + {e}
  {
    var i := BucketIdFor(bs, local, e.id);
    var b := [e] + bs[i];
    FindsIt(bs[i], e.id);
    ElemsCons(e, bs[i]);
    assert b[1..] == bs[i];
    DistinctHead(b);
    ReplaceBucket(bs, k, local, i, b);
    forall x | x in Elems(bs[i]) ensures x in Infos(bs) {}
  }

  /** Removing a peer removes its one entry and leaves a table whose last two buckets are not empty. */
  lemma RemoveKeepsShape(bs: Buckets, k: nat, k': nat, local: Id, p: PeerId)
    requires Shape(bs, k', local)
    requires var i := BucketIdFor(bs, local, p);
             && Has(bs[i], p)
             && |bs[i]| <= k + 1
             && forall j :: 0 <= j < |bs| && j != i ==> |bs[j]| <= k
    ensures var i := BucketIdFor(bs, local, p);
            var r := RemoveFrom(bs, local, p);
            && Shape(r, k, local)
            && TailFull(r)
            && Infos(r) == Infos(bs) - {bs[i][Find(bs[i], p)]}
            && p !in Members(r)
  {
    var i := BucketIdFor(bs, local, p);
    var b := Without(bs[i], p);
    var x := bs[i][Find(bs[i], p)];
    WithoutIs(bs[i], p);
    ReplaceBucket(bs, k', local, i, b);
    assert x in Elems(bs[i]);
    var r := bs[i := b];
    forall j | 0 <= j < |r| ensures BucketShape(r[j], j, j == |r| - 1, k, local) {
      assert BucketShape(bs[j], j, j == |r| - 1, k', local);
    }
    assert Infos(r) == Infos(bs) - {x} by {
      assert forall y :: y in Elems(bs[i]) ==> y in Infos(bs);
    }
    CollapseKeeps(r, k, local);
    forall y | y in Infos(bs) && y.id == p ensures y == x {
      var j: nat :| 0 <= j < |bs| && y in Elems(bs[j]);
      OneBucketEach(bs, k', local, i, j, x, y);
    }
  }

  lemma MakeRoomKeeps(bs: Buckets, k: nat, local: Id, p: PeerId)
    requires Shape(bs, k, local) && k >= 1
    ensures Shape(MakeRoom(bs, k, local, p), k, local)
    ensures Infos(MakeRoom(bs, k, local, p)) == Infos(bs)
  {
    NextBucketKeeps(bs, k, local);
  }

  ghost predicate SomeOtherDepth(b: Entries, local: Id, p: PeerId) {
    exists x :: x in Elems(b) && Cpl(local, x) != CommonPrefixLen(local, p.kad)
  }

  /**
   What unfolding leaves in p's bucket: those of the old last bucket that are as deep as the new index tells apart.
   */
  lemma UnfoldedBucket(bs: Buckets, k: nat, local: Id, p: PeerId)
    requires Shape(bs, k, local) && k >= 1 && BucketIdFor(bs, local, p) == |bs| - 1
    ensures var r := NextBucket(bs, k, local);
            var i := BucketIdFor(r, local, p);
            && i >= |bs| - 1
            && |Elems(r[i])| == |r[i]|
            && (i == |r| - 1 ==> |r[i]| < k)
            && forall x :: x in Elems(r[i]) <==> x in Elems(bs[|bs| - 1]) && Min(Cpl(local, x), |r| - 1) == i
  {
    var n, r := |bs|, NextBucket(bs, k, local);
    NextBucketKeeps(bs, k, local);
    var i := BucketIdFor(r, local, p);
    forall x ensures x in Elems(r[i]) <==> x in Elems(bs[n - 1]) && Min(Cpl(local, x), |r| - 1) == i {
      InItsBucket(r, k, local, i, x);
      InItsBucket(bs, k, local, n - 1, x);
    }
    assert BucketShape(r[i], i, i == |r| - 1, k, local);
    DistinctCardinality(r[i]);
  }

  /**
   Unfolding makes room for p exactly if somebody in the full last bucket has another depth; otherwise p's bucket is
   the old one.
   */
  lemma UnfoldingMakesRoom(bs: Buckets, k: nat, local: Id, p: PeerId)
    requires Shape(bs, k, local) && k >= 1
    requires BucketIdFor(bs, local, p) == |bs| - 1 && |bs[|bs| - 1]| == k
    ensures var r := NextBucket(bs, k, local);
            var b' := r[BucketIdFor(r, local, p)];
            && (|b'| < k <==> SomeOtherDepth(bs[|bs| - 1], local, p))
            && (|b'| >= k ==> Elems(b') == Elems(bs[|bs| - 1]))
  {
    var b := bs[|bs| - 1];
    if SomeOtherDepth(b, local, p) {
      var x :| x in Elems(b) && Cpl(local, x) != CommonPrefixLen(local, p.kad);
      UnfoldingSheds(bs, k, local, p, x);
    } else {
      UnfoldingMovesAll(bs, k, local, p);
    }
  }

  lemma UnfoldingSheds(bs: Buckets, k: nat, local: Id, p: PeerId, x: PeerInfo)
    requires Shape(bs, k, local) && k >= 1
    requires BucketIdFor(bs, local, p) == |bs| - 1 && |bs[|bs| - 1]| == k
    requires x in Elems(bs[|bs| - 1]) && Cpl(local, x) != CommonPrefixLen(local, p.kad)
    ensures var r := NextBucket(bs, k, local); |r[BucketIdFor(r, local, p)]| < k
  {
    var b, r := bs[|bs| - 1], NextBucket(bs, k, local);
    var i := BucketIdFor(r, local, p);
    UnfoldedBucket(bs, k, local, p);
    assert BucketShape(b, |bs| - 1, true, k, local);
    DistinctCardinality(b);
    if i < |r| - 1 {
      assert Elems(r[i]) <= Elems(b) - {x};
      Subset(Elems(r[i]), Elems(b) - {x});
    }
  }

  lemma UnfoldingMovesAll(bs: Buckets, k: nat, local: Id, p: PeerId)
    requires Shape(bs, k, local) && k >= 1
    requires BucketIdFor(bs, local, p) == |bs| - 1 && !SomeOtherDepth(bs[|bs| - 1], local, p)
    ensures var r := NextBucket(bs, k, local);
            var b' := r[BucketIdFor(r, local, p)];
            Elems(b') == Elems(bs[|bs| - 1]) && |b'| == |bs[|bs| - 1]|
  {
    var b, r := bs[|bs| - 1], NextBucket(bs, k, local);
    UnfoldedBucket(bs, k, local, p);
    assert BucketShape(b, |bs| - 1, true, k, local);
    DistinctCardinality(b);
    assert Elems(r[BucketIdFor(r, local, p)]) == Elems(b);
  }

  // ----- the main results -----

  /** Who is in the table according to the callbacks. */
  function Replay(events: seq<Event>): set<PeerId> {
    if events == [] then {} else Heard(Replay(events[..|events| - 1]), events[|events| - 1])
  }

  function Heard(s: set<PeerId>, e: Event): set<PeerId> {
    if e.PeerAdded? then s + {e.p} else s - {e.p}
  }

  /** Shape, and three accounts of membership that agree: the buckets, the diversity filter, the callbacks. */
  ghost predicate Good(s: TableState, c: Config) {
    && c.bucketSize >= 1
    && Shape(s.buckets, c.bucketSize, c.local)
    && Replay(s.events) == Members(s.buckets)
    && s.admitted == if c.filtered then Members(s.buckets) else {}
  }

  function BucketFor(bs: Buckets, local: Id, p: PeerId): Entries { bs[BucketIdFor(bs, local, p)] }

  /** The entry an insertion pushes out: one that can be replaced, and only from a bucket that stays full. */
  function Displaced(bs: Buckets, c: Config, p: PeerId): set<PeerInfo>
    requires c.bucketSize >= 1
  {
    var b := BucketFor(MakeRoom(bs, c.bucketSize, c.local, p), c.local, p);
    if |b| < c.bucketSize then {} else {b[Victim(b)]}
  }

  lemma RemovePeerKeeps(s: TableState, c: Config, p: PeerId)
    requires Good(s, c)
    ensures var (s', removed) := RemovePeer(s, c, p);
            && Good(s', c)
            && (removed <==> p in Members(s.buckets))
            && Members(s'.buckets) == Members(s.buckets) - {p}
            && Infos(s'.buckets) <= Infos(s.buckets)
            && (removed ==> TailFull(s'.buckets))
  {
    Located(s.buckets, c.bucketSize, c.local, p);
    if p in Members(s.buckets) {
      RemoveKeepsShape(s.buckets, c.bucketSize, c.bucketSize, c.local, p);
      var x := BucketFor(s.buckets, c.local, p)[Find(BucketFor(s.buckets, c.local, p), p)];
      assert Members(RemoveFrom(s.buckets, c.local, p)) == Members(s.buckets) - {p};
    }
  }

  lemma ReplayPush(events: seq<Event>, e: Event)
    ensures Replay(events + [e]) == Heard(Replay(events), e)
  {
  }

  lemma VictimAfterPush(bs: Buckets, k: nat, local: Id, e: PeerInfo, v: PeerInfo)
    requires Shape(bs, k, local) && e.dhtId == e.id.kad && e.id !in Members(bs)
    requires v in Elems(BucketFor(bs, local, e.id)) && |BucketFor(bs, local, e.id)| <= k
    ensures var i := BucketIdFor(bs, local, e.id);
            var pushed := bs[i := [e] + bs[i]];
            && Shape(pushed, k + 1, local)
            && Infos(pushed) == Infos(bs) + {e}
            && BucketIdFor(pushed, local, v.id) == i
            && Has(pushed[i], v.id) && pushed[i][Find(pushed[i], v.id)] == v
  {
    var i := BucketIdFor(bs, local, e.id);
    var pushed := bs[i := [e] + bs[i]];
    Located(bs, k, local, e.id);
    ShapeMonotone(bs, k, k + 1, local);
    PushKeepsShape(bs, k + 1, local, e);
    ElemsCons(e, bs[i]);
    EntryIsFound(pushed, k + 1, local, i, v);
  }

  lemma EntryIsFound(bs: Buckets, k: nat, local: Id, i: nat, v: PeerInfo)
    requires Shape(bs, k, local) && i < |bs| && v in Elems(bs[i])
    ensures BucketIdFor(bs, local, v.id) == i
    ensures Has(bs[i], v.id) && bs[i][Find(bs[i], v.id)] == v
  {
    assert Fits(v, i, i == |bs| - 1, local);
    FindsIt(bs[i], v.id);
    var x := bs[i][Find(bs[i], v.id)];
    assert x in Elems(bs[i]);
    OneBucketEach(bs, k, local, i, i, x, v);
  }

  /** Putting the newcomer in front of a full bucket and then removing the victim swaps the two entries. */
  lemma SwapKeeps(bs: Buckets, k: nat, local: Id, e: PeerInfo, v: PeerInfo)
    requires Shape(bs, k, local) && e.dhtId == e.id.kad && e.id !in Members(bs)
    requires v in Elems(BucketFor(bs, local, e.id)) && |BucketFor(bs, local, e.id)| <= k
    ensures var i := BucketIdFor(bs, local, e.id);
            var pushed := bs[i := [e] + bs[i]];
            && Has(BucketFor(pushed, local, v.id), v.id)
            && Shape(RemoveFrom(pushed, local, v.id), k, local)
            && Infos(RemoveFrom(pushed, local, v.id)) == Infos(bs) + {e} - {v}
  {
    var i := BucketIdFor(bs, local, e.id);
    var pushed := bs[i := [e] + bs[i]];
    VictimAfterPush(bs, k, local, e, v);
    forall j | 0 <= j < |pushed| && j != i ensures |pushed[j]| <= k {
      assert BucketShape(bs[j], j, j == |bs| - 1, k, local);
    }
    RemoveKeepsShape(pushed, k, k + 1, local, v.id);
  }

  lemma SwapMembers(bs: Buckets, k: nat, local: Id, bs': Buckets, e: PeerInfo, v: PeerInfo)
    requires Shape(bs, k, local) && v in Infos(bs) && e.id !in Members(bs)
    requires Infos(bs') == Infos(bs) + {e} - {v}
    ensures Members(bs') == Members(bs) + {e.id} - {v.id}
  {
  }

  /** Before a newcomer settles: everything agrees, except that the filter has already let the newcomer in. */
  ghost predicate ReadyFor(s: TableState, c: Config, e: PeerInfo) {
    && c.bucketSize >= 1
    && Shape(s.buckets, c.bucketSize, c.local)
    && e.dhtId == e.id.kad
    && e.id !in Members(s.buckets)
    && Replay(s.events) == Members(s.buckets)
    && s.admitted == if c.filtered then Members(s.buckets) + {e.id} else {}
  }

  lemma SettleInRoom(s: TableState, c: Config, e: PeerInfo)
    requires ReadyFor(s, c, e) && |BucketFor(s.buckets, c.local, e.id)| < c.bucketSize
    ensures Good(Settle(s, c, e).0, c)
    ensures Infos(Settle(s, c, e).0.buckets) == Infos(s.buckets) + {e}
  {
    Located(s.buckets, c.bucketSize, c.local, e.id);
    PushKeepsShape(s.buckets, c.bucketSize, c.local, e);
    ReplayPush(s.events, PeerAdded(e.id));
  }

  lemma SettleBySwap(s: TableState, c: Config, e: PeerInfo)
    requires ReadyFor(s, c, e)
    requires var b := BucketFor(s.buckets, c.local, e.id); |b| >= c.bucketSize && b[Victim(b)].canReplace
    ensures var b := BucketFor(s.buckets, c.local, e.id);
            var s' := Settle(s, c, e).0;
            && Good(s', c)
            && Infos(s'.buckets) == Infos(s.buckets) + {e} - {b[Victim(b)]}
  {
    var k, i := c.bucketSize, BucketIdFor(s.buckets, c.local, e.id);
    var b := s.buckets[i];
    var v := b[Victim(b)];
    assert v in Elems(b) && v in Infos(s.buckets);
    assert BucketShape(b, i, i == |s.buckets| - 1, k, c.local);
    SwapKeeps(s.buckets, k, c.local, e, v);
    var pushed := PushFront(s, i, e);
    var swapped := RemoveFrom(pushed.buckets, c.local, v.id);
    SwapMembers(s.buckets, k, c.local, swapped, e, v);
    ReplayPush(s.events, PeerAdded(e.id));
    ReplayPush(pushed.events, PeerRemoved(v.id));
    assert e.id != v.id by { assert v.id in Members(s.buckets); }
  }

  lemma SameDepthBucketDecides(s: TableState, c: Config, p: PeerId)
    requires Good(s, c) && p !in Members(s.buckets)
    ensures var b := BucketFor(MakeRoom(s.buckets, c.bucketSize, c.local, p), c.local, p);
            UsefulNewPeer(s.buckets, c.bucketSize, c.local, p) <==> |b| < c.bucketSize || AnyCanReplace(b)
  {
    var k, bs := c.bucketSize, s.buckets;
    var i := BucketIdFor(bs, c.local, p);
    var b := bs[i];
    Located(bs, k, c.local, p);
    assert BucketShape(b, i, i == |bs| - 1, k, c.local);
    if |b| >= k && i == |bs| - 1 {
      UnfoldingMakesRoom(bs, k, c.local, p);
      assert forall x :: x in b <==> x in Elems(b);
      var b' := BucketFor(NextBucket(bs, k, c.local), c.local, p);
      assert forall x :: x in b' <==> x in Elems(b');
    }
  }

  /**
   One insertion. The verdict is decided by membership, latency, the filter and `UsefulNewPeer`, in that order;
   a new peer costs at most one entry, which could be replaced; and every account of membership stays right.
   */
  lemma AddPeerKeeps(s: TableState, c: Config, r: Request, now: Time, latency: int, admits: bool)
    requires Good(s, c) && r.p !in Members(s.buckets)
    ensures var (s', v) := AddPeer(s, c, r, now, latency, admits);
            && Good(s', c)
            && v == (if latency > c.maxLatency then HighLatency
                     else if c.filtered && !admits then FilteredOut
                     else if UsefulNewPeer(s.buckets, c.bucketSize, c.local, r.p) then NewlyAdded
                     else NoCapacity)
            && Infos(s'.buckets) ==
               if v == NewlyAdded then Infos(s.buckets) + {NewEntry(r, now)} - Displaced(s.buckets, c, r.p)
               else Infos(s.buckets)
  {
    var k, bs := c.bucketSize, s.buckets;
    Located(bs, k, c.local, r.p);
    if latency <= c.maxLatency && (c.filtered ==> admits) {
      var e := NewEntry(r, now);
      var ready := Admit(s, c, r.p).(buckets := MakeRoom(bs, k, c.local, r.p));
      MakeRoomKeeps(bs, k, c.local, r.p);
      assert ReadyFor(ready, c, e);
      SameDepthBucketDecides(s, c, r.p);
      var b := BucketFor(ready.buckets, c.local, r.p);
      if |b| < k {
        SettleInRoom(ready, c, e);
      } else if b[Victim(b)].canReplace {
        SettleBySwap(ready, c, e);
      }
    }
  }

  /** The entry pushed out could be replaced, shared the newcomer's bucket, and the bucket had no room. */
  lemma DisplacedIs(s: TableState, c: Config, p: PeerId)
    requires Good(s, c) && p !in Members(s.buckets) && UsefulNewPeer(s.buckets, c.bucketSize, c.local, p)
    ensures Displaced(s.buckets, c, p) <= Infos(s.buckets)
    ensures |Displaced(s.buckets, c, p)| <= 1
    ensures forall x :: x in Displaced(s.buckets, c, p) ==> x.canReplace && x in Elems(BucketFor(s.buckets, c.local, p))
  {
    var k, bs := c.bucketSize, s.buckets;
    var room := MakeRoom(bs, k, c.local, p);
    var b := BucketFor(room, c.local, p);
    SameDepthBucketDecides(s, c, p);
    if |b| >= k {
      MakeRoomKeeps(bs, k, c.local, p);
      var i := BucketIdFor(bs, c.local, p);
      assert BucketShape(bs[i], i, i == |bs| - 1, k, c.local);
      if i == |bs| - 1 {
        UnfoldingMakesRoom(bs, k, c.local, p);
      }
      assert b[Victim(b)] in Elems(b) && b[Victim(b)] in Infos(room);
    }
  }

  // ----- the read-only prediction -----

  /** `UsefulNewPeer` predicts the insertion that passes the latency and diversity checks. */
  lemma UsefulNewPeerPredicts(s: TableState, c: Config, r: Request, now: Time, latency: int, admits: bool)
    requires Good(s, c)
    requires latency <= c.maxLatency && (c.filtered ==> admits)
    ensures UsefulNewPeer(s.buckets, c.bucketSize, c.local, r.p) <==>
        AddPeer(s, c, r, now, latency, admits).1 == NewlyAdded
  {
    Located(s.buckets, c.bucketSize, c.local, r.p);
    if r.p !in Members(s.buckets) {
      AddPeerKeeps(s, c, r, now, latency, admits);
    }
  }

  // ----- updates in place -----

  lemma ReplaceEntryKeeps(bs: Buckets, k: nat, local: Id, i: nat, j: nat, x: PeerInfo)
    requires Shape(bs, k, local) && i < |bs| && j < |bs[i]|
    requires x.id == bs[i][j].id && x.dhtId == bs[i][j].dhtId
    ensures var r := bs[i := bs[i][j := x]];
            && Shape(r, k, local)
            && Infos(r) == Infos(bs) - {bs[i][j]} + {x}
            && Members(r) == Members(bs)
  {
    var b, b', y := bs[i], bs[i][j := x], bs[i][j];
    assert BucketShape(b, i, i == |bs| - 1, k, local);
    forall z ensures z in Elems(b') <==> z == x || (z in Elems(b) && z != y) {
      if z in Elems(b) && z != y {
        var a :| 0 <= a < |b| && b[a] == z;
        assert b'[a] == z;
      }
      if z == x {
        assert b'[j] == x;
      }
      if z in Elems(b') && z != x {
        var a :| 0 <= a < |b| && b'[a] == z;
        assert b[a] == z && b[a].id != y.id;
      }
    }
    ReplaceBucket(bs, k, local, i, b');
    assert y in Elems(b) && Fits(y, i, i == |bs| - 1, local);
    assert Elems(b') == Elems(b) - {y} + {x};
    forall z | z in Elems(b) ensures z in Infos(bs) {}
    assert Infos(bs[i := b']) == Infos(bs) - {y} + {x};
    forall z | z in Infos(bs) && z.id == y.id ensures z == y {
      var a: nat :| 0 <= a < |bs| && z in Elems(bs[a]);
      OneBucketEach(bs, k, local, a, i, z, y);
    }
  }

  // ----- every operation, every run -----

  /** A known peer queried for the first time is useful from now on; otherwise its entry stays. */
  lemma KnownPeerOnlyTouched(s: TableState, c: Config, r: Request, now: Time, latency: int, admits: bool)
    requires Good(s, c) && r.p in Members(s.buckets)
    ensures var (s', v) := AddPeer(s, c, r, now, latency, admits);
            && Good(s', c)
            && v == AlreadyPresent
            && Members(s'.buckets) == Members(s.buckets)
            && exists y :: y in Infos(s.buckets) && y.id == r.p
                 && Infos(s'.buckets) == Infos(s.buckets) - {y}
                    + {if y.lastUsefulAt == ZERO_TIME && r.queryPeer then y.(lastUsefulAt := now) else y}
  {
    Located(s.buckets, c.bucketSize, c.local, r.p);
    var i := BucketIdFor(s.buckets, c.local, r.p);
    var b := s.buckets[i];
    var j := Find(b, r.p);
    if b[j].lastUsefulAt == ZERO_TIME && r.queryPeer {
      ReplaceEntryKeeps(s.buckets, c.bucketSize, c.local, i, j, b[j].(lastUsefulAt := now));
    } else {
      assert s.buckets[i := b] == s.buckets;
    }
    assert b[j] in Elems(b) && b[j] in Infos(s.buckets);
    assert Infos(s.buckets) == Infos(s.buckets) - {b[j]} + {b[j]};
  }

  /** An update finds its peer exactly if the peer is in the table, and changes that entry alone. */
  lemma UpdateEntryKeeps(s: TableState, c: Config, p: PeerId, f: PeerInfo -> PeerInfo)
    requires Good(s, c)
    requires forall x :: f(x).id == x.id && f(x).dhtId == x.dhtId
    ensures var (s', found) := UpdateEntry(s, c, p, f);
            && Good(s', c)
            && (found <==> p in Members(s.buckets))
            && Members(s'.buckets) == Members(s.buckets)
            && (if found then
                  exists y :: y in Infos(s.buckets) && y.id == p && Infos(s'.buckets) == Infos(s.buckets) - {y} + {f(y)}
                else s' == s)
  {
    Located(s.buckets, c.bucketSize, c.local, p);
    var i := BucketIdFor(s.buckets, c.local, p);
    var b := s.buckets[i];
    var j := Find(b, p);
    if j < |b| {
      ReplaceEntryKeeps(s.buckets, c.bucketSize, c.local, i, j, f(b[j]));
      assert b[j] in Elems(b) && b[j] in Infos(s.buckets);
    }
  }

  lemma MarkAllKeeps(s: TableState, c: Config)
    requires Good(s, c)
    ensures Good(MarkAll(s), c)
    ensures Infos(MarkAll(s).buckets) == set x | x in Infos(s.buckets) :: x.(canReplace := false)
    ensures Members(MarkAll(s).buckets) == Members(s.buckets)
  {
    var bs, r := s.buckets, MarkAll(s).buckets;
    forall i | 0 <= i < |bs| ensures BucketShape(r[i], i, i == |r| - 1, c.bucketSize, c.local) {
      var b := bs[i];
      assert BucketShape(b, i, i == |bs| - 1, c.bucketSize, c.local);
      forall x | x in Elems(r[i]) ensures Fits(x, i, i == |r| - 1, c.local) {
        var j :| 0 <= j < |b| && r[i][j] == x;
        assert b[j] in Elems(b);
      }
    }
    var marked := set x | x in Infos(bs) :: x.(canReplace := false);
    forall x | x in Infos(r) ensures x in marked {
      var i :| 0 <= i < |bs| && x in Elems(r[i]);
      var j :| 0 <= j < |bs[i]| && r[i][j] == x;
      assert bs[i][j] in Elems(bs[i]) && bs[i][j] in Infos(bs);
    }
    forall y | y in Infos(bs) ensures y.(canReplace := false) in Infos(r) {
      var i :| 0 <= i < |bs| && y in Elems(bs[i]);
      var j :| 0 <= j < |bs[i]| && bs[i][j] == y;
      assert r[i][j] in Elems(r[i]);
    }
    SameIds(Infos(bs), Infos(r));
  }

  lemma SameIds(a: set<PeerInfo>, b: set<PeerInfo>)
    requires b == set x | x in a :: x.(canReplace := false)
    ensures Ids(a) == Ids(b)
  {
  }

  /** Membership changes only by the peer an insertion adds, the one it displaces, and the one a removal removes. */
  lemma ApplyKeeps(s: TableState, c: Config, op: Op)
    requires Good(s, c)
    ensures Good(Apply(s, c, op), c)
    ensures var before, after := Members(s.buckets), Members(Apply(s, c, op).buckets);
            match op
            case Add(r, _, _, _) => after <= before + {r.p} && |before - after| <= 1
            case Remove(p) => after == before - {p}
            case _ => after == before
  {
    match op
    case Add(r, now, latency, admits) =>
      if r.p in Members(s.buckets) {
        KnownPeerOnlyTouched(s, c, r, now, latency, admits);
      } else {
        AddPeerKeeps(s, c, r, now, latency, admits);
        AddChangesOne(s, c, r, now, latency, admits);
      }
    case Remove(p) => RemovePeerKeeps(s, c, p);
    case Queried(p, t) => UpdateEntryKeeps(s, c, p, (x: PeerInfo) => x.(lastSuccessfulOutboundQueryAt := t));
    case Useful(p, t) => UpdateEntryKeeps(s, c, p, (x: PeerInfo) => x.(lastUsefulAt := t));
    case MarkIrreplaceable => MarkAllKeeps(s, c);
  }

  lemma AddChangesOne(s: TableState, c: Config, r: Request, now: Time, latency: int, admits: bool)
    requires Good(s, c) && r.p !in Members(s.buckets)
    ensures var after := Members(AddPeer(s, c, r, now, latency, admits).0.buckets);
            && after <= Members(s.buckets) + {r.p}
            && |Members(s.buckets) - after| <= 1
  {
    AddPeerKeeps(s, c, r, now, latency, admits);
    var (s', v) := AddPeer(s, c, r, now, latency, admits);
    var before, after := Members(s.buckets), Members(s'.buckets);
    if v == NewlyAdded {
      DisplacedIs(s, c, r.p);
      var out := Displaced(s.buckets, c, r.p);
      assert before - after <= Ids(out);
      IdsNoMore(out);
      Subset(before - after, Ids(out));
    } else {
      assert before - after == {};
    }
  }

  lemma IdsNoMore(a: set<PeerInfo>)
    requires |a| <= 1
    ensures |Ids(a)| <= 1
  {
    if a != {} {
      var x :| x in a;
      assert a - {x} == {} by {
        assert |a - {x}| == |a| - 1;
      }
      assert a == {x} + (a - {x});
      assert Ids(a) == {x.id};
    }
  }

  /** Over every run of operations from an empty table. */
  lemma {:induction false} RunKeeps(c: Config, ops: seq<Op>)
    requires c.bucketSize >= 1
    ensures Good(Run(c, ops), c)
  {
    if ops == [] {
      EmptyIsGood(c);
    } else {
      RunKeeps(c, ops[..|ops| - 1]);
      ApplyKeeps(Run(c, ops[..|ops| - 1]), c, ops[|ops| - 1]);
    }
  }

  lemma EmptyIsGood(c: Config)
    requires c.bucketSize >= 1
    ensures Good(EMPTY, c)
  {
  }

  // ----- counting -----

  function CountAt(b: Entries, c: nat, local: Id): nat {
    if b == [] then 0 else (if Cpl(local, b[|b| - 1]) == c then 1 else 0) + CountAt(b[..|b| - 1], c, local)
  }

  function NPeersForCpl(bs: Buckets, local: Id, c: nat): nat {
    if c >= |bs| - 1 then CountAt(bs[|bs| - 1], c, local) else |bs[c]|
  }

  function AtDepth(xs: set<PeerInfo>, c: nat, local: Id): set<PeerInfo> {
    set x | x in xs && Cpl(local, x) == c
  }

  lemma AtDepthPush(xs: set<PeerInfo>, x: PeerInfo, c: nat, local: Id)
    requires x !in xs
    ensures |AtDepth(xs + {x}, c, local)| == |AtDepth(xs, c, local)| + if Cpl(local, x) == c then 1 else 0
  {
    if Cpl(local, x) == c {
      assert AtDepth(xs + {x}, c, local) == AtDepth(xs, c, local) + {x};
    } else {
      assert AtDepth(xs + {x}, c, local) == AtDepth(xs, c, local);
    }
  }

  lemma DistinctLast(b: Entries)
    requires b != [] && Distinct(b)
    ensures var t, x := b[..|b| - 1], b[|b| - 1];
            Distinct(t) && x !in Elems(t) && Elems(b) == Elems(t) + {x}
  {
  }

  lemma {:induction false} CountAtIs(b: Entries, c: nat, local: Id)
    requires Distinct(b)
    ensures CountAt(b, c, local) == |AtDepth(Elems(b), c, local)|
  {
    if b != [] {
      var t, x := b[..|b| - 1], b[|b| - 1];
      DistinctLast(b);
      CountAtIs(t, c, local);
      AtDepthPush(Elems(t), x, c, local);
    }
  }

  /** Reading one bucket counts the peers of that depth in the whole table; so it never exceeds the bucket size. */
  lemma NPeersForCplCounts(bs: Buckets, k: nat, local: Id, c: nat)
    requires Shape(bs, k, local)
    ensures NPeersForCpl(bs, local, c) == |AtDepth(Infos(bs), c, local)|
    ensures NPeersForCpl(bs, local, c) <= k
  {
    var i := Min(c, |bs| - 1);
    assert BucketShape(bs[i], i, i == |bs| - 1, k, local);
    forall x ensures x in AtDepth(Infos(bs), c, local) <==> x in AtDepth(Elems(bs[i]), c, local) {
      InItsBucket(bs, k, local, i, x);
    }
    assert AtDepth(Infos(bs), c, local) == AtDepth(Elems(bs[i]), c, local);
    DistinctCardinality(bs[i]);
    if i == |bs| - 1 {
      CountAtIs(bs[i], c, local);
      Subset(AtDepth(Elems(bs[i]), c, local), Elems(bs[i]));
    } else {
      assert AtDepth(Elems(bs[i]), c, local) == Elems(bs[i]) by {
        forall x | x in Elems(bs[i]) ensures Cpl(local, x) == c { assert Fits(x, i, false, local); }
      }
    }
  }

  /** m is the greatest depth in the table, or 0 in an empty one. */
  ghost predicate IsDeepest(m: nat, bs: seq<Entries>, local: Id) {
    && (forall x :: x in Infos(bs) ==> Cpl(local, x) <= m)
    && (Infos(bs) == {} ==> m == 0)
    && (Infos(bs) != {} ==> exists x :: x in Infos(bs) && Cpl(local, x) == m)
  }

  /** The last non-empty bucket holds the deepest peer of the table. */
  lemma LastNonEmptyIsDeepest(bs: Buckets, k: nat, local: Id, i: nat, x: PeerInfo)
    requires Shape(bs, k, local) && i < |bs| && x in Elems(bs[i])
    requires forall j :: i < j < |bs| ==> bs[j] == []
    requires forall y :: y in Elems(bs[i]) ==> Cpl(local, y) <= Cpl(local, x)
    ensures IsDeepest(Cpl(local, x), bs, local)
  {
    assert Fits(x, i, i == |bs| - 1, local);
    forall y | y in Infos(bs) ensures Cpl(local, y) <= Cpl(local, x) {
      var j :| 0 <= j < |bs| && y in Elems(bs[j]);
      if j < i { assert Fits(y, j, false, local); }
    }
    assert x in Infos(bs);
  }

  // ----- the closest peers -----

  lemma SharesAtLeast(local: Id, t: Id, p: Id, c: nat)
    requires CommonPrefixLen(local, t) >= c && CommonPrefixLen(local, p) >= c
    ensures CommonPrefixLen(t, p) >= c
  {
    PrefixIs(local, t);
    PrefixIs(local, p);
    PrefixTriangle(local, t, p);
  }

  /** The bucket of the target beats every other, and before it the deeper bucket beats the shallower. */
  predicate Beats(i: nat, j: nat, c: nat) {
    (i == c && j != c) || (j < i && j < c)
  }

  lemma BucketBeatsBucket(bs: Buckets, k: nat, local: Id, target: Id, i: nat, j: nat, x: PeerInfo, y: PeerInfo)
    requires Shape(bs, k, local) && i < |bs| && j < |bs|
    requires x in Elems(bs[i]) && y in Elems(bs[j])
    requires Beats(i, j, Min(CommonPrefixLen(local, target), |bs| - 1))
    ensures Dist(target, x.id.kad) < Dist(target, y.id.kad)
  {
    var ct := CommonPrefixLen(local, target);
    var c := Min(ct, |bs| - 1);
    assert Fits(x, i, i == |bs| - 1, local) && Fits(y, j, j == |bs| - 1, local);
    PrefixIs(local, target);
    PrefixIs(local, y.dhtId);
    PrefixTriangle(local, target, x.dhtId);
    PrefixTriangle(local, target, y.dhtId);
    if j > c {
      assert CommonPrefixLen(target, y.dhtId) == c && CommonPrefixLen(target, x.dhtId) > c;
    } else {
      assert CommonPrefixLen(target, y.dhtId) == j;
      SharesAtLeast(local, target, x.dhtId, j + 1);
    }
    LongerPrefixIsCloser(target, x.dhtId, y.dhtId);
  }

  /** `ids` lists, once each, the peers of the buckets lo up to hi. */
  ghost predicate Collected(ids: seq<PeerId>, bs: Buckets, lo: nat, hi: nat)
    requires lo <= hi <= |bs|
  {
    NoDup(ids) && forall p :: p in ids <==> exists i, x :: lo <= i < hi && x in Elems(bs[i]) && x.id == p
  }

  lemma IdsOfBucket(b: Entries)
    requires Distinct(b)
    ensures NoDup(IdsOf(b))
    ensures forall p :: p in IdsOf(b) <==> exists x :: x in Elems(b) && x.id == p
  {
    forall x | x in Elems(b) ensures x.id in IdsOf(b) {
      var i :| 0 <= i < |b| && b[i] == x;
      assert IdsOf(b)[i] == x.id;
    }
    forall p | p in IdsOf(b) ensures exists x :: x in Elems(b) && x.id == p {
      var i :| 0 <= i < |b| && IdsOf(b)[i] == p;
      assert b[i] in Elems(b);
    }
  }

  lemma NoDupConcat<T>(a: seq<T>, b: seq<T>)
    requires NoDup(a) && NoDup(b) && forall x :: x in b ==> x !in a
    ensures NoDup(a + b)
  {
    var s := a + b;
    forall i, j | 0 <= i < j < |s| ensures s[i] != s[j] {
      if i < |a| <= j { assert b[j - |a|] in b && a[i] in a; }
    }
  }

  lemma CollectMore(ids: seq<PeerId>, bs: Buckets, k: nat, local: Id, lo: nat, hi: nat, j: nat)
    requires Shape(bs, k, local) && lo <= hi <= |bs| && Collected(ids, bs, lo, hi)
    requires j < |bs| && (j == hi || j == lo - 1)
    ensures Collected(ids + IdsOf(bs[j]), bs, if j == hi then lo else j, if j == hi then hi + 1 else hi)
  {
    assert BucketShape(bs[j], j, j == |bs| - 1, k, local);
    IdsOfBucket(bs[j]);
    forall p | p in IdsOf(bs[j]) ensures p !in ids {
      var y :| y in Elems(bs[j]) && y.id == p;
      forall i, x | lo <= i < hi && x in Elems(bs[i]) ensures x.id != p {
        if x.id == p {
          OneBucketEach(bs, k, local, i, j, x, y);
        }
      }
    }
    NoDupConcat(ids, IdsOf(bs[j]));
  }

  /** The buckets read so far suffice: nobody in an unread bucket beats anybody collected. */
  lemma CollectedLeads(ids: seq<PeerId>, sorted: seq<PeerId>, bs: Buckets, k: nat, local: Id, target: Id, lo: nat,
        hi: nat)
    requires Shape(bs, k, local) && lo <= hi <= |bs| && Collected(ids, bs, lo, hi)
    requires NoDup(sorted) && Elems(sorted) == Elems(ids) && Ascending(sorted, By(target))
    requires var c := Min(CommonPrefixLen(local, target), |bs| - 1);
             lo <= c < hi && (hi == |bs| || (lo == c && hi == c + 1))
    ensures LeadsPool(sorted, Members(bs), By(target))
    ensures lo == 0 && hi == |bs| ==> forall p :: p in Members(bs) ==> p in sorted
  {
    forall p ensures p in sorted <==> exists i, x :: lo <= i < hi && x in Elems(bs[i]) && x.id == p {
      assert p in sorted <==> p in Elems(sorted);
      assert p in ids <==> p in Elems(ids);
    }
    forall p | p in sorted ensures p in Members(bs) {
      var i, x :| lo <= i < hi && x in Elems(bs[i]) && x.id == p;
      assert x in Infos(bs);
    }
    forall q, p | q in sorted && p in Members(bs) && p !in sorted ensures By(target)(q) <= By(target)(p) {
      var i: nat, x :| lo <= i < hi && x in Elems(bs[i]) && x.id == q;
      var j: nat, y :| 0 <= j < |bs| && y in Elems(bs[j]) && y.id == p;
      assert j < lo || j >= hi;
      BucketBeatsBucket(bs, k, local, target, i, j, x, y);
    }
  }

  /** Sorting what was collected and cutting at the count gives the closest of the whole table. */
  lemma ReadEnough(ids: seq<PeerId>, sorted: seq<PeerId>, bs: Buckets, k: nat, local: Id, target: Id, lo: nat,
        hi: nat, count: nat)
    requires Shape(bs, k, local) && lo <= hi <= |bs| && Collected(ids, bs, lo, hi)
    requires NoDup(sorted) && Elems(sorted) == Elems(ids) && Ascending(sorted, By(target))
    requires var c := Min(CommonPrefixLen(local, target), |bs| - 1);
             lo <= c < hi && (hi == |bs| || (lo == c && hi == c + 1))
    requires |sorted| >= count || (lo == 0 && hi == |bs|)
    ensures IsNearest(sorted[..Min(count, |sorted|)], Members(bs), count, By(target))
  {
    CollectedLeads(ids, sorted, bs, k, local, target, lo, hi);
    SortedPrefixIsNearest(sorted, Members(bs), count, By(target));
  }
}
