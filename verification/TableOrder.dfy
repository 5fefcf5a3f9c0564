/**
 The order inside the buckets: newest in front, in every run in which the clock does not go back. So the peer that makes
 way for a newcomer is the one that has been in the bucket longest of those that may be replaced.
 */
module TableOrder {
  import opened KeySpace
  import opened Nearest
  import opened Table
  import opened TableLaws

  ghost predicate NewestFirst(b: Entries, t: Time) {
    && (forall i, j :: 0 <= i < j < |b| ==> b[i].addedAt >= b[j].addedAt)
    && forall i :: 0 <= i < |b| ==> b[i].addedAt <= t
  }

  ghost predicate InOrder(bs: seq<Entries>, t: Time) { forall i :: 0 <= i < |bs| ==> NewestFirst(bs[i], t) }

  // ----- one bucket -----

  lemma WithoutKeepsOrder(b: Entries, p: PeerId, t: Time)
    requires NewestFirst(b, t)
    ensures NewestFirst(Without(b, p), t)
  {
    var i, r := Find(b, p), Without(b, p);
    if i < |b| {
      assert forall j :: 0 <= j < |r| ==> r[j] == b[if j < i then j else j + 1];
    }
  }

  lemma InFront(x: PeerInfo, rest: Entries, t: Time)
    requires NewestFirst(rest, t) && x.addedAt <= t && forall y :: y in Elems(rest) ==> y.addedAt <= x.addedAt
    ensures NewestFirst([x] + rest, t)
  {
    forall i | 0 <= i < |rest| ensures rest[i].addedAt <= x.addedAt { assert rest[i] in Elems(rest); }
  }

  lemma HeadIsNewest(b: Entries, t: Time)
    requires NewestFirst(b, t) && b != []
    ensures NewestFirst(b[1..], t) && b[0].addedAt <= t
    ensures forall y :: y in Elems(b[1..]) ==> y.addedAt <= b[0].addedAt
  {
    forall y | y in Elems(b[1..]) ensures y.addedAt <= b[0].addedAt {
      var i :| 0 <= i < |b[1..]| && b[1..][i] == y;
      assert b[i + 1] == y;
    }
  }

  lemma {:induction false} SplitKeepsOrder(b: Entries, c: int, local: Id, t: Time)
    requires NewestFirst(b, t)
    ensures NewestFirst(Shallow(b, c, local), t) && NewestFirst(Deep(b, c, local), t)
  {
    if b != [] {
      HeadIsNewest(b, t);
      SplitKeepsOrder(b[1..], c, local, t);
      SplitIsPartition(b[1..], c, local);
      if Cpl(local, b[0]) > c {
        InFront(b[0], Deep(b[1..], c, local), t);
        assert Shallow(b, c, local) == Shallow(b[1..], c, local);
      } else {
        InFront(b[0], Shallow(b[1..], c, local), t);
        assert Deep(b, c, local) == Deep(b[1..], c, local);
      }
    }
  }

  lemma LaterOrder(bs: seq<Entries>, t: Time, t': Time)
    requires InOrder(bs, t) && t <= t'
    ensures InOrder(bs, t')
  {
    forall i | 0 <= i < |bs| ensures NewestFirst(bs[i], t') { assert NewestFirst(bs[i], t); }
  }

  lemma ReplaceKeepsOrder(bs: seq<Entries>, i: nat, b: Entries, t: Time)
    requires InOrder(bs, t) && i < |bs| && NewestFirst(b, t)
    ensures InOrder(bs[i := b], t)
  {
  }

  lemma SameAgesSameOrder(b: Entries, b': Entries, t: Time)
    requires NewestFirst(b, t) && |b'| == |b| && forall i :: 0 <= i < |b| ==> b'[i].addedAt == b[i].addedAt
    ensures NewestFirst(b', t)
  {
  }

  // ----- the table -----

  lemma UnfoldKeepsOrder(bs: Buckets, local: Id, t: Time)
    requires InOrder(bs, t)
    ensures InOrder(UnfoldOnce(bs, local), t)
  {
    assert NewestFirst(bs[|bs| - 1], t);
    SplitKeepsOrder(bs[|bs| - 1], |bs| - 1, local, t);
  }

  lemma {:induction false} NextBucketKeepsOrder(bs: Buckets, k: nat, local: Id, t: Time)
    requires InOrder(bs, t) && k >= 1
    ensures InOrder(NextBucket(bs, k, local), t)
    decreases BITS + 2 - |bs|
  {
    UnfoldKeepsOrder(bs, local, t);
    NextBucketStarts(bs, k, local);
    var r := UnfoldOnce(bs, local);
    if |r[|bs|]| >= k {
      NextBucketKeepsOrder(r, k, local, t);
    }
  }

  lemma MakeRoomKeepsOrder(bs: Buckets, k: nat, local: Id, p: PeerId, t: Time)
    requires InOrder(bs, t) && k >= 1
    ensures InOrder(MakeRoom(bs, k, local, p), t)
  {
    NextBucketKeepsOrder(bs, k, local, t);
  }

  lemma {:induction false} CollapseKeepsOrder(bs: Buckets, t: Time)
    requires InOrder(bs, t)
    ensures InOrder(Collapse(bs), t)
    decreases |bs|
  {
    var n := |bs|;
    if n > 1 && bs[n - 1] == [] {
      CollapseKeepsOrder(bs[..n - 1], t);
    } else if n >= 2 && bs[n - 2] == [] {
      CollapseKeepsOrder(bs[..n - 2] + [bs[n - 1]], t);
    }
  }

  lemma RemoveKeepsOrder(s: TableState, c: Config, p: PeerId, t: Time)
    requires InOrder(s.buckets, t)
    ensures InOrder(RemovePeer(s, c, p).0.buckets, t)
  {
    var i := BucketIdFor(s.buckets, c.local, p);
    if Has(s.buckets[i], p) {
      WithoutKeepsOrder(s.buckets[i], p, t);
      ReplaceKeepsOrder(s.buckets, i, Without(s.buckets[i], p), t);
      CollapseKeepsOrder(s.buckets[i := Without(s.buckets[i], p)], t);
    }
  }

  lemma PushKeepsOrder(s: TableState, i: nat, e: PeerInfo, t: Time)
    requires InOrder(s.buckets, t) && i < |s.buckets| && e.addedAt == t
    ensures InOrder(PushFront(s, i, e).buckets, t)
  {
    var b := s.buckets[i];
    forall y | y in Elems(b) ensures y.addedAt <= t { var j :| 0 <= j < |b| && b[j] == y; }
    InFront(e, b, t);
    ReplaceKeepsOrder(s.buckets, i, [e] + b, t);
  }

  lemma SettleKeepsOrder(s: TableState, c: Config, e: PeerInfo, t: Time)
    requires c.bucketSize >= 1 && InOrder(s.buckets, t) && e.addedAt == t
    ensures InOrder(Settle(s, c, e).0.buckets, t)
  {
    var i := BucketIdFor(s.buckets, c.local, e.id);
    var b := s.buckets[i];
    PushKeepsOrder(s, i, e, t);
    if |b| >= c.bucketSize && b[Victim(b)].canReplace {
      RemoveKeepsOrder(PushFront(s, i, e), c, b[Victim(b)].id, t);
    }
  }

  lemma AddKeepsOrder(s: TableState, c: Config, r: Request, now: Time, latency: int, admits: bool)
    requires c.bucketSize >= 1 && InOrder(s.buckets, now)
    ensures InOrder(AddPeer(s, c, r, now, latency, admits).0.buckets, now)
  {
    var i := BucketIdFor(s.buckets, c.local, r.p);
    if Has(s.buckets[i], r.p) {
      SameAgesSameOrder(s.buckets[i], Touch(s.buckets[i], r, now), now);
      ReplaceKeepsOrder(s.buckets, i, Touch(s.buckets[i], r, now), now);
    } else if latency <= c.maxLatency && (c.filtered ==> admits) {
      MakeRoomKeepsOrder(s.buckets, c.bucketSize, c.local, r.p, now);
      SettleKeepsOrder(Admit(s, c, r.p).(buckets := MakeRoom(s.buckets, c.bucketSize, c.local, r.p)), c,
        NewEntry(r, now), now);
    }
  }

  lemma UpdateKeepsOrder(s: TableState, c: Config, p: PeerId, f: PeerInfo -> PeerInfo, t: Time)
    requires InOrder(s.buckets, t) && forall x :: f(x).addedAt == x.addedAt
    ensures InOrder(UpdateEntry(s, c, p, f).0.buckets, t)
  {
    var i := BucketIdFor(s.buckets, c.local, p);
    var b := s.buckets[i];
    var j := Find(b, p);
    if j < |b| {
      SameAgesSameOrder(b, b[j := f(b[j])], t);
      ReplaceKeepsOrder(s.buckets, i, b[j := f(b[j])], t);
    }
  }

  lemma MarkKeepsOrder(s: TableState, t: Time)
    requires InOrder(s.buckets, t)
    ensures InOrder(MarkAll(s).buckets, t)
  {
    forall i | 0 <= i < |s.buckets| ensures NewestFirst(MarkBucket(s.buckets[i]), t) {
      SameAgesSameOrder(s.buckets[i], MarkBucket(s.buckets[i]), t);
    }
  }

  lemma ApplyKeepsOrder(s: TableState, c: Config, op: Op, t: Time)
    requires c.bucketSize >= 1 && InOrder(s.buckets, t) && (op.Add? ==> op.now == t)
    ensures InOrder(Apply(s, c, op).buckets, t)
  {
    match op
    case Add(r, now, latency, admits) => AddKeepsOrder(s, c, r, now, latency, admits);
    case Remove(p) => RemoveKeepsOrder(s, c, p, t);
    case Queried(p, u) => UpdateKeepsOrder(s, c, p, (x: PeerInfo) => x.(lastSuccessfulOutboundQueryAt := u), t);
    case Useful(p, u) => UpdateKeepsOrder(s, c, p, (x: PeerInfo) => x.(lastUsefulAt := u), t);
    case MarkIrreplaceable => MarkKeepsOrder(s, t);
  }

  // ----- runs -----

  /** The clock of the insertions does not go back, and has got no further than t. */
  ghost predicate Clocked(ops: seq<Op>, t: Time) {
    && (forall i, j :: 0 <= i < j < |ops| && ops[i].Add? && ops[j].Add? ==> ops[i].now <= ops[j].now)
    && forall i :: 0 <= i < |ops| && ops[i].Add? ==> ops[i].now <= t
  }

  lemma {:induction false} RunInOrder(c: Config, ops: seq<Op>, t: Time)
    requires c.bucketSize >= 1 && Clocked(ops, t)
    ensures InOrder(Run(c, ops).buckets, t)
    decreases |ops|
  {
    if ops != [] {
      var n := |ops| - 1;
      var op := ops[n];
      var t' := if op.Add? then op.now else t;
      RunInOrder(c, ops[..n], t');
      ApplyKeepsOrder(Run(c, ops[..n]), c, op, t');
      LaterOrder(Run(c, ops).buckets, t', t);
    }
  }

  lemma {:induction false} VictimIsLast(b: Entries, j: nat)
    requires j < |b| && b[j].canReplace
    ensures j <= Victim(b)
    decreases |b|
  {
    if |b| > 1 && !b[|b| - 1].canReplace {
      VictimIsLast(b[..|b| - 1], j);
    }
  }

  lemma VictimIsOldest(b: Entries, t: Time, y: PeerInfo)
    requires NewestFirst(b, t) && y in Elems(b) && y.canReplace
    ensures b[Victim(b)].addedAt <= y.addedAt
  {
    var j :| 0 <= j < |b| && b[j] == y;
    VictimIsLast(b, j);
  }

  /** Whoever makes way has been in the bucket longest of those that may be replaced. */
  lemma OldestMakesWay(c: Config, ops: seq<Op>, r: Request, now: Time, latency: int, admits: bool,
        x: PeerInfo, y: PeerInfo)
    requires c.bucketSize >= 1 && Clocked(ops, now) && r.p !in Members(Run(c, ops).buckets)
    requires var s := Run(c, ops);
             && x in Infos(s.buckets) && x !in Infos(AddPeer(s, c, r, now, latency, admits).0.buckets)
             && y in Elems(BucketFor(s.buckets, c.local, r.p)) && y.canReplace
    ensures x.addedAt <= y.addedAt
  {
    var s := Run(c, ops);
    RunKeeps(c, ops);
    RunInOrder(c, ops, now);
    AddPeerKeeps(s, c, r, now, latency, admits);
    OldestOfBucket(s, c, r.p, x, y, now);
  }

  lemma OldestOfBucket(s: TableState, c: Config, p: PeerId, x: PeerInfo, y: PeerInfo, t: Time)
    requires Good(s, c) && InOrder(s.buckets, t) && x in Displaced(s.buckets, c, p)
    requires y in Elems(BucketFor(s.buckets, c.local, p)) && y.canReplace
    ensures x.addedAt <= y.addedAt
  {
    var k, bs := c.bucketSize, s.buckets;
    var room := MakeRoom(bs, k, c.local, p);
    var i := BucketIdFor(bs, c.local, p);
    MakeRoomKeepsOrder(bs, k, c.local, p, t);
    assert BucketShape(bs[i], i, i == |bs| - 1, k, c.local);
    if |bs[i]| >= k && i == |bs| - 1 {
      UnfoldingMakesRoom(bs, k, c.local, p);
    }
    assert NewestFirst(BucketFor(room, c.local, p), t);
    VictimIsOldest(BucketFor(room, c.local, p), t, y);
  }
}
