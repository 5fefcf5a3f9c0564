/**
 The k-bucket routing table as a value: what each operation of kbucket/table.go does to the
 lists of peers in the buckets, and what every operation keeps.

 `RoutingTable.dfy` proves the mutable table against these functions.
 */
module Table {
  import opened KeySpace
  import opened Nearest

  type Time = int
  const ZERO_TIME: Time := 0

  datatype PeerInfo = PeerInfo(
    id: PeerId,
    mode: int,
    lastUsefulAt: Time,
    lastSuccessfulOutboundQueryAt: Time,
    addedAt: Time,
    dhtId: Id,
    canReplace: bool)

  type Entries = seq<PeerInfo>
  type Buckets = b: seq<Entries> | |b| > 0 witness [[]]

  function Cpl(local: Id, x: PeerInfo): nat { CommonPrefixLen(local, x.dhtId) }

  // ----- contents -----

  function Infos(bs: seq<Entries>): set<PeerInfo> {
    set i, x | 0 <= i < |bs| && x in Elems(bs[i]) :: x
  }

  function Ids(xs: set<PeerInfo>): set<PeerId> { set x | x in xs :: x.id }

  function Members(bs: seq<Entries>): set<PeerId> { Ids(Infos(bs)) }

  ghost predicate Distinct(b: Entries) {
    forall i, j :: 0 <= i < j < |b| ==> b[i].id != b[j].id
  }

  function IdsOf(b: Entries): (r: seq<PeerId>)
    ensures |r| == |b|
  {
    seq(|b|, i requires 0 <= i < |b| => b[i].id)
  }

  // ----- shape -----

  /** A peer sits in the bucket of its depth; the last bucket takes every depth from its own index on. */
  predicate Fits(x: PeerInfo, i: nat, last: bool, local: Id) {
    x.dhtId == x.id.kad && if last then Cpl(local, x) >= i else Cpl(local, x) == i
  }

  ghost predicate BucketShape(b: Entries, i: nat, last: bool, k: nat, local: Id) {
    && |b| <= k
    && Distinct(b)
    && forall x :: x in Elems(b) ==> Fits(x, i, last, local)
  }

  ghost predicate Shape(bs: seq<Entries>, k: nat, local: Id) {
    forall i :: 0 <= i < |bs| ==> BucketShape(bs[i], i, i == |bs| - 1, k, local)
  }

  // ----- bucket.go -----

  function Find(b: Entries, p: PeerId): (i: nat)
    ensures i <= |b|
    ensures i < |b| ==> b[i].id == p
    ensures forall j :: 0 <= j < i ==> b[j].id != p
  {
    if b == [] || b[0].id == p then 0 else 1 + Find(b[1..], p)
  }

  predicate Has(b: Entries, p: PeerId) { Find(b, p) < |b| }

  function Without(b: Entries, p: PeerId): Entries {
    var i := Find(b, p);
    if i < |b| then b[..i] + b[i + 1..] else b
  }

  /** The entries no deeper than c, in order, and the deeper ones, in order. */
  function Shallow(b: Entries, c: int, local: Id): Entries {
    if b == [] then []
    else (if Cpl(local, b[0]) > c then [] else [b[0]]) + Shallow(b[1..], c, local)
  }

  function Deep(b: Entries, c: int, local: Id): Entries {
    if b == [] then []
    else (if Cpl(local, b[0]) > c then [b[0]] else []) + Deep(b[1..], c, local)
  }

  ghost predicate AnyCanReplace(b: Entries) {
    exists x :: x in b && x.canReplace
  }

  /** Where a scan for a minimum under "the first can be replaced" ends: the last such entry, else the front. */
  function Victim(b: Entries): (i: nat)
    requires b != []
    ensures i < |b|
    ensures b[i].canReplace <==> AnyCanReplace(b)
  {
    if |b| == 1 then 0
    else if b[|b| - 1].canReplace then |b| - 1
    else
      assert b == b[..|b| - 1] + [b[|b| - 1]];
      Victim(b[..|b| - 1])
  }

  // ----- table.go -----

  function BucketIdFor(bs: Buckets, local: Id, p: PeerId): (i: nat)
    ensures i < |bs|
  {
    Min(CommonPrefixLen(local, p.kad), |bs| - 1)
  }

  function UnfoldOnce(bs: Buckets, local: Id): (r: Buckets)
    ensures |r| == |bs| + 1
  {
    var n := |bs|;
    bs[..n - 1] + [Shallow(bs[n - 1], n - 1, local), Deep(bs[n - 1], n - 1, local)]
  }

  /** Unfold the last bucket until what remains in it is below the bucket size. */
  function NextBucket(bs: Buckets, k: nat, local: Id): Buckets
    requires k >= 1
    decreases BITS + 2 - |bs|
  {
    var bs' := UnfoldOnce(bs, local);
    NothingBelowTheKey(bs[|bs| - 1], |bs| - 1, local);
    if |bs'[|bs|]| >= k then NextBucket(bs', k, local) else bs'
  }

  /** Drop empty buckets from the end, and empty last-but-one buckets, until neither is there. */
  function Collapse(bs: Buckets): Buckets
    decreases |bs|
  {
    var n := |bs|;
    if n > 1 && bs[n - 1] == [] then Collapse(bs[..n - 1])
    else if n >= 2 && bs[n - 2] == [] then Collapse(bs[..n - 2] + [bs[n - 1]])
    else bs
  }

  function RemoveFrom(bs: Buckets, local: Id, p: PeerId): Buckets {
    var i := BucketIdFor(bs, local, p);
    if Has(bs[i], p) then Collapse(bs[i := Without(bs[i], p)]) else bs
  }

  predicate UsefulNewPeer(bs: Buckets, k: nat, local: Id, p: PeerId) {
    var i := BucketIdFor(bs, local, p);
    && !Has(bs[i], p)
    && (|| |bs[i]| < k
        || (exists x :: x in Elems(bs[i]) && x.canReplace)
        || (i == |bs| - 1 && exists x :: x in Elems(bs[i]) && Cpl(local, x) != CommonPrefixLen(local, p.kad)))
  }

  // ----- the whole table: buckets, diversity filter, callbacks -----

  datatype Event = PeerAdded(p: PeerId) | PeerRemoved(p: PeerId)

  /** `filtered` says whether there is a diversity filter. What it answers is a parameter of each insertion. */
  datatype Config = Config(
    local: Id,
    bucketSize: nat,
    maxLatency: int,
    filtered: bool)

  datatype TableState = TableState(buckets: Buckets, admitted: set<PeerId>, events: seq<Event>)

  datatype Verdict = NewlyAdded | AlreadyPresent | HighLatency | FilteredOut | NoCapacity

  datatype Request = Request(p: PeerId, mode: int, queryPeer: bool, canReplace: bool)

  function UsefulAt(r: Request, now: Time): Time { if r.queryPeer then now else ZERO_TIME }

  function NewEntry(r: Request, now: Time): PeerInfo {
    PeerInfo(r.p, r.mode, UsefulAt(r, now), now, now, r.p.kad, r.canReplace)
  }

  /** Querying a peer that is already there counts as its first use, once. */
  function Touch(b: Entries, r: Request, now: Time): Entries
    requires Has(b, r.p)
  {
    var j := Find(b, r.p);
    if b[j].lastUsefulAt == ZERO_TIME && r.queryPeer then b[j := b[j].(lastUsefulAt := now)] else b
  }

  function Admit(s: TableState, c: Config, p: PeerId): TableState {
    if c.filtered then s.(admitted := s.admitted + {p}) else s
  }

  function Expel(s: TableState, c: Config, p: PeerId): TableState {
    if c.filtered then s.(admitted := s.admitted - {p}) else s
  }

  function PushFront(s: TableState, i: nat, e: PeerInfo): TableState
    requires i < |s.buckets|
  {
    s.(buckets := s.buckets[i := [e] + s.buckets[i]], events := s.events + [PeerAdded(e.id)])
  }

  function RemovePeer(s: TableState, c: Config, p: PeerId): (TableState, bool) {
    if Has(s.buckets[BucketIdFor(s.buckets, c.local, p)], p) then
      (Expel(s, c, p).(buckets := RemoveFrom(s.buckets, c.local, p), events := s.events + [PeerRemoved(p)]), true)
    else (s, false)
  }

  /** A full bucket is unfolded if it is the last one. */
  function MakeRoom(bs: Buckets, k: nat, local: Id, p: PeerId): Buckets
    requires k >= 1
  {
    var i := BucketIdFor(bs, local, p);
    if |bs[i]| >= k && i == |bs| - 1 then NextBucket(bs, k, local) else bs
  }

  function AddPeer(s: TableState, c: Config, r: Request, now: Time, latency: int, admits: bool): (TableState, Verdict)
    requires c.bucketSize >= 1
  {
    var i := BucketIdFor(s.buckets, c.local, r.p);
    if Has(s.buckets[i], r.p) then (s.(buckets := s.buckets[i := Touch(s.buckets[i], r, now)]), AlreadyPresent)
    else if latency > c.maxLatency then (s, HighLatency)
    else if c.filtered && !admits then (s, FilteredOut)
    else Settle(Admit(s, c, r.p).(buckets := MakeRoom(s.buckets, c.bucketSize, c.local, r.p)), c, NewEntry(r, now))
  }

  /** Put a new entry into its bucket, in place of a peer that can be replaced if the bucket is full. */
  function Settle(s: TableState, c: Config, e: PeerInfo): (TableState, Verdict)
    requires c.bucketSize >= 1
  {
    var i := BucketIdFor(s.buckets, c.local, e.id);
    var b := s.buckets[i];
    if |b| < c.bucketSize then (PushFront(s, i, e), NewlyAdded)
    else if b[Victim(b)].canReplace then (RemovePeer(PushFront(s, i, e), c, b[Victim(b)].id).0, NewlyAdded)
    else (Expel(s, c, e.id), NoCapacity)
  }

  function UpdateEntry(s: TableState, c: Config, p: PeerId, f: PeerInfo -> PeerInfo): (TableState, bool) {
    var i := BucketIdFor(s.buckets, c.local, p);
    var j := Find(s.buckets[i], p);
    if j < |s.buckets[i]| then
      (s.(buckets := s.buckets[i := s.buckets[i][j := f(s.buckets[i][j])]]), true)
    else (s, false)
  }

  function MarkBucket(b: Entries): (r: Entries)
    ensures |r| == |b|
  {
    seq(|b|, j requires 0 <= j < |b| => b[j].(canReplace := false))
  }

  function MarkAll(s: TableState): TableState {
    s.(buckets := seq(|s.buckets|, i requires 0 <= i < |s.buckets| => MarkBucket(s.buckets[i])))
  }

  datatype Op =
    | Add(r: Request, now: Time, latency: int, admits: bool)
    | Remove(p: PeerId)
    | Queried(p: PeerId, t: Time)
    | Useful(p: PeerId, t: Time)
    | MarkIrreplaceable

  function Apply(s: TableState, c: Config, op: Op): TableState
    requires c.bucketSize >= 1
  {
    match op
    case Add(r, now, latency, admits) => AddPeer(s, c, r, now, latency, admits).0
    case Remove(p) => RemovePeer(s, c, p).0
    case Queried(p, t) => UpdateEntry(s, c, p, (x: PeerInfo) => x.(lastSuccessfulOutboundQueryAt := t)).0
    case Useful(p, t) => UpdateEntry(s, c, p, (x: PeerInfo) => x.(lastUsefulAt := t)).0
    case MarkIrreplaceable => MarkAll(s)
  }

  const EMPTY := TableState([[]], {}, [])

  /** The table after a run of operations on a new one. */
  function Run(c: Config, ops: seq<Op>): TableState
    requires c.bucketSize >= 1
  {
    if ops == [] then EMPTY else Apply(Run(c, ops[..|ops| - 1]), c, ops[|ops| - 1])
  }

  // ----- splitting a bucket -----

  lemma {:induction false} NothingBelowTheKey(b: Entries, c: int, local: Id)
    ensures c >= BITS ==> Deep(b, c, local) == []
  {
    if b != [] {
      PrefixIs(local, b[0].dhtId);
      NothingBelowTheKey(b[1..], c, local);
    }
  }

  /** One unfolding, and whether there is another; another is only needed while the last index is within the key. */
  lemma NextBucketStarts(bs: Buckets, k: nat, local: Id)
    requires k >= 1
    ensures var bs' := UnfoldOnce(bs, local);
            && NextBucket(bs, k, local) == (if |bs'[|bs|]| >= k then NextBucket(bs', k, local) else bs')
            && (|bs'[|bs|]| >= k ==> |bs| <= BITS)
  {
    NothingBelowTheKey(bs[|bs| - 1], |bs| - 1, local);
  }

  lemma {:induction false} SplitIsPartition(b: Entries, c: int, local: Id)
    ensures forall x :: x in Elems(Shallow(b, c, local)) <==> x in Elems(b) && Cpl(local, x) <= c
    ensures forall x :: x in Elems(Deep(b, c, local)) <==> x in Elems(b) && Cpl(local, x) > c
    ensures |Shallow(b, c, local)| + |Deep(b, c, local)| == |b|
  {
    if b != [] {
      var t := b[1..];
      SplitIsPartition(t, c, local);
      ElemsCons(b[0], t);
      ElemsCons(b[0], Shallow(t, c, local));
      ElemsCons(b[0], Deep(t, c, local));
      assert b == [b[0]] + t;
    }
  }

  ghost predicate Avoids(b: Entries, p: PeerId) {
    forall x :: x in Elems(b) ==> x.id != p
  }

  lemma DistinctHead(b: Entries)
    requires b != []
    ensures Distinct(b) <==> Distinct(b[1..]) && Avoids(b[1..], b[0].id)
  {
  }

  lemma {:induction false} SplitKeepsDistinct(b: Entries, c: int, local: Id)
    requires Distinct(b)
    ensures Distinct(Shallow(b, c, local)) && Distinct(Deep(b, c, local))
  {
    if b != [] {
      DistinctHead(b);
      SplitKeepsDistinct(b[1..], c, local);
      SplitIsPartition(b[1..], c, local);
      var s, t := Shallow(b, c, local), Deep(b, c, local);
      if Cpl(local, b[0]) > c {
        assert t[1..] == Deep(b[1..], c, local) && s == Shallow(b[1..], c, local);
        DistinctHead(t);
      } else {
        assert s[1..] == Shallow(b[1..], c, local) && t == Deep(b[1..], c, local);
        DistinctHead(s);
      }
    }
  }

  lemma SplitKeepsShape(b: Entries, i: nat, k: nat, local: Id)
    requires BucketShape(b, i, true, k, local)
    ensures BucketShape(Shallow(b, i, local), i, false, k, local)
    ensures BucketShape(Deep(b, i, local), i + 1, true, k, local)
  {
    SplitIsPartition(b, i, local);
    SplitKeepsDistinct(b, i, local);
  }

  // ----- unfolding -----

  lemma UnfoldOnceKeepsShape(bs: Buckets, k: nat, local: Id)
    requires Shape(bs, k, local)
    ensures Shape(UnfoldOnce(bs, local), k, local)
  {
    SplitKeepsShape(bs[|bs| - 1], |bs| - 1, k, local);
  }

  lemma UnfoldOnceKeepsInfos(bs: Buckets, local: Id)
    ensures Infos(UnfoldOnce(bs, local)) == Infos(bs)
  {
    var n, r := |bs|, UnfoldOnce(bs, local);
    SplitIsPartition(bs[n - 1], n - 1, local);
    assert Elems(bs[n - 1]) == Elems(r[n - 1]) + Elems(r[n]);
    assert forall i :: 0 <= i < n - 1 ==> r[i] == bs[i];
    forall i, x | 0 <= i < n && x in Elems(bs[i]) ensures x in Infos(r) {
      assert x in Elems(r[i]) || x in Elems(r[n]);
    }
    forall i, x | 0 <= i <= n && x in Elems(r[i]) ensures x in Infos(bs) {
      assert x in Elems(bs[Min(i, n - 1)]);
    }
  }

  /**
   Unfolding ends, leaves room in the last bucket, moves nobody out of the table, and leaves the earlier buckets alone.
   */
  lemma {:induction false} NextBucketKeeps(bs: Buckets, k: nat, local: Id)
    requires Shape(bs, k, local) && k >= 1
    ensures var r := NextBucket(bs, k, local);
            && Shape(r, k, local)
            && Infos(r) == Infos(bs)
            && |bs| < |r|
            && |r[|r| - 1]| < k
            && r[..|bs| - 1] == bs[..|bs| - 1]
    decreases BITS + 2 - |bs|
  {
    UnfoldOnceKeepsShape(bs, k, local);
    UnfoldOnceKeepsInfos(bs, local);
    NothingBelowTheKey(bs[|bs| - 1], |bs| - 1, local);
    var r := UnfoldOnce(bs, local);
    if |r[|bs|]| >= k {
      NextBucketKeeps(r, k, local);
      assert r[..|bs| - 1] == r[..|r| - 1][..|bs| - 1];
    }
  }
}
