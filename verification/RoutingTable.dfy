/**
 The mutable routing table (kbucket/table.go) with its diversity filter and the connection-manager
 callbacks that dht.go installs. Each method is one atomic step under the table lock, proved against
 the functions of `Table`; what those functions keep is proved in `TableLaws`.
 */
module RoutingTables {
  import opened KeySpace
  import opened Nearest
  import opened Table
  import opened TableHistory
  import opened TableLaws
  import opened Buckets
  import opened DistanceSorting
  import opened Wrappers
  import opened ModeFilters

  /**
   The diversity filter: a set that any peer may be refused to join; `admits` is what its policy answers this time.
   */
  class DiversityFilter {
    var members: set<PeerId>

    constructor ()
      ensures members == {}
    {
      members := {};
    }

    method TryAdd(p: PeerId, admits: bool) returns (ok: bool)
      modifies this
      ensures ok == admits
      ensures members == if ok then old(members) + {p} else old(members)
    {
      ok := admits;
      if ok {
        members := members + {p};
      }
    }

    method Remove(p: PeerId)
      modifies this
      ensures members == old(members) - {p}
    {
      members := members - {p};
    }
  }

  /** The callbacks of dht.go: a peer in the table is protected if it is shallow, tagged if it is deep. */
  class ConnManager {
    const self: Id
    const protectedBuckets: nat
    var protectedPeers: set<PeerId>
    var taggedPeers: set<PeerId>
    ghost var events: seq<Event>

    ghost predicate Valid()
      reads this
    {
      && protectedPeers == (set p | p in Replay(events) && CommonPrefixLen(self, p.kad) < protectedBuckets)
      && taggedPeers == (set p | p in Replay(events) && CommonPrefixLen(self, p.kad) >= protectedBuckets)
    }

    constructor (self: Id, protectedBuckets: nat)
      ensures Valid() && events == [] && this.self == self && this.protectedBuckets == protectedBuckets
    {
      this.self := self;
      this.protectedBuckets := protectedBuckets;
      protectedPeers, taggedPeers, events := {}, {}, [];
    }

    method PeerAdded(p: PeerId)
      requires Valid()
      modifies this
      ensures Valid() && events == old(events) + [Event.PeerAdded(p)]
    {
      ReplayPush(events, Event.PeerAdded(p));
      var commonPrefixLen := CommonPrefixLen(self, p.kad);
      if commonPrefixLen < protectedBuckets {
        protectedPeers := protectedPeers + {p};
      } else {
        taggedPeers := taggedPeers + {p};
      }
      events := events + [Event.PeerAdded(p)];
    }

    method PeerRemoved(p: PeerId)
      requires Valid()
      modifies this
      ensures Valid() && events == old(events) + [Event.PeerRemoved(p)]
    {
      ReplayPush(events, Event.PeerRemoved(p));
      protectedPeers := protectedPeers - {p};
      taggedPeers := taggedPeers - {p};
      events := events + [Event.PeerRemoved(p)];
    }
  }

  function Lists(bs: seq<Bucket>): (r: seq<Entries>)
    reads bs
    ensures |r| == |bs|
    ensures forall i :: 0 <= i < |bs| ==> r[i] == bs[i].list
  {
    seq(|bs|, i requires 0 <= i < |bs| reads bs => bs[i].list)
  }

  function WithoutPeer(bs: Table.Buckets, local: Id, p: PeerId): Table.Buckets {
    var i := BucketIdFor(bs, local, p);
    bs[i := Without(bs[i], p)]
  }

  lemma CollapseDropsLast(bs: seq<Bucket>)
    requires |bs| > 1 && bs[|bs| - 1].list == []
    ensures Collapse(Lists(bs[..|bs| - 1])) == Collapse(Lists(bs))
  {
    assert Lists(bs[..|bs| - 1]) == Lists(bs)[..|bs| - 1];
  }

  lemma CollapseDropsLastButOne(bs: seq<Bucket>)
    requires |bs| > 1 && bs[|bs| - 1].list != [] && bs[|bs| - 2].list == []
    ensures var n := |bs| - 1; Collapse(Lists(bs[n - 1 := bs[n]][..n])) == Collapse(Lists(bs))
  {
    var n := |bs| - 1;
    assert Lists(bs[n - 1 := bs[n]][..n]) == Lists(bs)[..n - 1] + [Lists(bs)[n]];
  }

  lemma AddMeans(s: TableState, c: Config, r: Request, now: Time, latency: int, admits: bool)
    requires Good(s, c)
    ensures var (s', v) := AddPeer(s, c, r, now, latency, admits);
            && Good(s', c)
            && (v == NewlyAdded ==>
                  && r.p !in Members(s.buckets) && r.p in Members(s'.buckets)
                  && forall x :: x in Infos(s'.buckets) && x.id == r.p ==>
                       && x.mode == r.mode && x.canReplace == r.canReplace && x.dhtId == r.p.kad
                       && x.lastUsefulAt == (if r.queryPeer then now else ZERO_TIME)
                       && x.lastSuccessfulOutboundQueryAt == now && x.addedAt == now)
            && (v == AlreadyPresent <==> r.p in Members(s.buckets))
            && (v == AlreadyPresent ==> Members(s'.buckets) == Members(s.buckets))
            && (v != NewlyAdded && v != AlreadyPresent ==> Infos(s'.buckets) == Infos(s.buckets))
  {
    if r.p in Members(s.buckets) {
      KnownPeerOnlyTouched(s, c, r, now, latency, admits);
    } else {
      AddPeerKeeps(s, c, r, now, latency, admits);
      if AddPeer(s, c, r, now, latency, admits).1 == NewlyAdded {
        NewEntryRecords(s, c, r, now, latency, admits);
      }
    }
  }

  class RoutingTable {
    const local: Id
    const bucketSize: nat
    const maxLatency: int
    var buckets: seq<Bucket>
    ghost var Repr: set<Bucket>
    const df: DiversityFilter?
    const cmgr: ConnManager

    ghost predicate Wired()
      reads this, cmgr
    {
      && bucketSize >= 1
      && |buckets| > 0
      && (forall i :: 0 <= i < |buckets| ==> buckets[i] in Repr)
      && (forall i, j :: 0 <= i < j < |buckets| ==> buckets[i] != buckets[j])
      && cmgr.Valid()
    }

    ghost function View(): TableState
      reads this, buckets, df, cmgr
      requires Wired()
    {
      TableState(Lists(buckets), if df == null then {} else df.members, cmgr.events)
    }

    ghost function Cfg(): Config {
      Config(local, bucketSize, maxLatency, df != null)
    }

    /** What reading the buckets relies on. */
    ghost predicate Shaped()
      reads this, buckets
    {
      |buckets| > 0 && Shape(Lists(buckets), bucketSize, local)
    }

    /** The table's invariant: what `TableLaws.Good` says of the view. */
    ghost predicate Valid()
      reads this, buckets, df, cmgr
    {
      Wired() && Good(View(), Cfg())
    }

    /** The peers the connection manager protects or tags are exactly the peers of the table, and no peer is both. */
    lemma GuardedAreMembers()
      requires Valid()
      ensures cmgr.protectedPeers + cmgr.taggedPeers == Members(Lists(buckets))
      ensures cmgr.protectedPeers !! cmgr.taggedPeers
    {
      assert Replay(cmgr.events) == Members(Lists(buckets));
    }

    constructor (bucketSize: nat, local: Id, maxLatency: int, df: DiversityFilter?, cmgr: ConnManager)
      requires bucketSize >= 1 && cmgr.Valid() && cmgr.events == []
      requires df != null ==> df.members == {}
      ensures Valid() && fresh(Repr) && this.df == df && this.cmgr == cmgr
      ensures View() == EMPTY
    {
      this.bucketSize, this.local, this.maxLatency, this.df, this.cmgr := bucketSize, local, maxLatency, df, cmgr;
      var b := new Bucket();
      buckets, Repr := [b], {b};
      new;
      assert Lists(buckets) == [[]];
      EmptyIsGood(Cfg());
    }

    method BucketIdForKey(id: Id) returns (i: nat)
      requires |buckets| > 0
      ensures i == Nearest.Min(CommonPrefixLen(local, id), |buckets| - 1)
      ensures i < |buckets|
    {
      PrefixSymmetric(id, local);
      i := CommonPrefixLen(id, local);
      if i >= |buckets| {
        i := |buckets| - 1;
      }
    }

    method BucketIdForPeer(p: PeerId) returns (i: nat)
      requires |buckets| > 0
      ensures i == BucketIdFor(Lists(buckets), local, p)
      ensures i < |buckets|
    {
      i := BucketIdForKey(p.kad);
    }

    /** Split the last bucket once; what it sheds becomes the new last bucket. */
    method UnfoldLast() returns (newBucket: Bucket)
      requires Wired()
      modifies this`buckets, this`Repr, Repr
      ensures Wired() && buckets == old(buckets) + [newBucket] && Repr == old(Repr) + {newBucket} && fresh(newBucket)
      ensures Lists(buckets) == UnfoldOnce(old(Lists(buckets)), local)
    {
      var n := |buckets|;
      newBucket := buckets[n - 1].Split(n - 1, local);
      buckets, Repr := buckets + [newBucket], Repr + {newBucket};
      ghost var before := old(Lists(buckets));
      assert Lists(buckets[..n - 1]) == before[..n - 1];
    }

    method NextBucket()
      requires Wired()
      modifies this`buckets, this`Repr, Repr
      ensures Wired() && |buckets| > old(|buckets|)
      ensures fresh(Repr - old(Repr))
      ensures Lists(buckets) == Table.NextBucket(old(Lists(buckets)), bucketSize, local)
      decreases BITS + 2 - |buckets|
    {
      var n := |buckets|;
      NextBucketStarts(Lists(buckets), bucketSize, local);
      var newBucket := UnfoldLast();
      assert newBucket.list == Lists(buckets)[n];
      var len := newBucket.Len();
      if len >= bucketSize {
        NextBucket();
      }
    }

    method DropLast()
      requires Wired() && |buckets| > 1 && buckets[|buckets| - 1].list == []
      modifies this`buckets
      ensures Wired() && |buckets| < old(|buckets|)
      ensures Collapse(Lists(buckets)) == Collapse(old(Lists(buckets)))
    {
      CollapseDropsLast(buckets);
      buckets := buckets[..|buckets| - 1];
    }

    method DropLastButOne()
      requires Wired() && |buckets| > 1 && buckets[|buckets| - 1].list != [] && buckets[|buckets| - 2].list == []
      modifies this`buckets
      ensures Wired() && |buckets| < old(|buckets|)
      ensures Collapse(Lists(buckets)) == Collapse(old(Lists(buckets)))
    {
      CollapseDropsLastButOne(buckets);
      var last := |buckets| - 1;
      buckets := buckets[last - 1 := buckets[last]];
      buckets := buckets[..last];
    }

    /** The loop of removePeer: drop empty tail buckets. */
    method CollapseTail()
      requires Wired()
      modifies this`buckets
      ensures Wired()
      ensures Lists(buckets) == Collapse(old(Lists(buckets)))
    {
      while true
        invariant Wired()
        invariant Collapse(Lists(buckets)) == Collapse(old(Lists(buckets)))
        decreases |buckets|
      {
        var last := |buckets| - 1;
        if |buckets| > 1 && buckets[last].list == [] {
          DropLast();
        } else if |buckets| >= 2 && buckets[last - 1].list == [] {
          DropLastButOne();
        } else {
          break;
        }
      }
    }

    method RemoveFromBucket(p: PeerId) returns (removed: bool)
      requires Wired()
      modifies Repr
      ensures Wired()
      ensures removed == Has(BucketFor(old(Lists(buckets)), local, p), p)
      ensures Lists(buckets) == WithoutPeer(old(Lists(buckets)), local, p)
    {
      var i := BucketIdForPeer(p);
      var bucket := buckets[i];
      removed := bucket.Remove(p);
      assert Lists(buckets) == old(Lists(buckets))[i := buckets[i].list];
      assert !removed ==> Lists(buckets) == old(Lists(buckets));
    }

    /** The rest of a removal, once the peer has left its bucket. */
    method Forget(p: PeerId)
      requires Wired()
      modifies this`buckets, df, cmgr
      ensures Wired()
      ensures var s := old(View());
              View() == Expel(s, Cfg(), p).(buckets := Collapse(s.buckets), events := s.events + [Event.PeerRemoved(p)])
    {
      if df != null {
        df.Remove(p);
      }
      CollapseTail();
      cmgr.PeerRemoved(p);
    }

    method RemoveLocked(p: PeerId) returns (removed: bool)
      requires Wired()
      modifies this`buckets, this`Repr, Repr, df, cmgr
      ensures Wired() && fresh(Repr - old(Repr))
      ensures (View(), removed) == Table.RemovePeer(old(View()), Cfg(), p)
    {
      removed := RemoveFromBucket(p);
      if removed {
        Forget(p);
      } else {
        assert Lists(buckets) == old(Lists(buckets));
      }
    }

    method RemovePeer(p: PeerId)
      requires Valid()
      modifies this`buckets, this`Repr, Repr, df, cmgr
      ensures Valid() && fresh(Repr - old(Repr))
      ensures View() == Table.RemovePeer(old(View()), Cfg(), p).0
    {
      RemovePeerKeeps(View(), Cfg(), p);
      var _ := RemoveLocked(p);
    }

    method PushInto(i: nat, e: PeerInfo)
      requires Wired() && i < |buckets|
      modifies Repr, cmgr
      ensures Wired()
      ensures View() == Table.PushFront(old(View()), i, e)
    {
      buckets[i].PushFront(e);
      assert Lists(buckets) == old(Lists(buckets))[i := buckets[i].list];
      cmgr.PeerAdded(e.id);
    }

    /** The entry to give up in a full bucket. */
    method PickVictim(i: nat) returns (victim: PeerInfo)
      requires Wired() && i < |buckets| && buckets[i].list != []
      ensures victim == buckets[i].list[Victim(buckets[i].list)]
    {
      var m := buckets[i].Min((x: PeerInfo, y: PeerInfo) => x.canReplace);
      MinIndexIsVictim(buckets[i].list);
      victim := buckets[i].list[m.value];
    }

    method Displace(i: nat, e: PeerInfo, victim: PeerId)
      requires Wired() && i < |buckets|
      modifies this`buckets, this`Repr, Repr, df, cmgr
      ensures Wired() && fresh(Repr - old(Repr))
      ensures View() == Table.RemovePeer(Table.PushFront(old(View()), i, e), Cfg(), victim).0
    {
      PushInto(i, e);
      var _ := RemoveLocked(victim);
    }

    /** Put a new entry into its bucket, in place of a peer that can be replaced if the bucket is full. */
    method SettleEntry(e: PeerInfo) returns (v: Verdict)
      requires Wired()
      modifies this`buckets, this`Repr, Repr, df, cmgr
      ensures Wired() && fresh(Repr - old(Repr))
      ensures (View(), v) == Settle(old(View()), Cfg(), e)
    {
      var i := BucketIdForPeer(e.id);
      var n := buckets[i].Len();
      if n < bucketSize {
        PushInto(i, e);
        return NewlyAdded;
      }
      var victim := PickVictim(i);
      if victim.canReplace {
        Displace(i, e, victim.id);
        return NewlyAdded;
      }
      if df != null {
        df.Remove(e.id);
      }
      return NoCapacity;
    }

    method ReplaceEntry(i: nat, j: nat, x: PeerInfo)
      requires Wired() && i < |buckets| && j < |buckets[i].list|
      modifies Repr
      ensures Wired()
      ensures Lists(buckets) == old(Lists(buckets))[i := old(Lists(buckets))[i][j := x]]
    {
      buckets[i].list := buckets[i].list[j := x];
      assert Lists(buckets) == old(Lists(buckets))[i := buckets[i].list];
    }

    method TouchPeer(i: nat, j: nat, r: Request, now: Time)
      requires Wired() && i < |buckets| && j < |buckets[i].list| && j == Table.Find(buckets[i].list, r.p)
      modifies Repr
      ensures Wired()
      ensures Lists(buckets) == old(Lists(buckets))[i := Touch(old(Lists(buckets))[i], r, now)]
    {
      if buckets[i].list[j].lastUsefulAt == ZERO_TIME && r.queryPeer {
        ReplaceEntry(i, j, buckets[i].list[j].(lastUsefulAt := now));
      } else {
        assert Lists(buckets) == old(Lists(buckets))[i := buckets[i].list];
      }
    }

    method MakeRoomIn(i: nat, p: PeerId)
      requires Wired() && i == BucketIdFor(Lists(buckets), local, p)
      modifies this`buckets, this`Repr, Repr
      ensures Wired() && fresh(Repr - old(Repr))
      ensures View() == old(View()).(buckets := MakeRoom(old(View()).buckets, bucketSize, local, p))
    {
      var n := buckets[i].Len();
      if n >= bucketSize && i == |buckets| - 1 {
        NextBucket();
      }
    }

    /** Find the new entry a place, unfolding the last bucket if that is its bucket and full. */
    method Place(i: nat, e: PeerInfo) returns (v: Verdict)
      requires Wired() && i == BucketIdFor(Lists(buckets), local, e.id)
      modifies this`buckets, this`Repr, Repr, df, cmgr
      ensures Wired() && fresh(Repr - old(Repr))
      ensures (View(), v) ==
          Settle(old(View()).(buckets := MakeRoom(old(View()).buckets, bucketSize, local, e.id)), Cfg(), e)
    {
      MakeRoomIn(i, e.id);
      v := SettleEntry(e);
    }

    /** Add a peer: into its bucket, into the bucket unfolding gives it, or in place of a peer that can be replaced. */
    method AddLocked(r: Request, now: Time, latency: int, admits: bool) returns (v: Verdict)
      requires Wired()
      modifies this`buckets, this`Repr, Repr, df, cmgr
      ensures Wired() && fresh(Repr - old(Repr))
      ensures (View(), v) == AddPeer(old(View()), Cfg(), r, now, latency, admits)
    {
      var i := BucketIdForPeer(r.p);
      var j := buckets[i].GetPeer(r.p);
      if j < |buckets[i].list| {
        TouchPeer(i, j, r, now);
        return AlreadyPresent;
      }
      if latency > maxLatency {
        return HighLatency;
      }
      if df != null {
        var ok := df.TryAdd(r.p, admits);
        if !ok {
          return FilteredOut;
        }
      }
      v := Place(i, NewEntry(r, now));
    }

    method TryAddPeer(r: Request, now: Time, latency: int, admits: bool) returns (v: Verdict)
      requires Valid()
      modifies this`buckets, this`Repr, Repr, df, cmgr
      ensures Valid() && fresh(Repr - old(Repr))
      ensures (View(), v) == AddPeer(old(View()), Cfg(), r, now, latency, admits)
      ensures v == NewlyAdded ==>
        && r.p !in old(Members(Lists(buckets))) && r.p in Members(Lists(buckets))
        && forall x :: x in Infos(Lists(buckets)) && x.id == r.p ==>
             && x.mode == r.mode && x.canReplace == r.canReplace && x.dhtId == r.p.kad
             && x.lastUsefulAt == (if r.queryPeer then now else ZERO_TIME)
             && x.lastSuccessfulOutboundQueryAt == now && x.addedAt == now
      ensures v == AlreadyPresent <==> r.p in old(Members(Lists(buckets)))
      ensures v == AlreadyPresent ==> Members(Lists(buckets)) == old(Members(Lists(buckets)))
      ensures v != NewlyAdded && v != AlreadyPresent ==> Infos(Lists(buckets)) == old(Infos(Lists(buckets)))
    {
      AddMeans(View(), Cfg(), r, now, latency, admits);
      v := AddLocked(r, now, latency, admits);
    }

    /** Read the target's bucket, then the deeper ones, then the shallower ones, until there are enough peers. */
    method CollectPeers(pds: PeerDistanceSorter, cpl: nat, count: nat) returns (ghost lo: nat, ghost hi: nat)
      requires Shaped() && pds.peers == [] && cpl < |buckets|
      modifies pds
      ensures lo <= cpl < hi <= |buckets| && (hi == |buckets| || (lo == cpl && hi == cpl + 1))
      ensures Lists(buckets) == old(Lists(buckets))
      ensures Measured(pds.peers, pds.target) && Collected(PeersOf(pds.peers), Lists(buckets), lo, hi)
      ensures |pds.peers| >= count || (lo == 0 && hi == |buckets|)
    {
      ghost var bs := Lists(buckets);
      lo, hi := cpl, cpl;
      Append(pds, cpl, lo, hi);
      hi := cpl + 1;
      if |pds.peers| < count {
        for i := cpl + 1 to |buckets|
          invariant hi == i && Lists(buckets) == bs
          invariant Measured(pds.peers, pds.target) && Collected(PeersOf(pds.peers), bs, lo, hi)
        {
          Append(pds, i, lo, hi);
          hi := i + 1;
        }
      }
      var i := cpl - 1;
      while i >= 0 && |pds.peers| < count
        invariant -1 <= i < cpl && lo == i + 1 && Lists(buckets) == bs
        invariant hi == |buckets| || (hi == cpl + 1 && lo == cpl && |pds.peers| >= count)
        invariant Measured(pds.peers, pds.target) && Collected(PeersOf(pds.peers), bs, lo, hi)
      {
        Append(pds, i, lo, hi);
        lo := i;
        i := i - 1;
      }
    }

    /** The `count` closest peers of the whole table, read from as few buckets as that takes. */
    method NearestPeers(id: Id, count: nat) returns (out: seq<PeerId>)
      requires Valid()
      ensures IsNearest(out, Members(Lists(buckets)), count, By(id))
      ensures var pool := Members(Lists(buckets));
              Injective(pool) ==> out == Ranking(pool, By(id))[..Nearest.Min(count, |pool|)]
    {
      var _, near := NearestPeersOfMode(id, count, None);
      out := near;
    }

    /**
     With the optional mode: `near` are the peers before the filter. As no collected peer has its mode filled in,
     the filter lets all pass for mode 0 and nobody for any other.
     */
    method NearestPeersOfMode(id: Id, count: nat, mode: Option<int>) returns (out: seq<PeerId>, near: seq<PeerId>)
      requires Valid()
      ensures out == if mode.None? then near else Passed(near, mode.value)
      ensures IsNearest(near, Members(Lists(buckets)), count, By(id))
      ensures var pool := Members(Lists(buckets));
              Injective(pool) ==> near == Ranking(pool, By(id))[..Nearest.Min(count, |pool|)]
    {
      var ds := NearestSorted(id, count);
      near := PeersOf(ds);
      NearestIsBruteForce(near, Members(Lists(buckets)), count, id);
      out := PassMode(ds, id, mode);
    }

    method NearestSorted(id: Id, count: nat) returns (ds: seq<PeerDistance>)
      requires Shaped()
      ensures Measured(ds, id) && IsNearest(PeersOf(ds), Members(Lists(buckets)), count, By(id))
    {
      ghost var bs := Lists(buckets);
      var cpl := BucketIdForKey(id);
      ghost var ids, lo, hi;
      ds, ids, lo, hi := CollectSorted(id, cpl, count);
      ReadEnough(ids, PeersOf(ds), bs, bucketSize, local, id, lo, hi, count);
      PeersOfFirstN(ds, count);
      ds := FirstN(ds, count);
    }

    method PassMode(ds: seq<PeerDistance>, ghost id: Id, mode: Option<int>) returns (out: seq<PeerId>)
      requires Measured(ds, id)
      ensures out == if mode.None? then PeersOf(ds) else Passed(PeersOf(ds), mode.value)
    {
      out := [];
      ghost var near := PeersOf(ds);
      for i := 0 to |ds|
        invariant out == if mode.None? || mode.value == 0 then near[..i] else []
      {
        if mode.None? || ds[i].mode == mode.value {
          out := out + [ds[i].p];
        }
      }
    }

    method CollectSorted(id: Id, cpl: nat, count: nat)
      returns (ds: seq<PeerDistance>, ghost ids: seq<PeerId>, ghost lo: nat, ghost hi: nat)
      requires Shaped() && cpl < |buckets|
      ensures lo <= cpl < hi <= |buckets| && (hi == |buckets| || (lo == cpl && hi == cpl + 1))
      ensures Measured(ds, id) && Collected(ids, Lists(buckets), lo, hi)
      ensures var out := PeersOf(ds); NoDup(out) && Elems(out) == Elems(ids) && Ascending(out, By(id))
      ensures |ds| >= count || (lo == 0 && hi == |buckets|)
    {
      var pds := new PeerDistanceSorter(id);
      lo, hi := CollectPeers(pds, cpl, count);
      ids := PeersOf(pds.peers);
      pds.Sort();
      ds := pds.peers;
      NoDupPermutation(ids, PeersOf(ds));
      assert |ids| == |multiset(ids)| == |multiset(PeersOf(ds))| == |ds|;
    }

    /** A peer is found exactly if it is in the table, unless its hash collides with another's. */
    method Find(p: PeerId) returns (found: bool)
      requires Valid()
      ensures found ==> p in Members(Lists(buckets))
      ensures Injective(Members(Lists(buckets)) + {p}) ==> (found <==> p in Members(Lists(buckets)))
    {
      var srch := NearestPeers(p.kad, 1);
      found := |srch| != 0 && srch[0] == p;
      ghost var pool := Members(Lists(buckets));
      NearestMeans(srch, pool, 1, By(p.kad));
      if p in pool {
        assert srch != [];
        assert IsClosest(srch[0], pool, By(p.kad));
        DistZero(p.kad, p.kad);
        DistZero(p.kad, srch[0].kad);
      }
    }

    method Append(pds: PeerDistanceSorter, j: nat, ghost lo: nat, ghost hi: nat)
      requires Shaped() && j < |buckets| && lo <= hi <= |buckets| && (j == hi || j == lo - 1)
      requires Measured(pds.peers, pds.target) && Collected(PeersOf(pds.peers), Lists(buckets), lo, hi)
      modifies pds
      ensures Measured(pds.peers, pds.target)
      ensures Collected(PeersOf(pds.peers), Lists(buckets), if j == hi then lo else j, if j == hi then hi + 1 else hi)
      ensures Lists(buckets) == old(Lists(buckets))
    {
      CollectMore(PeersOf(pds.peers), Lists(buckets), bucketSize, local, lo, hi, j);
      assert BucketShape(Lists(buckets)[j], j, j == |buckets| - 1, bucketSize, local);
      pds.AppendPeersFromList(buckets[j].list);
    }

    method UsefulNewPeer(p: PeerId) returns (useful: bool)
      requires Valid()
      ensures useful == Table.UsefulNewPeer(Lists(buckets), bucketSize, local, p)
    {
      var i := BucketIdForPeer(p);
      var list := buckets[i].list;
      var j := buckets[i].GetPeer(p);
      if j < |list| {
        return false;
      }
      if |list| < bucketSize {
        return true;
      }
      for e := 0 to |list|
        invariant forall a :: 0 <= a < e ==> !list[a].canReplace
      {
        if list[e].canReplace {
          assert list[e] in Elems(list);
          return true;
        }
      }
      if i == |buckets| - 1 {
        var cpl := CommonPrefixLen(local, p.kad);
        for e := 0 to |list|
          invariant forall a :: 0 <= a < e ==> Cpl(local, list[a]) == cpl
        {
          if CommonPrefixLen(local, list[e].dhtId) != cpl {
            assert list[e] in Elems(list);
            return true;
          }
        }
      }
      return false;
    }

    /** How many peers of the whole table share exactly c bits with the local key. */
    method NPeersForCpl(c: nat) returns (n: nat)
      requires Valid()
      ensures n == |AtDepth(Infos(Lists(buckets)), c, local)|
      ensures n <= bucketSize
    {
      NPeersForCplCounts(Lists(buckets), bucketSize, local, c);
      if c >= |buckets| - 1 {
        n := 0;
        var list := buckets[|buckets| - 1].list;
        for e := 0 to |list|
          invariant n == CountAt(list[..e], c, local)
        {
          assert list[..e + 1][..e] == list[..e];
          if CommonPrefixLen(local, list[e].dhtId) == c {
            n := n + 1;
          }
        }
        assert list[..|list|] == list;
      } else {
        n := buckets[c].Len();
      }
    }

    /** The depth of the deepest peer of the whole table. */
    method MaxCommonPrefix() returns (m: nat)
      requires Valid()
      ensures IsDeepest(m, Lists(buckets), local)
    {
      ghost var bs := Lists(buckets);
      var i := |buckets| - 1;
      while i >= 0
        invariant -1 <= i < |buckets|
        invariant forall j :: i < j < |buckets| ==> bs[j] == []
      {
        if |buckets[i].list| > 0 {
          m := buckets[i].MaxCommonPrefix(local);
          ghost var x :| x in Elems(bs[i]) && Cpl(local, x) == m;
          LastNonEmptyIsDeepest(bs, bucketSize, local, i, x);
          return;
        }
        i := i - 1;
      }
      assert Infos(bs) == {};
      return 0;
    }

    method UpdateWith(p: PeerId, f: PeerInfo -> PeerInfo) returns (found: bool)
      requires Valid()
      requires forall x :: f(x).id == x.id && f(x).dhtId == x.dhtId
      modifies Repr
      ensures Valid()
      ensures (View(), found) == UpdateEntry(old(View()), Cfg(), p, f)
    {
      UpdateEntryKeeps(View(), Cfg(), p, f);
      var i := BucketIdForPeer(p);
      var j := buckets[i].GetPeer(p);
      found := j < |buckets[i].list|;
      if found {
        ReplaceEntry(i, j, f(buckets[i].list[j]));
      }
    }

    method UpdateLastSuccessfulOutboundQueryAt(p: PeerId, t: Time) returns (found: bool)
      requires Valid()
      modifies Repr
      ensures Valid()
      ensures (View(), found) ==
          UpdateEntry(old(View()), Cfg(), p, (x: PeerInfo) => x.(lastSuccessfulOutboundQueryAt := t))
    {
      found := UpdateWith(p, (x: PeerInfo) => x.(lastSuccessfulOutboundQueryAt := t));
    }

    method UpdateLastUsefulAt(p: PeerId, t: Time) returns (found: bool)
      requires Valid()
      modifies Repr
      ensures Valid()
      ensures (View(), found) == UpdateEntry(old(View()), Cfg(), p, (x: PeerInfo) => x.(lastUsefulAt := t))
    {
      found := UpdateWith(p, (x: PeerInfo) => x.(lastUsefulAt := t));
    }

    method MarkAllPeersIrreplaceable()
      requires Valid()
      modifies Repr
      ensures Valid()
      ensures View() == MarkAll(old(View()))
    {
      ghost var bs := Lists(buckets);
      MarkAllKeeps(View(), Cfg());
      for i := 0 to |buckets|
        invariant Wired()
        invariant forall j :: 0 <= j < |buckets| ==> buckets[j].list == if j < i then MarkBucket(bs[j]) else bs[j]
      {
        buckets[i].UpdateAllWith((x: PeerInfo) => x.(canReplace := false));
        assert buckets[i].list == MarkBucket(bs[i]);
      }
      assert Lists(buckets) == MarkAll(old(View())).buckets;
    }
  }
}
