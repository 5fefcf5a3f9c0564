/**
 What a lookup that was not cancelled records in the routing table (query.go): the seed that answered fastest, and the
 seeds that took less than twice as long, were of use.
 */
module ValuablePeers {
  import opened KeySpace
  import opened Integers
  import opened Table
  import opened TableHistory
  import opened TableLaws
  import opened RoutingTables

  /** How long each peer took to answer, in nanoseconds: a signed 64-bit integer that is not negative. */
  type Durations = m: map<PeerId, int> | forall p :: p in m ==> 0 <= m[p] < TWO_63 witness map[]

  ghost predicate IsFastest(seeds: seq<PeerId>, times: Durations, d: int) {
    && (exists p :: p in seeds && p in times && times[p] == d)
    && forall p :: p in seeds && p in times ==> d <= times[p]
  }

  /** The first loop: the least duration of a seed; the greatest integer if no seed answered. */
  method Fastest(seeds: seq<PeerId>, times: Durations) returns (mvp: nat)
    ensures mvp < TWO_63
    ensures IsFastest(seeds, times, mvp) || (mvp == TWO_63 - 1 && forall p :: p in seeds ==> p !in times)
  {
    mvp := TWO_63 - 1;
    for i := 0 to |seeds|
      invariant mvp < TWO_63
      invariant forall j :: 0 <= j < i && seeds[j] in times ==> mvp <= times[seeds[j]]
      invariant mvp == TWO_63 - 1 || exists j :: 0 <= j < i && seeds[j] in times && times[seeds[j]] == mvp
    {
      if seeds[i] in times && times[seeds[i]] < mvp {
        mvp := times[seeds[i]];
      }
    }
    if p :| p in seeds && p in times {
      var j :| 0 <= j < |seeds| && seeds[j] == p;
      assert mvp <= times[seeds[j]];
      if mvp == TWO_63 - 1 {
        assert times[p] == mvp;
      }
    }
  }

  /** Twice a duration, in 64 bits. */
  function Twice(d: nat): int { ToInt64(2 * d) }

  /** Whom the second loop records, if d is the least duration. */
  predicate Valuable(times: Durations, d: nat, p: PeerId) { p in times && times[p] < Twice(d) }

  /**
   The fastest seed is itself recorded exactly if it took some time, and less than 2^62 nanoseconds: a duration read
   as zero is not below its double, and a longer one wraps.
   */
  lemma FastestIsValuable(seeds: seq<PeerId>, times: Durations, p: PeerId)
    requires p in seeds && p in times && IsFastest(seeds, times, times[p])
    ensures Valuable(times, times[p], p) <==> 0 < times[p] < 0x4000_0000_0000_0000
  {
  }

  /** A seed that answered within one tick of the clock, before all others, is not recorded. */
  lemma ZeroIsNotValuable(p: PeerId)
    ensures IsFastest([p], map[p := 0], 0) && !Valuable(map[p := 0], 0, p)
  {
    assert p in [p];
  }

  /** Among the first i seeds, p stands at j and nowhere later. */
  predicate LastAt(seeds: seq<PeerId>, p: PeerId, j: int, i: nat)
    requires i <= |seeds|
  {
    0 <= j < i && seeds[j] == p && forall k :: j < k < i ==> seeds[k] != p
  }

  /** An entry after the first i seeds: touched by the last of them that was recorded, or as it was. */
  ghost predicate Recorded(x: PeerInfo, y: PeerInfo, seeds: seq<PeerId>, times: Durations, d: nat, nows: seq<Time>,
      i: nat)
    requires i <= |seeds| == |nows|
  {
    || (Valuable(times, d, x.id) && exists j :: LastAt(seeds, x.id, j, i) && y == x.(lastUsefulAt := nows[j]))
    || (y == x && (Valuable(times, d, x.id) ==> forall j :: 0 <= j < i ==> seeds[j] != x.id))
  }

  ghost predicate AllRecorded(before: set<PeerInfo>, after: set<PeerInfo>, seeds: seq<PeerId>, times: Durations, d: nat,
      nows: seq<Time>, i: nat)
    requires i <= |seeds| == |nows|
  {
    forall y :: y in after ==> exists x :: x in before && x.id == y.id && Recorded(x, y, seeds, times, d, nows, i)
  }

  lemma NothingRecorded(s: set<PeerInfo>, seeds: seq<PeerId>, times: Durations, d: nat, nows: seq<Time>)
    requires |seeds| == |nows|
    ensures AllRecorded(s, s, seeds, times, d, nows, 0)
  {
  }

  lemma RecordOne(x: PeerInfo, y: PeerInfo, seeds: seq<PeerId>, times: Durations, d: nat, nows: seq<Time>, i: nat)
    requires i < |seeds| == |nows| && Recorded(x, y, seeds, times, d, nows, i) && y.id == x.id
    ensures Valuable(times, d, seeds[i]) && x.id == seeds[i] ==>
        Recorded(x, y.(lastUsefulAt := nows[i]), seeds, times, d, nows, i + 1)
    ensures !(Valuable(times, d, seeds[i]) && x.id == seeds[i]) ==> Recorded(x, y, seeds, times, d, nows, i + 1)
  {
    if Valuable(times, d, x.id) {
      if seeds[i] == x.id {
        assert LastAt(seeds, x.id, i, i + 1);
      } else if j :| LastAt(seeds, x.id, j, i) && y == x.(lastUsefulAt := nows[j]) {
        assert LastAt(seeds, x.id, j, i + 1);
      }
    }
  }

  /** One seed that is recorded: its entry, if it has one, is touched. */
  lemma RecordNext(s: TableState, c: Config, before: set<PeerInfo>, seeds: seq<PeerId>, times: Durations, d: nat,
        nows: seq<Time>, i: nat)
    requires Good(s, c) && i < |seeds| == |nows| && Valuable(times, d, seeds[i])
    requires AllRecorded(before, Infos(s.buckets), seeds, times, d, nows, i)
    ensures var s' := Apply(s, c, Useful(seeds[i], nows[i]));
            Good(s', c) && AllRecorded(before, Infos(s'.buckets), seeds, times, d, nows, i + 1)
  {
    var op := Useful(seeds[i], nows[i]);
    var s' := Apply(s, c, op);
    ApplyKeeps(s, c, op);
    forall y | y in Infos(s'.buckets)
      ensures exists x :: x in before && x.id == y.id && Recorded(x, y, seeds, times, d, nows, i + 1)
    {
      EntryDescends(s, c, op, y);
      var z :| z in Infos(s.buckets) && z.id == y.id && y == Evolved(z, op);
      var x :| x in before && x.id == z.id && Recorded(x, z, seeds, times, d, nows, i);
      RecordOne(x, z, seeds, times, d, nows, i);
    }
  }

  lemma SkipOne(before: set<PeerInfo>, after: set<PeerInfo>, seeds: seq<PeerId>, times: Durations, d: nat,
        nows: seq<Time>, i: nat)
    requires i < |seeds| == |nows| && !Valuable(times, d, seeds[i])
    requires AllRecorded(before, after, seeds, times, d, nows, i)
    ensures AllRecorded(before, after, seeds, times, d, nows, i + 1)
  {
    forall y | y in after
      ensures exists x :: x in before && x.id == y.id && Recorded(x, y, seeds, times, d, nows, i + 1)
    {
      var x :| x in before && x.id == y.id && Recorded(x, y, seeds, times, d, nows, i);
      RecordOne(x, y, seeds, times, d, nows, i);
    }
  }

  method RecordSeed(seeds: seq<PeerId>, times: Durations, mvp: nat, rt: RoutingTable, nows: seq<Time>, i: nat,
        ghost before: set<PeerInfo>)
    requires rt.Valid() && i < |seeds| == |nows|
    requires AllRecorded(before, Infos(Lists(rt.buckets)), seeds, times, mvp, nows, i)
    modifies rt.Repr
    ensures rt.Valid() && Members(Lists(rt.buckets)) == old(Members(Lists(rt.buckets)))
    ensures AllRecorded(before, Infos(Lists(rt.buckets)), seeds, times, mvp, nows, i + 1)
  {
    if seeds[i] in times && times[seeds[i]] < Twice(mvp) {
      ghost var op := Useful(seeds[i], nows[i]);
      RecordNext(rt.View(), rt.Cfg(), before, seeds, times, mvp, nows, i);
      ApplyKeeps(rt.View(), rt.Cfg(), op);
      var _ := rt.UpdateLastUsefulAt(seeds[i], nows[i]);
      assert rt.View() == Apply(old(rt.View()), rt.Cfg(), op);
    } else {
      SkipOne(before, Infos(Lists(rt.buckets)), seeds, times, mvp, nows, i);
    }
  }

  /** The second loop. */
  method RecordEach(seeds: seq<PeerId>, times: Durations, mvp: nat, rt: RoutingTable, nows: seq<Time>)
    requires rt.Valid() && |nows| == |seeds|
    modifies rt.Repr
    ensures rt.Valid() && Members(Lists(rt.buckets)) == old(Members(Lists(rt.buckets)))
    ensures AllRecorded(old(Infos(Lists(rt.buckets))), Infos(Lists(rt.buckets)), seeds, times, mvp, nows, |seeds|)
  {
    ghost var before, ids := Infos(Lists(rt.buckets)), Members(Lists(rt.buckets));
    NothingRecorded(before, seeds, times, mvp, nows);
    for i := 0 to |seeds|
      invariant rt.Valid() && Members(Lists(rt.buckets)) == ids
      invariant AllRecorded(before, Infos(Lists(rt.buckets)), seeds, times, mvp, nows, i)
    {
      RecordSeed(seeds, times, mvp, rt, nows, i, before);
    }
  }

  /** Both loops: the table keeps its peers, and of the entries exactly those of the recorded seeds are touched. */
  method RecordValuablePeers(seeds: seq<PeerId>, times: Durations, rt: RoutingTable, nows: seq<Time>)
    returns (mvp: nat)
    requires rt.Valid() && |nows| == |seeds|
    modifies rt.Repr
    ensures rt.Valid() && Members(Lists(rt.buckets)) == old(Members(Lists(rt.buckets)))
    ensures IsFastest(seeds, times, mvp) || forall p :: p in seeds ==> p !in times
    ensures AllRecorded(old(Infos(Lists(rt.buckets))), Infos(Lists(rt.buckets)), seeds, times, mvp, nows, |seeds|)
  {
    mvp := Fastest(seeds, times);
    RecordEach(seeds, times, mvp, rt, nows);
  }
}
