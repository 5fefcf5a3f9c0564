/**
 The end of a lookup (query.go): what is reported, and the follow-up queries of whoever among the
 reported peers was not queried yet.
 */
module LookupResults {
  import opened KeySpace
  import opened Nearest
  import opened Lookup
  import opened LookupLaws
  import opened QPeersets
  import opened DistanceSorting
  import opened Queries

  datatype LookupResult = LookupResult(peers: seq<PeerId>, state: seq<PeerState>, closest: seq<PeerId>, completed: bool)

  /** Sorting a nearest list again, by whatever comparison agrees with the distance, leaves a nearest list. */
  lemma ResortedIsNearest<T(!new)>(out: seq<T>, sorted: seq<T>, pool: set<T>, n: nat, d: T -> nat)
    requires IsNearest(out, pool, n, d)
    requires NoDup(sorted) && Elems(sorted) == Elems(out) && |sorted| == |out| && Ascending(sorted, d)
    ensures IsNearest(sorted, pool, n, d)
  {
    NearestMeans(out, pool, n, d);
    forall x ensures x in sorted <==> x in out {
      assert x in sorted <==> x in Elems(sorted);
      assert x in out <==> x in Elems(out);
    }
    forall x | x in sorted ensures x in pool {
      var i :| 0 <= i < |out| && out[i] == x;
    }
    forall x, p | x in sorted && p in pool && p !in sorted ensures d(x) <= d(p) {
      var i :| 0 <= i < |out| && out[i] == x;
    }
    if |out| < n {
      Whole(out, pool);
    }
    SortedPrefixIsNearest(sorted, pool, n, d);
    assert sorted[..Nearest.Min(n, |sorted|)] == sorted;
  }

  /** The k closest peers not found unreachable, closest first, each with its own state; and the k closest of all. */
  method ConstructLookupResult(q: Query, bucketSize: nat) returns (res: LookupResult, ghost betaPeers: seq<PeerId>)
    requires q.queryPeers.Valid() && q.queryPeers.key == q.key
    modifies q.queryPeers
    ensures q.queryPeers.Valid() && q.queryPeers.states == old(q.queryPeers.states)
    ensures var m := q.queryPeers.states;
            var alive := set p | p in m && m[p] != PeerUnreachable;
            && IsNearest(res.peers, alive, bucketSize, By(q.key))
            && |res.state| == |res.peers|
            && (forall i :: 0 <= i < |res.peers| ==> res.peers[i] in m && res.state[i] == m[res.peers[i]])
            && IsNearest(res.closest, m.Keys, bucketSize, By(q.key))
            && IsNearest(betaPeers, alive, q.beta, By(q.key))
            && (res.completed <==>
                  || (forall p :: p in betaPeers ==> p in m && m[p] == PeerQueried)
                  || (forall p :: p in m ==> m[p] != PeerHeard && m[p] != PeerWaiting))
  {
    ghost var m := q.queryPeers.states;
    var lookup, near := q.IsLookupTermination();
    betaPeers := near;
    var starving := q.IsStarvationTermination();
    var peers, state := ReportPeers(q.queryPeers, q.key, bucketSize);
    var closest := q.queryPeers.GetClosestNInStates(bucketSize, {PeerHeard, PeerWaiting, PeerQueried, PeerUnreachable});
    AllStates(m);
    NobodyIsStarving(m);
    assert Reachable(m) == set p | p in m && m[p] != PeerUnreachable;
    res := LookupResult(peers, state, closest, lookup || starving);
  }

  ghost predicate StatesOf(peers: seq<PeerId>, state: seq<PeerState>, m: States) {
    |state| == |peers| && forall i :: 0 <= i < |peers| ==> peers[i] in m && state[i] == m[peers[i]]
  }

  method LookUpStates(qps: QueryPeerset, peers: seq<PeerId>) returns (state: seq<PeerState>)
    requires qps.Valid() && forall i :: 0 <= i < |peers| ==> peers[i] in qps.states
    ensures StatesOf(peers, state, qps.states)
  {
    state := [];
    for i := 0 to |peers|
      invariant |state| == i && forall j :: 0 <= j < i ==> state[j] == qps.states[peers[j]]
    {
      var st := qps.GetState(peers[i]);
      state := state + [st];
    }
  }

  method ReportPeers(qps: QueryPeerset, key: Id, bucketSize: nat) returns (peers: seq<PeerId>, state: seq<PeerState>)
    requires qps.Valid() && qps.key == key
    modifies qps
    ensures qps.Valid() && qps.states == old(qps.states)
    ensures IsNearest(peers, Reachable(qps.states), bucketSize, By(key))
    ensures StatesOf(peers, state, qps.states)
  {
    ghost var pool := Reachable(qps.states);
    var qp := qps.GetClosestNInStates(bucketSize, {PeerHeard, PeerWaiting, PeerQueried});
    ReachableStates(qps.states);
    NearestMeans(qp, pool, bucketSize, By(key));
    var sorted := SortClosestPeers(qp, key);
    NoDupPermutation(qp, sorted);
    assert |sorted| == |multiset(sorted)| == |multiset(qp)| == |qp|;
    peers := FirstN(sorted, bucketSize);
    assert peers == sorted;
    ResortedIsNearest(qp, peers, pool, bucketSize, By(key));
    NearestMeans(peers, pool, bucketSize, By(key));
    state := LookUpStates(qps, peers);
  }

  // ----- follow-up -----

  ghost predicate Unfinished(res: LookupResult, n: nat, p: PeerId)
    requires |res.state| == |res.peers| && n <= |res.peers|
  {
    exists i :: 0 <= i < n && res.peers[i] == p && (res.state[i] == PeerHeard || res.state[i] == PeerWaiting)
  }

  /** Reported peers not yet queried. */
  method PeersToFollow(res: LookupResult) returns (queryPeers: seq<PeerId>)
    requires |res.state| == |res.peers|
    ensures forall p :: p in queryPeers <==>
        exists i :: 0 <= i < |res.peers| && res.peers[i] == p &&
          (res.state[i] == PeerHeard || res.state[i] == PeerWaiting)
    ensures NoDup(res.peers) ==> NoDup(queryPeers)
    ensures |queryPeers| <= |res.peers|
  {
    queryPeers := [];
    for i := 0 to |res.peers|
      invariant forall p :: p in queryPeers <==> Unfinished(res, i, p)
      invariant NoDup(res.peers) ==> NoDup(queryPeers)
      invariant |queryPeers| <= i
    {
      if res.state[i] == PeerHeard || res.state[i] == PeerWaiting {
        assert NoDup(res.peers) ==> res.peers[i] !in queryPeers;
        queryPeers := queryPeers + [res.peers[i]];
      }
    }
  }

  /**
   One select of the follow-up loop: a completion signal, after which the stop function may say stop, or the cancelled
   context.
   */
  datatype Choice = Done(stop: bool) | ContextDone

  /**
   Follow up n spawned queries, each of which sends one signal. Whatever the selects choose, exactly n signals
   are read, so no query outlives the call; and a lookup stays complete only if nothing cut the follow-up short.
   */
  method FollowUp(n: nat, wasCompleted: bool, choices: seq<Choice>)
    returns (completed: bool, consumed: nat, cancelled: bool)
    requires |choices| == n
    ensures consumed == n
    ensures completed <==>
        wasCompleted && (forall i :: 0 <= i < n - 1 ==> choices[i] == Done(false)) && (n > 0 ==> choices[n - 1].Done?)
    ensures cancelled <==> exists i :: 0 <= i < n && choices[i] != Done(false)
  {
    completed, consumed, cancelled := wasCompleted, 0, false;
    var i := 0;
    while i < n
      invariant 0 <= i <= n && consumed == i
      invariant completed == wasCompleted && !cancelled
      invariant forall j :: 0 <= j < i ==> choices[j] == Done(false)
    {
      if choices[i].Done? {
        consumed := consumed + 1;
        if choices[i].stop {
          cancelled := true;
          if i < n - 1 {
            completed := false;
          }
          break;
        }
      } else {
        completed := false;
        cancelled := true;
        break;
      }
      i := i + 1;
    }
    if !completed {
      for k := consumed to n
        invariant consumed == k
      {
        consumed := consumed + 1;
      }
    }
  }

  /**
   The phase after a lookup: every reported peer not yet queried is queried, unless the lookup was stopped from
   outside. Every query started is waited for, and the lookup counts as complete only if nothing was cut short.
   */
  method RunFollowup(res: LookupResult, stopped: bool, choices: seq<Choice>)
    returns (r: LookupResult, spawned: seq<PeerId>, consumed: nat)
    requires |res.state| == |res.peers| <= |choices|
    ensures consumed == |spawned| <= |res.peers|
    ensures r == res.(completed := r.completed)
    ensures stopped ==> spawned == []
    ensures !stopped ==> forall p :: p in spawned <==>
        exists i :: 0 <= i < |res.peers| && res.peers[i] == p &&
          (res.state[i] == PeerHeard || res.state[i] == PeerWaiting)
    ensures NoDup(res.peers) ==> NoDup(spawned)
    ensures r.completed <==>
      && res.completed
      && (stopped ==> forall i :: 0 <= i < |res.peers| ==> res.state[i] != PeerHeard && res.state[i] != PeerWaiting)
      && (forall i :: 0 <= i < |spawned| - 1 ==> choices[i] == Done(false))
      && (|spawned| > 0 ==> choices[|spawned| - 1].Done?)
  {
    var queryPeers := PeersToFollow(res);
    if |queryPeers| == 0 {
      forall i | 0 <= i < |res.peers| ensures res.state[i] != PeerHeard && res.state[i] != PeerWaiting {
        assert res.peers[i] !in queryPeers;
      }
      return res, [], 0;
    }
    if stopped {
      assert queryPeers[0] in queryPeers;
      return res.(completed := false), [], 0;
    }
    var completed, n, _ := FollowUp(|queryPeers|, res.completed, choices[..|queryPeers|]);
    return res.(completed := completed), queryPeers, n;
  }
}
