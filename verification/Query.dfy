/**
 The query object of query.go. The coordinator's and the workers' steps are its methods; each is proved to be
 one step of the machine in `Lookup`, whose runs `LookupLaws` describes. The stop function is a parameter of
 each check: whatever it answers.
 */
module Queries {
  import opened KeySpace
  import opened Nearest
  import opened Lookup
  import opened LookupLaws
  import opened QPeersets
  import opened Wrappers

  /** The peers of an answer that count, in order and as often as named: not the local peer, and allowed. */
  function Heeded(answer: seq<PeerId>, self: PeerId, allowed: PeerId -> bool): (saw: seq<PeerId>)
    ensures forall q :: q in saw <==> q in answer && q != self && allowed(q)
  {
    if answer == [] then []
    else
      var t, q := answer[..|answer| - 1], answer[|answer| - 1];
      assert answer == t + [q];
      Heeded(t, self, allowed) + if q != self && allowed(q) then [q] else []
  }

  class Query {
    const self: PeerId
    const key: Id
    const alpha: nat
    const beta: nat
    const seedPeers: seq<PeerId>
    const queryPeers: QueryPeerset
    var peerTimes: map<PeerId, nat>
    var terminated: bool
    var ch: seq<Update>
    var cancelled: bool
    ghost var s: State

    function Cfg(): Config { Config(self, key, alpha, beta, seedPeers) }

    /** The object is the machine's state s, and s keeps the invariant of every run. */
    ghost predicate Valid()
      reads this, queryPeers
    {
      alpha >= 1 && Shows() && Inv(Cfg(), s)
    }

    ghost predicate Shows()
      reads this, queryPeers
    {
      && queryPeers.Valid() && queryPeers.key == key
      && s.peers == queryPeers.states
      && s.times == peerTimes
      && s.ch == ch
      && s.cancelled == cancelled
      && s.terminated.Some? == terminated
    }

    constructor (self: PeerId, key: Id, alpha: nat, beta: nat, seeds: seq<PeerId>)
      requires alpha >= 1
      ensures Valid() && fresh(queryPeers)
      ensures s == Init(Cfg()) && Cfg() == Config(self, key, alpha, beta, seeds)
    {
      this.self, this.key, this.alpha, this.beta, seedPeers := self, key, alpha, beta, seeds;
      queryPeers := new QueryPeerset(key);
      peerTimes, terminated, cancelled := map[], false, false;
      ch := [Update(self, seeds, [], [], 0)];
      s := Init(Config(self, key, alpha, beta, seeds));
    }

    method MarkHeard(heard: seq<PeerId>, cause: PeerId)
      requires queryPeers.Valid()
      modifies queryPeers
      ensures queryPeers.Valid()
      ensures queryPeers.states == Hear(old(queryPeers.states), self, heard)
    {
      for i := 0 to |heard|
        invariant queryPeers.Valid()
        invariant queryPeers.states == Hear(old(queryPeers.states), self, heard[..i])
      {
        assert heard[..i + 1][..i] == heard[..i];
        if heard[i] != self {
          var _ := queryPeers.TryAdd(heard[i], cause);
        }
      }
      assert heard[..|heard|] == heard;
    }

    method FinishOne(p: PeerId, to: PeerState) returns (panicked: bool)
      requires queryPeers.Valid()
      modifies queryPeers
      ensures queryPeers.Valid()
      ensures panicked <==> p != self && !(p in With(old(queryPeers.states), PeerWaiting))
      ensures !panicked ==>
        queryPeers.states == if p == self then old(queryPeers.states) else old(queryPeers.states)[p := to]
    {
      if p == self {
        return false;
      }
      var known := queryPeers.Find(p);
      if known == -1 {
        return true;
      }
      var st := queryPeers.GetState(p);
      if st != PeerWaiting {
        return true;
      }
      queryPeers.SetState(p, to);
      return false;
    }

    /** Move waiting peers to a final state; anybody else among them is a panic. */
    method MarkFinished(ps: seq<PeerId>, to: PeerState) returns (panicked: bool)
      requires queryPeers.Valid()
      modifies queryPeers
      ensures queryPeers.Valid()
      ensures panicked <==> Finish(old(queryPeers.states), self, ps, to).None?
      ensures !panicked ==> Finish(old(queryPeers.states), self, ps, to) == Some(queryPeers.states)
    {
      for i := 0 to |ps|
        invariant queryPeers.Valid()
        invariant Finish(old(queryPeers.states), self, ps[..i], to) == Some(queryPeers.states)
      {
        assert ps[..i + 1][..i] == ps[..i];
        panicked := FinishOne(ps[i], to);
        if panicked {
          FinishStopsAt(old(queryPeers.states), self, ps, to, i + 1);
          return;
        }
      }
      assert ps[..|ps|] == ps;
      return false;
    }

    method RecordTimes(ps: seq<PeerId>, d: nat)
      modifies this`peerTimes
      ensures peerTimes == Timed(old(peerTimes), self, ps, d)
    {
      for i := 0 to |ps|
        invariant peerTimes == Timed(old(peerTimes), self, ps[..i], d)
      {
        assert ps[..i + 1][..i] == ps[..i];
        if ps[i] != self {
          peerTimes := peerTimes[ps[i] := d];
        }
      }
      assert ps[..|ps|] == ps;
    }

    method UpdateState(up: Update) returns (panicked: bool)
      requires queryPeers.Valid()
      modifies queryPeers, this`peerTimes
      ensures queryPeers.Valid()
      ensures panicked <==> terminated || UpdatePeers(old(queryPeers.states), self, up).None?
      ensures !panicked ==> UpdatePeers(old(queryPeers.states), self, up) == Some(queryPeers.states)
      ensures !panicked ==> peerTimes == Timed(old(peerTimes), self, up.queried, up.duration)
      ensures panicked <==> terminated || !Accepts(old(queryPeers.states), self, up.queried + up.unreachable)
      ensures !panicked ==>
        && queryPeers.states.Keys == old(queryPeers.states).Keys + (Elems(up.heard) - {self})
        && forall p :: p in queryPeers.states ==>
            queryPeers.states[p] == if p != self && p in up.unreachable then PeerUnreachable
            else if p != self && p in up.queried then PeerQueried
            else if p in old(queryPeers.states) then old(queryPeers.states)[p]
            else PeerHeard
    {
      UpdateMeans(queryPeers.states, self, up);
      if terminated {
        return true;
      }
      MarkHeard(up.heard, up.cause);
      panicked := MarkFinished(up.queried, PeerQueried);
      if panicked {
        return;
      }
      RecordTimes(up.queried, up.duration);
      panicked := MarkFinished(up.unreachable, PeerUnreachable);
    }

    /** The loop reads an update. No update it can read makes it panic. */
    method Receive()
      requires Valid() && Possible(Cfg(), s, Consume)
      modifies this`peerTimes, this`ch, this`s, queryPeers
      ensures Valid() && s == Step(Cfg(), old(s), Consume) && s.at == Checking
      ensures old(ch) != [] && ch == old(ch)[1..]
      ensures s.peers.Keys == old(s.peers).Keys + (Elems(old(ch)[0].heard) - {self})
      ensures forall p :: p in s.peers ==>
        s.peers[p] == if p in old(ch)[0].unreachable then PeerUnreachable
          else if p in old(ch)[0].queried then PeerQueried
          else if p in old(s.peers) then old(s.peers)[p]
          else PeerHeard
    {
      StepKeeps(Cfg(), s, Consume);
      ConsumeMeans(Cfg(), s);
      DoReceive();
    }

    method DoReceive()
      requires Shows() && ch != [] && s.at.Selecting? && !terminated && UpdatePeers(s.peers, self, ch[0]).Some?
      modifies this`peerTimes, this`ch, this`s, queryPeers
      ensures Shows() && s == ConsumeStep(Cfg(), old(s))
    {
      var panicked := UpdateState(ch[0]);
      ch := ch[1..];
      s := ConsumeStep(Cfg(), s);
    }

    /** The loop sees the cancelled context instead. */
    method ObserveCancellation()
      requires Valid() && Possible(Cfg(), s, SeeCancelled)
      modifies this`terminated, this`cancelled, this`s
      ensures Valid() && s == Step(Cfg(), old(s), SeeCancelled)
      ensures s.terminated == Some(LookupCancelled) && s.at == Checking && s.peers == old(s.peers)
    {
      StepKeeps(Cfg(), s, SeeCancelled);
      DoTerminate();
      s := Step(Cfg(), s, SeeCancelled);
    }

    method DoTerminate()
      modifies this`terminated, this`cancelled
      ensures terminated && cancelled == (old(cancelled) || !old(terminated))
    {
      if terminated {
        return;
      }
      cancelled := true;
      terminated := true;
    }

    method IsStarvationTermination() returns (r: bool)
      requires queryPeers.Valid()
      modifies queryPeers
      ensures queryPeers.Valid() && queryPeers.states == old(queryPeers.states)
      ensures r == Starving(queryPeers.states)
      ensures r <==> forall p :: p in queryPeers.states ==>
          queryPeers.states[p] != PeerHeard && queryPeers.states[p] != PeerWaiting
    {
      var heard := queryPeers.NumIn(PeerHeard);
      var waiting := queryPeers.NumIn(PeerWaiting);
      r := heard == 0 && waiting == 0;
      NobodyIsStarving(queryPeers.states);
    }

    method IsLookupTermination() returns (r: bool, peers: seq<PeerId>)
      requires queryPeers.Valid() && queryPeers.key == key
      modifies queryPeers
      ensures queryPeers.Valid() && queryPeers.states == old(queryPeers.states)
      ensures var m := queryPeers.states; IsNearest(peers, (set p | p in m && m[p] != PeerUnreachable), beta, By(key))
      ensures IsNearest(peers, Reachable(queryPeers.states), beta, By(key))
      ensures r <==> forall p :: p in peers ==> p in queryPeers.states && queryPeers.states[p] == PeerQueried
    {
      ghost var m := queryPeers.states;
      peers := queryPeers.GetClosestNInStates(beta, {PeerHeard, PeerWaiting, PeerQueried});
      ReachableStates(m);
      NearestMeans(peers, Reachable(m), beta, By(key));
      assert Reachable(m) == set p | p in m && m[p] != PeerUnreachable;
      r := FoundQueried(peers);
    }

    method FoundQueried(peers: seq<PeerId>) returns (r: bool)
      requires queryPeers.Valid() && forall i :: 0 <= i < |peers| ==> peers[i] in queryPeers.states
      ensures r == AllQueried(queryPeers.states, peers)
    {
      for i := 0 to |peers|
        invariant forall j :: 0 <= j < i ==> queryPeers.states[peers[j]] == PeerQueried
      {
        var st := queryPeers.GetState(peers[i]);
        if st != PeerQueried {
          assert peers[i] in peers;
          return false;
        }
      }
      return true;
    }

    /** The heard peers to query next; the cut never happens when none is asked for. */
    method PeersToQuery(nPeersToQuery: int) returns (peersToQuery: seq<PeerId>)
      requires queryPeers.Valid() && queryPeers.key == key
      modifies queryPeers
      ensures queryPeers.Valid() && queryPeers.states == old(queryPeers.states)
      ensures IsNearest(peersToQuery, With(queryPeers.states, PeerHeard), Take(nPeersToQuery, queryPeers.states),
          By(key))
      ensures var m := queryPeers.states;
              var heard := |(set p | p in m && m[p] == PeerHeard)|;
              |peersToQuery| == if nPeersToQuery <= 0 || heard < nPeersToQuery then heard else nPeersToQuery
    {
      ghost var m := queryPeers.states;
      var peers := queryPeers.GetClosestInStates({PeerHeard});
      OneState(m, PeerHeard);
      var count := 0;
      while count < |peers|
        invariant 0 <= count <= |peers|
        invariant nPeersToQuery > 0 ==> count < nPeersToQuery
      {
        count := count + 1;
        if count == nPeersToQuery {
          break;
        }
      }
      peersToQuery := peers[..count];
      CutIsNearest(peers, With(m, PeerHeard), |peers|, count, By(key));
      if count == |peers| {
        NearestMonotone(peersToQuery, With(m, PeerHeard), |peers|, Take(nPeersToQuery, m), By(key));
      }
      NearestMeans(peersToQuery, With(m, PeerHeard), Take(nPeersToQuery, m), By(key));
      assert With(m, PeerHeard) == set p | p in m && m[p] == PeerHeard;
    }

    method IsReadyToTerminate(nPeersToQuery: int, stop: bool)
      returns (reason: Option<Reason>, qPeers: seq<PeerId>, ghost betaPeers: seq<PeerId>)
      requires queryPeers.Valid() && queryPeers.key == key
      modifies queryPeers
      ensures queryPeers.Valid() && queryPeers.states == old(queryPeers.states)
      ensures Computed(Cfg(), queryPeers.states, nPeersToQuery, stop, betaPeers, qPeers)
      ensures reason == Verdict(queryPeers.states, stop, betaPeers)
      ensures stop ==> reason == Some(LookupStopped)
      ensures !stop ==>
        var m := queryPeers.states;
        if forall p :: p in m ==> m[p] != PeerHeard && m[p] != PeerWaiting then reason == Some(LookupStarvation)
        else if forall p :: p in betaPeers ==> p in m && m[p] == PeerQueried then reason == Some(LookupCompleted)
        else reason == None
    {
      reason, qPeers, betaPeers := ReasonToEnd(nPeersToQuery, stop);
      VerdictMeans(queryPeers.states, stop, betaPeers);
    }

    method ReasonToEnd(nPeersToQuery: int, stop: bool)
      returns (reason: Option<Reason>, qPeers: seq<PeerId>, ghost betaPeers: seq<PeerId>)
      requires queryPeers.Valid() && queryPeers.key == key
      modifies queryPeers
      ensures queryPeers.Valid() && queryPeers.states == old(queryPeers.states)
      ensures Computed(Cfg(), queryPeers.states, nPeersToQuery, stop, betaPeers, qPeers)
      ensures reason == Verdict(queryPeers.states, stop, betaPeers)
    {
      qPeers, betaPeers := [], [];
      if stop {
        return Some(LookupStopped), qPeers, betaPeers;
      }
      var starving := IsStarvationTermination();
      if starving {
        return Some(LookupStarvation), qPeers, betaPeers;
      }
      var complete, near := IsLookupTermination();
      betaPeers := near;
      if complete {
        return Some(LookupCompleted), qPeers, betaPeers;
      }
      qPeers := PeersToQuery(nPeersToQuery);
      return None, qPeers, betaPeers;
    }

    /** How many peers may be queried next, and whether and with whom to go on. */
    method Decide(stop: bool) returns (reason: Option<Reason>, qPeers: seq<PeerId>, ghost betaPeers: seq<PeerId>)
      requires queryPeers.Valid() && queryPeers.key == key
      modifies queryPeers
      ensures queryPeers.Valid() && queryPeers.states == old(queryPeers.states)
      ensures Computed(Cfg(), queryPeers.states, NumToSpawn(queryPeers.states, alpha), stop, betaPeers, qPeers)
      ensures reason == Verdict(queryPeers.states, stop, betaPeers)
    {
      var waiting := queryPeers.NumIn(PeerWaiting);
      var maxNumQueriesToSpawn := alpha - waiting;
      assert maxNumQueriesToSpawn == NumToSpawn(queryPeers.states, alpha);
      reason, qPeers, betaPeers := IsReadyToTerminate(maxNumQueriesToSpawn, stop);
    }

    method DoCheck(stop: bool) returns (returned: bool, qPeers: seq<PeerId>, ghost betaPeers: seq<PeerId>)
      requires Shows()
      modifies this`terminated, this`cancelled, this`s, queryPeers
      ensures Shows() && Computed(Cfg(), old(s.peers), NumToSpawn(old(s.peers), alpha), stop, betaPeers, qPeers)
      ensures s == CheckStep(old(s), stop, betaPeers, qPeers) && returned == terminated
    {
      var reason, ps, near := Decide(stop);
      qPeers, betaPeers := ps, near;
      if reason.Some? {
        DoTerminate();
      }
      returned := terminated;
      s := CheckStep(s, stop, betaPeers, qPeers);
    }

    /** The check as a step: terminate if there is a reason to, and return if the query is terminated. */
    method CheckTermination(stop: bool) returns (returned: bool, qPeers: seq<PeerId>, ghost betaPeers: seq<PeerId>)
      requires Valid() && s.at.Checking?
      modifies this`terminated, this`cancelled, this`s, queryPeers
      ensures Valid() && Computed(Cfg(), old(s.peers), NumToSpawn(old(s.peers), alpha), stop, betaPeers, qPeers)
      ensures s == CheckStep(old(s), stop, betaPeers, qPeers)
      ensures returned == s.at.Returned? && (!returned ==> s.at == Spawning(qPeers))
      ensures s.peers == old(s.peers) && s.spawned == old(s.spawned) && s.live == old(s.live)
      ensures returned <==> s.terminated.Some?
      ensures var m := old(s.peers);
              s.terminated ==
                if old(s.terminated).Some? then old(s.terminated)
                else if stop then Some(LookupStopped)
                else if forall p :: p in m ==> m[p] != PeerHeard && m[p] != PeerWaiting then Some(LookupStarvation)
                else if forall p :: p in betaPeers ==> p in m && m[p] == PeerQueried then Some(LookupCompleted)
                else None
    {
      ghost var before := s;
      returned, qPeers, betaPeers := DoCheck(stop);
      CheckKeeps(Cfg(), before, stop, betaPeers, qPeers);
      CheckMeans(before, stop, betaPeers, qPeers);
    }

    /** Start one worker: its peer is waiting from now on. */
    method SpawnQuery(p: PeerId)
      requires Valid() && s.at.Spawning? && s.at.qPeers != [] && p == s.at.qPeers[0]
      modifies this`s, queryPeers
      ensures Valid() && s == SpawnStep(old(s))
    {
      SpawnKeeps(Cfg(), s);
      SpawnedIsKnown(Cfg(), s);
      DoSpawn(p);
    }

    method DoSpawn(p: PeerId)
      requires Shows() && s.at.Spawning? && s.at.qPeers != [] && p == s.at.qPeers[0] && p in s.peers
      modifies this`s, queryPeers
      ensures Shows() && s == SpawnStep(old(s))
    {
      queryPeers.SetState(p, PeerWaiting);
      s := SpawnStep(s);
    }

    /** Everybody chosen has a worker; the loop goes back to waiting. */
    ghost method SpawningDone()
      requires Valid() && s.at == Spawning([])
      modifies this`s
      ensures Valid() && s == SpawnStep(old(s))
    {
      SpawnKeeps(Cfg(), s);
      s := SpawnStep(s);
    }

    /** A worker for each peer chosen, then back to waiting. */
    method SpawnAll(qPeers: seq<PeerId>)
      requires Valid() && s.at == Spawning(qPeers)
      modifies this`s, queryPeers
      ensures Valid() && s.at == Selecting
      ensures s.spawned == old(s.spawned) + qPeers && s.live == old(s.live) + multiset(qPeers)
      ensures s.terminated == old(s.terminated) && s.peers.Keys == old(s.peers).Keys
      ensures forall p :: p in s.peers ==> s.peers[p] == if p in qPeers then PeerWaiting else old(s.peers)[p]
    {
      ghost var before := s;
      NobodySpawned(before, qPeers);
      for i := 0 to |qPeers|
        invariant Valid() && SpawnedSoFar(before, s, qPeers, i)
      {
        SpawnedIsKnown(Cfg(), s);
        SpawnsNext(before, s, qPeers, i);
        SpawnQuery(qPeers[i]);
      }
      AllSpawned(before, s, qPeers);
      SpawningDone();
    }

    /** The rest of a turn of the loop after its select: return, or start the workers chosen and go back to waiting. */
    method FinishTurn(stop: bool) returns (returned: bool, qPeers: seq<PeerId>, ghost near: seq<PeerId>)
      requires Valid() && s.at.Checking?
      modifies this`terminated, this`cancelled, this`s, queryPeers
      ensures Valid() && s.at == if returned then Returned else Selecting
      ensures returned <==> s.terminated.Some?
      ensures var m := old(s.peers);
              s.terminated ==
                if old(s.terminated).Some? then old(s.terminated)
                else if stop then Some(LookupStopped)
                else if forall p :: p in m ==> m[p] != PeerHeard && m[p] != PeerWaiting then Some(LookupStarvation)
                else if forall p :: p in near ==> p in m && m[p] == PeerQueried then Some(LookupCompleted)
                else None
      ensures var m := old(s.peers);
              !stop && (exists p :: p in m && (m[p] == PeerHeard || m[p] == PeerWaiting)) ==>
                IsNearest(near, (set p | p in m && m[p] != PeerUnreachable), beta, By(key))
      ensures returned ==> s.peers == old(s.peers) && s.spawned == old(s.spawned) && s.live == old(s.live)
      ensures !returned ==>
        && s.spawned == old(s.spawned) + qPeers
        && s.live == old(s.live) + multiset(qPeers)
        && s.peers.Keys == old(s.peers).Keys
        && forall p :: p in s.peers ==> s.peers[p] == if p in qPeers then PeerWaiting else old(s.peers)[p]
      ensures !returned ==>
        && IsNearest(qPeers, (set p | p in old(s.peers) && old(s.peers)[p] == PeerHeard), |qPeers|, By(key))
        && (|(set p | p in s.peers && s.peers[p] == PeerWaiting)| == alpha
            || forall p :: p in s.peers ==> s.peers[p] != PeerHeard)
    {
      returned, qPeers, near := CheckTermination(stop);
      CheckDecides(Cfg(), old(s), stop, near, qPeers);
      CheckLooksAt(Cfg(), old(s.peers), NumToSpawn(old(s.peers), alpha), stop, near, qPeers);
      if !returned {
        SpawnAll(qPeers);
        KeepsBusy(Cfg(), s);
      }
    }

    /**
     One worker: a failed dial or a failed query makes its peer unreachable; an answer loses only the local peer and
     the filtered ones.
     */
    method QueryPeer(p: PeerId, reached: bool, answer: seq<PeerId>, allowed: PeerId -> bool, duration: nat)
      returns (ghost e: Event)
      requires Valid() && p in s.live
      modifies this`ch, this`s
      ensures Valid() && Possible(Cfg(), old(s), e) && s == Step(Cfg(), old(s), e)
      ensures |ch| <= alpha
      ensures e == if reached then WorkerAnswers(p, Heeded(answer, self, allowed), duration) else WorkerFails(p)
      ensures s.live == old(s.live) - multiset{p}
      ensures ch == old(ch) + if reached then [Update(p, Heeded(answer, self, allowed), [p], [], duration)]
          else [Update(p, [], [], [p], 0)]
    {
      if !reached {
        e := WorkerFails(p);
        PutUpdate(p, Update(p, [], [], [p], 0), e);
        return;
      }
      var saw := Filtered(answer, allowed);
      e := WorkerAnswers(p, saw, duration);
      PutUpdate(p, Update(p, saw, [p], [], duration), e);
    }

    method Filtered(answer: seq<PeerId>, allowed: PeerId -> bool) returns (saw: seq<PeerId>)
      ensures saw == Heeded(answer, self, allowed)
    {
      saw := [];
      for i := 0 to |answer|
        invariant saw == Heeded(answer[..i], self, allowed)
      {
        assert answer[..i + 1][..i] == answer[..i];
        if answer[i] != self && allowed(answer[i]) {
          saw := saw + [answer[i]];
        }
      }
      assert answer[..|answer|] == answer;
    }

    /** A worker's send, which is its end. */
    method PutUpdate(p: PeerId, u: Update, ghost e: Event)
      requires Valid() && p in s.live
      requires match e
               case WorkerFails(q) => q == p && u == Update(p, [], [], [p], 0)
               case WorkerAnswers(q, saw, d) => q == p && self !in saw && u == Update(p, saw, [p], [], d)
               case _ => false
      modifies this`ch, this`s
      ensures Valid() && Possible(Cfg(), old(s), e) && s == Step(Cfg(), old(s), e)
      ensures |ch| <= alpha && ch == old(ch) + [u] && s.live == old(s.live) - multiset{p}
    {
      Room();
      StepKeeps(Cfg(), s, e);
      ch := ch + [u];
      s := Send(s, p, u);
    }

    lemma Room()
      requires Valid()
      ensures |s.ch| <= alpha && forall p :: p in s.live ==> |s.ch| < alpha
    {
      TokensLeaveRoom(Cfg(), s);
    }
  }

  /** Workers were started for the first i of the peers chosen, and for nobody else. */
  ghost predicate SpawnedSoFar(before: State, s: State, qPeers: seq<PeerId>, i: nat) {
    && i <= |qPeers| && s.at == Spawning(qPeers[i..])
    && s.spawned == before.spawned + qPeers[..i]
    && s.live == before.live + multiset(qPeers[..i])
    && s.terminated == before.terminated && s.peers.Keys == before.peers.Keys
    && forall p :: p in s.peers ==> s.peers[p] == if p in qPeers[..i] then PeerWaiting else before.peers[p]
  }

  lemma NobodySpawned(s: State, qPeers: seq<PeerId>)
    requires s.at == Spawning(qPeers)
    ensures SpawnedSoFar(s, s, qPeers, 0)
  {
  }

  lemma AllSpawned(before: State, s: State, qPeers: seq<PeerId>)
    requires SpawnedSoFar(before, s, qPeers, |qPeers|)
    ensures s.at == Spawning([])
    ensures s.spawned == before.spawned + qPeers && s.live == before.live + multiset(qPeers)
    ensures s.terminated == before.terminated && s.peers.Keys == before.peers.Keys
    ensures forall p :: p in s.peers ==> s.peers[p] == if p in qPeers then PeerWaiting else before.peers[p]
  {
    assert qPeers[..|qPeers|] == qPeers && qPeers[|qPeers|..] == [];
  }

  lemma SpawnsNext(before: State, s: State, qPeers: seq<PeerId>, i: nat)
    requires i < |qPeers| && SpawnedSoFar(before, s, qPeers, i) && qPeers[i] in s.peers
    ensures SpawnedSoFar(before, SpawnStep(s), qPeers, i + 1)
  {
    assert qPeers[i..][1..] == qPeers[i + 1..];
    assert qPeers[..i + 1] == qPeers[..i] + [qPeers[i]];
  }

  lemma KeepsBusy(c: Config, s: State)
    requires Inv(c, s) && s.at == Selecting && s.peers != map[]
    ensures |(set p | p in s.peers && s.peers[p] == PeerWaiting)| == c.alpha
        || forall p :: p in s.peers ==> s.peers[p] != PeerHeard
  {
    AlphaOrNobodyHeard(c, s);
  }

  /** A check that neither stops nor finds the lookup starved looks at the beta closest reachable peers. */
  lemma CheckLooksAt(c: Config, m: States, want: int, stop: bool, betaPeers: seq<PeerId>, qPeers: seq<PeerId>)
    requires Computed(c, m, want, stop, betaPeers, qPeers)
    ensures !stop && (exists p :: p in m && (m[p] == PeerHeard || m[p] == PeerWaiting)) ==>
        IsNearest(betaPeers, (set p | p in m && m[p] != PeerUnreachable), c.beta, By(c.key))
  {
    NobodyIsStarving(m);
    assert Reachable(m) == set p | p in m && m[p] != PeerUnreachable;
  }

  /** A check that goes on was not preceded by a termination, and its list is the next peers to query. */
  lemma CheckDecides(c: Config, s: State, stop: bool, betaPeers: seq<PeerId>, qPeers: seq<PeerId>)
    requires Computed(c, s.peers, NumToSpawn(s.peers, c.alpha), stop, betaPeers, qPeers)
    ensures var s' := CheckStep(s, stop, betaPeers, qPeers);
            && s'.peers == s.peers && s'.spawned == s.spawned && s'.live == s.live
            && (s'.at == Returned || s'.at == Spawning(qPeers))
            && (s'.at != Returned ==>
                  && s.terminated.None?
                  && s.peers != map[]
                  && IsNearest(qPeers, (set p | p in s.peers && s.peers[p] == PeerHeard), |qPeers|, By(c.key)))
  {
    if CheckStep(s, stop, betaPeers, qPeers).at != Returned {
      var heard, n := With(s.peers, PeerHeard), Take(NumToSpawn(s.peers, c.alpha), s.peers);
      NearestMeans(qPeers, heard, n, By(c.key));
      CutIsNearest(qPeers, heard, n, |qPeers|, By(c.key));
      assert heard == (set p | p in s.peers && s.peers[p] == PeerHeard);
      assert qPeers[..|qPeers|] == qPeers;
    }
  }

  lemma {:induction false} FinishStopsAt(m: States, self: PeerId, ps: seq<PeerId>, to: PeerState, i: nat)
    requires i <= |ps| && Finish(m, self, ps[..i], to).None?
    ensures Finish(m, self, ps, to).None?
    decreases |ps|
  {
    if i == |ps| {
      assert ps[..i] == ps;
    } else {
      assert ps[..|ps| - 1][..i] == ps[..i];
      FinishStopsAt(m, self, ps[..|ps| - 1], to, i);
    }
  }

  lemma {:induction false} CutIsNearest<T(!new)>(out: seq<T>, pool: set<T>, n: nat, k: nat, d: T -> nat)
    requires IsNearest(out, pool, n, d) && k <= |out|
    ensures IsNearest(out[..k], pool, k, d)
    decreases n
  {
    if n > 0 && pool != {} && k > 0 {
      CutIsNearest(out[1..], pool - {out[0]}, n - 1, k - 1, d);
      PrefixOfCons(out, k);
      NearestCons(out[0], out[1..][..k - 1], pool, k, d);
    }
  }
}
