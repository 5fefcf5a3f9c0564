/**
 What every lookup run keeps, whatever the interleaving: the bound on concurrent queries, the absence of
 blocked senders and of panics, progress, termination, and what a completed lookup has found.
 */
module LookupLaws {
  import opened KeySpace
  import opened Nearest
  import opened Lookup
  import opened Wrappers

  // ----- tokens: each waiting peer is one live worker or one unread update -----

  /** What a worker sends: an answer or a failure of exactly the peer it queried. */
  predicate FromWorker(u: Update, self: PeerId) {
    && ((u.queried == [u.cause] && u.unreachable == []) || (u.queried == [] && u.unreachable == [u.cause]))
    && self !in u.heard
  }

  function Causes(ch: seq<Update>): multiset<PeerId> {
    if ch == [] then multiset{} else multiset{ch[0].cause} + Causes(ch[1..])
  }

  lemma {:induction false} CausesAppend(ch: seq<Update>, u: Update)
    ensures Causes(ch + [u]) == Causes(ch) + multiset{u.cause}
  {
    if ch != [] {
      assert (ch + [u])[1..] == ch[1..] + [u];
      CausesAppend(ch[1..], u);
    }
  }

  lemma {:induction false} CausesSize(ch: seq<Update>)
    ensures |Causes(ch)| == |ch|
  {
    if ch != [] {
      CausesSize(ch[1..]);
    }
  }

  function Finished(m: States): set<PeerId> { With(m, PeerQueried) + With(m, PeerUnreachable) }

  /** Nothing has happened yet but possibly a cancellation: the seeds are still in the channel. */
  ghost predicate Fresh(c: Config, s: State) {
    && s.ch == [Seed(c)]
    && s.live == multiset{}
    && s.peers == map[] && s.times == map[] && s.named == {} && s.spawned == []
    && (s.at == Selecting ==> s.terminated.None? && s.iterations == 0)
    && (s.at != Selecting ==> (s.at == Checking || s.at == Returned) && s.terminated.Some? && s.iterations == 1)
    && s.terminated != Some(LookupCompleted)
  }

  ghost predicate Tokens(self: PeerId, live: multiset<PeerId>, ch: seq<Update>, waiting: set<PeerId>) {
    && (forall u :: u in ch ==> FromWorker(u, self))
    && live + Causes(ch) == multiset(waiting)
  }

  /**
   How many queries may be outstanding, by where the coordinator is; and that while it waits there are as many as
   there may be, or nobody is left to query.
   */
  ghost predicate Bounded(alpha: nat, at: Place, terminated: bool, waiting: set<PeerId>, heard: set<PeerId>) {
    match at
    case Selecting => 0 < |waiting| <= alpha && (|waiting| == alpha || heard == {})
    case Checking => |waiting| <= alpha && (!terminated ==> |waiting| < alpha)
    case Spawning(ps) =>
      && |waiting| + |ps| <= alpha && (waiting != {} || ps != []) && NoDup(ps) && Elems(ps) <= heard
      && (|waiting| + |ps| == alpha || Elems(ps) == heard)
    case Returned => |waiting| <= alpha
  }

  ghost predicate Recorded(self: PeerId, m: States, times: map<PeerId, nat>, named: set<PeerId>, spawned: seq<PeerId>) {
    && named - {self} <= m.Keys
    && NoDup(spawned)
    && Elems(spawned) == m.Keys - With(m, PeerHeard)
    && times.Keys == With(m, PeerQueried)
  }

  ghost predicate Started(c: Config, s: State) {
    && Tokens(c.self, s.live, s.ch, With(s.peers, PeerWaiting))
    && Bounded(c.alpha, s.at, s.terminated.Some?, With(s.peers, PeerWaiting), With(s.peers, PeerHeard))
    && Recorded(c.self, s.peers, s.times, s.named, s.spawned)
    && s.iterations <= 1 + |Finished(s.peers)| + (if s.terminated.Some? then 1 else 0)
  }

  /** The nearest beta of the peers not found unreachable have all been queried. */
  ghost predicate Complete(c: Config, m: States) {
    exists ps :: IsNearest(ps, Reachable(m), c.beta, By(c.key)) && AllQueried(m, ps)
  }

  ghost predicate Inv(c: Config, s: State) {
    && !s.panicked
    && c.self !in s.peers
    && (s.at.Returned? ==> s.terminated.Some?)
    && (s.terminated.Some? ==> s.at.Checking? || s.at.Returned?)
    && (s.terminated == Some(LookupCompleted) ==> Complete(c, s.peers))
    && (s.terminated == Some(LookupStarvation) ==> Starving(s.peers))
    && (Fresh(c, s) || Started(c, s))
  }

  // ----- what a state change does to the sets -----

  lemma SetStateMoves(m: States, p: PeerId, to: PeerState)
    requires p in m && m[p] != to
    ensures With(m[p := to], to) == With(m, to) + {p}
    ensures With(m[p := to], m[p]) == With(m, m[p]) - {p}
    ensures forall st :: st != to && st != m[p] ==> With(m[p := to], st) == With(m, st)
    ensures m[p := to].Keys == m.Keys
  {
  }

  lemma {:induction false} HearAdds(m: States, self: PeerId, heard: seq<PeerId>)
    ensures var m' := Hear(m, self, heard);
            && m'.Keys == m.Keys + (Elems(heard) - {self})
            && (forall p :: p in m ==> m'[p] == m[p])
            && (forall p :: p in m' && p !in m ==> m'[p] == PeerHeard)
  {
    if heard != [] {
      var n := |heard| - 1;
      HearAdds(m, self, heard[..n]);
      assert Elems(heard) == Elems(heard[..n]) + {heard[n]};
    }
  }

  lemma HearKeepsOthers(m: States, self: PeerId, heard: seq<PeerId>)
    ensures var m' := Hear(m, self, heard);
            && With(m', PeerWaiting) == With(m, PeerWaiting)
            && With(m', PeerQueried) == With(m, PeerQueried)
            && With(m', PeerUnreachable) == With(m, PeerUnreachable)
            && m'.Keys - With(m', PeerHeard) == m.Keys - With(m, PeerHeard)
  {
  }

  /** A worker's update is accepted without a panic and moves its peer, and nobody else, out of waiting. */
  lemma WorkerUpdateAccepted(m: States, self: PeerId, u: Update)
    requires FromWorker(u, self) && self !in m && u.cause in With(m, PeerWaiting)
    ensures var to := if u.queried != [] then PeerQueried else PeerUnreachable;
            var h := Hear(m, self, u.heard);
            u.cause in h && h[u.cause] == PeerWaiting && UpdatePeers(m, self, u) == Some(h[u.cause := to])
  {
    HearAdds(m, self, u.heard);
    var h := Hear(m, self, u.heard);
    assert [u.cause][..0] == [];
    assert Finish(h, self, [], PeerQueried) == Some(h);
    if u.queried != [] {
      assert Finish(h, self, [u.cause], PeerQueried) == Some(h[u.cause := PeerQueried]);
    } else {
      assert Finish(h, self, [u.cause], PeerUnreachable) == Some(h[u.cause := PeerUnreachable]);
    }
  }

  /** What accepting a worker's update does to the set of peers. */
  lemma UpdateEffect(m: States, self: PeerId, u: Update)
    requires FromWorker(u, self) && self !in m && u.cause in With(m, PeerWaiting)
    ensures UpdatePeers(m, self, u).Some?
    ensures var m' := UpdatePeers(m, self, u).value;
            && With(m', PeerWaiting) == With(m, PeerWaiting) - {u.cause}
            && With(m', PeerQueried) == With(m, PeerQueried) + (if u.queried != [] then {u.cause} else {})
            && Finished(m') == Finished(m) + {u.cause}
            && m'.Keys == m.Keys + Elems(u.heard)
            && m'.Keys - With(m', PeerHeard) == m.Keys - With(m, PeerHeard)
  {
    WorkerUpdateAccepted(m, self, u);
    HearAdds(m, self, u.heard);
    HearKeepsOthers(m, self, u.heard);
    var h := Hear(m, self, u.heard);
    var to := if u.queried != [] then PeerQueried else PeerUnreachable;
    SetStateMoves(h, u.cause, to);
    assert self !in Elems(u.heard);
  }

  lemma NobodyIsStarving(m: States)
    ensures Starving(m) <==> forall p :: p in m ==> m[p] != PeerHeard && m[p] != PeerWaiting
  {
    if Starving(m) {
      forall p | p in m ensures m[p] != PeerHeard && m[p] != PeerWaiting {
        assert p !in With(m, PeerHeard) && p !in With(m, PeerWaiting);
      }
    }
  }

  /** The verdict of a check, in terms of the peers' states. */
  lemma VerdictMeans(m: States, stop: bool, near: seq<PeerId>)
    ensures var v := Verdict(m, stop, near);
            if stop then v == Some(LookupStopped)
            else if forall p :: p in m ==> m[p] != PeerHeard && m[p] != PeerWaiting then v == Some(LookupStarvation)
            else if forall p :: p in near ==> p in m && m[p] == PeerQueried then v == Some(LookupCompleted)
            else v == None
  {
    NobodyIsStarving(m);
  }

  /** A check, in terms of the peers' states. */
  lemma CheckMeans(s: State, stop: bool, near: seq<PeerId>, qPeers: seq<PeerId>)
    ensures var m, s' := s.peers, CheckStep(s, stop, near, qPeers);
            && s'.peers == m && s'.spawned == s.spawned && s'.live == s.live
            && s'.at == (if s'.terminated.Some? then Returned else Spawning(qPeers))
            && s'.terminated ==
                 if s.terminated.Some? then s.terminated
                 else if stop then Some(LookupStopped)
                 else if forall p :: p in m ==> m[p] != PeerHeard && m[p] != PeerWaiting then Some(LookupStarvation)
                 else if forall p :: p in near ==> p in m && m[p] == PeerQueried then Some(LookupCompleted)
                 else None
  {
    VerdictMeans(s.peers, stop, near);
  }

  /** Whoever is to be finished is waiting, and named once. */
  ghost predicate Accepts(m: States, self: PeerId, ps: seq<PeerId>) {
    && (forall p :: p in ps && p != self ==> p in m && m[p] == PeerWaiting)
    && forall i, j :: 0 <= i < j < |ps| && ps[i] == ps[j] ==> ps[i] == self
  }

  /** Finishing is accepted exactly if everybody named is waiting and named once; it moves them and nobody else. */
  lemma {:induction false} FinishMeans(m: States, self: PeerId, ps: seq<PeerId>, to: PeerState)
    requires to != PeerWaiting
    ensures Finish(m, self, ps, to).Some? <==> Accepts(m, self, ps)
    ensures Finish(m, self, ps, to).Some? ==>
      var m' := Finish(m, self, ps, to).value;
      m'.Keys == m.Keys && forall p :: p in m ==> m'[p] == if p != self && p in ps then to else m[p]
  {
    if ps != [] {
      var n, t := |ps| - 1, ps[..|ps| - 1];
      FinishMeans(m, self, t, to);
      assert ps == t + [ps[n]];
      AcceptsSnoc(m, self, t, ps[n]);
    }
  }

  lemma AcceptsSnoc(m: States, self: PeerId, t: seq<PeerId>, p: PeerId)
    ensures Accepts(m, self, t + [p]) <==>
        Accepts(m, self, t) && (p == self || (p in m && m[p] == PeerWaiting && p !in t))
  {
    var ps := t + [p];
    if Accepts(m, self, ps) {
      assert ps[|t|] == p;
      forall q | q in t ensures q in ps { var i :| 0 <= i < |t| && t[i] == q; assert ps[i] == q; }
      forall i, j | 0 <= i < j < |t| && t[i] == t[j] ensures t[i] == self { assert ps[i] == ps[j]; }
      if p in t { var i :| 0 <= i < |t| && t[i] == p; assert ps[i] == ps[|t|]; }
    }
  }

  /** Accepting one list and then another, once the first has been moved, is accepting both in one. */
  lemma AcceptsBoth(m: States, m': States, self: PeerId, a: seq<PeerId>, b: seq<PeerId>)
    requires Accepts(m, self, a) && m'.Keys == m.Keys
    requires forall p :: p in m ==> (m'[p] == PeerWaiting <==> m[p] == PeerWaiting && !(p != self && p in a))
    ensures Accepts(m', self, b) <==> Accepts(m, self, a + b)
    decreases |b|
  {
    if b == [] {
      assert a + b == a;
    } else {
      var t, p := b[..|b| - 1], b[|b| - 1];
      assert b == t + [p] && a + b == (a + t) + [p];
      AcceptsBoth(m, m', self, a, t);
      AcceptsSnoc(m', self, t, p);
      AcceptsSnoc(m, self, a + t, p);
      assert p in a + t <==> p in a || p in t;
    }
  }

  lemma {:induction false} AcceptsPrefix(m: States, self: PeerId, a: seq<PeerId>, b: seq<PeerId>)
    requires Accepts(m, self, a + b)
    ensures Accepts(m, self, a)
    decreases |b|
  {
    if b == [] {
      assert a + b == a;
    } else {
      assert a + b == (a + b[..|b| - 1]) + [b[|b| - 1]];
      AcceptsSnoc(m, self, a + b[..|b| - 1], b[|b| - 1]);
      AcceptsPrefix(m, self, a, b[..|b| - 1]);
    }
  }

  lemma HearingWakesNobody(m: States, self: PeerId, heard: seq<PeerId>, ps: seq<PeerId>)
    ensures Accepts(Hear(m, self, heard), self, ps) <==> Accepts(m, self, ps)
  {
    HearAdds(m, self, heard);
  }

  /**
   An update is accepted exactly if everybody it finishes was waiting and is named once; it adds those heard of, moves
   those it finishes, and leaves the others as they were.
   */
  lemma UpdateMeans(m: States, self: PeerId, u: Update)
    ensures UpdatePeers(m, self, u).Some? <==> Accepts(m, self, u.queried + u.unreachable)
    ensures UpdatePeers(m, self, u).Some? ==>
      var m' := UpdatePeers(m, self, u).value;
      && m'.Keys == m.Keys + (Elems(u.heard) - {self})
      && forall p :: p in m' ==>
          m'[p] == if p != self && p in u.unreachable then PeerUnreachable
          else if p != self && p in u.queried then PeerQueried
          else if p in m then m[p]
          else PeerHeard
  {
    var h := Hear(m, self, u.heard);
    HearAdds(m, self, u.heard);
    HearingWakesNobody(m, self, u.heard, u.queried + u.unreachable);
    FinishMeans(h, self, u.queried, PeerQueried);
    if Finish(h, self, u.queried, PeerQueried).None? {
      if Accepts(h, self, u.queried + u.unreachable) { AcceptsPrefix(h, self, u.queried, u.unreachable); }
    } else {
      var m' := Finish(h, self, u.queried, PeerQueried).value;
      FinishMeans(m', self, u.unreachable, PeerUnreachable);
      AcceptsBoth(h, m', self, u.queried, u.unreachable);
    }
  }

  lemma FinishedGrows(m: States, p: PeerId)
    requires p in With(m, PeerWaiting)
    ensures |Finished(m) + {p}| == |Finished(m)| + 1
  {
  }

  // ----- steps keep the invariant -----

  lemma SendKeeps(c: Config, s: State, p: PeerId, u: Update)
    requires Inv(c, s) && p in s.live && FromWorker(u, c.self) && u.cause == p
    ensures Inv(c, Send(s, p, u))
  {
    SendTokens(c.self, s.live, s.ch, With(s.peers, PeerWaiting), p, u);
  }

  lemma SendTokens(self: PeerId, live: multiset<PeerId>, ch: seq<Update>, waiting: set<PeerId>, p: PeerId, u: Update)
    requires p in live && FromWorker(u, self) && u.cause == p
    ensures Tokens(self, live, ch, waiting) ==> Tokens(self, live - multiset{p}, ch + [u], waiting)
  {
    CausesAppend(ch, u);
  }

  /** The seeds are heard, and nobody is waiting yet. */
  lemma SeedsHeard(self: PeerId, seeds: seq<PeerId>)
    ensures var m := Hear(map[], self, seeds);
            && self !in m
            && With(m, PeerWaiting) == {}
            && Tokens(self, multiset{}, [], With(m, PeerWaiting))
            && Recorded(self, m, map[], Elems(seeds), [])
  {
  }

  lemma ConsumeSeedKeeps(c: Config, s: State)
    requires c.alpha >= 1 && Inv(c, s) && Fresh(c, s) && s.at.Selecting?
    ensures Inv(c, ConsumeStep(c, s))
  {
    SeedsHeard(c.self, c.seeds);
    var m := Hear(map[], c.self, c.seeds);
    assert UpdatePeers(map[], c.self, Seed(c)) == Some(m);
    assert s.ch[1..] == [] && s.named + Elems(c.seeds) == Elems(c.seeds);
  }

  lemma HeadIsWaiting(self: PeerId, live: multiset<PeerId>, ch: seq<Update>, waiting: set<PeerId>)
    requires Tokens(self, live, ch, waiting) && ch != []
    ensures FromWorker(ch[0], self) && ch[0].cause in waiting
    ensures Tokens(self, live, ch[1..], waiting - {ch[0].cause})
  {
    assert ch[0] in ch;
    assert ch[0].cause in live + Causes(ch);
    assert forall v :: v in ch[1..] ==> v in ch;
    assert multiset(waiting - {ch[0].cause}) == multiset(waiting) - multiset{ch[0].cause};
  }

  lemma UpdateRecorded(self: PeerId, m: States, times: map<PeerId, nat>, named: set<PeerId>, spawned: seq<PeerId>,
        u: Update)
    requires Recorded(self, m, times, named, spawned)
    requires FromWorker(u, self) && self !in m && u.cause in With(m, PeerWaiting)
    ensures UpdatePeers(m, self, u).Some?
    ensures var m', times' := UpdatePeers(m, self, u).value, Timed(times, self, u.queried, u.duration);
            Recorded(self, m', times', named + Elems(u.heard), spawned)
  {
    UpdateEffect(m, self, u);
    assert [u.cause][..0] == [];
    assert Timed(times, self, [], u.duration) == times;
  }

  lemma ConsumeStarted(c: Config, s: State)
    requires Started(c, s) && c.self !in s.peers && s.terminated.None? && s.at.Selecting? && s.ch != []
    ensures var s' := ConsumeStep(c, s); Started(c, s') && c.self !in s'.peers && s'.panicked == s.panicked
  {
    var u := s.ch[0];
    HeadIsWaiting(c.self, s.live, s.ch, With(s.peers, PeerWaiting));
    UpdateEffect(s.peers, c.self, u);
    UpdateRecorded(c.self, s.peers, s.times, s.named, s.spawned, u);
    FinishedGrows(s.peers, u.cause);
  }

  /** Reading an update takes the oldest from the channel and moves peers by which of its lists names them. */
  lemma ConsumeMeans(c: Config, s: State)
    requires c.alpha >= 1 && Inv(c, s) && s.at.Selecting? && s.ch != []
    ensures var s', u := ConsumeStep(c, s), s.ch[0];
            && s'.at == Checking && s'.ch == s.ch[1..]
            && s'.peers.Keys == s.peers.Keys + (Elems(u.heard) - {c.self})
            && forall p :: p in s'.peers ==>
                 s'.peers[p] == if p in u.unreachable then PeerUnreachable
                   else if p in u.queried then PeerQueried
                   else if p in s.peers then s.peers[p]
                   else PeerHeard
  {
    StepKeeps(c, s, Consume);
    UpdateMeans(s.peers, c.self, s.ch[0]);
  }

  lemma ConsumeKeeps(c: Config, s: State)
    requires Inv(c, s) && Started(c, s) && s.at.Selecting? && s.ch != []
    ensures Inv(c, ConsumeStep(c, s))
  {
    ConsumeStarted(c, s);
  }

  /** The peers taken next fit under alpha, because the list is cut where asking for none would not be. */
  lemma NextPeersFit(m: States, alpha: nat, qPeers: seq<PeerId>, d: PeerId -> nat)
    requires |With(m, PeerWaiting)| < alpha && !Starving(m)
    requires IsNearest(qPeers, With(m, PeerHeard), Take(NumToSpawn(m, alpha), m), d)
    ensures Bounded(alpha, Spawning(qPeers), false, With(m, PeerWaiting), With(m, PeerHeard))
  {
    var heard := With(m, PeerHeard);
    NearestMeans(qPeers, heard, Take(NumToSpawn(m, alpha), m), d);
    NoDupCardinality(qPeers);
    assert Elems(qPeers) <= heard;
    if |qPeers| == |heard| {
      SameSize(Elems(qPeers), heard);
    }
  }

  lemma CheckKeeps(c: Config, s: State, stop: bool, betaPeers: seq<PeerId>, qPeers: seq<PeerId>)
    requires Inv(c, s) && Possible(c, s, Check(stop, betaPeers, qPeers))
    ensures Inv(c, CheckStep(s, stop, betaPeers, qPeers))
  {
    CheckCompletes(c, s.peers, stop, betaPeers, qPeers);
    if Started(c, s) {
      CheckStarted(c, s, stop, betaPeers, qPeers);
    }
  }

  lemma CheckStarted(c: Config, s: State, stop: bool, betaPeers: seq<PeerId>, qPeers: seq<PeerId>)
    requires Started(c, s) && Possible(c, s, Check(stop, betaPeers, qPeers))
    ensures Started(c, CheckStep(s, stop, betaPeers, qPeers))
  {
    if s.terminated.None? && Verdict(s.peers, stop, betaPeers).None? {
      NextPeersFit(s.peers, c.alpha, qPeers, By(c.key));
    }
  }

  lemma CheckCompletes(c: Config, m: States, stop: bool, betaPeers: seq<PeerId>, qPeers: seq<PeerId>)
    requires Computed(c, m, NumToSpawn(m, c.alpha), stop, betaPeers, qPeers)
    ensures Verdict(m, stop, betaPeers) == Some(LookupCompleted) ==> Complete(c, m)
  {
  }

  /**
   A check that goes on is asked for at least one peer, so the case in which all heard peers are taken does not occur.
   */
  lemma NeverAskedForNone(c: Config, states: seq<State>, events: seq<Event>, stop: bool, betaPeers: seq<PeerId>,
        qPeers: seq<PeerId>)
    requires c.alpha >= 1 && IsRun(c, states, events) && Possible(c, states[|events|], Check(stop, betaPeers, qPeers))
    requires CheckStep(states[|events|], stop, betaPeers, qPeers).at.Spawning?
    ensures NumToSpawn(states[|events|].peers, c.alpha) >= 1
  {
    RunKeeps(c, states, events);
  }

  lemma SpawnTokens(self: PeerId, live: multiset<PeerId>, ch: seq<Update>, waiting: set<PeerId>, p: PeerId)
    requires Tokens(self, live, ch, waiting) && p !in waiting
    ensures Tokens(self, live + multiset{p}, ch, waiting + {p})
  {
    assert multiset(waiting + {p}) == multiset(waiting) + multiset{p};
  }

  lemma SpawnRecorded(self: PeerId, m: States, times: map<PeerId, nat>, named: set<PeerId>, spawned: seq<PeerId>,
        p: PeerId)
    requires Recorded(self, m, times, named, spawned) && p in With(m, PeerHeard)
    ensures Recorded(self, m[p := PeerWaiting], times, named, spawned + [p])
  {
    SetStateMoves(m, p, PeerWaiting);
    assert Elems(spawned + [p]) == Elems(spawned) + {p};
    assert p !in Elems(spawned);
  }

  lemma SpawnBounded(alpha: nat, ps: seq<PeerId>, waiting: set<PeerId>, heard: set<PeerId>)
    requires ps != [] && waiting !! heard && Bounded(alpha, Spawning(ps), false, waiting, heard)
    ensures ps[0] in heard
    ensures Bounded(alpha, Spawning(ps[1..]), false, waiting + {ps[0]}, heard - {ps[0]})
  {
    assert ps == [ps[0]] + ps[1..];
    assert ps[0] in Elems(ps) && Elems(ps) == {ps[0]} + Elems(ps[1..]);
    assert |waiting + {ps[0]}| == |waiting| + 1;
    assert ps[0] !in Elems(ps[1..]);
  }

  lemma SpawnedIsKnown(c: Config, s: State)
    requires Inv(c, s) && s.at.Spawning? && s.at.qPeers != []
    ensures s.at.qPeers[0] in s.peers
  {
    SpawnBounded(c.alpha, s.at.qPeers, With(s.peers, PeerWaiting), With(s.peers, PeerHeard));
  }

  lemma SpawnKeeps(c: Config, s: State)
    requires Inv(c, s) && s.at.Spawning?
    ensures Inv(c, SpawnStep(s))
  {
    if s.at.qPeers != [] {
      var waiting, heard, p := With(s.peers, PeerWaiting), With(s.peers, PeerHeard), s.at.qPeers[0];
      SpawnBounded(c.alpha, s.at.qPeers, waiting, heard);
      SetStateMoves(s.peers, p, PeerWaiting);
      SpawnTokens(c.self, s.live, s.ch, waiting, p);
      SpawnRecorded(c.self, s.peers, s.times, s.named, s.spawned, p);
    }
  }

  lemma SeeCancelledKeeps(c: Config, s: State)
    requires Inv(c, s) && s.at.Selecting?
    ensures Inv(c, Step(c, s.(cancelled := true), SeeCancelled))
  {
  }

  lemma StepKeeps(c: Config, s: State, e: Event)
    requires c.alpha >= 1 && Inv(c, s) && Possible(c, s, e)
    ensures Inv(c, Step(c, s, e))
  {
    match e
    case WorkerFails(p) => SendKeeps(c, s, p, Update(p, [], [], [p], 0));
    case WorkerAnswers(p, saw, d) => SendKeeps(c, s, p, Update(p, saw, [p], [], d));
    case Consume => if Fresh(c, s) { ConsumeSeedKeeps(c, s); } else { ConsumeKeeps(c, s); }
    case SeeCancelled => SeeCancelledKeeps(c, s);
    case Check(stop, betaPeers, qPeers) => CheckKeeps(c, s, stop, betaPeers, qPeers);
    case Spawn => SpawnKeeps(c, s);
    case Cancel =>
  }

  lemma {:induction false} RunKeeps(c: Config, states: seq<State>, events: seq<Event>)
    requires c.alpha >= 1 && IsRun(c, states, events)
    ensures Inv(c, states[|events|])
    decreases |events|
  {
    if events != [] {
      var n := |events| - 1;
      RunKeeps(c, states[..n + 1], events[..n]);
      assert Follows(c, states[n], events[n], states[n + 1]);
      StepKeeps(c, states[n], events[n]);
    }
  }

  // ----- what follows for every run -----

  lemma TokensLeaveRoom(c: Config, s: State)
    requires c.alpha >= 1 && Inv(c, s)
    ensures |With(s.peers, PeerWaiting)| <= c.alpha && |s.ch| <= c.alpha
    ensures forall p :: p in s.live ==> |s.ch| < c.alpha && s.live[p] == 1 && p in With(s.peers, PeerWaiting)
  {
    if Started(c, s) {
      var waiting := With(s.peers, PeerWaiting);
      CausesSize(s.ch);
      assert |multiset(waiting)| == |waiting|;
      assert |s.live + Causes(s.ch)| == |s.live| + |s.ch|;
      forall p | p in s.live ensures |s.ch| < c.alpha && s.live[p] == 1 && p in waiting {
        assert p in s.live + Causes(s.ch);
      }
    }
  }

  /** No panic; at most alpha queries outstanding; and a live worker always finds room in the channel. */
  lemma NeverBlockedNeverPanics(c: Config, states: seq<State>, events: seq<Event>)
    requires c.alpha >= 1 && IsRun(c, states, events)
    ensures var s := states[|events|];
            && !s.panicked
            && |With(s.peers, PeerWaiting)| <= c.alpha
            && |s.ch| <= c.alpha
            && forall p :: p in s.live ==> |s.ch| < c.alpha && s.live[p] == 1 && p in With(s.peers, PeerWaiting)
  {
    RunKeeps(c, states, events);
    TokensLeaveRoom(c, states[|events|]);
  }

  /** While the loop waits with nothing to read, somebody is still working for it. */
  lemma WaitingMeansWorking(c: Config, states: seq<State>, events: seq<Event>)
    requires c.alpha >= 1 && IsRun(c, states, events)
    requires states[|events|].at.Selecting? && states[|events|].ch == []
    ensures states[|events|].live != multiset{}
  {
    RunKeeps(c, states, events);
    var s := states[|events|];
    var p :| p in With(s.peers, PeerWaiting);
    assert p in multiset(With(s.peers, PeerWaiting));
  }

  /** While the loop waits for workers, alpha peers are waiting or nobody is left that is merely heard of. */
  lemma AlphaOrNobodyHeard(c: Config, s: State)
    requires Started(c, s) && s.at.Selecting?
    ensures |(set p | p in s.peers && s.peers[p] == PeerWaiting)| == c.alpha
        || forall p :: p in s.peers ==> s.peers[p] != PeerHeard
  {
    assert With(s.peers, PeerWaiting) == (set p | p in s.peers && s.peers[p] == PeerWaiting);
    if |With(s.peers, PeerWaiting)| != c.alpha {
      forall p | p in s.peers ensures s.peers[p] != PeerHeard { assert p !in With(s.peers, PeerHeard); }
    }
  }

  /** Every peer is queried at most once, and a peer is queried exactly if it is no longer merely heard of. */
  lemma QueriedAtMostOnce(c: Config, states: seq<State>, events: seq<Event>)
    requires c.alpha >= 1 && IsRun(c, states, events)
    ensures var s := states[|events|];
            && NoDup(s.spawned)
            && Elems(s.spawned) == s.peers.Keys - With(s.peers, PeerHeard)
  {
    RunKeeps(c, states, events);
  }

  lemma StarvedIsDone(c: Config, s: State, p: PeerId)
    requires Inv(c, s) && s.terminated == Some(LookupStarvation) && p in s.named && p != c.self
    ensures p in s.peers && (s.peers[p] == PeerQueried || s.peers[p] == PeerUnreachable)
  {
    assert p !in With(s.peers, PeerHeard) && p !in With(s.peers, PeerWaiting);
  }

  /**
   What a lookup that ended by itself reports: by starvation always, and by completion unless digests collide, the
   test that the result is built with finds it complete.
   */
  lemma EndIsReportedComplete(c: Config, states: seq<State>, events: seq<Event>, betaPeers: seq<PeerId>)
    requires c.alpha >= 1 && IsRun(c, states, events)
    requires IsNearest(betaPeers, Reachable(states[|events|].peers), c.beta, By(c.key))
    requires var s := states[|events|];
             || s.terminated == Some(LookupStarvation)
             || (s.terminated == Some(LookupCompleted) && Injective(Reachable(s.peers)))
    ensures var m := states[|events|].peers; AllQueried(m, betaPeers) || Starving(m)
  {
    RunKeeps(c, states, events);
    var s := states[|events|];
    if s.terminated == Some(LookupCompleted) {
      CompleteIsSeen(c, s.peers, betaPeers);
    }
  }

  lemma CompleteIsSeen(c: Config, m: States, betaPeers: seq<PeerId>)
    requires Complete(c, m) && Injective(Reachable(m)) && IsNearest(betaPeers, Reachable(m), c.beta, By(c.key))
    ensures AllQueried(m, betaPeers)
  {
    var ps :| IsNearest(ps, Reachable(m), c.beta, By(c.key)) && AllQueried(m, ps);
    NearestIsBruteForce(ps, Reachable(m), c.beta, c.key);
    NearestIsBruteForce(betaPeers, Reachable(m), c.beta, c.key);
  }

  // ----- termination -----

  /** All peers that the seeds and the answers ever name are in U. */
  ghost predicate NamesWithin(c: Config, events: seq<Event>, U: set<PeerId>) {
    && Elems(c.seeds) <= U
    && forall e :: e in events && e.WorkerAnswers? ==> Elems(e.saw) <= U
  }

  ghost predicate Within(s: State, U: set<PeerId>) {
    s.peers.Keys <= U && forall u :: u in s.ch ==> Elems(u.heard) <= U
  }

  lemma StepStaysWithin(c: Config, s: State, e: Event, U: set<PeerId>)
    requires c.alpha >= 1 && Inv(c, s) && Possible(c, s, e) && Within(s, U)
    requires e.WorkerAnswers? ==> Elems(e.saw) <= U
    ensures Within(Step(c, s, e), U)
  {
    if e.Consume? {
      var u := s.ch[0];
      assert u in s.ch;
      if Fresh(c, s) {
        HearAdds(s.peers, c.self, u.heard);
      } else {
        HeadIsWaiting(c.self, s.live, s.ch, With(s.peers, PeerWaiting));
        UpdateEffect(s.peers, c.self, u);
      }
    } else if e.Spawn? && s.at.qPeers != [] {
      assert s.at.qPeers[0] in Elems(s.at.qPeers);
    }
  }

  lemma {:induction false} RunStaysWithin(c: Config, states: seq<State>, events: seq<Event>, U: set<PeerId>)
    requires c.alpha >= 1 && IsRun(c, states, events) && NamesWithin(c, events, U)
    ensures Within(states[|events|], U)
    decreases |events|
  {
    if events != [] {
      var n := |events| - 1;
      assert events[n] in events;
      RunStaysWithin(c, states[..n + 1], events[..n], U);
      RunKeeps(c, states[..n + 1], events[..n]);
      assert Follows(c, states[n], events[n], states[n + 1]);
      StepStaysWithin(c, states[n], events[n], U);
    }
  }

  /** The coordinator's loop runs at most |U| + 2 times: once for the seeds, once per peer, once for a cancellation. */
  lemma IterationsBounded(c: Config, states: seq<State>, events: seq<Event>, U: set<PeerId>)
    requires c.alpha >= 1 && IsRun(c, states, events) && NamesWithin(c, events, U)
    ensures states[|events|].iterations <= |U| + 2
  {
    RunKeeps(c, states, events);
    RunStaysWithin(c, states, events, U);
    var s := states[|events|];
    Subset(Finished(s.peers), U);
  }

  function PlaceWeight(at: Place): nat {
    match at case Returned => 0 case Selecting => 1 case Spawning(_) => 2 case Checking => 3
  }

  /** What is left to do: spawn, answer, read, go round the loop. */
  function Remaining(s: State, u: nat): int {
    5 * (u - |s.spawned|) + 4 * |s.live| + 3 * |s.ch| + PlaceWeight(s.at) + if s.terminated.Some? then 0 else 3
  }

  lemma ConsumeProgresses(c: Config, s: State, u: nat)
    requires Inv(c, s) && s.at.Selecting? && s.ch != []
    ensures Remaining(ConsumeStep(c, s), u) < Remaining(s, u)
  {
    if Fresh(c, s) {
      assert UpdatePeers(s.peers, c.self, Seed(c)) == Some(Hear(s.peers, c.self, c.seeds));
    } else {
      HeadIsWaiting(c.self, s.live, s.ch, With(s.peers, PeerWaiting));
      UpdateEffect(s.peers, c.self, s.ch[0]);
    }
  }

  lemma SendProgresses(s: State, p: PeerId, up: Update, u: nat)
    requires p in s.live
    ensures Remaining(Send(s, p, up), u) < Remaining(s, u)
  {
  }

  lemma SpawnProgresses(c: Config, s: State, u: nat)
    requires Inv(c, s) && s.at.Spawning?
    ensures Remaining(SpawnStep(s), u) < Remaining(s, u)
  {
    if s.at.qPeers != [] {
      assert s.at.qPeers[0] in Elems(s.at.qPeers);
    }
  }

  lemma CheckProgresses(s: State, stop: bool, betaPeers: seq<PeerId>, qPeers: seq<PeerId>, u: nat)
    requires s.at.Checking?
    ensures Remaining(CheckStep(s, stop, betaPeers, qPeers), u) < Remaining(s, u)
  {
  }

  lemma SeeCancelledProgresses(c: Config, s: State, u: nat)
    requires Inv(c, s) && Possible(c, s, SeeCancelled)
    ensures Remaining(Step(c, s, SeeCancelled), u) < Remaining(s, u)
  {
  }

  /** Every event but a cancellation brings the end closer. */
  lemma StepProgresses(c: Config, s: State, e: Event, u: nat)
    requires Inv(c, s) && Possible(c, s, e)
    ensures if e.Cancel? then Remaining(Step(c, s, e), u) == Remaining(s, u)
        else Remaining(Step(c, s, e), u) < Remaining(s, u)
  {
    match e
    case WorkerFails(p) => SendProgresses(s, p, Update(p, [], [], [p], 0), u);
    case WorkerAnswers(p, saw, d) => SendProgresses(s, p, Update(p, saw, [p], [], d), u);
    case Consume => ConsumeProgresses(c, s, u);
    case SeeCancelled => SeeCancelledProgresses(c, s, u);
    case Check(stop, betaPeers, qPeers) => CheckProgresses(s, stop, betaPeers, qPeers, u);
    case Spawn => SpawnProgresses(c, s, u);
    case Cancel =>
  }

  lemma SpawnedFits(c: Config, s: State, U: set<PeerId>)
    requires Inv(c, s) && Within(s, U)
    ensures |s.spawned| <= |U|
  {
    if Started(c, s) {
      NoDupCardinality(s.spawned);
      Subset(Elems(s.spawned), U);
    }
  }

  function Steps(events: seq<Event>): nat {
    if events == [] then 0
    else Steps(events[..|events| - 1]) + if events[|events| - 1].Cancel? then 0 else 1
  }

  lemma StepsSnoc(events: seq<Event>, k: nat)
    requires k < |events|
    ensures Steps(events[..k + 1]) == Steps(events[..k]) + if events[k].Cancel? then 0 else 1
  {
    assert events[..k + 1][..k] == events[..k];
  }

  lemma ProgressAt(c: Config, states: seq<State>, events: seq<Event>, k: nat, u: nat)
    requires c.alpha >= 1 && IsRun(c, states, events) && k < |events|
    ensures Remaining(states[k + 1], u) + (if events[k].Cancel? then 0 else 1) <= Remaining(states[k], u)
  {
    RunKeeps(c, states[..k + 1], events[..k]);
    assert Follows(c, states[k], events[k], states[k + 1]);
    StepProgresses(c, states[k], events[k], u);
  }

  lemma {:induction false} RemainingBounds(c: Config, states: seq<State>, events: seq<Event>, k: nat, u: nat)
    requires c.alpha >= 1 && IsRun(c, states, events) && k <= |events|
    ensures Steps(events[..k]) + Remaining(states[k], u) <= 5 * u + 7
    decreases k
  {
    if k > 0 {
      RemainingBounds(c, states, events, k - 1, u);
      StepsSnoc(events, k - 1);
      ProgressAt(c, states, events, k - 1, u);
    }
  }

  /** No run over a finite universe goes on: it has at most 5|U| + 7 events besides cancellations. */
  lemma RunsAreFinite(c: Config, states: seq<State>, events: seq<Event>, U: set<PeerId>)
    requires c.alpha >= 1 && IsRun(c, states, events) && NamesWithin(c, events, U)
    ensures Steps(events) <= 5 * |U| + 7
  {
    RunKeeps(c, states, events);
    RunStaysWithin(c, states, events, U);
    SpawnedFits(c, states[|events|], U);
    RemainingBounds(c, states, events, |events|, |U|);
    assert events[..|events|] == events;
  }

  /** A run gets stuck only where the loop has returned and every worker is done. */
  lemma OnlyTheEndIsStuck(c: Config, states: seq<State>, events: seq<Event>)
    requires c.alpha >= 1 && IsRun(c, states, events)
    requires forall e: Event :: !e.Cancel? ==> !Possible(c, states[|events|], e)
    ensures states[|events|].at.Returned? && states[|events|].live == multiset{}
  {
    RunKeeps(c, states, events);
    NeverBlockedNeverPanics(c, states, events);
    var s := states[|events|];
    if p :| p in s.live {
      assert Possible(c, s, WorkerFails(p));
    }
    match s.at
    case Selecting =>
      if s.ch == [] {
        WaitingMeansWorking(c, states, events);
      }
      assert Possible(c, s, Consume);
    case Checking => CanCheck(c, s);
    case Spawning(_) => assert Possible(c, s, Spawn);
    case Returned =>
  }

  lemma SomeNearest(pool: set<PeerId>, n: nat, d: PeerId -> nat) returns (out: seq<PeerId>)
    ensures IsNearest(out, pool, n, d)
  {
    RankingPrefixIsNearest(pool, n, d);
    out := Ranking(pool, d)[..Min(n, |pool|)];
  }

  lemma CanCheck(c: Config, s: State)
    requires s.at.Checking?
    ensures exists e: Event :: !e.Cancel? && Possible(c, s, e)
  {
    var b := SomeNearest(Reachable(s.peers), c.beta, By(c.key));
    var q := SomeNearest(With(s.peers, PeerHeard), Take(NumToSpawn(s.peers, c.alpha), s.peers), By(c.key));
    assert Possible(c, s, Check(false, b, q));
  }
}
