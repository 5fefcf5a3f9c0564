/**
 What the events of a run tell: which peers were heard of, queried and found unreachable, how a lookup ends, and
 what it has found, in terms of what the workers met and the updates the loop has read.
 */
module LookupHistory {
  import opened KeySpace
  import opened Nearest
  import opened Lookup
  import opened LookupLaws
  import opened Wrappers

  // ----- what was sent, and what was read -----

  predicate FromAWorker(e: Event) { e.WorkerFails? || e.WorkerAnswers? }

  /** The workers' ends, in order. */
  function Sent(events: seq<Event>): seq<Event> {
    if events == [] then []
    else Sent(events[..|events| - 1]) + if FromAWorker(events[|events| - 1]) then [events[|events| - 1]] else []
  }

  /** How often the loop has read the channel. */
  function Reads(events: seq<Event>): nat {
    if events == [] then 0 else Reads(events[..|events| - 1]) + if events[|events| - 1].Consume? then 1 else 0
  }

  /** The channel starts with the seeds and hands out in order, so this is what has been read after the seeds. */
  function ReadOf(sent: seq<Event>, nRead: nat): seq<Event> {
    if nRead == 0 then [] else sent[..Min(nRead - 1, |sent|)]
  }

  function Accepted(events: seq<Event>): seq<Event> { ReadOf(Sent(events), Reads(events)) }

  function Answerers(done: seq<Event>): set<PeerId> { set e | e in done && e.WorkerAnswers? :: e.p }

  function Failers(done: seq<Event>): set<PeerId> { set e | e in done && e.WorkerFails? :: e.p }

  function NamedIn(done: seq<Event>): set<PeerId> {
    set e, p | e in done && e.WorkerAnswers? && p in e.saw :: p
  }

  /** How long each answer took. */
  function Durations(done: seq<Event>): map<PeerId, nat> {
    if done == [] then map[]
    else
      var t, e := Durations(done[..|done| - 1]), done[|done| - 1];
      if e.WorkerAnswers? then t[e.p := e.duration] else t
  }

  /** Whoever the seeds and the answers read so far have named. */
  function NamedBy(c: Config, sent: seq<Event>, nRead: nat): set<PeerId> {
    (if nRead == 0 then {} else Elems(c.seeds)) + NamedIn(ReadOf(sent, nRead))
  }

  function Named(c: Config, events: seq<Event>): set<PeerId> { NamedBy(c, Sent(events), Reads(events)) }

  // ----- the machine's state is what the events tell -----

  function UpdateOf(e: Event): Update
    requires FromAWorker(e)
  {
    if e.WorkerFails? then Update(e.p, [], [], [e.p], 0) else Update(e.p, e.saw, [e.p], [], e.duration)
  }

  ghost predicate AllWorkers(sent: seq<Event>) { forall i :: 0 <= i < |sent| ==> FromAWorker(sent[i]) }

  /** What is in the channel: what was sent and not read. */
  ghost predicate Queued(c: Config, ch: seq<Update>, sent: seq<Event>, nRead: nat) {
    && AllWorkers(sent)
    && nRead <= 1 + |sent|
    && |ch| == 1 + |sent| - nRead
    && (nRead == 0 ==> ch[0] == Seed(c))
    && forall i :: 0 <= i < |sent| && 0 <= i + 1 - nRead ==> ch[i + 1 - nRead] == UpdateOf(sent[i])
  }

  ghost predicate Known(c: Config, s: State, done: seq<Event>, named: set<PeerId>) {
    && With(s.peers, PeerQueried) == Answerers(done)
    && With(s.peers, PeerUnreachable) == Failers(done)
    && s.named == named
    && s.peers.Keys == named - {c.self}
    && s.times == Durations(done)
  }

  ghost predicate Tells(c: Config, s: State, sent: seq<Event>, nRead: nat) {
    Queued(c, s.ch, sent, nRead) && Known(c, s, ReadOf(sent, nRead), NamedBy(c, sent, nRead))
  }

  lemma ReadMovesOn(c: Config, ch: seq<Update>, sent: seq<Event>, nRead: nat)
    requires Queued(c, ch, sent, nRead)
    ensures if nRead == 0 then ch != [] && !FromWorker(ch[0], c.self) else ch != [Seed(c)]
  {
    if nRead > 0 && |ch| == 1 {
      assert ch[0] == UpdateOf(sent[nRead - 1]);
    }
  }

  /** The seeds are in the channel exactly as long as nothing was read. */
  lemma FreshTillRead(c: Config, s: State, sent: seq<Event>, nRead: nat)
    requires Inv(c, s) && Queued(c, s.ch, sent, nRead)
    ensures if nRead == 0 then Fresh(c, s) else Started(c, s)
  {
    ReadMovesOn(c, s.ch, sent, nRead);
    if nRead == 0 {
      assert s.ch[0] in s.ch;
    }
  }

  lemma DoneSnoc(done: seq<Event>, e: Event)
    ensures Answerers(done + [e]) == Answerers(done) + if e.WorkerAnswers? then {e.p} else {}
    ensures Failers(done + [e]) == Failers(done) + if e.WorkerFails? then {e.p} else {}
    ensures NamedIn(done + [e]) == NamedIn(done) + if e.WorkerAnswers? then Elems(e.saw) else {}
    ensures Durations(done + [e]) == if e.WorkerAnswers? then Durations(done)[e.p := e.duration] else Durations(done)
  {
    AnswerersSnoc(done, e);
    NamedInSnoc(done, e);
    assert (done + [e])[..|done|] == done;
  }

  lemma AnswerersSnoc(done: seq<Event>, e: Event)
    ensures Answerers(done + [e]) == Answerers(done) + if e.WorkerAnswers? then {e.p} else {}
    ensures Failers(done + [e]) == Failers(done) + if e.WorkerFails? then {e.p} else {}
  {
    assert forall x :: x in done + [e] <==> x in done || x == e;
  }

  lemma NamedInSnoc(done: seq<Event>, e: Event)
    ensures NamedIn(done + [e]) == NamedIn(done) + if e.WorkerAnswers? then Elems(e.saw) else {}
  {
    assert forall x :: x in done + [e] <==> x in done || x == e;
  }

  lemma SendTells(c: Config, s: State, e: Event, sent: seq<Event>, nRead: nat)
    requires Tells(c, s, sent, nRead) && FromAWorker(e) && Possible(c, s, e)
    ensures Tells(c, Step(c, s, e), sent + [e], nRead)
  {
    assert ReadOf(sent + [e], nRead) == ReadOf(sent, nRead);
  }

  lemma ReadSeedTells(c: Config, s: State, sent: seq<Event>)
    requires Tells(c, s, sent, 0) && Fresh(c, s) && s.at.Selecting?
    ensures Tells(c, ConsumeStep(c, s), sent, 1)
  {
    HearAdds(map[], c.self, c.seeds);
    SeedsHeard(c.self, c.seeds);
    var m := Hear(map[], c.self, c.seeds);
    assert UpdatePeers(map[], c.self, Seed(c)) == Some(m);
    assert sent == [] && ReadOf(sent, 1) == [];
    assert With(m, PeerQueried) == {} && With(m, PeerUnreachable) == {};
  }

  lemma FinishedPeers(m: States, self: PeerId, u: Update)
    requires FromWorker(u, self) && self !in m && u.cause in With(m, PeerWaiting)
    ensures UpdatePeers(m, self, u).Some?
    ensures var m' := UpdatePeers(m, self, u).value;
            && With(m', PeerQueried) == With(m, PeerQueried) + (if u.queried != [] then {u.cause} else {})
            && With(m', PeerUnreachable) == With(m, PeerUnreachable) + (if u.queried != [] then {} else {u.cause})
            && m'.Keys == m.Keys + Elems(u.heard)
  {
    UpdateEffect(m, self, u);
    WorkerUpdateAccepted(m, self, u);
    HearKeepsOthers(m, self, u.heard);
    SetStateMoves(Hear(m, self, u.heard), u.cause, if u.queried != [] then PeerQueried else PeerUnreachable);
  }

  lemma TimedBy(times: map<PeerId, nat>, self: PeerId, u: Update)
    requires FromWorker(u, self) && u.cause != self
    ensures Timed(times, self, u.queried, u.duration) == if u.queried != [] then times[u.cause := u.duration] else times
  {
    assert [u.cause][..0] == [];
    assert Timed(times, self, [], u.duration) == times;
  }

  lemma NextIsTaken(c: Config, ch: seq<Update>, sent: seq<Event>, nRead: nat)
    requires Queued(c, ch, sent, nRead) && nRead > 0 && ch != []
    ensures nRead <= |sent| && ch[0] == UpdateOf(sent[nRead - 1]) && Queued(c, ch[1..], sent, nRead + 1)
    ensures ReadOf(sent, nRead + 1) == ReadOf(sent, nRead) + [sent[nRead - 1]]
  {
  }

  lemma ReadKnown(c: Config, s: State, e: Event, done: seq<Event>, named: set<PeerId>)
    requires Known(c, s, done, named) && FromAWorker(e) && s.ch != [] && s.ch[0] == UpdateOf(e)
    requires FromWorker(s.ch[0], c.self) && c.self !in s.peers && s.ch[0].cause in With(s.peers, PeerWaiting)
    ensures Known(c, ConsumeStep(c, s), done + [e], named + Elems(s.ch[0].heard))
    ensures ConsumeStep(c, s).ch == s.ch[1..]
  {
    FinishedPeers(s.peers, c.self, s.ch[0]);
    TimedBy(s.times, c.self, s.ch[0]);
    DoneSnoc(done, e);
    assert c.self !in Elems(s.ch[0].heard);
  }

  lemma NamedByGrows(c: Config, sent: seq<Event>, nRead: nat)
    requires 0 < nRead <= |sent| && FromAWorker(sent[nRead - 1])
    ensures NamedBy(c, sent, nRead + 1) == NamedBy(c, sent, nRead) + Elems(UpdateOf(sent[nRead - 1]).heard)
  {
    assert ReadOf(sent, nRead + 1) == ReadOf(sent, nRead) + [sent[nRead - 1]];
    NamedInSnoc(ReadOf(sent, nRead), sent[nRead - 1]);
  }

  lemma ReadTells(c: Config, s: State, sent: seq<Event>, nRead: nat)
    requires Tells(c, s, sent, nRead) && nRead > 0 && Started(c, s) && s.ch != [] && c.self !in s.peers
    ensures Tells(c, ConsumeStep(c, s), sent, nRead + 1)
  {
    NextIsTaken(c, s.ch, sent, nRead);
    HeadIsWaiting(c.self, s.live, s.ch, With(s.peers, PeerWaiting));
    var e, done := sent[nRead - 1], ReadOf(sent, nRead);
    ReadKnown(c, s, e, done, NamedBy(c, sent, nRead));
    NamedByGrows(c, sent, nRead);
  }

  lemma SpawnTells(c: Config, s: State, sent: seq<Event>, nRead: nat)
    requires Tells(c, s, sent, nRead) && Inv(c, s) && s.at.Spawning?
    ensures Tells(c, SpawnStep(s), sent, nRead)
  {
    if s.at.qPeers != [] {
      HeadIsHeard(c, s);
      SetStateMoves(s.peers, s.at.qPeers[0], PeerWaiting);
    }
  }

  lemma HeadIsHeard(c: Config, s: State)
    requires Inv(c, s) && s.at.Spawning? && s.at.qPeers != []
    ensures s.at.qPeers[0] in s.peers && s.peers[s.at.qPeers[0]] == PeerHeard
  {
    SpawnBounded(c.alpha, s.at.qPeers, With(s.peers, PeerWaiting), With(s.peers, PeerHeard));
  }

  /** A check, a cancellation and its being seen touch nothing that is told. */
  lemma OthersTell(c: Config, s: State, e: Event, sent: seq<Event>, nRead: nat)
    requires Tells(c, s, sent, nRead) && Possible(c, s, e) && (e.Check? || e.SeeCancelled? || e.Cancel?)
    ensures Tells(c, Step(c, s, e), sent, nRead)
  {
  }

  lemma StepTells(c: Config, s: State, e: Event, sent: seq<Event>, nRead: nat)
    requires c.alpha >= 1 && Inv(c, s) && Possible(c, s, e) && Tells(c, s, sent, nRead)
    ensures Tells(c, Step(c, s, e), if FromAWorker(e) then sent + [e] else sent,
        if e.Consume? then nRead + 1 else nRead)
  {
    if FromAWorker(e) {
      SendTells(c, s, e, sent, nRead);
    } else if e.Consume? {
      FreshTillRead(c, s, sent, nRead);
      if nRead == 0 { ReadSeedTells(c, s, sent); } else { ReadTells(c, s, sent, nRead); }
    } else if e.Spawn? {
      SpawnTells(c, s, sent, nRead);
    } else {
      OthersTell(c, s, e, sent, nRead);
    }
  }

  /** The run up to event k, and the step that event makes. */
  lemma PrefixIsRun(c: Config, states: seq<State>, events: seq<Event>, k: nat)
    requires IsRun(c, states, events) && k < |events|
    ensures IsRun(c, states[..k + 1], events[..k]) && states[..k + 1][k] == states[k] && |events[..k]| == k
    ensures Follows(c, states[k], events[k], states[k + 1])
  {
  }

  lemma {:induction false} RunTells(c: Config, states: seq<State>, events: seq<Event>)
    requires c.alpha >= 1 && IsRun(c, states, events)
    ensures Tells(c, states[|events|], Sent(events), Reads(events))
    decreases |events|
  {
    if events == [] {
      assert ReadOf([], 0) == [];
    } else {
      var n := |events| - 1;
      PrefixIsRun(c, states, events, n);
      RunTells(c, states[..n + 1], events[..n]);
      RunKeeps(c, states[..n + 1], events[..n]);
      StepTells(c, states[n], events[n], Sent(events[..n]), Reads(events[..n]));
      SentSnoc(events, n);
    }
  }

  lemma SentSnoc(events: seq<Event>, n: nat)
    requires |events| == n + 1
    ensures Sent(events) == if FromAWorker(events[n]) then Sent(events[..n]) + [events[n]] else Sent(events[..n])
    ensures Reads(events) == if events[n].Consume? then Reads(events[..n]) + 1 else Reads(events[..n])
  {
  }

  /**
   In every run a peer is queried exactly if its worker's answer has been read, unreachable exactly if its worker's
   failure has been read, and waiting if its worker was started and neither was read yet; the peers known are those
   that the seeds and the answers read have named; and each answer's duration is recorded.
   */
  lemma EventsTell(c: Config, states: seq<State>, events: seq<Event>)
    requires c.alpha >= 1 && IsRun(c, states, events)
    ensures var s, done := states[|events|], Accepted(events);
            && (forall p :: p in s.peers && s.peers[p] == PeerQueried <==> p in Answerers(done))
            && (forall p :: p in s.peers && s.peers[p] == PeerUnreachable <==> p in Failers(done))
            && (forall p :: p in s.peers && s.peers[p] == PeerWaiting <==>
                  p in Elems(s.spawned) && p !in Answerers(done) && p !in Failers(done))
            && s.peers.Keys == Named(c, events) - {c.self}
            && s.named == Named(c, events)
            && s.times == Durations(done)
  {
    RunTells(c, states, events);
    QueriedAtMostOnce(c, states, events);
    var s, done := states[|events|], Accepted(events);
    forall p ensures p in s.peers && s.peers[p] == PeerQueried <==> p in Answerers(done) {
      assert p in With(s.peers, PeerQueried) <==> p in Answerers(done);
    }
    forall p ensures p in s.peers && s.peers[p] == PeerUnreachable <==> p in Failers(done) {
      assert p in With(s.peers, PeerUnreachable) <==> p in Failers(done);
    }
    forall p ensures p in s.peers && s.peers[p] == PeerWaiting <==>
        p in Elems(s.spawned) && p !in Answerers(done) && p !in Failers(done)
    {
      assert p in Elems(s.spawned) <==> p in s.peers.Keys - With(s.peers, PeerHeard);
    }
  }

  // ----- what a lookup has found -----

  /** Everybody named so far but the local peer and those whose failure was read. */
  function Alive(c: Config, events: seq<Event>): set<PeerId> {
    Named(c, events) - {c.self} - Failers(Accepted(events))
  }

  lemma AliveAreReachable(c: Config, states: seq<State>, events: seq<Event>)
    requires c.alpha >= 1 && IsRun(c, states, events)
    ensures Reachable(states[|events|].peers) == Alive(c, events)
  {
    EventsTell(c, states, events);
    var m := states[|events|].peers;
    forall p ensures p in Reachable(m) <==> p in Alive(c, events) {
      assert p in m <==> p in m.Keys;
    }
  }

  /**
   The n closest of the peers that were named and did not fail have all answered; and everybody who was named has
   failed, is among them, or is no closer than any of them.
   */
  ghost predicate FoundClosest(c: Config, events: seq<Event>, ps: seq<PeerId>) {
    && IsNearest(ps, Alive(c, events), c.beta, By(c.key))
    && NoDup(ps) && |ps| == Min(c.beta, |Alive(c, events)|)
    && Elems(ps) <= Answerers(Accepted(events))
    && forall p :: p in Named(c, events) && p != c.self ==>
         || p in Failers(Accepted(events))
         || p in ps
         || forall q :: q in ps ==> Dist(c.key, q.kad) <= Dist(c.key, p.kad)
  }

  lemma NobodyNamedIsCloser(c: Config, events: seq<Event>, ps: seq<PeerId>)
    requires IsNearest(ps, Alive(c, events), c.beta, By(c.key)) && Elems(ps) <= Answerers(Accepted(events))
    ensures FoundClosest(c, events, ps)
  {
    NearestMeans(ps, Alive(c, events), c.beta, By(c.key));
    forall p: PeerId, q: PeerId | p in Alive(c, events) && p !in ps && q in ps
      ensures Dist(c.key, q.kad) <= Dist(c.key, p.kad)
    {
      var i :| 0 <= i < |ps| && ps[i] == q;
      assert By(c.key)(ps[i]) <= By(c.key)(p);
    }
  }

  /** A completed lookup has found the closest, in terms of what the seeds and the answers read have named. */
  lemma CompletedFindsClosest(c: Config, states: seq<State>, events: seq<Event>)
    requires c.alpha >= 1 && IsRun(c, states, events)
    requires states[|events|].terminated == Some(LookupCompleted)
    ensures exists ps :: FoundClosest(c, events, ps)
  {
    var ps := CompletedBy(c, states, events);
    NobodyNamedIsCloser(c, events, ps);
  }

  lemma CompletedBy(c: Config, states: seq<State>, events: seq<Event>) returns (ps: seq<PeerId>)
    requires c.alpha >= 1 && IsRun(c, states, events)
    requires states[|events|].terminated == Some(LookupCompleted)
    ensures IsNearest(ps, Alive(c, events), c.beta, By(c.key)) && Elems(ps) <= Answerers(Accepted(events))
  {
    RunKeeps(c, states, events);
    AliveAreReachable(c, states, events);
    EventsTell(c, states, events);
    var m := states[|events|].peers;
    ps :| IsNearest(ps, Reachable(m), c.beta, By(c.key)) && AllQueried(m, ps);
  }

  /** A starved lookup: whoever the seeds or an answer read has named has answered or failed. */
  lemma StarvedQueriedAll(c: Config, states: seq<State>, events: seq<Event>, p: PeerId)
    requires c.alpha >= 1 && IsRun(c, states, events)
    requires states[|events|].terminated == Some(LookupStarvation)
    requires p in Named(c, events) && p != c.self
    ensures p in Answerers(Accepted(events)) || p in Failers(Accepted(events))
  {
    RunKeeps(c, states, events);
    EventsTell(c, states, events);
    StarvedIsDone(c, states[|events|], p);
  }

  // ----- how a lookup ends -----

  lemma ReasonStays(c: Config, s: State, e: Event)
    requires Inv(c, s) && Possible(c, s, e) && s.terminated.Some?
    ensures Step(c, s, e).terminated == s.terminated
  {
  }

  /** Once terminated, a query keeps its first reason. */
  lemma {:induction false} FirstReasonCounts(c: Config, states: seq<State>, events: seq<Event>, i: nat, j: nat)
    requires c.alpha >= 1 && IsRun(c, states, events) && i <= j <= |events| && states[i].terminated.Some?
    ensures states[j].terminated == states[i].terminated
    decreases j
  {
    if i < j {
      FirstReasonCounts(c, states, events, i, j - 1);
      PrefixIsRun(c, states, events, j - 1);
      RunKeeps(c, states[..j], events[..j - 1]);
      ReasonStays(c, states[j - 1], events[j - 1]);
    }
  }

  lemma CancelledStep(c: Config, s: State, e: Event)
    requires Possible(c, s, e) && (s.terminated.Some? ==> s.cancelled)
    ensures var s' := Step(c, s, e);
            && (s'.cancelled <==> s.cancelled || e.Cancel? || s'.terminated.Some?)
            && (s.terminated.Some? ==> s'.terminated.Some?)
  {
  }

  /** The context is cancelled exactly from the caller's cancellation or the end of the query on. */
  lemma {:induction false} CancelledBy(c: Config, states: seq<State>, events: seq<Event>, k: nat)
    requires IsRun(c, states, events) && k <= |events|
    ensures states[k].cancelled <==> states[k].terminated.Some? || exists i :: 0 <= i < k && events[i].Cancel?
    decreases k
  {
    if k > 0 {
      CancelledBy(c, states, events, k - 1);
      assert Follows(c, states[k - 1], events[k - 1], states[k]);
      CancelledStep(c, states[k - 1], events[k - 1]);
    }
  }

  lemma ReturnedStays(c: Config, s: State, e: Event)
    requires Possible(c, s, e) && s.at.Returned?
    ensures var s' := Step(c, s, e); s'.at.Returned? && s'.spawned == s.spawned && s'.peers == s.peers
  {
  }

  /** Once the loop has returned nobody else is queried, and nothing that is still sent changes what was found. */
  lemma {:induction false} ReturnedForGood(c: Config, states: seq<State>, events: seq<Event>, i: nat, j: nat)
    requires IsRun(c, states, events) && i <= j <= |events| && states[i].at.Returned?
    ensures states[j].at.Returned? && states[j].spawned == states[i].spawned && states[j].peers == states[i].peers
    decreases j
  {
    if i < j {
      ReturnedForGood(c, states, events, i, j - 1);
      assert Follows(c, states[j - 1], events[j - 1], states[j]);
      ReturnedStays(c, states[j - 1], events[j - 1]);
    }
  }

  /** A check that is told to stop returns, queries nobody, and is the reason unless there was one before. */
  lemma StopReturns(c: Config, states: seq<State>, events: seq<Event>, i: nat)
    requires IsRun(c, states, events) && i < |events| && events[i].Check? && events[i].stop
    ensures states[i + 1].at.Returned? && states[i + 1].spawned == states[i].spawned
    ensures states[i + 1].terminated == if states[i].terminated.Some? then states[i].terminated else Some(LookupStopped)
  {
    PrefixIsRun(c, states, events, i);
  }

  /** A check of a query that was terminated before returns and queries nobody. */
  lemma TerminatedReturns(c: Config, states: seq<State>, events: seq<Event>, i: nat)
    requires IsRun(c, states, events) && i < |events| && events[i].Check? && states[i].terminated.Some?
    ensures states[i + 1].at.Returned? && states[i + 1].spawned == states[i].spawned
  {
    PrefixIsRun(c, states, events, i);
  }

  /** Seeing the cancelled context is the reason unless there was one before; the check that follows returns. */
  lemma CancellationReturns(c: Config, states: seq<State>, events: seq<Event>, i: nat)
    requires c.alpha >= 1 && IsRun(c, states, events) && i < |events| && events[i].SeeCancelled?
    ensures states[i + 1].terminated == Some(LookupCancelled) && states[i + 1].at.Checking?
    ensures states[i + 1].peers == states[i].peers
  {
    PrefixIsRun(c, states, events, i);
    RunKeeps(c, states[..i + 1], events[..i]);
  }

  /**
   A check that is not told to stop ends the lookup by starvation exactly if nobody is heard or waiting, and else
   by completion exactly if the closest peers that are not unreachable are all queried; otherwise it goes on.
   */
  lemma CheckDecides(c: Config, states: seq<State>, events: seq<Event>, i: nat)
    requires IsRun(c, states, events) && i < |events| && events[i].Check? && !events[i].stop
    requires states[i].terminated.None?
    ensures var m, near, r := states[i].peers, events[i].betaPeers, states[i + 1].terminated;
            var nobody := forall p :: p in m ==> m[p] != PeerHeard && m[p] != PeerWaiting;
            && (r == Some(LookupStarvation) <==> nobody)
            && (!nobody ==> IsNearest(near, (set p | p in m && m[p] != PeerUnreachable), c.beta, By(c.key)))
            && (r == Some(LookupCompleted) <==> !nobody && forall p :: p in near ==> p in m && m[p] == PeerQueried)
            && (r.None? || r == Some(LookupStarvation) || r == Some(LookupCompleted))
            && (states[i + 1].at.Returned? <==> r.Some?)
            && (r.None? ==> states[i + 1].at == Spawning(events[i].qPeers))
  {
    PrefixIsRun(c, states, events, i);
    NobodyIsStarving(states[i].peers);
    assert Reachable(states[i].peers) == (set p | p in states[i].peers && states[i].peers[p] != PeerUnreachable);
  }

  /** While the loop waits for workers, alpha peers are waiting or nobody is left that is merely heard of. */
  lemma KeepsAlphaBusy(c: Config, states: seq<State>, events: seq<Event>)
    requires c.alpha >= 1 && IsRun(c, states, events)
    requires states[|events|].at.Selecting? && Reads(events) > 0
    ensures var m := states[|events|].peers;
            |(set p | p in m && m[p] == PeerWaiting)| == c.alpha || forall p :: p in m ==> m[p] != PeerHeard
  {
    RunKeeps(c, states, events);
    RunTells(c, states, events);
    FreshTillRead(c, states[|events|], Sent(events), Reads(events));
    AlphaOrNobodyHeard(c, states[|events|]);
  }
}
