/**
 The iterative lookup of query.go as a step system: one coordinator, workers that each query one peer,
 a channel of capacity alpha between them, and a context that may be cancelled at any moment.

 The interleaving is arbitrary: a run is any sequence of events, each possible where it occurs.
 */
module Lookup {
  import opened KeySpace
  import opened Nearest
  import opened Wrappers

  datatype PeerState = PeerHeard | PeerWaiting | PeerQueried | PeerUnreachable

  type States = map<PeerId, PeerState>

  function With(m: States, st: PeerState): set<PeerId> { set p | p in m && m[p] == st }

  function InStates(m: States, ss: set<PeerState>): set<PeerId> { set p | p in m && m[p] in ss }

  function Reachable(m: States): set<PeerId> { set p | p in m && m[p] != PeerUnreachable }

  datatype Update = Update(cause: PeerId, heard: seq<PeerId>, queried: seq<PeerId>, unreachable: seq<PeerId>,
      duration: nat)

  datatype Reason = LookupStopped | LookupStarvation | LookupCompleted | LookupCancelled

  /** Where the coordinator's loop is. */
  datatype Place =
    | Selecting
    | Checking
    | Spawning(qPeers: seq<PeerId>)
    | Returned

  datatype Config = Config(self: PeerId, key: Id, alpha: nat, beta: nat, seeds: seq<PeerId>)

  /** `named`, `iterations` and `spawned` record history; no step reads them. */
  datatype State = State(
    peers: States,
    times: map<PeerId, nat>,
    live: multiset<PeerId>,
    ch: seq<Update>,
    cancelled: bool,
    terminated: Option<Reason>,
    at: Place,
    panicked: bool,
    named: set<PeerId>,
    iterations: nat,
    spawned: seq<PeerId>)

  datatype Event =
    | WorkerFails(p: PeerId)
    | WorkerAnswers(p: PeerId, saw: seq<PeerId>, duration: nat)
    | Consume
    | SeeCancelled
    | Check(stop: bool, betaPeers: seq<PeerId>, qPeers: seq<PeerId>)
    | Spawn
    | Cancel

  function Seed(c: Config): Update { Update(c.self, c.seeds, [], [], 0) }

  function Init(c: Config): State {
    State(map[], map[], multiset{}, [Seed(c)], false, None, Selecting, false, {}, 0, [])
  }

  // ----- updateState -----

  function Hear(m: States, self: PeerId, heard: seq<PeerId>): States {
    if heard == [] then m
    else
      var m', p := Hear(m, self, heard[..|heard| - 1]), heard[|heard| - 1];
      if p == self || p in m' then m' else m'[p := PeerHeard]
  }

  /** Waiting peers move to a final state; any other state, and any unknown peer, is a panic. */
  function Finish(m: States, self: PeerId, ps: seq<PeerId>, to: PeerState): Option<States> {
    if ps == [] then Some(m)
    else
      match Finish(m, self, ps[..|ps| - 1], to)
      case None => None
      case Some(m') =>
        var p := ps[|ps| - 1];
        if p == self then Some(m')
        else if p in m' && m'[p] == PeerWaiting then Some(m'[p := to])
        else None
  }

  function Timed(times: map<PeerId, nat>, self: PeerId, ps: seq<PeerId>, d: nat): map<PeerId, nat> {
    if ps == [] then times
    else
      var t := Timed(times, self, ps[..|ps| - 1], d);
      if ps[|ps| - 1] == self then t else t[ps[|ps| - 1] := d]
  }

  function UpdatePeers(m: States, self: PeerId, u: Update): Option<States> {
    match Finish(Hear(m, self, u.heard), self, u.queried, PeerQueried)
    case None => None
    case Some(m') => Finish(m', self, u.unreachable, PeerUnreachable)
  }

  // ----- isReadyToTerminate -----

  predicate Starving(m: States) { With(m, PeerHeard) == {} && With(m, PeerWaiting) == {} }

  predicate AllQueried(m: States, ps: seq<PeerId>) {
    forall p :: p in ps ==> p in m && m[p] == PeerQueried
  }

  /** How many heard peers are taken: asking for none, or fewer than none, takes all of them. */
  function Take(want: int, m: States): nat {
    if want <= 0 then |With(m, PeerHeard)| else want
  }

  function NumToSpawn(m: States, alpha: nat): int { alpha - |With(m, PeerWaiting)| }

  function Verdict(m: States, stop: bool, betaPeers: seq<PeerId>): Option<Reason> {
    if stop then Some(LookupStopped)
    else if Starving(m) then Some(LookupStarvation)
    else if AllQueried(m, betaPeers) then Some(LookupCompleted)
    else None
  }

  /** The two lists a check computes, as far as it gets: neither if it stops first, both if it goes on. */
  ghost predicate Computed(c: Config, m: States, want: int, stop: bool, betaPeers: seq<PeerId>, qPeers: seq<PeerId>) {
    && (!stop && !Starving(m) ==> IsNearest(betaPeers, Reachable(m), c.beta, By(c.key)))
    && (Verdict(m, stop, betaPeers).None? ==>
          IsNearest(qPeers, With(m, PeerHeard), Take(want, m), By(c.key)))
  }

  // ----- steps -----

  /** Whether an event can happen: a worker can send only while the channel has room. */
  ghost predicate Possible(c: Config, s: State, e: Event) {
    match e
    case WorkerFails(p) => p in s.live && |s.ch| < c.alpha
    case WorkerAnswers(p, saw, _) => p in s.live && |s.ch| < c.alpha && c.self !in saw
    case Consume => s.at.Selecting? && s.ch != []
    case SeeCancelled => s.at.Selecting? && s.cancelled
    case Check(_, betaPeers, qPeers) =>
      s.at.Checking? && Computed(c, s.peers, NumToSpawn(s.peers, c.alpha), e.stop, betaPeers, qPeers)
    case Spawn => s.at.Spawning?
    case Cancel => true
  }

  function Send(s: State, p: PeerId, u: Update): State {
    s.(live := s.live - multiset{p}, ch := s.ch + [u])
  }

  function ConsumeStep(c: Config, s: State): State
    requires s.ch != []
  {
    var u := s.ch[0];
    match UpdatePeers(s.peers, c.self, u)
    case None => s.(panicked := true)
    case Some(m) =>
      s.(peers := m,
         times := Timed(s.times, c.self, u.queried, u.duration),
         ch := s.ch[1..],
         at := Checking,
         panicked := s.panicked || s.terminated.Some?,
         named := s.named + Elems(u.heard),
         iterations := s.iterations + 1)
  }

  /** The first reason to terminate is the one that counts. */
  function Terminate(s: State, r: Reason): State {
    if s.terminated.Some? then s else s.(terminated := Some(r), cancelled := true)
  }

  function CheckStep(s: State, stop: bool, betaPeers: seq<PeerId>, qPeers: seq<PeerId>): State {
    var v := Verdict(s.peers, stop, betaPeers);
    var s' := if v.Some? then Terminate(s, v.value) else s;
    if s'.terminated.Some? then s'.(at := Returned) else s'.(at := Spawning(qPeers))
  }

  function SpawnStep(s: State): State
    requires s.at.Spawning?
  {
    if s.at.qPeers == [] then s.(at := Selecting)
    else
      var p := s.at.qPeers[0];
      if p !in s.peers then s.(panicked := true)
      else s.(peers := s.peers[p := PeerWaiting],
              live := s.live + multiset{p},
              spawned := s.spawned + [p],
              at := Spawning(s.at.qPeers[1..]))
  }

  ghost function Step(c: Config, s: State, e: Event): State
    requires Possible(c, s, e)
  {
    match e
    case WorkerFails(p) => Send(s, p, Update(p, [], [], [p], 0))
    case WorkerAnswers(p, saw, d) => Send(s, p, Update(p, saw, [p], [], d))
    case Consume => ConsumeStep(c, s)
    case SeeCancelled => Terminate(s, LookupCancelled).(at := Checking, iterations := s.iterations + 1)
    case Check(stop, betaPeers, qPeers) => CheckStep(s, stop, betaPeers, qPeers)
    case Spawn => SpawnStep(s)
    case Cancel => s.(cancelled := true)
  }

  /** The states a run goes through; every event was possible where it occurred. */
  ghost predicate IsRun(c: Config, states: seq<State>, events: seq<Event>) {
    && |states| == |events| + 1
    && states[0] == Init(c)
    && forall i :: 0 <= i < |events| ==> Follows(c, states[i], events[i], states[i + 1])
  }

  ghost predicate Follows(c: Config, s: State, e: Event, s': State) {
    Possible(c, s, e) && s' == Step(c, s, e)
  }
}
