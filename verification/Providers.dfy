/**
 The provider manager (providers/providers_manager.go, providers/provider_set.go) as a step system: an event
 loop over a cache and a datastore, with a garbage collection that spans many turns of the loop.

 Clock readings are given with the events and do not decrease. Datastore operations succeed. A prefix query
 lists exactly the records of its key, in any order. The cache may evict at any moment.
 */
module Providers {
  import opened Nearest

  type Peer = string
  type Key = string
  type Time = int

  /** ProvideValidity: 48 hours, in nanoseconds. */
  const VALIDITY: Time := 48 * 3600 * 1_000_000_000

  /** A datastore key: the content key, and a last component that decodes to a peer or does not decode. */
  datatype Leaf = Provider(p: Peer) | Undecodable(text: string)
  datatype RecKey = RecKey(key: Key, leaf: Leaf)

  /** A datastore value: a time, or bytes that do not parse as one. */
  datatype Value = At(t: Time) | Malformed

  type Store = map<RecKey, Value>

  datatype ProviderSet = ProviderSet(providers: seq<Peer>, times: map<Peer, Time>)

  const NO_PROVIDERS := ProviderSet([], map[])

  function SetVal(ps: ProviderSet, p: Peer, t: Time): ProviderSet {
    ProviderSet(if p in ps.times then ps.providers else ps.providers + [p], ps.times[p := t])
  }

  /**
   A running collection: when it started, what was added since (gcSkip), and every record the store held at
   some moment since; the query may deliver any of the last, as it was at any such moment.
   */
  datatype Gc = Idle | Running(gcTime: Time, skip: set<RecKey>, held: set<(RecKey, Value)>)

  datatype State = State(cache: map<Key, ProviderSet>, store: Store, gc: Gc, clock: Time)

  datatype Event =
    | Add(k: Key, p: Peer, now: Time)
    | Get(k: Key, results: seq<RecKey>, now: Time)
    | Evict(k: Key)
    | GcStart(gcTime: Time, now: Time)
    | GcResult(rk: RecKey, v: Value)
    | GcEnd

  predicate Expired(v: Value, now: Time) { v.Malformed? || now - v.t > VALIDITY }

  predicate Drops(rk: RecKey, v: Value, now: Time) { Expired(v, now) || rk.leaf.Undecodable? }

  // ----- reading a key from the datastore -----

  function LoadedStore(store: Store, results: seq<RecKey>, now: Time): Store {
    if results == [] then store
    else
      var s, rk := LoadedStore(store, results[..|results| - 1], now), results[|results| - 1];
      if rk in s && Drops(rk, s[rk], now) then s - {rk} else s
  }

  function LoadedSet(store: Store, results: seq<RecKey>, now: Time): ProviderSet {
    if results == [] then NO_PROVIDERS
    else
      var ps, rk := LoadedSet(store, results[..|results| - 1], now), results[|results| - 1];
      if rk in store && !Drops(rk, store[rk], now) then SetVal(ps, rk.leaf.p, store[rk].t) else ps
  }

  /** The results of a prefix query: each record of the key once. */
  ghost predicate Lists(results: seq<RecKey>, store: Store, k: Key) {
    && NoDup(results)
    && forall rk :: rk in Elems(results) <==> rk in store && rk.key == k
  }

  // ----- the event loop -----

  ghost predicate Possible(s: State, e: Event) {
    match e
    case Add(_, _, now) => now >= s.clock
    case Get(k, results, now) => now >= s.clock && (k !in s.cache ==> Lists(results, s.store, k))
    case Evict(_) => true
    case GcStart(gcTime, now) => s.gc.Idle? && gcTime <= now && now >= s.clock
    case GcResult(rk, v) => s.gc.Running? && (rk, v) in s.gc.held
    case GcEnd => s.gc.Running?
  }

  /** A cached set takes the provider in; a key that is not cached stays so. */
  function Updated(cache: map<Key, ProviderSet>, k: Key, p: Peer, now: Time): map<Key, ProviderSet> {
    if k in cache then cache[k := SetVal(cache[k], p, now)] else cache
  }

  function AddStep(s: State, k: Key, p: Peer, now: Time): State {
    var rk := RecKey(k, Provider(p));
    State(
      Updated(s.cache, k, p, now),
      s.store[rk := At(now)],
      if s.gc.Running? then s.gc.(skip := s.gc.skip + {rk}, held := s.gc.held + {(rk, At(now))}) else s.gc,
      now)
  }

  function GetStep(s: State, k: Key, results: seq<RecKey>, now: Time): State {
    if k in s.cache then s.(clock := now)
    else
      var ps := LoadedSet(s.store, results, now);
      s.(store := LoadedStore(s.store, results, now),
         cache := if |ps.providers| > 0 then s.cache[k := ps] else s.cache,
         clock := now)
  }

  function Answer(s: State, k: Key, results: seq<RecKey>, now: Time): seq<Peer> {
    if k in s.cache then s.cache[k].providers else LoadedSet(s.store, results, now).providers
  }

  function GcStartStep(s: State, gcTime: Time, now: Time): State {
    s.(cache := map[], gc := Running(gcTime, {}, s.store.Items), clock := now)
  }

  function GcResultStep(s: State, rk: RecKey, v: Value): State
    requires s.gc.Running?
  {
    if rk in s.gc.skip || !Expired(v, s.gc.gcTime) then s else s.(store := s.store - {rk})
  }

  function Step(s: State, e: Event): State
    requires e.GcResult? ==> s.gc.Running?
  {
    match e
    case Add(k, p, now) => AddStep(s, k, p, now)
    case Get(k, results, now) => GetStep(s, k, results, now)
    case Evict(k) => s.(cache := s.cache - {k})
    case GcStart(gcTime, now) => GcStartStep(s, gcTime, now)
    case GcResult(rk, v) => GcResultStep(s, rk, v)
    case GcEnd => s.(gc := Idle)
  }

  /** The manager starts with an empty cache over whatever the datastore holds. */
  ghost predicate IsInit(s: State) { s.cache == map[] && s.gc == Idle }

  ghost predicate Follows(s: State, e: Event, s': State) { Possible(s, e) && s' == Step(s, e) }

  ghost predicate IsRun(states: seq<State>, events: seq<Event>) {
    && |states| == |events| + 1
    && IsInit(states[0])
    && forall i :: 0 <= i < |events| ==> Follows(states[i], events[i], states[i + 1])
  }
}
