/**
 What the provider manager keeps in every interleaving of adds, gets, evictions and a running collection.
 */
module ProviderLaws {
  import opened Nearest
  import opened Providers

  /** The ordered list and the time map of a provider set are in step. */
  ghost predicate InStep(ps: ProviderSet) {
    NoDup(ps.providers) && Elems(ps.providers) == ps.times.Keys
  }

  /** What the datastore holds for a key is exactly what the set says. */
  ghost predicate Agrees(ps: ProviderSet, store: Store, k: Key) {
    && (forall p :: p in ps.times ==>
        RecKey(k, Provider(p)) in store && store[RecKey(k, Provider(p))] == At(ps.times[p]))
    && (forall rk :: rk in store && rk.key == k ==> rk.leaf.Provider? && rk.leaf.p in ps.times)
  }

  ghost predicate CacheAgrees(cache: map<Key, ProviderSet>, store: Store) {
    forall k :: k in cache ==> InStep(cache[k]) && Agrees(cache[k], store, k)
  }

  /** No record has changed since the collection started, unless it was added; nothing cached is due for collection. */
  ghost predicate GcAgrees(cache: map<Key, ProviderSet>, store: Store, gc: Gc, clock: Time) {
    gc.Running? ==>
      && gc.gcTime <= clock
      && (forall rk, v :: (rk, v) in gc.held && rk !in gc.skip && rk in store ==> store[rk] == v)
      && (forall k, p :: k in cache && p in cache[k].times ==> gc.gcTime - cache[k].times[p] <= VALIDITY)
  }

  ghost predicate Inv(s: State) {
    CacheAgrees(s.cache, s.store) && GcAgrees(s.cache, s.store, s.gc, s.clock)
  }

  lemma SetValKeepsStep(ps: ProviderSet, p: Peer, t: Time)
    requires InStep(ps)
    ensures InStep(SetVal(ps, p, t))
  {
  }

  // ----- loading -----

  lemma {:induction false} LoadedStoreIs(store: Store, results: seq<RecKey>, now: Time)
    ensures forall rk :: rk in LoadedStore(store, results, now) <==>
              rk in store && !(rk in Elems(results) && Drops(rk, store[rk], now))
    ensures forall rk :: rk in LoadedStore(store, results, now) ==> LoadedStore(store, results, now)[rk] == store[rk]
  {
    if results != [] {
      var n := |results| - 1;
      LoadedStoreIs(store, results[..n], now);
      assert Elems(results) == Elems(results[..n]) + {results[n]};
    }
  }

  lemma {:induction false} LoadedSetIs(store: Store, k: Key, results: seq<RecKey>, now: Time)
    requires forall rk :: rk in Elems(results) ==> rk.key == k
    ensures InStep(LoadedSet(store, results, now))
    ensures var ps := LoadedSet(store, results, now);
            forall p :: p in ps.times <==>
              var rk := RecKey(k, Provider(p)); rk in Elems(results) && rk in store && !Drops(rk, store[rk], now)
    ensures var ps := LoadedSet(store, results, now);
            forall p :: p in ps.times ==> store[RecKey(k, Provider(p))] == At(ps.times[p])
  {
    if results != [] {
      var n := |results| - 1;
      var rk := results[n];
      assert Elems(results) == Elems(results[..n]) + {rk};
      LoadedSetIs(store, k, results[..n], now);
      if rk in store && !Drops(rk, store[rk], now) {
        SetValKeepsStep(LoadedSet(store, results[..n], now), rk.leaf.p, store[rk].t);
        assert rk == RecKey(k, Provider(rk.leaf.p));
      }
    }
  }

  /**
   After a load the datastore holds for the key exactly what was loaded; other keys are untouched; nothing loaded is
   expired.
   */
  lemma LoadAgrees(store: Store, k: Key, results: seq<RecKey>, now: Time)
    requires Lists(results, store, k)
    ensures var ps, store' := LoadedSet(store, results, now), LoadedStore(store, results, now);
            && InStep(ps)
            && Agrees(ps, store', k)
            && (forall rk: RecKey :: rk.key != k ==> (rk in store' <==> rk in store))
            && (forall rk :: rk in store' ==> rk in store && store'[rk] == store[rk])
            && (forall rk :: rk in store && store[rk].At? && now - store[rk].t <= VALIDITY && rk.leaf.Provider? ==>
                  rk in store' && (rk.key == k ==> rk.leaf.p in ps.times))
            && (forall rk :: rk in store' && rk.key == k ==>
                  store[rk].At? && now - store[rk].t <= VALIDITY && rk.leaf.Provider?)
            && (forall p :: p in ps.times ==> now - ps.times[p] <= VALIDITY)
  {
    LoadedStoreIs(store, results, now);
    LoadedSetIs(store, k, results, now);
  }

  // ----- steps -----

  lemma AddAgrees(ps: ProviderSet, store: Store, k: Key, p: Peer, now: Time)
    requires Agrees(ps, store, k)
    ensures Agrees(SetVal(ps, p, now), store[RecKey(k, Provider(p)) := At(now)], k)
  {
  }

  lemma AddAgreesElsewhere(ps: ProviderSet, store: Store, l: Key, rk: RecKey, v: Value)
    requires Agrees(ps, store, l) && rk.key != l
    ensures Agrees(ps, store[rk := v], l)
  {
  }

  lemma AddKeepsCache(s: State, k: Key, p: Peer, now: Time)
    requires CacheAgrees(s.cache, s.store)
    ensures CacheAgrees(AddStep(s, k, p, now).cache, AddStep(s, k, p, now).store)
  {
    var s' := AddStep(s, k, p, now);
    forall l | l in s'.cache ensures InStep(s'.cache[l]) && Agrees(s'.cache[l], s'.store, l) {
      if l == k {
        SetValKeepsStep(s.cache[k], p, now);
        AddAgrees(s.cache[k], s.store, k, p, now);
      } else {
        AddAgreesElsewhere(s.cache[l], s.store, l, RecKey(k, Provider(p)), At(now));
      }
    }
  }

  lemma AddKeepsGc(s: State, k: Key, p: Peer, now: Time)
    requires Inv(s) && now >= s.clock
    ensures var s' := AddStep(s, k, p, now); GcAgrees(s'.cache, s'.store, s'.gc, s'.clock)
  {
  }

  lemma AddKeeps(s: State, k: Key, p: Peer, now: Time)
    requires Inv(s) && now >= s.clock
    ensures Inv(AddStep(s, k, p, now))
  {
    AddKeepsCache(s, k, p, now);
    AddKeepsGc(s, k, p, now);
  }

  lemma GetKeeps(s: State, k: Key, results: seq<RecKey>, now: Time)
    requires Inv(s) && Possible(s, Get(k, results, now))
    ensures Inv(GetStep(s, k, results, now))
  {
    if k !in s.cache {
      LoadAgrees(s.store, k, results, now);
    }
  }

  lemma DropAgreesElsewhere(ps: ProviderSet, store: Store, l: Key, rk: RecKey)
    requires Agrees(ps, store, l) && rk.key != l
    ensures Agrees(ps, store - {rk}, l)
  {
  }

  lemma CachedIsNotDue(ps: ProviderSet, store: Store, k: Key, gcTime: Time)
    requires Agrees(ps, store, k) && forall p :: p in ps.times ==> gcTime - ps.times[p] <= VALIDITY
    ensures forall rk :: rk in store && rk.key == k ==> !Expired(store[rk], gcTime)
  {
    forall rk | rk in store && rk.key == k ensures !Expired(store[rk], gcTime) {
      assert rk == RecKey(k, Provider(rk.leaf.p));
    }
  }

  /** A collected record was, as it stands, malformed or too old; so nothing cached loses its record. */
  lemma GcResultKeeps(s: State, rk: RecKey, v: Value)
    requires Inv(s) && Possible(s, GcResult(rk, v))
    ensures Inv(GcResultStep(s, rk, v))
    ensures rk in s.store && rk !in GcResultStep(s, rk, v).store ==>
        s.store[rk].Malformed? || s.gc.gcTime - s.store[rk].t > VALIDITY
  {
    if rk !in s.gc.skip && rk in s.store && Expired(v, s.gc.gcTime) {
      assert s.store[rk] == v;
      forall k | k in s.cache ensures Agrees(s.cache[k], s.store - {rk}, k) {
        CachedIsNotDue(s.cache[k], s.store, k, s.gc.gcTime);
        DropAgreesElsewhere(s.cache[k], s.store, k, rk);
      }
    }
  }

  lemma StepKeeps(s: State, e: Event)
    requires Inv(s) && Possible(s, e)
    ensures Inv(Step(s, e))
  {
    match e
    case Add(k, p, now) => AddKeeps(s, k, p, now);
    case Get(k, results, now) => GetKeeps(s, k, results, now);
    case Evict(_) =>
    case GcStart(_, _) =>
    case GcResult(rk, v) => GcResultKeeps(s, rk, v);
    case GcEnd =>
  }

  /** In every run every cached set is what the datastore holds for its key. */
  lemma {:induction false} RunKeeps(states: seq<State>, events: seq<Event>)
    requires IsRun(states, events)
    ensures Inv(states[|events|])
    decreases |events|
  {
    if events != [] {
      var n := |events| - 1;
      RunKeeps(states[..n + 1], events[..n]);
      assert Follows(states[n], events[n], states[n + 1]);
      StepKeeps(states[n], events[n]);
    }
  }

  /**
   The collection never deletes a record that, as it stands, is within the validity period of the collection's start.
   */
  lemma GcSparesFresh(states: seq<State>, events: seq<Event>, rk: RecKey, v: Value)
    requires IsRun(states, events)
    requires var s := states[|events|];
             Possible(s, GcResult(rk, v)) && rk in s.store && s.store[rk].At? && s.gc.gcTime - s.store[rk].t <= VALIDITY
    ensures Step(states[|events|], GcResult(rk, v)) == states[|events|]
  {
    RunKeeps(states, events);
    GcResultKeeps(states[|events|], rk, v);
  }

  /** A get answers with each provider the datastore then holds for the key, once. */
  lemma GetAnswersStore(states: seq<State>, events: seq<Event>, k: Key, results: seq<RecKey>, now: Time)
    requires IsRun(states, events) && Possible(states[|events|], Get(k, results, now))
    ensures var s := states[|events|];
            var answer, store := Answer(s, k, results, now), Step(s, Get(k, results, now)).store;
            && NoDup(answer)
            && forall p :: p in Elems(answer) <==> RecKey(k, Provider(p)) in store
  {
    RunKeeps(states, events);
    var s := states[|events|];
    if k !in s.cache {
      LoadAgrees(s.store, k, results, now);
    }
  }

  /** A get neither loses nor hides a live record: it stays as it is, and a get of its key names its provider. */
  lemma GetSparesFresh(states: seq<State>, events: seq<Event>, k: Key, results: seq<RecKey>, now: Time, rk: RecKey)
    requires IsRun(states, events) && Possible(states[|events|], Get(k, results, now))
    requires var store := states[|events|].store;
             rk in store && store[rk].At? && now - store[rk].t <= VALIDITY && rk.leaf.Provider?
    ensures var s := states[|events|];
            var store := Step(s, Get(k, results, now)).store;
            && rk in store && store[rk] == s.store[rk]
            && (rk.key == k ==> rk.leaf.p in Answer(s, k, results, now))
  {
    RunKeeps(states, events);
    var s := states[|events|];
    if k !in s.cache {
      LoadAgrees(s.store, k, results, now);
      InStepLists(LoadedSet(s.store, results, now));
    } else {
      InStepLists(s.cache[k]);
    }
  }

  lemma InStepLists(ps: ProviderSet)
    requires InStep(ps)
    ensures forall p :: p in ps.times ==> p in ps.providers
  {
    assert forall p :: p in ps.times ==> p in Elems(ps.providers);
  }

  /** The collection is done with a record: it is gone, was added since, or is within the validity period. */
  ghost predicate Settled(s: State, rk: RecKey) {
    && s.gc.Running?
    && (rk in s.store ==> rk in s.gc.skip || (s.store[rk].At? && s.gc.gcTime - s.store[rk].t <= VALIDITY))
  }

  lemma StepKeepsSettled(s: State, e: Event, rk: RecKey)
    requires Inv(s) && Possible(s, e) && !e.GcEnd? && Settled(s, rk)
    ensures Settled(Step(s, e), rk)
  {
    if e.Get? && e.k !in s.cache {
      LoadAgrees(s.store, e.k, e.results, e.now);
    }
  }

  /** Once the query has delivered a record, the record stays settled until the collection ends. */
  lemma {:induction false} DeliveredIsSettled(states: seq<State>, events: seq<Event>, i: nat, rk: RecKey, v: Value)
    requires IsRun(states, events) && i < |events| && events[i] == GcResult(rk, v)
    requires forall j :: i <= j < |events| ==> !events[j].GcEnd?
    ensures Settled(states[|events|], rk)
    decreases |events|
  {
    var n := |events| - 1;
    RunKeeps(states[..n + 1], events[..n]);
    assert Follows(states[n], events[n], states[n + 1]);
    if i == n {
      GcResultKeeps(states[n], rk, v);
    } else {
      DeliveredIsSettled(states[..n + 1], events[..n], i, rk, v);
      StepKeepsSettled(states[n], events[n], rk);
    }
  }
}
