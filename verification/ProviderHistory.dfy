/**
 What the events of a run make of the records: each turn's effect on the datastore and the cache spelled out, how long
 an added record is kept and named, and what a collection does in terms of the tick that started it.
 */
module ProviderHistory {
  import opened Nearest
  import opened Providers
  import opened ProviderLaws

  // ----- one turn -----

  /** An add writes its record and touches no other; only a collection that runs takes notice. */
  lemma AddWrites(s: State, k: Key, p: Peer, now: Time)
    requires Inv(s) && Possible(s, Add(k, p, now))
    ensures var s', rk := Step(s, Add(k, p, now)), RecKey(k, Provider(p));
            && rk in s'.store && s'.store[rk] == At(now)
            && s'.store.Keys == s.store.Keys + {rk}
            && (forall other :: other in s.store && other != rk ==> s'.store[other] == s.store[other])
            && s'.gc.Running? == s.gc.Running?
            && (s.gc.Running? ==> s'.gc.skip == s.gc.skip + {rk} && s'.gc.gcTime == s.gc.gcTime)
            && s'.cache.Keys == s.cache.Keys
            && (forall l :: l in s.cache && l != k ==> s'.cache[l] == s.cache[l])
            && (k in s.cache ==>
                  && s.cache[k].providers <= s'.cache[k].providers
                  && p in s'.cache[k].providers && p in s'.cache[k].times && s'.cache[k].times[p] == now)
  {
    AddKeeps(s, k, p, now);
    if k in s.cache {
      InStepLists(AddStep(s, k, p, now).cache[k]);
    }
  }

  /**
   A get of a cached key changes nothing. Any other keeps exactly the records of the key that are live and all records
   of other keys, each as it was, and caches the key exactly if it has an answer.
   */
  lemma GetKeepsTheLive(s: State, k: Key, results: seq<RecKey>, now: Time)
    requires Inv(s) && Possible(s, Get(k, results, now))
    ensures var s' := Step(s, Get(k, results, now));
            && s'.gc == s.gc
            && (forall rk :: rk in s'.store <==>
                  && rk in s.store
                  && (k in s.cache || rk.key != k
                      || (s.store[rk].At? && now - s.store[rk].t <= VALIDITY && rk.leaf.Provider?)))
            && (forall rk :: rk in s'.store ==> s'.store[rk] == s.store[rk])
            && (forall l :: l in s'.cache <==> l in s.cache || (l == k && Answer(s, k, results, now) != []))
            && (forall l :: l in s.cache ==> s'.cache[l] == s.cache[l])
  {
    if k !in s.cache {
      LoadAgrees(s.store, k, results, now);
    }
  }

  /** What a get answers and caches, in terms of the datastore it leaves. */
  lemma GetMeans(s: State, k: Key, results: seq<RecKey>, now: Time)
    requires Inv(s) && Possible(s, Get(k, results, now))
    ensures var s', answer := Step(s, Get(k, results, now)), Answer(s, k, results, now);
            && NoDup(answer)
            && (forall p :: p in answer <==> RecKey(k, Provider(p)) in s'.store)
            && s'.cache.Keys == s.cache.Keys + (if answer != [] then {k} else {})
            && (forall rk :: rk in s'.store <==>
                  && rk in s.store
                  && (k in s.cache || rk.key != k
                      || (s.store[rk].At? && now - s.store[rk].t <= VALIDITY && rk.leaf.Provider?)))
            && (forall rk :: rk in s'.store ==> s'.store[rk] == s.store[rk])
  {
    GetKeepsTheLive(s, k, results, now);
    if k !in s.cache {
      LoadAgrees(s.store, k, results, now);
      InStepLists(LoadedSet(s.store, results, now));
    } else {
      InStepLists(s.cache[k]);
    }
    assert forall p :: p in Answer(s, k, results, now) <==> p in Elems(Answer(s, k, results, now));
  }

  /** The other turns of the loop: a delivered record goes exactly if it was not added since and is malformed or old. */
  lemma OthersKeepTheStore(s: State, e: Event)
    requires Possible(s, e) && !e.Add? && !e.Get?
    ensures var s' := Step(s, e);
            if e.GcResult? && e.rk !in s.gc.skip && (e.v.Malformed? || s.gc.gcTime - e.v.t > VALIDITY) then
              s'.store == s.store - {e.rk} && s'.cache == s.cache && s'.gc == s.gc
            else
              && s'.store == s.store
              && s'.cache.Keys == (if e.GcStart? then {} else if e.Evict? then s.cache.Keys - {e.k} else s.cache.Keys)
              && (forall l :: l in s'.cache ==> s'.cache[l] == s.cache[l])
              && (e.GcStart? ==> s'.gc.Running? && s'.gc.gcTime == e.gcTime && s'.gc.skip == {})
              && (e.GcEnd? ==> s'.gc.Idle?)
              && (e.GcResult? || e.Evict? ==> s'.gc == s.gc)
  {
  }

  // ----- what a run has written -----

  predicate Adds(e: Event, rk: RecKey) { e.Add? && RecKey(e.k, Provider(e.p)) == rk }

  lemma TurnAt(states: seq<State>, events: seq<Event>, k: nat)
    requires IsRun(states, events) && k < |events|
    ensures Inv(states[k]) && Follows(states[k], events[k], states[k + 1])
  {
    assert IsRun(states[..k + 1], events[..k]);
    RunKeeps(states[..k + 1], events[..k]);
  }

  lemma StoreOnlyByAdds(s: State, e: Event, rk: RecKey)
    requires Inv(s) && Possible(s, e) && rk in Step(s, e).store
    ensures if Adds(e, rk) then Step(s, e).store[rk] == At(e.now)
        else rk in s.store && Step(s, e).store[rk] == s.store[rk]
  {
    match e
    case Add(k, p, now) => AddWrites(s, k, p, now);
    case Get(k, results, now) => GetKeepsTheLive(s, k, results, now);
    case _ => OthersKeepTheStore(s, e);
  }

  /** v is the time of the latest of the first j events that adds rk, or what was there at first if none does. */
  ghost predicate IsLatest(first: Store, events: seq<Event>, j: nat, rk: RecKey, v: Value)
    requires j <= |events|
  {
    || (exists i :: 0 <= i < j && Adds(events[i], rk) && v == At(events[i].now)
          && forall m :: i < m < j ==> !Adds(events[m], rk))
    || (rk in first && v == first[rk] && forall m :: 0 <= m < j ==> !Adds(events[m], rk))
  }

  lemma LatestNow(first: Store, events: seq<Event>, j: nat, rk: RecKey)
    requires j < |events| && Adds(events[j], rk)
    ensures IsLatest(first, events, j + 1, rk, At(events[j].now))
  {
  }

  lemma LatestStill(first: Store, events: seq<Event>, j: nat, rk: RecKey, v: Value)
    requires j < |events| && !Adds(events[j], rk) && IsLatest(first, events, j, rk, v)
    ensures IsLatest(first, events, j + 1, rk, v)
  {
  }

  /** A record holds the time of its latest add, or what the datastore held at first if there was none. */
  lemma {:induction false} RecordIsLatest(states: seq<State>, events: seq<Event>, j: nat, rk: RecKey)
    requires IsRun(states, events) && j <= |events| && rk in states[j].store
    ensures IsLatest(states[0].store, events, j, rk, states[j].store[rk])
    decreases j
  {
    if j > 0 {
      TurnAt(states, events, j - 1);
      StoreOnlyByAdds(states[j - 1], events[j - 1], rk);
      if Adds(events[j - 1], rk) {
        LatestNow(states[0].store, events, j - 1, rk);
      } else {
        RecordIsLatest(states, events, j - 1, rk);
        LatestStill(states[0].store, events, j - 1, rk, states[j].store[rk]);
      }
    }
  }

  // ----- how long an added record is kept -----

  /** Since event i: no get of the key and no collection's tick later than the validity period after t. */
  ghost predicate WithinValidity(events: seq<Event>, i: nat, j: nat, rk: RecKey, t: Time) {
    forall m :: i < m < j && m < |events| ==>
      && !Adds(events[m], rk)
      && (events[m].Get? && events[m].k == rk.key ==> events[m].now - t <= VALIDITY)
      && (events[m].GcStart? ==> events[m].gcTime - t <= VALIDITY)
  }

  /** The record is there as added, and a collection that runs will leave it alone. */
  ghost predicate Safe(s: State, rk: RecKey, t: Time) {
    && rk in s.store && s.store[rk] == At(t)
    && (s.gc.Running? ==> rk in s.gc.skip || s.gc.gcTime - t <= VALIDITY)
  }

  lemma AddIsSafe(s: State, k: Key, p: Peer, t: Time)
    requires Inv(s) && Possible(s, Add(k, p, t))
    ensures Safe(Step(s, Add(k, p, t)), RecKey(k, Provider(p)), t)
  {
    AddWrites(s, k, p, t);
  }

  lemma StepKeepsSafe(s: State, e: Event, rk: RecKey, t: Time)
    requires Inv(s) && Possible(s, e) && Safe(s, rk, t) && rk.leaf.Provider? && !Adds(e, rk)
    requires e.Get? && e.k == rk.key ==> e.now - t <= VALIDITY
    requires e.GcStart? ==> e.gcTime - t <= VALIDITY
    ensures Safe(Step(s, e), rk, t)
  {
    match e
    case Add(k, p, now) => AddWrites(s, k, p, now);
    case Get(k, results, now) => GetKeepsTheLive(s, k, results, now);
    case GcResult(r, v) => GcResultKeeps(s, r, v);
    case _ => OthersKeepTheStore(s, e);
  }

  lemma SafeAfterAdd(states: seq<State>, events: seq<Event>, i: nat, k: Key, p: Peer, t: Time)
    requires IsRun(states, events) && i < |events| && events[i] == Add(k, p, t)
    ensures Safe(states[i + 1], RecKey(k, Provider(p)), t)
  {
    TurnAt(states, events, i);
    AddIsSafe(states[i], k, p, t);
  }

  lemma SafeAfterTurn(states: seq<State>, events: seq<Event>, i: nat, m: nat, rk: RecKey, t: Time)
    requires IsRun(states, events) && i < m < |events| && WithinValidity(events, i, m + 1, rk, t)
    requires rk.leaf.Provider? && Safe(states[m], rk, t)
    ensures Safe(states[m + 1], rk, t)
  {
    TurnAt(states, events, m);
    StepKeepsSafe(states[m], events[m], rk, t);
  }

  /**
   After an add at time t the record is there with that time, whatever events follow, for as long as the gets of its
   key and the ticks of the collections that start are within the validity period of t and nobody adds it again.
   */
  lemma {:induction false} AddedStays(states: seq<State>, events: seq<Event>, i: nat, j: nat, k: Key, p: Peer, t: Time)
    requires IsRun(states, events) && i < j <= |events| && events[i] == Add(k, p, t)
    requires WithinValidity(events, i, j, RecKey(k, Provider(p)), t)
    ensures RecKey(k, Provider(p)) in states[j].store && states[j].store[RecKey(k, Provider(p))] == At(t)
    ensures Safe(states[j], RecKey(k, Provider(p)), t)
    decreases j
  {
    if j == i + 1 {
      SafeAfterAdd(states, events, i, k, p, t);
    } else {
      AddedStays(states, events, i, j - 1, k, p, t);
      SafeAfterTurn(states, events, i, j - 1, RecKey(k, Provider(p)), t);
    }
  }

  /** And a get of its key in that period names the provider. */
  lemma AddedIsNamed(states: seq<State>, events: seq<Event>, i: nat, k: Key, p: Peer, t: Time, results: seq<RecKey>,
        now: Time)
    requires IsRun(states, events) && i < |events| && events[i] == Add(k, p, t)
    requires WithinValidity(events, i, |events|, RecKey(k, Provider(p)), t)
    requires Possible(states[|events|], Get(k, results, now)) && now - t <= VALIDITY
    ensures p in Answer(states[|events|], k, results, now)
  {
    AddedStays(states, events, i, |events|, k, p, t);
    GetSparesFresh(states, events, k, results, now, RecKey(k, Provider(p)));
  }

  // ----- what a collection does -----

  /** Event i started a collection that no event before j has ended. */
  predicate CollectingSince(events: seq<Event>, i: nat, j: nat) {
    && i < j <= |events| && events[i].GcStart?
    && forall m :: i < m < j ==> !events[m].GcEnd?
  }

  ghost predicate AddedBetween(events: seq<Event>, i: nat, j: nat, rk: RecKey) {
    exists m :: i < m < j && m < |events| && Adds(events[m], rk)
  }

  ghost predicate Knows(gc: Gc, events: seq<Event>, i: nat, j: nat)
    requires i < |events| && events[i].GcStart?
  {
    && gc.Running? && gc.gcTime == events[i].gcTime
    && forall rk :: rk in gc.skip <==> AddedBetween(events, i, j, rk)
  }

  /** The collection knows its tick and what was added since. */
  lemma {:induction false} CollectionKnows(states: seq<State>, events: seq<Event>, i: nat, j: nat)
    requires IsRun(states, events) && CollectingSince(events, i, j)
    ensures Knows(states[j].gc, events, i, j)
    decreases j
  {
    TurnAt(states, events, j - 1);
    if j == i + 1 {
      StartKnows(states[i], events, i);
    } else {
      CollectionKnows(states, events, i, j - 1);
      TurnKnows(states[j - 1], events, i, j - 1);
    }
  }

  lemma StartKnows(s: State, events: seq<Event>, i: nat)
    requires i < |events| && events[i].GcStart?
    ensures Knows(Step(s, events[i]).gc, events, i, i + 1)
  {
  }

  lemma TurnKnows(s: State, events: seq<Event>, i: nat, j: nat)
    requires i < j < |events| && events[i].GcStart? && Knows(s.gc, events, i, j)
    requires Inv(s) && Possible(s, events[j]) && !events[j].GcEnd?
    ensures Knows(Step(s, events[j]).gc, events, i, j + 1)
  {
    TurnKeepsCollection(s, events[j]);
    forall rk ensures rk in Step(s, events[j]).gc.skip <==> AddedBetween(events, i, j + 1, rk) {
      AddedOneMore(events, i, j, rk);
    }
  }

  lemma AddedOneMore(events: seq<Event>, i: nat, j: nat, rk: RecKey)
    requires i < j < |events|
    ensures AddedBetween(events, i, j + 1, rk) <==> AddedBetween(events, i, j, rk) || Adds(events[j], rk)
  {
  }

  lemma TurnKeepsCollection(s: State, e: Event)
    requires Inv(s) && Possible(s, e) && s.gc.Running? && !e.GcEnd?
    ensures var gc := Step(s, e).gc;
            && gc.Running? && gc.gcTime == s.gc.gcTime
            && gc.skip == s.gc.skip + if e.Add? then {RecKey(e.k, Provider(e.p))} else {}
  {
  }

  /**
   The collection in terms of its tick: a delivered record stays exactly if it was added since the tick or is, as it
   stands, within the validity period of the tick; and no other record is touched.
   */
  lemma CollectsExactly(states: seq<State>, events: seq<Event>, i: nat, j: nat, rk: RecKey)
    requires IsRun(states, events) && j < |events| && CollectingSince(events, i, j)
    requires events[j].GcResult? && events[j].rk == rk
    ensures var before, after, tick := states[j].store, states[j + 1].store, events[i].gcTime;
            && (rk in after <==>
                  && rk in before
                  && (AddedBetween(events, i, j, rk) || (before[rk].At? && tick - before[rk].t <= VALIDITY)))
            && (forall r :: r != rk ==> (r in after <==> r in before))
            && (forall r :: r in after ==> after[r] == before[r])
  {
    TurnAt(states, events, j);
    CollectionKnows(states, events, i, j);
    var s := states[j];
    OthersKeepTheStore(s, events[j]);
    GcResultKeeps(s, rk, events[j].v);
    if rk in s.store && rk !in s.gc.skip {
      assert s.store[rk] == events[j].v;
    }
  }

  ghost predicate Deliverable(s: State, rk: RecKey) { rk in s.store ==> Possible(s, GcResult(rk, s.store[rk])) }

  lemma TurnKeepsDeliverable(s: State, e: Event, rk: RecKey)
    requires Inv(s) && Possible(s, e) && s.gc.Running? && !e.GcEnd? && Deliverable(s, rk)
    ensures Deliverable(Step(s, e), rk)
  {
    if rk in Step(s, e).store {
      StoreOnlyByAdds(s, e, rk);
    }
  }

  /** Whatever the datastore holds while a collection runs can be delivered to it. */
  lemma {:induction false} CollectionSees(states: seq<State>, events: seq<Event>, i: nat, j: nat, rk: RecKey)
    requires IsRun(states, events) && CollectingSince(events, i, j)
    ensures Deliverable(states[j], rk)
    decreases j
  {
    if j == i + 1 {
      DeliverableAtStart(states, events, i, rk);
    } else {
      CollectionSees(states, events, i, j - 1, rk);
      DeliverableAfterTurn(states, events, i, j - 1, rk);
    }
  }

  lemma DeliverableAfterTurn(states: seq<State>, events: seq<Event>, i: nat, m: nat, rk: RecKey)
    requires IsRun(states, events) && i < m && CollectingSince(events, i, m + 1) && Deliverable(states[m], rk)
    ensures Deliverable(states[m + 1], rk)
  {
    TurnAt(states, events, m);
    StillCollecting(states, events, i, m);
    TurnKeepsDeliverable(states[m], events[m], rk);
  }

  lemma DeliverableAtStart(states: seq<State>, events: seq<Event>, i: nat, rk: RecKey)
    requires IsRun(states, events) && i < |events| && events[i].GcStart?
    ensures Deliverable(states[i + 1], rk)
  {
    TurnAt(states, events, i);
    StartDelivers(states[i], events[i], rk);
  }

  lemma StillCollecting(states: seq<State>, events: seq<Event>, i: nat, j: nat)
    requires IsRun(states, events) && CollectingSince(events, i, j)
    ensures states[j].gc.Running?
  {
    CollectionKnows(states, events, i, j);
  }

  lemma StartDelivers(s: State, e: Event, rk: RecKey)
    requires e.GcStart?
    ensures Deliverable(Step(s, e), rk)
  {
  }
}
