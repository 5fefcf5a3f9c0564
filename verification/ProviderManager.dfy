/**
 The provider manager's event loop and its cached sets as objects that change in place. Each method is one turn
 of the loop and is proved to be a step of the machine in `Providers`.
 */
module ProviderManagers {
  import opened Nearest
  import opened Providers
  import opened ProviderHistory
  import opened ProviderLaws

  /** providers/provider_set.go: the list handed to callers and the times behind it. */
  class CachedSet {
    var providers: seq<Peer>
    var times: map<Peer, Time>

    ghost function View(): ProviderSet
      reads this
    {
      ProviderSet(providers, times)
    }

    constructor ()
      ensures View() == NO_PROVIDERS
    {
      providers, times := [], map[];
    }

    method SetVal(p: Peer, t: Time)
      modifies this
      ensures View() == Providers.SetVal(old(View()), p, t)
    {
      if p !in times {
        providers := providers + [p];
      }
      times := times[p := t];
    }
  }

  function Views(cache: map<Key, CachedSet>): (r: map<Key, ProviderSet>)
    reads cache.Values
  {
    map k | k in cache :: ProviderSet(cache[k].providers, cache[k].times)
  }

  class ProviderManager {
    var cache: map<Key, CachedSet>
    var dstore: Store
    var gcRunning: bool
    var gcTime: Time
    var gcSkip: set<RecKey>
    ghost var s: State

    /** No two keys share a set. */
    ghost predicate Separate()
      reads this
    {
      forall k, l :: k in cache && l in cache && k != l ==> cache[k] != cache[l]
    }

    /** The object is the machine's state s. */
    ghost predicate Shows()
      reads this, cache.Values
    {
      && Separate()
      && Views(cache) == s.cache
      && dstore == s.store
      && gcRunning == s.gc.Running?
      && (gcRunning ==> gcTime == s.gc.gcTime && gcSkip == s.gc.skip)
    }

    /** And s keeps the invariant of every run. */
    ghost predicate Valid()
      reads this, cache.Values
    {
      Shows() && Inv(s)
    }

    constructor (dstore: Store)
      ensures Valid() && IsInit(s) && s.store == dstore && fresh(cache.Values)
    {
      cache, this.dstore := map[], dstore;
      gcRunning, gcTime, gcSkip := false, 0, {};
      s := State(map[], dstore, Idle, 0);
    }

    method UpdateCached(k: Key, p: Peer, now: Time)
      requires Separate()
      modifies cache.Values
      ensures Views(cache) == Updated(old(Views(cache)), k, p, now)
    {
      if k in cache {
        cache[k].SetVal(p, now);
        assert forall l :: l in cache && l != k ==> cache[l] != cache[k];
      }
    }

    /** A new provider: into the cached set if the key is cached, and into the datastore. */
    method AddProvider(k: Key, p: Peer, now: Time)
      requires Valid() && now >= s.clock
      modifies this`dstore, this`gcSkip, this`s, cache.Values
      ensures Valid()
      ensures s == AddStep(old(s), k, p, now)
      ensures dstore == old(dstore)[RecKey(k, Provider(p)) := At(now)]
      ensures gcRunning ==> gcSkip == old(gcSkip) + {RecKey(k, Provider(p))}
      ensures k in cache ==> p in cache[k].times && cache[k].times[p] == now && p in cache[k].providers
    {
      AddKeeps(s, k, p, now);
      AddWrites(s, k, p, now);
      Record(k, p, now);
    }

    method Record(k: Key, p: Peer, now: Time)
      requires Shows()
      modifies this`dstore, this`gcSkip, this`s, cache.Values
      ensures Shows() && s == AddStep(old(s), k, p, now)
    {
      UpdateCached(k, p, now);
      var rk := RecKey(k, Provider(p));
      dstore := dstore[rk := At(now)];
      if gcRunning {
        gcSkip := gcSkip + {rk};
      }
      s := AddStep(s, k, p, now);
    }

    /** Read a key from the datastore, deleting what is expired or cannot be decoded. */
    method LoadProviderSet(results: seq<RecKey>, now: Time) returns (out: CachedSet)
      requires NoDup(results)
      modifies this`dstore
      ensures fresh(out)
      ensures dstore == LoadedStore(old(dstore), results, now)
      ensures out.View() == LoadedSet(old(dstore), results, now)
      ensures forall rk :: rk in dstore <==>
        && rk in old(dstore)
        && (rk !in results || (old(dstore)[rk].At? && now - old(dstore)[rk].t <= VALIDITY && rk.leaf.Provider?))
    {
      out := new CachedSet();
      for i := 0 to |results|
        invariant fresh(out)
        invariant dstore == LoadedStore(old(dstore), results[..i], now)
        invariant out.View() == LoadedSet(old(dstore), results[..i], now)
      {
        assert results[..i + 1][..i] == results[..i];
        var rk := results[i];
        LoadedStoreIs(old(dstore), results[..i], now);
        assert rk !in Elems(results[..i]);
        if rk in dstore {
          var v := dstore[rk];
          if v.Malformed? || now - v.t > VALIDITY {
            dstore := dstore - {rk};
          } else if rk.leaf.Undecodable? {
            dstore := dstore - {rk};
          } else {
            out.SetVal(rk.leaf.p, v.t);
          }
        }
      }
      assert results[..|results|] == results;
      LoadedStoreIs(old(dstore), results, now);
      assert forall rk :: rk in results <==> rk in Elems(results);
    }

    /**
     The providers of a key, from the cache or else from the datastore; what was read is cached unless it is empty.
     */
    method GetProvidersForKey(k: Key, results: seq<RecKey>, now: Time) returns (provs: seq<Peer>)
      requires Valid() && now >= s.clock && (k !in cache ==> Lists(results, dstore, k))
      modifies this`cache, this`dstore, this`s
      ensures Valid()
      ensures s == GetStep(old(s), k, results, now)
      ensures provs == Answer(old(s), k, results, now)
      ensures forall l :: l in cache ==> cache[l] in old(cache.Values) || fresh(cache[l])
      ensures forall rk :: rk in dstore <==>
        && rk in old(dstore)
        && (k in old(cache) || rk.key != k
            || (old(dstore)[rk].At? && now - old(dstore)[rk].t <= VALIDITY && rk.leaf.Provider?))
      ensures forall rk :: rk in dstore ==> dstore[rk] == old(dstore)[rk]
      ensures NoDup(provs) && forall q :: q in provs <==> RecKey(k, Provider(q)) in dstore
      ensures cache.Keys == old(cache).Keys + if provs != [] then {k} else {}
    {
      GetKeeps(s, k, results, now);
      GetMeans(s, k, results, now);
      assert Views(cache).Keys == cache.Keys;
      provs := Fetch(k, results, now);
      assert Views(cache).Keys == cache.Keys;
    }

    method Fetch(k: Key, results: seq<RecKey>, now: Time) returns (provs: seq<Peer>)
      requires Shows() && (k !in cache ==> NoDup(results))
      modifies this`cache, this`dstore, this`s
      ensures Shows() && s == GetStep(old(s), k, results, now)
      ensures provs == Answer(old(s), k, results, now)
      ensures forall l :: l in cache ==> cache[l] in old(cache.Values) || fresh(cache[l])
    {
      if k in cache {
        provs := cache[k].providers;
        s := GetStep(s, k, results, now);
      } else {
        provs := FetchUncached(k, results, now);
      }
    }

    method FetchUncached(k: Key, results: seq<RecKey>, now: Time) returns (provs: seq<Peer>)
      requires Shows() && k !in cache && NoDup(results)
      modifies this`cache, this`dstore, this`s
      ensures Shows() && s == GetStep(old(s), k, results, now)
      ensures provs == Answer(old(s), k, results, now)
      ensures forall l :: l in cache ==> cache[l] in old(cache.Values) || fresh(cache[l])
    {
      var pset := LoadProviderSet(results, now);
      provs := pset.providers;
      if |provs| > 0 {
        CacheFresh(k, pset);
      }
      s := GetStep(s, k, results, now);
    }

    method CacheFresh(k: Key, pset: CachedSet)
      requires Separate() && k !in cache && pset !in cache.Values
      modifies this`cache
      ensures Separate() && cache == old(cache)[k := pset]
      ensures Views(cache) == old(Views(cache))[k := pset.View()]
    {
      cache := cache[k := pset];
    }

    /** The cache drops a key on its own. */
    method EvictKey(k: Key)
      requires Valid()
      modifies this`cache, this`s
      ensures Valid() && cache == old(cache) - {k}
      ensures s == Step(old(s), Evict(k))
    {
      cache := cache - {k};
      s := s.(cache := s.cache - {k});
    }

    /** The collection timer fires. */
    method StartGc(tick: Time, now: Time)
      requires Valid() && !gcRunning && tick <= now && now >= s.clock
      modifies this
      ensures Valid() && cache == map[]
      ensures s == GcStartStep(old(s), tick, now)
      ensures gcRunning && gcTime == tick && gcSkip == {} && dstore == old(dstore)
    {
      cache := map[];
      gcRunning, gcTime, gcSkip := true, tick, {};
      s := GcStartStep(s, tick, now);
    }

    /** The collection's query delivers a record. */
    method CollectRecord(rk: RecKey, v: Value)
      requires Valid() && Possible(s, GcResult(rk, v))
      modifies this`dstore, this`s
      ensures Valid()
      ensures s == GcResultStep(old(s), rk, v)
      ensures dstore == if rk in gcSkip || (v.At? && gcTime - v.t <= VALIDITY) then old(dstore) else old(dstore) - {rk}
    {
      GcResultKeeps(s, rk, v);
      s := GcResultStep(s, rk, v);
      if rk in gcSkip {
        return;
      }
      if v.Malformed? || gcTime - v.t > VALIDITY {
        dstore := dstore - {rk};
      }
    }

    /** The collection's query is exhausted. */
    method EndGc()
      requires Valid() && gcRunning
      modifies this
      ensures Valid() && cache == old(cache)
      ensures s == Step(old(s), GcEnd)
      ensures !gcRunning && dstore == old(dstore)
    {
      gcRunning, gcSkip := false, {};
      s := s.(gc := Idle);
    }
  }
}
