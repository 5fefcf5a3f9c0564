/**
 The measurement windows and the weight of the network size estimator (netsize/netsize.go). A measurement holds the
 integer distance, which the code then divides by the size of the key space, and the exponent of the weight, a power
 of two; clock readings are parameters and do not decrease.
 */
module NetSize {
  import opened KeySpace
  import opened Nearest
  import opened Table
  import opened TableLaws
  import opened RoutingTables

  const MAX_MEASUREMENTS: nat := 150
  /** Two hours, in nanoseconds. */
  const MAX_AGE: int := 2 * 3600 * 1_000_000_000

  const INVALID_ESTIMATE: int := -1

  datatype Measurement = Measurement(distance: nat, weightExponent: int, timestamp: int)

  type Window = seq<Measurement>

  ghost predicate Sorted(w: Window) {
    forall i, j :: 0 <= i < j < |w| ==> w[i].timestamp <= w[j].timestamp
  }

  /** The longest suffix that is young enough, of a sorted history. */
  function Young(w: Window, now: int): (r: Window)
    ensures |r| <= |w|
  {
    if w == [] || w[0].timestamp > now - MAX_AGE then w else Young(w[1..], now)
  }

  function Newest(w: Window): Window {
    if |w| > MAX_MEASUREMENTS then w[|w| - MAX_MEASUREMENTS..] else w
  }

  /** The last n measurements. */
  function Tail(h: Window, n: nat): Window
    requires n <= |h|
  {
    h[|h| - n..]
  }

  /** In a sorted history the young measurements are a suffix. */
  lemma {:induction false} YoungIs(w: Window, now: int)
    requires Sorted(w)
    ensures Young(w, now) == Tail(w, |Young(w, now)|)
    ensures forall i :: 0 <= i < |w| ==> (w[i].timestamp > now - MAX_AGE <==> i >= |w| - |Young(w, now)|)
  {
    if w != [] && w[0].timestamp <= now - MAX_AGE {
      var t := w[1..];
      YoungIs(t, now);
      forall i | 0 <= i < |w| ensures w[i].timestamp > now - MAX_AGE <==> i >= |w| - |Young(w, now)| {
        if i > 0 { assert w[i] == t[i - 1]; }
      }
    }
  }

  /** Windows keep a suffix whose length is the count of young measurements, or the maximum. */
  function Kept(h: Window, now: int): nat { Min(|Young(h, now)|, MAX_MEASUREMENTS) }

  lemma {:induction false} YoungOfTail(h: Window, n: nat, now: int)
    requires Sorted(h) && n <= |h|
    ensures Young(Tail(h, n), now) == Tail(h, Min(n, |Young(h, now)|))
    decreases n
  {
    YoungIs(h, now);
    if n > |Young(h, now)| {
      assert h[|h| - n].timestamp <= now - MAX_AGE;
      assert Tail(h, n)[1..] == Tail(h, n - 1);
      YoungOfTail(h, n - 1, now);
    }
  }

  /** Time passing and one more measurement add at most one young measurement. */
  lemma YoungGrows(h: Window, m: Measurement, last: int, now: int)
    requires Sorted(h + [m]) && last <= now && m.timestamp == now
    ensures 0 < |Young(h + [m], now)| <= |Young(h, last)| + 1
  {
    var h' := h + [m];
    assert forall i, j :: 0 <= i < j < |h| ==> h'[i] == h[i] && h'[j] == h[j];
    YoungIs(h', now);
    YoungIs(h, last);
    var n := |Young(h', now)|;
    assert h'[|h|] == m;
    if n >= 2 {
      assert h'[|h'| - n] == h[|h| + 1 - n];
    }
  }

  /**
   Appending, dropping what is too old and cutting to the maximum keeps exactly the newest young measurements of all.
   */
  lemma TrackKeepsNewest(h: Window, m: Measurement, last: int, now: int)
    requires Sorted(h + [m]) && last <= now && m.timestamp == now
    requires Sorted(h)
    ensures Newest(Young(Tail(h, Kept(h, last)) + [m], now)) == Tail(h + [m], Kept(h + [m], now))
  {
    var h', k := h + [m], Kept(h, last);
    YoungIs(h, last);
    YoungIs(h', now);
    YoungGrows(h, m, last, now);
    TailSnoc(h, k, m);
    YoungOfTail(h', k + 1, now);
    NewestOfTail(h', Min(k + 1, |Young(h', now)|));
  }

  lemma TailSnoc(h: Window, k: nat, m: Measurement)
    requires k <= |h|
    ensures Tail(h, k) + [m] == Tail(h + [m], k + 1)
  {
  }

  lemma NewestOfTail(h: Window, n: nat)
    requires n <= |h|
    ensures Newest(Tail(h, n)) == Tail(h, Min(n, MAX_MEASUREMENTS))
  {
  }

  /** Dropping what is too old keeps exactly the newest young measurements of all. */
  lemma CollectKeepsNewest(h: Window, last: int, now: int)
    requires Sorted(h) && last <= now
    ensures Young(Tail(h, Kept(h, last)), now) == Tail(h, Kept(h, now))
  {
    YoungIs(h, last);
    YoungIs(h, now);
    YoungOfTail(h, Kept(h, last), now);
    YoungShrinks(h, last, now);
  }

  lemma YoungShrinks(h: Window, last: int, now: int)
    requires Sorted(h) && last <= now
    ensures |Young(h, now)| <= |Young(h, last)|
  {
  }

  ghost predicate SameTimes(a: Window, b: Window) {
    |a| == |b| && forall i :: 0 <= i < |a| ==> a[i].timestamp == b[i].timestamp
  }

  lemma {:induction false} SameTimesSameYoung(a: Window, b: Window, now: int)
    requires SameTimes(a, b)
    ensures |Young(a, now)| == |Young(b, now)|
    decreases |a|
  {
    if a != [] {
      SameTimesSameYoung(a[1..], b[1..], now);
    }
  }

  /** sort.Search: the first measurement that is young enough, by bisection. */
  method FirstYoung(w: Window, now: int) returns (idx: nat)
    requires Sorted(w)
    ensures idx == |w| - |Young(w, now)|
  {
    YoungIs(w, now);
    var lo, hi := 0, |w|;
    while lo < hi
      invariant 0 <= lo <= hi <= |w|
      invariant lo <= |w| - |Young(w, now)| <= hi
    {
      var mid := (lo + hi) / 2;
      if w[mid].timestamp > now - MAX_AGE {
        hi := mid;
      } else {
        lo := mid + 1;
      }
    }
    idx := lo;
  }

  /** How many of the peers share exactly cpl bits with the local key. */
  function PeersAt(peers: seq<PeerId>, localID: Id, cpl: nat): (n: nat)
    ensures n <= |peers|
  {
    if peers == [] then 0
    else
      var p := peers[|peers| - 1];
      PeersAt(peers[..|peers| - 1], localID, cpl) + if CommonPrefixLen(p.kad, localID) == cpl then 1 else 0
  }

  /** Where in the answer the peers of that depth stand. */
  function AtDepthIn(peers: seq<PeerId>, localID: Id, cpl: nat): set<nat> {
    set i: nat | i < |peers| && CommonPrefixLen(peers[i].kad, localID) == cpl
  }

  lemma {:induction false} PeersAtCounts(peers: seq<PeerId>, localID: Id, cpl: nat)
    ensures PeersAt(peers, localID, cpl) == |AtDepthIn(peers, localID, cpl)|
    decreases |peers|
  {
    if peers != [] {
      var n := |peers| - 1;
      PeersAtCounts(peers[..n], localID, cpl);
      var before := AtDepthIn(peers[..n], localID, cpl);
      assert AtDepthIn(peers, localID, cpl) ==
        before + if CommonPrefixLen(peers[n].kad, localID) == cpl then {n} else {};
    } else {
      assert AtDepthIn(peers, localID, cpl) == {};
    }
  }

  /**
   The exponent in terms of two counts: of the table's peers and of the answer's peers at the key's depth. The larger
   counts, unless the table alone fills a bucket.
   */
  lemma ExponentMeans(key: Id, peers: seq<PeerId>, localID: Id, infos: set<PeerInfo>, tableID: Id, bucketSize: nat)
    ensures var depth := CommonPrefixLen(key, localID);
            var inTable := |(set x | x in infos && CommonPrefixLen(tableID, x.dhtId) == depth)|;
            var inAnswer := |(set i: nat | i < |peers| && CommonPrefixLen(peers[i].kad, localID) == depth)|;
            ExponentFor(key, peers, localID, infos, tableID, bucketSize) ==
              if inTable < bucketSize && inAnswer > inTable then inAnswer - bucketSize else inTable - bucketSize
  {
    var depth := CommonPrefixLen(key, localID);
    PeersAtCounts(peers, localID, depth);
    assert AtDepth(infos, depth, tableID) == (set x | x in infos && CommonPrefixLen(tableID, x.dhtId) == depth);
    assert AtDepthIn(peers, localID, depth) ==
      (set i: nat | i < |peers| && CommonPrefixLen(peers[i].kad, localID) == depth);
  }

  function Max(a: int, b: int): int { if a < b then b else a }

  /** `level` peers of that depth in the table, `peerLevel` in the answer. */
  function WeightExponent(level: nat, peerLevel: nat, bucketSize: nat): int {
    (if level < bucketSize then Max(level, peerLevel) else level) - bucketSize
  }

  /** The exponent of a lookup's weight, for the key that was looked up and the peers that were found. */
  ghost function ExponentFor(key: Id, peers: seq<PeerId>, localID: Id, infos: set<PeerInfo>, tableID: Id,
        bucketSize: nat): int
  {
    var cpl := CommonPrefixLen(key, localID);
    WeightExponent(|AtDepth(infos, cpl, tableID)|, PeersAt(peers, localID, cpl), bucketSize)
  }

  /** calcWeight, but for the power of two. */
  method CalcWeightExponent(key: Id, peers: seq<PeerId>, localID: Id, rt: RoutingTable, bucketSize: nat)
    returns (e: int)
    requires rt.Valid()
    ensures e == ExponentFor(key, peers, localID, Infos(Lists(rt.buckets)), rt.local, bucketSize)
    ensures rt.bucketSize == bucketSize && |peers| <= bucketSize ==> e <= 0
    ensures var depth := CommonPrefixLen(key, localID);
            var inTable := |(set x | x in Infos(Lists(rt.buckets)) && CommonPrefixLen(rt.local, x.dhtId) == depth)|;
            var inAnswer := |(set i: nat | i < |peers| && CommonPrefixLen(peers[i].kad, localID) == depth)|;
            e == if inTable < bucketSize && inAnswer > inTable then inAnswer - bucketSize else inTable - bucketSize
  {
    ExponentMeans(key, peers, localID, Infos(Lists(rt.buckets)), rt.local, bucketSize);
    e := LevelExponent(key, peers, localID, rt, bucketSize);
  }

  method LevelExponent(key: Id, peers: seq<PeerId>, localID: Id, rt: RoutingTable, bucketSize: nat) returns (e: int)
    requires rt.Valid()
    ensures e == ExponentFor(key, peers, localID, Infos(Lists(rt.buckets)), rt.local, bucketSize)
    ensures rt.bucketSize == bucketSize && |peers| <= bucketSize ==> e <= 0
  {
    var cpl := CommonPrefixLen(key, localID);
    var bucketLevel := rt.NPeersForCpl(cpl);
    if bucketLevel < bucketSize {
      var peerLevel := 0;
      for i := 0 to |peers|
        invariant peerLevel == PeersAt(peers[..i], localID, cpl)
      {
        assert peers[..i + 1][..i] == peers[..i];
        if cpl == CommonPrefixLen(peers[i].kad, localID) {
          peerLevel := peerLevel + 1;
        }
      }
      assert peers[..|peers|] == peers;
      if peerLevel > bucketLevel {
        return peerLevel - bucketSize;
      }
    }
    return bucketLevel - bucketSize;
  }

  /** One rank of Track: append, drop what is too old, cut to the maximum. */
  method TrackOne(window: Window, m: Measurement, now: int, ghost h: Window, ghost last: int) returns (w: Window)
    requires Sorted(h) && UpTo(h, last) && last <= now == m.timestamp && window == Tail(h, Kept(h, last))
    ensures w == Tail(h + [m], Kept(h + [m], now))
  {
    SortedSnoc(h, m, last);
    TrackKeepsNewest(h, m, last, now);
    TailSnocSorted(h, Kept(h, last), m);
    w := window + [m];
    var idx := FirstYoung(w, now);
    YoungIs(w, now);
    if idx != 0 {
      w := w[idx..];
    }
    if |w| > MAX_MEASUREMENTS {
      w := w[|w| - MAX_MEASUREMENTS..];
    }
  }

  /** One rank of garbageCollect. */
  method CollectOne(window: Window, now: int, ghost h: Window, ghost last: int) returns (w: Window)
    requires Sorted(h) && last <= now && window == Tail(h, Kept(h, last))
    ensures w == Tail(h, Kept(h, now))
  {
    CollectKeepsNewest(h, last, now);
    TailSorted(h, Kept(h, last));
    w := window;
    var idx := FirstYoung(w, now);
    YoungIs(w, now);
    if idx == |w| {
      w := [];
    } else if idx != 0 {
      w := w[idx..];
    }
  }

  /** Every rank's window is the newest young part of its history. */
  ghost predicate Windows(ws: seq<Window>, hs: seq<Window>, t: int) {
    |ws| == |hs| && forall i :: 0 <= i < |ws| ==> ws[i] == Tail(hs[i], Kept(hs[i], t))
  }

  ghost predicate Histories(hs: seq<Window>, t: int) {
    && (forall i :: 0 <= i < |hs| ==> Sorted(hs[i]) && UpTo(hs[i], t))
    && (forall i :: 0 <= i < |hs| ==> SameTimes(hs[0], hs[i]))
  }

  /** Every rank's history with one more measurement, all of one time. */
  function Recorded(hs: seq<Window>, ms: seq<Measurement>): (r: seq<Window>)
    requires |hs| == |ms|
    ensures |r| == |hs|
  {
    seq(|hs|, i requires 0 <= i < |hs| => hs[i] + [ms[i]])
  }

  lemma RecordedHistories(hs: seq<Window>, ms: seq<Measurement>, last: int, now: int)
    requires Histories(hs, last) && |hs| == |ms| && last <= now && forall i :: 0 <= i < |ms| ==> ms[i].timestamp == now
    ensures Histories(Recorded(hs, ms), now)
  {
  }

  lemma LaterHistories(hs: seq<Window>, last: int, now: int)
    requires Histories(hs, last) && last <= now
    ensures Histories(hs, now)
  {
  }

  function NoWindows(n: nat): (r: seq<Window>)
    ensures |r| == n && forall i :: 0 <= i < n ==> r[i] == []
  {
    if n == 0 then [] else NoWindows(n - 1) + [[]]
  }

  lemma NoHistories(n: nat, t: int)
    ensures Windows(NoWindows(n), NoWindows(n), t) && Histories(NoWindows(n), t)
  {
  }

  class Estimator {
    const localID: Id
    const bucketSize: nat
    var measurements: seq<Window>
    var netSizeCache: int
    ghost var history: seq<Window>
    ghost var last: int

    ghost predicate Valid()
      reads this
    {
      |history| == bucketSize && Windows(measurements, history, last) && Histories(history, last)
    }

    constructor (localID: Id, bucketSize: nat)
      ensures Valid() && this.localID == localID && this.bucketSize == bucketSize
      ensures history == NoWindows(bucketSize) && netSizeCache == INVALID_ESTIMATE
    {
      netSizeCache := INVALID_ESTIMATE;
      this.localID, this.bucketSize := localID, bucketSize;
      measurements, history, last := NoWindows(bucketSize), NoWindows(bucketSize), 0;
      NoHistories(bucketSize, 0);
    }

    /** All ranks keep windows of one length. */
    lemma WindowsHaveOneLength(i: nat)
      requires Valid() && i < bucketSize
      ensures |measurements[i]| == |measurements[0]| <= MAX_MEASUREMENTS
    {
      SameTimesSameYoung(history[0], history[i], last);
    }

    /**
     A rank's window: the newest of its measurements, all of them young and at most 150; and an older one that is young
     is missing only if there are 150.
     */
    lemma WindowHolds(i: nat)
      requires Valid() && i < bucketSize
      ensures var w, h := measurements[i], history[i];
              && |w| <= 150 && |w| <= |h| && w == h[|h| - |w|..]
              && (forall j :: 0 <= j < |w| ==> w[j].timestamp > last - 2 * 3600 * 1_000_000_000)
              && (|w| < 150 ==>
                    forall j :: 0 <= j < |h| - |w| ==> h[j].timestamp <= last - 2 * 3600 * 1_000_000_000)
    {
      YoungIs(history[i], last);
    }

    /** Record one measurement per rank, and keep of each rank's history exactly the newest young part. */
    method Track(key: Id, peers: seq<PeerId>, rt: RoutingTable, now: int) returns (ok: bool)
      requires Valid() && now >= last && rt.Valid()
      modifies this
      ensures Valid()
      ensures ok <==> |peers| == bucketSize
      ensures !ok ==> measurements == old(measurements) && history == old(history)
      ensures !ok ==> netSizeCache == old(netSizeCache) && last == old(last)
      ensures ok ==> last == now && netSizeCache == INVALID_ESTIMATE
      ensures ok ==>
        var e := ExponentFor(key, peers, localID, old(Infos(Lists(rt.buckets))), rt.local, bucketSize);
        forall i :: 0 <= i < bucketSize ==>
          history[i] == old(history)[i] + [Measurement(Value(Xor(key, peers[i].kad)), e, now)]
    {
      if |peers| != bucketSize {
        return false;
      }
      ghost var bs := Lists(rt.buckets);
      netSizeCache := INVALID_ESTIMATE;
      assert Lists(rt.buckets) == bs;
      Measure(key, peers, rt, now);
      return true;
    }

    /** The weight, and then the measurements. */
    method Measure(key: Id, peers: seq<PeerId>, rt: RoutingTable, now: int)
      requires Valid() && now >= last && rt.Valid() && |peers| == bucketSize
      modifies this`measurements, this`history, this`last
      ensures Valid() && last == now
      ensures var e := ExponentFor(key, peers, localID, old(Infos(Lists(rt.buckets))), rt.local, bucketSize);
              forall i :: 0 <= i < bucketSize ==>
                history[i] == old(history)[i] + [Measurement(Value(Xor(key, peers[i].kad)), e, now)]
    {
      var exponent := CalcWeightExponent(key, peers, localID, rt, bucketSize);
      Record(key, peers, exponent, now);
    }

    method Record(key: Id, peers: seq<PeerId>, exponent: int, now: int)
      requires Valid() && now >= last && |peers| == bucketSize
      modifies this`measurements, this`history, this`last
      ensures Valid()
      ensures last == now && history == Recorded(old(history), Taken(key, peers, exponent, now))
      ensures forall i :: 0 <= i < bucketSize ==>
        history[i] == old(history)[i] + [Measurement(Value(Xor(key, peers[i].kad)), exponent, now)]
    {
      ghost var hs, t, ms := history, last, Taken(key, peers, exponent, now);
      RecordedHistories(hs, ms, t, now);
      var ws := ExtendAll(measurements, key, peers, exponent, now, hs, t);
      measurements, history, last := ws, Recorded(hs, ms), now;
      TakenIs(hs, key, peers, exponent, now);
    }

    method GarbageCollect(now: int)
      requires Valid() && now >= last
      modifies this
      ensures Valid() && history == old(history) && last == now && netSizeCache == old(netSizeCache)
    {
      ghost var hs, t := history, last;
      LaterHistories(hs, t, now);
      var ws := CollectAll(measurements, now, hs, t);
      measurements, history, last := ws, hs, now;
    }
  }

  /** The ranks one after the other. */
  method ExtendAll(before: seq<Window>, key: Id, peers: seq<PeerId>, exponent: int, now: int,
        ghost hs: seq<Window>, ghost t: int)
    returns (ws: seq<Window>)
    requires |before| == |peers| == |hs| && t <= now && Windows(before, hs, t) && Histories(hs, t)
    ensures Windows(ws, Recorded(hs, Taken(key, peers, exponent, now)), now)
  {
    ws := [];
    ghost var r := Recorded(hs, Taken(key, peers, exponent, now));
    for i := 0 to |peers|
      invariant Windows(ws, r[..i], now)
    {
      var m := Measurement(Dist(key, peers[i].kad), exponent, now);
      var w := TrackOne(before[i], m, now, hs[i], t);
      ws := ws + [w];
    }
    assert r[..|r|] == r;
  }

  method CollectAll(before: seq<Window>, now: int, ghost hs: seq<Window>, ghost t: int) returns (ws: seq<Window>)
    requires |before| == |hs| && t <= now && Windows(before, hs, t) && Histories(hs, t)
    ensures Windows(ws, hs, now)
  {
    ws := [];
    for i := 0 to |before|
      invariant Windows(ws, hs[..i], now)
    {
      var w := CollectOne(before[i], now, hs[i], t);
      ws := ws + [w];
    }
    assert hs[..|hs|] == hs;
  }

  /** One measurement for each peer, in order: how far it is from the key. */
  function Taken(key: Id, peers: seq<PeerId>, exponent: int, now: int): (r: seq<Measurement>)
    ensures |r| == |peers|
  {
    seq(|peers|, i requires 0 <= i < |peers| => Measurement(Dist(key, peers[i].kad), exponent, now))
  }

  lemma TakenIs(hs: seq<Window>, key: Id, peers: seq<PeerId>, exponent: int, now: int)
    requires |hs| == |peers|
    ensures var r := Recorded(hs, Taken(key, peers, exponent, now));
            forall i :: 0 <= i < |peers| ==> r[i] == hs[i] + [Measurement(Value(Xor(key, peers[i].kad)), exponent, now)]
  {
  }

  ghost predicate UpTo(w: Window, t: int) {
    forall i :: 0 <= i < |w| ==> w[i].timestamp <= t
  }

  lemma SortedSnoc(h: Window, m: Measurement, last: int)
    requires Sorted(h) && UpTo(h, last) && last <= m.timestamp
    ensures Sorted(h + [m]) && UpTo(h + [m], m.timestamp)
  {
  }

  lemma TailSorted(h: Window, n: nat)
    requires Sorted(h) && n <= |h|
    ensures Sorted(Tail(h, n))
  {
  }

  lemma TailSnocSorted(h: Window, n: nat, m: Measurement)
    requires Sorted(h + [m]) && n <= |h|
    ensures Sorted(Tail(h, n) + [m])
  {
    TailSorted(h + [m], n + 1);
    assert Tail(h + [m], n + 1) == Tail(h, n) + [m];
  }
}
