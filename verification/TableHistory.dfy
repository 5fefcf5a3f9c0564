/**
 What the table's entries record and which of them stay: field by field for one operation, and over whole runs, where
 each entry is what its own peer's history since it joined makes of it.
 */
module TableHistory {
  import opened KeySpace
  import opened Nearest
  import opened Table
  import opened TableLaws

  // ----- a newcomer -----

  lemma OneEntryEach(bs: Buckets, k: nat, local: Id, x: PeerInfo, y: PeerInfo)
    requires Shape(bs, k, local) && x in Infos(bs) && y in Infos(bs) && x.id == y.id
    ensures x == y
  {
    var i: nat :| i < |bs| && x in Elems(bs[i]);
    var j: nat :| j < |bs| && y in Elems(bs[j]);
    OneBucketEach(bs, k, local, i, j, x, y);
  }

  /** Only a peer that is not in the table, near enough in time and let in by the filter, is newly added. */
  lemma NewlyAddedIsNew(s: TableState, c: Config, r: Request, now: Time, latency: int, admits: bool)
    requires Good(s, c) && AddPeer(s, c, r, now, latency, admits).1 == NewlyAdded
    ensures r.p !in Members(s.buckets) && latency <= c.maxLatency && (c.filtered ==> admits)
    ensures UsefulNewPeer(s.buckets, c.bucketSize, c.local, r.p)
  {
    Located(s.buckets, c.bucketSize, c.local, r.p);
    AddPeerKeeps(s, c, r, now, latency, admits);
  }

  lemma Enters(before: set<PeerInfo>, after: set<PeerInfo>, e: PeerInfo, out: set<PeerInfo>)
    requires after == before + {e} - out && out <= before && forall x :: x in before ==> x.id != e.id
    ensures forall x :: x in after && x.id == e.id <==> x == e
    ensures forall x :: x in after && x.id != e.id ==> x in before
    ensures before - after == out
  {
  }

  /**
   What a newly added peer's entry holds, field by field; all other entries are old ones, and the only entry that may
   be gone could be replaced.
   */
  lemma NewEntryRecords(s: TableState, c: Config, r: Request, now: Time, latency: int, admits: bool)
    requires Good(s, c) && AddPeer(s, c, r, now, latency, admits).1 == NewlyAdded
    ensures var before, after := Infos(s.buckets), Infos(AddPeer(s, c, r, now, latency, admits).0.buckets);
            && (exists x :: x in after && x.id == r.p)
            && (forall x :: x in after && x.id == r.p ==>
                  && x.mode == r.mode && x.canReplace == r.canReplace && x.dhtId == r.p.kad
                  && x.lastUsefulAt == (if r.queryPeer then now else ZERO_TIME)
                  && x.lastSuccessfulOutboundQueryAt == now && x.addedAt == now)
            && (forall x :: x in after && x.id != r.p ==> x in before)
            && |before - after| <= 1
            && (forall x :: x in before - after ==> x.canReplace)
  {
    NewlyAddedIsNew(s, c, r, now, latency, admits);
    AddPeerKeeps(s, c, r, now, latency, admits);
    DisplacedIs(s, c, r.p);
    NoEntryYet(s.buckets, r.p);
    Enters(Infos(s.buckets), Infos(AddPeer(s, c, r, now, latency, admits).0.buckets), NewEntry(r, now),
      Displaced(s.buckets, c, r.p));
  }

  lemma NoEntryYet(bs: Buckets, p: PeerId)
    requires p !in Members(bs)
    ensures forall x :: x in Infos(bs) ==> x.id != p
  {
  }

  /**
   The verdict, without the functions that compute it: a known peer is present already; of the others the slow and then
   the filtered ones are refused; and the rest are added exactly if the bucket of their depth has room, or somebody in
   it can be replaced, or it is the last bucket and unfolding it parts them from somebody.
   */
  lemma VerdictMeans(s: TableState, c: Config, r: Request, now: Time, latency: int, admits: bool)
    requires Good(s, c)
    ensures var v := AddPeer(s, c, r, now, latency, admits).1;
            var depth, n := CommonPrefixLen(c.local, r.p.kad), |s.buckets|;
            var b := s.buckets[if depth < n - 1 then depth else n - 1];
            if r.p in Members(s.buckets) then v == AlreadyPresent
            else if latency > c.maxLatency then v == HighLatency
            else if c.filtered && !admits then v == FilteredOut
            else if || |b| < c.bucketSize
                    || (exists x :: x in Elems(b) && x.canReplace)
                    || (depth >= n - 1 && exists x :: x in Elems(b) && CommonPrefixLen(c.local, x.dhtId) != depth)
              then v == NewlyAdded
            else v == NoCapacity
  {
    Located(s.buckets, c.bucketSize, c.local, r.p);
    if r.p !in Members(s.buckets) {
      AddPeerKeeps(s, c, r, now, latency, admits);
    }
  }

  /** A peer that can be replaced makes room for every newcomer of its depth. */
  lemma ReplaceableMakesRoom(s: TableState, c: Config, x: PeerInfo, r: Request, now: Time, latency: int, admits: bool)
    requires Good(s, c) && x in Infos(s.buckets) && x.canReplace && r.p !in Members(s.buckets)
    requires CommonPrefixLen(c.local, x.id.kad) == CommonPrefixLen(c.local, r.p.kad)
    requires latency <= c.maxLatency && (c.filtered ==> admits)
    ensures AddPeer(s, c, r, now, latency, admits).1 == NewlyAdded
  {
    var i: nat :| i < |s.buckets| && x in Elems(s.buckets[i]);
    EntryIsFound(s.buckets, c.bucketSize, c.local, i, x);
    Located(s.buckets, c.bucketSize, c.local, r.p);
    AddPeerKeeps(s, c, r, now, latency, admits);
  }

  /**
   Two insertions: after a peer that may be replaced was newly added, any other newcomer of its depth that passes both
   checks is newly added as well, whatever is full.
   */
  lemma ReplaceableThenNewcomer(s: TableState, c: Config, r: Request, now: Time, latency: int, admits: bool,
        r': Request, now': Time, latency': int, admits': bool)
    requires Good(s, c) && AddPeer(s, c, r, now, latency, admits).1 == NewlyAdded && r.canReplace
    requires r'.p != r.p && r'.p !in Members(s.buckets)
    requires CommonPrefixLen(c.local, r'.p.kad) == CommonPrefixLen(c.local, r.p.kad)
    requires latency' <= c.maxLatency && (c.filtered ==> admits')
    ensures var s' := AddPeer(s, c, r, now, latency, admits).0;
            AddPeer(s', c, r', now', latency', admits').1 == NewlyAdded
  {
    NewlyAddedIsNew(s, c, r, now, latency, admits);
    AddPeerKeeps(s, c, r, now, latency, admits);
    NewEntryRecords(s, c, r, now, latency, admits);
    var s' := AddPeer(s, c, r, now, latency, admits).0;
    var x :| x in Infos(s'.buckets) && x.id == r.p;
    ReplaceableMakesRoom(s', c, x, r', now', latency', admits');
  }

  /** And a newly added peer that may not be replaced outlasts every insertion. */
  lemma IrreplaceableThenNewcomer(s: TableState, c: Config, r: Request, now: Time, latency: int, admits: bool,
        r': Request, now': Time, latency': int, admits': bool)
    requires Good(s, c) && AddPeer(s, c, r, now, latency, admits).1 == NewlyAdded && !r.canReplace
    ensures var s' := AddPeer(s, c, r, now, latency, admits).0;
            r.p in Members(AddPeer(s', c, r', now', latency', admits').0.buckets)
  {
    NewlyAddedIsNew(s, c, r, now, latency, admits);
    AddPeerKeeps(s, c, r, now, latency, admits);
    NewEntryRecords(s, c, r, now, latency, admits);
    OutlastsInsertion(AddPeer(s, c, r, now, latency, admits).0, c, r.p, Add(r', now', latency', admits'));
  }

  lemma OutlastsInsertion(s: TableState, c: Config, p: PeerId, op: Op)
    requires Good(s, c) && op.Add? && exists x :: x in Infos(s.buckets) && x.id == p && !x.canReplace
    ensures p in Members(Apply(s, c, op).buckets)
  {
    var x :| x in Infos(s.buckets) && x.id == p && !x.canReplace;
    EntryStays(s, c, op, x);
  }

  // ----- one operation on one entry -----

  /** What an operation makes of an entry that stays. */
  function Evolved(x: PeerInfo, op: Op): PeerInfo {
    match op
    case Add(r, now, _, _) =>
      if r.p == x.id && r.queryPeer && x.lastUsefulAt == ZERO_TIME then x.(lastUsefulAt := now) else x
    case Remove(_) => x
    case Queried(p, t) => if p == x.id then x.(lastSuccessfulOutboundQueryAt := t) else x
    case Useful(p, t) => if p == x.id then x.(lastUsefulAt := t) else x
    case MarkIrreplaceable => x.(canReplace := false)
  }

  /** Every entry of the table is an entry from before as the operation evolves it, or the newcomer's. */
  ghost predicate Descends(s: TableState, s': TableState, op: Op, y: PeerInfo) {
    || (exists x :: x in Infos(s.buckets) && x.id == y.id && y == Evolved(x, op))
    || (op.Add? && op.r.p !in Members(s.buckets) && y == NewEntry(op.r, op.now))
  }

  lemma ReplacedDescends(s: TableState, c: Config, op: Op, x: PeerInfo, y: PeerInfo)
    requires Good(s, c) && x in Infos(s.buckets) && Evolved(x, op).id == x.id
    requires forall z :: z in Infos(s.buckets) && z.id != x.id ==> Evolved(z, op) == z
    requires Infos(Apply(s, c, op).buckets) == Infos(s.buckets) - {x} + {Evolved(x, op)}
    requires y in Infos(Apply(s, c, op).buckets)
    ensures Descends(s, Apply(s, c, op), op, y)
  {
    if y != Evolved(x, op) && y.id == x.id {
      OneEntryEach(s.buckets, c.bucketSize, c.local, x, y);
    }
  }

  lemma KnownEntryDescends(s: TableState, c: Config, op: Op, y: PeerInfo)
    requires Good(s, c) && op.Add? && op.r.p in Members(s.buckets) && y in Infos(Apply(s, c, op).buckets)
    ensures Descends(s, Apply(s, c, op), op, y)
  {
    KnownPeerOnlyTouched(s, c, op.r, op.now, op.latency, op.admits);
    var before, after := Infos(s.buckets), Infos(Apply(s, c, op).buckets);
    var x :| x in before && x.id == op.r.p && after == before - {x} + {Evolved(x, op)};
    ReplacedDescends(s, c, op, x, y);
  }

  lemma QueriedEntryDescends(s: TableState, c: Config, p: PeerId, t: Time, y: PeerInfo)
    requires Good(s, c) && y in Infos(Apply(s, c, Queried(p, t)).buckets)
    ensures Descends(s, Apply(s, c, Queried(p, t)), Queried(p, t), y)
  {
    var f, op := (x: PeerInfo) => x.(lastSuccessfulOutboundQueryAt := t), Queried(p, t);
    UpdateEntryKeeps(s, c, p, f);
    var before, after := Infos(s.buckets), Infos(UpdateEntry(s, c, p, f).0.buckets);
    if p in Members(s.buckets) {
      var x :| x in before && x.id == p && after == before - {x} + {f(x)};
      ReplacedDescends(s, c, op, x, y);
    } else {
      NoEntryYet(s.buckets, p);
      assert Evolved(y, op) == y;
    }
  }

  lemma UsedEntryDescends(s: TableState, c: Config, p: PeerId, t: Time, y: PeerInfo)
    requires Good(s, c) && y in Infos(Apply(s, c, Useful(p, t)).buckets)
    ensures Descends(s, Apply(s, c, Useful(p, t)), Useful(p, t), y)
  {
    var f, op := (x: PeerInfo) => x.(lastUsefulAt := t), Useful(p, t);
    UpdateEntryKeeps(s, c, p, f);
    var before, after := Infos(s.buckets), Infos(UpdateEntry(s, c, p, f).0.buckets);
    if p in Members(s.buckets) {
      var x :| x in before && x.id == p && after == before - {x} + {f(x)};
      ReplacedDescends(s, c, op, x, y);
    } else {
      NoEntryYet(s.buckets, p);
      assert Evolved(y, op) == y;
    }
  }

  lemma EntryDescends(s: TableState, c: Config, op: Op, y: PeerInfo)
    requires Good(s, c) && y in Infos(Apply(s, c, op).buckets)
    ensures Descends(s, Apply(s, c, op), op, y)
  {
    match op
    case Add(r, now, latency, admits) =>
      if r.p in Members(s.buckets) {
        KnownEntryDescends(s, c, op, y);
      } else {
        AddPeerKeeps(s, c, r, now, latency, admits);
        if y != NewEntry(r, now) {
          assert y in Infos(s.buckets) && Evolved(y, op) == y by { assert y.id in Ids(Infos(s.buckets)); }
        }
      }
    case Remove(p) =>
      RemovePeerKeeps(s, c, p);
      assert Evolved(y, op) == y;
    case Queried(p, t) => QueriedEntryDescends(s, c, p, t, y);
    case Useful(p, t) => UsedEntryDescends(s, c, p, t, y);
    case MarkIrreplaceable => MarkAllKeeps(s, c);
  }

  /** An entry's peer leaves only by its removal, or displaced by a newcomer while it can be replaced. */
  lemma EntryStays(s: TableState, c: Config, op: Op, x: PeerInfo)
    requires Good(s, c) && x in Infos(s.buckets) && op != Remove(x.id) && (op.Add? ==> !x.canReplace)
    ensures Evolved(x, op) in Infos(Apply(s, c, op).buckets)
  {
    var s' := Apply(s, c, op);
    assert x.id in Members(s.buckets);
    assert x.id in Members(s'.buckets) by {
      match op
      case Add(r, now, latency, admits) =>
        if r.p in Members(s.buckets) {
          KnownPeerOnlyTouched(s, c, r, now, latency, admits);
        } else {
          AddPeerKeeps(s, c, r, now, latency, admits);
          if AddPeer(s, c, r, now, latency, admits).1 == NewlyAdded {
            DisplacedIs(s, c, r.p);
          }
          assert x in Infos(s'.buckets);
        }
      case _ => ApplyKeeps(s, c, op);
    }
    var y :| y in Infos(s'.buckets) && y.id == x.id;
    EntryDescends(s, c, op, y);
    var was :| was in Infos(s.buckets) && was.id == y.id && y == Evolved(was, op);
    OneEntryEach(s.buckets, c.bucketSize, c.local, x, was);
  }

  // ----- over runs -----

  function Life(x: PeerInfo, ops: seq<Op>): PeerInfo {
    if ops == [] then x else Evolved(Life(x, ops[..|ops| - 1]), ops[|ops| - 1])
  }

  /** The members after the first k operations. */
  function MembersAt(c: Config, ops: seq<Op>, k: nat): set<PeerId>
    requires c.bucketSize >= 1 && k <= |ops|
  {
    Members(Run(c, ops[..k]).buckets)
  }

  /** Operation i added peer p to the table, and p has not left it since. */
  ghost predicate InSince(c: Config, ops: seq<Op>, p: PeerId, i: nat)
    requires c.bucketSize >= 1
  {
    && i < |ops| && ops[i].Add? && ops[i].r.p == p
    && p !in MembersAt(c, ops, i)
    && forall j :: i < j <= |ops| ==> p in MembersAt(c, ops, j)
  }

  /** The entry y is what the insertion by operation i wrote and what has since been recorded of its peer. */
  ghost predicate LivedSince(c: Config, ops: seq<Op>, y: PeerInfo, i: nat)
    requires c.bucketSize >= 1
  {
    InSince(c, ops, y.id, i) && y == Life(NewEntry(ops[i].r, ops[i].now), ops[i + 1..])
  }

  /**
   The entry of a peer holds what the insertion that added it wrote, and what has since been recorded of that peer:
   its first use, if it had none, its later uses and answers, and that the table was frozen.
   */
  lemma {:induction false} EntryIsItsLife(c: Config, ops: seq<Op>, y: PeerInfo)
    requires c.bucketSize >= 1 && y in Infos(Run(c, ops).buckets)
    ensures exists i :: LivedSince(c, ops, y, i)
  {
    assert ops != [] by { EmptyHasNobody(y); }
    var n := |ops| - 1;
    var s, op := Run(c, ops[..n]), ops[n];
    RunKeeps(c, ops[..n]);
    EntryDescends(s, c, op, y);
    if x :| x in Infos(s.buckets) && x.id == y.id && y == Evolved(x, op) {
      EntryIsItsLife(c, ops[..n], x);
      var i :| LivedSince(c, ops[..n], x, i);
      LivesOn(c, ops, x, i);
    } else {
      JustJoined(c, ops, y);
    }
  }

  lemma EmptyHasNobody(y: PeerInfo)
    ensures y !in Infos(EMPTY.buckets)
  {
  }

  lemma PrefixOfPrefix(ops: seq<Op>, n: nat, j: nat)
    requires j <= n <= |ops|
    ensures ops[..n][..j] == ops[..j]
  {
  }

  lemma JustJoined(c: Config, ops: seq<Op>, y: PeerInfo)
    requires c.bucketSize >= 1 && ops != [] && y in Infos(Run(c, ops).buckets)
    requires var n := |ops| - 1;
             ops[n].Add? && ops[n].r.p !in Members(Run(c, ops[..n]).buckets) && y == NewEntry(ops[n].r, ops[n].now)
    ensures LivedSince(c, ops, y, |ops| - 1)
  {
    assert ops[..|ops|] == ops && ops[|ops|..] == [];
    assert y.id in Members(Run(c, ops).buckets);
  }

  lemma LivesOn(c: Config, ops: seq<Op>, x: PeerInfo, i: nat)
    requires c.bucketSize >= 1 && ops != [] && LivedSince(c, ops[..|ops| - 1], x, i)
    requires x.id in Members(Run(c, ops).buckets) && Evolved(x, ops[|ops| - 1]).id == x.id
    ensures LivedSince(c, ops, Evolved(x, ops[|ops| - 1]), i)
  {
    var n := |ops| - 1;
    assert ops[..|ops|] == ops;
    StillIn(c, ops, x.id, i);
    assert ops[i + 1..][..n - i - 1] == ops[..n][i + 1..];
  }

  lemma MembersAtPrefix(c: Config, ops: seq<Op>, n: nat, j: nat)
    requires c.bucketSize >= 1 && j <= n <= |ops|
    ensures MembersAt(c, ops[..n], j) == MembersAt(c, ops, j)
  {
    PrefixOfPrefix(ops, n, j);
  }

  lemma StillIn(c: Config, ops: seq<Op>, p: PeerId, i: nat)
    requires c.bucketSize >= 1 && ops != [] && InSince(c, ops[..|ops| - 1], p, i)
    requires p in MembersAt(c, ops, |ops|)
    ensures InSince(c, ops, p, i)
  {
    var n := |ops| - 1;
    MembersAtPrefix(c, ops, n, i);
    forall j | i < j <= |ops| ensures p in MembersAt(c, ops, j) {
      if j <= n {
        MembersAtPrefix(c, ops, n, j);
      }
    }
  }

  /** A peer that may not be replaced stays, and stays so, for as long as nobody removes it. */
  lemma {:induction false} IrreplaceableStays(c: Config, ops: seq<Op>, k: nat, x: PeerInfo)
    requires c.bucketSize >= 1 && k <= |ops| && x in Infos(Run(c, ops[..k]).buckets) && !x.canReplace
    requires forall i :: k <= i < |ops| ==> ops[i] != Remove(x.id)
    ensures Life(x, ops[k..]) in Infos(Run(c, ops).buckets)
    ensures Life(x, ops[k..]).id == x.id && !Life(x, ops[k..]).canReplace
    decreases |ops|
  {
    if k == |ops| {
      assert ops[..k] == ops && ops[k..] == [];
    } else {
      var n := |ops| - 1;
      PrefixOfPrefix(ops, n, k);
      IrreplaceableStays(c, ops[..n], k, x);
      LifeSnoc(x, ops, k);
      RunKeepsEntry(c, ops, Life(x, ops[..n][k..]));
    }
  }

  lemma RunKeepsEntry(c: Config, ops: seq<Op>, x: PeerInfo)
    requires c.bucketSize >= 1 && ops != [] && x in Infos(Run(c, ops[..|ops| - 1]).buckets) && !x.canReplace
    requires ops[|ops| - 1] != Remove(x.id)
    ensures Evolved(x, ops[|ops| - 1]) in Infos(Run(c, ops).buckets)
    ensures Evolved(x, ops[|ops| - 1]).id == x.id && !Evolved(x, ops[|ops| - 1]).canReplace
  {
    var s, op := Run(c, ops[..|ops| - 1]), ops[|ops| - 1];
    RunKeeps(c, ops[..|ops| - 1]);
    StaysFrozen(s, c, op, x);
    RunUnfolds(c, ops);
  }

  lemma RunUnfolds(c: Config, ops: seq<Op>)
    requires c.bucketSize >= 1 && ops != []
    ensures Run(c, ops) == Apply(Run(c, ops[..|ops| - 1]), c, ops[|ops| - 1])
  {
  }

  lemma StaysFrozen(s: TableState, c: Config, op: Op, x: PeerInfo)
    requires Good(s, c) && x in Infos(s.buckets) && op != Remove(x.id) && !x.canReplace
    ensures Evolved(x, op) in Infos(Apply(s, c, op).buckets)
    ensures Evolved(x, op).id == x.id && !Evolved(x, op).canReplace
  {
    EntryStays(s, c, op, x);
  }

  lemma LifeSnoc(x: PeerInfo, ops: seq<Op>, k: nat)
    requires k < |ops|
    ensures Life(x, ops[k..]) == Evolved(Life(x, ops[..|ops| - 1][k..]), ops[|ops| - 1])
  {
    var n := |ops| - 1;
    assert ops[k..][..n - k] == ops[..n][k..];
  }
}
