/**
 The optional mode filter of `NearestPeers` (kbucket/table.go): what it lets pass, what it is for, and on which
 tables the two are the same.
 */
module ModeFilters {
  import opened KeySpace
  import opened Nearest
  import opened Table
  import opened TableLaws

  /** What passes: the filter compares with a field that is zero in every collected peer. */
  function Passed(near: seq<PeerId>, mode: int): seq<PeerId> {
    if mode == 0 then near else []
  }

  /** The mode recorded in the table for a peer. */
  function ModeOf(bs: Buckets, local: Id, p: PeerId): int {
    var b := BucketFor(bs, local, p);
    if Has(b, p) then b[Find(b, p)].mode else 0
  }

  /** What should pass: the peers recorded with the mode asked for, in order. */
  function OfMode(peers: seq<PeerId>, bs: Buckets, local: Id, mode: int): seq<PeerId> {
    if peers == [] then []
    else
      OfMode(peers[..|peers| - 1], bs, local, mode) +
      if ModeOf(bs, local, peers[|peers| - 1]) == mode then [peers[|peers| - 1]] else []
  }

  /** For every target, every count and every nearest list, what passes is what should. */
  ghost predicate FilterIsRight(bs: Buckets, local: Id, mode: int) {
    forall target: Id, count: nat, near: seq<PeerId> :: IsNearest(near, Members(bs), count, By(target)) ==>
      Passed(near, mode) == OfMode(near, bs, local, mode)
  }

  // ----- one answer -----

  lemma {:induction false} OfModeIsAll(peers: seq<PeerId>, bs: Buckets, local: Id, mode: int)
    ensures |OfMode(peers, bs, local, mode)| <= |peers|
    ensures OfMode(peers, bs, local, mode) == peers <==>
            forall i :: 0 <= i < |peers| ==> ModeOf(bs, local, peers[i]) == mode
  {
    if peers != [] {
      var t, x := peers[..|peers| - 1], peers[|peers| - 1];
      OfModeIsAll(t, bs, local, mode);
      assert peers == t + [x];
      if ModeOf(bs, local, x) != mode {
        assert |OfMode(peers, bs, local, mode)| < |peers|;
      }
    }
  }

  lemma {:induction false} OfModeIsEmpty(peers: seq<PeerId>, bs: Buckets, local: Id, mode: int)
    ensures OfMode(peers, bs, local, mode) == [] <==>
            forall i :: 0 <= i < |peers| ==> ModeOf(bs, local, peers[i]) != mode
  {
    if peers != [] {
      OfModeIsEmpty(peers[..|peers| - 1], bs, local, mode);
    }
  }

  lemma AnswerIsRight(near: seq<PeerId>, bs: Buckets, local: Id, mode: int)
    ensures Passed(near, mode) == OfMode(near, bs, local, mode) <==>
            forall i :: 0 <= i < |near| ==> (ModeOf(bs, local, near[i]) == mode <==> mode == 0)
  {
    OfModeIsAll(near, bs, local, mode);
    OfModeIsEmpty(near, bs, local, mode);
  }

  // ----- every answer -----

  lemma RecordedMode(bs: Buckets, k: nat, local: Id, x: PeerInfo)
    requires Shape(bs, k, local) && x in Infos(bs)
    ensures ModeOf(bs, local, x.id) == x.mode
  {
    var i: nat :| 0 <= i < |bs| && x in Elems(bs[i]);
    EntryIsFound(bs, k, local, i, x);
  }

  lemma RightIfUniform(bs: Buckets, k: nat, local: Id, mode: int, target: Id, count: nat, near: seq<PeerId>)
    requires Shape(bs, k, local) && forall x :: x in Infos(bs) ==> (x.mode == mode <==> mode == 0)
    requires IsNearest(near, Members(bs), count, By(target))
    ensures Passed(near, mode) == OfMode(near, bs, local, mode)
  {
    NearestMeans(near, Members(bs), count, By(target));
    forall i | 0 <= i < |near| ensures ModeOf(bs, local, near[i]) == mode <==> mode == 0 {
      var x :| x in Infos(bs) && x.id == near[i];
      RecordedMode(bs, k, local, x);
    }
    AnswerIsRight(near, bs, local, mode);
  }

  /** All members, closest to the local key first, are a nearest list. */
  lemma WholeTable(bs: Buckets, local: Id) returns (near: seq<PeerId>)
    ensures IsNearest(near, Members(bs), |Members(bs)|, By(local))
    ensures forall p :: p in Members(bs) ==> p in near
  {
    var pool := Members(bs);
    RankingPrefixIsNearest(pool, |pool|, By(local));
    near := Ranking(pool, By(local))[..Min(|pool|, |pool|)];
    NearestMeans(near, pool, |pool|, By(local));
    Whole(near, pool);
  }

  /**
   The filter is right for every target, count and nearest list exactly if every peer of the table is recorded with
   mode 0 when 0 is asked for, and none with the mode asked for when that is another.
   */
  lemma FilterIsRightExactly(bs: Buckets, k: nat, local: Id, mode: int)
    requires Shape(bs, k, local)
    ensures FilterIsRight(bs, local, mode) <==> forall x :: x in Infos(bs) ==> (x.mode == mode <==> mode == 0)
  {
    if FilterIsRight(bs, local, mode) {
      var near := WholeTable(bs, local);
      AnswerIsRight(near, bs, local, mode);
      forall x | x in Infos(bs) ensures x.mode == mode <==> mode == 0 {
        RecordedMode(bs, k, local, x);
        assert x.id in Members(bs);
        var i :| 0 <= i < |near| && near[i] == x.id;
      }
    }
    if forall x :: x in Infos(bs) ==> (x.mode == mode <==> mode == 0) {
      forall target: Id, count: nat, near: seq<PeerId> | IsNearest(near, Members(bs), count, By(target))
        ensures Passed(near, mode) == OfMode(near, bs, local, mode)
      {
        RightIfUniform(bs, k, local, mode, target, count, near);
      }
    }
  }

  // ----- a table on which it is wrong -----

  lemma OnePeer(c: Config, p: PeerId, mode: int, now: Time)
    requires c.bucketSize >= 1 && c.maxLatency >= 0
    ensures var r := Request(p, mode, false, false);
            Run(c, [Add(r, now, 0, true)]).buckets == [[NewEntry(r, now)]]
  {
    var r := Request(p, mode, false, false);
    var op := Add(r, now, 0, true);
    assert [op][..0] == [];
    assert Run(c, [op]) == Apply(EMPTY, c, op) == AddPeer(EMPTY, c, r, now, 0, true).0;
    var admitted := Admit(EMPTY, c, p);
    assert admitted.(buckets := MakeRoom([[]], c.bucketSize, c.local, p)) == admitted;
    assert AddPeer(EMPTY, c, r, now, 0, true) == Settle(admitted, c, NewEntry(r, now));
    assert [NewEntry(r, now)] + [] == [NewEntry(r, now)];
  }

  lemma OneMember(e: PeerInfo)
    ensures Infos([[e]]) == {e} && Members([[e]]) == {e.id}
  {
    assert e in Elems([[e]][0]);
    assert Infos([[e]]) == {e};
  }

  lemma NearestOfOne(p: PeerId, d: PeerId -> nat)
    ensures IsNearest([p], {p}, 1, d)
  {
    assert IsNearest([p][1..], {p} - {p}, 0, d);
  }

  lemma OfModeOfOne(p: PeerId, bs: Buckets, local: Id, mode: int)
    requires ModeOf(bs, local, p) == mode
    ensures OfMode([p], bs, local, mode) == [p]
  {
    assert [p][..0] == [];
  }

  /** A new table to which one peer of mode 1 was added: asked for one peer of mode 1, the filter returns nobody. */
  lemma FilterLosesPeer(c: Config, p: PeerId, now: Time, target: Id)
    requires c.bucketSize >= 1 && c.maxLatency >= 0
    ensures var bs := Run(c, [Add(Request(p, 1, false, false), now, 0, true)]).buckets;
            && IsNearest([p], Members(bs), 1, By(target))
            && OfMode([p], bs, c.local, 1) == [p]
            && Passed([p], 1) == []
            && !FilterIsRight(bs, c.local, 1)
  {
    var ops := [Add(Request(p, 1, false, false), now, 0, true)];
    var bs := Run(c, ops).buckets;
    var e := NewEntry(Request(p, 1, false, false), now);
    OnePeer(c, p, 1, now);
    RunKeeps(c, ops);
    OneMember(e);
    NearestOfOne(p, By(target));
    RecordedMode(bs, c.bucketSize, c.local, e);
    OfModeOfOne(p, bs, c.local, 1);
  }
}
