/**
 A bucket (kbucket/bucket.go): a list of peers changed in place, newest in front.
 A reference to an entry is an index into the list.
 */
module Buckets {
  import opened KeySpace
  import opened Nearest
  import opened Table
  import opened Wrappers

  /** Where a scan for a minimum ends: an entry replaces the minimum so far if it is less than it. */
  function MinIndex(b: Entries, lessThan: (PeerInfo, PeerInfo) -> bool): (m: nat)
    requires b != []
    ensures m < |b|
  {
    if |b| == 1 then 0
    else
      var m := MinIndex(b[..|b| - 1], lessThan);
      if lessThan(b[|b| - 1], b[m]) then |b| - 1 else m
  }

  /** Under a comparison by a key the scan ends on an entry of the least key. */
  lemma {:induction false} MinIndexIsLeast(b: Entries, lessThan: (PeerInfo, PeerInfo) -> bool, key: PeerInfo -> int)
    requires b != [] && forall x, y :: lessThan(x, y) <==> key(x) < key(y)
    ensures forall j :: 0 <= j < |b| ==> key(b[MinIndex(b, lessThan)]) <= key(b[j])
  {
    if |b| > 1 {
      var t := b[..|b| - 1];
      MinIndexIsLeast(t, lessThan, key);
      assert forall j :: 0 <= j < |t| ==> t[j] == b[j];
    }
  }

  /** Under "the first can be replaced" the scan ends on an entry that can be replaced if there is one. */
  lemma {:induction false} MinIndexIsVictim(b: Entries)
    requires b != []
    ensures MinIndex(b, (x: PeerInfo, y: PeerInfo) => x.canReplace) == Victim(b)
  {
    if |b| > 1 {
      MinIndexIsVictim(b[..|b| - 1]);
    }
  }

  /** How far a split has come: what was kept and is still to be looked at in `list`, what was moved in `out`. */
  ghost predicate SplitSoFar(before: Entries, list: Entries, e: nat, out: Entries, cpl: int, target: Id) {
    && e <= |list|
    && Shallow(before, cpl, target) == list[..e] + Shallow(list[e..], cpl, target)
    && Deep(before, cpl, target) == out + Deep(list[e..], cpl, target)
  }

  lemma SplitMoves(before: Entries, list: Entries, e: nat, out: Entries, cpl: int, target: Id)
    requires e < |list| && SplitSoFar(before, list, e, out, cpl, target) && Cpl(target, list[e]) > cpl
    ensures SplitSoFar(before, list[..e] + list[e + 1..], e, out + [list[e]], cpl, target)
  {
  }

  lemma SplitKeeps(before: Entries, list: Entries, e: nat, out: Entries, cpl: int, target: Id)
    requires e < |list| && SplitSoFar(before, list, e, out, cpl, target) && Cpl(target, list[e]) <= cpl
    ensures SplitSoFar(before, list, e + 1, out, cpl, target)
  {
  }

  class Bucket {
    var list: Entries

    constructor ()
      ensures list == []
    {
      list := [];
    }

    method Len() returns (n: nat)
      ensures n == |list|
    {
      n := |list|;
    }

    method GetPeer(p: PeerId) returns (j: nat)
      ensures j == Table.Find(list, p)
    {
      j := 0;
      while j < |list| && list[j].id != p
        invariant j <= |list|
        invariant Table.Find(list, p) == j + Table.Find(list[j..], p)
      {
        j := j + 1;
      }
    }

    /** None in an empty bucket. */
    method Min(lessThan: (PeerInfo, PeerInfo) -> bool) returns (r: Option<nat>)
      ensures r == if list == [] then None else Some(MinIndex(list, lessThan))
    {
      if |list| == 0 {
        return None;
      }
      var m := 0;
      for j := 1 to |list|
        invariant m == MinIndex(list[..j], lessThan)
      {
        assert list[..j + 1][..j] == list[..j];
        if lessThan(list[j], list[m]) {
          m := j;
        }
      }
      assert list[..|list|] == list;
      return Some(m);
    }

    method UpdateAllWith(f: PeerInfo -> PeerInfo)
      modifies this
      ensures |list| == |old(list)|
      ensures forall j :: 0 <= j < |list| ==> list[j] == f(old(list)[j])
    {
      for j := 0 to |list|
        invariant |list| == |old(list)|
        invariant forall i :: 0 <= i < |list| ==> list[i] == if i < j then f(old(list)[i]) else old(list)[i]
      {
        list := list[j := f(list[j])];
      }
    }

    method Remove(p: PeerId) returns (removed: bool)
      modifies this
      ensures removed == Has(old(list), p)
      ensures list == Without(old(list), p)
    {
      var j := GetPeer(p);
      removed := j < |list|;
      if removed {
        list := list[..j] + list[j + 1..];
      }
    }

    method PushFront(e: PeerInfo)
      modifies this
      ensures list == [e] + old(list)
    {
      list := [e] + list;
    }

    /** Keep the entries whose common prefix with the target is at most cpl; move the others to a new bucket. */
    method Split(cpl: int, target: Id) returns (newbuck: Bucket)
      modifies this
      ensures fresh(newbuck)
      ensures list == Shallow(old(list), cpl, target)
      ensures newbuck.list == Deep(old(list), cpl, target)
    {
      newbuck := new Bucket();
      ghost var before := list;
      var out := [];
      var e := 0;
      while e < |list|
        invariant 0 <= e <= |list|
        invariant SplitSoFar(before, list, e, out, cpl, target)
        decreases |list| - e
      {
        PrefixSymmetric(list[e].dhtId, target);
        var peerCpl := CommonPrefixLen(list[e].dhtId, target);
        if peerCpl > cpl {
          SplitMoves(before, list, e, out, cpl, target);
          out := out + [list[e]];
          list := list[..e] + list[e + 1..];
        } else {
          SplitKeeps(before, list, e, out, cpl, target);
          e := e + 1;
        }
      }
      newbuck.list := out;
    }

    method MaxCommonPrefix(target: Id) returns (m: nat)
      ensures forall x :: x in Elems(list) ==> Cpl(target, x) <= m
      ensures list == [] ==> m == 0
      ensures list != [] ==> exists x :: x in Elems(list) && Cpl(target, x) == m
    {
      m := 0;
      for e := 0 to |list|
        invariant forall j :: 0 <= j < e ==> Cpl(target, list[j]) <= m
        invariant e == 0 ==> m == 0
        invariant e > 0 ==> exists j :: 0 <= j < e && Cpl(target, list[j]) == m
      {
        PrefixSymmetric(list[e].dhtId, target);
        var cpl := CommonPrefixLen(list[e].dhtId, target);
        if cpl > m {
          m := cpl;
        }
        assert Cpl(target, list[e]) <= m;
      }
      if j :| 0 <= j < |list| && Cpl(target, list[j]) == m {
        assert list[j] in Elems(list);
      }
    }
  }
}
