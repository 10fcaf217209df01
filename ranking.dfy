/** Ranking of result lists: `list.sort((a, b) => a.distance - b.distance)`
    followed by `slice(0, cap)`. JavaScript's sort is stable, so the model is
    a stable insertion sort on values. */
module Ranking {
  import opened Places

  /** Puts `p` in front of the first entry at the same or a greater distance. */
  function Insert(p: Place, s: seq<Place>): (r: seq<Place>)
    ensures multiset(r) == multiset(s) + multiset{p}
    ensures forall x :: x in r <==> x in s || x == p
  {
    if s == [] || p.distance <= s[0].distance then [p] + s
    else
      assert s == [s[0]] + s[1..];
      [s[0]] + Insert(p, s[1..])
  }

  /** Inserting into a sorted list keeps it sorted. */
  lemma {:induction false} InsertSorted(p: Place, s: seq<Place>)
    requires SortedByDistance(s)
    ensures SortedByDistance(Insert(p, s))
  {
    if s != [] && p.distance > s[0].distance {
      var rest := Insert(p, s[1..]);
      InsertSorted(p, s[1..]);
      forall k | 0 <= k < |rest| ensures s[0].distance <= rest[k].distance {
        assert rest[k] in rest;
        if rest[k] != p {
          var j :| 0 <= j < |s[1..]| && s[1..][j] == rest[k];
          assert s[j + 1] == rest[k];
        }
      }
      assert Insert(p, s) == [s[0]] + rest;
    }
  }

  /** The list ordered by ascending distance. */
  function SortByDistance(ps: seq<Place>): (r: seq<Place>)
    ensures multiset(r) == multiset(ps)
    ensures |r| == |ps|
    ensures SortedByDistance(r)
  {
    if ps == [] then []
    else
      assert ps == [ps[0]] + ps[1..];
      var rest := SortByDistance(ps[1..]);
      InsertSorted(ps[0], rest);
      Insert(ps[0], rest)
  }

  /** `list.slice(0, cap)`. */
  function Truncate(ps: seq<Place>, cap: nat): seq<Place>
  {
    ps[..Min(cap, |ps|)]
  }

  /** In a sorted list, every entry past position `m` is at least as far away
      as every entry before it, whichever copy of a repeated entry is meant. */
  lemma DroppedAreFarther(s: seq<Place>, m: nat)
    requires SortedByDistance(s) && m <= |s|
    ensures forall k, x :: 0 <= k < m && x in multiset(s[m..]) ==> s[k].distance <= x.distance
  {
    forall k, x | 0 <= k < m && x in multiset(s[m..])
      ensures s[k].distance <= x.distance
    {
      assert x in s[m..];
      var j :| 0 <= j < |s[m..]| && s[m..][j] == x;
      assert s[m + j] == x;
    }
  }

  /** Sorting then truncating keeps a sorted list of exactly `min(cap, n)`
      entries of the input, and every input entry it drops is at least as far
      away as every entry it keeps. */
  lemma NearestAreKept(ps: seq<Place>, cap: nat)
    ensures |Truncate(SortByDistance(ps), cap)| == Min(cap, |ps|)
    ensures SortedByDistance(Truncate(SortByDistance(ps), cap))
    ensures multiset(Truncate(SortByDistance(ps), cap)) <= multiset(ps)
    ensures forall k, x :: 0 <= k < Min(cap, |ps|) && x in multiset(ps) - multiset(Truncate(SortByDistance(ps), cap))
              ==> Truncate(SortByDistance(ps), cap)[k].distance <= x.distance
  {
    var s := SortByDistance(ps);
    var m := Min(cap, |ps|);
    assert Truncate(s, cap) == s[..m];
    PrefixMultiset(s, m);
    DroppedAreFarther(s, m);
  }

  /** What a prefix leaves out of a list is its suffix, counted as multisets. */
  lemma PrefixMultiset(s: seq<Place>, m: nat)
    requires m <= |s|
    ensures multiset(s[..m]) <= multiset(s)
    ensures multiset(s) - multiset(s[..m]) == multiset(s[m..])
  {
    assert s == s[..m] + s[m..];
  }

  /** Every entry kept by sorting and truncating is an entry of the input. */
  lemma TruncatedSortMembers(ps: seq<Place>, cap: nat)
    ensures forall k :: 0 <= k < |Truncate(SortByDistance(ps), cap)| ==> Truncate(SortByDistance(ps), cap)[k] in ps
  {
    var s := SortByDistance(ps);
    forall k | 0 <= k < |Truncate(s, cap)| ensures Truncate(s, cap)[k] in ps {
      assert Truncate(s, cap)[k] == s[k];
      assert s[k] in multiset(s);
    }
  }

  /** Sorting keeps ids distinct. */
  lemma {:induction false} SortKeepsDistinctIds(ps: seq<Place>)
    requires DistinctIds(ps)
    ensures DistinctIds(SortByDistance(ps))
  {
    if ps != [] {
      var rest := SortByDistance(ps[1..]);
      SortKeepsDistinctIds(ps[1..]);
      forall x | x in rest ensures x.id != ps[0].id {
        assert x in multiset(ps[1..]);
        var j :| 0 <= j < |ps[1..]| && ps[1..][j] == x;
        assert ps[j + 1] == x;
      }
      InsertKeepsDistinctIds(ps[0], rest);
    }
  }

  /** Inserting an entry whose id is new keeps ids distinct. */
  lemma {:induction false} InsertKeepsDistinctIds(p: Place, s: seq<Place>)
    requires DistinctIds(s)
    requires forall x :: x in s ==> x.id != p.id
    ensures DistinctIds(Insert(p, s))
  {
    if s != [] && p.distance > s[0].distance {
      var rest := Insert(p, s[1..]);
      InsertKeepsDistinctIds(p, s[1..]);
      forall x | x in rest ensures x.id != s[0].id {
        if x != p {
          var j :| 0 <= j < |s[1..]| && s[1..][j] == x;
          assert s[j + 1] == x;
        }
      }
      assert Insert(p, s) == [s[0]] + rest;
    }
  }
}
