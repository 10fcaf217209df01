/** Stable first-occurrence deduplication by `id`: the `reduce` of the places
    handler and the `find`-then-`push` of the search-provider loop. */
module Dedup {
  import opened Places

  /** The entries whose `id` has not been seen earlier in the list, in list
      order. Defined on the last entry, as the accumulator grows by `push`. */
  function FirstOccurrences(ps: seq<Place>): seq<Place>
  {
    if |ps| == 0 then []
    else
      var kept := FirstOccurrences(ps[..|ps| - 1]);
      var last := ps[|ps| - 1];
      if HasId(kept, last.id) then kept else kept + [last]
  }

  /** `acc.find(p => p.id === id)`: the first entry with that `id`, if any. */
  method FindById(acc: seq<Place>, id: string) returns (r: Option<Place>)
    ensures r.None? <==> !HasId(acc, id)
    ensures r.Some? ==> exists i :: 0 <= i < |acc| && acc[i] == r.value && r.value.id == id
                                    && forall j :: 0 <= j < i ==> acc[j].id != id
  {
    r := None;
    var i := 0;
    while i < |acc|
      invariant 0 <= i <= |acc|
      invariant forall j :: 0 <= j < i ==> acc[j].id != id
    {
      if acc[i].id == id {
        r := Some(acc[i]);
        return;
      }
      i := i + 1;
    }
  }

  /** The reduce that removes duplicates: push each place whose `id` the
      accumulator does not yet hold. */
  method RemoveDuplicates(places: seq<Place>) returns (unique: seq<Place>)
    ensures unique == FirstOccurrences(places)
  {
    unique := [];
    for i := 0 to |places|
      invariant unique == FirstOccurrences(places[..i])
    {
      assert places[..i + 1][..i] == places[..i];
      var found := FindById(unique, places[i].id);
      if found.None? {
        unique := unique + [places[i]];
      }
    }
    assert places[..|places|] == places;
  }

  /** One more entry: kept when its `id` is new, dropped otherwise. */
  lemma FirstOccurrencesPush(ps: seq<Place>, x: Place)
    ensures FirstOccurrences(ps + [x]) ==
      if HasId(FirstOccurrences(ps), x.id) then FirstOccurrences(ps) else FirstOccurrences(ps) + [x]
  {
    assert (ps + [x])[..|ps|] == ps;
  }

  /** The ids kept are exactly the ids of the input, each once; the output is
      no longer than the input and empty only for an empty input. */
  lemma {:induction false} FirstOccurrencesIds(ps: seq<Place>)
    ensures DistinctIds(FirstOccurrences(ps))
    ensures forall id :: HasId(FirstOccurrences(ps), id) <==> HasId(ps, id)
    ensures |FirstOccurrences(ps)| <= |ps|
    ensures |ps| > 0 ==> |FirstOccurrences(ps)| > 0
  {
    if |ps| > 0 {
      var init, last := ps[..|ps| - 1], ps[|ps| - 1];
      FirstOccurrencesIds(init);
      assert ps == init + [last];
      forall id ensures HasId(ps, id) <==> HasId(init, id) || last.id == id {
        if HasId(ps, id) {
          var i :| 0 <= i < |ps| && ps[i].id == id;
          if i < |init| { assert init[i] == ps[i]; }
        }
        if HasId(init, id) {
          var i :| 0 <= i < |init| && init[i].id == id;
          assert ps[i] == init[i];
        }
      }
      var kept := FirstOccurrences(init);
      if !HasId(kept, last.id) {
        var r := kept + [last];
        forall id ensures HasId(r, id) <==> HasId(kept, id) || last.id == id {
          if HasId(r, id) {
            var i :| 0 <= i < |r| && r[i].id == id;
            if i < |kept| { assert kept[i] == r[i]; }
          }
          if last.id == id {
            assert r[|kept|] == last;
          }
          if HasId(kept, id) {
            var i :| 0 <= i < |kept| && kept[i].id == id;
            assert r[i] == kept[i];
          }
        }
        assert r[|kept|] == last;
      }
    }
  }

  /** `r` is a subsequence of `ps`: entry `k` of `r` is entry `idx[k]` of
      `ps`, and the positions increase. */
  ghost predicate Embeds(ps: seq<Place>, r: seq<Place>, idx: seq<nat>)
  {
    && |idx| == |r|
    && (forall k :: 0 <= k < |idx| ==> idx[k] < |ps| && ps[idx[k]] == r[k])
    && (forall k, l :: 0 <= k < l < |idx| ==> idx[k] < idx[l])
  }

  /** No entry before position `i` has the `id` of entry `i`. */
  ghost predicate FirstOfItsId(ps: seq<Place>, i: nat)
    requires i < |ps|
  {
    forall j :: 0 <= j < i ==> ps[j].id != ps[i].id
  }

  /** The output is the subsequence of the input made of first occurrences:
      it embeds in order, and each kept entry is the first with its `id`. */
  lemma {:induction false} FirstOccurrencesPositions(ps: seq<Place>) returns (idx: seq<nat>)
    ensures Embeds(ps, FirstOccurrences(ps), idx)
    ensures forall k :: 0 <= k < |idx| ==> idx[k] < |ps| && FirstOfItsId(ps, idx[k])
  {
    if |ps| == 0 {
      idx := [];
    } else {
      var init, last := ps[..|ps| - 1], ps[|ps| - 1];
      var kept := FirstOccurrences(init);
      idx := FirstOccurrencesPositions(init);
      assert forall j :: 0 <= j < |init| ==> ps[j] == init[j];
      assert forall k :: 0 <= k < |idx| ==> FirstOfItsId(init, idx[k]) ==> FirstOfItsId(ps, idx[k]);
      if !HasId(kept, last.id) {
        FirstOccurrencesIds(init);
        assert !HasId(init, last.id);
        assert FirstOfItsId(ps, |init|);
        idx := idx + [|init|];
      }
    }
  }

  /** A list whose ids are already distinct is left as it is. */
  lemma {:induction false} FirstOccurrencesOfDistinct(ps: seq<Place>)
    requires DistinctIds(ps)
    ensures FirstOccurrences(ps) == ps
  {
    if |ps| > 0 {
      var init, last := ps[..|ps| - 1], ps[|ps| - 1];
      FirstOccurrencesOfDistinct(init);
      assert forall j :: 0 <= j < |init| ==> init[j].id != last.id;
      assert ps == init + [last];
    }
  }

  /** Removing duplicates twice is the same as removing them once. */
  lemma FirstOccurrencesIdempotent(ps: seq<Place>)
    ensures FirstOccurrences(FirstOccurrences(ps)) == FirstOccurrences(ps)
  {
    FirstOccurrencesIds(ps);
    FirstOccurrencesOfDistinct(FirstOccurrences(ps));
  }

  /** Appending entries never changes what was already kept: the result for a
      prefix is a prefix of the result for the whole list. */
  lemma {:induction false} FirstOccurrencesPrefix(xs: seq<Place>, ys: seq<Place>)
    ensures FirstOccurrences(xs) <= FirstOccurrences(xs + ys)
  {
    if |ys| == 0 {
      assert xs + ys == xs;
    } else {
      var ys' := ys[..|ys| - 1];
      FirstOccurrencesPrefix(xs, ys');
      assert (xs + ys)[..|xs + ys| - 1] == xs + ys';
    }
  }

  /** Every kept entry comes from the input, and a sorted input stays sorted. */
  lemma FirstOccurrencesSubset(ps: seq<Place>)
    ensures forall k :: 0 <= k < |FirstOccurrences(ps)| ==> FirstOccurrences(ps)[k] in ps
    ensures SortedByDistance(ps) ==> SortedByDistance(FirstOccurrences(ps))
  {
    var idx := FirstOccurrencesPositions(ps);
    var r := FirstOccurrences(ps);
    assert forall k :: 0 <= k < |r| ==> r[k] == ps[idx[k]];
  }
}
