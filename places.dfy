/** The normalized place record every provider adapter produces, and the
    predicates the result lists are judged by. */
module Places {

  datatype Option<T> = None | Some(value: T)

  /** A normalized place. `kind` is the record's `type` field; `distance` is
      the distance from the query origin in hundredths of a kilometre, the
      value the service renders with two decimals. Coordinates are not part
      of the model. */
  datatype Place = Place(id: string, name: string, kind: string, address: string, distance: nat)

  /** OpenStreetMap tags of a spatial-query element; a missing tag reads as "". */
  type Tags = map<string, string>

  function Tag(tags: Tags, key: string): string
  {
    if key in tags then tags[key] else ""
  }

  /** Non-decreasing in distance. */
  predicate SortedByDistance(ps: seq<Place>)
  {
    forall i, j :: 0 <= i < j < |ps| ==> ps[i].distance <= ps[j].distance
  }

  /** No two entries share an `id`. */
  predicate DistinctIds(ps: seq<Place>)
  {
    forall i, j :: 0 <= i < j < |ps| ==> ps[i].id != ps[j].id
  }

  /** Some entry has the given `id` (what `list.find(p => p.id === id)` looks for). */
  predicate HasId(ps: seq<Place>, id: string)
  {
    exists i :: 0 <= i < |ps| && ps[i].id == id
  }

  /** `Math.min`, the bound `slice` is given. */
  function Min(a: int, b: int): int
  {
    if a < b then a else b
  }

  /** `xs.filter(keep)`: the entries that pass, in order, each as often as in
      `xs` (`FilterKeepsOrder`, `FilterMultiset`). */
  function Filter<T(!new)>(xs: seq<T>, keep: T -> bool): (r: seq<T>)
    ensures forall x :: x in r <==> x in xs && keep(x)
    ensures |r| <= |xs|
  {
    if |xs| == 0 then []
    else
      assert xs == [xs[0]] + xs[1..];
      (if keep(xs[0]) then [xs[0]] else []) + Filter(xs[1..], keep)
  }

  /** `filter` keeps the order of its input: filtering a concatenation is
      the concatenation of the filtered parts. */
  lemma {:induction false} FilterKeepsOrder<T(!new)>(xs: seq<T>, ys: seq<T>, keep: T -> bool)
    ensures Filter(xs + ys, keep) == Filter(xs, keep) + Filter(ys, keep)
  {
    if |xs| == 0 {
      assert xs + ys == ys;
    } else {
      var x, rest := xs[0], xs[1..];
      var head := if keep(x) then [x] else [];
      assert xs == [x] + rest;
      assert xs + ys == [x] + (rest + ys);
      calc {
        Filter(xs + ys, keep);
        == { FilterCons(x, rest + ys, keep); }
        head + Filter(rest + ys, keep);
        == { FilterKeepsOrder(rest, ys, keep); }
        head + (Filter(rest, keep) + Filter(ys, keep));
        == (head + Filter(rest, keep)) + Filter(ys, keep);
        == { FilterCons(x, rest, keep); }
        Filter(xs, keep) + Filter(ys, keep);
      }
    }
  }

  /** Every entry that passes is kept as often as it occurs, and no other
      entry is kept. */
  lemma {:induction false} FilterMultiset<T(!new)>(xs: seq<T>, keep: T -> bool)
    ensures forall x :: multiset(Filter(xs, keep))[x] == if keep(x) then multiset(xs)[x] else 0
  {
    if |xs| > 0 {
      FilterMultiset(xs[1..], keep);
      assert xs == [xs[0]] + xs[1..];
    }
  }

  lemma FilterCons<T(!new)>(x: T, rest: seq<T>, keep: T -> bool)
    ensures Filter([x] + rest, keep) == (if keep(x) then [x] else []) + Filter(rest, keep)
  {
    assert ([x] + rest)[1..] == rest;
  }

  /** A single entry stays exactly when it passes. */
  lemma FilterSingle<T(!new)>(x: T, keep: T -> bool)
    ensures Filter([x], keep) == if keep(x) then [x] else []
  {
    assert [x][1..] == [];
  }
}
