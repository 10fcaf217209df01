/** The search-provider adapter in nearby mode (`getPlacesFromOSM`): one
    request per term of a fixed vocabulary, results within the radius
    normalized and accumulated without repeating an id, then sorted by
    distance and capped at 30. Each request's outcome is an input; the
    requests themselves, their timeout and the pause between them are outside
    the model. */
module Nominatim {
  import opened Text
  import opened Places
  import opened Category
  import opened Address
  import opened Ranking
  import opened Dedup
  import opened Fallback

  /** One result of the search provider. `distance` is its distance from the
      origin in hundredths of a kilometre; "" stands for an absent field. */
  datatype SearchHit = SearchHit(placeId: string, displayName: string, name: string, cls: string, typ: string, distance: nat)

  /** How one term's request ended. */
  datatype TermResponse = TermFailed | TermResults(hits: seq<SearchHit>)

  /** The terms searched one after another, in this order. */
  const SearchQueries: seq<string> := [
    "cafe", "restaurant", "pub", "bar", "bakery",
    "park", "garden", "playground",
    "museum", "art_gallery", "theatre", "cinema",
    "hotel", "hostel", "guest_house",
    "supermarket", "mall", "shop",
    "library", "university", "school",
    "pharmacy", "hospital", "clinic"
  ]

  /** The radius in metres when the caller gives none. */
  const DefaultRadius: nat := 2000

  const SearchCap: nat := 30

  /** `distance <= radius / 1000`, the distance in hundredths of a km and the
      radius in metres. */
  predicate WithinRadius(hit: SearchHit, radius: nat)
  {
    10 * hit.distance <= radius
  }

  /** The normalized record of a result found by `query`: the name is the
      first segment of the display string, else the provider's name, else
      the term. */
  function HitPlace(hit: SearchHit, query: string): Place
  {
    Place(hit.placeId,
          Or(Or(Split(hit.displayName, ',')[0], hit.name), query),
          GetPlaceType(hit.cls, hit.typ, query),
          FormatShortAddress(hit.displayName),
          hit.distance)
  }

  /** The records of one term's results that lie within the radius, in
      answer order. */
  function TermPlaces(query: string, hits: seq<SearchHit>, radius: nat): seq<Place>
  {
    if |hits| == 0 then []
    else
      var last := hits[|hits| - 1];
      TermPlaces(query, hits[..|hits| - 1], radius)
      + (if WithinRadius(last, radius) then [HitPlace(last, query)] else [])
  }

  /** What one term adds: nothing when its request failed. */
  function TermContribution(query: string, response: TermResponse, radius: nat): seq<Place>
  {
    match response
    case TermFailed => []
    case TermResults(hits) => TermPlaces(query, hits, radius)
  }

  /** The records of all terms in order. */
  function Gathered(queries: seq<string>, responses: seq<TermResponse>, radius: nat): seq<Place>
    requires |queries| == |responses|
  {
    if |queries| == 0 then []
    else
      var n := |queries| - 1;
      Gathered(queries[..n], responses[..n], radius) + TermContribution(queries[n], responses[n], radius)
  }

  lemma GatheredStep(queries: seq<string>, responses: seq<TermResponse>, t: nat, radius: nat)
    requires |queries| == |responses| && t < |queries|
    ensures Gathered(queries[..t + 1], responses[..t + 1], radius)
            == Gathered(queries[..t], responses[..t], radius) + TermContribution(queries[t], responses[t], radius)
  {
    assert queries[..t + 1][..t] == queries[..t];
    assert responses[..t + 1][..t] == responses[..t];
  }

  lemma TermPlacesStep(query: string, hits: seq<SearchHit>, h: nat, radius: nat)
    requires h < |hits|
    ensures TermPlaces(query, hits[..h + 1], radius)
            == TermPlaces(query, hits[..h], radius) + (if WithinRadius(hits[h], radius) then [HitPlace(hits[h], query)] else [])
  {
    assert hits[..h + 1][..h] == hits[..h];
  }

  /** What the adapter returns for the given per-term outcomes. */
  function SearchPlaces(responses: seq<TermResponse>, radius: nat): seq<Place>
    requires |responses| == |SearchQueries|
  {
    Truncate(SortByDistance(FirstOccurrences(Gathered(SearchQueries, responses, radius))), SearchCap)
  }

  /** The term loop: for each successful term, push every result within the
      radius whose id the accumulator does not hold yet; a failed term is
      skipped. Then sort by distance and keep 30. */
  method GetPlacesFromSearch(responses: seq<TermResponse>, radius: nat) returns (places: seq<Place>)
    requires |responses| == |SearchQueries|
    ensures places == SearchPlaces(responses, radius)
  {
    var allPlaces: seq<Place> := [];
    for t := 0 to |SearchQueries|
      invariant allPlaces == FirstOccurrences(Gathered(SearchQueries[..t], responses[..t], radius))
    {
      GatheredStep(SearchQueries, responses, t, radius);
      if responses[t].TermResults? {
        allPlaces := AddTermResults(allPlaces, Gathered(SearchQueries[..t], responses[..t], radius),
                                    SearchQueries[t], responses[t].hits, radius);
      } else {
        assert Gathered(SearchQueries[..t], responses[..t], radius) + [] == Gathered(SearchQueries[..t], responses[..t], radius);
      }
    }
    assert SearchQueries[..|SearchQueries|] == SearchQueries;
    assert responses[..|responses|] == responses;
    places := Truncate(SortByDistance(allPlaces), SearchCap);
  }

  /** The `forEach` over one term's results: each result within the radius
      is normalized and pushed unless its id is already accumulated. */
  method AddTermResults(allPlaces: seq<Place>, ghost before: seq<Place>, query: string, hits: seq<SearchHit>, radius: nat)
    returns (after: seq<Place>)
    requires allPlaces == FirstOccurrences(before)
    ensures after == FirstOccurrences(before + TermPlaces(query, hits, radius))
  {
    after := allPlaces;
    assert hits[..0] == [];
    assert before + [] == before;
    for h := 0 to |hits|
      invariant after == FirstOccurrences(before + TermPlaces(query, hits[..h], radius))
    {
      var hit := hits[h];
      ghost var done := before + TermPlaces(query, hits[..h], radius);
      TermPlacesStep(query, hits, h, radius);
      if WithinRadius(hit, radius) {
        var formatted := HitPlace(hit, query);
        assert before + TermPlaces(query, hits[..h + 1], radius) == done + [formatted];
        FirstOccurrencesPush(done, formatted);
        var found := FindById(after, formatted.id);
        if found.None? {
          after := after + [formatted];
        }
      } else {
        assert before + TermPlaces(query, hits[..h + 1], radius) == done + [];
        assert done + [] == done;
      }
    }
    assert hits[..|hits|] == hits;
  }

  /** Every gathered record lies within the radius and carries a non-empty
      name and category. */
  lemma {:induction false} GatheredEntries(queries: seq<string>, responses: seq<TermResponse>, radius: nat)
    requires |queries| == |responses|
    requires forall i :: 0 <= i < |queries| ==> queries[i] != ""
    ensures forall x :: x in Gathered(queries, responses, radius) ==>
      10 * x.distance <= radius && x.name != "" && x.kind != ""
  {
    if |queries| > 0 {
      var n := |queries| - 1;
      GatheredEntries(queries[..n], responses[..n], radius);
      if responses[n].TermResults? {
        TermPlacesEntries(queries[n], responses[n].hits, radius);
      }
      assert Gathered(queries, responses, radius)
             == Gathered(queries[..n], responses[..n], radius) + TermContribution(queries[n], responses[n], radius);
    }
  }

  lemma {:induction false} TermPlacesEntries(query: string, hits: seq<SearchHit>, radius: nat)
    requires query != ""
    ensures forall x :: x in TermPlaces(query, hits, radius) ==>
      10 * x.distance <= radius && x.name != "" && x.kind != ""
  {
    if |hits| > 0 {
      TermPlacesEntries(query, hits[..|hits| - 1], radius);
    }
  }

  /** The adapter's result has distinct ids, is sorted by distance and holds
      at most 30 entries. */
  lemma SearchPlacesRanked(responses: seq<TermResponse>, radius: nat)
    requires |responses| == |SearchQueries|
    ensures var r := SearchPlaces(responses, radius);
      SortedByDistance(r) && DistinctIds(r) && |r| <= 30
  {
    var unique := FirstOccurrences(Gathered(SearchQueries, responses, radius));
    FirstOccurrencesIds(Gathered(SearchQueries, responses, radius));
    SortKeepsDistinctIds(unique);
    NearestAreKept(unique, SearchCap);
  }

  /** Every entry of the adapter's result lies within the radius and carries
      a non-empty name and category. */
  lemma SearchPlacesEntries(responses: seq<TermResponse>, radius: nat)
    requires |responses| == |SearchQueries|
    ensures var r := SearchPlaces(responses, radius);
      forall k :: 0 <= k < |r| ==> 10 * r[k].distance <= radius && r[k].name != "" && r[k].kind != ""
  {
    var gathered := Gathered(SearchQueries, responses, radius);
    var unique := FirstOccurrences(gathered);
    GatheredEntries(SearchQueries, responses, radius);
    FirstOccurrencesSubset(gathered);
    TruncatedSortMembers(unique, SearchCap);
  }

  /** A failed term is skipped: it adds nothing to what was gathered. */
  lemma FailedTermSkipped(queries: seq<string>, responses: seq<TermResponse>, query: string, radius: nat)
    requires |queries| == |responses|
    ensures Gathered(queries + [query], responses + [TermFailed], radius) == Gathered(queries, responses, radius)
  {
    assert (queries + [query])[..|queries|] == queries;
    assert (responses + [TermFailed])[..|responses|] == responses;
    assert Gathered(queries, responses, radius) + [] == Gathered(queries, responses, radius);
  }

  /** A later term, failed or not, never removes or reorders the places
      accumulated from the earlier terms. */
  lemma LaterTermKeepsAccumulated(queries: seq<string>, responses: seq<TermResponse>,
                                  query: string, response: TermResponse, radius: nat)
    requires |queries| == |responses|
    ensures FirstOccurrences(Gathered(queries, responses, radius))
            <= FirstOccurrences(Gathered(queries + [query], responses + [response], radius))
  {
    assert (queries + [query])[..|queries|] == queries;
    assert (responses + [response])[..|responses|] == responses;
    var extra := TermContribution(query, response, radius);
    assert Gathered(queries + [query], responses + [response], radius) == Gathered(queries, responses, radius) + extra;
    FirstOccurrencesPrefix(Gathered(queries, responses, radius), extra);
  }

  /** `getPlacesFromOSM` as written: its first statement calls
      `calculateBoundingBox`, which the file never defines, so the call throws
      before any request is made and the outer handler returns the fallback
      places, whatever the provider would have answered. */
  function SearchPlacesAsWritten(responses: seq<TermResponse>, radius: nat, draws: seq<FallbackDraw>): (r: seq<Place>)
    requires |responses| == |SearchQueries|
    requires ValidDraws(draws)
    ensures |r| == FallbackCount
    ensures forall k :: 0 <= k < |r| ==> WellFormedEntry(r[k])
  {
    FallbackShape(draws);
    FallbackList(draws)
  }

  /** The first term's request answers with one result 1 km away, the others
      fail. */
  function OneHitResponses(): seq<TermResponse>
  {
    [TermResults([SearchHit("1", "Кофейня, Тверская, Москва", "", "amenity", "cafe", 100)])]
    + seq(|SearchQueries| - 1, i => TermFailed)
  }

  /** When every term after the first fails, only the first term's records
      are gathered. */
  lemma {:induction false} GatheredOnlyFirst(queries: seq<string>, responses: seq<TermResponse>, radius: nat)
    requires |queries| == |responses| >= 1
    requires forall i :: 1 <= i < |responses| ==> responses[i] == TermFailed
    ensures Gathered(queries, responses, radius) == TermContribution(queries[0], responses[0], radius)
  {
    var n := |queries| - 1;
    if n == 0 {
      assert Gathered(queries[..0], responses[..0], radius) == [];
    } else {
      GatheredOnlyFirst(queries[..n], responses[..n], radius);
      assert TermContribution(queries[n], responses[n], radius) == [];
    }
  }

  /** The ids the adapter as written returns are exactly `fallback_1` to
      `fallback_15`, whatever the provider answered; in particular none is
      shorter than `fallback_1`. */
  lemma AsWrittenIdsAreSynthetic(responses: seq<TermResponse>, radius: nat, draws: seq<FallbackDraw>)
    requires |responses| == |SearchQueries|
    requires ValidDraws(draws)
    ensures var r := SearchPlacesAsWritten(responses, radius, draws);
      forall id :: HasId(r, id) <==> exists n :: 1 <= n <= FallbackCount && id == FallbackId(n)
    ensures forall id :: |id| < 10 ==> !HasId(SearchPlacesAsWritten(responses, radius, draws), id)
  {
    var r := SearchPlacesAsWritten(responses, radius, draws);
    FallbackShape(draws);
    forall id | HasId(r, id) ensures exists n :: 1 <= n <= FallbackCount && id == FallbackId(n) {
      var k :| 0 <= k < |r| && r[k].id == id;
      assert WellFormedEntry(r[k]);
    }
    forall id | |id| < 10 ensures !HasId(r, id) {
      forall k | 0 <= k < |r| ensures r[k].id != id {
        var n :| 1 <= n <= FallbackCount && r[k].id == FallbackId(n);
        FallbackIdLength(n);
      }
    }
  }

  /** With one real result within the radius, the corrected adapter returns
      it, while the adapter as written returns none of it: every entry it
      returns is synthetic. */
  lemma AsWrittenDropsProviderResults(draws: seq<FallbackDraw>)
    requires ValidDraws(draws)
    ensures HasId(SearchPlaces(OneHitResponses(), DefaultRadius), "1")
    ensures !HasId(SearchPlacesAsWritten(OneHitResponses(), DefaultRadius, draws), "1")
  {
    var responses := OneHitResponses();
    var hit := SearchHit("1", "Кофейня, Тверская, Москва", "", "amenity", "cafe", 100);
    var place := HitPlace(hit, "cafe");
    GatheredOnlyFirst(SearchQueries, responses, DefaultRadius);
    assert [hit][..0] == [];
    assert TermPlaces("cafe", [hit], DefaultRadius) == [place];
    assert FirstOccurrences([place]) == [place];
    assert SearchPlaces(responses, DefaultRadius) == [place];
    AsWrittenIdsAreSynthetic(responses, DefaultRadius, draws);
  }
}
