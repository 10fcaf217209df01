/** The spatial-query adapter (`getPlacesFromOverpass`): keep named elements,
    normalize them, keep those within 5 km, sort by distance, keep 25. The
    query text, the HTTP request and the distance computation are outside the
    model: each element arrives with its distance already computed. */
module Overpass {
  import opened Places
  import opened Category
  import opened Address
  import opened Ranking

  /** A raw element of the Overpass answer; elements without tags carry the
      empty map. */
  datatype OverpassElement = OverpassElement(id: string, tags: Tags, distance: nat)

  /** How the single request ended: it failed, it answered without an
      `elements` array, or it answered with one. */
  datatype OverpassResponse = OverpassFailed | OverpassNoElements | OverpassData(elements: seq<OverpassElement>)

  /** 5 km, in hundredths of a kilometre. */
  const CutoffDistance: nat := 500

  const OverpassCap: nat := 25

  predicate IsNamed(e: OverpassElement)
  {
    Tag(e.tags, "name") != ""
  }

  predicate WithinCutoff(p: Place)
  {
    p.distance <= CutoffDistance
  }

  /** The normalized record of an element. */
  function ElementPlace(e: OverpassElement): Place
  {
    Place(e.id, Tag(e.tags, "name"), GetOverpassPlaceType(e.tags), OverpassAddress(e.tags), e.distance)
  }

  function ElementPlaces(es: seq<OverpassElement>): seq<Place>
  {
    seq(|es|, i requires 0 <= i < |es| => ElementPlace(es[i]))
  }

  /** Named elements within the cutoff, normalized, in answer order. */
  function Candidates(es: seq<OverpassElement>): seq<Place>
  {
    Filter(ElementPlaces(Filter(es, IsNamed)), WithinCutoff)
  }

  /** The `filter / map / filter / sort / slice` chain. */
  function OverpassPipeline(es: seq<OverpassElement>): seq<Place>
  {
    Truncate(SortByDistance(Candidates(es)), OverpassCap)
  }

  /** `getPlacesFromOverpass`: a failed request or an answer without
      elements gives the empty list. */
  function PlacesFromOverpass(response: OverpassResponse): seq<Place>
  {
    match response
    case OverpassFailed => []
    case OverpassNoElements => []
    case OverpassData(es) => OverpassPipeline(es)
  }

  /** The output is sorted by distance and holds min(25, n) entries, n being
      the number of named elements within 5 km; any such element left out is
      at least as far away as every entry kept. */
  lemma OverpassPipelineRanks(es: seq<OverpassElement>)
    ensures var r := OverpassPipeline(es);
      && SortedByDistance(r)
      && |r| == Min(OverpassCap, |Candidates(es)|)
      && |r| <= 25
      && (forall k, x :: 0 <= k < |r| && x in multiset(Candidates(es)) - multiset(r) ==> r[k].distance <= x.distance)
  {
    NearestAreKept(Candidates(es), OverpassCap);
  }

  /** Every entry of the output is the record of a named element of the
      answer, lies within 5 km and has a non-empty name and category. */
  lemma OverpassPipelineEntries(es: seq<OverpassElement>)
    ensures var r := OverpassPipeline(es);
      && (forall k :: 0 <= k < |r| ==> r[k].name != "" && r[k].kind != "" && r[k].distance <= 500)
      && (forall k :: 0 <= k < |r| ==> exists e :: e in es && IsNamed(e) && r[k] == ElementPlace(e))
  {
    var candidates := Candidates(es);
    var r := OverpassPipeline(es);
    TruncatedSortMembers(candidates, OverpassCap);
    forall k | 0 <= k < |r|
      ensures r[k].name != "" && r[k].kind != "" && r[k].distance <= 500
      ensures exists e :: e in es && IsNamed(e) && r[k] == ElementPlace(e)
    {
      CandidateOrigin(es, r[k]);
    }
  }

  /** A candidate is the record of a named element within the cutoff. */
  lemma CandidateOrigin(es: seq<OverpassElement>, x: Place)
    requires x in Candidates(es)
    ensures x.name != "" && x.kind != "" && x.distance <= 500
    ensures exists e :: e in es && IsNamed(e) && x == ElementPlace(e)
  {
    var named := Filter(es, IsNamed);
    var places := ElementPlaces(named);
    assert x in places;
    var i :| 0 <= i < |places| && places[i] == x;
    assert named[i] in named;
  }

  /** A failed request and an answer without elements both give nothing;
      whatever the answer, at most 25 entries come back. */
  lemma PlacesFromOverpassBounded(response: OverpassResponse)
    ensures |PlacesFromOverpass(response)| <= 25
    ensures SortedByDistance(PlacesFromOverpass(response))
    ensures !response.OverpassData? ==> PlacesFromOverpass(response) == []
  {
    if response.OverpassData? {
      OverpassPipelineRanks(response.elements);
    }
  }
}
