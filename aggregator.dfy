/** The nearby-places request (the first `/api/places` handler): both
    providers are asked at once, the spatial provider's list is preferred,
    then the search provider's, then the synthetic list; duplicates by id are
    removed, the search is logged, and the reply is built. Each provider's
    outcome is an input. */
module Aggregator {
  import opened Places
  import opened Dedup
  import opened Fallback
  import opened Overpass
  import opened Nominatim
  import opened Storage

  /** How one provider's promise settled. */
  datatype Settled = Fulfilled(value: seq<Place>) | Rejected

  /** The reply: a 400 for missing coordinates, or the list with its source
      tag and count. */
  datatype PlacesReply =
    | BadRequest(error: string)
    | PlacesFound(places: seq<Place>, source: string, count: nat)

  const MissingCoordinates: string := "Необходимы параметры lat и lng"

  predicate HasPlaces(s: Settled)
  {
    s.Fulfilled? && |s.value| > 0
  }

  /** The provider list the handler settles on, if any provider answered
      with a non-empty list. */
  function PreferredSource(nominatim: Settled, overpass: Settled): (r: Option<seq<Place>>)
    ensures r.Some? <==> HasPlaces(overpass) || HasPlaces(nominatim)
    ensures r.Some? ==> |r.value| > 0
    ensures HasPlaces(overpass) ==> r == Some(overpass.value)
    ensures !HasPlaces(overpass) && HasPlaces(nominatim) ==> r == Some(nominatim.value)
  {
    if HasPlaces(overpass) then Some(overpass.value)
    else if HasPlaces(nominatim) then Some(nominatim.value)
    else None
  }

  /** The list chosen before deduplication: the preferred provider's, or
      the synthetic one. */
  function SelectedPlaces(nominatim: Settled, overpass: Settled, draws: seq<FallbackDraw>): seq<Place>
    requires ValidDraws(draws)
  {
    match PreferredSource(nominatim, overpass)
    case Some(ps) => ps
    case None => FallbackList(draws)
  }

  /** The search-history key `places_near_<lat>_<lng>`. */
  function HistoryQuery(lat: string, lng: string): string
  {
    "places_near_" + lat + "_" + lng
  }

  /** The reply for the given query parameters and provider outcomes. */
  function NearbyReply(lat: string, lng: string, nominatim: Settled, overpass: Settled, draws: seq<FallbackDraw>): PlacesReply
    requires ValidDraws(draws)
  {
    if lat == "" || lng == "" then BadRequest(MissingCoordinates)
    else
      var unique := FirstOccurrences(SelectedPlaces(nominatim, overpass, draws));
      PlacesFound(unique, if |unique| > 0 then "openstreetmap" else "fallback", |unique|)
  }

  /** The handler: reject missing coordinates; pick the list; deduplicate
      it with the `reduce`; log the search; reply. */
  method PlacesNearby(store: Store, lat: string, lng: string, nominatim: Settled, overpass: Settled,
                      draws: seq<FallbackDraw>) returns (reply: PlacesReply)
    requires ValidDraws(draws)
    modifies store
    ensures reply == NearbyReply(lat, lng, nominatim, overpass, draws)
    ensures store.visited == old(store.visited) && store.nextRowId == old(store.nextRowId)
    ensures reply.BadRequest? ==> store.history == old(store.history)
    ensures reply.PlacesFound? ==>
      store.history == old(store.history) + [SearchRecord(HistoryQuery(lat, lng), reply.count)]
  {
    if lat == "" || lng == "" {
      return BadRequest(MissingCoordinates);
    }
    var places: seq<Place>;
    if overpass.Fulfilled? && |overpass.value| > 0 {
      places := overpass.value;
    } else if nominatim.Fulfilled? && |nominatim.value| > 0 {
      places := nominatim.value;
    } else {
      places := GetFallbackPlaces(draws);
    }
    var uniquePlaces := RemoveDuplicates(places);
    store.RecordSearch(HistoryQuery(lat, lng), |uniquePlaces|);
    reply := PlacesFound(uniquePlaces, if |uniquePlaces| > 0 then "openstreetmap" else "fallback", |uniquePlaces|);
  }

  /** With both coordinates given, the reply is never empty, its ids are
      distinct, its count is its length, and its source tag is always
      `openstreetmap`: the `fallback` tag cannot occur. Without them the reply
      is the 400. */
  lemma NearbyReplyShape(lat: string, lng: string, nominatim: Settled, overpass: Settled, draws: seq<FallbackDraw>)
    requires ValidDraws(draws)
    ensures var reply := NearbyReply(lat, lng, nominatim, overpass, draws);
      && (reply.BadRequest? <==> lat == "" || lng == "")
      && (reply.PlacesFound? ==>
            && |reply.places| > 0
            && DistinctIds(reply.places)
            && reply.count == |reply.places|
            && reply.source == "openstreetmap")
  {
    var selected := SelectedPlaces(nominatim, overpass, draws);
    FallbackShape(draws);
    FirstOccurrencesIds(selected);
  }

  /** The reply keeps exactly the ids of the chosen list; a chosen list
      without repeated ids comes back unchanged. */
  lemma NearbyReplyKeepsSelection(lat: string, lng: string, nominatim: Settled, overpass: Settled, draws: seq<FallbackDraw>)
    requires ValidDraws(draws)
    requires lat != "" && lng != ""
    ensures var selected, reply := SelectedPlaces(nominatim, overpass, draws), NearbyReply(lat, lng, nominatim, overpass, draws);
      && (forall id :: HasId(reply.places, id) <==> HasId(selected, id))
      && (DistinctIds(selected) ==> reply.places == selected)
  {
    var selected := SelectedPlaces(nominatim, overpass, draws);
    FirstOccurrencesIds(selected);
    if DistinctIds(selected) {
      FirstOccurrencesOfDistinct(selected);
    }
  }

  /** When neither provider has places, the reply is the synthetic list:
      fifteen places `fallback_1` to `fallback_15`. */
  lemma NoProviderGivesSynthetic(lat: string, lng: string, nominatim: Settled, overpass: Settled, draws: seq<FallbackDraw>)
    requires ValidDraws(draws)
    requires lat != "" && lng != ""
    requires !HasPlaces(nominatim) && !HasPlaces(overpass)
    ensures var reply := NearbyReply(lat, lng, nominatim, overpass, draws);
      && reply.places == FallbackList(draws)
      && |reply.places| == FallbackCount
      && forall n :: 1 <= n <= FallbackCount ==> HasId(reply.places, FallbackId(n))
  {
    FallbackShape(draws);
    FirstOccurrencesOfDistinct(FallbackList(draws));
  }

  /** Wired to the corrected adapters (the search provider at the default
      radius), the reply is sorted by distance and holds between 1 and 30
      places. */
  lemma NearbyWithAdapters(lat: string, lng: string, responses: seq<TermResponse>, answer: OverpassResponse,
                           draws: seq<FallbackDraw>)
    requires |responses| == |SearchQueries|
    requires ValidDraws(draws)
    requires lat != "" && lng != ""
    ensures var reply := NearbyReply(lat, lng, Fulfilled(SearchPlaces(responses, DefaultRadius)),
                                     Fulfilled(PlacesFromOverpass(answer)), draws);
      && SortedByDistance(reply.places)
      && 1 <= |reply.places| <= 30
  {
    var nominatim := Fulfilled(SearchPlaces(responses, DefaultRadius));
    var overpass := Fulfilled(PlacesFromOverpass(answer));
    var selected := SelectedPlaces(nominatim, overpass, draws);
    PlacesFromOverpassBounded(answer);
    SearchPlacesRanked(responses, DefaultRadius);
    FallbackShape(draws);
    assert SortedByDistance(selected) && |selected| <= 30;
    FirstOccurrencesSubset(selected);
    FirstOccurrencesIds(selected);
  }

  /** Wired to the search adapter as written, a spatial provider without
      places leaves the reply exactly the synthetic list the search adapter
      fell back to, whatever the search provider found. */
  lemma NearbyAsWrittenIsSynthetic(lat: string, lng: string, responses: seq<TermResponse>, searchDraws: seq<FallbackDraw>,
                                   draws: seq<FallbackDraw>)
    requires |responses| == |SearchQueries|
    requires ValidDraws(searchDraws) && ValidDraws(draws)
    requires lat != "" && lng != ""
    ensures NearbyReply(lat, lng, Fulfilled(SearchPlacesAsWritten(responses, DefaultRadius, searchDraws)),
                        Fulfilled([]), draws).places == FallbackList(searchDraws)
  {
    var nominatim := Fulfilled(SearchPlacesAsWritten(responses, DefaultRadius, searchDraws));
    var selected := SelectedPlaces(nominatim, Fulfilled([]), draws);
    assert selected == FallbackList(searchDraws);
    FallbackShape(searchDraws);
    FirstOccurrencesOfDistinct(selected);
  }
}
