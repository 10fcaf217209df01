# Nearby places: a Dafny model of the place-aggregation pipeline

The geolocation service answers "what is near this coordinate?" by asking two
OpenStreetMap-based providers for points of interest. It turns their
different answers into one normalized place record (id, name, category,
address, distance), removes duplicates by id, ranks by distance and falls
back to a synthetic list when neither provider has anything. It also keeps a
table of visited places, with a visit counter per place, and a log of
searches.

The model covers the core of `server.js`:

| module (file) | models |
|---|---|
| `Text` (text.dfy) | `String.split` on one character, `Array.join`, `a \|\| b` on optional strings, decimal rendering of counters |
| `Places` (places.dfy) | the normalized place record, OSM tags, `Array.filter`, `Math.min` |
| `Category` (category.dfy) | `getPlaceType`, `getOverpassPlaceType` |
| `Address` (address.dfy) | `formatShortAddress`, `getOverpassAddress` |
| `Ranking` (ranking.dfy) | sorting by distance (a stable sort, as `Array.sort` is) and `slice(0, n)` |
| `Dedup` (dedup.dfy) | the first-occurrence-by-id rule: the `find`/`push` accumulator and the `reduce` |
| `Overpass` (overpass.dfy) | the spatial-query adapter `getPlacesFromOverpass` |
| `Nominatim` (nominatim.dfy) | the search-provider adapter `getPlacesFromOSM` in nearby mode, both as written and as evidently intended |
| `Fallback` (fallback.dfy) | `getFallbackPlaces` |
| `Aggregator` (aggregator.dfy) | the first `/api/places` handler: provider preference, dedup, history entry, reply |
| `Storage` (storage.dfy) | `saveVisitedPlace` and the search-history insert over a table held as a map |

Modelling conventions:
- A distance is a `nat` in hundredths of a kilometre, which is the value the
  service renders with `toFixed(2)`. It is an input, so no haversine
  computation appears. The Overpass cutoff `distance <= 5` becomes
  `distance <= 500`. The search radius test `distance <= radius / 1000`
  becomes `10 * distance <= radius`, with the radius in metres.
- An absent or empty optional string is `""`, so JavaScript's `a || b` is
  `Text.Or(a, b)`. An absent OSM tag reads as `""`.
- Each network answer is an input: a per-term response for the search
  provider, one response for the spatial provider, and a settled-or-rejected
  outcome per provider for the handler. `Math.random()` values are inputs too,
  as draws already scaled to their ranges. `CURRENT_TIMESTAMP` is a
  parameter.
- Imperative code stays imperative:
  - the term loop of `getPlacesFromOSM`,
  - the `reduce` and the linear `find`,
  - the counted loop of `getFallbackPlaces`,
  - the push and `+=` of `getOverpassAddress`,
  - the upsert of `saveVisitedPlace`.

  Each of these is a method proved equal to a specification function, or
  proved to update the store as that function says. The pure parts are
  functions with lemmas.

Notes on the code's behaviour:
- The handler does not sort or truncate after deduplicating.
- The handler's `source` tag is `'openstreetmap'` for every non-empty list, including the
  synthetic one. The list is never empty, so the `'fallback'` tag is dead
  (`Aggregator.NearbyReplyShape`).
- Ids are the providers' raw ids, with no provider prefix.

## Model

| member | source | states |
|---|---|---|
| `Category.GetPlaceType` | server.js:127-163 | the category is never empty. A result of class amenity, tourism, leisure or shop gets its type, or else the class name. Otherwise it gets the table's category for the search term, else the term itself, else `unknown` |
| `Category.PlaceTypeExamples` | server.js:143-162 | for unclassed results, garden and playground map to park, art_gallery to museum, supermarket and mall to shop; an unmapped term is kept as is; no term gives `unknown` |
| `Category.GetOverpassPlaceType` | server.js:244-258 | the value of the first present tag among amenity, tourism, leisure, shop; `unknown` when none is present; never empty |
| `Address.ShortAddressSegments` | server.js:166-173 | a display string with at most two comma-separated segments comes back unchanged. Otherwise the result has min(3, n-1) segments, so at most three and never the last one. Its first segment is the input's first, and each later one is the input's segment at the same position, preceded by the space of `, ` |
| `Address.BuildOverpassAddress` | server.js:260-272 | the push / `+=` / push / join procedure computes the address function |
| `Address.OverpassAddressShape` | server.js:260-272 | when neither street nor city is present, the address is the placeholder. A house number without a street is ignored. A present street starts the address, directly followed by the house number. A present city ends it |
| `Address.OverpassAddressSegments` | server.js:260-272 | with comma-free tag values, splitting the address at commas gives back street, house number and city in order |
| `Text.SplitLength` | server.js:167 | `split` on one character yields one more piece than the separator occurs |
| `Text.JoinSplit` | server.js:167-172 | joining the pieces of a split with the same separator gives back the string |
| `Places.Filter` | server.js:217-230 | an entry is in the result exactly when it is in the input and passes; the result is never longer than the input |
| `Places.FilterMultiset` | server.js:217-230 | each entry that passes is kept as often as it occurs in the input, and no other entry is kept |
| `Places.FilterKeepsOrder` | server.js:217-230 | filtering a concatenation gives the concatenation of the filtered parts, so the kept entries stay in input order |
| `Places.FilterSingle` | server.js:217-230 | a single entry is kept exactly when it passes |
| `Ranking.SortByDistance` | server.js:231 | the sorted list is a permutation of the input, sorted by distance |
| `Ranking.NearestAreKept` | server.js:231-232 | sorting then keeping `cap` entries gives min(cap, n) sorted entries of the input, and every entry left out is at least as far away as each entry kept |
| `Ranking.SortKeepsDistinctIds` | server.js:117 | sorting never makes two entries share an id |
| `Overpass.OverpassPipelineRanks` | server.js:216-232 | the adapter's list is sorted by distance and holds min(25, n) entries, n being the number of named elements within 5 km; every such element left out is no nearer than the entries kept |
| `Overpass.OverpassPipelineEntries` | server.js:216-232 | every entry is the normalized record of a named element of the answer, has a non-empty name and category, and lies within 5 km |
| `Overpass.PlacesFromOverpassBounded` | server.js:215-241 | a failed request or an answer without elements gives the empty list; any answer gives at most 25 entries, sorted |
| `Dedup.FindById` | server.js:389 | `find` by id, as in the `reduce` here and the search loop at server.js:99: no result exactly when no entry has the id, otherwise the first entry with it |
| `Dedup.RemoveDuplicates` | server.js:388-393 | the `reduce` computes the first-occurrence list |
| `Dedup.FirstOccurrencesIds` | server.js:388-393 | the ids kept are pairwise distinct and are exactly the input's ids; the output is no longer than the input and empty only for an empty input |
| `Dedup.FirstOccurrencesPositions` | server.js:388-393 | the output is a subsequence of the input, in input order, made of the first entry of each id |
| `Dedup.FirstOccurrencesOfDistinct` | server.js:388-393 | a list whose ids are already distinct comes back unchanged |
| `Dedup.FirstOccurrencesIdempotent` | server.js:388-393 | deduplicating twice equals deduplicating once |
| `Dedup.FirstOccurrencesPrefix` | server.js:388-393 | appending entries never changes what was already kept |
| `Dedup.FirstOccurrencesSubset` | server.js:388-393 | every kept entry is an input entry, and a sorted input gives a sorted output |
| `Nominatim.GetPlacesFromSearch` | server.js:62-118 | the term loop, with its per-result radius test, `find`/`push` and skipping of failed terms, followed by sort and `slice(0, 30)`, computes the corrected adapter's list |
| `Nominatim.AddTermResults` | server.js:84-106 | the `forEach` over one term's results extends the accumulator to the first-occurrence list of everything gathered so far plus this term's records within the radius |
| `Nominatim.SearchPlacesRanked` | server.js:114-118 | the list has distinct ids, is sorted by distance and holds at most 30 entries |
| `Nominatim.SearchPlacesEntries` | server.js:84-98 | every entry lies within the radius and has a non-empty name and category |
| `Nominatim.GatheredEntries` | server.js:84-98 | every record gathered from any term lies within the radius and has a non-empty name and category |
| `Nominatim.FailedTermSkipped` | server.js:109-112 | a failed term adds nothing |
| `Nominatim.LaterTermKeepsAccumulated` | server.js:64-112 | a later term, failed or not, never removes or reorders places accumulated from earlier terms |
| `Nominatim.SearchPlacesAsWritten` | server.js:44-123 | as written, the adapter returns the fallback list of 15 synthetic places whatever the provider answers |
| `Nominatim.AsWrittenIdsAreSynthetic` | server.js:120-122 | as written, the ids returned are exactly `fallback_1` to `fallback_15`, whatever the provider answered; so no id shorter than `fallback_1`, such as the provider id `1`, is ever returned |
| `Nominatim.AsWrittenDropsProviderResults` | server.js:49 | for one result with id `1` within the radius, the corrected adapter returns it and the adapter as written does not |
| `Fallback.GetFallbackPlaces` | server.js:276-311 | the counted loop followed by the sort computes the synthetic list |
| `Fallback.FallbackShape` | server.js:289-310 | exactly 15 places, sorted by distance, with distinct ids `fallback_1` to `fallback_15`. Each has a category from the six-element list and a distance of at most 2 km |
| `Fallback.FallbackIdInjective` | server.js:299 | different positions get different ids |
| `Aggregator.PreferredSource` | server.js:376-385 | the spatial provider's list is chosen when it was fulfilled and non-empty. Else the search provider's list is chosen when it was fulfilled and non-empty. Else no provider list is chosen, and the fallback is used |
| `Aggregator.PlacesNearby` | server.js:351-415 | the handler replies 400 when a coordinate is missing. Otherwise it replies with the deduplicated chosen list and appends one search-history row with the list's length. The visited table is untouched |
| `Aggregator.NearbyReplyShape` | server.js:355-405 | the reply is the 400 exactly when a coordinate is missing. Otherwise its list is non-empty, its ids are distinct, `count` is its length and `source` is `openstreetmap` |
| `Aggregator.NearbyReplyKeepsSelection` | server.js:376-393 | the reply keeps exactly the ids of the chosen list; a chosen list without repeated ids comes back unchanged |
| `Aggregator.NoProviderGivesSynthetic` | server.js:382-385 | with no provider list, the reply is the synthetic list of `fallback_1` to `fallback_15` |
| `Aggregator.NearbyWithAdapters` | server.js:368-393 | wired to the corrected adapters, the reply is sorted by distance and holds 1 to 30 places |
| `Aggregator.NearbyAsWrittenIsSynthetic` | server.js:368-393 | wired to the search adapter as written, a spatial provider with no places makes the reply exactly the synthetic list the search adapter fell back to, whatever the search provider found |
| `Storage.UpsertCountsVisit` | server.js:325-342 | a known id gets its count raised by one and its timestamp set. A new id gets a row with count 1 and the place's fields. Every other row is unchanged, and the table's ids grow by exactly this id |
| `Storage.UpsertKeepsWellFormed` | server.js:314-347 | the upsert keeps every row filed under its own place id with count at least 1, and keeps row ids distinct |
| `Storage.SavedRowReportsCount` | server.js:327-341 | the resolved value reports the stored count. For a known id it is the row read before the update, with its count + 1 and everything else as read, the old `last_visited` included. For a new id it is the place with count 1 |
| `Storage.SecondVisitCountsTwo` | server.js:325-342 | two visits of a new place leave its count at 2 |
| `Storage.Store.SaveVisitedPlace` | server.js:314-347 | the method updates the table as the upsert function says and resolves with the saved row; the search history is untouched |
| `Storage.Store.RecordSearch` | server.js:396-399 | appends one search-history row and changes nothing else |

## Left out

- HTTP: Express routing, `cors`, JSON replies and the 500 path. The model
  keeps only the reply's content and the 400 for a missing coordinate.
- Network: the `axios` calls, the Overpass QL query text, the per-request
  timeouts and the one-second pause between search terms. Their outcomes are
  inputs.
- The `Promise.allSettled` fan-out: only its two outcomes are modelled.
- Distances: the haversine `calculateDistance` and `toFixed` are left out.
  Each result's distance arrives as one value in hundredths of a km. The
  search adapter tests the unrounded distance against the radius and stores
  the rounded one; the model uses one value for both.
- `parseFloat` of the query parameters, NaN coordinates and all coordinates
  (`lat`, `lng`) of place records.
- `Math.random()`: the fallback generator's coordinates and rating are left
  out. Its category, name, house number and distance choices are inputs.
- The search adapter's request parameters, including the `limit: 10` the
  provider applies. The model takes whatever results the provider returned.
- Exceptions thrown while normalizing a result are not modelled, for
  example a missing `display_name` or `place_id`. In the source such an
  exception ends that term's `forEach`: the results of the term pushed before
  it stay in the accumulator, the later results of the term are not looked
  at, and the one-second pause is skipped.
- The typeMap lookup with JavaScript prototype keys, such as the term
  `constructor`. The model's table holds only its sixteen entries.
- The duplicate `/api/places` handler at server.js:418-454 is left out,
  because Express routes every request to the first one. The same goes for
  the search route, the reverse-geocode route, the history endpoints and the
  `ORDER BY` interpolation.
- SQLite errors (the `reject` paths of `saveVisitedPlace`) and the
  asynchronous, fire-and-forget character of the history insert are left out.
  The coordinates and rating columns and the NOT NULL constraints are left
  out too.
- `Ranking.SortByDistance`: its contract states a sorted permutation but not
  stability. The model's insertion sort is stable, as `Array.sort` is, but no
  lemma states the order among equal distances.
- The React client (App.js) and the table definitions (init-db.js) are not
  part of this model.

## Findings

| source | as written | input that shows it | evidently intended | confidence | as-written member | corrected member |
|---|---|---|---|---|---|---|
| server.js:49 | `getPlacesFromOSM` first calls `calculateBoundingBox`, which is defined nowhere in the file. The call throws, and the catch at server.js:120-122 returns `getFallbackPlaces`. So the search adapter always answers with 15 synthetic places | any call, e.g. a provider answering term `cafe` with one result `place_id` 1 at 1 km: the result is absent and ids `fallback_1`..`fallback_15` are returned | build the bounding box and return the provider's results within the radius, deduplicated, sorted, capped at 30 | not executed | `Nominatim.SearchPlacesAsWritten`, `Nominatim.AsWrittenDropsProviderResults` | `Nominatim.SearchPlaces`, proved by `Nominatim.GetPlacesFromSearch`, `Nominatim.SearchPlacesRanked` and `Nominatim.SearchPlacesEntries` |
