/** Category resolution for both providers: `getPlaceType` for search-provider
    results and `getOverpassPlaceType` for spatial-query elements. */
module Category {
  import opened Text
  import opened Places

  /** The OpenStreetMap classes whose `type` is taken as the category. */
  const TaggedClasses: set<string> := {"amenity", "tourism", "leisure", "shop"}

  /** The fixed search-term to category table. */
  const TypeMap: map<string, string> := map[
    "cafe" := "cafe",
    "restaurant" := "restaurant",
    "pub" := "pub",
    "bar" := "bar",
    "bakery" := "bakery",
    "park" := "park",
    "garden" := "park",
    "playground" := "park",
    "museum" := "museum",
    "art_gallery" := "museum",
    "theatre" := "theatre",
    "cinema" := "cinema",
    "hotel" := "hotel",
    "supermarket" := "shop",
    "mall" := "shop",
    "library" := "library"
  ]

  /** `typeMap[query]`, with "" for a term the table does not hold. */
  function MappedCategory(query: string): string
  {
    if query in TypeMap then TypeMap[query] else ""
  }

  /** The category of a search-provider result with OSM class `cls` and type
      `typ`, found by search term `query` ("" when the caller passes none).
      A tagged class gives the provider's type, or the class name when the
      type is empty; otherwise the table's category for the term, else the
      term itself, else "unknown". The category is never empty. */
  function GetPlaceType(cls: string, typ: string, query: string): (r: string)
    ensures r != ""
    ensures cls in TaggedClasses ==> r == (if typ != "" then typ else cls)
    ensures cls !in TaggedClasses && query in TypeMap ==> r == TypeMap[query]
    ensures cls !in TaggedClasses && query !in TypeMap && query != "" ==> r == query
    ensures cls !in TaggedClasses && query !in TypeMap && query == "" ==> r == "unknown"
  {
    if cls == "amenity" then Or(typ, "amenity")
    else if cls == "tourism" then Or(typ, "tourism")
    else if cls == "leisure" then Or(typ, "leisure")
    else if cls == "shop" then Or(typ, "shop")
    else Or(Or(MappedCategory(query), query), "unknown")
  }

  /** Several search terms share a category; an unclassed result found
      without a search term is "unknown". */
  lemma PlaceTypeExamples(cls: string, typ: string)
    requires cls !in TaggedClasses
    ensures GetPlaceType(cls, typ, "garden") == "park"
    ensures GetPlaceType(cls, typ, "playground") == "park"
    ensures GetPlaceType(cls, typ, "art_gallery") == "museum"
    ensures GetPlaceType(cls, typ, "supermarket") == "shop"
    ensures GetPlaceType(cls, typ, "mall") == "shop"
    ensures GetPlaceType(cls, typ, "hostel") == "hostel"
    ensures GetPlaceType(cls, typ, "") == "unknown"
  {
  }

  /** The tags consulted by `getOverpassPlaceType`, highest priority first. */
  const OverpassTypeKeys: seq<string> := ["amenity", "tourism", "leisure", "shop"]

  /** The category of a spatial-query element: the value of the first of
      amenity, tourism, leisure and shop that is present, else "unknown". */
  function GetOverpassPlaceType(tags: Tags): (r: string)
    ensures r != ""
    ensures forall i :: 0 <= i < |OverpassTypeKeys| && Tag(tags, OverpassTypeKeys[i]) != ""
                        && (forall j :: 0 <= j < i ==> Tag(tags, OverpassTypeKeys[j]) == "")
                        ==> r == Tag(tags, OverpassTypeKeys[i])
    ensures (forall i :: 0 <= i < |OverpassTypeKeys| ==> Tag(tags, OverpassTypeKeys[i]) == "") ==> r == "unknown"
  {
    assert OverpassTypeKeys[0] == "amenity" && OverpassTypeKeys[1] == "tourism";
    assert OverpassTypeKeys[2] == "leisure" && OverpassTypeKeys[3] == "shop";
    if Tag(tags, "amenity") != "" then Tag(tags, "amenity")
    else if Tag(tags, "tourism") != "" then Tag(tags, "tourism")
    else if Tag(tags, "leisure") != "" then Tag(tags, "leisure")
    else if Tag(tags, "shop") != "" then Tag(tags, "shop")
    else "unknown"
  }
}
