/** The synthetic place generator (`getFallbackPlaces`). Its random choices
    arrive as draws, one per generated place, already scaled to the ranges the
    generator maps `Math.random()` to. */
module Fallback {
  import opened Text
  import opened Places
  import opened Ranking

  /** The categories a synthetic place is drawn from. */
  const PlaceTypes: seq<string> := ["cafe", "restaurant", "park", "museum", "shop", "hotel"]

  /** The display names available for each category. */
  function PlaceNames(kind: string): seq<string>
  {
    if kind == "cafe" then ["Кофейня \"Уют\"", "Кофе Хаус", "Ароматная чашка", "Бодрое утро"]
    else if kind == "restaurant" then ["Ресторан \"Вкусно\"", "Итальянская кухня", "Суши-бар", "Гриль-хаус"]
    else if kind == "park" then ["Центральный парк", "Городской сад", "Парк Победы", "Сквер Отдыха"]
    else if kind == "museum" then ["Краеведческий музей", "Художественная галерея", "Музей истории"]
    else if kind == "shop" then ["Торговый центр", "Супермаркет", "Бутик", "Универмаг"]
    else if kind == "hotel" then ["Гостиница \"Комфорт\"", "Отель \"Престиж\"", "Мини-отель", "Апартаменты"]
    else []
  }

  /** The number of synthetic places. */
  const FallbackCount: nat := 15

  /** One iteration's random choices: the category index, the name index
      within that category, the house number of the address, and the
      distance in tenths of a kilometre (`(Math.random() * 2).toFixed(1)`). */
  datatype FallbackDraw = FallbackDraw(typeIndex: nat, nameIndex: nat, houseNumber: nat, distanceTenths: nat)

  /** The ranges `Math.floor(Math.random() * n)` and friends fall into. */
  predicate ValidDraw(d: FallbackDraw)
  {
    && d.typeIndex < |PlaceTypes|
    && d.nameIndex < |PlaceNames(PlaceTypes[d.typeIndex])|
    && 1 <= d.houseNumber <= 100
    && d.distanceTenths <= 20
  }

  predicate ValidDraws(draws: seq<FallbackDraw>)
  {
    |draws| == FallbackCount && forall i :: 0 <= i < |draws| ==> ValidDraw(draws[i])
  }

  /** `fallback_<n>`. */
  function FallbackId(n: nat): string
  {
    "fallback_" + NatToString(n)
  }

  /** The place pushed in iteration `i`. */
  function FallbackEntry(i: nat, d: FallbackDraw): Place
    requires ValidDraw(d)
  {
    var kind := PlaceTypes[d.typeIndex];
    Place(FallbackId(i + 1),
          PlaceNames(kind)[d.nameIndex] + " " + NatToString(i + 1),
          kind,
          "ул. Примерная, " + NatToString(d.houseNumber),
          d.distanceTenths * 10)
  }

  /** The places in the order the loop pushes them. */
  function Generated(draws: seq<FallbackDraw>): seq<Place>
    requires ValidDraws(draws)
  {
    seq(FallbackCount, i requires 0 <= i < FallbackCount => FallbackEntry(i, draws[i]))
  }

  /** The generator's result: the generated places sorted by distance. */
  function FallbackList(draws: seq<FallbackDraw>): seq<Place>
    requires ValidDraws(draws)
  {
    SortByDistance(Generated(draws))
  }

  /** `getFallbackPlaces`: push fifteen places in a counted loop, then sort. */
  method GetFallbackPlaces(draws: seq<FallbackDraw>) returns (places: seq<Place>)
    requires ValidDraws(draws)
    ensures places == FallbackList(draws)
  {
    var generated: seq<Place> := [];
    for i := 0 to FallbackCount
      invariant |generated| == i
      invariant forall k :: 0 <= k < i ==> generated[k] == FallbackEntry(k, draws[k])
    {
      var d := draws[i];
      var kind := PlaceTypes[d.typeIndex];
      var name := PlaceNames(kind)[d.nameIndex];
      generated := generated + [Place(FallbackId(i + 1), name + " " + NatToString(i + 1), kind,
                                      "ул. Примерная, " + NatToString(d.houseNumber), d.distanceTenths * 10)];
    }
    assert generated == Generated(draws);
    places := SortByDistance(generated);
  }

  /** Different positions get different ids. */
  lemma FallbackIdInjective(a: nat, b: nat)
    ensures FallbackId(a) == FallbackId(b) ==> a == b
  {
    if FallbackId(a) == FallbackId(b) {
      assert NatToString(a) == FallbackId(a)[9..];
      assert NatToString(b) == FallbackId(b)[9..];
      NatToStringInjective(a, b);
    }
  }

  /** A fallback id is longer than the prefix `fallback_`. */
  lemma FallbackIdLength(n: nat)
    ensures |FallbackId(n)| >= 10
  {
  }

  /** What every synthetic place satisfies: a category from the fixed list, a
      distance of at most 2 km and an id `fallback_<n>` with 1 <= n <= 15. */
  ghost predicate WellFormedEntry(p: Place)
  {
    && p.kind in PlaceTypes
    && p.distance <= 200
    && exists n :: 1 <= n <= FallbackCount && p.id == FallbackId(n)
  }

  /** The entries in push order are well formed, and entry `i` is `fallback_<i+1>`. */
  lemma GeneratedEntries(draws: seq<FallbackDraw>)
    requires ValidDraws(draws)
    ensures var g := Generated(draws);
      && DistinctIds(g)
      && (forall i :: 0 <= i < |g| ==> g[i].id == FallbackId(i + 1) && WellFormedEntry(g[i]))
  {
    var g := Generated(draws);
    forall i, j | 0 <= i < j < |g| ensures g[i].id != g[j].id {
      FallbackIdInjective(i + 1, j + 1);
    }
    forall i | 0 <= i < |g| ensures g[i].id == FallbackId(i + 1) && WellFormedEntry(g[i]) {
      assert g[i].id == FallbackId(i + 1);
    }
  }

  /** The generator always yields exactly fifteen places, sorted by distance,
      with the distinct ids `fallback_1` to `fallback_15`, a category from the
      fixed list and a distance of at most 2 km. */
  lemma FallbackShape(draws: seq<FallbackDraw>)
    requires ValidDraws(draws)
    ensures var r := FallbackList(draws);
      && |r| == FallbackCount
      && SortedByDistance(r)
      && DistinctIds(r)
      && (forall k :: 0 <= k < |r| ==> WellFormedEntry(r[k]))
      && (forall n :: 1 <= n <= FallbackCount ==> HasId(r, FallbackId(n)))
  {
    var g := Generated(draws);
    var r := FallbackList(draws);
    GeneratedEntries(draws);
    SortKeepsDistinctIds(g);
    forall k | 0 <= k < |r| ensures WellFormedEntry(r[k]) {
      assert r[k] in multiset(g);
    }
    forall n | 1 <= n <= FallbackCount ensures HasId(r, FallbackId(n)) {
      assert g[n - 1] in multiset(r);
    }
  }
}
