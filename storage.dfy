/** The service's two tables: visited places, keyed by the place id (the
    column is UNIQUE), and the search history. SQL, the driver and its
    asynchronous callbacks are outside the model; each statement becomes an
    update of a field, and `CURRENT_TIMESTAMP` arrives as a parameter. */
module Storage {
  import opened Places

  /** A row of `visited_places`. Coordinates and rating are not part of the
      model. */
  datatype VisitedRow = VisitedRow(rowId: nat, placeId: string, name: string, kind: string, address: string,
                                   visitCount: nat, lastVisited: nat, createdAt: nat)

  /** A row of `search_history`, without its coordinates. */
  datatype SearchRecord = SearchRecord(query: string, resultsCount: nat)

  /** What `saveVisitedPlace` resolves with: for a known id, the row read
      before the update with its count raised by one (its `lastVisited` is
      still the old one); for a new id, the given place with count 1. */
  datatype SavedVisit = Updated(row: VisitedRow) | Inserted(place: Place, visitCount: nat)

  /** The table after the upsert of `place` at time `now`, new rows taking
      the row id `nextRowId`. */
  function Upserted(table: map<string, VisitedRow>, nextRowId: nat, place: Place, now: nat): map<string, VisitedRow>
  {
    if place.id in table then
      var row := table[place.id];
      table[place.id := row.(visitCount := row.visitCount + 1, lastVisited := now)]
    else
      table[place.id := VisitedRow(nextRowId, place.id, place.name, place.kind, place.address, 1, now, now)]
  }

  /** What the upsert resolves with. */
  function SavedRow(table: map<string, VisitedRow>, place: Place): SavedVisit
  {
    if place.id in table then Updated(table[place.id].(visitCount := table[place.id].visitCount + 1))
    else Inserted(place, 1)
  }

  /** Rows are filed under their own place id, each was visited at least once,
      and row ids are distinct and below the next one to hand out. */
  predicate WellFormedTable(table: map<string, VisitedRow>, nextRowId: nat)
  {
    && (forall id :: id in table ==> table[id].placeId == id && table[id].visitCount >= 1 && table[id].rowId < nextRowId)
    && (forall a, b :: a in table && b in table && a != b ==> table[a].rowId != table[b].rowId)
  }

  /** The upsert counts the visit: a known id gets its count raised by one and
      its timestamp set, a new id gets a row with count 1 and the place's
      fields; the id is in the table afterwards and every other row is left
      as it was. */
  lemma UpsertCountsVisit(table: map<string, VisitedRow>, nextRowId: nat, place: Place, now: nat)
    ensures var t := Upserted(table, nextRowId, place, now);
      && t.Keys == table.Keys + {place.id}
      && t[place.id].visitCount == (if place.id in table then table[place.id].visitCount + 1 else 1)
      && t[place.id].lastVisited == now
      && (place.id !in table ==> t[place.id] == VisitedRow(nextRowId, place.id, place.name, place.kind, place.address, 1, now, now))
      && (place.id in table ==> t[place.id].(visitCount := table[place.id].visitCount, lastVisited := table[place.id].lastVisited) == table[place.id])
      && (forall id :: id in table && id != place.id ==> t[id] == table[id])
  {
  }

  /** The upsert keeps the table well formed when the next row id moves past a
      newly inserted row. */
  lemma UpsertKeepsWellFormed(table: map<string, VisitedRow>, nextRowId: nat, place: Place, now: nat)
    requires WellFormedTable(table, nextRowId)
    ensures WellFormedTable(Upserted(table, nextRowId, place, now),
                            if place.id in table then nextRowId else nextRowId + 1)
  {
  }

  /** The count a visit reports is the count stored after it; for a known id
      the rest of the reported row is the row as read before the update. */
  lemma SavedRowReportsCount(table: map<string, VisitedRow>, nextRowId: nat, place: Place, now: nat)
    requires WellFormedTable(table, nextRowId)
    ensures var saved, t := SavedRow(table, place), Upserted(table, nextRowId, place, now);
      && (saved.Updated? <==> place.id in table)
      && (saved.Updated? ==> saved.row.visitCount == t[place.id].visitCount && saved.row.placeId == place.id)
      && (saved.Updated? ==> saved.row.(visitCount := table[place.id].visitCount) == table[place.id])
      && (saved.Inserted? ==> saved.visitCount == t[place.id].visitCount == 1 && saved.place == place)
  {
  }

  /** Two visits of a new place leave it with count 2. */
  lemma SecondVisitCountsTwo(table: map<string, VisitedRow>, nextRowId: nat, place: Place, t1: nat, t2: nat)
    requires place.id !in table
    ensures Upserted(Upserted(table, nextRowId, place, t1), nextRowId + 1, place, t2)[place.id].visitCount == 2
  {
  }

  class Store {
    var visited: map<string, VisitedRow>
    var nextRowId: nat
    var history: seq<SearchRecord>

    ghost predicate Valid()
      reads this
    {
      WellFormedTable(visited, nextRowId)
    }

    /** Both tables empty. */
    constructor ()
      ensures Valid()
      ensures visited == map[] && history == [] && nextRowId == 1
    {
      visited := map[];
      nextRowId := 1;
      history := [];
    }

    /** `saveVisitedPlace`: look the place id up; update the found row's count
        and timestamp, or insert a new row with count 1. */
    method SaveVisitedPlace(place: Place, now: nat) returns (saved: SavedVisit)
      requires Valid()
      modifies this
      ensures Valid()
      ensures visited == Upserted(old(visited), old(nextRowId), place, now)
      ensures nextRowId == if place.id in old(visited) then old(nextRowId) else old(nextRowId) + 1
      ensures history == old(history)
      ensures saved == SavedRow(old(visited), place)
    {
      UpsertKeepsWellFormed(visited, nextRowId, place, now);
      if place.id in visited {
        var row := visited[place.id];
        visited := visited[place.id := row.(visitCount := row.visitCount + 1, lastVisited := now)];
        saved := Updated(row.(visitCount := row.visitCount + 1));
      } else {
        visited := visited[place.id := VisitedRow(nextRowId, place.id, place.name, place.kind, place.address, 1, now, now)];
        nextRowId := nextRowId + 1;
        saved := Inserted(place, 1);
      }
    }

    /** `INSERT INTO search_history`. */
    method RecordSearch(query: string, resultsCount: nat)
      modifies this
      ensures history == old(history) + [SearchRecord(query, resultsCount)]
      ensures visited == old(visited) && nextRowId == old(nextRowId)
    {
      history := history + [SearchRecord(query, resultsCount)];
    }
  }
}
