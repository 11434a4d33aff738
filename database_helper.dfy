/**
  The store behind both screens: `DatabaseHelper`, an `SQLiteOpenHelper` over one
  database file holding the `places` table. The class keeps the table's rows and its
  `sqlite_sequence` value as fields; every method is proved against the table
  functions of PlaceTable.
 */
module PlaceStore {
  import opened Places
  import opened PlaceTable

  /** `DATABASE_VERSION`: raising it makes the helper call OnUpgrade. */
  const DatabaseVersion: int := 1

  class DatabaseHelper {
    /** The rows of `places`, by id. */
    var rows: map<int, Row>
    /** The table's `sqlite_sequence` value: the largest id it has ever issued. */
    var lastId: int

    function State(): Table
      reads this
    {
      Table(rows, lastId)
    }

    ghost predicate Valid()
      reads this
    {
      PlaceTable.Valid(State())
    }

    /** First opening of the database file: onCreate runs CREATE TABLE, so the table
        exists, is empty and has issued no id. */
    constructor ()
      ensures Valid()
      ensures State() == Created()
    {
      rows := map[];
      lastId := 0;
    }

    /** DROP TABLE IF EXISTS places, then onCreate. Dropping the table also drops its
        `sqlite_sequence` row, so every place is gone and ids start again from 1. */
    method OnUpgrade(oldVersion: int, newVersion: int)
      modifies this
      ensures Valid()
      ensures State() == Created()
      ensures |rows| == 0
    {
      rows := map[];
      lastId := 0;
    }

    /** addPlace: inserts the place's name and coordinates (its own id is not written) and
        returns the id the table assigned, or -1 with the table untouched when the write
        fails. `fault` stands for a failure inside SQLite that the model does not see. */
    method AddPlace(place: Place, fault: bool) returns (id: int)
      requires Valid()
      modifies this
      ensures Valid()
      ensures Inserted(State(), id) == Insert(old(State()), RowOf(place), fault)
      ensures id == InsertFailed ==> rows == old(rows) && lastId == old(lastId)
      ensures id != InsertFailed ==>
        && (forall k :: k in old(rows) ==> k < id)
        && id > old(lastId)
        && rows == old(rows)[id := RowOf(place)]
    {
      InsertSpec(State(), RowOf(place), fault);
      if fault || lastId == MaxRowId {
        id := InsertFailed;
      } else {
        id := lastId + 1;
        rows := rows[id := RowOf(place)];
        lastId := id;
      }
    }

    /** getAllPlaces: `SELECT * FROM places ORDER BY id DESC` into a fresh list, computed
        as a descending scan over the issued ids that appends each stored row. The list
        is empty, never absent, when the table is. */
    method GetAllPlaces() returns (places: seq<Place>)
      requires Valid()
      ensures places == Listing(State())
      ensures |places| == |rows|
    {
      places := [];
      var k := lastId;
      while k > 0
        invariant 0 <= k <= lastId
        invariant places + ListingFrom(rows, k) == ListingFrom(rows, lastId)
        decreases k
      {
        if k in rows {
          places := places + [PlaceAt(k, rows[k])];
        }
        k := k - 1;
      }
      assert ListingFrom(rows, 0) == [];
    }

    /** getPlace: the place stored under `id`, with its columns as stored, or null (None)
        when no row has that id. */
    method GetPlace(id: int) returns (place: Option<Place>)
      requires Valid()
      ensures place.Some? <==> id in rows
      ensures place.Some? ==> place.value.id == id && RowOf(place.value) == rows[id]
      ensures id == UnassignedId ==> place == None
    {
      if id in rows {
        place := Some(PlaceAt(id, rows[id]));
      } else {
        place := None;
      }
    }

    /** updatePlace: overwrites name, latitude and longitude of the row whose id is the
        place's id and returns the number of rows changed, 1 or 0. */
    method UpdatePlace(place: Place) returns (rowsAffected: int)
      requires Valid()
      modifies this
      ensures Valid()
      ensures Updated(State(), rowsAffected) == Update(old(State()), place.id, RowOf(place))
      ensures rowsAffected == (if place.id in old(rows) then 1 else 0)
    {
      if place.id in rows {
        rows := rows[place.id := RowOf(place)];
        rowsAffected := 1;
      } else {
        rowsAffected := 0;
      }
    }

    /** deletePlace: removes the row with that id, if there is one. */
    method DeletePlace(id: int)
      requires Valid()
      modifies this
      ensures Valid()
      ensures State() == Remove(old(State()), id)
    {
      rows := rows - {id};
    }

    /** deleteAllPlaces: `DELETE FROM places`. The rows go; `sqlite_sequence` stays. */
    method DeleteAllPlaces()
      requires Valid()
      modifies this
      ensures Valid()
      ensures State() == Clear(old(State()))
    {
      rows := map[];
    }

    /** getPlacesCount: the number of rows `SELECT * FROM places` yields, which is the
        length of every listing of the table. */
    method GetPlacesCount() returns (count: int)
      requires Valid()
      ensures count == |rows|
      ensures forall ps :: IsListing(rows, ps) ==> count == |ps|
    {
      count := |rows|;
      forall ps | IsListing(rows, ps) ensures count == |ps| {
        ListingSize(rows, ps);
      }
    }
  }
}
