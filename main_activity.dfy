/**
  The list screen (`MainActivity`): shows the names of the stored places, newest first,
  or a single placeholder line when there are none; a tap opens the tapped place on the
  map and a long press deletes it. Only the decisions inside the handlers are modelled;
  the adapter refresh, intents and toasts are not.
 */
module ListScreen {
  import opened Places
  import opened PlaceTable
  import opened PlaceStore
  import opened ActivityResult

  /** The line shown in place of the list when no place is stored. */
  const Placeholder: string := "Add a new place..."

  /** `REQUEST_CODE_MAP`: the request code under which the map screen is started to add places. */
  const RequestCodeMap: int := 1

  /** The names of a list of places, in the same order. */
  function Names(ps: seq<Place>): (names: seq<string>)
    ensures |names| == |ps|
    ensures forall i :: 0 <= i < |ps| ==> names[i] == ps[i].name
  {
    if ps == [] then [] else [ps[0].name] + Names(ps[1..])
  }

  /** The lines the list shows for a listing: one name per place, or the placeholder
      alone when there is no place, so the list is never empty. */
  function DisplayLines(ps: seq<Place>): (lines: seq<string>)
    ensures |lines| >= 1
    ensures ps == [] ==> lines == [Placeholder]
    ensures ps != [] ==> |lines| == |ps| && forall i :: 0 <= i < |ps| ==> lines[i] == ps[i].name
  {
    if ps == [] then [Placeholder] else Names(ps)
  }

  class MainActivity {
    const dbHelper: DatabaseHelper
    /** `favoritesList`, the lines the list view shows. */
    var favoritesList: seq<string>

    ghost predicate Valid()
      reads this, dbHelper
    {
      dbHelper.Valid()
    }

    /** The list shows the store as it is now. */
    ghost predicate Current()
      reads this, dbHelper
      requires Valid()
    {
      favoritesList == DisplayLines(Listing(dbHelper.State()))
    }

    /** onCreate: opens the helper on the database file and loads the list. */
    constructor (db: DatabaseHelper)
      requires db.Valid()
      ensures dbHelper == db
      ensures Valid() && Current()
    {
      dbHelper := db;
      new;
      LoadFavorites();
    }

    /** loadFavorites: rebuilds the list from getAllPlaces, adding the placeholder when
        the store is empty. */
    method LoadFavorites()
      requires Valid()
      modifies this`favoritesList
      ensures Valid() && Current()
    {
      var places := dbHelper.GetAllPlaces();
      favoritesList := [];
      for i := 0 to |places|
        invariant |favoritesList| == i
        invariant forall j :: 0 <= j < i ==> favoritesList[j] == places[j].name
      {
        favoritesList := favoritesList + [places[i].name];
      }
      if |favoritesList| == 0 {
        favoritesList := favoritesList + [Placeholder];
      }
      assert favoritesList == DisplayLines(places);
    }

    /** onItemClick: the place to show on the map (its coordinates and name go into the
        intent), or nothing when the placeholder or an out-of-range position was tapped. */
    method OnItemClick(position: int) returns (shown: Option<Place>)
      requires Valid()
      ensures shown.Some? <==> 0 <= position < |dbHelper.rows|
      ensures shown.Some? ==> shown.value == Listing(dbHelper.State())[position]
      ensures shown.Some? && Current() ==> favoritesList[position] == shown.value.name
    {
      var places := dbHelper.GetAllPlaces();
      if |places| == 0 {
        return None;
      }
      if 0 <= position < |places| {
        shown := Some(places[position]);
      } else {
        shown := None;
      }
    }

    /** onItemLongClick: deletes the place listed at `position` and reloads the list, or
        does nothing for the placeholder or an out-of-range position; it always reports
        the press as handled. The deleted place is the one whose name the list showed at
        that position, and the new list is the old one with that line taken out. */
    method OnItemLongClick(position: int) returns (handled: bool)
      requires Valid()
      modifies this, dbHelper
      ensures Valid() && handled
      ensures var before := Listing(old(dbHelper.State()));
        if 0 <= position < |before| then
          && dbHelper.State() == Remove(old(dbHelper.State()), before[position].id)
          && Listing(dbHelper.State()) == before[..position] + before[position + 1..]
          && Current()
        else
          && dbHelper.State() == old(dbHelper.State())
          && favoritesList == old(favoritesList)
      ensures old(Current()) && 0 <= position < |old(dbHelper.rows)| ==>
        Listing(old(dbHelper.State()))[position].name == old(favoritesList)[position]
    {
      var places := dbHelper.GetAllPlaces();
      if |places| == 0 {
        return true;
      }
      if 0 <= position < |places| {
        var place := places[position];
        ListingAfterRemove(dbHelper.State(), position);
        dbHelper.DeletePlace(place.id);
        LoadFavorites();
      }
      return true;
    }

    /** onActivityResult: the list is reloaded only when the map screen started for
        adding returns RESULT_OK. */
    method OnActivityResult(requestCode: int, resultCode: int)
      requires Valid()
      modifies this`favoritesList
      ensures Valid()
      ensures requestCode == RequestCodeMap && resultCode == ResultOk ==> Current()
      ensures !(requestCode == RequestCodeMap && resultCode == ResultOk) ==>
        favoritesList == old(favoritesList)
    {
      if requestCode == RequestCodeMap && resultCode == ResultOk {
        LoadFavorites();
      }
    }

    /** onResume: the list is reloaded every time the screen comes back. */
    method OnResume()
      requires Valid()
      modifies this`favoritesList
      ensures Valid() && Current()
    {
      LoadFavorites();
    }
  }
}
