/**
  The map screen (`MapsActivity`): puts one marker on the map per stored place, and
  saves a long-pressed coordinate under the name typed into the naming dialog. Camera
  moves, reverse geocoding and location permissions are not modelled; the geocoded
  default name is an input.
 */
module MapScreen {
  import opened Places
  import opened PlaceTable
  import opened PlaceStore
  import opened ActivityResult

  // ---------------------------------------------------------------------------
  // java.lang.String.trim

  /** `String.trim` removes every character up to and including U+0020 at both ends. */
  predicate Blank(c: char)
  {
    c <= ' '
  }

  predicate AllBlank(s: string)
  {
    forall i :: 0 <= i < |s| ==> Blank(s[i])
  }

  /** `s` neither starts nor ends with a blank. */
  predicate Trimmed(s: string)
  {
    s == [] || (!Blank(s[0]) && !Blank(s[|s| - 1]))
  }

  /** The index of the first non-blank character, or |s| when there is none. */
  function StartOfText(s: string): (st: nat)
    ensures st <= |s|
    ensures forall i :: 0 <= i < st ==> Blank(s[i])
    ensures st < |s| ==> !Blank(s[st])
  {
    if s != [] && Blank(s[0]) then 1 + StartOfText(s[1..]) else 0
  }

  /** One past the last non-blank character, or 0 when there is none. */
  function EndOfText(s: string): (len: nat)
    ensures len <= |s|
    ensures forall i :: len <= i < |s| ==> Blank(s[i])
    ensures 0 < len ==> !Blank(s[len - 1])
  {
    if s != [] && Blank(s[|s| - 1]) then EndOfText(s[..|s| - 1]) else |s|
  }

  /** `String.trim`: the text between the first and the last non-blank character. */
  function Trim(s: string): (r: string)
    ensures Trimmed(r)
    ensures r == [] <==> AllBlank(s)
  {
    var st, len := StartOfText(s), EndOfText(s);
    if len <= st then [] else s[st..len]
  }

  /** What trim cuts off is blank padding: every string is a blank prefix, its trimmed
      text and a blank suffix. */
  lemma TrimSplits(s: string)
    ensures var st := StartOfText(s); var en := st + |Trim(s)|;
      && en <= |s|
      && AllBlank(s[..st]) && AllBlank(s[en..])
      && s == s[..st] + Trim(s) + s[en..]
  {
    var st, len := StartOfText(s), EndOfText(s);
    var en := st + |Trim(s)|;
    if len <= st {
      assert en == st == |s|;
    } else {
      assert en == len && Trim(s) == s[st..en];
    }
    assert s[..st] + s[st..en] + s[en..] == s;
  }

  /** `trim` is exactly "strip the blank padding": a string without blanks at its ends,
      padded on either side with any blanks, trims back to itself. */
  lemma TrimPadded(p: string, m: string, q: string)
    requires AllBlank(p) && AllBlank(q) && Trimmed(m)
    ensures Trim(p + m + q) == m
  {
    var s := p + m + q;
    if m == [] {
      assert AllBlank(s);
    } else {
      assert s[|p|] == m[0] && s[|p| + |m| - 1] == m[|m| - 1];
      assert StartOfText(s) == |p|;
      assert EndOfText(s) == |p| + |m|;
      assert s[|p|..|p| + |m|] == m;
    }
  }

  /** Trimming twice changes nothing more. */
  lemma TrimIdempotent(s: string)
    ensures Trim(Trim(s)) == Trim(s)
  {
    var t := Trim(s);
    assert [] + t + [] == t;
    TrimPadded([], t, []);
  }

  // ---------------------------------------------------------------------------
  // The naming dialog

  /** The name a place is saved under: what was typed, trimmed, or the default name
      offered by the dialog when the typed text is only blanks. */
  function ChooseName(input: string, defaultName: string): (name: string)
    ensures !AllBlank(input) ==> name == Trim(input) && name != [] && Trimmed(name)
    ensures AllBlank(input) ==> name == defaultName
    ensures defaultName != [] ==> name != []
  {
    var typed := Trim(input);
    if typed == [] then defaultName else typed
  }

  /** Blanks typed around a name do not reach the store. */
  lemma ChooseNamePadded(p: string, m: string, q: string, defaultName: string)
    requires AllBlank(p) && AllBlank(q) && Trimmed(m) && m != []
    ensures ChooseName(p + m + q, defaultName) == m
  {
    TrimPadded(p, m, q);
  }

  // ---------------------------------------------------------------------------
  // Markers

  /** A marker on the map: its position and title. */
  datatype Marker = Marker(latitude: Coord, longitude: Coord, title: string)

  /** One marker per place, at its coordinates and titled with its name, in list order. */
  function MarkersFor(ps: seq<Place>): (ms: seq<Marker>)
    ensures |ms| == |ps|
    ensures forall i :: 0 <= i < |ps| ==> ms[i] == Marker(ps[i].latitude, ps[i].longitude, ps[i].name)
  {
    if ps == [] then []
    else
      var last := ps[|ps| - 1];
      MarkersFor(ps[..|ps| - 1]) + [Marker(last.latitude, last.longitude, last.name)]
  }

  class MapsActivity {
    const dbHelper: DatabaseHelper
    /** The markers added to the map, in the order they were added. */
    var markers: seq<Marker>
    /** The result code handed back to the list screen. */
    var resultCode: int

    ghost predicate Valid()
      reads this, dbHelper
    {
      dbHelper.Valid()
    }

    /** onCreate: a new screen with an empty map and no result set yet. */
    constructor (db: DatabaseHelper)
      requires db.Valid()
      ensures dbHelper == db && Valid()
      ensures markers == [] && resultCode == ResultCanceled
    {
      dbHelper := db;
      markers := [];
      resultCode := ResultCanceled;
    }

    /** The Save button of showAddPlaceDialog: saves the pressed coordinate under the
        chosen name; only when addPlace did not return -1 is a marker added and RESULT_OK
        set. `fault` stands for a failure of the insert inside SQLite. */
    method SaveDialogPlace(latitude: Coord, longitude: Coord, input: string, defaultName: string, fault: bool)
      requires Valid()
      modifies this, dbHelper
      ensures Valid()
      ensures var name := ChooseName(input, defaultName);
        var r := Insert(old(dbHelper.State()), Row(name, latitude, longitude), fault);
        && dbHelper.State() == r.table
        && (r.id != InsertFailed ==>
              markers == old(markers) + [Marker(latitude, longitude, name)] && resultCode == ResultOk)
        && (r.id == InsertFailed ==>
              markers == old(markers) && resultCode == old(resultCode))
    {
      var placeName := ChooseName(input, defaultName);
      var place := NewPlace(placeName, latitude, longitude);
      var id := dbHelper.AddPlace(place, fault);
      if id != InsertFailed {
        markers := markers + [Marker(latitude, longitude, placeName)];
        resultCode := ResultOk;
      }
    }

    /** loadExistingMarkers: one marker per stored place, titled with its name, added in
        getAllPlaces order. */
    method LoadExistingMarkers()
      requires Valid()
      modifies this`markers
      ensures Valid()
      ensures markers == old(markers) + MarkersFor(Listing(dbHelper.State()))
    {
      var places := dbHelper.GetAllPlaces();
      AddMarkers(places);
    }

    /** The loop of loadExistingMarkers: a marker for each place, in order. */
    method AddMarkers(places: seq<Place>)
      modifies this`markers
      ensures markers == old(markers) + MarkersFor(places)
    {
      ghost var before := markers;
      for i := 0 to |places|
        invariant markers == before + MarkersFor(places[..i])
      {
        var place := places[i];
        assert places[..i + 1][..i] == places[..i];
        markers := markers + [Marker(place.latitude, place.longitude, place.name)];
      }
      assert places[..|places|] == places;
    }

    /** onBackPressed: going back always reports RESULT_OK. */
    method OnBackPressed()
      modifies this`resultCode
      ensures resultCode == ResultOk
    {
      resultCode := ResultOk;
    }
  }
}
