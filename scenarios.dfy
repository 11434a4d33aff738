/**
  Concrete runs of the store against a freshly created database, written as client
  methods: what a caller can conclude from the store's contracts alone.
 */
module Scenarios {
  import opened Places
  import opened PlaceTable
  import opened PlaceStore
  import ListScreen

  /** Newest first: after rows A, B and C are added, the list starts C, B, A, with the
      next three ids, above whatever was listed before. */
  lemma ThreeAddedListing(t: Table, ra: Row, rb: Row, rc: Row)
    requires Valid(t) && t.lastId + 3 <= MaxRowId
    ensures var t3 := Insert(Insert(Insert(t, ra, false).table, rb, false).table, rc, false).table;
      Listing(t3) == [PlaceAt(t.lastId + 3, rc), PlaceAt(t.lastId + 2, rb), PlaceAt(t.lastId + 1, ra)] + Listing(t)
  {
    var t1 := Insert(t, ra, false).table;
    var t2 := Insert(t1, rb, false).table;
    ListingAfterInsert(t, ra, false);
    ListingAfterInsert(t1, rb, false);
    ListingAfterInsert(t2, rc, false);
  }

  /** On a new table: after A, B and C are added the list shows C, B, A under ids 3, 2
      and 1; after B is deleted again it shows C, then A. */
  lemma AddedThenDeleted(ra: Row, rb: Row, rc: Row)
    ensures var t3 := Insert(Insert(Insert(Created(), ra, false).table, rb, false).table, rc, false).table;
      && Listing(t3) == [PlaceAt(3, rc), PlaceAt(2, rb), PlaceAt(1, ra)]
      && Listing(Remove(t3, 2)) == [PlaceAt(3, rc), PlaceAt(1, ra)]
      && 1 in t3.rows && t3.rows[1] == ra
  {
    var t3 := Insert(Insert(Insert(Created(), ra, false).table, rb, false).table, rc, false).table;
    ThreeAddedListing(Created(), ra, rb, rc);
    assert Listing(Created()) == [];
    DeleteSecondOfThree(t3);
  }

  /** Deleting the middle one of three listed places leaves the outer two. */
  lemma DeleteSecondOfThree(t: Table)
    requires Valid(t) && |Listing(t)| == 3
    ensures var l := Listing(t);
      Listing(Remove(t, l[1].id)) == [l[0], l[2]] && l[2].id in t.rows && t.rows[l[2].id] == RowOf(l[2])
  {
    var l := Listing(t);
    ListingSpec(t);
    ListingAfterRemove(t, 1);
    assert l[..1] + l[2..] == [l[0], l[2]];
  }

  lemma NamesOfThree(x: Place, y: Place, z: Place)
    ensures ListScreen.Names([x, y, z]) == [x.name, y.name, z.name]
  {
    var n := ListScreen.Names([x, y, z]);
    assert |n| == 3 && n[0] == x.name && n[1] == y.name && n[2] == z.name;
  }

  lemma NamesOfTwo(x: Place, y: Place)
    ensures ListScreen.Names([x, y]) == [x.name, y.name]
  {
    var n := ListScreen.Names([x, y]);
    assert |n| == 2 && n[0] == x.name && n[1] == y.name;
  }

  /** Three successful addPlace calls, A first; the id A was given. */
  method AddThree(store: DatabaseHelper, a: Place, b: Place, c: Place) returns (ida: int)
    requires store.Valid() && store.lastId + 3 <= MaxRowId
    modifies store
    ensures store.Valid()
    ensures store.State() ==
      Insert(Insert(Insert(old(store.State()), RowOf(a), false).table, RowOf(b), false).table, RowOf(c), false).table
    ensures ida == old(store.lastId) + 1
  {
    ida := store.AddPlace(a, false);
    var idb := store.AddPlace(b, false);
    var idc := store.AddPlace(c, false);
  }

  /** On a new database: add A, B and C; the list shows C, B, A and A reads back under
      id 1 with the columns it was added with. */
  method AddThenList(a: Place, b: Place, c: Place) returns (shown: seq<string>, found: Option<Place>)
    ensures shown == [c.name, b.name, a.name]
    ensures found == Some(Place(1, a.name, a.latitude, a.longitude))
  {
    var store := new DatabaseHelper();
    AddedThenDeleted(RowOf(a), RowOf(b), RowOf(c));
    var ida := AddThree(store, a, b, c);
    var all := store.GetAllPlaces();
    shown := ListScreen.Names(all);
    NamesOfThree(PlaceAt(3, RowOf(c)), PlaceAt(2, RowOf(b)), PlaceAt(1, RowOf(a)));
    found := store.GetPlace(ida);
  }

  /** On a new database: add A, B and C, then delete the second listed place (B); the
      list shows C, A and the count is 2. */
  method AddThenDeleteSecond(a: Place, b: Place, c: Place) returns (shown: seq<string>, count: int)
    ensures shown == [c.name, a.name]
    ensures count == 2
  {
    var store := new DatabaseHelper();
    AddedThenDeleted(RowOf(a), RowOf(b), RowOf(c));
    var ida := AddThree(store, a, b, c);
    var all := store.GetAllPlaces();
    store.DeletePlace(all[1].id);
    var rest := store.GetAllPlaces();
    shown := ListScreen.Names(rest);
    NamesOfTwo(PlaceAt(3, RowOf(c)), PlaceAt(1, RowOf(a)));
    count := store.GetPlacesCount();
  }

  /** DELETE FROM keeps the sequence: after deleteAllPlaces the count is 0 and the next
      id is still above every earlier one. An upgrade drops the table with its sequence:
      the count is 0 and ids start again at 1. */
  method ClearVersusUpgrade(a: Place, b: Place)
    returns (countAfterClear: int, idAfterClear: int, countAfterUpgrade: int, idAfterUpgrade: int)
    ensures countAfterClear == 0 && idAfterClear == 3
    ensures countAfterUpgrade == 0 && idAfterUpgrade == 1
  {
    var store := new DatabaseHelper();
    var ida := store.AddPlace(a, false);
    var idb := store.AddPlace(b, false);
    store.DeleteAllPlaces();
    countAfterClear := store.GetPlacesCount();
    idAfterClear := store.AddPlace(a, false);
    store.OnUpgrade(DatabaseVersion, DatabaseVersion + 1);
    countAfterUpgrade := store.GetPlacesCount();
    idAfterUpgrade := store.AddPlace(b, false);
  }
}
