# Favourite places: a verified model

The labex8 app keeps a list of favourite places on a map. Its state is one SQLite table,
`places`. The table has an `INTEGER PRIMARY KEY AUTOINCREMENT` id and NOT NULL columns for
name, latitude and longitude. `DatabaseHelper` owns the table. Two screens act on it:

- The list screen (`MainActivity`) shows the names of the places, newest first, or a
  placeholder line when there are none. A tap opens a place on the map; a long press
  deletes it.
- The map screen (`MapsActivity`) draws one marker per place. It saves a long-pressed
  coordinate under a name typed into a dialog.

The model has one Dafny module per part of the program:

- `Places` (places.dfy): the `Place` record, coordinates as opaque 64-bit values, and the
  Android result codes.
- `PlaceTable` (place_table.dfy): the meaning of each SQL statement the helper issues, as a
  function from table to table. A table is the map id → row plus the table's
  `sqlite_sequence` value, which is the largest id ever issued. This module also holds the
  `ORDER BY id DESC` listing, the lemmas about these functions, and runs of several
  statements in a row.
- `PlaceStore` (database_helper.dfy): `class DatabaseHelper`. Its fields are the rows and
  the sequence value. Every method that writes the table (`addPlace`, `updatePlace`,
  `deletePlace`, `deleteAllPlaces`, `onUpgrade`) and `getAllPlaces` are proved against the
  `PlaceTable` function for their statement. `getPlace` and `getPlacesCount` are specified
  directly on the rows. `getAllPlaces` is a loop: a descending scan over the issued ids
  that appends each stored row, with loop invariants.
- `ListScreen` (main_activity.dfy): `class MainActivity`, holding `favoritesList` and the
  handlers.
- `MapScreen` (maps_activity.dfy): `String.trim`, the naming dialog's choice of name, and
  `class MapsActivity` with its markers and result code.
- `Scenarios` (scenarios.dfy): short client runs against a new database. They show what a
  caller can conclude from the contracts alone, for example that ids are not reset by
  deleteAllPlaces but are reset by an upgrade.

AUTOINCREMENT is modelled as follows:

- SQLite documents only that a new id is larger than every id the table has ever issued,
  so ids are never reused, even after `DELETE`. The model fixes the engine's actual
  choice, one more than the largest id ever issued. The freshness lemmas (`InsertSpec`,
  `InsertAfterClear`, `RunIssuesFreshIds`) use only "larger". The exact ids in the
  scenarios (1, 2, 3 on a new table) depend on the +1.
- When the largest possible rowid (2^63 - 1) has been issued, the insert fails.
- `DROP TABLE` also drops the table's `sqlite_sequence` row, so `onUpgrade` starts ids at 1
  again.

An insert can fail for reasons the program cannot see. The model represents this as a
`fault` argument chosen by the environment. A failed insert returns -1 and leaves the
table as it was.

## Model

| member | source | states |
|---|---|---|
| PlaceTable.Insert | app/src/main/java/com/example/labex8/DatabaseHelper.java:22-27 | an insert keeps the AUTOINCREMENT invariant: every stored id lies between 1 and the largest id issued, which never exceeds 2^63 - 1 |
| PlaceTable.InsertSpec | app/src/main/java/com/example/labex8/DatabaseHelper.java:44-56 | an insert returns -1 exactly on failure or when the id space is used up, and then changes nothing; otherwise the returned id is above every id ever issued and every stored id, the table gains exactly that one key holding the given row, and every other row is unchanged |
| PlaceTable.InsertAfterClear | app/src/main/java/com/example/labex8/DatabaseHelper.java:130-134 | after deleting all rows, the next successful insert still gets an id above every id issued before |
| PlaceTable.Update | app/src/main/java/com/example/labex8/DatabaseHelper.java:108-122 | the count is 1 exactly when the id is stored and 0 exactly when it is not; the stored row is overwritten, and the keys, the sequence value and all other rows are unchanged; with no such row nothing changes |
| PlaceTable.Remove | app/src/main/java/com/example/labex8/DatabaseHelper.java:124-128 | exactly that id leaves the key set; the other rows and the sequence value are kept; the row count drops by one exactly when the id was stored; an absent id changes nothing |
| PlaceTable.Clear | app/src/main/java/com/example/labex8/DatabaseHelper.java:130-134 | no row is left and the sequence value is kept |
| PlaceTable.Listing | app/src/main/java/com/example/labex8/DatabaseHelper.java:58-82 | the query returns one entry per stored row |
| PlaceTable.ListingSpec | app/src/main/java/com/example/labex8/DatabaseHelper.java:61 | the query's result has strictly descending ids, exactly the stored ids, and every entry carries the columns stored under its id |
| PlaceTable.ListingFromIsListing | app/src/main/java/com/example/labex8/DatabaseHelper.java:64-75 | a descending scan from id k lists exactly the rows with ids 1..k, in descending order, with no id above k |
| PlaceTable.ListingSize | app/src/main/java/com/example/labex8/DatabaseHelper.java:136-144 | every correct listing has as many entries as the table has rows |
| PlaceTable.ListingUnique | app/src/main/java/com/example/labex8/DatabaseHelper.java:61 | `ORDER BY id DESC` determines the result: two listings of the same rows are equal |
| PlaceTable.ListingAfterInsert | app/src/main/java/com/example/labex8/DatabaseHelper.java:44-82 | after a successful insert, the listing is the new place followed by the old listing |
| PlaceTable.ListingAfterRemove | app/src/main/java/com/example/labex8/DatabaseHelper.java:124-128 | deleting the id listed at position i lists the old listing with exactly position i taken out |
| PlaceTable.ListingAfterClear | app/src/main/java/com/example/labex8/DatabaseHelper.java:130-134 | after deleting all rows the listing is empty |
| PlaceTable.Run | app/src/main/java/com/example/labex8/DatabaseHelper.java:44-134 | any run of inserts, updates, deletes and delete-alls keeps the table invariant |
| PlaceTable.RunCount | app/src/main/java/com/example/labex8/DatabaseHelper.java:44-134 | across a run, final rows plus rows removed equal initial rows plus successful inserts |
| PlaceTable.StepIssuesFreshId | app/src/main/java/com/example/labex8/DatabaseHelper.java:23 | one statement issues at most one id, above the sequence value before it and at most the value after it, and never lowers the sequence value |
| PlaceTable.RunIssuesFreshIds | app/src/main/java/com/example/labex8/DatabaseHelper.java:23 | across any run, even one with updates, deletes and delete-alls, the issued ids strictly increase, each is above the sequence value before the run and at most the value after it, and the sequence value never decreases |
| PlaceStore.DatabaseHelper.constructor | app/src/main/java/com/example/labex8/DatabaseHelper.java:29-36 | a new database holds an empty table that has issued no id |
| PlaceStore.DatabaseHelper.OnUpgrade | app/src/main/java/com/example/labex8/DatabaseHelper.java:39-42 | after drop and recreate the table exists with zero rows, and ids start again from 1 |
| PlaceStore.DatabaseHelper.AddPlace | app/src/main/java/com/example/labex8/DatabaseHelper.java:44-56 | the new state and returned id are those of the insert; on -1 nothing changed; otherwise the id is above the old sequence value and every stored id, and the rows gain exactly that id with the place's name and coordinates |
| PlaceStore.DatabaseHelper.GetAllPlaces | app/src/main/java/com/example/labex8/DatabaseHelper.java:58-82 | the list built by the descending scan is the table's listing, with one entry per row, and is empty rather than absent when the table is empty |
| PlaceStore.DatabaseHelper.GetPlace | app/src/main/java/com/example/labex8/DatabaseHelper.java:84-106 | a place is returned exactly when the id is stored, with that id and its columns as stored; otherwise null; an unsaved place's id 0 never matches |
| PlaceStore.DatabaseHelper.UpdatePlace | app/src/main/java/com/example/labex8/DatabaseHelper.java:108-122 | the new state is that of the update, and the count is 1 when the place's id was stored and 0 otherwise |
| PlaceStore.DatabaseHelper.DeletePlace | app/src/main/java/com/example/labex8/DatabaseHelper.java:124-128 | the new state is that of the delete |
| PlaceStore.DatabaseHelper.DeleteAllPlaces | app/src/main/java/com/example/labex8/DatabaseHelper.java:130-134 | the new state is that of the delete-all, which keeps the sequence value |
| PlaceStore.DatabaseHelper.GetPlacesCount | app/src/main/java/com/example/labex8/DatabaseHelper.java:136-144 | the count is the number of rows, and equals the length of every listing of the table |
| ListScreen.Names | app/src/main/java/com/example/labex8/MainActivity.java:113-115 | one name per place, in the same order |
| ListScreen.DisplayLines | app/src/main/java/com/example/labex8/MainActivity.java:109-121 | never empty; exactly the placeholder "Add a new place..." when there is no place; otherwise the places' names in order |
| ListScreen.MainActivity.constructor | app/src/main/java/com/example/labex8/MainActivity.java:27-46 | after creation the list shows the current store |
| ListScreen.MainActivity.LoadFavorites | app/src/main/java/com/example/labex8/MainActivity.java:109-121 | afterwards `favoritesList` is the display lines of the store's current listing |
| ListScreen.MainActivity.OnItemClick | app/src/main/java/com/example/labex8/MainActivity.java:61-76 | a place is opened exactly when the position is in [0, size); it is the place at that position of getAllPlaces, whose name the list shows at that position when the list is current |
| ListScreen.MainActivity.OnItemLongClick | app/src/main/java/com/example/labex8/MainActivity.java:84-104 | always returns true; for a position in [0, size) it deletes exactly the place listed there, which is the one whose name was shown there; the new listing is the old one without that entry, and the list shows it (the placeholder alone when it is empty); otherwise the store and the list are unchanged |
| ListScreen.MainActivity.OnActivityResult | app/src/main/java/com/example/labex8/MainActivity.java:127-133 | the list is reloaded when the request code is REQUEST_CODE_MAP and the result is RESULT_OK, and is left as it was otherwise |
| ListScreen.MainActivity.OnResume | app/src/main/java/com/example/labex8/MainActivity.java:137-144 | the list shows the current store |
| MapScreen.StartOfText | app/src/main/java/com/example/labex8/MapsActivity.java:146 | the index of the first character above U+0020, or the length when there is none |
| MapScreen.EndOfText | app/src/main/java/com/example/labex8/MapsActivity.java:146 | one past the last character above U+0020, or 0 when there is none |
| MapScreen.Trim | app/src/main/java/com/example/labex8/MapsActivity.java:146 | the result neither starts nor ends with a blank, and is empty exactly when the input is all blanks |
| MapScreen.TrimSplits | app/src/main/java/com/example/labex8/MapsActivity.java:146 | every string is a blank prefix, then its trimmed text, then a blank suffix |
| MapScreen.TrimPadded | app/src/main/java/com/example/labex8/MapsActivity.java:146 | a text without blanks at its ends, padded with any blanks on either side, trims back to itself |
| MapScreen.TrimIdempotent | app/src/main/java/com/example/labex8/MapsActivity.java:146 | trimming twice gives the same as trimming once |
| MapScreen.ChooseName | app/src/main/java/com/example/labex8/MapsActivity.java:146-149 | the saved name is the trimmed input when that is non-empty, otherwise the default name; it is never empty when the default is not |
| MapScreen.ChooseNamePadded | app/src/main/java/com/example/labex8/MapsActivity.java:146-149 | blanks typed around a name do not reach the store |
| MapScreen.MarkersFor | app/src/main/java/com/example/labex8/MapsActivity.java:180-185 | one marker per place, at its coordinates and titled with its name, in list order |
| MapScreen.MapsActivity.constructor | app/src/main/java/com/example/labex8/MapsActivity.java:35-48 | a new map screen has no marker and its result is RESULT_CANCELED |
| MapScreen.MapsActivity.SaveDialogPlace | app/src/main/java/com/example/labex8/MapsActivity.java:145-171 | the store receives the insert of the chosen name with exactly the pressed coordinates; only when that insert does not return -1 is one marker appended and RESULT_OK set; on -1 the markers and the result are unchanged |
| MapScreen.MapsActivity.LoadExistingMarkers | app/src/main/java/com/example/labex8/MapsActivity.java:178-186 | exactly one marker per stored place is appended, titled with its name, in getAllPlaces order |
| MapScreen.MapsActivity.AddMarkers | app/src/main/java/com/example/labex8/MapsActivity.java:180-185 | the loop appends the markers of the given places, in order |
| MapScreen.MapsActivity.OnBackPressed | app/src/main/java/com/example/labex8/MapsActivity.java:189-191 | going back always sets RESULT_OK |
| Scenarios.ThreeAddedListing | app/src/main/java/com/example/labex8/DatabaseHelper.java:44-82 | after adding A, B and C, the listing starts C, B, A under the next three ids, followed by the earlier listing |
| Scenarios.AddedThenDeleted | app/src/main/java/com/example/labex8/DatabaseHelper.java:44-128 | on a new table, adding A, B and C lists C, B, A under ids 3, 2, 1, and deleting id 2 lists C, A |
| Scenarios.DeleteSecondOfThree | app/src/main/java/com/example/labex8/DatabaseHelper.java:124-128 | deleting the middle one of three listed places leaves the outer two |
| Scenarios.AddThree | app/src/main/java/com/example/labex8/DatabaseHelper.java:44-56 | three successful addPlace calls leave the table of three inserts, and the first id is one above the old sequence value |
| Scenarios.AddThenList | app/src/main/java/com/example/labex8/DatabaseHelper.java:44-106 | on a new database, after adding A, B and C the names read C, B, A, and id 1 reads back as A with its columns |
| Scenarios.AddThenDeleteSecond | app/src/main/java/com/example/labex8/DatabaseHelper.java:44-144 | on a new database, after adding A, B and C and deleting the second listed place, the names read C, A and the count is 2 |
| Scenarios.ClearVersusUpgrade | app/src/main/java/com/example/labex8/DatabaseHelper.java:39-42 | after deleteAllPlaces the count is 0 and the next id is 3; after an upgrade the count is 0 and the next id is 1 |

## Left out

- Opening and closing `SQLiteDatabase` handles, the database file, and cursor mechanics
  such as `getColumnIndexOrThrow`. The table is modelled by its contents.
- Why an insert fails (disk full, I/O error, a constraint). This is the `fault` argument of
  `AddPlace` and `SaveDialogPlace`. The exhaustion of the id space at 2^63 - 1 is
  modelled.
- `updatePlace` and `deletePlace` failing inside SQLite. The model assumes they always
  succeed.
- The 32-bit narrowing that `cursor.getInt` and the `int` parameters of `getPlace` and
  `deletePlace` apply to ids above 2^31 - 1. Ids are unbounded integers here.
- Latitude and longitude are doubles in the program. Here they are opaque 64-bit values
  that are only stored, returned and compared for equality. What SQLite's REAL storage
  does to some doubles is not modelled. A value with no fractional part, -0.0 included,
  is stored as an integer, so -0.0 reads back as 0.0. A NaN is bound as NULL, so the NOT
  NULL constraint rejects the insert; in the model that case is one of the `fault`
  failures.
- `Place.java` is not part of this model. A place is a record (id, name, latitude,
  longitude), and a place built before it is saved is taken to have id 0.
- `onMapReady`: the camera moves, the Toronto default location, and the marker for a place
  opened from the list, which is chosen by a floating-point comparison with 0.
  `MapsActivity.onCreate` is modelled only as a constructor.
- Reverse geocoding and the timestamp fallback (`getAddressFromLocation`), which call
  `Geocoder` and the clock. The default name they produce is an input of
  `SaveDialogPlace`.
- Location permissions (`enableMyLocation`, `onRequestPermissionsResult`): platform calls
  with no logic to model.
- Intents, `startActivityForResult`, the adapter refresh calls, toasts and the dialog
  widgets. Only the decisions made inside the handlers are modelled. The place that
  `OnItemClick` returns is what the intent would carry.
