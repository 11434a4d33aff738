/**
  The meaning of the single `places` table
  (`id INTEGER PRIMARY KEY AUTOINCREMENT, name TEXT NOT NULL, latitude REAL NOT NULL,
  longitude REAL NOT NULL`) as values: a map from id to row, plus the table's entry in
  SQLite's `sqlite_sequence`, the largest id ever issued for it. Each statement the
  store issues is a function from table to table; the store class is proved against them.
 */
module PlaceTable {
  import opened Places

  /** The largest rowid SQLite can assign (2^63 - 1). */
  const MaxRowId: int := 0x7FFF_FFFF_FFFF_FFFF

  /** What `SQLiteDatabase.insert` returns when the row was not written. */
  const InsertFailed: int := -1

  /** The non-key columns of one row; all three are NOT NULL. */
  datatype Row = Row(name: string, latitude: Coord, longitude: Coord)

  /** The table's rows by id, and its `sqlite_sequence` value. */
  datatype Table = Table(rows: map<int, Row>, lastId: int)

  /** Result of an INSERT: the new table and the returned id (or `InsertFailed`). */
  datatype Inserted = Inserted(table: Table, id: int)

  /** Result of an UPDATE: the new table and the number of rows affected. */
  datatype Updated = Updated(table: Table, count: int)

  /** AUTOINCREMENT's invariant: every stored id lies between 1 and the largest id ever issued. */
  predicate Valid(t: Table)
  {
    && 0 <= t.lastId <= MaxRowId
    && forall id :: id in t.rows ==> 1 <= id <= t.lastId
  }

  function RowOf(p: Place): Row
  {
    Row(p.name, p.latitude, p.longitude)
  }

  function PlaceAt(id: int, r: Row): Place
  {
    Place(id, r.name, r.latitude, r.longitude)
  }

  /** The table right after CREATE TABLE: no rows and no `sqlite_sequence` entry. */
  function Created(): Table
  {
    Table(map[], 0)
  }

  /** INSERT INTO places. AUTOINCREMENT issues one more than the largest id the table has
      ever issued. The statement fails, returning -1 and writing nothing, when the id space
      is used up (SQLITE_FULL) or when the engine reports an error for a reason the model
      cannot see, which `fault` stands for. */
  function Insert(t: Table, row: Row, fault: bool): (r: Inserted)
    requires Valid(t)
    ensures Valid(r.table)
  {
    if fault || t.lastId == MaxRowId then
      Inserted(t, InsertFailed)
    else
      var id := t.lastId + 1;
      Inserted(Table(t.rows[id := row], id), id)
  }

  /** What an insert promises: either -1 and no change, or an id above every id the table
      ever issued (so above every stored id) and exactly one new row, holding `row`. */
  lemma InsertSpec(t: Table, row: Row, fault: bool)
    requires Valid(t)
    ensures var r := Insert(t, row, fault);
      && (r.id == InsertFailed <==> fault || t.lastId == MaxRowId)
      && (r.id == InsertFailed ==> r.table == t)
      && (r.id != InsertFailed ==>
        && r.id > t.lastId
        && (forall id :: id in t.rows ==> id < r.id)
        && r.table.lastId == r.id
        && r.table.rows.Keys == t.rows.Keys + {r.id}
        && |r.table.rows| == |t.rows| + 1
        && r.table.rows[r.id] == row
        && (forall id :: id in t.rows ==> r.table.rows[id] == t.rows[id]))
  {
    var r := Insert(t, row, fault);
    if r.id != InsertFailed {
      assert r.id !in t.rows;
    }
  }

  /** UPDATE places SET name, latitude, longitude WHERE id = ?. */
  function Update(t: Table, id: int, row: Row): (r: Updated)
    ensures r.count == 1 <==> id in t.rows
    ensures r.count == 0 <==> id !in t.rows
    ensures r.table.lastId == t.lastId
    ensures r.table.rows.Keys == t.rows.Keys
    ensures id in t.rows ==> r.table.rows[id] == row
    ensures forall k :: k in t.rows && k != id ==> r.table.rows[k] == t.rows[k]
    ensures id !in t.rows ==> r.table == t
    ensures Valid(t) ==> Valid(r.table)
  {
    if id in t.rows then Updated(Table(t.rows[id := row], t.lastId), 1)
    else Updated(t, 0)
  }

  /** DELETE FROM places WHERE id = ?. */
  function Remove(t: Table, id: int): (r: Table)
    ensures r.lastId == t.lastId
    ensures r.rows.Keys == t.rows.Keys - {id}
    ensures forall k :: k in r.rows ==> r.rows[k] == t.rows[k]
    ensures |r.rows| == if id in t.rows then |t.rows| - 1 else |t.rows|
    ensures id !in t.rows ==> r == t
    ensures Valid(t) ==> Valid(r)
  {
    Table(t.rows - {id}, t.lastId)
  }

  /** DELETE FROM places: every row goes, but `sqlite_sequence` keeps its value. */
  function Clear(t: Table): (r: Table)
    ensures |r.rows| == 0
    ensures r.lastId == t.lastId
    ensures Valid(t) ==> Valid(r)
  {
    Table(map[], t.lastId)
  }

  // ---------------------------------------------------------------------------
  // SELECT * FROM places ORDER BY id DESC

  /** The ids appearing in a list of places. */
  function Ids(ps: seq<Place>): set<int>
  {
    set i | 0 <= i < |ps| :: ps[i].id
  }

  predicate Descending(ps: seq<Place>)
  {
    forall i, j :: 0 <= i < j < |ps| ==> ps[i].id > ps[j].id
  }

  /** `ps` is what `ORDER BY id DESC` returns for `rows`: strictly descending ids, exactly
      the stored ids, and every place carrying the columns stored under its id. */
  predicate IsListing(rows: map<int, Row>, ps: seq<Place>)
  {
    && Descending(ps)
    && Ids(ps) == rows.Keys
    && forall i :: 0 <= i < |ps| ==> ps[i].id in rows && RowOf(ps[i]) == rows[ps[i].id]
  }

  /** The rows whose ids lie in [1, k]. */
  function Window(rows: map<int, Row>, k: int): map<int, Row>
  {
    map id | id in rows && 1 <= id <= k :: rows[id]
  }

  /** A descending scan of the ids k, k - 1, ..., 1, keeping those that are stored. */
  function ListingFrom(rows: map<int, Row>, k: int): seq<Place>
    decreases k
  {
    if k <= 0 then []
    else if k in rows then [PlaceAt(k, rows[k])] + ListingFrom(rows, k - 1)
    else ListingFrom(rows, k - 1)
  }

  /** The scan lists the rows with ids in [1, k], in descending order. */
  lemma {:induction false} ListingFromIsListing(rows: map<int, Row>, k: int)
    ensures IsListing(Window(rows, k), ListingFrom(rows, k))
    ensures forall i :: 0 <= i < |ListingFrom(rows, k)| ==> ListingFrom(rows, k)[i].id <= k
    decreases k
  {
    if k <= 0 {
      assert Window(rows, k) == map[];
    } else {
      var rest := ListingFrom(rows, k - 1);
      ListingFromIsListing(rows, k - 1);
      assert Window(rows, k - 1) == Window(rows, k) - {k};
      if k in rows {
        ListingCons(Window(rows, k - 1), rest, k, rows[k]);
        assert Window(rows, k - 1)[k := rows[k]] == Window(rows, k);
      } else {
        assert Window(rows, k - 1) == Window(rows, k);
      }
    }
  }

  /** The result of `SELECT * FROM places ORDER BY id DESC` on a table. */
  function Listing(t: Table): (ps: seq<Place>)
    requires Valid(t)
    ensures |ps| == |t.rows|
  {
    ListingFromIsListing(t.rows, t.lastId);
    assert Window(t.rows, t.lastId) == t.rows;
    ListingSize(t.rows, ListingFrom(t.rows, t.lastId));
    ListingFrom(t.rows, t.lastId)
  }

  /** What the query promises: every stored row exactly once, each with its columns as
      stored, in strictly descending id order; so one entry per row. */
  lemma ListingSpec(t: Table)
    requires Valid(t)
    ensures IsListing(t.rows, Listing(t))
  {
    ListingFromIsListing(t.rows, t.lastId);
    assert Window(t.rows, t.lastId) == t.rows;
  }

  lemma {:induction false} IdsAppend(a: seq<Place>, b: seq<Place>)
    ensures Ids(a + b) == Ids(a) + Ids(b)
  {
    var ab := a + b;
    forall x | x in Ids(ab) ensures x in Ids(a) + Ids(b) {
      var i :| 0 <= i < |ab| && ab[i].id == x;
      if i < |a| { assert a[i] == ab[i]; } else { assert b[i - |a|] == ab[i]; }
    }
    forall x | x in Ids(a) + Ids(b) ensures x in Ids(ab) {
      if x in Ids(a) {
        var i :| 0 <= i < |a| && a[i].id == x;
        assert ab[i] == a[i];
      } else {
        var i :| 0 <= i < |b| && b[i].id == x;
        assert ab[|a| + i] == b[i];
      }
    }
  }

  /** Strictly descending ids are pairwise distinct, so there are as many as places. */
  lemma {:induction false} DescendingIdsCount(ps: seq<Place>)
    requires Descending(ps)
    ensures |Ids(ps)| == |ps|
  {
    if ps != [] {
      DescendingIdsCount(ps[1..]);
      assert Ids(ps) == {ps[0].id} + Ids(ps[1..]) by {
        IdsAppend([ps[0]], ps[1..]);
        assert [ps[0]] + ps[1..] == ps;
      }
      assert ps[0].id !in Ids(ps[1..]);
    }
  }

  /** A listing has exactly one entry per stored row. */
  lemma ListingSize(rows: map<int, Row>, ps: seq<Place>)
    requires IsListing(rows, ps)
    ensures |ps| == |rows|
  {
    DescendingIdsCount(ps);
    assert |rows.Keys| == |rows|;
  }

  /** The head of a non-empty listing is the largest stored id. */
  lemma ListingHeadIsMax(rows: map<int, Row>, ps: seq<Place>, id: int)
    requires IsListing(rows, ps) && id in rows
    ensures ps != [] && id <= ps[0].id
  {
    assert id in Ids(ps);
    var i :| 0 <= i < |ps| && ps[i].id == id;
  }

  /** The tail of a listing lists the rows without the head's id. */
  lemma ListingTail(rows: map<int, Row>, ps: seq<Place>)
    requires IsListing(rows, ps) && ps != []
    ensures IsListing(rows - {ps[0].id}, ps[1..])
  {
    assert Ids(ps) == {ps[0].id} + Ids(ps[1..]) by {
      IdsAppend([ps[0]], ps[1..]);
      assert [ps[0]] + ps[1..] == ps;
    }
    assert ps[0].id !in Ids(ps[1..]);
  }

  /** `ORDER BY id DESC` leaves no freedom: a table has exactly one listing. */
  lemma {:induction false} ListingUnique(rows: map<int, Row>, a: seq<Place>, b: seq<Place>)
    requires IsListing(rows, a) && IsListing(rows, b)
    ensures a == b
    decreases |a|
  {
    ListingSize(rows, a);
    ListingSize(rows, b);
    if a != [] {
      SameHead(rows, a, b);
      ListingUnique(rows - {a[0].id}, a[1..], b[1..]);
      SameHeadSameTail(a, b);
    }
  }

  lemma SameHeadSameTail(a: seq<Place>, b: seq<Place>)
    requires a != [] && b != [] && a[0] == b[0] && a[1..] == b[1..]
    ensures a == b
  {
    assert a == [a[0]] + a[1..] && b == [b[0]] + b[1..];
  }

  /** Two non-empty listings of the same rows start with the same place, and their tails
      list the same smaller table. */
  lemma SameHead(rows: map<int, Row>, a: seq<Place>, b: seq<Place>)
    requires IsListing(rows, a) && IsListing(rows, b) && a != [] && b != []
    ensures a[0] == b[0]
    ensures IsListing(rows - {a[0].id}, a[1..]) && IsListing(rows - {a[0].id}, b[1..])
  {
    ListingHeadIsMax(rows, a, b[0].id);
    ListingHeadIsMax(rows, b, a[0].id);
    ListingTail(rows, a);
    ListingTail(rows, b);
  }

  lemma IdsSingle(p: Place)
    ensures Ids([p]) == {p.id}
  {
    assert [p][0] == p;
    assert p.id in Ids([p]);
  }

  /** Putting a place with a larger id than every stored one in front of a listing
      lists the table with that row added. */
  lemma ListingCons(rows: map<int, Row>, ps: seq<Place>, id: int, row: Row)
    requires IsListing(rows, ps)
    requires forall k :: k in rows ==> k < id
    ensures IsListing(rows[id := row], [PlaceAt(id, row)] + ps)
  {
    var qs := [PlaceAt(id, row)] + ps;
    IdsAppend([PlaceAt(id, row)], ps);
    IdsSingle(PlaceAt(id, row));
    forall i | 0 <= i < |ps| ensures ps[i].id < id {
      assert ps[i].id in rows;
    }
    assert forall i :: 0 < i < |qs| ==> qs[i] == ps[i - 1];
  }

  /** A successful insert puts the new place first: inserting A, then B, then C lists C, B, A. */
  lemma ListingAfterInsert(t: Table, row: Row, fault: bool)
    requires Valid(t)
    requires Insert(t, row, fault).id != InsertFailed
    ensures var r := Insert(t, row, fault);
      Listing(r.table) == [PlaceAt(r.id, row)] + Listing(t)
  {
    var r := Insert(t, row, fault);
    InsertSpec(t, row, fault);
    ListingSpec(t);
    ListingSpec(r.table);
    ListingCons(t.rows, Listing(t), r.id, row);
    assert t.rows[r.id := row] == r.table.rows;
    ListingUnique(r.table.rows, [PlaceAt(r.id, row)] + Listing(t), Listing(r.table));
  }

  /** Taking the entry at position i out of a listing lists the table without that row. */
  lemma {:induction false} ListingWithout(rows: map<int, Row>, ps: seq<Place>, i: int)
    requires IsListing(rows, ps) && 0 <= i < |ps|
    ensures IsListing(rows - {ps[i].id}, ps[..i] + ps[i + 1..])
    decreases i
  {
    if i == 0 {
      ListingWithoutFirst(rows, ps);
    } else {
      ListingTail(rows, ps);
      ListingWithout(rows - {ps[0].id}, ps[1..], i - 1);
      ListingWithoutStep(rows, ps, i);
    }
  }

  lemma ListingWithoutFirst(rows: map<int, Row>, ps: seq<Place>)
    requires IsListing(rows, ps) && ps != []
    ensures IsListing(rows - {ps[0].id}, ps[..0] + ps[1..])
  {
    ListingTail(rows, ps);
    assert ps[..0] + ps[1..] == ps[1..];
  }

  /** The inductive step of ListingWithout: put the head back in front. */
  lemma ListingWithoutStep(rows: map<int, Row>, ps: seq<Place>, i: int)
    requires IsListing(rows, ps) && 0 < i < |ps|
    requires IsListing(rows - {ps[0].id} - {ps[1..][i - 1].id}, ps[1..][..i - 1] + ps[1..][i..])
    ensures IsListing(rows - {ps[i].id}, ps[..i] + ps[i + 1..])
  {
    var head, gone := ps[0], ps[i].id;
    var rest := ps[1..][..i - 1] + ps[1..][i..];
    var remaining := rows - {head.id} - {gone};
    assert ps[1..][i - 1] == ps[i];
    HeadIsLargest(rows, ps);
    assert head.id in rows && rows[head.id] == RowOf(head);
    assert remaining[head.id := RowOf(head)] == rows - {gone};
    SpliceAfterHead(ps, i);
    ListingCons(remaining, rest, head.id, RowOf(head));
    assert PlaceAt(head.id, RowOf(head)) == head;
  }

  lemma SpliceAfterHead(ps: seq<Place>, i: int)
    requires 0 < i < |ps|
    ensures ps[..i] + ps[i + 1..] == [ps[0]] + (ps[1..][..i - 1] + ps[1..][i..])
  {
    assert ps[..i] == [ps[0]] + ps[1..][..i - 1];
  }

  /** Every other stored id is below the head of a listing. */
  lemma HeadIsLargest(rows: map<int, Row>, ps: seq<Place>)
    requires IsListing(rows, ps) && ps != []
    ensures forall k :: k in rows && k != ps[0].id ==> k < ps[0].id
  {
    forall k | k in rows && k != ps[0].id ensures k < ps[0].id {
      ListingHeadIsMax(rows, ps, k);
    }
  }

  /** Deleting the place listed at position i lists the same places with that one taken out. */
  lemma ListingAfterRemove(t: Table, i: int)
    requires Valid(t) && 0 <= i < |Listing(t)|
    ensures Listing(Remove(t, Listing(t)[i].id)) == Listing(t)[..i] + Listing(t)[i + 1..]
  {
    var l := Listing(t);
    ListingSpec(t);
    ListingSpec(Remove(t, l[i].id));
    ListingWithout(t.rows, l, i);
    ListingUnique(Remove(t, l[i].id).rows, l[..i] + l[i + 1..], Listing(Remove(t, l[i].id)));
  }

  /** DELETE FROM does not reset AUTOINCREMENT: the first insert after it still gets an
      id above every id the table issued before. */
  lemma InsertAfterClear(t: Table, row: Row, fault: bool)
    requires Valid(t)
    ensures var r := Insert(Clear(t), row, fault);
      r.id != InsertFailed ==> r.id > t.lastId && forall id :: id in t.rows ==> id < r.id
  {
    InsertSpec(Clear(t), row, fault);
  }

  /** Deleting every row leaves nothing to list. */
  lemma ListingAfterClear(t: Table)
    requires Valid(t)
    ensures Listing(Clear(t)) == []
  {
  }

  // ---------------------------------------------------------------------------
  // Sequences of statements against one table

  /** A write the store can issue while the table exists: addPlace, updatePlace,
      deletePlace or deleteAllPlaces. */
  datatype Op = Add(row: Row, fault: bool) | Change(id: int, row: Row) | Delete(id: int) | DeleteAll

  /** The end table, the ids the successful inserts returned in order, and how many rows
      were added and removed. */
  datatype Outcome = Outcome(table: Table, issued: seq<int>, added: nat, removed: nat)

  function Step(t: Table, op: Op): (o: Outcome)
    requires Valid(t)
    ensures Valid(o.table)
  {
    match op
    case Add(row, fault) =>
      var r := Insert(t, row, fault);
      if r.id == InsertFailed then Outcome(t, [], 0, 0) else Outcome(r.table, [r.id], 1, 0)
    case Change(id, row) =>
      Outcome(Update(t, id, row).table, [], 0, 0)
    case Delete(id) =>
      Outcome(Remove(t, id), [], 0, if id in t.rows then 1 else 0)
    case DeleteAll =>
      Outcome(Clear(t), [], 0, |t.rows|)
  }

  function Run(t: Table, ops: seq<Op>): (o: Outcome)
    requires Valid(t)
    ensures Valid(o.table)
    decreases |ops|
  {
    if ops == [] then Outcome(t, [], 0, 0)
    else
      var first := Step(t, ops[0]);
      var rest := Run(first.table, ops[1..]);
      Outcome(rest.table, first.issued + rest.issued, first.added + rest.added, first.removed + rest.removed)
  }

  /** The row count moves only with successful inserts and with deletes that hit a row. */
  lemma {:induction false} RunCount(t: Table, ops: seq<Op>)
    requires Valid(t)
    ensures |Run(t, ops).table.rows| + Run(t, ops).removed == |t.rows| + Run(t, ops).added
    decreases |ops|
  {
    if ops != [] {
      if ops[0].Add? {
        InsertSpec(t, ops[0].row, ops[0].fault);
      }
      RunCount(Step(t, ops[0]).table, ops[1..]);
    }
  }

  /** AUTOINCREMENT never reuses an id, updates, deletes and delete-all included: the ids issued
      along any run strictly increase, each exceeds every id issued before the run, and
      none exceeds the table's final `sqlite_sequence` value. */
  lemma {:induction false} RunIssuesFreshIds(t: Table, ops: seq<Op>)
    requires Valid(t)
    ensures var o := Run(t, ops);
      && t.lastId <= o.table.lastId
      && (forall i :: 0 <= i < |o.issued| ==> t.lastId < o.issued[i] <= o.table.lastId)
      && (forall i, j :: 0 <= i < j < |o.issued| ==> o.issued[i] < o.issued[j])
    decreases |ops|
  {
    if ops != [] {
      var first := Step(t, ops[0]);
      StepIssuesFreshId(t, ops[0]);
      RunIssuesFreshIds(first.table, ops[1..]);
      var rest := Run(first.table, ops[1..]);
      IncreasingConcat(first.issued, rest.issued, t.lastId, first.table.lastId, rest.table.lastId);
    }
  }

  /** One statement issues at most one id, above the sequence value before it and equal to
      the value after it; no statement lowers the sequence value. */
  lemma StepIssuesFreshId(t: Table, op: Op)
    requires Valid(t)
    ensures var o := Step(t, op);
      && t.lastId <= o.table.lastId
      && |o.issued| <= 1
      && (forall i :: 0 <= i < |o.issued| ==> t.lastId < o.issued[i] <= o.table.lastId)
  {
    if op.Add? {
      InsertSpec(t, op.row, op.fault);
    }
  }

  /** Ids issued in (lo, mid] and then in (mid, hi], each run increasing, are together
      increasing and in (lo, hi]. */
  lemma IncreasingConcat(x: seq<int>, y: seq<int>, lo: int, mid: int, hi: int)
    requires lo <= mid <= hi
    requires forall i :: 0 <= i < |x| ==> lo < x[i] <= mid
    requires forall i, j :: 0 <= i < j < |x| ==> x[i] < x[j]
    requires forall i :: 0 <= i < |y| ==> mid < y[i] <= hi
    requires forall i, j :: 0 <= i < j < |y| ==> y[i] < y[j]
    ensures forall i :: 0 <= i < |x + y| ==> lo < (x + y)[i] <= hi
    ensures forall i, j :: 0 <= i < j < |x + y| ==> (x + y)[i] < (x + y)[j]
  {
  }
}
