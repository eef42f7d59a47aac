/**
 * The `fuel_entries` table and the queries and writes of the fuel DAO.
 *
 * The table is a sequence of rows in no particular order (an SQL table has none);
 * every query that orders its result does so by `dateTime`, as its SQL does.
 */
module Dao {
  import opened Wrappers
  import opened Entity

  // ---------------------------------------------------------------------------
  // Table invariants
  // ---------------------------------------------------------------------------

  /** The unique index on `dateTime`. */
  ghost predicate UniqueTimes(rows: seq<FuelEntry>) {
    forall i, j :: 0 <= i < |rows| && 0 <= j < |rows| && i != j ==> rows[i].dateTime != rows[j].dateTime
  }

  /** The primary key on `id`. */
  ghost predicate UniqueIds(rows: seq<FuelEntry>) {
    forall i, j :: 0 <= i < |rows| && 0 <= j < |rows| && i != j ==> rows[i].id != rows[j].id
  }

  /** What the table's constraints guarantee of every stored state; 0 is never a stored id. */
  ghost predicate WellFormed(rows: seq<FuelEntry>) {
    UniqueTimes(rows) && UniqueIds(rows) && forall x :: x in rows ==> x.id != 0
  }

  // ---------------------------------------------------------------------------
  // WHERE clauses
  // ---------------------------------------------------------------------------

  /** The row filters that the queries use. */
  datatype Where =
    | Before(t: int)                // dateTime < t
    | After(t: int)                 // dateTime > t
    | At(t: int)                    // dateTime = t
    | FullBefore(t: int)            // isFullTank = 1 AND dateTime < t
    | FullAfter(t: int)             // isFullTank = 1 AND dateTime > t
    | FullFrom(t: int)              // isFullTank = 1 AND dateTime >= t
    | Between(lo: int, hi: int)     // dateTime > lo AND dateTime < hi
    | Through(lo: int, hi: int)     // dateTime > lo AND dateTime <= hi

  predicate Matches(w: Where, e: FuelEntry) {
    match w
    case Before(t) => e.dateTime < t
    case After(t) => e.dateTime > t
    case At(t) => e.dateTime == t
    case FullBefore(t) => e.isFullTank && e.dateTime < t
    case FullAfter(t) => e.isFullTank && e.dateTime > t
    case FullFrom(t) => e.isFullTank && e.dateTime >= t
    case Between(lo, hi) => lo < e.dateTime < hi
    case Through(lo, hi) => lo < e.dateTime <= hi
  }

  /** `x` is a row that matches `w` and no matching row is later (`ORDER BY dateTime DESC LIMIT 1`). */
  ghost predicate IsLatest(rows: seq<FuelEntry>, w: Where, x: FuelEntry) {
    x in rows && Matches(w, x) && forall y :: y in rows && Matches(w, y) ==> y.dateTime <= x.dateTime
  }

  /** `x` is a row that matches `w` and no matching row is earlier (`ORDER BY dateTime ASC LIMIT 1`). */
  ghost predicate IsEarliest(rows: seq<FuelEntry>, w: Where, x: FuelEntry) {
    x in rows && Matches(w, x) && forall y :: y in rows && Matches(w, y) ==> x.dateTime <= y.dateTime
  }

  ghost predicate NoneMatch(rows: seq<FuelEntry>, w: Where) {
    forall y :: y in rows ==> !Matches(w, y)
  }

  // ---------------------------------------------------------------------------
  // Generic scans
  // ---------------------------------------------------------------------------

  /** Position of a latest matching row. */
  function LatestIndex(rows: seq<FuelEntry>, w: Where): (r: Option<nat>)
    ensures r.Some? ==> r.value < |rows| && Matches(w, rows[r.value])
    ensures r.Some? ==> forall j :: 0 <= j < |rows| && Matches(w, rows[j]) ==> rows[j].dateTime <= rows[r.value].dateTime
    ensures r.None? <==> forall j :: 0 <= j < |rows| ==> !Matches(w, rows[j])
  {
    if |rows| == 0 then None
    else
      var rest := LatestIndex(rows[..|rows| - 1], w);
      var last := rows[|rows| - 1];
      if Matches(w, last) && (rest.None? || rows[rest.value].dateTime <= last.dateTime) then Some(|rows| - 1)
      else rest
  }

  /** Position of an earliest matching row. */
  function EarliestIndex(rows: seq<FuelEntry>, w: Where): (r: Option<nat>)
    ensures r.Some? ==> r.value < |rows| && Matches(w, rows[r.value])
    ensures r.Some? ==> forall j :: 0 <= j < |rows| && Matches(w, rows[j]) ==> rows[r.value].dateTime <= rows[j].dateTime
    ensures r.None? <==> forall j :: 0 <= j < |rows| ==> !Matches(w, rows[j])
  {
    if |rows| == 0 then None
    else
      var rest := EarliestIndex(rows[..|rows| - 1], w);
      var last := rows[|rows| - 1];
      if Matches(w, last) && (rest.None? || last.dateTime <= rows[rest.value].dateTime) then Some(|rows| - 1)
      else rest
  }

  function EntryAt(rows: seq<FuelEntry>, i: Option<nat>): Option<FuelEntry>
    requires i.Some? ==> i.value < |rows|
  {
    if i.Some? then Some(rows[i.value]) else None
  }

  function Latest(rows: seq<FuelEntry>, w: Where): (r: Option<FuelEntry>)
    ensures r.Some? ==> IsLatest(rows, w, r.value)
    ensures r.None? <==> NoneMatch(rows, w)
  {
    EntryAt(rows, LatestIndex(rows, w))
  }

  function Earliest(rows: seq<FuelEntry>, w: Where): (r: Option<FuelEntry>)
    ensures r.Some? ==> IsEarliest(rows, w, r.value)
    ensures r.None? <==> NoneMatch(rows, w)
  {
    EntryAt(rows, EarliestIndex(rows, w))
  }

  /** `IFNULL(SUM(quantity), 0)` over the matching rows. */
  function SumQuantity(rows: seq<FuelEntry>, w: Where): (s: real)
    ensures NoneMatch(rows, w) ==> s == 0.0
  {
    if |rows| == 0 then 0.0
    else
      var last := rows[|rows| - 1];
      assert forall x :: x in rows[..|rows| - 1] ==> x in rows;
      SumQuantity(rows[..|rows| - 1], w) + (if Matches(w, last) then last.quantity else 0.0)
  }

  /** The matching rows, in table order. */
  function Select(rows: seq<FuelEntry>, w: Where): (r: seq<FuelEntry>)
    ensures forall x :: x in r <==> x in rows && Matches(w, x)
    ensures |r| <= |rows|
  {
    if |rows| == 0 then []
    else
      var last := rows[|rows| - 1];
      assert rows == rows[..|rows| - 1] + [last];
      Select(rows[..|rows| - 1], w) + (if Matches(w, last) then [last] else [])
  }

  // ---------------------------------------------------------------------------
  // Ordering (ORDER BY dateTime)
  // ---------------------------------------------------------------------------

  ghost predicate Ascending(s: seq<FuelEntry>) {
    forall i, j :: 0 <= i < j < |s| ==> s[i].dateTime <= s[j].dateTime
  }

  ghost predicate Descending(s: seq<FuelEntry>) {
    forall i, j :: 0 <= i < j < |s| ==> s[i].dateTime >= s[j].dateTime
  }

  function InsertByTime(x: FuelEntry, s: seq<FuelEntry>): (r: seq<FuelEntry>)
    requires Ascending(s)
    ensures Ascending(r)
    ensures multiset(r) == multiset(s) + multiset{x}
  {
    if |s| == 0 then [x]
    else if x.dateTime <= s[0].dateTime then
      FrontOfAscending(x, s);
      AscendingCons(x, s);
      [x] + s
    else
      AscendingTail(s);
      var rest := InsertByTime(x, s[1..]);
      InsertedBehindHead(x, s, rest);
      [s[0]] + rest
  }

  lemma AscendingTail(s: seq<FuelEntry>)
    requires Ascending(s) && |s| > 0
    ensures Ascending(s[1..])
  {
    forall i, j | 0 <= i < j < |s[1..]| ensures s[1..][i].dateTime <= s[1..][j].dateTime {
      assert s[1..][i] == s[i + 1] && s[1..][j] == s[j + 1];
    }
  }

  lemma FrontOfAscending(x: FuelEntry, s: seq<FuelEntry>)
    requires Ascending(s) && |s| > 0 && x.dateTime <= s[0].dateTime
    ensures forall y :: y in s ==> x.dateTime <= y.dateTime
  {
    forall y | y in s ensures x.dateTime <= y.dateTime {
      var j :| 0 <= j < |s| && s[j] == y;
      if j > 0 {
        assert s[0].dateTime <= s[j].dateTime;
      }
    }
  }

  /** `x` inserted into the tail of `s`, behind its head, gives the head followed by the ordered rest. */
  lemma InsertedBehindHead(x: FuelEntry, s: seq<FuelEntry>, rest: seq<FuelEntry>)
    requires Ascending(s) && |s| > 0 && s[0].dateTime < x.dateTime
    requires Ascending(rest) && multiset(rest) == multiset(s[1..]) + multiset{x}
    ensures Ascending([s[0]] + rest)
    ensures multiset([s[0]] + rest) == multiset(s) + multiset{x}
  {
    assert s == [s[0]] + s[1..];
    forall y | y in rest ensures s[0].dateTime <= y.dateTime {
      assert y in multiset(rest);
      if y != x {
        assert y in multiset(s[1..]);
        var j :| 0 <= j < |s[1..]| && s[1..][j] == y;
        assert s[j + 1] == y;
      }
    }
    AscendingCons(s[0], rest);
  }

  /** Putting in front a row no later than every row keeps the order. */
  lemma AscendingCons(x: FuelEntry, s: seq<FuelEntry>)
    requires Ascending(s) && forall y :: y in s ==> x.dateTime <= y.dateTime
    ensures Ascending([x] + s)
  {
    var r := [x] + s;
    forall i, j | 0 <= i < j < |r| ensures r[i].dateTime <= r[j].dateTime {
      if i == 0 {
        assert r[j] == s[j - 1];
      } else {
        assert r[i] == s[i - 1] && r[j] == s[j - 1];
      }
    }
  }

  function SortByTime(rows: seq<FuelEntry>): (r: seq<FuelEntry>)
    ensures Ascending(r)
    ensures multiset(r) == multiset(rows)
  {
    if |rows| == 0 then []
    else
      assert rows == rows[..|rows| - 1] + [rows[|rows| - 1]];
      InsertByTime(rows[|rows| - 1], SortByTime(rows[..|rows| - 1]))
  }

  function Reverse(s: seq<FuelEntry>): (r: seq<FuelEntry>)
    ensures |r| == |s|
    ensures forall i :: 0 <= i < |s| ==> r[i] == s[|s| - 1 - i]
    ensures multiset(r) == multiset(s)
  {
    if |s| == 0 then []
    else
      assert s == s[..|s| - 1] + [s[|s| - 1]];
      [s[|s| - 1]] + Reverse(s[..|s| - 1])
  }

  // ---------------------------------------------------------------------------
  // Queries
  // ---------------------------------------------------------------------------

  /** `SELECT * FROM fuel_entries ORDER BY dateTime`. */
  function GetAllOnce(rows: seq<FuelEntry>): (r: seq<FuelEntry>)
    ensures Ascending(r) && multiset(r) == multiset(rows)
  {
    SortByTime(rows)
  }

  /** `SELECT * FROM fuel_entries ORDER BY dateTime DESC` (a snapshot of the live stream). */
  function GetAllFuelEntries(rows: seq<FuelEntry>): (r: seq<FuelEntry>)
    ensures Descending(r) && multiset(r) == multiset(rows)
  {
    Reverse(SortByTime(rows))
  }

  /** The latest full tank strictly before `currentDateTime`. */
  function GetPreviousFullTank(rows: seq<FuelEntry>, currentDateTime: int): (r: Option<FuelEntry>)
    ensures r.Some? ==> r.value in rows && r.value.isFullTank && r.value.dateTime < currentDateTime
    ensures r.Some? ==> forall y :: y in rows && y.isFullTank && y.dateTime < currentDateTime ==> y.dateTime <= r.value.dateTime
    ensures r.None? <==> forall y :: y in rows && y.isFullTank ==> y.dateTime >= currentDateTime
  {
    Latest(rows, FullBefore(currentDateTime))
  }

  /** The earliest full tank strictly after `afterDateTime`. */
  function GetNextFullTank(rows: seq<FuelEntry>, afterDateTime: int): (r: Option<FuelEntry>)
    ensures r.Some? ==> r.value in rows && r.value.isFullTank && r.value.dateTime > afterDateTime
    ensures r.Some? ==> forall y :: y in rows && y.isFullTank && y.dateTime > afterDateTime ==> r.value.dateTime <= y.dateTime
    ensures r.None? <==> forall y :: y in rows && y.isFullTank ==> y.dateTime <= afterDateTime
  {
    Earliest(rows, FullAfter(afterDateTime))
  }

  /** The fuel bought strictly between the two instants (both bounds exclusive). */
  function GetFuelConsumedBetween(rows: seq<FuelEntry>, startTime: int, endTime: int): (s: real)
    ensures (forall y :: y in rows ==> !(startTime < y.dateTime < endTime)) ==> s == 0.0
  {
    SumQuantity(rows, Between(startTime, endTime))
  }

  /** The rows with `startTime < dateTime <= endTime` (the query has no ORDER BY). */
  function GetEntriesBetween(rows: seq<FuelEntry>, startTime: int, endTime: int): (r: seq<FuelEntry>)
    ensures forall x :: x in r <==> x in rows && startTime < x.dateTime <= endTime
  {
    Select(rows, Through(startTime, endTime))
  }

  /** The nearest row strictly before `time`. */
  function GetEntryBefore(rows: seq<FuelEntry>, time: int): (r: Option<FuelEntry>)
    ensures r.Some? ==> r.value in rows && r.value.dateTime < time
    ensures r.Some? ==> forall y :: y in rows && y.dateTime < time ==> y.dateTime <= r.value.dateTime
    ensures r.None? <==> forall y :: y in rows ==> y.dateTime >= time
  {
    Latest(rows, Before(time))
  }

  /** The nearest row strictly after `time`. */
  function GetEntryAfter(rows: seq<FuelEntry>, time: int): (r: Option<FuelEntry>)
    ensures r.Some? ==> r.value in rows && r.value.dateTime > time
    ensures r.Some? ==> forall y :: y in rows && y.dateTime > time ==> r.value.dateTime <= y.dateTime
    ensures r.None? <==> forall y :: y in rows ==> y.dateTime <= time
  {
    Earliest(rows, After(time))
  }

  /** A row exactly at `time` (`LIMIT 1`, no order). */
  function GetEntryAtTime(rows: seq<FuelEntry>, time: int): (r: Option<FuelEntry>)
    ensures r.Some? ==> r.value in rows && r.value.dateTime == time
    ensures r.None? <==> forall y :: y in rows ==> y.dateTime != time
  {
    Earliest(rows, At(time))
  }

  // ---------------------------------------------------------------------------
  // Writes, as functions of the table
  // ---------------------------------------------------------------------------

  /** `INSERT OR ABORT` succeeds unless it would break the primary key or the `dateTime` index. */
  predicate InsertAllowed(rows: seq<FuelEntry>, entry: FuelEntry) {
    && (entry.id == 0 || forall x :: x in rows ==> x.id != entry.id)
    && forall x :: x in rows ==> x.dateTime != entry.dateTime
  }

  /** Room binds an id of 0 as NULL, so AUTOINCREMENT picks one past the largest id ever used. */
  function AssignedId(lastId: int, entry: FuelEntry): int {
    if entry.id == 0 then lastId + 1 else entry.id
  }

  /** The table after a successful insert. */
  function Inserted(rows: seq<FuelEntry>, lastId: int, entry: FuelEntry): (r: seq<FuelEntry>)
    ensures |r| == |rows| + 1 && r[..|rows|] == rows
    ensures r[|rows|] == entry.(id := AssignedId(lastId, entry))
  {
    rows + [entry.(id := AssignedId(lastId, entry))]
  }

  /**
   * `UPDATE OR ABORT ... WHERE id = entry.id` breaks the `dateTime` index exactly when a row
   * is replaced and some other row already holds the new instant.
   */
  predicate UpdateAllowed(rows: seq<FuelEntry>, entry: FuelEntry) {
    (forall x :: x in rows ==> x.id != entry.id) ||
    (forall x :: x in rows && x.dateTime == entry.dateTime ==> x.id == entry.id)
  }

  /** The table after `@Update`: the row with the entry's id is replaced by the entry. */
  function Updated(rows: seq<FuelEntry>, entry: FuelEntry): (r: seq<FuelEntry>)
    ensures |r| == |rows|
    ensures forall i :: 0 <= i < |rows| && rows[i].id == entry.id ==> r[i] == entry
    ensures forall i :: 0 <= i < |rows| && rows[i].id != entry.id ==> r[i] == rows[i]
  {
    seq(|rows|, i requires 0 <= i < |rows| => if rows[i].id == entry.id then entry else rows[i])
  }

  /** The table after `@Delete`, which deletes by primary key. */
  function Deleted(rows: seq<FuelEntry>, id: int): (r: seq<FuelEntry>)
    ensures forall x :: x in r <==> x in rows && x.id != id
    ensures |r| <= |rows|
  {
    if |rows| == 0 then []
    else
      var last := rows[|rows| - 1];
      assert rows == rows[..|rows| - 1] + [last];
      Deleted(rows[..|rows| - 1], id) + (if last.id != id then [last] else [])
  }

  /** The rows agree except, possibly, in `mileage`. */
  ghost predicate SameButMileage(before: seq<FuelEntry>, after: seq<FuelEntry>) {
    |before| == |after| && forall i :: 0 <= i < |before| ==> after[i] == before[i].(mileage := after[i].mileage)
  }

  /** The table after `UPDATE fuel_entries SET mileage = m WHERE id = id`. */
  function WithMileage(rows: seq<FuelEntry>, id: int, mileage: Option<real>): (r: seq<FuelEntry>)
    ensures SameButMileage(rows, r)
    ensures forall i :: 0 <= i < |rows| && rows[i].id == id ==> r[i].mileage == mileage
    ensures forall i :: 0 <= i < |rows| && rows[i].id != id ==> r[i] == rows[i]
  {
    seq(|rows|, i requires 0 <= i < |rows| => if rows[i].id == id then rows[i].(mileage := mileage) else rows[i])
  }

  // ---------------------------------------------------------------------------
  // The table, changed in place
  // ---------------------------------------------------------------------------

  /** The `fuel_entries` table behind the DAO, with the AUTOINCREMENT counter. */
  class FuelDao {
    var rows: seq<FuelEntry>
    /** The largest id ever stored (SQLite's `sqlite_sequence` entry for the table). */
    var lastId: int

    ghost predicate Valid()
      reads this
    {
      WellFormed(rows) && 0 <= lastId && forall x :: x in rows ==> x.id <= lastId
    }

    /** An empty table. */
    constructor ()
      ensures Valid() && rows == [] && lastId == 0
    {
      rows := [];
      lastId := 0;
    }

    /** `@Insert`: reports `false` where SQLite raises a constraint violation. */
    method InsertFuelEntry(entry: FuelEntry) returns (ok: bool)
      requires Valid()
      modifies this
      ensures Valid()
      ensures ok == InsertAllowed(old(rows), entry)
      ensures ok ==> rows == Inserted(old(rows), old(lastId), entry)
      ensures ok ==> lastId == if AssignedId(old(lastId), entry) > old(lastId) then AssignedId(old(lastId), entry) else old(lastId)
      ensures !ok ==> rows == old(rows) && lastId == old(lastId)
    {
      ok := InsertAllowed(rows, entry);
      if ok {
        var id := AssignedId(lastId, entry);
        rows := rows + [entry.(id := id)];
        if id > lastId {
          lastId := id;
        }
      }
    }

    /** `@Update`: reports `false` where SQLite raises a constraint violation. */
    method UpdateFuelEntry(entry: FuelEntry) returns (ok: bool)
      requires Valid()
      modifies this
      ensures Valid()
      ensures ok == UpdateAllowed(old(rows), entry)
      ensures rows == if ok then Updated(old(rows), entry) else old(rows)
      ensures lastId == old(lastId)
    {
      ok := UpdateAllowed(rows, entry);
      if ok {
        var r := Updated(rows, entry);
        assert forall x :: x in r ==> x.id != 0 by {
          forall x | x in r ensures x.id != 0 {
            var i :| 0 <= i < |r| && r[i] == x;
            assert rows[i] in rows;
          }
        }
        rows := r;
      }
    }

    /** `@Delete`. */
    method DeleteFuelEntry(entry: FuelEntry)
      requires Valid()
      modifies this
      ensures Valid()
      ensures rows == Deleted(old(rows), entry.id) && lastId == old(lastId)
    {
      DeletedKeepsWellFormed(rows, entry.id);
      rows := Deleted(rows, entry.id);
    }

    /** `UPDATE fuel_entries SET mileage = :mileage WHERE id = :id`. */
    method UpdateMileage(id: int, mileage: Option<real>)
      requires Valid()
      modifies this
      ensures Valid()
      ensures rows == WithMileage(old(rows), id, mileage) && lastId == old(lastId)
    {
      var r := WithMileage(rows, id, mileage);
      assert forall x :: x in r ==> x.id != 0 && x.id <= lastId by {
        forall x | x in r ensures x.id != 0 && x.id <= lastId {
          var i :| 0 <= i < |r| && r[i] == x;
          assert rows[i] in rows;
        }
      }
      rows := r;
    }
  }

  lemma {:induction false} DeletedKeepsWellFormed(rows: seq<FuelEntry>, id: int)
    requires WellFormed(rows)
    ensures WellFormed(Deleted(rows, id))
    decreases |rows|
  {
    if |rows| > 0 {
      var front, last := rows[..|rows| - 1], rows[|rows| - 1];
      FrontWellFormed(rows);
      DeletedKeepsWellFormed(front, id);
      if last.id != id {
        assert Deleted(rows, id) == Deleted(front, id) + [last];
        forall x | x in Deleted(front, id) ensures x.dateTime != last.dateTime && x.id != last.id {
          var i :| 0 <= i < |front| && front[i] == x;
          assert rows[i] == x;
        }
        SnocWellFormed(Deleted(front, id), last);
      } else {
        assert Deleted(rows, id) == Deleted(front, id) + [];
        assert Deleted(front, id) + [] == Deleted(front, id);
      }
    }
  }

  lemma FrontWellFormed(rows: seq<FuelEntry>)
    requires WellFormed(rows) && |rows| > 0
    ensures WellFormed(rows[..|rows| - 1]) && rows[|rows| - 1].id != 0
  {
    assert forall x :: x in rows[..|rows| - 1] ==> x in rows;
  }

  /** A row whose id and instant are new, appended to a well-formed table, keeps it well-formed. */
  lemma SnocWellFormed(rows: seq<FuelEntry>, x: FuelEntry)
    requires WellFormed(rows) && x.id != 0
    requires forall y :: y in rows ==> y.dateTime != x.dateTime && y.id != x.id
    ensures WellFormed(rows + [x])
  {
    var r := rows + [x];
    forall i, j | 0 <= i < |r| && 0 <= j < |r| && i != j ensures r[i].dateTime != r[j].dateTime && r[i].id != r[j].id {
      if i < |rows| && j < |rows| {
        assert r[i] == rows[i] && r[j] == rows[j];
      } else if i < |rows| {
        assert r[i] in rows;
      } else {
        assert r[j] in rows;
      }
    }
  }
}
