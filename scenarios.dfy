/**
 * The repository's test scenarios, stated on the functions the repository's methods are proved
 * against: an accepted insert leaves `Recalculated(Inserted(...))`, an accepted edit leaves
 * `Recalculated(Updated(...))`, and a test reads the table back through `getAllOnce`.
 */
module Scenarios {
  import opened Wrappers
  import opened Entity
  import opened Dao
  import opened DaoFacts
  import opened Cycle
  import opened Repository
  import opened Consistency
  import opened ValidationFacts

  /** The tests' full-tank fill: 100 per litre, HP NORMAL, no notes, no mileage. */
  function FullTank(time: int, odo: real, qty: real): FuelEntry {
    FuelEntry(0, time, odo, qty, 100.0, qty * 100.0, true, Hp, Normal, None, None)
  }

  /** The tests' partial fill. */
  function PartialTank(time: int, odo: real, qty: real): FuelEntry {
    FuelEntry(0, time, odo, qty, 100.0, qty * 100.0, false, Hp, Normal, None, None)
  }

  /** `insertFuelEntry(e)` on a table whose AUTOINCREMENT counter is `lastId` is accepted and leaves `after`. */
  ghost predicate Logs(rows: seq<FuelEntry>, lastId: int, e: FuelEntry, after: seq<FuelEntry>) {
    ValidateOdometer(rows, e) == Pass && InsertAllowed(rows, e) && Recalculated(Inserted(rows, lastId, e), e) == after
  }

  /** Rows stored in strictly increasing `dateTime` order. */
  ghost predicate InTimeOrder(rows: seq<FuelEntry>) {
    forall i, j :: 0 <= i < j < |rows| ==> rows[i].dateTime < rows[j].dateTime
  }

  /** A table the tests build by logging fills in time order. */
  ghost predicate Chronological(rows: seq<FuelEntry>, lastId: int) {
    && WellFormed(rows) && Consistent(rows) && OdometerIncreasing(rows) && InTimeOrder(rows)
    && 0 <= lastId && forall x :: x in rows ==> x.id <= lastId
  }

  // ---------------------------------------------------------------------------
  // Logging fills in time order
  // ---------------------------------------------------------------------------

  /**
   * A fill later and further than every stored row is accepted; the new row is appended with
   * the next id and, when it is a full tank, the mileage of its cycle.
   */
  lemma NewestFillIsLogged(rows: seq<FuelEntry>, lastId: int, e: FuelEntry, m: Option<real>)
    requires Chronological(rows, lastId)
    requires e.id == 0 && e.mileage.None?
    requires forall y :: y in rows ==> y.dateTime < e.dateTime && y.odometer < e.odometer
    requires m == if e.isFullTank then CycleMileage(rows + [e.(id := lastId + 1)], e.(id := lastId + 1)) else None
    ensures Logs(rows, lastId, e, rows + [e.(id := lastId + 1, mileage := m)])
    ensures Chronological(rows + [e.(id := lastId + 1, mileage := m)], lastId + 1)
  {
    var x := e.(id := lastId + 1, mileage := m);
    NewestFillPasses(rows, e);
    NewestFillIsStored(rows, lastId, e, m, x);
    AppendedKeepsOrder(rows, lastId, x);
  }

  lemma NewestFillIsStored(rows: seq<FuelEntry>, lastId: int, e: FuelEntry, m: Option<real>, x: FuelEntry)
    requires Consistent(rows) && 0 <= lastId && e.id == 0 && e.mileage.None?
    requires forall y :: y in rows ==> y.dateTime < e.dateTime
    requires m == if e.isFullTank then CycleMileage(rows + [e.(id := lastId + 1)], e.(id := lastId + 1)) else None
    requires x == e.(id := lastId + 1, mileage := m)
    ensures Recalculated(Inserted(rows, lastId, e), e) == rows + [x] && Consistent(rows + [x])
  {
    AppendingNewestEntry(rows, lastId, e);
    InsertKeepsConsistent(rows, lastId, e);
  }

  /** Validation accepts a fill later and further than every stored row. */
  lemma NewestFillPasses(rows: seq<FuelEntry>, e: FuelEntry)
    requires forall y :: y in rows ==> y.dateTime < e.dateTime && y.odometer < e.odometer
    ensures ValidateOdometer(rows, e) == Pass && forall y :: y in rows ==> y.dateTime != e.dateTime
  {
  }

  /** A row with a fresh id, a later instant and a larger odometer keeps the table's order facts. */
  lemma AppendedKeepsOrder(rows: seq<FuelEntry>, lastId: int, x: FuelEntry)
    requires WellFormed(rows) && OdometerIncreasing(rows) && InTimeOrder(rows)
    requires 0 <= lastId && (forall y :: y in rows ==> y.id <= lastId) && x.id == lastId + 1
    requires forall y :: y in rows ==> y.dateTime < x.dateTime && y.odometer < x.odometer
    ensures WellFormed(rows + [x]) && OdometerIncreasing(rows + [x]) && InTimeOrder(rows + [x])
    ensures forall y :: y in rows + [x] ==> y.id <= lastId + 1
  {
    var after := rows + [x];
    UniqueTimesOfInserted(rows, x);
    forall i, j | 0 <= i < |after| && 0 <= j < |after| && i != j ensures after[i].id != after[j].id {
      if i < |rows| && j < |rows| {
      } else if i < |rows| {
        assert after[i] in rows;
      } else {
        assert after[j] in rows;
      }
    }
    AppendedInTimeOrder(rows, x);
  }

  /** Into an empty table, a fill is stored with id 1 and no mileage. */
  lemma FirstFillIsLogged(e: FuelEntry)
    requires e.id == 0 && e.mileage.None?
    ensures Logs([], 0, e, [e.(id := 1)]) && Chronological([e.(id := 1)], 1)
  {
    var s := e.(id := 1);
    if e.isFullTank {
      assert CycleMileage([] + [s], s) == None;
    }
    NewestFillIsLogged([], 0, e, None);
    assert [] + [e.(id := 0 + 1, mileage := None)] == [s];
  }

  /** A fill appended after every row keeps the table in time order. */
  lemma AppendedInTimeOrder(rows: seq<FuelEntry>, x: FuelEntry)
    requires InTimeOrder(rows) && forall y :: y in rows ==> y.dateTime < x.dateTime
    ensures InTimeOrder(rows + [x])
  {
    var r := rows + [x];
    forall i, j | 0 <= i < j < |r| ensures r[i].dateTime < r[j].dateTime {
      if j == |rows| {
        assert r[i] in rows;
      }
    }
  }

  /** A row later than the last row of a table in time order keeps it in time order. */
  lemma AppendedAfterLast(rows: seq<FuelEntry>, x: FuelEntry)
    requires InTimeOrder(rows) && |rows| > 0 && rows[|rows| - 1].dateTime < x.dateTime
    ensures InTimeOrder(rows + [x])
  {
    var r := rows + [x];
    forall i, j | 0 <= i < j < |r| ensures r[i].dateTime < r[j].dateTime {
      if j == |rows| && i < |rows| - 1 {
        assert rows[i].dateTime < rows[|rows| - 1].dateTime;
      }
    }
  }

  /** A table in time order is what `getAllOnce` lists. */
  lemma ListedAsStored(rows: seq<FuelEntry>)
    requires InTimeOrder(rows)
    ensures GetAllOnce(rows) == rows
  {
    OrderedTableIsItsListing(rows);
  }

  // ---------------------------------------------------------------------------
  // Cycles in a table in time order
  // ---------------------------------------------------------------------------

  /** The cycle of `e` once `p` is known to be the latest full tank before it. */
  lemma CycleFromPrevious(rows: seq<FuelEntry>, e: FuelEntry, p: FuelEntry)
    requires UniqueTimes(rows) && e.isFullTank && p in rows && p.isFullTank && p.dateTime < e.dateTime
    requires forall y :: y in rows && y.isFullTank && y.dateTime < e.dateTime ==> y.dateTime <= p.dateTime
    ensures var distance := e.odometer - p.odometer;
            var fuel := GetFuelConsumedBetween(rows, p.dateTime, e.dateTime) + e.quantity;
            CycleMileage(rows, e) == if distance > 0.0 && fuel > 0.0 then Some(distance / fuel) else None
  {
    LatestIsUnique(rows, FullBefore(e.dateTime), p);
  }

  /** When no full tank lies strictly between rows `k` and `i`, no full tank before row `i` is later than row `k`. */
  lemma NoFullTankBetween(rows: seq<FuelEntry>, k: int, i: int)
    requires InTimeOrder(rows) && 0 <= k < i < |rows|
    requires forall j :: k < j < i ==> !rows[j].isFullTank
    ensures forall y :: y in rows && y.isFullTank && y.dateTime < rows[i].dateTime ==> y.dateTime <= rows[k].dateTime
  {
    forall y | y in rows && y.isFullTank && y.dateTime < rows[i].dateTime ensures y.dateTime <= rows[k].dateTime {
      var j :| 0 <= j < |rows| && rows[j] == y;
    }
  }

  /** In a table in time order, the rows strictly between the instants of rows `k` and `i` are the rows between them. */
  lemma WindowBetween(rows: seq<FuelEntry>, k: int, i: int)
    requires InTimeOrder(rows) && 0 <= k < i < |rows|
    ensures forall j :: 0 <= j < |rows| ==> (Matches(Between(rows[k].dateTime, rows[i].dateTime), rows[j]) <==> k < j < i)
  {
    forall j | 0 <= j < |rows| ensures Matches(Between(rows[k].dateTime, rows[i].dateTime), rows[j]) <==> k < j < i {
      if j < k {
      } else if j > i {
      }
    }
  }

  /** A full tank right after a full tank: only its own fill is counted. */
  lemma CycleAfterFullTank(rows: seq<FuelEntry>, i: int, p: FuelEntry, e: FuelEntry)
    requires InTimeOrder(rows) && 0 < i < |rows| && rows[i - 1] == p && rows[i] == e
    requires p.isFullTank && e.isFullTank && p.odometer < e.odometer && e.quantity > 0.0
    ensures CycleMileage(rows, e) == Some((e.odometer - p.odometer) / e.quantity)
  {
    NoFullTankBetween(rows, i - 1, i);
    WindowBetween(rows, i - 1, i);
    SumOfNoMatch(rows, Between(p.dateTime, e.dateTime));
    CycleFromPrevious(rows, e, p);
  }

  /** A full tank after one partial fill that follows a full tank: both fills are counted. */
  lemma CycleAfterPartial(rows: seq<FuelEntry>, i: int, p: FuelEntry, q: FuelEntry, e: FuelEntry)
    requires InTimeOrder(rows) && 1 < i < |rows| && rows[i - 2] == p && rows[i - 1] == q && rows[i] == e
    requires p.isFullTank && !q.isFullTank && e.isFullTank
    requires p.odometer < e.odometer && q.quantity + e.quantity > 0.0
    ensures CycleMileage(rows, e) == Some((e.odometer - p.odometer) / (q.quantity + e.quantity))
  {
    NoFullTankBetween(rows, i - 2, i);
    WindowBetween(rows, i - 2, i);
    SumOfOnlyMatch(rows, i - 1, Between(p.dateTime, e.dateTime));
    CycleFromPrevious(rows, e, p);
  }

  /** A full tank after two partial fills that follow a full tank: all three fills are counted. */
  lemma CycleAfterTwoPartials(rows: seq<FuelEntry>, i: int, p: FuelEntry, q1: FuelEntry, q2: FuelEntry, e: FuelEntry)
    requires InTimeOrder(rows) && 2 < i < |rows| && rows[i - 3] == p && rows[i - 2] == q1 && rows[i - 1] == q2 && rows[i] == e
    requires p.isFullTank && !q1.isFullTank && !q2.isFullTank && e.isFullTank
    requires p.odometer < e.odometer && q1.quantity + q2.quantity + e.quantity > 0.0
    ensures CycleMileage(rows, e) == Some((e.odometer - p.odometer) / (q1.quantity + q2.quantity + e.quantity))
  {
    NoFullTankBetween(rows, i - 3, i);
    WindowBetween(rows, i - 3, i);
    SumOfTwoMatches(rows, i - 2, i - 1, Between(p.dateTime, e.dateTime));
    CycleFromPrevious(rows, e, p);
  }

  /** When `rows[a]` and `rows[b]` are the only rows matching `w`, the sum over `w` is their quantities. */
  lemma {:induction false} SumOfTwoMatches(rows: seq<FuelEntry>, a: int, b: int, w: Where)
    requires 0 <= a < b < |rows| && Matches(w, rows[a]) && Matches(w, rows[b])
    requires forall j :: 0 <= j < |rows| && j != a && j != b ==> !Matches(w, rows[j])
    ensures SumQuantity(rows, w) == rows[a].quantity + rows[b].quantity
    decreases |rows|
  {
    var front := rows[..|rows| - 1];
    assert rows == front + [rows[|rows| - 1]];
    assert forall j :: 0 <= j < |front| ==> front[j] == rows[j];
    SumSnoc(front, rows[|rows| - 1], w);
    if b < |rows| - 1 {
      SumOfTwoMatches(front, a, b, w);
    } else {
      SumOfOnlyMatch(front, a, w);
    }
  }

  /** When `rows[k]` is the only row matching `w`, the sum over `w` is its quantity. */
  lemma {:induction false} SumOfOnlyMatch(rows: seq<FuelEntry>, k: int, w: Where)
    requires 0 <= k < |rows| && Matches(w, rows[k])
    requires forall j :: 0 <= j < |rows| && j != k ==> !Matches(w, rows[j])
    ensures SumQuantity(rows, w) == rows[k].quantity
    decreases |rows|
  {
    var front := rows[..|rows| - 1];
    assert rows == front + [rows[|rows| - 1]];
    assert forall j :: 0 <= j < |front| ==> front[j] == rows[j];
    SumSnoc(front, rows[|rows| - 1], w);
    if k < |rows| - 1 {
      SumOfOnlyMatch(front, k, w);
    } else {
      SumOfNoMatch(front, w);
    }
  }

  lemma {:induction false} SumOfNoMatch(rows: seq<FuelEntry>, w: Where)
    requires forall j :: 0 <= j < |rows| ==> !Matches(w, rows[j])
    ensures SumQuantity(rows, w) == 0.0
    decreases |rows|
  {
    if |rows| > 0 {
      var front := rows[..|rows| - 1];
      assert rows == front + [rows[|rows| - 1]];
      assert forall j :: 0 <= j < |front| ==> front[j] == rows[j];
      SumSnoc(front, rows[|rows| - 1], w);
      SumOfNoMatch(front, w);
    }
  }

  // ---------------------------------------------------------------------------
  // Edits that keep their instant
  // ---------------------------------------------------------------------------

  /**
   * After an edit that keeps the row's instant, the table keeps its order and every full tank
   * carries the mileage of its cycle in the edited table.
   */
  lemma EditedTable(rows: seq<FuelEntry>, lastId: int, k: int, e: FuelEntry, u: seq<FuelEntry>, r: seq<FuelEntry>)
    requires Chronological(rows, lastId)
    requires 0 <= k < |rows| && rows[k].id == e.id && rows[k].dateTime == e.dateTime
    requires e.isFullTank && NoneMatch(rows, FullBefore(e.dateTime)) ==> e.mileage.None?
    requires u == Updated(rows, e) && r == Recalculated(u, e)
    ensures u == rows[k := e] && InTimeOrder(u) && InTimeOrder(r) && |r| == |rows| && GetAllOnce(r) == r
    ensures SameButMileage(u, r)
    ensures forall i :: 0 <= i < |u| && u[i].isFullTank ==> r[i].mileage == CycleMileage(u, u[i])
  {
    EditedTableShape(rows, lastId, k, e, u, r);
    EditedTableMileages(rows, lastId, k, e, u, r);
  }

  lemma EditedTableShape(rows: seq<FuelEntry>, lastId: int, k: int, e: FuelEntry, u: seq<FuelEntry>, r: seq<FuelEntry>)
    requires Chronological(rows, lastId)
    requires 0 <= k < |rows| && rows[k].id == e.id && rows[k].dateTime == e.dateTime
    requires u == Updated(rows, e) && r == Recalculated(u, e)
    ensures u == rows[k := e] && InTimeOrder(u) && InTimeOrder(r) && |r| == |rows| && GetAllOnce(r) == r
    ensures SameButMileage(u, r)
  {
    UpdatedInPlace(rows, k, e);
    SweptInTimeOrder(rows, u, r);
    ListedAsStored(r);
  }

  lemma EditedTableMileages(rows: seq<FuelEntry>, lastId: int, k: int, e: FuelEntry, u: seq<FuelEntry>, r: seq<FuelEntry>)
    requires Chronological(rows, lastId)
    requires 0 <= k < |rows| && rows[k].id == e.id && rows[k].dateTime == e.dateTime
    requires e.isFullTank && NoneMatch(rows, FullBefore(e.dateTime)) ==> e.mileage.None?
    requires u == Updated(rows, e) && r == Recalculated(u, e)
    ensures forall i :: 0 <= i < |u| && u[i].isFullTank ==> r[i].mileage == CycleMileage(u, u[i])
  {
    EditInPlaceKeepsConsistent(rows, k, e);
    ConsistentMileages(u, r);
  }

  lemma EditInPlaceKeepsConsistent(rows: seq<FuelEntry>, k: int, e: FuelEntry)
    requires WellFormed(rows) && Consistent(rows)
    requires 0 <= k < |rows| && rows[k].id == e.id && rows[k].dateTime == e.dateTime
    requires e.isFullTank && NoneMatch(rows, FullBefore(e.dateTime)) ==> e.mileage.None?
    ensures Consistent(Recalculated(Updated(rows, e), e))
  {
    forall x | x in rows && x.id == e.id ensures x.dateTime == e.dateTime {
      SameIdSameRow(rows, x, rows[k]);
    }
    EditKeepsConsistent(rows, e);
  }

  /** `@Update` by primary key replaces exactly the row that carries the id. */
  lemma UpdatedInPlace(rows: seq<FuelEntry>, k: int, e: FuelEntry)
    requires UniqueIds(rows) && 0 <= k < |rows| && rows[k].id == e.id
    ensures Updated(rows, e) == rows[k := e]
  {
    assert forall i :: 0 <= i < |rows| && i != k ==> rows[i].id != e.id;
  }

  lemma SweptInTimeOrder(rows: seq<FuelEntry>, u: seq<FuelEntry>, r: seq<FuelEntry>)
    requires InTimeOrder(rows) && |u| == |rows| && forall i :: 0 <= i < |rows| ==> u[i].dateTime == rows[i].dateTime
    requires SameButMileage(u, r)
    ensures InTimeOrder(u) && InTimeOrder(r)
  {
    forall i, j | 0 <= i < j < |r| ensures r[i].dateTime < r[j].dateTime && u[i].dateTime < u[j].dateTime {
      assert rows[i].dateTime < rows[j].dateTime;
    }
  }

  /** A consistent table that differs from `u` only in mileages carries the mileages of `u`'s cycles. */
  lemma ConsistentMileages(u: seq<FuelEntry>, r: seq<FuelEntry>)
    requires SameButMileage(u, r) && Consistent(r)
    ensures forall i :: 0 <= i < |u| && u[i].isFullTank ==> r[i].mileage == CycleMileage(u, u[i])
  {
    forall i | 0 <= i < |u| && u[i].isFullTank ensures r[i].mileage == CycleMileage(u, u[i]) {
      assert r[i] in r;
      CycleIgnoresMileages(u, r, i);
    }
  }

  // ---------------------------------------------------------------------------
  // Steps the scenarios take
  // ---------------------------------------------------------------------------

  /** A partial fill logged after every row is stored without a mileage. */
  lemma PartialIsLogged(rows: seq<FuelEntry>, lastId: int, e: FuelEntry)
    requires Chronological(rows, lastId) && !e.isFullTank && e.id == 0 && e.mileage.None?
    requires forall y :: y in rows ==> y.dateTime < e.dateTime && y.odometer < e.odometer
    ensures Logs(rows, lastId, e, rows + [e.(id := lastId + 1)])
    ensures Chronological(rows + [e.(id := lastId + 1)], lastId + 1)
  {
    NewestFillIsLogged(rows, lastId, e, None);
    assert e.(id := lastId + 1, mileage := None) == e.(id := lastId + 1);
  }

  /** A full tank logged right after a full tank gets distance over its own fill. */
  lemma FullAfterFullIsLogged(rows: seq<FuelEntry>, lastId: int, e: FuelEntry)
    requires Chronological(rows, lastId) && |rows| > 0 && rows[|rows| - 1].isFullTank
    requires e.isFullTank && e.id == 0 && e.mileage.None? && e.quantity > 0.0
    requires forall y :: y in rows ==> y.dateTime < e.dateTime && y.odometer < e.odometer
    ensures var m := Some((e.odometer - rows[|rows| - 1].odometer) / e.quantity);
            Logs(rows, lastId, e, rows + [e.(id := lastId + 1, mileage := m)]) &&
            Chronological(rows + [e.(id := lastId + 1, mileage := m)], lastId + 1)
  {
    var m := Some((e.odometer - rows[|rows| - 1].odometer) / e.quantity);
    assert rows[|rows| - 1] in rows;
    AppendedCycleAfterFullTank(rows, lastId, e);
    NewestFillIsLogged(rows, lastId, e, m);
  }

  /** Appending a full tank right after a full tank: its cycle is distance over its own fill. */
  lemma AppendedCycleAfterFullTank(rows: seq<FuelEntry>, lastId: int, e: FuelEntry)
    requires InTimeOrder(rows) && |rows| > 0 && rows[|rows| - 1].dateTime < e.dateTime
    requires rows[|rows| - 1].isFullTank && e.isFullTank
    requires rows[|rows| - 1].odometer < e.odometer && e.quantity > 0.0
    ensures CycleMileage(rows + [e.(id := lastId + 1)], e.(id := lastId + 1)) ==
              Some((e.odometer - rows[|rows| - 1].odometer) / e.quantity)
  {
    var t := rows + [e.(id := lastId + 1)];
    AppendedAfterLast(rows, e.(id := lastId + 1));
    assert t[|t| - 1] == e.(id := lastId + 1) && t[|t| - 2] == rows[|rows| - 1];
    LastCycleAfterFullTank(t);
    StoredCycleAfterFullTank(rows, lastId, e, t);
  }

  /** The last row of a table in time order, a full tank right after a full tank. */
  lemma LastCycleAfterFullTank(t: seq<FuelEntry>)
    requires InTimeOrder(t) && 1 < |t|
    requires t[|t| - 2].isFullTank && t[|t| - 1].isFullTank
    requires t[|t| - 2].odometer < t[|t| - 1].odometer && t[|t| - 1].quantity > 0.0
    ensures CycleMileage(t, t[|t| - 1]) == Some((t[|t| - 1].odometer - t[|t| - 2].odometer) / t[|t| - 1].quantity)
  {
    CycleAfterFullTank(t, |t| - 1, t[|t| - 2], t[|t| - 1]);
  }

  /** The cycle of the last row, restated for the row as the insert stores it. */
  lemma StoredCycleAfterFullTank(rows: seq<FuelEntry>, lastId: int, e: FuelEntry, t: seq<FuelEntry>)
    requires t == rows + [e.(id := lastId + 1)] && |rows| > 0 && e.isFullTank && e.quantity > 0.0
    requires CycleMileage(t, t[|t| - 1]) == Some((t[|t| - 1].odometer - t[|t| - 2].odometer) / t[|t| - 1].quantity)
    ensures CycleMileage(rows + [e.(id := lastId + 1)], e.(id := lastId + 1)) ==
              Some((e.odometer - rows[|rows| - 1].odometer) / e.quantity)
  {
    assert t[|t| - 1] == e.(id := lastId + 1) && t[|t| - 2] == rows[|rows| - 1];
  }

  /** A full tank logged after one partial fill that follows a full tank counts both fills. */
  lemma FullAfterPartialIsLogged(rows: seq<FuelEntry>, lastId: int, e: FuelEntry)
    requires Chronological(rows, lastId) && |rows| > 1
    requires rows[|rows| - 2].isFullTank && !rows[|rows| - 1].isFullTank
    requires e.isFullTank && e.id == 0 && e.mileage.None? && rows[|rows| - 1].quantity + e.quantity > 0.0
    requires forall y :: y in rows ==> y.dateTime < e.dateTime && y.odometer < e.odometer
    ensures var m := Some((e.odometer - rows[|rows| - 2].odometer) / (rows[|rows| - 1].quantity + e.quantity));
            Logs(rows, lastId, e, rows + [e.(id := lastId + 1, mileage := m)]) &&
            Chronological(rows + [e.(id := lastId + 1, mileage := m)], lastId + 1)
  {
    var m := Some((e.odometer - rows[|rows| - 2].odometer) / (rows[|rows| - 1].quantity + e.quantity));
    assert rows[|rows| - 2] in rows && rows[|rows| - 1] in rows;
    AppendedCycleAfterPartial(rows, lastId, e);
    NewestFillIsLogged(rows, lastId, e, m);
  }

  /** Appending a full tank after a full tank and one partial fill: the cycle counts both fills. */
  lemma AppendedCycleAfterPartial(rows: seq<FuelEntry>, lastId: int, e: FuelEntry)
    requires InTimeOrder(rows) && |rows| > 1 && rows[|rows| - 1].dateTime < e.dateTime
    requires rows[|rows| - 2].isFullTank && !rows[|rows| - 1].isFullTank && e.isFullTank
    requires rows[|rows| - 2].odometer < e.odometer && rows[|rows| - 1].quantity + e.quantity > 0.0
    ensures CycleMileage(rows + [e.(id := lastId + 1)], e.(id := lastId + 1)) ==
              Some((e.odometer - rows[|rows| - 2].odometer) / (rows[|rows| - 1].quantity + e.quantity))
  {
    var t := rows + [e.(id := lastId + 1)];
    AppendedAfterLast(rows, e.(id := lastId + 1));
    assert t[|t| - 1] == e.(id := lastId + 1) && t[|t| - 3] == rows[|rows| - 2] && t[|t| - 2] == rows[|rows| - 1];
    LastCycleAfterPartial(t);
    StoredCycleAfterPartial(rows, lastId, e, t);
  }

  /** The last row of a table in time order, a full tank after a full tank and one partial fill. */
  lemma LastCycleAfterPartial(t: seq<FuelEntry>)
    requires InTimeOrder(t) && 2 < |t|
    requires t[|t| - 3].isFullTank && !t[|t| - 2].isFullTank && t[|t| - 1].isFullTank
    requires t[|t| - 3].odometer < t[|t| - 1].odometer && t[|t| - 2].quantity + t[|t| - 1].quantity > 0.0
    ensures CycleMileage(t, t[|t| - 1]) ==
              Some((t[|t| - 1].odometer - t[|t| - 3].odometer) / (t[|t| - 2].quantity + t[|t| - 1].quantity))
  {
    CycleAfterPartial(t, |t| - 1, t[|t| - 3], t[|t| - 2], t[|t| - 1]);
  }

  /** The cycle of the last row, restated for the row as the insert stores it. */
  lemma StoredCycleAfterPartial(rows: seq<FuelEntry>, lastId: int, e: FuelEntry, t: seq<FuelEntry>)
    requires t == rows + [e.(id := lastId + 1)] && |rows| > 1 && e.isFullTank
    requires rows[|rows| - 1].quantity + e.quantity > 0.0
    requires CycleMileage(t, t[|t| - 1]) ==
               Some((t[|t| - 1].odometer - t[|t| - 3].odometer) / (t[|t| - 2].quantity + t[|t| - 1].quantity))
    ensures CycleMileage(rows + [e.(id := lastId + 1)], e.(id := lastId + 1)) ==
              Some((e.odometer - rows[|rows| - 2].odometer) / (rows[|rows| - 1].quantity + e.quantity))
  {
    assert t[|t| - 1] == e.(id := lastId + 1) && t[|t| - 3] == rows[|rows| - 2] && t[|t| - 2] == rows[|rows| - 1];
  }

  /** A full tank logged after two partial fills that follow a full tank counts all three fills. */
  lemma FullAfterTwoPartialsIsLogged(rows: seq<FuelEntry>, lastId: int, e: FuelEntry)
    requires Chronological(rows, lastId) && |rows| > 2
    requires rows[|rows| - 3].isFullTank && !rows[|rows| - 2].isFullTank && !rows[|rows| - 1].isFullTank
    requires e.isFullTank && e.id == 0 && e.mileage.None?
    requires rows[|rows| - 2].quantity + rows[|rows| - 1].quantity + e.quantity > 0.0
    requires forall y :: y in rows ==> y.dateTime < e.dateTime && y.odometer < e.odometer
    ensures var m := Some((e.odometer - rows[|rows| - 3].odometer) / (rows[|rows| - 2].quantity + rows[|rows| - 1].quantity + e.quantity));
            Logs(rows, lastId, e, rows + [e.(id := lastId + 1, mileage := m)]) &&
            Chronological(rows + [e.(id := lastId + 1, mileage := m)], lastId + 1)
  {
    var m := Some((e.odometer - rows[|rows| - 3].odometer) / (rows[|rows| - 2].quantity + rows[|rows| - 1].quantity + e.quantity));
    assert rows[|rows| - 3] in rows && rows[|rows| - 1] in rows;
    AppendedCycleAfterTwoPartials(rows, lastId, e);
    NewestFillIsLogged(rows, lastId, e, m);
  }

  /** Appending a full tank after a full tank and two partial fills: the cycle counts all three fills. */
  lemma AppendedCycleAfterTwoPartials(rows: seq<FuelEntry>, lastId: int, e: FuelEntry)
    requires InTimeOrder(rows) && |rows| > 2 && rows[|rows| - 1].dateTime < e.dateTime
    requires rows[|rows| - 3].isFullTank && !rows[|rows| - 2].isFullTank && !rows[|rows| - 1].isFullTank && e.isFullTank
    requires rows[|rows| - 3].odometer < e.odometer && rows[|rows| - 2].quantity + rows[|rows| - 1].quantity + e.quantity > 0.0
    ensures CycleMileage(rows + [e.(id := lastId + 1)], e.(id := lastId + 1)) ==
              Some((e.odometer - rows[|rows| - 3].odometer) / (rows[|rows| - 2].quantity + rows[|rows| - 1].quantity + e.quantity))
  {
    var t := rows + [e.(id := lastId + 1)];
    AppendedAfterLast(rows, e.(id := lastId + 1));
    assert t[|t| - 1] == e.(id := lastId + 1) && t[|t| - 4] == rows[|rows| - 3] && t[|t| - 3] == rows[|rows| - 2] && t[|t| - 2] == rows[|rows| - 1];
    LastCycleAfterTwoPartials(t);
    StoredCycleAfterTwoPartials(rows, lastId, e, t);
  }

  /** The last row of a table in time order, a full tank after a full tank and two partial fills. */
  lemma LastCycleAfterTwoPartials(t: seq<FuelEntry>)
    requires InTimeOrder(t) && 3 < |t|
    requires t[|t| - 4].isFullTank && !t[|t| - 3].isFullTank && !t[|t| - 2].isFullTank && t[|t| - 1].isFullTank
    requires t[|t| - 4].odometer < t[|t| - 1].odometer && t[|t| - 3].quantity + t[|t| - 2].quantity + t[|t| - 1].quantity > 0.0
    ensures CycleMileage(t, t[|t| - 1]) ==
              Some((t[|t| - 1].odometer - t[|t| - 4].odometer) / (t[|t| - 3].quantity + t[|t| - 2].quantity + t[|t| - 1].quantity))
  {
    CycleAfterTwoPartials(t, |t| - 1, t[|t| - 4], t[|t| - 3], t[|t| - 2], t[|t| - 1]);
  }

  /** The cycle of the last row, restated for the row as the insert stores it. */
  lemma StoredCycleAfterTwoPartials(rows: seq<FuelEntry>, lastId: int, e: FuelEntry, t: seq<FuelEntry>)
    requires t == rows + [e.(id := lastId + 1)] && |rows| > 2 && e.isFullTank
    requires rows[|rows| - 2].quantity + rows[|rows| - 1].quantity + e.quantity > 0.0
    requires CycleMileage(t, t[|t| - 1]) ==
               Some((t[|t| - 1].odometer - t[|t| - 4].odometer) / (t[|t| - 3].quantity + t[|t| - 2].quantity + t[|t| - 1].quantity))
    ensures CycleMileage(rows + [e.(id := lastId + 1)], e.(id := lastId + 1)) ==
              Some((e.odometer - rows[|rows| - 3].odometer) / (rows[|rows| - 2].quantity + rows[|rows| - 1].quantity + e.quantity))
  {
    assert t[|t| - 1] == e.(id := lastId + 1) && t[|t| - 4] == rows[|rows| - 3] && t[|t| - 3] == rows[|rows| - 2] && t[|t| - 2] == rows[|rows| - 1];
  }

  /** Validation accepts an edit that keeps the row's instant and an odometer between its neighbours'. */
  lemma InPlaceEditPasses(rows: seq<FuelEntry>, lastId: int, k: int, e: FuelEntry)
    requires Chronological(rows, lastId) && 0 <= k < |rows| && rows[k].id == e.id && rows[k].dateTime == e.dateTime
    requires k > 0 ==> rows[k - 1].odometer < e.odometer
    requires k + 1 < |rows| ==> e.odometer < rows[k + 1].odometer
    ensures ValidateOdometer(rows, e) == Pass
  {
    forall x | x in rows && x.id == e.id ensures x.dateTime == e.dateTime {
      SameIdSameRow(rows, x, rows[k]);
    }
    forall x | x in rows && x.id != e.id
      ensures x.dateTime != e.dateTime
      ensures x.dateTime < e.dateTime ==> x.odometer < e.odometer
      ensures x.dateTime > e.dateTime ==> x.odometer > e.odometer
    {
      var j :| 0 <= j < |rows| && rows[j] == x;
      assert j != k;
      if j < k {
        assert rows[j].odometer <= rows[k - 1].odometer by {
          if j < k - 1 {
            assert rows[j].dateTime < rows[k - 1].dateTime;
            assert rows[k - 1] in rows;
          }
        }
      } else {
        assert rows[k + 1].odometer <= rows[j].odometer by {
          if j > k + 1 {
            assert rows[k + 1].dateTime < rows[j].dateTime;
            assert rows[k + 1] in rows;
          }
        }
      }
    }
    ValidationIsExact(rows, e);
  }

  // ---------------------------------------------------------------------------
  // The repository's tests
  // ---------------------------------------------------------------------------

  /** The first full tank is stored with no mileage. */
  lemma FirstFullTankHasNoMileage()
    ensures var f1 := FullTank(1000, 100.0, 5.0);
            var t1 := [f1.(id := 1)];
            Logs([], 0, f1, t1) && GetAllOnce(t1) == t1 && |t1| == 1 && t1[0].mileage.None?
  {
    var f1 := FullTank(1000, 100.0, 5.0);
    FirstFillIsLogged(f1);
    ListedAsStored([f1.(id := 1)]);
  }

  /** Full tanks at 1000 and 2000, odometer 100 and 200, 5 litres each, as stored. */
  function TwoFullTanks(): seq<FuelEntry> {
    [FullTank(1000, 100.0, 5.0).(id := 1)] + [FullTank(2000, 200.0, 5.0).(id := 2, mileage := Some(20.0))]
  }

  /** Two full tanks: the second gets (200 - 100) / 5. */
  lemma TwoFullTanksGiveTheirMileage()
    ensures var f1, f2 := FullTank(1000, 100.0, 5.0), FullTank(2000, 200.0, 5.0);
            Logs([], 0, f1, [f1.(id := 1)]) && Logs([f1.(id := 1)], 1, f2, TwoFullTanks())
    ensures Chronological(TwoFullTanks(), 2) && GetAllOnce(TwoFullTanks()) == TwoFullTanks()
    ensures TwoFullTanks()[1].mileage == Some(20.0)
  {
    var f1, f2 := FullTank(1000, 100.0, 5.0), FullTank(2000, 200.0, 5.0);
    FirstFillIsLogged(f1);
    FullAfterFullIsLogged([f1.(id := 1)], 1, f2);
    assert (200.0 - 100.0) / 5.0 == 20.0;
    ListedAsStored(TwoFullTanks());
  }

  /** A second full tank at a smaller odometer is refused, naming the previous odometer. */
  lemma SmallerOdometerIsRejected()
    ensures var f1, f2 := FullTank(1000, 200.0, 5.0), FullTank(2000, 150.0, 5.0);
            Logs([], 0, f1, [f1.(id := 1)]) && ValidateOdometer([f1.(id := 1)], f2) == Fail(OdometerNotAbovePrevious(200.0))
  {
    var f1, f2 := FullTank(1000, 200.0, 5.0), FullTank(2000, 150.0, 5.0);
    FirstFillIsLogged(f1);
    LatestIsUnique([f1.(id := 1)], Before(2000), f1.(id := 1));
  }

  /** Full tanks at 1000, 2000, 3000 and 4000, odometer 100 to 400, 5 litres each, as stored. */
  function FourFullTanks(): seq<FuelEntry> {
    [FullTank(1000, 100.0, 5.0).(id := 1)]
      + [FullTank(2000, 200.0, 5.0).(id := 2, mileage := Some(20.0))]
      + [FullTank(3000, 300.0, 5.0).(id := 3, mileage := Some(20.0))]
      + [FullTank(4000, 400.0, 5.0).(id := 4, mileage := Some(20.0))]
  }

  /** Logging four full tanks 100 km and 5 litres apart gives each later one 20. */
  lemma FourFullTanksAreLogged()
    ensures var t1 := [FullTank(1000, 100.0, 5.0).(id := 1)];
            var t2 := t1 + [FullTank(2000, 200.0, 5.0).(id := 2, mileage := Some(20.0))];
            var t3 := t2 + [FullTank(3000, 300.0, 5.0).(id := 3, mileage := Some(20.0))];
            && Logs([], 0, FullTank(1000, 100.0, 5.0), t1)
            && Logs(t1, 1, FullTank(2000, 200.0, 5.0), t2)
            && Logs(t2, 2, FullTank(3000, 300.0, 5.0), t3)
            && Logs(t3, 3, FullTank(4000, 400.0, 5.0), FourFullTanks())
    ensures Chronological(FourFullTanks(), 4) && GetAllOnce(FourFullTanks()) == FourFullTanks()
  {
    var t1 := [FullTank(1000, 100.0, 5.0).(id := 1)];
    var t2 := t1 + [FullTank(2000, 200.0, 5.0).(id := 2, mileage := Some(20.0))];
    var t3 := t2 + [FullTank(3000, 300.0, 5.0).(id := 3, mileage := Some(20.0))];
    FirstFillIsLogged(FullTank(1000, 100.0, 5.0));
    FullAfterFullIsLogged(t1, 1, FullTank(2000, 200.0, 5.0));
    assert (200.0 - 100.0) / 5.0 == 20.0;
    FullAfterFullIsLogged(t2, 2, FullTank(3000, 300.0, 5.0));
    assert (300.0 - 200.0) / 5.0 == 20.0;
    FullAfterFullIsLogged(t3, 3, FullTank(4000, 400.0, 5.0));
    assert (400.0 - 300.0) / 5.0 == 20.0;
    ListedAsStored(FourFullTanks());
  }

  /** Partial fills between two full tanks are counted: 100 km over 3 + 2 + 5 litres. */
  lemma PartialTanksAreCounted()
    ensures var t1 := [FullTank(1000, 100.0, 5.0).(id := 1)];
            var t2 := t1 + [PartialTank(1100, 130.0, 3.0).(id := 2)];
            var t3 := t2 + [PartialTank(1200, 160.0, 2.0).(id := 3)];
            var t4 := t3 + [FullTank(2000, 200.0, 5.0).(id := 4, mileage := Some(10.0))];
            && Logs([], 0, FullTank(1000, 100.0, 5.0), t1)
            && Logs(t1, 1, PartialTank(1100, 130.0, 3.0), t2)
            && Logs(t2, 2, PartialTank(1200, 160.0, 2.0), t3)
            && Logs(t3, 3, FullTank(2000, 200.0, 5.0), t4)
            && GetAllOnce(t4) == t4 && t4[3].mileage == Some(10.0)
  {
    var t1 := [FullTank(1000, 100.0, 5.0).(id := 1)];
    var t2 := t1 + [PartialTank(1100, 130.0, 3.0).(id := 2)];
    var t3 := t2 + [PartialTank(1200, 160.0, 2.0).(id := 3)];
    FirstFillIsLogged(FullTank(1000, 100.0, 5.0));
    PartialIsLogged(t1, 1, PartialTank(1100, 130.0, 3.0));
    PartialIsLogged(t2, 2, PartialTank(1200, 160.0, 2.0));
    FullAfterTwoPartialsIsLogged(t3, 3, FullTank(2000, 200.0, 5.0));
    assert (200.0 - 100.0) / (3.0 + 2.0 + 5.0) == 10.0;
    ListedAsStored(t3 + [FullTank(2000, 200.0, 5.0).(id := 4, mileage := Some(10.0))]);
  }

  /** One row of `EditedTable`'s conclusion: the swept row `i` carries its cycle's mileage. */
  lemma EditedTableAt(rows: seq<FuelEntry>, lastId: int, k: int, e: FuelEntry, i: int)
    requires Chronological(rows, lastId)
    requires 0 <= k < |rows| && rows[k].id == e.id && rows[k].dateTime == e.dateTime
    requires e.isFullTank && NoneMatch(rows, FullBefore(e.dateTime)) ==> e.mileage.None?
    requires 0 <= i < |rows| && rows[k := e][i].isFullTank
    ensures var u := rows[k := e];
            var r := Recalculated(Updated(rows, e), e);
            && |r| == |rows| && InTimeOrder(u) && SameButMileage(u, r) && r[i].mileage == CycleMileage(u, u[i])
  {
    EditedTable(rows, lastId, k, e, Updated(rows, e), Recalculated(Updated(rows, e), e));
  }

  /** After an in-place edit, a full tank right after a full tank gets distance over its own fill. */
  lemma EditedCycleAfterFull(rows: seq<FuelEntry>, lastId: int, k: int, e: FuelEntry, u: seq<FuelEntry>, r: seq<FuelEntry>, a: int, b: int)
    requires Chronological(rows, lastId)
    requires 0 <= k < |rows| && rows[k].id == e.id && rows[k].dateTime == e.dateTime
    requires e.isFullTank && NoneMatch(rows, FullBefore(e.dateTime)) ==> e.mileage.None?
    requires u == rows[k := e] && r == Recalculated(Updated(rows, e), e)
    requires 0 <= a && b == a + 1 && b < |rows|
    requires u[a].isFullTank && u[b].isFullTank && u[a].odometer < u[b].odometer && u[b].quantity > 0.0
    ensures |r| == |rows| && r[b].mileage == Some((u[b].odometer - u[a].odometer) / u[b].quantity)
  {
    EditedTableAt(rows, lastId, k, e, b);
    MileageAfterFullTank(u, r, a, b);
  }

  /** After an in-place edit, a full tank after one partial fill that follows a full tank counts both fills. */
  lemma EditedCycleAfterPartial(rows: seq<FuelEntry>, lastId: int, k: int, e: FuelEntry, u: seq<FuelEntry>, r: seq<FuelEntry>, a: int, b: int, c: int)
    requires Chronological(rows, lastId)
    requires 0 <= k < |rows| && rows[k].id == e.id && rows[k].dateTime == e.dateTime
    requires e.isFullTank && NoneMatch(rows, FullBefore(e.dateTime)) ==> e.mileage.None?
    requires u == rows[k := e] && r == Recalculated(Updated(rows, e), e)
    requires 0 <= a && b == a + 1 && c == b + 1 && c < |rows|
    requires u[a].isFullTank && !u[b].isFullTank && u[c].isFullTank
    requires u[a].odometer < u[c].odometer && u[b].quantity + u[c].quantity > 0.0
    ensures |r| == |rows| && r[c].mileage == Some((u[c].odometer - u[a].odometer) / (u[b].quantity + u[c].quantity))
  {
    EditedTableAt(rows, lastId, k, e, c);
    MileageAfterPartial(u, r, a, b, c);
  }

  /** After an in-place edit, a full tank whose cycle does not reach the edited row keeps its row. */
  lemma EditedKeepsRow(rows: seq<FuelEntry>, lastId: int, k: int, e: FuelEntry, u: seq<FuelEntry>, r: seq<FuelEntry>, j: int)
    requires Chronological(rows, lastId)
    requires 0 <= k < |rows| && rows[k].id == e.id && rows[k].dateTime == e.dateTime
    requires e.isFullTank && NoneMatch(rows, FullBefore(e.dateTime)) ==> e.mileage.None?
    requires u == rows[k := e] && r == Recalculated(Updated(rows, e), e)
    requires k + 1 < j < |rows| && rows[j - 1].isFullTank && rows[j].isFullTank && rows[j].quantity > 0.0
    ensures |r| == |rows| && r[j] == rows[j]
  {
    var p, x := rows[j - 1], rows[j];
    EditedTableAt(rows, lastId, k, e, j);
    assert u[j - 1] == p && u[j] == x;
    assert p in rows && x in rows && p.dateTime < x.dateTime;
    UntouchedFullTank(rows, j, u, r);
  }

  /** The mileage written for a full tank right after a full tank. */
  lemma MileageAfterFullTank(u: seq<FuelEntry>, r: seq<FuelEntry>, a: int, b: int)
    requires InTimeOrder(u) && 0 <= a && b == a + 1 && b < |u| && b < |r|
    requires u[a].isFullTank && u[b].isFullTank && u[a].odometer < u[b].odometer && u[b].quantity > 0.0
    requires r[b].mileage == CycleMileage(u, u[b])
    ensures r[b].mileage == Some((u[b].odometer - u[a].odometer) / u[b].quantity)
  {
    CycleAfterFullTank(u, b, u[a], u[b]);
  }

  /** The mileage written for a full tank after one partial fill that follows a full tank. */
  lemma MileageAfterPartial(u: seq<FuelEntry>, r: seq<FuelEntry>, a: int, b: int, c: int)
    requires InTimeOrder(u) && 0 <= a && b == a + 1 && c == b + 1 && c < |u| && c < |r|
    requires u[a].isFullTank && !u[b].isFullTank && u[c].isFullTank
    requires u[a].odometer < u[c].odometer && u[b].quantity + u[c].quantity > 0.0
    requires r[c].mileage == CycleMileage(u, u[c])
    ensures r[c].mileage == Some((u[c].odometer - u[a].odometer) / (u[b].quantity + u[c].quantity))
  {
    CycleAfterPartial(u, c, u[a], u[b], u[c]);
  }

  /** A full tank after a full tank, both unchanged by an in-place edit elsewhere, keeps its row. */
  lemma UntouchedFullTank(rows: seq<FuelEntry>, j: int, u: seq<FuelEntry>, r: seq<FuelEntry>)
    requires InTimeOrder(rows) && 0 < j < |rows| && |u| == |rows|
    requires rows[j - 1].isFullTank && rows[j].isFullTank && rows[j].quantity > 0.0
    requires rows[j - 1].odometer < rows[j].odometer && rows[j].mileage == CycleMileage(rows, rows[j])
    requires InTimeOrder(u) && u[j - 1] == rows[j - 1] && u[j] == rows[j]
    requires SameButMileage(u, r) && r[j].mileage == CycleMileage(u, u[j])
    ensures r[j] == rows[j]
  {
    var p, x := rows[j - 1], rows[j];
    CycleAfterFullTank(u, j, p, x);
    CycleAfterFullTank(rows, j, p, x);
  }

  /** A full tank, a 2-litre partial fill and a full tank, as stored. */
  function FullPartialFull(): seq<FuelEntry> {
    [FullTank(1000, 100.0, 5.0).(id := 1)]
      + [PartialTank(1100, 130.0, 2.0).(id := 2)]
      + [FullTank(2000, 200.0, 5.0).(id := 3, mileage := Some(100.0 / 7.0))]
  }

  lemma FullPartialFullIsLogged()
    ensures var t1 := [FullTank(1000, 100.0, 5.0).(id := 1)];
            var t2 := t1 + [PartialTank(1100, 130.0, 2.0).(id := 2)];
            && Logs([], 0, FullTank(1000, 100.0, 5.0), t1)
            && Logs(t1, 1, PartialTank(1100, 130.0, 2.0), t2)
            && Logs(t2, 2, FullTank(2000, 200.0, 5.0), FullPartialFull())
    ensures Chronological(FullPartialFull(), 3)
  {
    var t1 := [FullTank(1000, 100.0, 5.0).(id := 1)];
    var t2 := t1 + [PartialTank(1100, 130.0, 2.0).(id := 2)];
    FirstFillIsLogged(FullTank(1000, 100.0, 5.0));
    PartialIsLogged(t1, 1, PartialTank(1100, 130.0, 2.0));
    FullAfterPartialIsLogged(t2, 2, FullTank(2000, 200.0, 5.0));
    assert (200.0 - 100.0) / (2.0 + 5.0) == 100.0 / 7.0;
  }

  /** A full tank, a 5-litre partial fill and two full tanks, as stored. */
  function FullPartialFullFull(): seq<FuelEntry> {
    [FullTank(1000, 100.0, 5.0).(id := 1)]
      + [PartialTank(1500, 150.0, 5.0).(id := 2)]
      + [FullTank(2000, 200.0, 5.0).(id := 3, mileage := Some(10.0))]
      + [FullTank(3000, 300.0, 5.0).(id := 4, mileage := Some(20.0))]
  }

  lemma FullPartialFullFullIsLogged()
    ensures var t1 := [FullTank(1000, 100.0, 5.0).(id := 1)];
            var t2 := t1 + [PartialTank(1500, 150.0, 5.0).(id := 2)];
            var t3 := t2 + [FullTank(2000, 200.0, 5.0).(id := 3, mileage := Some(10.0))];
            && Logs([], 0, FullTank(1000, 100.0, 5.0), t1)
            && Logs(t1, 1, PartialTank(1500, 150.0, 5.0), t2)
            && Logs(t2, 2, FullTank(2000, 200.0, 5.0), t3)
            && Logs(t3, 3, FullTank(3000, 300.0, 5.0), FullPartialFullFull())
    ensures Chronological(FullPartialFullFull(), 4) && GetAllOnce(FullPartialFullFull()) == FullPartialFullFull()
  {
    var t1 := [FullTank(1000, 100.0, 5.0).(id := 1)];
    var t2 := t1 + [PartialTank(1500, 150.0, 5.0).(id := 2)];
    var t3 := t2 + [FullTank(2000, 200.0, 5.0).(id := 3, mileage := Some(10.0))];
    FirstFillIsLogged(FullTank(1000, 100.0, 5.0));
    PartialIsLogged(t1, 1, PartialTank(1500, 150.0, 5.0));
    FullAfterPartialIsLogged(t2, 2, FullTank(2000, 200.0, 5.0));
    assert (200.0 - 100.0) / (5.0 + 5.0) == 10.0;
    FullAfterFullIsLogged(t3, 3, FullTank(3000, 300.0, 5.0));
    assert (300.0 - 200.0) / 5.0 == 20.0;
    ListedAsStored(FullPartialFullFull());
  }

  /** The tables the edit tests start from, without the history that built them. */
  lemma TwoFullTanksAreStored()
    ensures Chronological(TwoFullTanks(), 2)
  {
    TwoFullTanksGiveTheirMileage();
  }

  lemma FourFullTanksAreStored()
    ensures Chronological(FourFullTanks(), 4)
  {
    FourFullTanksAreLogged();
  }

  lemma FullPartialFullIsStored()
    ensures Chronological(FullPartialFull(), 3)
  {
    FullPartialFullIsLogged();
  }

  lemma FullPartialFullFullIsStored()
    ensures Chronological(FullPartialFullFull(), 4)
  {
    FullPartialFullFullIsLogged();
  }
}
