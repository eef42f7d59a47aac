/** The fuel cycle that closes at a full tank, and its mileage. */
module Cycle {
  import opened Wrappers
  import opened Entity
  import opened Dao
  import opened DaoFacts

  /** The interval between the previous full tank (if any) and `currentFull`. */
  datatype FuelCycle = FuelCycle(
    previousFull: Option<FuelEntry>,
    currentFull: FuelEntry,
    fuelConsumed: real,
    distance: real,
    mileage: Option<real>)

  /**
   * `buildFuelCycle`: the cycle closed by `currentFull`, read from the table. The fuel is what
   * was bought strictly between the two full tanks plus the closing fill itself.
   */
  function BuildFuelCycle(rows: seq<FuelEntry>, currentFull: FuelEntry): (c: FuelCycle)
    requires currentFull.isFullTank
    ensures c.currentFull == currentFull
    ensures c.previousFull.None? <==> forall y :: y in rows && y.isFullTank ==> y.dateTime >= currentFull.dateTime
    ensures c.previousFull.Some? ==> IsLatest(rows, FullBefore(currentFull.dateTime), c.previousFull.value)
    ensures c.previousFull.None? ==> c.fuelConsumed == 0.0 && c.distance == 0.0 && c.mileage.None?
    ensures c.previousFull.Some? ==>
              && c.distance == currentFull.odometer - c.previousFull.value.odometer
              && c.fuelConsumed == SumQuantity(rows, Between(c.previousFull.value.dateTime, currentFull.dateTime)) + currentFull.quantity
    ensures c.mileage.Some? <==> c.distance > 0.0 && c.fuelConsumed > 0.0
    ensures c.mileage.Some? ==> c.mileage.value * c.fuelConsumed == c.distance && c.mileage.value > 0.0
  {
    match GetPreviousFullTank(rows, currentFull.dateTime)
    case None => FuelCycle(None, currentFull, 0.0, 0.0, None)
    case Some(previousFull) =>
      var totalFuel := GetFuelConsumedBetween(rows, previousFull.dateTime, currentFull.dateTime) + currentFull.quantity;
      var distance := currentFull.odometer - previousFull.odometer;
      var mileage := if distance > 0.0 && totalFuel > 0.0 then Some(distance / totalFuel) else None;
      FuelCycle(Some(previousFull), currentFull, totalFuel, distance, mileage)
  }

  /** The mileage that `buildFuelCycle` computes for a full tank. */
  function CycleMileage(rows: seq<FuelEntry>, e: FuelEntry): Option<real>
    requires e.isFullTank
  {
    BuildFuelCycle(rows, e).mileage
  }

  /**
   * Counted over the window `(previousFull, currentFull]` that `getEntriesBetween` selects, the
   * fuel of a stored full tank's cycle is the same: the closing fill is the only row at its instant.
   */
  lemma FuelConsumedOverClosedWindow(rows: seq<FuelEntry>, e: FuelEntry)
    requires UniqueTimes(rows) && e in rows && e.isFullTank
    requires BuildFuelCycle(rows, e).previousFull.Some?
    ensures var c := BuildFuelCycle(rows, e);
            c.fuelConsumed == SumQuantity(rows, Through(c.previousFull.value.dateTime, e.dateTime))
  {
    var p := BuildFuelCycle(rows, e).previousFull.value;
    SumThroughSplits(rows, p.dateTime, e.dateTime);
    SumAtRow(rows, e);
  }

  /**
   * A cycle depends only on the closing fill's instant, odometer and quantity, on which rows
   * are full tanks before it, on those rows' instants and odometers, and on the quantities
   * inside the window. Tables that agree on these, row by row, give the same cycle figures.
   */
  lemma CycleAgrees(r0: seq<FuelEntry>, r1: seq<FuelEntry>, e0: FuelEntry, e1: FuelEntry)
    requires e0.isFullTank && e1.isFullTank
    requires e0.dateTime == e1.dateTime && e0.odometer == e1.odometer && e0.quantity == e1.quantity
    requires |r0| == |r1|
    requires forall i :: 0 <= i < |r0| ==> r0[i].dateTime == r1[i].dateTime
    requires forall i :: 0 <= i < |r0| ==> (Matches(FullBefore(e0.dateTime), r0[i]) <==> Matches(FullBefore(e0.dateTime), r1[i]))
    requires forall i :: 0 <= i < |r0| && Matches(FullBefore(e0.dateTime), r0[i]) ==> r0[i].odometer == r1[i].odometer
    requires var p := GetPreviousFullTank(r0, e0.dateTime);
             p.Some? ==> forall i :: 0 <= i < |r0| && Matches(Between(p.value.dateTime, e0.dateTime), r0[i]) ==> r0[i].quantity == r1[i].quantity
    ensures var c0, c1 := BuildFuelCycle(r0, e0), BuildFuelCycle(r1, e1);
            c0.fuelConsumed == c1.fuelConsumed && c0.distance == c1.distance && c0.mileage == c1.mileage
  {
    var w := FullBefore(e0.dateTime);
    LatestIndexAgrees(r0, r1, w);
    var k := LatestIndex(r0, w);
    if k.Some? {
      var p0, p1 := r0[k.value], r1[k.value];
      var window := Between(p0.dateTime, e0.dateTime);
      assert Between(p1.dateTime, e1.dateTime) == window;
      SumAgrees(r0, r1, window);
      assert GetPreviousFullTank(r0, e0.dateTime) == Some(p0) && GetPreviousFullTank(r1, e1.dateTime) == Some(p1);
    } else {
      assert GetPreviousFullTank(r0, e0.dateTime).None? && GetPreviousFullTank(r1, e1.dateTime).None?;
    }
    CycleFromItsFigures(r0, r1, e0, e1);
  }

  /** Cycles whose previous full tanks sit at the same instant and odometer, over equal fuel, agree. */
  lemma CycleFromItsFigures(r0: seq<FuelEntry>, r1: seq<FuelEntry>, e0: FuelEntry, e1: FuelEntry)
    requires e0.isFullTank && e1.isFullTank
    requires e0.dateTime == e1.dateTime && e0.odometer == e1.odometer && e0.quantity == e1.quantity
    requires var p0, p1 := GetPreviousFullTank(r0, e0.dateTime), GetPreviousFullTank(r1, e1.dateTime);
             && (p0.Some? <==> p1.Some?)
             && (p0.Some? ==> && p0.value.dateTime == p1.value.dateTime && p0.value.odometer == p1.value.odometer
                              && GetFuelConsumedBetween(r0, p0.value.dateTime, e0.dateTime) == GetFuelConsumedBetween(r1, p1.value.dateTime, e1.dateTime))
    ensures var c0, c1 := BuildFuelCycle(r0, e0), BuildFuelCycle(r1, e1);
            c0.fuelConsumed == c1.fuelConsumed && c0.distance == c1.distance && c0.mileage == c1.mileage
  {
  }

  /** Mileages play no part in a cycle: tables that differ only in them give the same cycle figures. */
  lemma CycleIgnoresMileages(r0: seq<FuelEntry>, r1: seq<FuelEntry>, i: int)
    requires SameButMileage(r0, r1) && 0 <= i < |r0| && r0[i].isFullTank
    ensures CycleMileage(r0, r0[i]) == CycleMileage(r1, r1[i])
  {
    assert r1[i] == r0[i].(mileage := r1[i].mileage);
    CycleAgrees(r0, r1, r0[i], r1[i]);
  }

  /** A row appended at or after the closing instant does not change the cycle. */
  lemma CycleIgnoresAppended(rows: seq<FuelEntry>, x: FuelEntry, e: FuelEntry)
    requires e.isFullTank && x.dateTime >= e.dateTime
    ensures BuildFuelCycle(rows + [x], e) == BuildFuelCycle(rows, e)
  {
    var w := FullBefore(e.dateTime);
    var p := GetPreviousFullTank(rows, e.dateTime);
    assert GetPreviousFullTank(rows + [x], e.dateTime) == p by {
      LatestIndexSnoc(rows, x, w);
      var i := LatestIndex(rows, w);
      if i.Some? {
        assert (rows + [x])[i.value] == rows[i.value];
      }
    }
    if p.Some? {
      SumSnoc(rows, x, Between(p.value.dateTime, e.dateTime));
    }
    CycleFromItsQueries(rows + [x], rows, e);
  }

  /** The cycle is read from two queries: tables that answer both alike give the same cycle. */
  lemma CycleFromItsQueries(r0: seq<FuelEntry>, r1: seq<FuelEntry>, e: FuelEntry)
    requires e.isFullTank
    requires GetPreviousFullTank(r0, e.dateTime) == GetPreviousFullTank(r1, e.dateTime)
    requires var p := GetPreviousFullTank(r0, e.dateTime);
             p.Some? ==> GetFuelConsumedBetween(r0, p.value.dateTime, e.dateTime) == GetFuelConsumedBetween(r1, p.value.dateTime, e.dateTime)
    ensures BuildFuelCycle(r0, e) == BuildFuelCycle(r1, e)
  {
  }

  /** Deleting a row at or after the closing instant does not change the cycle. */
  lemma CycleIgnoresDeleted(rows: seq<FuelEntry>, id: int, e: FuelEntry)
    requires WellFormed(rows) && e.isFullTank
    requires forall x :: x in rows && x.id == id ==> x.dateTime >= e.dateTime
    ensures BuildFuelCycle(Deleted(rows, id), e) == BuildFuelCycle(rows, e)
  {
    var p := GetPreviousFullTank(rows, e.dateTime);
    if p.Some? {
      FuelConsumedIgnoresDeleted(rows, id, p.value.dateTime, e.dateTime);
    }
    PreviousFullTankIgnoresDeleted(rows, id, e.dateTime);
    CycleFromItsQueries(Deleted(rows, id), rows, e);
  }

  lemma FuelConsumedIgnoresDeleted(rows: seq<FuelEntry>, id: int, lo: int, hi: int)
    requires forall x :: x in rows && x.id == id ==> x.dateTime >= hi
    ensures GetFuelConsumedBetween(Deleted(rows, id), lo, hi) == GetFuelConsumedBetween(rows, lo, hi)
  {
    SumDeleted(rows, id, Between(lo, hi));
  }

  lemma PreviousFullTankIgnoresDeleted(rows: seq<FuelEntry>, id: int, t: int)
    requires WellFormed(rows)
    requires forall x :: x in rows && x.id == id ==> x.dateTime >= t
    ensures GetPreviousFullTank(Deleted(rows, id), t) == GetPreviousFullTank(rows, t)
  {
    DeletedKeepsWellFormed(rows, id);
    LatestOfSameRows(rows, Deleted(rows, id), FullBefore(t));
  }
}
