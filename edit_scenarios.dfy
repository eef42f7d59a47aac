/**
 * The repository's edit tests with their numbers: each starts from a table logged fill by fill,
 * edits one row in place, and reads the swept table back through `getAllOnce`.
 */
module EditScenarios {
  import opened Wrappers
  import opened Entity
  import opened Dao
  import opened Repository
  import opened Scenarios

  /** Raising the partial fill to 5 litres gives the next full tank 100 km over 5 + 5 litres. */
  lemma PartialEditRecalculatesNextFullTank()
    ensures var rows := FullPartialFull();
            var e := rows[1].(quantity := 5.0);
            var r := Recalculated(Updated(rows, e), e);
            && ValidateOdometer(rows, e) == Pass
            && GetAllOnce(r) == r && |r| == 3 && r[2].mileage == Some(10.0)
  {
    var rows := FullPartialFull();
    var e := rows[1].(quantity := 5.0);
    FullPartialFullIsStored();
    InPlaceEditPasses(rows, 3, 1, e);
    var u, r := rows[1 := e], Recalculated(Updated(rows, e), e);
    EditedTable(rows, 3, 1, e, Updated(rows, e), r);
    EditedCycleAfterPartial(rows, 3, 1, e, u, r, 0, 1, 2);
    assert (200.0 - 100.0) / (5.0 + 5.0) == 10.0;
  }

  /** Doubling the first full tank's quantity leaves the second at 100 km over its own 5 litres. */
  lemma PreviousQuantityEditKeepsMileage()
    ensures var rows := TwoFullTanks();
            var e := rows[0].(quantity := 10.0);
            var r := Recalculated(Updated(rows, e), e);
            && ValidateOdometer(rows, e) == Pass
            && GetAllOnce(r) == r && |r| == 2 && r[1].mileage == Some(20.0)
  {
    var rows := TwoFullTanks();
    var e := rows[0].(quantity := 10.0);
    TwoFullTanksAreStored();
    InPlaceEditPasses(rows, 2, 0, e);
    var u, r := rows[0 := e], Recalculated(Updated(rows, e), e);
    EditedTable(rows, 2, 0, e, Updated(rows, e), r);
    EditedCycleAfterFull(rows, 2, 0, e, u, r, 0, 1);
    assert (200.0 - 100.0) / 5.0 == 20.0;
  }

  /** Moving the first full tank's odometer to 120 gives the second 80 km over 5 litres. */
  lemma PreviousOdometerEditChangesMileage()
    ensures var rows := TwoFullTanks();
            var e := rows[0].(odometer := 120.0);
            var r := Recalculated(Updated(rows, e), e);
            && ValidateOdometer(rows, e) == Pass
            && GetAllOnce(r) == r && |r| == 2 && r[1].mileage == Some(16.0)
  {
    var rows := TwoFullTanks();
    var e := rows[0].(odometer := 120.0);
    TwoFullTanksAreStored();
    InPlaceEditPasses(rows, 2, 0, e);
    var u, r := rows[0 := e], Recalculated(Updated(rows, e), e);
    EditedTable(rows, 2, 0, e, Updated(rows, e), r);
    EditedCycleAfterFull(rows, 2, 0, e, u, r, 0, 1);
    assert (200.0 - 120.0) / 5.0 == 16.0;
  }

  /** What the edits below read of the four full tanks: 100 km and 5 litres apart. */
  lemma FourFullTanksFields()
    ensures var rows := FourFullTanks();
            && |rows| == 4
            && rows[0].isFullTank && rows[1].isFullTank && rows[2].isFullTank && rows[3].isFullTank
            && rows[0].odometer == 100.0 && rows[1].odometer == 200.0
            && rows[2].odometer == 300.0 && rows[3].odometer == 400.0
            && rows[1].quantity == 5.0 && rows[2].quantity == 5.0 && rows[3].quantity == 5.0
            && rows[3].mileage == Some(20.0)
  {
  }

  /** Raising F3's quantity to 10 litres halves F3's mileage and leaves F4's at 20. */
  lemma ThirdQuantityEditChangesOnlyThird(rows: seq<FuelEntry>, e: FuelEntry)
    requires rows == FourFullTanks() && e == rows[2].(quantity := 10.0)
    ensures var r := Recalculated(Updated(rows, e), e);
            && ValidateOdometer(rows, e) == Pass
            && GetAllOnce(r) == r && |r| == 4
            && r[2].mileage == Some(10.0) && r[3].mileage == Some(20.0)
  {
    FourFullTanksFields();
    FourFullTanksAreStored();
    ThirdQuantityEdit(rows, e, rows[2 := e], Recalculated(Updated(rows, e), e));
  }

  lemma ThirdQuantityEdit(rows: seq<FuelEntry>, e: FuelEntry, u: seq<FuelEntry>, r: seq<FuelEntry>)
    requires Chronological(rows, 4) && |rows| == 4
    requires rows[0].isFullTank && rows[1].isFullTank && rows[2].isFullTank && rows[3].isFullTank
    requires rows[0].odometer == 100.0 && rows[1].odometer == 200.0
    requires rows[2].odometer == 300.0 && rows[3].odometer == 400.0
    requires rows[1].quantity == 5.0 && rows[2].quantity == 5.0 && rows[3].quantity == 5.0
    requires rows[3].mileage == Some(20.0)
    requires e == rows[2].(quantity := 10.0)
    requires u == rows[2 := e] && r == Recalculated(Updated(rows, e), e)
    ensures ValidateOdometer(rows, e) == Pass && GetAllOnce(r) == r && |r| == 4
    ensures r[2].mileage == Some(10.0) && r[3].mileage == Some(20.0)
  {
    InPlaceEditPasses(rows, 4, 2, e);
    assert rows[0] in rows && Matches(FullBefore(e.dateTime), rows[0]);
    EditedTable(rows, 4, 2, e, Updated(rows, e), r);
    assert u[1].odometer == 200.0 && u[2].odometer == 300.0 && u[3].odometer == 400.0;
    assert u[2].quantity == 10.0 && u[3].quantity == 5.0;
    EditedCycleAfterFull(rows, 4, 2, e, u, r, 1, 2);
    assert r[2].mileage == Some((300.0 - 200.0) / 10.0);
    EditedCycleAfterFull(rows, 4, 2, e, u, r, 2, 3);
    assert r[3].mileage == Some((400.0 - 300.0) / 5.0);
  }

  /** Moving F2's odometer to 250 gives F2 30 and F3 10, and leaves F4 as it was. */
  lemma SecondOdometerEditChangesSecondAndThird(rows: seq<FuelEntry>, e: FuelEntry)
    requires rows == FourFullTanks() && e == rows[1].(odometer := 250.0)
    ensures var r := Recalculated(Updated(rows, e), e);
            && ValidateOdometer(rows, e) == Pass
            && GetAllOnce(r) == r && |r| == 4
            && r[1].mileage == Some(30.0) && r[2].mileage == Some(10.0)
            && r[3] == rows[3] && r[3].mileage == Some(20.0)
  {
    FourFullTanksFields();
    FourFullTanksAreStored();
    SecondOdometerEdit(rows, e, rows[1 := e], Recalculated(Updated(rows, e), e));
  }

  lemma SecondOdometerEdit(rows: seq<FuelEntry>, e: FuelEntry, u: seq<FuelEntry>, r: seq<FuelEntry>)
    requires Chronological(rows, 4) && |rows| == 4
    requires rows[0].isFullTank && rows[1].isFullTank && rows[2].isFullTank && rows[3].isFullTank
    requires rows[0].odometer == 100.0 && rows[1].odometer == 200.0
    requires rows[2].odometer == 300.0 && rows[3].odometer == 400.0
    requires rows[1].quantity == 5.0 && rows[2].quantity == 5.0 && rows[3].quantity == 5.0
    requires rows[3].mileage == Some(20.0)
    requires e == rows[1].(odometer := 250.0)
    requires u == rows[1 := e] && r == Recalculated(Updated(rows, e), e)
    ensures ValidateOdometer(rows, e) == Pass && GetAllOnce(r) == r && |r| == 4
    ensures r[1].mileage == Some(30.0) && r[2].mileage == Some(10.0)
    ensures r[3] == rows[3] && r[3].mileage == Some(20.0)
  {
    InPlaceEditPasses(rows, 4, 1, e);
    assert rows[0] in rows && Matches(FullBefore(e.dateTime), rows[0]);
    EditedTable(rows, 4, 1, e, Updated(rows, e), r);
    assert u[0].odometer == 100.0 && u[1].odometer == 250.0 && u[2].odometer == 300.0;
    assert u[1].quantity == 5.0 && u[2].quantity == 5.0;
    EditedCycleAfterFull(rows, 4, 1, e, u, r, 0, 1);
    assert r[1].mileage == Some((250.0 - 100.0) / 5.0);
    EditedCycleAfterFull(rows, 4, 1, e, u, r, 1, 2);
    assert r[2].mileage == Some((300.0 - 250.0) / 5.0);
    EditedKeepsRow(rows, 4, 1, e, u, r, 3);
  }

  /** What the last edit reads of its table: a partial fill between three full tanks. */
  lemma FullPartialFullFullFields()
    ensures var rows := FullPartialFullFull();
            && |rows| == 4
            && rows[0].isFullTank && !rows[1].isFullTank && rows[2].isFullTank && rows[3].isFullTank
            && rows[0].odometer == 100.0 && rows[1].odometer == 150.0
            && rows[2].odometer == 200.0 && rows[3].odometer == 300.0
            && rows[2].quantity == 5.0 && rows[3].quantity == 5.0
            && rows[3].mileage == Some(20.0)
  {
  }

  /** Raising P1 to 10 litres gives F2 100 km over 10 + 5 litres and leaves F3 as it was. */
  lemma PartialEditChangesOnlyNextFullTank(rows: seq<FuelEntry>, e: FuelEntry)
    requires rows == FullPartialFullFull() && e == rows[1].(quantity := 10.0)
    ensures var r := Recalculated(Updated(rows, e), e);
            && ValidateOdometer(rows, e) == Pass
            && GetAllOnce(r) == r && |r| == 4
            && r[2].mileage == Some(20.0 / 3.0)
            && r[3] == rows[3] && r[3].mileage == Some(20.0)
  {
    FullPartialFullFullFields();
    FullPartialFullFullIsStored();
    PartialEdit(rows, e, rows[1 := e], Recalculated(Updated(rows, e), e));
  }

  lemma PartialEdit(rows: seq<FuelEntry>, e: FuelEntry, u: seq<FuelEntry>, r: seq<FuelEntry>)
    requires Chronological(rows, 4) && |rows| == 4
    requires rows[0].isFullTank && !rows[1].isFullTank && rows[2].isFullTank && rows[3].isFullTank
    requires rows[0].odometer == 100.0 && rows[1].odometer == 150.0
    requires rows[2].odometer == 200.0 && rows[3].odometer == 300.0
    requires rows[2].quantity == 5.0 && rows[3].quantity == 5.0
    requires rows[3].mileage == Some(20.0)
    requires e == rows[1].(quantity := 10.0)
    requires u == rows[1 := e] && r == Recalculated(Updated(rows, e), e)
    ensures ValidateOdometer(rows, e) == Pass && GetAllOnce(r) == r && |r| == 4
    ensures r[2].mileage == Some(20.0 / 3.0)
    ensures r[3] == rows[3] && r[3].mileage == Some(20.0)
  {
    InPlaceEditPasses(rows, 4, 1, e);
    EditedTable(rows, 4, 1, e, Updated(rows, e), r);
    assert u[0].odometer == 100.0 && u[2].odometer == 200.0;
    assert u[1].quantity == 10.0 && u[2].quantity == 5.0;
    EditedCycleAfterPartial(rows, 4, 1, e, u, r, 0, 1, 2);
    assert r[2].mileage == Some((200.0 - 100.0) / (10.0 + 5.0));
    EditedKeepsRow(rows, 4, 1, e, u, r, 3);
  }
}
