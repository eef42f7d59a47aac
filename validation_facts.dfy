/**
 * What `validateOdometer` decides, in terms of the whole table: which reason wins when several
 * apply, when it accepts exactly the entries that keep odometer readings increasing with time,
 * and where it does not (an update that moves an entry past its own neighbour).
 */
module ValidationFacts {
  import opened Wrappers
  import opened Entity
  import opened Dao
  import opened DaoFacts
  import opened Repository

  /** The nearest earlier row is another entry whose odometer is not below the candidate's. */
  ghost predicate PreviousClashes(rows: seq<FuelEntry>, entry: FuelEntry) {
    exists b :: IsLatest(rows, Before(entry.dateTime), b) && b.id != entry.id && entry.odometer <= b.odometer
  }

  /** The nearest later row is another entry whose odometer is not above the candidate's. */
  ghost predicate NextClashes(rows: seq<FuelEntry>, entry: FuelEntry) {
    exists a :: IsEarliest(rows, After(entry.dateTime), a) && a.id != entry.id && entry.odometer >= a.odometer
  }

  /** Another entry is stored at the candidate's instant. */
  ghost predicate TimeTaken(rows: seq<FuelEntry>, entry: FuelEntry) {
    exists x :: x in rows && x.dateTime == entry.dateTime && x.id != entry.id
  }

  /** The first check fails exactly when the nearest earlier row is another entry not below the candidate. */
  lemma PreviousCheck(rows: seq<FuelEntry>, entry: FuelEntry)
    requires UniqueTimes(rows)
    ensures var before := TakeIfOtherId(GetEntryBefore(rows, entry.dateTime), entry.id);
            (before.Some? && entry.odometer <= before.value.odometer) <==> PreviousClashes(rows, entry)
  {
    var before := GetEntryBefore(rows, entry.dateTime);
    if b :| IsLatest(rows, Before(entry.dateTime), b) && b.id != entry.id && entry.odometer <= b.odometer {
      LatestIsUnique(rows, Before(entry.dateTime), b);
    }
    if before.Some? {
      assert IsLatest(rows, Before(entry.dateTime), before.value);
    }
  }

  /** The second check fails exactly when the nearest later row is another entry not above the candidate. */
  lemma NextCheck(rows: seq<FuelEntry>, entry: FuelEntry)
    requires UniqueTimes(rows)
    ensures var after := TakeIfOtherId(GetEntryAfter(rows, entry.dateTime), entry.id);
            (after.Some? && entry.odometer >= after.value.odometer) <==> NextClashes(rows, entry)
  {
    var after := GetEntryAfter(rows, entry.dateTime);
    if a :| IsEarliest(rows, After(entry.dateTime), a) && a.id != entry.id && entry.odometer >= a.odometer {
      EarliestIsUnique(rows, After(entry.dateTime), a);
    }
    if after.Some? {
      assert IsEarliest(rows, After(entry.dateTime), after.value);
    }
  }

  /** The third check fails exactly when another entry holds the candidate's instant. */
  lemma TimeCheck(rows: seq<FuelEntry>, entry: FuelEntry)
    requires UniqueTimes(rows)
    ensures TakeIfOtherId(GetEntryAtTime(rows, entry.dateTime), entry.id).Some? <==> TimeTaken(rows, entry)
  {
    if x :| x in rows && x.dateTime == entry.dateTime && x.id != entry.id {
      var y := GetEntryAtTime(rows, entry.dateTime);
      SameTimeSameRow(rows, x, y.value);
    }
  }

  /**
   * The three checks, in the order the repository runs them: the previous odometer wins over
   * the next one, and both win over the instant; an entry clashing with none of them passes.
   */
  lemma ValidationOrder(rows: seq<FuelEntry>, entry: FuelEntry)
    requires UniqueTimes(rows)
    ensures var r := ValidateOdometer(rows, entry);
            && (PreviousClashes(rows, entry) ==> r.Fail? && r.error.OdometerNotAbovePrevious?)
            && (!PreviousClashes(rows, entry) && NextClashes(rows, entry) ==> r.Fail? && r.error.OdometerNotBelowNext?)
            && (!PreviousClashes(rows, entry) && !NextClashes(rows, entry) ==> (r == Fail(EntryExistsAtTime) <==> TimeTaken(rows, entry)))
            && (r.Pass? <==> !PreviousClashes(rows, entry) && !NextClashes(rows, entry) && !TimeTaken(rows, entry))
  {
    PreviousCheck(rows, entry);
    NextCheck(rows, entry);
    TimeCheck(rows, entry);
  }

  /** Odometer readings grow strictly with time. */
  ghost predicate OdometerIncreasing(rows: seq<FuelEntry>) {
    forall x, y :: x in rows && y in rows && x.dateTime < y.dateTime ==> x.odometer < y.odometer
  }

  /** Against every other stored entry, the candidate has its own instant and an odometer in time order. */
  ghost predicate FitsAmong(rows: seq<FuelEntry>, entry: FuelEntry) {
    forall x :: x in rows && x.id != entry.id ==>
      && x.dateTime != entry.dateTime
      && (x.dateTime < entry.dateTime ==> x.odometer < entry.odometer)
      && (x.dateTime > entry.dateTime ==> x.odometer > entry.odometer)
  }

  /**
   * On a table whose odometer increases with time, for a new entry or an edit that keeps its
   * instant, checking the two nearest neighbours is the same as checking every entry.
   */
  lemma ValidationIsExact(rows: seq<FuelEntry>, entry: FuelEntry)
    requires WellFormed(rows) && OdometerIncreasing(rows)
    requires forall x :: x in rows && x.id == entry.id ==> x.dateTime == entry.dateTime
    ensures ValidateOdometer(rows, entry).Pass? <==> FitsAmong(rows, entry)
  {
    ValidationOrder(rows, entry);
    var t := entry.dateTime;
    if ValidateOdometer(rows, entry).Pass? {
      forall x | x in rows && x.id != entry.id
        ensures x.dateTime != t
        ensures x.dateTime < t ==> x.odometer < entry.odometer
        ensures x.dateTime > t ==> x.odometer > entry.odometer
      {
        if x.dateTime < t {
          var b := GetEntryBefore(rows, t).value;
          assert IsLatest(rows, Before(t), b);
          assert x.dateTime <= b.dateTime;
          assert x == b || x.odometer < b.odometer by {
            if x.dateTime == b.dateTime { SameTimeSameRow(rows, x, b); }
          }
        } else if x.dateTime > t {
          var a := GetEntryAfter(rows, t).value;
          assert IsEarliest(rows, After(t), a);
          assert a.dateTime <= x.dateTime;
          assert x == a || a.odometer < x.odometer by {
            if x.dateTime == a.dateTime { SameTimeSameRow(rows, x, a); }
          }
        }
      }
    }
  }

  /** An entry that fits among the others keeps the odometer increasing once inserted. */
  lemma InsertKeepsOdometerIncreasing(rows: seq<FuelEntry>, lastId: int, entry: FuelEntry)
    requires OdometerIncreasing(rows) && FitsAmong(rows, entry)
    requires forall x :: x in rows ==> x.id != entry.id
    ensures OdometerIncreasing(Inserted(rows, lastId, entry))
  {
    var r := Inserted(rows, lastId, entry);
    forall x, y | x in r && y in r && x.dateTime < y.dateTime ensures x.odometer < y.odometer {
      assert r == rows + [r[|rows|]];
    }
  }

  /** An entry that fits among the others keeps the odometer increasing once it replaces its row. */
  lemma UpdateKeepsOdometerIncreasing(rows: seq<FuelEntry>, entry: FuelEntry)
    requires OdometerIncreasing(rows) && FitsAmong(rows, entry)
    ensures OdometerIncreasing(Updated(rows, entry))
  {
    var r := Updated(rows, entry);
    forall x, y | x in r && y in r && x.dateTime < y.dateTime ensures x.odometer < y.odometer {
      var i :| 0 <= i < |r| && r[i] == x;
      var j :| 0 <= j < |r| && r[j] == y;
      assert rows[i] in rows && rows[j] in rows;
    }
  }

  /** An insert that passes validation keeps the odometer increasing, and the store accepts it. */
  lemma ValidatedInsertKeepsOrder(rows: seq<FuelEntry>, lastId: int, entry: FuelEntry)
    requires WellFormed(rows) && OdometerIncreasing(rows)
    requires forall x :: x in rows ==> x.id != entry.id
    requires ValidateOdometer(rows, entry).Pass?
    ensures InsertAllowed(rows, entry)
    ensures OdometerIncreasing(Inserted(rows, lastId, entry))
  {
    ValidationIsExact(rows, entry);
    InsertKeepsOdometerIncreasing(rows, lastId, entry);
  }

  /** An edit that keeps its instant and passes validation keeps the odometer increasing. */
  lemma ValidatedEditKeepsOrder(rows: seq<FuelEntry>, entry: FuelEntry)
    requires WellFormed(rows) && OdometerIncreasing(rows)
    requires forall x :: x in rows && x.id == entry.id ==> x.dateTime == entry.dateTime
    requires ValidateOdometer(rows, entry).Pass?
    ensures UpdateAllowed(rows, entry)
    ensures OdometerIncreasing(Updated(rows, entry))
  {
    ValidationIsExact(rows, entry);
    UpdateKeepsOdometerIncreasing(rows, entry);
  }

  /**
   * Validation with a fresh id (in particular the default id 0) leaves the store nothing to
   * refuse, so the insert's constraint-violation path is taken only for a reused id.
   */
  lemma ValidatedFreshInsertIsStored(rows: seq<FuelEntry>, entry: FuelEntry)
    requires UniqueTimes(rows)
    requires forall x :: x in rows ==> x.id != entry.id
    requires ValidateOdometer(rows, entry).Pass?
    ensures InsertAllowed(rows, entry)
  {
    ValidationOrder(rows, entry);
  }

  function Sample(id: int, dateTime: int, odometer: real): FuelEntry {
    FuelEntry(id, dateTime, odometer, 5.0, 100.0, 500.0, true, Hp, Normal, None, None)
  }

  /**
   * Moving an entry later in time hides the neighbour it passes: with rows at instants 1 and 2,
   * moving the second to instant 3 with a lower odometer passes, since the nearest earlier row
   * is its own old row and `takeIf` drops it; the result is out of odometer order.
   */
  lemma MovedUpdateSkipsOwnNeighbour()
    ensures var rows := [Sample(1, 1, 100.0), Sample(2, 2, 200.0)];
            var moved := Sample(2, 3, 50.0);
            && WellFormed(rows) && OdometerIncreasing(rows)
            && ValidateOdometer(rows, moved).Pass?
            && !OdometerIncreasing(Updated(rows, moved))
  {
    var a, b := Sample(1, 1, 100.0), Sample(2, 2, 200.0);
    var moved := Sample(2, 3, 50.0);
    TwoRowsOrdered(a, b);
    MovedPastOwnRowPasses(a, b, moved);
    MovedPastOwnRowBreaksOrder(a, b, moved);
  }

  lemma TwoRowsOrdered(a: FuelEntry, b: FuelEntry)
    requires a.id == 1 && b.id == 2 && a.dateTime == 1 && b.dateTime == 2 && a.odometer == 100.0 && b.odometer == 200.0
    ensures WellFormed([a, b]) && OdometerIncreasing([a, b])
  {
    var rows := [a, b];
    assert forall y :: y in rows ==> y == a || y == b;
  }

  lemma MovedPastOwnRowPasses(a: FuelEntry, b: FuelEntry, moved: FuelEntry)
    requires a.id == 1 && b.id == 2 && a.dateTime == 1 && b.dateTime == 2
    requires moved.id == 2 && moved.dateTime == 3
    ensures ValidateOdometer([a, b], moved).Pass?
  {
    var rows := [a, b];
    assert forall y :: y in rows ==> y == a || y == b;
    assert UniqueTimes(rows);
    assert IsLatest(rows, Before(3), b);
    LatestIsUnique(rows, Before(3), b);
  }

  lemma MovedPastOwnRowBreaksOrder(a: FuelEntry, b: FuelEntry, moved: FuelEntry)
    requires a.id == 1 && b.id == 2 && a.dateTime == 1 && a.odometer == 100.0
    requires moved.id == 2 && moved.dateTime == 3 && moved.odometer == 50.0
    ensures !OdometerIncreasing(Updated([a, b], moved))
  {
    var r := Updated([a, b], moved);
    assert r[0] == a && r[1] == moved;
    assert a in r && moved in r;
  }
}
