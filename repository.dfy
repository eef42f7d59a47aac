/**
 * The fuel repository: validation of a candidate entry against its neighbours, the choice of
 * the full tank a mileage sweep starts from, the sweep itself, and the insert, update and
 * delete entry points that validate, write and sweep.
 */
module Repository {
  import opened Wrappers
  import opened Entity
  import opened Dao
  import opened DaoFacts
  import opened Cycle

  /** The reasons an entry is refused; each is an `IllegalArgumentException` in the repository. */
  datatype InvalidEntry =
    | OdometerNotAbovePrevious(previousOdometer: real)   // "cannot be less than or equal to previous entry"
    | OdometerNotBelowNext(nextOdometer: real)           // "cannot be greater than or equal to next entry"
    | EntryExistsAtTime                                  // the same-instant check of the validation
    | EntryExistsForTime                                 // a constraint violation caught around the insert

  /** How a repository call ends. */
  datatype Response =
    | Done
    | Rejected(reason: InvalidEntry)
    | StorageFailure          // a constraint violation that escapes as a raw storage exception

  // ---------------------------------------------------------------------------
  // validateOdometer
  // ---------------------------------------------------------------------------

  /** `?.takeIf { it.id != id }`: the neighbour is dropped, not replaced, when it has the same id. */
  function TakeIfOtherId(found: Option<FuelEntry>, id: int): Option<FuelEntry> {
    if found.Some? && found.value.id != id then found else None
  }

  /**
   * `validateOdometer`: the nearest earlier row, then the nearest later row, then a row at the
   * same instant; each is ignored when it carries the candidate's own id.
   */
  function ValidateOdometer(rows: seq<FuelEntry>, entry: FuelEntry): (r: Outcome<InvalidEntry>)
    ensures r.Fail? ==> !r.error.EntryExistsForTime?
    ensures r.Fail? && r.error.OdometerNotAbovePrevious? ==>
              exists b :: IsLatest(rows, Before(entry.dateTime), b) && b.id != entry.id &&
                          b.odometer == r.error.previousOdometer && entry.odometer <= b.odometer
    ensures r.Fail? && r.error.OdometerNotBelowNext? ==>
              exists a :: IsEarliest(rows, After(entry.dateTime), a) && a.id != entry.id &&
                          a.odometer == r.error.nextOdometer && entry.odometer >= a.odometer
    ensures r == Fail(EntryExistsAtTime) ==>
              exists x :: x in rows && x.dateTime == entry.dateTime && x.id != entry.id
  {
    var before := TakeIfOtherId(GetEntryBefore(rows, entry.dateTime), entry.id);
    var after := TakeIfOtherId(GetEntryAfter(rows, entry.dateTime), entry.id);
    if before.Some? && entry.odometer <= before.value.odometer then
      Fail(OdometerNotAbovePrevious(before.value.odometer))
    else if after.Some? && entry.odometer >= after.value.odometer then
      Fail(OdometerNotBelowNext(after.value.odometer))
    else
      var sameTimeEntry := TakeIfOtherId(GetEntryAtTime(rows, entry.dateTime), entry.id);
      if sameTimeEntry.Some? then Fail(EntryExistsAtTime) else Pass
  }

  // ---------------------------------------------------------------------------
  // recalculateMileageFrom
  // ---------------------------------------------------------------------------

  /**
   * The rows a sweep from `changedTime` starts at: the earliest full tank at or after the
   * changed instant when some full tank lies before it, and the earliest one strictly after
   * it otherwise.
   */
  ghost function AnchorWhere(rows: seq<FuelEntry>, changedTime: int): Where {
    if NoneMatch(rows, FullBefore(changedTime)) then FullAfter(changedTime) else FullFrom(changedTime)
  }

  /**
   * The first full tank the sweep visits: the full tank after the latest full tank before the
   * changed instant, or, without one, the first full tank after the changed instant.
   */
  function Anchor(rows: seq<FuelEntry>, changedEntry: FuelEntry): (r: Option<FuelEntry>)
    ensures r.Some? ==> IsEarliest(rows, AnchorWhere(rows, changedEntry.dateTime), r.value)
    ensures r.None? <==> NoneMatch(rows, AnchorWhere(rows, changedEntry.dateTime))
  {
    var t := changedEntry.dateTime;
    if changedEntry.isFullTank then
      var viaPrevious :=
        match GetPreviousFullTank(rows, t)
        case Some(previousFull) => GetNextFullTank(rows, previousFull.dateTime)
        case None => None;
      if viaPrevious.Some? then viaPrevious else GetNextFullTank(rows, t)
    else
      var previousFull := GetPreviousFullTank(rows, t);
      if previousFull.Some? then GetNextFullTank(rows, previousFull.value.dateTime)
      else GetNextFullTank(rows, t)
  }

  /** The full tanks a sweep from `anchor` visits. */
  predicate Revisited(anchor: Option<FuelEntry>, e: FuelEntry) {
    anchor.Some? && e.isFullTank && e.dateTime >= anchor.value.dateTime
  }

  /** The table after a sweep from `anchor`: each visited full tank gets the mileage of its cycle. */
  function Swept(rows: seq<FuelEntry>, anchor: Option<FuelEntry>): (r: seq<FuelEntry>)
    ensures SameButMileage(rows, r)
    ensures forall i :: 0 <= i < |rows| && !Revisited(anchor, rows[i]) ==> r[i] == rows[i]
    ensures forall i :: 0 <= i < |rows| && Revisited(anchor, rows[i]) ==> r[i].mileage == CycleMileage(rows, rows[i])
  {
    seq(|rows|, i requires 0 <= i < |rows| =>
      if Revisited(anchor, rows[i]) then rows[i].(mileage := CycleMileage(rows, rows[i])) else rows[i])
  }

  /** The table after `recalculateMileageFrom(changedEntry)`. */
  function Recalculated(rows: seq<FuelEntry>, changedEntry: FuelEntry): seq<FuelEntry> {
    Swept(rows, Anchor(rows, changedEntry))
  }

  /** The number of full tanks after `t`: what is left for the sweep to visit. */
  function FullTanksAfter(rows: seq<FuelEntry>, t: int): nat {
    |Select(rows, FullAfter(t))|
  }

  lemma {:induction false} SelectShrinks(rows: seq<FuelEntry>, wide: Where, narrow: Where, x: FuelEntry)
    requires forall y :: Matches(narrow, y) ==> Matches(wide, y)
    requires x in rows && Matches(wide, x) && !Matches(narrow, x)
    ensures |Select(rows, narrow)| < |Select(rows, wide)|
    decreases |rows|
  {
    var front, last := rows[..|rows| - 1], rows[|rows| - 1];
    assert rows == front + [last];
    if x == last {
      SelectNoLarger(front, wide, narrow);
    } else {
      assert x in front;
      SelectShrinks(front, wide, narrow, x);
    }
  }

  lemma {:induction false} SelectNoLarger(rows: seq<FuelEntry>, wide: Where, narrow: Where)
    requires forall y :: Matches(narrow, y) ==> Matches(wide, y)
    ensures |Select(rows, narrow)| <= |Select(rows, wide)|
    decreases |rows|
  {
    if |rows| > 0 {
      SelectNoLarger(rows[..|rows| - 1], wide, narrow);
    }
  }

  // ---------------------------------------------------------------------------
  // The repository object
  // ---------------------------------------------------------------------------

  class FuelRepository {
    const dao: FuelDao

    ghost predicate Valid()
      reads this, dao
    {
      dao.Valid()
    }

    constructor (dao: FuelDao)
      requires dao.Valid()
      ensures Valid() && this.dao == dao
    {
      this.dao := dao;
    }

    /**
     * `recalculateMileageFrom`: walks the full tanks from the anchor in increasing `dateTime`
     * and writes each one's cycle mileage. `visited` records the walk.
     */
    method RecalculateMileageFrom(changedEntry: FuelEntry) returns (ghost visited: seq<FuelEntry>)
      requires Valid()
      modifies dao
      ensures Valid() && dao.lastId == old(dao.lastId)
      ensures dao.rows == Recalculated(old(dao.rows), changedEntry)
      ensures forall i, j :: 0 <= i < j < |visited| ==> visited[i].dateTime < visited[j].dateTime
      ensures forall x :: x in visited <==> x in old(dao.rows) && Revisited(Anchor(old(dao.rows), changedEntry), x)
    {
      ghost var start := dao.rows;
      ghost var anchor := Anchor(start, changedEntry);
      var currentFullTank := Anchor(dao.rows, changedEntry);
      visited := [];
      SweepBegins(start, changedEntry);
      while currentFullTank.Some?
        invariant dao.Valid() && dao.lastId == old(dao.lastId)
        invariant WellFormed(start)
        invariant currentFullTank.Some? ==> Pending(start, anchor, currentFullTank.value)
        invariant SweptBelow(start, anchor, dao.rows, currentFullTank)
        invariant VisitedBelow(start, anchor, visited, currentFullTank)
        decreases if currentFullTank.Some? then FullTanksAfter(start, currentFullTank.value.dateTime) + 1 else 0
      {
        var current := currentFullTank.value;
        ghost var before := dao.rows;
        ghost var k := SweepPosition(start, anchor, before, current);
        var cycle := BuildFuelCycle(dao.rows, current);
        dao.UpdateMileage(current.id, cycle.mileage);
        currentFullTank := GetNextFullTank(dao.rows, current.dateTime);
        SweepStep(start, anchor, before, dao.rows, k, currentFullTank);
        VisitStep(start, anchor, visited, k, currentFullTank);
        visited := visited + [current];
      }
      SweepEnds(start, anchor, dao.rows, visited);
    }

    /** `insertFuelEntry`: validate, insert (a constraint violation becomes a rejection), sweep. */
    method InsertFuelEntry(entry: FuelEntry) returns (outcome: Response)
      requires Valid()
      modifies dao
      ensures Valid()
      ensures var verdict := ValidateOdometer(old(dao.rows), entry);
              && (verdict.Fail? ==> outcome == Rejected(verdict.error))
              && (verdict.Pass? && !InsertAllowed(old(dao.rows), entry) ==> outcome == Rejected(EntryExistsForTime))
              && (verdict.Pass? && InsertAllowed(old(dao.rows), entry) ==> outcome == Done)
      ensures outcome.Rejected? ==> dao.rows == old(dao.rows) && dao.lastId == old(dao.lastId)
      ensures outcome.Done? ==> dao.rows == Recalculated(Inserted(old(dao.rows), old(dao.lastId), entry), entry)
      ensures outcome.Done? ==> dao.lastId == if AssignedId(old(dao.lastId), entry) > old(dao.lastId) then AssignedId(old(dao.lastId), entry) else old(dao.lastId)
      ensures !outcome.StorageFailure?
    {
      var verdict := ValidateOdometer(dao.rows, entry);
      if verdict.Fail? {
        return Rejected(verdict.error);
      }
      var ok := dao.InsertFuelEntry(entry);
      if !ok {
        return Rejected(EntryExistsForTime);
      }
      ghost var visited := RecalculateMileageFrom(entry);
      return Done;
    }

    /** `updateAndRecalculateMileage`: validate the new entry, update by id, sweep from the new entry. */
    method UpdateAndRecalculateMileage(oldEntry: FuelEntry, newEntry: FuelEntry) returns (outcome: Response)
      requires Valid()
      modifies dao
      ensures Valid() && dao.lastId == old(dao.lastId)
      ensures var verdict := ValidateOdometer(old(dao.rows), newEntry);
              && (verdict.Fail? ==> outcome == Rejected(verdict.error) && dao.rows == old(dao.rows))
              && (verdict.Pass? ==> outcome == Done && dao.rows == Recalculated(Updated(old(dao.rows), newEntry), newEntry))
      ensures !outcome.StorageFailure?
    {
      var verdict := ValidateOdometer(dao.rows, newEntry);
      if verdict.Fail? {
        return Rejected(verdict.error);
      }
      PassedValidationAllowsUpdate(dao.rows, newEntry);
      var ok := dao.UpdateFuelEntry(newEntry);
      if !ok {
        return StorageFailure;
      }
      ghost var visited := RecalculateMileageFrom(newEntry);
      return Done;
    }

    /** `deleteFuelEntry`: delete by id, then sweep from the deleted entry's instant. */
    method DeleteFuelEntry(entry: FuelEntry)
      requires Valid()
      modifies dao
      ensures Valid() && dao.lastId == old(dao.lastId)
      ensures dao.rows == Recalculated(Deleted(old(dao.rows), entry.id), entry)
    {
      dao.DeleteFuelEntry(entry);
      ghost var visited := RecalculateMileageFrom(entry);
    }
  }

  /** A candidate that passes validation cannot make the update break the `dateTime` index. */
  lemma PassedValidationAllowsUpdate(rows: seq<FuelEntry>, entry: FuelEntry)
    requires UniqueTimes(rows) && ValidateOdometer(rows, entry).Pass?
    ensures UpdateAllowed(rows, entry)
  {
    var at := GetEntryAtTime(rows, entry.dateTime);
    forall x | x in rows && x.dateTime == entry.dateTime ensures x.id == entry.id {
      SameTimeSameRow(rows, x, at.value);
    }
  }

  // ---------------------------------------------------------------------------
  // The sweep's loop invariant, and its steps
  // ---------------------------------------------------------------------------

  /** A full tank of the original table that a sweep from `anchor` visits. */
  ghost predicate Pending(start: seq<FuelEntry>, anchor: Option<FuelEntry>, e: FuelEntry) {
    e in start && Revisited(anchor, e)
  }

  /** The visited full tanks already written while the sweep stands at `current`. */
  predicate Written(anchor: Option<FuelEntry>, e: FuelEntry, current: Option<FuelEntry>) {
    Revisited(anchor, e) && (current.None? || e.dateTime < current.value.dateTime)
  }

  /** Row by row, the table holds the swept row where the sweep has been and the original row elsewhere. */
  ghost predicate SweptBelow(start: seq<FuelEntry>, anchor: Option<FuelEntry>, rows: seq<FuelEntry>, current: Option<FuelEntry>) {
    && |rows| == |start|
    && forall i :: 0 <= i < |start| ==>
         rows[i] == if Written(anchor, start[i], current) then start[i].(mileage := CycleMileage(start, start[i])) else start[i]
  }

  /** The walk so far: increasing in `dateTime`, and exactly the full tanks already written. */
  ghost predicate VisitedBelow(start: seq<FuelEntry>, anchor: Option<FuelEntry>, visited: seq<FuelEntry>, current: Option<FuelEntry>) {
    && (forall i, j :: 0 <= i < j < |visited| ==> visited[i].dateTime < visited[j].dateTime)
    && (current.Some? ==> forall x :: x in visited ==> x.dateTime < current.value.dateTime)
    && (forall x :: x in visited <==> x in start && Written(anchor, x, current))
  }

  lemma SweepBegins(start: seq<FuelEntry>, changedEntry: FuelEntry)
    ensures var anchor := Anchor(start, changedEntry);
            && (anchor.Some? ==> Pending(start, anchor, anchor.value))
            && SweptBelow(start, anchor, start, anchor)
            && VisitedBelow(start, anchor, [], anchor)
  {
    var anchor := Anchor(start, changedEntry);
    if anchor.Some? {
      assert Matches(AnchorWhere(start, changedEntry.dateTime), anchor.value);
    }
  }

  lemma SweepPosition(start: seq<FuelEntry>, anchor: Option<FuelEntry>, before: seq<FuelEntry>, current: FuelEntry)
    returns (k: nat)
    requires Pending(start, anchor, current) && SweptBelow(start, anchor, before, Some(current))
    ensures k < |start| && start[k] == current && before[k] == current
  {
    k :| 0 <= k < |start| && start[k] == current;
  }

  /** One step of the sweep: the visited row gets its mileage and the walk moves to the next full tank. */
  lemma SweepStep(start: seq<FuelEntry>, anchor: Option<FuelEntry>, before: seq<FuelEntry>,
                  after: seq<FuelEntry>, k: nat, next: Option<FuelEntry>)
    requires WellFormed(start) && k < |start| && Pending(start, anchor, start[k])
    requires UniqueIds(before) && SweptBelow(start, anchor, before, Some(start[k]))
    requires after == WithMileage(before, start[k].id, BuildFuelCycle(before, start[k]).mileage)
    requires next == GetNextFullTank(after, start[k].dateTime)
    ensures next.Some? ==> Pending(start, anchor, next.value) && start[k].dateTime < next.value.dateTime
    ensures next.Some? ==> FullTanksAfter(start, next.value.dateTime) < FullTanksAfter(start, start[k].dateTime)
    ensures SweptBelow(start, anchor, after, next)
    ensures forall x :: x in start ==> (Written(anchor, x, next) <==> Written(anchor, x, Some(start[k])) || x == start[k])
  {
    StepWritesOneRow(start, anchor, before, after, k);
    StepFindsNext(start, anchor, after, k, next);
    StepKeepsSwept(start, anchor, after, k, next);
  }

  /** The step writes the current full tank's cycle mileage and nothing else. */
  lemma StepWritesOneRow(start: seq<FuelEntry>, anchor: Option<FuelEntry>, before: seq<FuelEntry>, after: seq<FuelEntry>, k: nat)
    requires k < |start| && start[k].isFullTank
    requires UniqueIds(before) && SweptBelow(start, anchor, before, Some(start[k]))
    requires after == WithMileage(before, start[k].id, BuildFuelCycle(before, start[k]).mileage)
    ensures |after| == |start|
    ensures after[k] == start[k].(mileage := CycleMileage(start, start[k]))
    ensures forall i :: 0 <= i < |start| && i != k ==> after[i] == before[i]
  {
    var current := start[k];
    assert SameButMileage(start, before);
    CycleAgrees(before, start, current, current);
    assert before[k] == current;
    assert forall i :: 0 <= i < |start| && i != k ==> before[i].id != current.id;
  }

  /** The next full tank after the current one is an unwritten row of the original table. */
  lemma StepFindsNext(start: seq<FuelEntry>, anchor: Option<FuelEntry>, after: seq<FuelEntry>, k: nat, next: Option<FuelEntry>)
    requires UniqueTimes(start) && k < |start| && Revisited(anchor, start[k])
    requires |after| == |start|
    requires after[k] == start[k].(mileage := CycleMileage(start, start[k]))
    requires forall i :: 0 <= i < |start| && i != k ==>
               after[i] == if Written(anchor, start[i], Some(start[k])) then start[i].(mileage := CycleMileage(start, start[i])) else start[i]
    requires next == GetNextFullTank(after, start[k].dateTime)
    ensures next.Some? ==> Pending(start, anchor, next.value) && start[k].dateTime < next.value.dateTime
    ensures next.Some? ==> FullTanksAfter(start, next.value.dateTime) < FullTanksAfter(start, start[k].dateTime)
    ensures forall x :: x in start ==> (Written(anchor, x, next) <==> Written(anchor, x, Some(start[k])) || x == start[k])
  {
    NextIsPending(start, anchor, after, k, next);
    NextMovesFrontier(start, anchor, after, k, next);
  }

  lemma NextIsPending(start: seq<FuelEntry>, anchor: Option<FuelEntry>, after: seq<FuelEntry>, k: nat, next: Option<FuelEntry>)
    requires UniqueTimes(start) && k < |start| && Revisited(anchor, start[k])
    requires |after| == |start|
    requires after[k] == start[k].(mileage := CycleMileage(start, start[k]))
    requires forall i :: 0 <= i < |start| && i != k ==>
               after[i] == if Written(anchor, start[i], Some(start[k])) then start[i].(mileage := CycleMileage(start, start[i])) else start[i]
    requires next == GetNextFullTank(after, start[k].dateTime)
    ensures next.Some? ==> Pending(start, anchor, next.value) && start[k].dateTime < next.value.dateTime
    ensures next.Some? ==> FullTanksAfter(start, next.value.dateTime) < FullTanksAfter(start, start[k].dateTime)
  {
    var current := start[k];
    if next.Some? {
      var j :| 0 <= j < |after| && after[j] == next.value;
      assert j != k;
      assert after[j] == start[j];
      SelectShrinks(start, FullAfter(current.dateTime), FullAfter(next.value.dateTime), next.value);
    }
  }

  lemma NextMovesFrontier(start: seq<FuelEntry>, anchor: Option<FuelEntry>, after: seq<FuelEntry>, k: nat, next: Option<FuelEntry>)
    requires UniqueTimes(start) && k < |start| && Revisited(anchor, start[k])
    requires |after| == |start|
    requires after[k] == start[k].(mileage := CycleMileage(start, start[k]))
    requires forall i :: 0 <= i < |start| && i != k ==>
               after[i] == if Written(anchor, start[i], Some(start[k])) then start[i].(mileage := CycleMileage(start, start[i])) else start[i]
    requires next == GetNextFullTank(after, start[k].dateTime)
    ensures forall x :: x in start ==> (Written(anchor, x, next) <==> Written(anchor, x, Some(start[k])) || x == start[k])
  {
    var current := start[k];
    forall x | x in start
      ensures Written(anchor, x, next) <==> Written(anchor, x, Some(current)) || x == current
    {
      var i :| 0 <= i < |start| && start[i] == x;
      if x.dateTime > current.dateTime && x.isFullTank {
        assert i != k;
        assert after[i] in after;
      } else if x.dateTime == current.dateTime {
        SameTimeSameRow(start, x, current);
      }
    }
  }

  lemma StepKeepsSwept(start: seq<FuelEntry>, anchor: Option<FuelEntry>, after: seq<FuelEntry>, k: nat, next: Option<FuelEntry>)
    requires UniqueTimes(start) && k < |start| && |after| == |start| && Revisited(anchor, start[k])
    requires after[k] == start[k].(mileage := CycleMileage(start, start[k]))
    requires forall i :: 0 <= i < |start| && i != k ==>
               after[i] == if Written(anchor, start[i], Some(start[k])) then start[i].(mileage := CycleMileage(start, start[i])) else start[i]
    requires forall x :: x in start ==> (Written(anchor, x, next) <==> Written(anchor, x, Some(start[k])) || x == start[k])
    ensures SweptBelow(start, anchor, after, next)
  {
    forall i | 0 <= i < |start|
      ensures after[i] == if Written(anchor, start[i], next) then start[i].(mileage := CycleMileage(start, start[i])) else start[i]
    {
      assert start[i] in start;
      assert i != k ==> start[i] != start[k];
    }
  }

  lemma VisitStep(start: seq<FuelEntry>, anchor: Option<FuelEntry>, visited: seq<FuelEntry>, k: nat, next: Option<FuelEntry>)
    requires k < |start| && VisitedBelow(start, anchor, visited, Some(start[k]))
    requires next.Some? ==> start[k].dateTime < next.value.dateTime
    requires forall x :: x in start ==> (Written(anchor, x, next) <==> Written(anchor, x, Some(start[k])) || x == start[k])
    requires Revisited(anchor, start[k])
    ensures VisitedBelow(start, anchor, visited + [start[k]], next)
  {
    var v := visited + [start[k]];
    forall x ensures x in v <==> x in start && Written(anchor, x, next) {
      if x in visited {
        assert x in start && Written(anchor, x, Some(start[k]));
      }
    }
  }

  lemma SweepEnds(start: seq<FuelEntry>, anchor: Option<FuelEntry>, rows: seq<FuelEntry>, visited: seq<FuelEntry>)
    requires SweptBelow(start, anchor, rows, None) && VisitedBelow(start, anchor, visited, None)
    ensures rows == Swept(start, anchor)
    ensures forall i, j :: 0 <= i < j < |visited| ==> visited[i].dateTime < visited[j].dateTime
    ensures forall x :: x in visited <==> x in start && Revisited(anchor, x)
  {
  }
}
