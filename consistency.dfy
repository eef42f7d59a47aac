/**
 * What the mileage sweep achieves. A table is consistent when every full tank holds the
 * mileage its cycle has in that very table; the sweep restores this after an insert, a delete
 * or an edit that keeps its instant, a second sweep changes nothing, and editing a partial
 * fill rewrites only the next full tank.
 */
module Consistency {
  import opened Wrappers
  import opened Entity
  import opened Dao
  import opened DaoFacts
  import opened Cycle
  import opened Repository

  /** Every stored full tank holds the mileage of its cycle in this table. */
  ghost predicate Consistent(rows: seq<FuelEntry>) {
    forall x :: x in rows && x.isFullTank ==> x.mileage == CycleMileage(rows, x)
  }

  // ---------------------------------------------------------------------------
  // The sweep
  // ---------------------------------------------------------------------------

  /**
   * Writing mileages does not change any cycle, so each visited full tank ends with the
   * mileage of its cycle in the final table, not only in the table the sweep started from.
   */
  lemma RecalculatedMileageIsFinal(rows: seq<FuelEntry>, changedEntry: FuelEntry)
    ensures var r := Recalculated(rows, changedEntry);
            forall i :: 0 <= i < |rows| && Revisited(Anchor(rows, changedEntry), rows[i]) ==>
              r[i].mileage == CycleMileage(r, r[i])
  {
    var anchor := Anchor(rows, changedEntry);
    var r := Swept(rows, anchor);
    forall i | 0 <= i < |rows| && Revisited(anchor, rows[i]) ensures r[i].mileage == CycleMileage(r, r[i]) {
      CycleIgnoresMileages(rows, r, i);
    }
  }

  /** Tables that differ only in mileages have previous full tanks at the same instant. */
  lemma PreviousFullTankTimeAgrees(r0: seq<FuelEntry>, r1: seq<FuelEntry>, t: int)
    requires SameButMileage(r0, r1)
    ensures GetPreviousFullTank(r0, t).Some? <==> GetPreviousFullTank(r1, t).Some?
    ensures GetPreviousFullTank(r0, t).Some? ==> GetPreviousFullTank(r0, t).value.dateTime == GetPreviousFullTank(r1, t).value.dateTime
  {
    LatestIndexAgrees(r0, r1, FullBefore(t));
  }

  /** Tables that differ only in mileages have next full tanks at the same instant. */
  lemma NextFullTankTimeAgrees(r0: seq<FuelEntry>, r1: seq<FuelEntry>, t: int)
    requires SameButMileage(r0, r1)
    ensures GetNextFullTank(r0, t).Some? <==> GetNextFullTank(r1, t).Some?
    ensures GetNextFullTank(r0, t).Some? ==> GetNextFullTank(r0, t).value.dateTime == GetNextFullTank(r1, t).value.dateTime
  {
    EarliestIndexAgrees(r0, r1, FullAfter(t));
  }

  /** Tables that differ only in mileages give anchors at the same instant. */
  lemma AnchorTimeAgrees(r0: seq<FuelEntry>, r1: seq<FuelEntry>, changedEntry: FuelEntry)
    requires SameButMileage(r0, r1)
    ensures Anchor(r0, changedEntry).Some? <==> Anchor(r1, changedEntry).Some?
    ensures Anchor(r0, changedEntry).Some? ==> Anchor(r0, changedEntry).value.dateTime == Anchor(r1, changedEntry).value.dateTime
  {
    var t := changedEntry.dateTime;
    PreviousFullTankTimeAgrees(r0, r1, t);
    NextFullTankTimeAgrees(r0, r1, t);
    var p := GetPreviousFullTank(r0, t);
    if p.Some? {
      NextFullTankTimeAgrees(r0, r1, p.value.dateTime);
    }
  }

  /** Recalculating twice from the same entry gives the table that recalculating once gives. */
  lemma RecalculateIsIdempotent(rows: seq<FuelEntry>, changedEntry: FuelEntry)
    ensures Recalculated(Recalculated(rows, changedEntry), changedEntry) == Recalculated(rows, changedEntry)
  {
    var a0 := Anchor(rows, changedEntry);
    var r := Swept(rows, a0);
    var a1 := Anchor(r, changedEntry);
    AnchorTimeAgrees(rows, r, changedEntry);
    RecalculatedMileageIsFinal(rows, changedEntry);
    var r2 := Swept(r, a1);
    forall i | 0 <= i < |r| ensures r2[i] == r[i] {
      assert Revisited(a1, r[i]) <==> Revisited(a0, rows[i]);
    }
  }

  // ---------------------------------------------------------------------------
  // Restoring consistency
  // ---------------------------------------------------------------------------

  /**
   * The full tanks whose mileage must already be right before a sweep from instant `t`: those
   * before `t`, and one at `t` when no full tank precedes it (the sweep skips that one).
   */
  ghost predicate SettledBefore(rows: seq<FuelEntry>, t: int) {
    forall x :: x in rows && x.isFullTank && (x.dateTime < t || (x.dateTime == t && NoneMatch(rows, FullBefore(t)))) ==>
      x.mileage == CycleMileage(rows, x)
  }

  /** A full tank the sweep does not visit lies before the changed instant, or at it when no full tank precedes. */
  lemma NotRevisitedLiesBefore(rows: seq<FuelEntry>, changedEntry: FuelEntry, x: FuelEntry)
    requires x in rows && x.isFullTank && !Revisited(Anchor(rows, changedEntry), x)
    ensures x.dateTime < changedEntry.dateTime ||
            (x.dateTime == changedEntry.dateTime && NoneMatch(rows, FullBefore(changedEntry.dateTime)))
  {
    var t := changedEntry.dateTime;
    var anchor := Anchor(rows, changedEntry);
    if NoneMatch(rows, FullBefore(t)) {
      assert !Matches(FullBefore(t), x);
      if anchor.Some? {
        assert !Matches(FullAfter(t), x);
      } else {
        assert !Matches(FullAfter(t), x);
      }
    } else if anchor.Some? {
      assert !Matches(FullFrom(t), x);
    } else {
      assert !Matches(FullFrom(t), x);
    }
  }

  /** A sweep from `changedEntry` leaves the table consistent once the full tanks it skips are. */
  lemma SweepRestoresConsistency(rows: seq<FuelEntry>, changedEntry: FuelEntry)
    requires SettledBefore(rows, changedEntry.dateTime)
    ensures Consistent(Recalculated(rows, changedEntry))
  {
    var r := Recalculated(rows, changedEntry);
    forall y | y in r && y.isFullTank ensures y.mileage == CycleMileage(r, y) {
      var i :| 0 <= i < |r| && r[i] == y;
      SweptRowIsRight(rows, changedEntry, i);
    }
  }

  /** One row of `SweepRestoresConsistency`: a full tank holds its cycle's mileage after the sweep. */
  lemma SweptRowIsRight(rows: seq<FuelEntry>, changedEntry: FuelEntry, i: int)
    requires SettledBefore(rows, changedEntry.dateTime)
    requires 0 <= i < |rows| && rows[i].isFullTank
    ensures var r := Recalculated(rows, changedEntry);
            r[i].mileage == CycleMileage(r, r[i])
  {
    var anchor := Anchor(rows, changedEntry);
    var r := Swept(rows, anchor);
    CycleIgnoresMileages(rows, r, i);
    if !Revisited(anchor, rows[i]) {
      assert rows[i] in rows;
      NotRevisitedLiesBefore(rows, changedEntry, rows[i]);
    }
  }

  /**
   * Insert then sweep keeps a consistent table consistent, provided a new full tank with no
   * full tank before it carries no mileage (the sweep never revisits it).
   */
  lemma InsertKeepsConsistent(rows: seq<FuelEntry>, lastId: int, entry: FuelEntry)
    requires Consistent(rows) && InsertAllowed(rows, entry)
    requires entry.isFullTank && NoneMatch(rows, FullBefore(entry.dateTime)) ==> entry.mileage.None?
    ensures Consistent(Recalculated(Inserted(rows, lastId, entry), entry))
  {
    var t := entry.dateTime;
    var table := Inserted(rows, lastId, entry);
    var stored := table[|rows|];
    assert table == rows + [stored];
    forall x | x in table && x.isFullTank && (x.dateTime < t || (x.dateTime == t && NoneMatch(table, FullBefore(t))))
      ensures x.mileage == CycleMileage(table, x)
    {
      if x.dateTime < t {
        assert x in rows;
        CycleIgnoresAppended(rows, stored, x);
      } else {
        assert x == stored;
        assert NoneMatch(rows, FullBefore(t));
      }
    }
    SweepRestoresConsistency(table, entry);
  }

  /** Delete then sweep keeps a consistent table consistent. */
  lemma DeleteKeepsConsistent(rows: seq<FuelEntry>, entry: FuelEntry)
    requires WellFormed(rows) && Consistent(rows) && entry in rows
    ensures Consistent(Recalculated(Deleted(rows, entry.id), entry))
  {
    var t := entry.dateTime;
    var table := Deleted(rows, entry.id);
    forall x | x in table && x.isFullTank && (x.dateTime < t || (x.dateTime == t && NoneMatch(table, FullBefore(t))))
      ensures x.mileage == CycleMileage(table, x)
    {
      assert x in rows && x.id != entry.id;
      assert x.dateTime != t by {
        if x.dateTime == t { SameTimeSameRow(rows, x, entry); }
      }
      forall y | y in rows && y.id == entry.id ensures y.dateTime >= x.dateTime {
        SameIdSameRow(rows, y, entry);
      }
      CycleIgnoresDeleted(rows, entry.id, x);
    }
    SweepRestoresConsistency(table, entry);
  }

  /** Replacing rows at or after a full tank's instant, keeping their instants, leaves its cycle alone. */
  lemma CycleIgnoresLaterEdit(rows: seq<FuelEntry>, entry: FuelEntry, x: FuelEntry)
    requires forall y :: y in rows && y.id == entry.id ==> y.dateTime == entry.dateTime
    requires x.isFullTank && x.dateTime <= entry.dateTime
    ensures CycleMileage(Updated(rows, entry), x) == CycleMileage(rows, x)
  {
    var table := Updated(rows, entry);
    forall i | 0 <= i < |rows| && rows[i].id == entry.id ensures rows[i].dateTime == entry.dateTime {
      assert rows[i] in rows;
    }
    CycleAgrees(rows, table, x, x);
  }

  /**
   * Update then sweep keeps a consistent table consistent for an edit that keeps its instant,
   * provided an edited full tank with no full tank before it carries no mileage.
   */
  lemma EditKeepsConsistent(rows: seq<FuelEntry>, entry: FuelEntry)
    requires Consistent(rows)
    requires forall x :: x in rows && x.id == entry.id ==> x.dateTime == entry.dateTime
    requires entry.isFullTank && NoneMatch(rows, FullBefore(entry.dateTime)) ==> entry.mileage.None?
    ensures Consistent(Recalculated(Updated(rows, entry), entry))
  {
    var t := entry.dateTime;
    var table := Updated(rows, entry);
    forall i | 0 <= i < |rows| && rows[i].id == entry.id ensures rows[i].dateTime == t {
      assert rows[i] in rows;
    }
    forall x | x in table && x.isFullTank && (x.dateTime < t || (x.dateTime == t && NoneMatch(table, FullBefore(t))))
      ensures x.mileage == CycleMileage(table, x)
    {
      CycleIgnoresLaterEdit(rows, entry, x);
      var i :| 0 <= i < |table| && table[i] == x;
      if x.dateTime == t {
        forall j | 0 <= j < |rows| ensures !Matches(FullBefore(t), rows[j]) {
          assert table[j] in table;
        }
        assert NoneMatch(rows, FullBefore(t));
      }
      if rows[i].id != entry.id {
        assert rows[i] in rows;
      }
    }
    SweepRestoresConsistency(table, entry);
  }

  // ---------------------------------------------------------------------------
  // Editing a partial fill
  // ---------------------------------------------------------------------------

  /**
   * Editing a partial fill (keeping it partial and keeping its instant) leaves the cycle of
   * every full tank past the next full tank alone: those cycles open at or after it.
   */
  lemma CycleIgnoresEarlierPartialEdit(rows: seq<FuelEntry>, k: nat, entry: FuelEntry, next: FuelEntry, x: FuelEntry)
    requires UniqueIds(rows) && k < |rows| && rows[k].id == entry.id
    requires rows[k].dateTime == entry.dateTime && !rows[k].isFullTank && !entry.isFullTank
    requires next in rows && next.isFullTank && entry.dateTime < next.dateTime < x.dateTime && x.isFullTank
    ensures CycleMileage(Updated(rows, entry), x) == CycleMileage(rows, x)
  {
    var table := Updated(rows, entry);
    forall i | 0 <= i < |rows| && rows[i].id == entry.id ensures i == k {
    }
    assert Matches(FullBefore(x.dateTime), next);
    CycleAgrees(rows, table, x, x);
  }

  /**
   * Editing a partial fill that keeps its instant and stays partial rewrites the next full
   * tank's mileage, with the cycle of the final table, and leaves every other row as it was.
   */
  lemma PartialEditTouchesOnlyNextFullTank(rows: seq<FuelEntry>, k: nat, entry: FuelEntry)
    requires WellFormed(rows) && Consistent(rows)
    requires k < |rows| && rows[k].id == entry.id && rows[k].dateTime == entry.dateTime
    requires !rows[k].isFullTank && !entry.isFullTank
    ensures var r := Recalculated(Updated(rows, entry), entry);
            var next := GetNextFullTank(rows, entry.dateTime);
            && |r| == |rows| && r[k] == entry
            && (forall i :: 0 <= i < |rows| && i != k && (next.None? || rows[i] != next.value) ==> r[i] == rows[i])
            && (forall i :: 0 <= i < |rows| && next.Some? && rows[i] == next.value ==>
                  r[i] == rows[i].(mileage := CycleMileage(r, r[i])))
  {
    var t := entry.dateTime;
    var table := Updated(rows, entry);
    var anchor := Anchor(table, entry);
    var r := Swept(table, anchor);
    var next := GetNextFullTank(rows, t);
    forall i | 0 <= i < |rows| && rows[i].id == entry.id ensures i == k {
    }
    RecalculatedMileageIsFinal(table, entry);
    forall i | 0 <= i < |rows| && i != k && (next.None? || rows[i] != next.value) ensures r[i] == rows[i] {
      assert table[i] == rows[i];
      if Revisited(anchor, table[i]) {
        assert rows[i] in rows;
        if rows[i].dateTime <= t {
          CycleIgnoresLaterEdit(rows, entry, rows[i]);
        } else {
          assert next.Some? && next.value.dateTime <= rows[i].dateTime;
          assert next.value.dateTime != rows[i].dateTime;
          CycleIgnoresEarlierPartialEdit(rows, k, entry, next.value, rows[i]);
        }
      }
    }
    forall i | 0 <= i < |rows| && next.Some? && rows[i] == next.value
      ensures r[i] == rows[i].(mileage := CycleMileage(r, r[i]))
    {
      assert table[i] == rows[i];
      NextIsRevisited(rows, k, entry, i);
    }
  }

  /** After a partial edit, the sweep starts at the next full tank, or earlier. */
  lemma NextIsRevisited(rows: seq<FuelEntry>, k: nat, entry: FuelEntry, i: nat)
    requires WellFormed(rows) && k < |rows| && rows[k].id == entry.id && rows[k].dateTime == entry.dateTime
    requires !rows[k].isFullTank && !entry.isFullTank
    requires i < |rows| && GetNextFullTank(rows, entry.dateTime) == Some(rows[i])
    ensures Revisited(Anchor(Updated(rows, entry), entry), Updated(rows, entry)[i])
  {
    var t := entry.dateTime;
    var table := Updated(rows, entry);
    forall j | 0 <= j < |rows| && rows[j].id == entry.id ensures j == k {
    }
    assert i != k;
    assert table[i] == rows[i] && table[i] in table;
    assert Matches(AnchorWhere(table, t), table[i]);
  }

  // ---------------------------------------------------------------------------
  // Appending the newest entry
  // ---------------------------------------------------------------------------

  /**
   * Inserting an entry later than every stored one (as a fill is usually logged) writes only
   * the new row's mileage: its cycle's mileage when it is a full tank, none when partial.
   */
  lemma AppendingNewestEntry(rows: seq<FuelEntry>, lastId: int, entry: FuelEntry)
    requires entry.mileage.None?
    requires forall y :: y in rows ==> y.dateTime < entry.dateTime
    ensures var stored := entry.(id := AssignedId(lastId, entry));
            Recalculated(Inserted(rows, lastId, entry), entry) ==
              rows + [stored.(mileage := if entry.isFullTank then CycleMileage(rows + [stored], stored) else None)]
  {
    var stored := entry.(id := AssignedId(lastId, entry));
    assert Inserted(rows, lastId, entry) == rows + [stored];
    NewestRowSwept(rows, stored, entry);
  }

  lemma NewestRowSwept(rows: seq<FuelEntry>, stored: FuelEntry, entry: FuelEntry)
    requires stored.dateTime == entry.dateTime && stored.isFullTank == entry.isFullTank && stored.mileage.None?
    requires forall y :: y in rows ==> y.dateTime < entry.dateTime
    ensures var table := rows + [stored];
            Swept(table, Anchor(table, entry)) ==
              rows + [stored.(mileage := if entry.isFullTank then CycleMileage(table, stored) else None)]
  {
    var table := rows + [stored];
    var anchor := Anchor(table, entry);
    NewestAnchor(rows, stored, entry);
    if !Revisited(anchor, stored) && entry.isFullTank {
      assert BuildFuelCycle(table, stored).previousFull.None?;
    }
    forall i | 0 <= i < |rows| ensures !Revisited(anchor, rows[i]) {
      assert rows[i] in rows;
    }
    SweptAppended(rows, stored, anchor);
  }

  /** A sweep that visits none of the old rows changes at most the appended one. */
  lemma SweptAppended(rows: seq<FuelEntry>, stored: FuelEntry, anchor: Option<FuelEntry>)
    requires forall i :: 0 <= i < |rows| ==> !Revisited(anchor, rows[i])
    ensures Swept(rows + [stored], anchor) ==
              rows + [if Revisited(anchor, stored) then stored.(mileage := CycleMileage(rows + [stored], stored)) else stored]
  {
    var table := rows + [stored];
    var r := Swept(table, anchor);
    assert table[|rows|] == stored;
    forall i | 0 <= i < |rows| ensures r[i] == rows[i] {
      assert table[i] == rows[i];
    }
    assert r == r[..|rows|] + [r[|rows|]];
  }

  /** The sweep after appending the newest entry visits the new row only, and only when it closes a cycle. */
  lemma NewestAnchor(rows: seq<FuelEntry>, stored: FuelEntry, entry: FuelEntry)
    requires stored.dateTime == entry.dateTime && stored.isFullTank == entry.isFullTank
    requires forall y :: y in rows ==> y.dateTime < entry.dateTime
    ensures var anchor := Anchor(rows + [stored], entry);
            && (anchor.Some? ==> anchor.value.dateTime >= entry.dateTime)
            && (Revisited(anchor, stored) <==> stored.isFullTank && !NoneMatch(rows + [stored], FullBefore(entry.dateTime)))
  {
    var t := entry.dateTime;
    var table := rows + [stored];
    var anchor := Anchor(table, entry);
    if anchor.Some? {
      assert Matches(AnchorWhere(table, t), anchor.value);
    }
    if stored.isFullTank {
      assert stored in table;
      if NoneMatch(table, FullBefore(t)) {
        assert forall y :: y in table ==> y in rows || y == stored;
        assert NoneMatch(table, FullAfter(t));
      } else {
        assert Matches(AnchorWhere(table, t), stored);
      }
    }
  }
}
