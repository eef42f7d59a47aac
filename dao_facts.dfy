/** How the DAO's queries respond when the table changes. */
module DaoFacts {
  import opened Wrappers
  import opened Entity
  import opened Dao

  /** Two rows of a table with unique instants that share an instant are the same row. */
  lemma SameTimeSameRow(rows: seq<FuelEntry>, a: FuelEntry, b: FuelEntry)
    requires UniqueTimes(rows) && a in rows && b in rows && a.dateTime == b.dateTime
    ensures a == b
  {
    var i :| 0 <= i < |rows| && rows[i] == a;
    var j :| 0 <= j < |rows| && rows[j] == b;
  }

  /** Two rows of a table with unique ids that share an id are the same row. */
  lemma SameIdSameRow(rows: seq<FuelEntry>, a: FuelEntry, b: FuelEntry)
    requires UniqueIds(rows) && a in rows && b in rows && a.id == b.id
    ensures a == b
  {
    var i :| 0 <= i < |rows| && rows[i] == a;
    var j :| 0 <= j < |rows| && rows[j] == b;
  }

  /** The latest matching row is unique once instants are unique. */
  lemma LatestIsUnique(rows: seq<FuelEntry>, w: Where, x: FuelEntry)
    requires UniqueTimes(rows) && IsLatest(rows, w, x)
    ensures Latest(rows, w) == Some(x)
  {
    var r := Latest(rows, w);
    assert r.Some?;
    SameTimeSameRow(rows, r.value, x);
  }

  /** The earliest matching row is unique once instants are unique. */
  lemma EarliestIsUnique(rows: seq<FuelEntry>, w: Where, x: FuelEntry)
    requires UniqueTimes(rows) && IsEarliest(rows, w, x)
    ensures Earliest(rows, w) == Some(x)
  {
    var r := Earliest(rows, w);
    assert r.Some?;
    SameTimeSameRow(rows, r.value, x);
  }

  /** Tables that hold the same matching rows give the same latest row. */
  lemma LatestOfSameRows(r0: seq<FuelEntry>, r1: seq<FuelEntry>, w: Where)
    requires UniqueTimes(r0) && UniqueTimes(r1)
    requires forall x :: x in r0 && Matches(w, x) <==> x in r1 && Matches(w, x)
    ensures Latest(r0, w) == Latest(r1, w)
  {
    var a := Latest(r0, w);
    if a.Some? {
      assert IsLatest(r1, w, a.value);
      LatestIsUnique(r1, w, a.value);
    }
  }

  /** Tables that hold the same matching rows give the same earliest row. */
  lemma EarliestOfSameRows(r0: seq<FuelEntry>, r1: seq<FuelEntry>, w: Where)
    requires UniqueTimes(r0) && UniqueTimes(r1)
    requires forall x :: x in r0 && Matches(w, x) <==> x in r1 && Matches(w, x)
    ensures Earliest(r0, w) == Earliest(r1, w)
  {
    var a := Earliest(r0, w);
    if a.Some? {
      assert IsEarliest(r1, w, a.value);
      EarliestIsUnique(r1, w, a.value);
    }
  }

  /** Row by row, the same rows match and matching rows keep their instants: the scan picks the same position. */
  lemma {:induction false} LatestIndexAgrees(r0: seq<FuelEntry>, r1: seq<FuelEntry>, w: Where)
    requires |r0| == |r1|
    requires forall i :: 0 <= i < |r0| ==> (Matches(w, r0[i]) <==> Matches(w, r1[i]))
    requires forall i :: 0 <= i < |r0| && Matches(w, r0[i]) ==> r0[i].dateTime == r1[i].dateTime
    ensures LatestIndex(r0, w) == LatestIndex(r1, w)
    decreases |r0|
  {
    if |r0| > 0 {
      LatestIndexAgrees(r0[..|r0| - 1], r1[..|r1| - 1], w);
    }
  }

  lemma {:induction false} EarliestIndexAgrees(r0: seq<FuelEntry>, r1: seq<FuelEntry>, w: Where)
    requires |r0| == |r1|
    requires forall i :: 0 <= i < |r0| ==> (Matches(w, r0[i]) <==> Matches(w, r1[i]))
    requires forall i :: 0 <= i < |r0| && Matches(w, r0[i]) ==> r0[i].dateTime == r1[i].dateTime
    ensures EarliestIndex(r0, w) == EarliestIndex(r1, w)
    decreases |r0|
  {
    if |r0| > 0 {
      EarliestIndexAgrees(r0[..|r0| - 1], r1[..|r1| - 1], w);
    }
  }

  /** Row by row, the same rows match and matching rows hold the same quantity: the sums agree. */
  lemma {:induction false} SumAgrees(r0: seq<FuelEntry>, r1: seq<FuelEntry>, w: Where)
    requires |r0| == |r1|
    requires forall i :: 0 <= i < |r0| ==> (Matches(w, r0[i]) <==> Matches(w, r1[i]))
    requires forall i :: 0 <= i < |r0| && Matches(w, r0[i]) ==> r0[i].quantity == r1[i].quantity
    ensures SumQuantity(r0, w) == SumQuantity(r1, w)
    decreases |r0|
  {
    if |r0| > 0 {
      SumAgrees(r0[..|r0| - 1], r1[..|r1| - 1], w);
    }
  }

  lemma SumSnoc(rows: seq<FuelEntry>, x: FuelEntry, w: Where)
    ensures SumQuantity(rows + [x], w) == SumQuantity(rows, w) + (if Matches(w, x) then x.quantity else 0.0)
  {
    assert (rows + [x])[..|rows|] == rows;
  }

  lemma LatestIndexSnoc(rows: seq<FuelEntry>, x: FuelEntry, w: Where)
    requires !Matches(w, x)
    ensures LatestIndex(rows + [x], w) == LatestIndex(rows, w)
  {
    assert (rows + [x])[..|rows|] == rows;
  }

  /** Deleting rows that do not match leaves the sum unchanged. */
  lemma {:induction false} SumDeleted(rows: seq<FuelEntry>, id: int, w: Where)
    requires forall x :: x in rows && x.id == id ==> !Matches(w, x)
    ensures SumQuantity(Deleted(rows, id), w) == SumQuantity(rows, w)
    decreases |rows|
  {
    if |rows| > 0 {
      var front := rows[..|rows| - 1];
      assert forall x :: x in front ==> x in rows;
      SumDeleted(front, id, w);
      if rows[|rows| - 1].id != id {
        SumDeletedKeepsLast(rows, id, w);
      } else {
        SumDeletedDropsLast(rows, id, w);
      }
    }
  }

  lemma SumDeletedKeepsLast(rows: seq<FuelEntry>, id: int, w: Where)
    requires |rows| > 0 && rows[|rows| - 1].id != id
    requires SumQuantity(Deleted(rows[..|rows| - 1], id), w) == SumQuantity(rows[..|rows| - 1], w)
    ensures SumQuantity(Deleted(rows, id), w) == SumQuantity(rows, w)
  {
    var front, last := rows[..|rows| - 1], rows[|rows| - 1];
    assert Deleted(rows, id) == Deleted(front, id) + [last];
    SumSnoc(Deleted(front, id), last, w);
  }

  lemma SumDeletedDropsLast(rows: seq<FuelEntry>, id: int, w: Where)
    requires |rows| > 0 && rows[|rows| - 1].id == id && !Matches(w, rows[|rows| - 1])
    requires SumQuantity(Deleted(rows[..|rows| - 1], id), w) == SumQuantity(rows[..|rows| - 1], w)
    ensures SumQuantity(Deleted(rows, id), w) == SumQuantity(rows, w)
  {
    var front := rows[..|rows| - 1];
    assert Deleted(rows, id) == Deleted(front, id) + [];
    assert Deleted(front, id) + [] == Deleted(front, id);
  }

  /** The sum over `(lo, hi]` is the sum over `(lo, hi)` plus the sum at `hi`. */
  lemma {:induction false} SumThroughSplits(rows: seq<FuelEntry>, lo: int, hi: int)
    requires lo < hi
    ensures SumQuantity(rows, Through(lo, hi)) == SumQuantity(rows, Between(lo, hi)) + SumQuantity(rows, At(hi))
    decreases |rows|
  {
    if |rows| > 0 {
      SumThroughSplits(rows[..|rows| - 1], lo, hi);
    }
  }

  /** With unique instants, the sum at a row's instant is that row's quantity. */
  lemma {:induction false} SumAtRow(rows: seq<FuelEntry>, e: FuelEntry)
    requires UniqueTimes(rows) && e in rows
    ensures SumQuantity(rows, At(e.dateTime)) == e.quantity
    decreases |rows|
  {
    var front, last := rows[..|rows| - 1], rows[|rows| - 1];
    assert rows == front + [last];
    assert UniqueTimes(front);
    if last == e {
      forall y | y in front ensures !Matches(At(e.dateTime), y) {
        var i :| 0 <= i < |front| && front[i] == y;
        assert rows[i] == y;
      }
    } else {
      assert e in front;
      var i :| 0 <= i < |front| && front[i] == e;
      assert rows[i] == e;
      SumAtRow(front, e);
    }
  }

  lemma UniqueTimesOfInserted(rows: seq<FuelEntry>, x: FuelEntry)
    requires UniqueTimes(rows) && forall y :: y in rows ==> y.dateTime != x.dateTime
    ensures UniqueTimes(rows + [x])
  {
    var r := rows + [x];
    forall i, j | 0 <= i < |r| && 0 <= j < |r| && i != j ensures r[i].dateTime != r[j].dateTime {
      if i < |rows| && j < |rows| {
      } else if i < |rows| {
        assert r[i] in rows;
      } else {
        assert r[j] in rows;
      }
    }
  }

  /** Ascending sequences holding the same rows, with distinct instants, are equal. */
  lemma {:induction false} AscendingPermutationsAgree(a: seq<FuelEntry>, b: seq<FuelEntry>)
    requires Ascending(a) && Ascending(b) && multiset(a) == multiset(b) && UniqueTimes(a)
    ensures a == b
    decreases |a|
  {
    assert |a| == |multiset(a)| && |b| == |multiset(b)|;
    if |a| > 0 {
      SameHead(a, b);
      var a', b' := a[1..], b[1..];
      assert a == [a[0]] + a' && b == [b[0]] + b';
      assert multiset(a) == multiset([a[0]]) + multiset(a');
      assert multiset(b) == multiset([a[0]]) + multiset(b');
      assert multiset(a') == multiset(b') by {
        forall x ensures multiset(a')[x] == multiset(b')[x] {
          assert multiset(a)[x] == multiset([a[0]])[x] + multiset(a')[x];
          assert multiset(b)[x] == multiset([a[0]])[x] + multiset(b')[x];
        }
      }
      assert UniqueTimes(a') by {
        forall p, q | 0 <= p < |a'| && 0 <= q < |a'| && p != q ensures a'[p].dateTime != a'[q].dateTime {
          assert a'[p] == a[p + 1] && a'[q] == a[q + 1];
        }
      }
      AscendingPermutationsAgree(a', b');
    }
  }

  lemma SameHead(a: seq<FuelEntry>, b: seq<FuelEntry>)
    requires Ascending(a) && Ascending(b) && multiset(a) == multiset(b) && UniqueTimes(a) && |a| > 0 && |b| > 0
    ensures a[0] == b[0]
  {
    assert a[0] in multiset(a) && b[0] in multiset(b);
    assert a[0] in b && b[0] in a;
    var i :| 0 <= i < |b| && b[i] == a[0];
    var j :| 0 <= j < |a| && a[j] == b[0];
    assert b[0].dateTime <= b[i].dateTime;
    assert a[0].dateTime <= a[j].dateTime;
    SameTimeSameRow(a, a[0], b[0]);
  }

  /** A table already in `dateTime` order is what `getAllOnce` returns. */
  lemma OrderedTableIsItsListing(rows: seq<FuelEntry>)
    requires UniqueTimes(rows) && Ascending(rows)
    ensures GetAllOnce(rows) == rows
  {
    AscendingPermutationsAgree(rows, GetAllOnce(rows));
  }
}
