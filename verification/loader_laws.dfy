/**
 Properties of the skip-on-duplicate load: idempotence, an independent
 description of the final table, the harmlessness of a failing row, and the
 shape of every stored row.
 */
module LoaderLaws {
  import opened Wrappers
  import opened Loader

  /**
   Every row is either refused by the database or already has its key in the
   table: loading such rows can no longer insert anything.
   */
  predicate Settled(t: Table, rows: seq<Row>, accepts: Acceptor)
    requires AllHaveColumns(rows)
  {
    forall j :: 0 <= j < |rows| ==> Accepted(rows[j], accepts) ==> RowKey(rows[j]).value in t
  }

  /** After a load, the table is settled with respect to the rows just loaded. */
  lemma {:induction false} LoadSettles(t: Table, rows: seq<Row>, accepts: Acceptor)
    requires AllHaveColumns(rows)
    ensures Settled(LoadRows(t, rows, accepts).0, rows, accepts)
    decreases |rows|
  {
    if rows != [] {
      var t1 := LoadRow(t, rows[0], accepts).0;
      LoadSettles(t1, rows[1..], accepts);
      var final := LoadRows(t, rows, accepts).0;
      assert final == LoadRows(t1, rows[1..], accepts).0;
      forall j | 0 <= j < |rows| && Accepted(rows[j], accepts)
        ensures RowKey(rows[j]).value in final
      {
        if j > 0 {
          assert rows[j] == rows[1..][j - 1];
        }
      }
    }
  }

  /** Loading rows into a table they are settled against changes nothing and inserts nothing. */
  lemma {:induction false} SettledLoadChangesNothing(t: Table, rows: seq<Row>, accepts: Acceptor)
    requires AllHaveColumns(rows) && Settled(t, rows, accepts)
    ensures LoadRows(t, rows, accepts).0 == t
    ensures forall j :: 0 <= j < |rows| ==> LoadRows(t, rows, accepts).1[j] != Inserted
    decreases |rows|
  {
    if rows != [] {
      assert LoadRow(t, rows[0], accepts).0 == t;
      assert Settled(t, rows[1..], accepts) by {
        forall j | 0 <= j < |rows[1..]| && Accepted(rows[1..][j], accepts)
          ensures RowKey(rows[1..][j]).value in t
        {
          assert rows[1..][j] == rows[j + 1];
        }
      }
      SettledLoadChangesNothing(t, rows[1..], accepts);
    }
  }

  /**
   Loading the same rows a second time adds no rows and changes no row; when
   the database accepted every row, the second load logs every row as a
   skipped duplicate.
   */
  lemma LoadIsIdempotent(t: Table, rows: seq<Row>, accepts: Acceptor)
    requires AllHaveColumns(rows)
    ensures var once := LoadRows(t, rows, accepts).0;
            var twice := LoadRows(once, rows, accepts);
            && twice.0 == once
            && (forall j :: 0 <= j < |rows| ==> twice.1[j] != Inserted)
            && ((forall j :: 0 <= j < |rows| ==> Accepted(rows[j], accepts)) ==>
                  forall j :: 0 <= j < |rows| ==> twice.1[j] == SkippedDuplicate)
  {
    var once := LoadRows(t, rows, accepts).0;
    LoadSettles(t, rows, accepts);
    SettledLoadChangesNothing(once, rows, accepts);
    if forall j :: 0 <= j < |rows| ==> Accepted(rows[j], accepts) {
      AllSkippedWhenPresent(once, rows, accepts);
    }
  }

  /** Rows whose keys are all present are all logged as skipped duplicates. */
  lemma {:induction false} AllSkippedWhenPresent(t: Table, rows: seq<Row>, accepts: Acceptor)
    requires AllHaveColumns(rows)
    requires forall j :: 0 <= j < |rows| ==> RowKey(rows[j]).Some? && RowKey(rows[j]).value in t
    ensures forall j :: 0 <= j < |rows| ==> LoadRows(t, rows, accepts).1[j] == SkippedDuplicate
    decreases |rows|
  {
    if rows != [] {
      assert forall j :: 0 <= j < |rows[1..]| ==> rows[1..][j] == rows[j + 1];
      AllSkippedWhenPresent(t, rows[1..], accepts);
      LoadRowsStep(t, rows, accepts);
    }
  }

  /**
   A load that finishes with the table another load left behind never
   overwrites a stored row, and every key it adds belongs to rows the first
   load's database refused: the second load only fills the gaps the first
   one's failures left. The two loads may see different acceptors, as when a
   statement fails for a reason outside the row (a dropped connection).
   */
  lemma ReloadOnlyFillsGaps(t: Table, rows: seq<Row>, first: Acceptor, second: Acceptor)
    requires AllHaveColumns(rows)
    ensures var once := LoadRows(t, rows, first).0;
            var twice := LoadRows(once, rows, second).0;
            && (forall k :: k in once ==> k in twice && twice[k] == once[k])
            && forall k :: k in twice && k !in once ==>
                 k !in t && forall j :: 0 <= j < |rows| && RowKey(rows[j]) == Some(k) ==> !Accepted(rows[j], first)
  {
    var once := LoadRows(t, rows, first).0;
    var twice := LoadRows(once, rows, second).0;
    LoadMatchesReference(t, rows, first);
    forall k | k in twice && k !in once
      ensures k !in t && forall j :: 0 <= j < |rows| && RowKey(rows[j]) == Some(k) ==> !Accepted(rows[j], first)
    {
      assert Lookup(once, k) == None;
      NoneAcceptedBefore(rows, k, first);
    }
  }

  /** When no row with key `k` is the first accepted one, no row with key `k` is accepted at all. */
  lemma {:induction false} NoneAcceptedBefore(rows: seq<Row>, k: int, accepts: Acceptor)
    requires AllHaveColumns(rows)
    requires FirstAccepted(rows, k, accepts).None?
    ensures forall j :: 0 <= j < |rows| && RowKey(rows[j]) == Some(k) ==> !Accepted(rows[j], accepts)
    decreases |rows|
  {
    if rows != [] {
      NoneAcceptedBefore(rows[1..], k, accepts);
      forall j | 0 <= j < |rows| && RowKey(rows[j]) == Some(k)
        ensures !Accepted(rows[j], accepts)
      {
        if j > 0 {
          assert rows[j] == rows[1..][j - 1];
        }
      }
    }
  }

  /** The values of the first row with key `k` that the database accepts, if any. */
  function FirstAccepted(rows: seq<Row>, k: int, accepts: Acceptor): Option<seq<Cell>>
    requires AllHaveColumns(rows)
    decreases |rows|
  {
    if rows == [] then None
    else if Accepted(rows[0], accepts) && RowKey(rows[0]).value == k then Some(RowValues(rows[0]))
    else FirstAccepted(rows[1..], k, accepts)
  }

  function Lookup(t: Table, k: int): Option<seq<Cell>> {
    if k in t then Some(t[k]) else None
  }

  /**
   The reference description of a load: a key already present keeps its row;
   otherwise the first accepted row with that key wins and later ones are
   ignored.
   */
  function Expected(t: Table, rows: seq<Row>, accepts: Acceptor, k: int): Option<seq<Cell>>
    requires AllHaveColumns(rows)
  {
    if k in t then Some(t[k]) else FirstAccepted(rows, k, accepts)
  }

  /** The fold agrees with the reference description on every key. */
  lemma {:induction false} LoadMatchesReference(t: Table, rows: seq<Row>, accepts: Acceptor)
    requires AllHaveColumns(rows)
    ensures forall k :: Lookup(LoadRows(t, rows, accepts).0, k) == Expected(t, rows, accepts, k)
    decreases |rows|
  {
    if rows != [] {
      var t1 := LoadRow(t, rows[0], accepts).0;
      LoadMatchesReference(t1, rows[1..], accepts);
      forall k
        ensures Expected(t1, rows[1..], accepts, k) == Expected(t, rows, accepts, k)
      {
      }
    }
  }

  /**
   A row the database refuses (or whose id is not numeric) has no effect: the
   load with it and the load without it end in the same table, and every other
   row gets the outcome it would get if the refused row were absent.
   */
  lemma RefusedRowHasNoEffect(t: Table, rows: seq<Row>, i: nat, accepts: Acceptor)
    requires AllHaveColumns(rows) && i < |rows|
    requires !Accepted(rows[i], accepts)
    ensures AllHaveColumns(rows[..i] + rows[i + 1..])
    ensures LoadRows(t, rows[..i] + rows[i + 1..], accepts).0 == LoadRows(t, rows, accepts).0
    ensures LoadRows(t, rows[..i] + rows[i + 1..], accepts).1
         == LoadRows(t, rows, accepts).1[..i] + LoadRows(t, rows, accepts).1[i + 1..]
  {
    RefusedRowLeavesTable(t, rows, i, accepts);
    RefusedRowLeavesOutcomes(t, rows, i, accepts);
  }

  /** Removing one row keeps every remaining row readable. */
  lemma OmitKeepsColumns(rows: seq<Row>, i: nat)
    requires AllHaveColumns(rows) && i < |rows|
    ensures AllHaveColumns(rows[..i] + rows[i + 1..])
    ensures 0 < i ==> (rows[..i] + rows[i + 1..])[1..] == rows[1..][..i - 1] + rows[1..][i..]
    ensures 0 < i ==> (rows[..i] + rows[i + 1..])[0] == rows[0]
    ensures i == 0 ==> rows[..i] + rows[i + 1..] == rows[1..]
  {
    var without := rows[..i] + rows[i + 1..];
    assert forall j :: 0 <= j < |without| ==> without[j] == if j < i then rows[j] else rows[j + 1];
  }

  /** The table half of `RefusedRowHasNoEffect`. */
  lemma {:induction false} RefusedRowLeavesTable(t: Table, rows: seq<Row>, i: nat, accepts: Acceptor)
    requires AllHaveColumns(rows) && i < |rows|
    requires !Accepted(rows[i], accepts)
    ensures AllHaveColumns(rows[..i] + rows[i + 1..])
    ensures LoadRows(t, rows[..i] + rows[i + 1..], accepts).0 == LoadRows(t, rows, accepts).0
    decreases i
  {
    var without := rows[..i] + rows[i + 1..];
    OmitKeepsColumns(rows, i);
    if 0 < i {
      var t1 := LoadRow(t, rows[0], accepts).0;
      RefusedRowLeavesTable(t1, rows[1..], i - 1, accepts);
      LoadRowsStep(t, without, accepts);
    }
  }

  /** The outcome-log half of `RefusedRowHasNoEffect`. */
  lemma {:induction false} RefusedRowLeavesOutcomes(t: Table, rows: seq<Row>, i: nat, accepts: Acceptor)
    requires AllHaveColumns(rows) && i < |rows|
    requires !Accepted(rows[i], accepts)
    ensures AllHaveColumns(rows[..i] + rows[i + 1..])
    ensures LoadRows(t, rows[..i] + rows[i + 1..], accepts).1
         == LoadRows(t, rows, accepts).1[..i] + LoadRows(t, rows, accepts).1[i + 1..]
    decreases i
  {
    var without := rows[..i] + rows[i + 1..];
    OmitKeepsColumns(rows, i);
    LoadRowsStep(t, rows, accepts);
    var (t1, o) := LoadRow(t, rows[0], accepts);
    var log := LoadRows(t, rows, accepts).1;
    var tailLog := LoadRows(t1, rows[1..], accepts).1;
    assert log == [o] + tailLog;
    if 0 < i {
      RefusedRowLeavesOutcomes(t1, rows[1..], i - 1, accepts);
      LoadRowsStep(t, without, accepts);
      assert log[..i] + log[i + 1..] == [o] + (tailLog[..i - 1] + tailLog[i..]);
    } else {
      assert log[..i] + log[i + 1..] == tailLog;
    }
  }

  /** Every stored row has the fifteen values, its own key in the `id` column, and no NaN. */
  predicate WellFormedTable(t: Table) {
    forall k :: k in t ==> |t[k]| == |Columns| && t[k][0] == Num(k) && forall i :: 0 <= i < |t[k]| ==> !t[k][i].NaN?
  }

  /** A load keeps the table well formed. */
  lemma {:induction false} LoadKeepsTableWellFormed(t: Table, rows: seq<Row>, accepts: Acceptor)
    requires AllHaveColumns(rows) && WellFormedTable(t)
    ensures WellFormedTable(LoadRows(t, rows, accepts).0)
    decreases |rows|
  {
    if rows != [] {
      var (t1, o) := LoadRow(t, rows[0], accepts);
      if o == Inserted {
        var k := RowKey(rows[0]).value;
        assert Columns[0] == "id";
        assert t1[k][0] == Num(k);
      }
      LoadKeepsTableWellFormed(t1, rows[1..], accepts);
    }
  }
}
