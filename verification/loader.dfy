/**
 `insert_rows` of `PokemonCSVIntoSQL.py`: the rows read back from the CSV file
 are inserted one by one into the `pokemon` table, skipping any row whose id
 the table already holds. The table is an abstract map from primary key to
 the stored column values; whether the database accepts an INSERT is an
 oracle of the key and the values.
 */
module Loader {
  import opened Wrappers

  /** A value pandas hands over for one column of a row. */
  datatype Cell = Null | NaN | Num(n: int) | Text(s: string)

  /** `pd.isna`: `None` and NaN are the missing values. */
  predicate IsMissing(c: Cell) {
    c.Null? || c.NaN?
  }

  /** The fifteen columns of the INSERT, in its fixed order. */
  const Columns: seq<string> := ["id", "name", "height", "weight",
    "type_1", "type_2", "ability_1", "ability_2", "ability_3",
    "HP", "ATK", "DEF", "SP_ATK", "SP_DEF", "Speed"]

  /** One row of the DataFrame, by column name. */
  type Row = map<string, Cell>

  /** The `pokemon` table: primary key to stored values, in column order. */
  type Table = map<int, seq<Cell>>

  /** Whether the database accepts the INSERT of these values under this key. */
  type Acceptor = (int, seq<Cell>) -> bool

  /** The row has every column the INSERT reads (a missing one raises `KeyError`). */
  predicate HasColumns(row: Row) {
    forall i :: 0 <= i < |Columns| ==> Columns[i] in row
  }

  predicate AllHaveColumns(rows: seq<Row>) {
    forall j :: 0 <= j < |rows| ==> HasColumns(rows[j])
  }

  /** One bound parameter: `None if pd.isna(v) else v`. */
  function Bind(c: Cell): Cell {
    if IsMissing(c) then Null else c
  }

  /**
   The parameter tuple of the INSERT: one value per column, in column order,
   a missing value bound as null and every other value unchanged.
   */
  function RowValues(row: Row): (vals: seq<Cell>)
    requires HasColumns(row)
    ensures |vals| == |Columns|
    ensures forall i :: 0 <= i < |Columns| ==>
              (IsMissing(row[Columns[i]]) ==> vals[i] == Null) &&
              (!IsMissing(row[Columns[i]]) ==> vals[i] == row[Columns[i]])
    ensures forall i :: 0 <= i < |vals| ==> !vals[i].NaN?
  {
    seq(|Columns|, i requires 0 <= i < |Columns| => Bind(row[Columns[i]]))
  }

  /**
   The primary key the row is looked up and inserted under. Only a numeric id
   can be bound to the INT key; any other id makes the statement fail.
   */
  function RowKey(row: Row): (key: Option<int>)
    requires HasColumns(row)
    ensures key.Some? <==> row["id"].Num?
    ensures key.Some? ==> row["id"] == Num(key.value)
  {
    assert Columns[0] == "id";
    match row["id"]
    case Num(n) => Some(n)
    case _ => None
  }

  /** The database would take this row if its key were free. */
  predicate Accepted(row: Row, accepts: Acceptor)
    requires HasColumns(row)
  {
    RowKey(row).Some? && accepts(RowKey(row).value, RowValues(row))
  }

  /** What the loader logs for one row. */
  datatype RowOutcome = Inserted | SkippedDuplicate | Failed

  /**
   One iteration of the loop: look the key up, skip a duplicate, otherwise
   insert; a failing statement is logged and leaves the table as it was.
   */
  function LoadRow(t: Table, row: Row, accepts: Acceptor): (r: (Table, RowOutcome))
    requires HasColumns(row)
    ensures r.1 == SkippedDuplicate <==> RowKey(row).Some? && RowKey(row).value in t
    ensures r.1 == Inserted <==> Accepted(row, accepts) && RowKey(row).value !in t
    ensures r.1 != Inserted ==> r.0 == t
    ensures r.1 == Inserted ==>
              && r.0.Keys == t.Keys + {RowKey(row).value}
              && r.0[RowKey(row).value] == RowValues(row)
              && forall k :: k in t ==> r.0[k] == t[k]
  {
    match RowKey(row)
    case None => (t, Failed)
    case Some(k) =>
      if k in t then (t, SkippedDuplicate)
      else if accepts(k, RowValues(row)) then (t[k := RowValues(row)], Inserted)
      else (t, Failed)
  }

  /** The numeric ids of a sequence of rows. */
  function KeysOf(rows: seq<Row>): set<int>
    requires AllHaveColumns(rows)
    decreases |rows|
  {
    if rows == [] then {}
    else (if RowKey(rows[0]).Some? then {RowKey(rows[0]).value} else {}) + KeysOf(rows[1..])
  }

  /**
   The whole loop, as a fold over the rows: one outcome per row, the keys only
   grow and only by row ids, and no stored row is ever overwritten.
   */
  function LoadRows(t: Table, rows: seq<Row>, accepts: Acceptor): (r: (Table, seq<RowOutcome>))
    requires AllHaveColumns(rows)
    ensures |r.1| == |rows|
    ensures t.Keys <= r.0.Keys <= t.Keys + KeysOf(rows)
    ensures forall k :: k in t ==> r.0[k] == t[k]
    decreases |rows|
  {
    if rows == [] then (t, [])
    else
      var (t1, o) := LoadRow(t, rows[0], accepts);
      var (t2, os) := LoadRows(t1, rows[1..], accepts);
      (t2, [o] + os)
  }

  /** The fold takes one row off the front. */
  lemma LoadRowsStep(t: Table, rows: seq<Row>, accepts: Acceptor)
    requires AllHaveColumns(rows) && |rows| > 0
    ensures var step := LoadRow(t, rows[0], accepts);
            var rest := LoadRows(step.0, rows[1..], accepts);
            LoadRows(t, rows, accepts) == (rest.0, [step.1] + rest.1)
  {
  }

  /** `for _, row in df.iterrows(): ...`, row by row with the outcomes logged in order. */
  method InsertRows(t: Table, rows: seq<Row>, accepts: Acceptor) returns (table: Table, log: seq<RowOutcome>)
    requires AllHaveColumns(rows)
    ensures (table, log) == LoadRows(t, rows, accepts)
  {
    table, log := t, [];
    var i := 0;
    while i < |rows|
      invariant 0 <= i <= |rows|
      invariant AllHaveColumns(rows[i..])
      invariant LoadRows(table, rows[i..], accepts).0 == LoadRows(t, rows, accepts).0
      invariant log + LoadRows(table, rows[i..], accepts).1 == LoadRows(t, rows, accepts).1
    {
      var (t1, outcome) := LoadRow(table, rows[i], accepts);
      assert AllHaveColumns(rows[i + 1..]);
      assert LoadRows(t1, rows[i + 1..], accepts).0 == LoadRows(t, rows, accepts).0
          && (log + [outcome]) + LoadRows(t1, rows[i + 1..], accepts).1 == LoadRows(t, rows, accepts).1 by {
        LoadRowsStep(table, rows[i..], accepts);
        assert rows[i..][1..] == rows[i + 1..];
        assert (log + [outcome]) + LoadRows(t1, rows[i + 1..], accepts).1
            == log + ([outcome] + LoadRows(t1, rows[i + 1..], accepts).1);
      }
      table, log := t1, log + [outcome];
      i := i + 1;
    }
    assert rows[i..] == [];
    assert LoadRows(table, rows[i..], accepts) == (table, []);
    assert log + [] == log;
  }
}
