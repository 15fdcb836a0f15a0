/**
 * The marker table: a `columns` list of names and `data` rows that hold
 * one cell per column, read from the marker JSON document. Only the
 * parts the window extractor uses are modelled: `columns.index`,
 * Python's `int()` of a cell, and the rows of one run.
 */
module Markers {
  import opened Wrappers
  import Selection

  /** A JSON cell as the extractor sees it: `null` or a number (held exactly). */
  datatype Cell = Null | Num(value: real)

  type Row = seq<Cell>

  datatype Table = Table(columns: seq<string>, rows: seq<Row>)

  /** The exceptions that abort the extractor. */
  datatype Error =
    | MissingColumn(name: string)  // ValueError from `list.index`
    | MissingCell                  // IndexError: a row shorter than the column index
    | NotANumber                   // TypeError: `int(None)`

  const RunColumn := "Run"
  const StartTimeColumn := "StartTime"

  /** `columns.index(name)`: the first position holding `name`, or the ValueError it raises. */
  function ColumnIndex(columns: seq<string>, name: string): (r: Result<nat, Error>)
    ensures r.Ok? <==> name in columns
    ensures r.Ok? ==> r.value < |columns| && columns[r.value] == name
    ensures r.Ok? ==> forall j :: 0 <= j < r.value ==> columns[j] != name
    ensures r.Err? ==> r.error == MissingColumn(name)
  {
    if columns == [] then Err(MissingColumn(name))
    else if columns[0] == name then Ok(0)
    else
      match ColumnIndex(columns[1..], name)
      case Ok(i) => Ok(i + 1)
      case Err(e) => Err(e)
  }

  /** Python's `int(x)` of a number: truncation toward zero. */
  function Trunc(x: real): (n: int)
    ensures 0.0 <= x ==> n as real <= x < n as real + 1.0
    ensures x < 0.0 ==> n as real - 1.0 < x <= n as real
  {
    if x >= 0.0 then x.Floor else -((-x).Floor)
  }

  /** `int(row[k])`: the IndexError of a short row, the TypeError of `int(None)`, or the truncated number. */
  function IntCell(row: Row, k: nat): (r: Result<int, Error>)
    ensures r.Ok? <==> k < |row| && row[k].Num?
    ensures r.Ok? ==> r.value == Trunc(row[k].value)
    ensures k >= |row| ==> r == Err(MissingCell)
    ensures k < |row| && row[k].Null? ==> r == Err(NotANumber)
  {
    if k >= |row| then Err(MissingCell)
    else match row[k]
      case Null => Err(NotANumber)
      case Num(x) => Ok(Trunc(x))
  }

  /**
   * `[row for row in data_rows if int(row[col_idx("Run")]) == run]`: the
   * first failing row (in table order) raises; `col_idx` is evaluated per
   * row, so an empty table never raises.
   */
  function RunRows(columns: seq<string>, rows: seq<Row>, run: int): Result<seq<Row>, Error>
  {
    if rows == [] then Ok([])
    else
      match RunRows(columns, rows[..|rows| - 1], run)
      case Err(e) => Err(e)
      case Ok(kept) =>
        match ColumnIndex(columns, RunColumn)
        case Err(e) => Err(e)
        case Ok(k) =>
          match IntCell(rows[|rows| - 1], k)
          case Err(e) => Err(e)
          case Ok(v) => Ok(if v == run then kept + [rows[|rows| - 1]] else kept)
  }

  /** Every row has a numeric `Run` cell under a present `Run` column. */
  ghost predicate RunCellsOk(columns: seq<string>, rows: seq<Row>) {
    && RunColumn in columns
    && forall i :: 0 <= i < |rows| ==> IntCell(rows[i], ColumnIndex(columns, RunColumn).value).Ok?
  }

  /** True of a row whose `Run` cell, at position `k`, has integer value `run`. */
  predicate InRun(k: nat, run: int, row: Row) {
    IntCell(row, k) == Ok(run)
  }

  /** `InRun` as the test handed to the selection. */
  function InRunTest(k: nat, run: int): Row -> bool {
    row => InRun(k, run, row)
  }

  /** The comprehension raises exactly when the table has a row and some row's `Run` cell cannot be read. */
  lemma {:induction false} RunRowsSucceeds(columns: seq<string>, rows: seq<Row>, run: int)
    ensures RunRows(columns, rows, run).Ok? <==> rows == [] || RunCellsOk(columns, rows)
  {
    if rows != [] {
      var init := rows[..|rows| - 1];
      RunRowsSucceeds(columns, init, run);
      assert forall i :: 0 <= i < |init| ==> init[i] == rows[i];
      if RunColumn in columns && init != [] && !RunCellsOk(columns, init) {
        var i :| 0 <= i < |init| && !IntCell(init[i], ColumnIndex(columns, RunColumn).value).Ok?;
        assert !IntCell(rows[i], ColumnIndex(columns, RunColumn).value).Ok?;
      }
    }
  }

  /** A table without a `Run` column raises the ValueError of `list.index` as soon as it has a row. */
  lemma {:induction false} RunRowsMissingColumn(columns: seq<string>, rows: seq<Row>, run: int)
    requires RunColumn !in columns && rows != []
    ensures RunRows(columns, rows, run) == Err(MissingColumn(RunColumn))
  {
    if |rows| > 1 {
      RunRowsMissingColumn(columns, rows[..|rows| - 1], run);
    }
  }

  /**
   * When every `Run` cell can be read, the comprehension keeps exactly the
   * rows of run `run`, in table order.
   */
  lemma {:induction false} RunRowsSelects(columns: seq<string>, rows: seq<Row>, run: int)
    requires RunCellsOk(columns, rows)
    ensures var k := ColumnIndex(columns, RunColumn).value;
            var idx := Selection.KeptIndices(rows, InRunTest(k, run));
            RunRows(columns, rows, run) == Ok(Selection.Gather(rows, idx))
  {
    var k := ColumnIndex(columns, RunColumn).value;
    var keep := InRunTest(k, run);
    if rows != [] {
      var init, last := rows[..|rows| - 1], rows[|rows| - 1];
      assert RunCellsOk(columns, init) by {
        assert forall i :: 0 <= i < |init| ==> init[i] == rows[i];
      }
      RunRowsSelects(columns, init, run);
      var before := Selection.KeptIndices(init, keep);
      assert RunRows(columns, init, run) == Ok(Selection.Gather(init, before));
      assert ColumnIndex(columns, RunColumn) == Ok(k);
      assert IntCell(last, k).Ok?;
      assert init + [last] == rows;
      Selection.KeptIndicesSnoc(init, last, keep);
      Selection.GatherSnoc(init, last, before, keep(last));
      var extended := before + (if keep(last) then [|init|] else []);
      assert Selection.KeptIndices(rows, keep) == extended;
      assert Selection.Gather(rows, extended)
          == Selection.Gather(init, before) + (if keep(last) then [last] else []);
      if keep(last) {
        assert RunRows(columns, rows, run) == Ok(Selection.Gather(init, before) + [last]);
      } else {
        assert extended == before;
        assert Selection.Gather(rows, before) == Selection.Gather(init, before);
        assert Selection.Gather(rows, Selection.KeptIndices(rows, keep)) == Selection.Gather(init, before);
        assert RunRows(columns, rows, run) == Ok(Selection.Gather(init, before));
      }
    }
  }
}
