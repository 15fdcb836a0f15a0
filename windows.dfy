/**
 * The window extractor: for every accepted signal file, in sorted name
 * order, and every marker row of its run, in table order, the event time
 * becomes a sample index `s = int(t * 500)`; when `s - 1000 >= 0` and
 * `s + 1500 <= samples`, the pair (`X[:, s-1000:s]`, `X[:, s:s+1500]`) is
 * appended, otherwise the row is skipped with a diagnostic.
 *
 * `Extract` is the behaviour as a fold over the files and rows; the method
 * `Windows` is the source's nested loop, proved to compute it.
 */
module Windows {
  import opened Wrappers
  import opened Matrices
  import opened Markers
  import opened RunFiles
  import Selection

  const SampleRate: real := 500.0
  const PastSamples: nat := 1000
  const FutureSamples: nat := 1500

  /** One (past, future) window pair; both halves are channels x samples. */
  datatype Pair<T> = Pair(past: Matrix<T>, future: Matrix<T>)

  /** A directory entry: its file name and the channels x samples matrix the file holds. */
  datatype RunFile<T> = RunFile(name: string, signals: Matrix<T>)

  /** The lines the source prints when it skips a file or a row. */
  datatype Diagnostic =
    | NoRunNumber(file: string)        // "Could not extract run number from file name ..."
    | OutOfBounds(run: int, sample: int)  // "Skipping trial in run ...: LEDOn sample ... out of bounds."

  /**
   * The state of the extraction: the pairs collected and the lines printed
   * so far, or the exception that ended it (the pairs are then lost).
   */
  datatype Outcome<T> =
    | Collected(pairs: seq<Pair<T>>, log: seq<Diagnostic>)
    | Raised(error: Error, log: seq<Diagnostic>)

  /** Python's string order on file names, as `sorted` uses it. */
  predicate Precedes(a: string, b: string) {
    if a == [] then b != []
    else b != [] && (a[0] < b[0] || (a[0] == b[0] && Precedes(a[1..], b[1..])))
  }

  /** `sorted(os.listdir(...))`: names in strictly increasing order. */
  ghost predicate SortedByName<T>(files: seq<RunFile<T>>) {
    forall a, b :: 0 <= a < b < |files| ==> Precedes(files[a].name, files[b].name)
  }

  /** `int(start_time_sec * 500)`: the sample index of an event. */
  function EventSample(t: real): int {
    Trunc(t * SampleRate)
  }

  /** The source's bounds test: the whole window lies inside the recording. */
  predicate InBounds(s: int, samples: nat) {
    s - PastSamples >= 0 && s + FutureSamples <= samples
  }

  /** The pair cut around sample `s`. */
  function Window<T>(x: Matrix<T>, s: int): (p: Pair<T>)
    requires InBounds(s, x.width)
  {
    Pair(Columns(x, s - PastSamples, s), Columns(x, s, s + FutureSamples))
  }

  /** `p` is the window pair of `x` at some in-bounds sample. */
  ghost predicate IsWindowOf<T>(p: Pair<T>, x: Matrix<T>) {
    exists s :: InBounds(s, x.width) && p == Window(x, s)
  }

  // ---------------------------------------------------------------------
  // The extraction as a fold over rows and files
  // ---------------------------------------------------------------------

  /** One pass of the inner loop over `run_rows`, for a row of run `run` against matrix `x`. */
  function RowStep<T>(st: Outcome<T>, x: Matrix<T>, run: int, columns: seq<string>, row: Row): Outcome<T> {
    if st.Raised? then st
    else match ColumnIndex(columns, StartTimeColumn)
      case Err(e) => Raised(e, st.log)
      case Ok(k) =>
        if k >= |row| then Raised(MissingCell, st.log)
        else match row[k]
          case Null => st
          case Num(t) =>
            var s := EventSample(t);
            if InBounds(s, x.width) then Collected(st.pairs + [Window(x, s)], st.log)
            else Collected(st.pairs, st.log + [OutOfBounds(run, s)])
  }

  /** The inner loop over `rows`, from state `st`. */
  function RowsFold<T>(st: Outcome<T>, x: Matrix<T>, run: int, columns: seq<string>, rows: seq<Row>): Outcome<T> {
    if rows == [] then st
    else RowStep(RowsFold(st, x, run, columns, rows[..|rows| - 1]), x, run, columns, rows[|rows| - 1])
  }

  /** One pass of the outer loop: a file that is skipped, or whose run's rows are folded in. */
  function FileStep<T>(st: Outcome<T>, table: Table, f: RunFile<T>): Outcome<T> {
    if st.Raised? || !EndsWith(f.name, EegSuffix) then st
    else match RunNumber(f.name)
      case None => Collected(st.pairs, st.log + [NoRunNumber(f.name)])
      case Some(run) =>
        match RunRows(table.columns, table.rows, run)
        case Err(e) => Raised(e, st.log)
        case Ok(rows) => RowsFold(st, f.signals, run, table.columns, rows)
  }

  /** The outer loop over `files`, from state `st`. */
  function FilesFold<T>(st: Outcome<T>, table: Table, files: seq<RunFile<T>>): Outcome<T> {
    if files == [] then st
    else FileStep(FilesFold(st, table, files[..|files| - 1]), table, files[|files| - 1])
  }

  /** What `windows(folder, filename)` returns, prints and raises. */
  function Extract<T>(files: seq<RunFile<T>>, table: Table): Outcome<T> {
    FilesFold(Collected([], []), table, files)
  }

  // ---------------------------------------------------------------------
  // A reference description of the output, independent of the loops
  // ---------------------------------------------------------------------

  /** The row, with its `StartTime` cell at `k`, yields a pair from `x`. */
  predicate Fires<T>(x: Matrix<T>, k: nat, row: Row) {
    k < |row| && row[k].Num? && InBounds(EventSample(row[k].value), x.width)
  }

  function FiresTest<T>(x: Matrix<T>, k: nat): Row -> bool {
    row => Fires(x, k, row)
  }

  /**
   * The pairs the rows yield from `x`: one per row that fires, in row
   * order, each cut at that row's event sample.
   */
  function EventWindows<T>(x: Matrix<T>, k: nat, rows: seq<Row>): (ws: seq<Pair<T>>)
    ensures forall j :: 0 <= j < |ws| ==> IsWindowOf(ws[j], x)
  {
    var idx := Selection.KeptIndices(rows, FiresTest(x, k));
    var ws := seq(|idx|, j requires 0 <= j < |idx| => Window(x, EventSample(rows[idx[j]][k].value)));
    assert forall j :: 0 <= j < |ws| ==> ws[j] == Window(x, EventSample(rows[idx[j]][k].value));
    ws
  }

  /** As many pairs as there are rows that fire. */
  lemma PairCount<T>(x: Matrix<T>, k: nat, rows: seq<Row>)
    ensures |EventWindows(x, k, rows)| == |set i: nat | i < |rows| && Fires(x, k, rows[i])|
  {
    var keep := FiresTest(x, k);
    Selection.KeptCount(rows, keep);
    assert Selection.Satisfying(rows, keep) == set i: nat | i < |rows| && Fires(x, k, rows[i]);
  }

  /** The marker table has every cell the extractor reads: `Run` and `StartTime` columns, a number in every `Run` cell, a `StartTime` cell in every row. */
  ghost predicate WellFormed(table: Table) {
    && RunCellsOk(table.columns, table.rows)
    && StartTimeColumn in table.columns
    && forall i :: 0 <= i < |table.rows| ==> ColumnIndex(table.columns, StartTimeColumn).value < |table.rows[i]|
  }

  /** The rows of run `run`, in table order, as the reference selection. */
  ghost function RowsOfRun(table: Table, run: int): seq<Row>
    requires RunCellsOk(table.columns, table.rows)
  {
    var k := ColumnIndex(table.columns, RunColumn).value;
    Selection.Gather(table.rows, Selection.KeptIndices(table.rows, InRunTest(k, run)))
  }

  /** What one file contributes: nothing unless it is accepted, else the pairs of its run's rows. */
  ghost function FileWindows<T>(table: Table, f: RunFile<T>): seq<Pair<T>>
    requires WellFormed(table)
  {
    match AcceptedRun(f.name)
    case None => []
    case Some(run) => EventWindows(f.signals, ColumnIndex(table.columns, StartTimeColumn).value, RowsOfRun(table, run))
  }

  /** The contributions of the files, concatenated in file order. */
  ghost function AllWindows<T>(table: Table, files: seq<RunFile<T>>): seq<Pair<T>>
    requires WellFormed(table)
  {
    if files == [] then []
    else AllWindows(table, files[..|files| - 1]) + FileWindows(table, files[|files| - 1])
  }

  // ---------------------------------------------------------------------
  // Lemmas
  // ---------------------------------------------------------------------

  /**
   * The layout of a window pair: exactly 1000 and 1500 columns, the
   * channels of `x`, the past ending at column `s - 1`, the future starting
   * at column `s`, and the two together the block from `s - 1000` to `s + 1500`.
   */
  lemma WindowLayout<T>(x: Matrix<T>, s: int)
    requires InBounds(s, x.width)
    ensures var p := Window(x, s);
      && p.past.width == PastSamples && p.future.width == FutureSamples
      && |p.past.rows| == |x.rows| && |p.future.rows| == |x.rows|
      && (forall c :: 0 <= c < |x.rows| ==> p.past.rows[c] == x.rows[c][s - PastSamples..s])
      && (forall c :: 0 <= c < |x.rows| ==> p.future.rows[c] == x.rows[c][s..s + FutureSamples])
      && Column(p.past, PastSamples - 1) == Column(x, s - 1)
      && Column(p.future, 0) == Column(x, s)
      && Beside(p.past, p.future) == Columns(x, s - PastSamples, s + FutureSamples)
  {
    AdjacentColumns(x, s - PastSamples, s, s + FutureSamples);
  }

  /** Every window pair has the fixed shape, whatever matrix it came from. */
  lemma WindowShape<T>(p: Pair<T>, x: Matrix<T>)
    requires IsWindowOf(p, x)
    ensures p.past.width == PastSamples && p.future.width == FutureSamples
    ensures |p.past.rows| == |x.rows| && |p.future.rows| == |x.rows|
  {
  }

  /** Python truncates `t * 500` toward zero; flooring it instead would accept and reject the same rows. */
  lemma TruncationAgreesWithFloor(t: real, samples: nat)
    ensures InBounds(EventSample(t), samples) <==> InBounds((t * SampleRate).Floor, samples)
    ensures InBounds(EventSample(t), samples) ==> EventSample(t) == (t * SampleRate).Floor
  {
  }

  /** Once raised, the exception survives the rest of the inner loop. */
  lemma {:induction false} RowsFoldKeepsRaised<T>(st: Outcome<T>, x: Matrix<T>, run: int, columns: seq<string>, rows: seq<Row>, n: nat)
    requires n <= |rows| && RowsFold(st, x, run, columns, rows[..n]).Raised?
    ensures RowsFold(st, x, run, columns, rows) == RowsFold(st, x, run, columns, rows[..n])
    decreases |rows| - n
  {
    if n < |rows| {
      assert rows[..n + 1][..n] == rows[..n];
      RowsFoldKeepsRaised(st, x, run, columns, rows, n + 1);
    } else {
      assert rows[..n] == rows;
    }
  }

  /** Once raised, the exception survives the rest of the outer loop. */
  lemma {:induction false} FilesFoldKeepsRaised<T>(st: Outcome<T>, table: Table, files: seq<RunFile<T>>, n: nat)
    requires n <= |files| && FilesFold(st, table, files[..n]).Raised?
    ensures FilesFold(st, table, files) == FilesFold(st, table, files[..n])
    decreases |files| - n
  {
    if n < |files| {
      assert files[..n + 1][..n] == files[..n];
      FilesFoldKeepsRaised(st, table, files, n + 1);
    } else {
      assert files[..n] == files;
    }
  }

  /** Appending a row appends its pair when it fires, and nothing otherwise. */
  lemma EventWindowsSnoc<T>(x: Matrix<T>, k: nat, rows: seq<Row>, row: Row)
    ensures EventWindows(x, k, rows + [row])
         == EventWindows(x, k, rows) + (if Fires(x, k, row) then [Window(x, EventSample(row[k].value))] else [])
  {
    var keep := FiresTest(x, k);
    var before := Selection.KeptIndices(rows, keep);
    Selection.KeptIndicesSnoc(rows, row, keep);
    var all := rows + [row];
    var after := Selection.KeptIndices(all, keep);
    assert after == before + (if keep(row) then [|rows|] else []);
    var left, right := EventWindows(x, k, all), EventWindows(x, k, rows);
    assert |left| == |after|;
    forall j | 0 <= j < |before| ensures left[j] == right[j] {
      assert all[before[j]] == rows[before[j]];
    }
  }

  /** The pairs of two runs of rows, one after the other, are the pairs of each, in that order. */
  lemma {:induction false} EventWindowsAppend<T>(x: Matrix<T>, k: nat, a: seq<Row>, b: seq<Row>)
    ensures EventWindows(x, k, a + b) == EventWindows(x, k, a) + EventWindows(x, k, b)
  {
    if b == [] {
      assert a + b == a;
      assert EventWindows(x, k, b) == [];
    } else {
      var init, last := b[..|b| - 1], b[|b| - 1];
      var extra := if Fires(x, k, last) then [Window(x, EventSample(last[k].value))] else [];
      assert a + b == (a + init) + [last];
      assert b == init + [last];
      calc {
        EventWindows(x, k, a + b);
        { EventWindowsSnoc(x, k, a + init, last); }
        EventWindows(x, k, a + init) + extra;
        { EventWindowsAppend(x, k, a, init); }
        (EventWindows(x, k, a) + EventWindows(x, k, init)) + extra;
        EventWindows(x, k, a) + (EventWindows(x, k, init) + extra);
        { EventWindowsSnoc(x, k, init, last); }
        EventWindows(x, k, a) + EventWindows(x, k, b);
      }
    }
  }

  /** A row that does not fire (no time, or its window out of bounds) adds nothing and leaves the other rows' pairs as they are. */
  lemma SkippedRowAddsNothing<T>(x: Matrix<T>, k: nat, a: seq<Row>, row: Row, b: seq<Row>)
    requires !Fires(x, k, row)
    ensures EventWindows(x, k, a + [row] + b) == EventWindows(x, k, a + b)
  {
    EventWindowsAppend(x, k, a + [row], b);
    EventWindowsAppend(x, k, a, b);
    EventWindowsSnoc(x, k, a, row);
  }

  /**
   * When `StartTime` is a column and every row has a cell for it, the
   * inner loop raises nothing and appends exactly the pairs of the rows
   * that fire, in row order.
   */
  lemma {:induction false} RowsFoldCollects<T>(pairs: seq<Pair<T>>, log: seq<Diagnostic>, x: Matrix<T>, run: int,
                                               columns: seq<string>, rows: seq<Row>, k: nat)
    requires ColumnIndex(columns, StartTimeColumn) == Ok(k)
    requires forall i :: 0 <= i < |rows| ==> k < |rows[i]|
    ensures var out := RowsFold(Collected(pairs, log), x, run, columns, rows);
            out.Collected? && out.pairs == pairs + EventWindows(x, k, rows)
  {
    if rows == [] {
      assert EventWindows(x, k, rows) == [];
    } else {
      var init, last := rows[..|rows| - 1], rows[|rows| - 1];
      RowsFoldCollects(pairs, log, x, run, columns, init, k);
      assert init + [last] == rows;
      EventWindowsSnoc(x, k, init, last);
    }
  }

  /**
   * The inner loop raises exactly when there is a row to read and
   * `StartTime` is not a column (the ValueError) or some row lacks the cell
   * (the IndexError, the only error once the column exists).
   */
  lemma {:induction false} RowsFoldRaises<T>(pairs: seq<Pair<T>>, log: seq<Diagnostic>, x: Matrix<T>, run: int,
                                             columns: seq<string>, rows: seq<Row>)
    ensures var out := RowsFold(Collected(pairs, log), x, run, columns, rows);
            out.Raised? <==> rows != [] && (StartTimeColumn !in columns
                                           || exists i :: 0 <= i < |rows| && ColumnIndex(columns, StartTimeColumn).value >= |rows[i]|)
    ensures rows != [] && StartTimeColumn !in columns ==>
            RowsFold(Collected(pairs, log), x, run, columns, rows).Raised?
            && RowsFold(Collected(pairs, log), x, run, columns, rows).error == MissingColumn(StartTimeColumn)
    ensures StartTimeColumn in columns && RowsFold(Collected(pairs, log), x, run, columns, rows).Raised? ==>
            RowsFold(Collected(pairs, log), x, run, columns, rows).error == MissingCell
  {
    if rows != [] {
      var init, last := rows[..|rows| - 1], rows[|rows| - 1];
      RowsFoldRaises(pairs, log, x, run, columns, init);
      assert forall i :: 0 <= i < |init| ==> init[i] == rows[i];
      if StartTimeColumn in columns {
        var k := ColumnIndex(columns, StartTimeColumn).value;
        if exists i :: 0 <= i < |rows| && k >= |rows[i]| {
          var i :| 0 <= i < |rows| && k >= |rows[i]|;
          if i < |init| {
            assert k >= |init[i]|;
          }
        }
      }
    }
  }

  /**
   * On a well-formed table the extractor raises nothing and returns the
   * contributions of the files in file order, each being the pairs of its
   * run's rows in table order.
   */
  lemma {:induction false} ExtractMatchesReference<T>(files: seq<RunFile<T>>, table: Table)
    requires WellFormed(table)
    ensures Extract(files, table).Collected?
    ensures Extract(files, table).pairs == AllWindows(table, files)
  {
    if files != [] {
      var init, f := files[..|files| - 1], files[|files| - 1];
      ExtractMatchesReference(init, table);
      var st := Extract(init, table);
      assert Extract(files, table) == FileStep(st, table, f);
      if EndsWith(f.name, EegSuffix) && RunNumber(f.name).Some? {
        var run := RunNumber(f.name).value;
        RunRowsSelects(table.columns, table.rows, run);
        var rows := RowsOfRun(table, run);
        var kRun := ColumnIndex(table.columns, RunColumn).value;
        var idx := Selection.KeptIndices(table.rows, InRunTest(kRun, run));
        var k := ColumnIndex(table.columns, StartTimeColumn).value;
        forall i | 0 <= i < |rows| ensures k < |rows[i]| {
          assert rows[i] == table.rows[idx[i]];
        }
        RowsFoldCollects(st.pairs, st.log, f.signals, run, table.columns, rows, k);
      }
    }
  }

  /** Every pair of `pairs` is a window of one of the `files`. */
  ghost predicate FromFiles<T>(pairs: seq<Pair<T>>, files: seq<RunFile<T>>) {
    forall j :: 0 <= j < |pairs| ==> exists i :: 0 <= i < |files| && IsWindowOf(pairs[j], files[i].signals)
  }

  lemma {:induction false} RowsFoldFromFiles<T>(st: Outcome<T>, files: seq<RunFile<T>>, i: nat, run: int,
                                                columns: seq<string>, rows: seq<Row>)
    requires i < |files| && st.Collected? && FromFiles(st.pairs, files)
    ensures var out := RowsFold(st, files[i].signals, run, columns, rows);
            out.Collected? ==> FromFiles(out.pairs, files)
  {
    if rows != [] {
      RowsFoldFromFiles(st, files, i, run, columns, rows[..|rows| - 1]);
    }
  }

  lemma {:induction false} FilesFoldFromFiles<T>(table: Table, files: seq<RunFile<T>>, n: nat)
    requires n <= |files|
    ensures var out := FilesFold(Collected([], []), table, files[..n]);
            out.Collected? ==> FromFiles(out.pairs, files)
  {
    if n > 0 {
      assert files[..n][..n - 1] == files[..n - 1];
      FilesFoldFromFiles(table, files, n - 1);
      var st := FilesFold(Collected([], []), table, files[..n - 1]);
      if st.Collected? && EndsWith(files[n - 1].name, EegSuffix) && RunNumber(files[n - 1].name).Some? {
        var run := RunNumber(files[n - 1].name).value;
        if RunRows(table.columns, table.rows, run).Ok? {
          RowsFoldFromFiles(st, files, n - 1, run, table.columns, RunRows(table.columns, table.rows, run).value);
        }
      }
    }
  }

  /** Drop, never pad: every pair the extractor returns is an exact window of one of the input matrices. */
  lemma ExtractYieldsOnlyWindows<T>(files: seq<RunFile<T>>, table: Table)
    ensures Extract(files, table).Collected? ==> FromFiles(Extract(files, table).pairs, files)
  {
    FilesFoldFromFiles(table, files, |files|);
    assert files[..|files|] == files;
  }

  /** The two marker rows of the scenario below both belong to run 1. */
  lemma ScenarioRows(columns: seq<string>, kept: Row, early: Row)
    requires columns == [RunColumn, StartTimeColumn]
    requires kept == [Num(1.0), Num(2.0)] && early == [Num(1.0), Num(0.5)]
    ensures RunRows(columns, [kept, early], 1) == Ok([kept, early])
  {
    assert ColumnIndex(columns, RunColumn) == Ok(0);
    assert IntCell(kept, 0) == Ok(1) && IntCell(early, 0) == Ok(1);
    var rows := [kept, early];
    assert rows[..1] == [kept] && [kept][..0] == [];
    assert RunRows(columns, [], 1) == Ok([]);
    assert RunRows(columns, [kept], 1).Ok?;
    assert RunRows(columns, [kept], 1).value == [] + [kept] == [kept];
    assert RunRows(columns, rows, 1).Ok?;
    assert RunRows(columns, rows, 1).value == [kept] + [early] == rows;
  }

  /** The scenario's rows fold to one pair at sample 1000 and one diagnostic for sample 250. */
  lemma ScenarioFold<T>(x: Matrix<T>, columns: seq<string>, kept: Row, early: Row)
    requires x.width == 3000
    requires columns == [RunColumn, StartTimeColumn]
    requires kept == [Num(1.0), Num(2.0)] && early == [Num(1.0), Num(0.5)]
    ensures RowsFold(Collected([], []), x, 1, columns, [kept, early]) == Collected([Window(x, 1000)], [OutOfBounds(1, 250)])
  {
    assert ColumnIndex(columns, StartTimeColumn) == Ok(1);
    assert EventSample(2.0) == 1000 && EventSample(0.5) == 250;
    var rows := [kept, early];
    assert rows[..1] == [kept] && [kept][..0] == [];
    var start := Collected([], []);
    assert RowsFold(start, x, 1, columns, [kept]) == Collected([] + [Window(x, 1000)], []);
    assert RowsFold(start, x, 1, columns, rows) == Collected([Window(x, 1000)], [] + [OutOfBounds(1, 250)]);
  }

  /**
   * Two LedOn rows of run 1 against a 3000-sample recording of run 1:
   * `StartTime` 2.0 gives sample 1000, which is kept; `StartTime` 0.5
   * gives sample 250, which is skipped with a diagnostic.
   */
  lemma TwoEventsScenario<T>(x: Matrix<T>, table: Table, files: seq<RunFile<T>>)
    requires x.width == 3000
    requires table == Table([RunColumn, StartTimeColumn], [[Num(1.0), Num(2.0)], [Num(1.0), Num(0.5)]])
    requires files == [RunFile("HS_P1_S1_eeg.npy", x)]
    ensures Extract(files, table) == Collected([Window(x, 1000)], [OutOfBounds(1, 250)])
  {
    var f := files[0];
    var start := Collected([], []);
    assert FileStep(start, table, f) == Collected([Window(x, 1000)], [OutOfBounds(1, 250)]) by {
      ScenarioFileAccepted(f.name);
      ScenarioRows(table.columns, table.rows[0], table.rows[1]);
      ScenarioFold(x, table.columns, table.rows[0], table.rows[1]);
      assert table.rows == [table.rows[0], table.rows[1]];
    }
    assert files[..0] == [];
    assert FilesFold(start, table, files[..0]) == start;
  }

  /** The scenario's file name is accepted, with run number 1. */
  lemma ScenarioFileAccepted(name: string)
    requires name == "HS_P1_S1_eeg.npy"
    ensures EndsWith(name, EegSuffix) && RunNumber(name) == Some(1)
  {
    assert "HS_P1_S" + DecimalString(1) + EegSuffix == name by {
      assert DecimalString(1) == "1";
    }
    ProducerNamesAccepted(1);
  }

  /** Four channels of 3000 samples: channel 0 counts 0, 1, ..., 2999, the others are zero. */
  function Ramp(): (m: Matrix<int>)
    ensures |m.rows| == 4 && m.width == 3000
  {
    Grid([seq(3000, i => i), seq(3000, _ => 0), seq(3000, _ => 0), seq(3000, _ => 0)], 3000)
  }

  /** On the ramp, the pair kept at sample 1000 holds samples 0..999 and 1000..2499 of channel 0. */
  lemma RampWindow()
    ensures Window(Ramp(), 1000).past.rows[0] == seq(1000, i => i)
    ensures Window(Ramp(), 1000).future.rows[0] == seq(1500, i => 1000 + i)
  {
    var p := Window(Ramp(), 1000);
    assert p.past.rows[0] == Ramp().rows[0][0..1000];
    assert p.future.rows[0] == Ramp().rows[0][1000..2500];
  }

  // ---------------------------------------------------------------------
  // The loop
  // ---------------------------------------------------------------------

  /**
   * The inner loop `for row in run_rows`: from the pairs and diagnostics
   * collected so far, cut the pairs of the rows of run `run` from `x`.
   */
  method CollectRun<T>(pairs0: seq<Pair<T>>, log0: seq<Diagnostic>, x: Matrix<T>, run: int,
                       columns: seq<string>, runRows: seq<Row>) returns (out: Outcome<T>)
    ensures out == RowsFold(Collected(pairs0, log0), x, run, columns, runRows)
  {
    var pairs, log := pairs0, log0;
    var j := 0;
    while j < |runRows|
      invariant 0 <= j <= |runRows|
      invariant RowsFold(Collected(pairs0, log0), x, run, columns, runRows[..j]) == Collected(pairs, log)
    {
      assert runRows[..j + 1][..j] == runRows[..j];
      var row := runRows[j];
      var k := ColumnIndex(columns, StartTimeColumn);
      if k.Err? || k.value >= |row| {
        out := Raised(if k.Err? then k.error else MissingCell, log);
        RowsFoldKeepsRaised(Collected(pairs0, log0), x, run, columns, runRows, j + 1);
        assert runRows[..|runRows|] == runRows;
        return;
      }
      match row[k.value] {
        case Null =>
        case Num(t) =>
          var s := EventSample(t);
          if s - PastSamples >= 0 && s + FutureSamples <= x.width {
            pairs := pairs + [Window(x, s)];
          } else {
            log := log + [OutOfBounds(run, s)];
          }
      }
      j := j + 1;
    }
    assert runRows[..j] == runRows;
    out := Collected(pairs, log);
  }

  /** Every pair the extractor returns has the fixed shape and the channels of the file it came from. */
  lemma ExtractShapes<T>(files: seq<RunFile<T>>, table: Table)
    ensures var out := Extract(files, table);
      out.Collected? ==> forall j :: 0 <= j < |out.pairs| ==>
        && out.pairs[j].past.width == PastSamples
        && out.pairs[j].future.width == FutureSamples
        && exists i :: 0 <= i < |files| && IsWindowOf(out.pairs[j], files[i].signals)
                       && |out.pairs[j].past.rows| == |out.pairs[j].future.rows| == |files[i].signals.rows|
  {
    var out := Extract(files, table);
    if out.Collected? {
      ExtractYieldsOnlyWindows(files, table);
      forall j | 0 <= j < |out.pairs|
        ensures exists i :: 0 <= i < |files| && IsWindowOf(out.pairs[j], files[i].signals)
                            && |out.pairs[j].past.rows| == |out.pairs[j].future.rows| == |files[i].signals.rows|
      {
        var i :| 0 <= i < |files| && IsWindowOf(out.pairs[j], files[i].signals);
        WindowShape(out.pairs[j], files[i].signals);
      }
    }
  }

  /**
   * One pass of the outer loop `for eeg_filename in ...`: skip a file
   * without the suffix, log one without a run number, or select its run's
   * rows and cut their pairs.
   */
  method CollectFile<T>(pairs0: seq<Pair<T>>, log0: seq<Diagnostic>, table: Table, f: RunFile<T>)
    returns (out: Outcome<T>)
    ensures out == FileStep(Collected(pairs0, log0), table, f)
  {
    if !EndsWith(f.name, EegSuffix) {
      return Collected(pairs0, log0);
    }
    var m := RunNumber(f.name);
    if m.None? {
      return Collected(pairs0, log0 + [NoRunNumber(f.name)]);
    }
    var selected := RunRows(table.columns, table.rows, m.value);
    if selected.Err? {
      return Raised(selected.error, log0);
    }
    out := CollectRun(pairs0, log0, f.signals, m.value, table.columns, selected.value);
  }

  /** `windows(folder, filename)` over the sorted directory listing `files` and the marker table. */
  method Windows<T>(files: seq<RunFile<T>>, table: Table) returns (out: Outcome<T>)
    requires SortedByName(files)
    ensures out == Extract(files, table)
    ensures out.Collected? ==> forall j :: 0 <= j < |out.pairs| ==>
              && out.pairs[j].past.width == PastSamples
              && out.pairs[j].future.width == FutureSamples
              && exists i :: 0 <= i < |files| && IsWindowOf(out.pairs[j], files[i].signals)
                             && |out.pairs[j].past.rows| == |out.pairs[j].future.rows| == |files[i].signals.rows|
  {
    ExtractShapes(files, table);
    var pairs: seq<Pair<T>> := [];
    var log: seq<Diagnostic> := [];
    var i := 0;
    while i < |files|
      invariant 0 <= i <= |files|
      invariant FilesFold(Collected([], []), table, files[..i]) == Collected(pairs, log)
    {
      assert files[..i + 1][..i] == files[..i];
      var st := CollectFile(pairs, log, table, files[i]);
      if st.Raised? {
        out := st;
        FilesFoldKeepsRaised(Collected([], []), table, files, i + 1);
        return;
      }
      pairs, log := st.pairs, st.log;
      i := i + 1;
    }
    assert files[..i] == files;
    out := Collected(pairs, log);
  }
}
