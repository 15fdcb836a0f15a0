# Window extraction around LED-on events

This project models two steps of an EEG pipeline.

The first is the window extractor `windows(folder, filename)`. It reads
per-run signal matrices (channels x samples) and a marker table. Each
row of the table records an event of some run and its start time in
seconds. For every accepted file, in sorted name order, and every marker
row of that file's run, in table order, the extractor does this:

- It converts the start time to a sample index with `int(t * 500)`.
- If at least 1000 samples precede that index and at least 1500 follow it,
  it cuts the pair (`X[:, s-1000:s]`, `X[:, s:s+1500]`).
- Otherwise it prints a diagnostic and skips the row.

A file is accepted when its name ends with `_eeg.npy` and contains
`_S<digits>`. The run number is the value of the first such digit run. A
file with the suffix but no run number is skipped with a diagnostic.

The second is the channel-subset step of `preprocess_eeg`. It keeps the
data columns whose channel name is one of 14 scalp channels, and rewrites
the name list to match.

Modules:

- `Wrappers`: `Option` and `Result`.
- `Selection`: the comprehension `[i for i, x in enumerate(xs) if keep(x)]`. It is defined once, characterised exactly, and shown to be unique.
- `Matrices`: rectangular 2-D arrays. Models column slices `m[:, lo:hi]` and fancy indexing `m[:, idx]`. It also defines `Beside`, which sets two arrays side by side. The source never joins arrays; `Beside` exists only to state that a window's past and future halves form one contiguous block of the recording.
- `Markers`: marker-table cells, `columns.index`, Python `int()` of a number (truncation toward zero), and the rows of one run.
- `RunFiles`: the `_eeg.npy` filter and the `_S(\d+)` run-number parse.
- `Windows`: the extraction, in three forms:
  - a fold over files and rows (`Extract`);
  - a reference description of its output (`AllWindows`), independent of the loops;
  - the nested loop itself (`Windows.Windows`, with its loop bodies `Windows.CollectFile` and `Windows.CollectRun`), proved to compute the fold.
- `Channels`: the channel subset.

The extractor's outcome is either `Collected(pairs, log)` or `Raised(error, log)`:

- `log` holds the lines the source prints when it skips a file or a row.
- `Raised` is an exception that ends the call. These are the ValueError of `list.index`, the IndexError of a short row, and the TypeError of `int(None)`.

The docstring of `windows` speaks of `*_neural_components.npy` files, but
the code reads files ending in `_eeg.npy`. The model follows the code.
`_eeg.npy` is also the suffix the ICA stage writes (`HS_P1_S{i}_eeg.npy`,
ica/ica.py:62).

## Model

| member | source | states |
|---|---|---|
| Selection.KeptIndices | windows/sequences.py:47 | the kept positions are strictly increasing, in range, satisfy the test, and include every position that satisfies it |
| Selection.SelectionIsUnique | windows/sequences.py:47 | any increasing list with exactly those members is the comprehension's result |
| Selection.KeptCount | windows/sequences.py:47 | the number of kept positions is the number of positions that satisfy the test |
| Selection.KeptIndicesSnoc | windows/sequences.py:47 | appending an element appends its position exactly when it passes the test |
| Matrices.Columns | windows/sequences.py:58-59 | `m[:, lo:hi]` keeps every row and holds `hi - lo` columns; entry `(r, j)` is `m[r][lo + j]` |
| Matrices.PickColumns | ica/bandpass_filter.py:54 | `m[:, idx]` keeps every row; its column `j` is column `idx[j]` of `m` |
| Matrices.AdjacentColumns | windows/sequences.py:58-59 | the blocks `lo:mid` and `mid:hi` side by side equal the block `lo:hi` |
| Markers.ColumnIndex | windows/sequences.py:26-27 | `columns.index(name)` succeeds iff the name is present; it gives the first position holding it; otherwise it raises ValueError for that name |
| Markers.Trunc | windows/sequences.py:54 | Python `int()` of a number truncates toward zero (bounds for both signs) |
| Markers.IntCell | windows/sequences.py:47 | `int(row[k])` succeeds iff the cell exists and is a number; a short row raises IndexError and a `null` cell raises TypeError |
| Markers.RunRowsSucceeds | windows/sequences.py:47 | the run-row comprehension raises iff there is a row and some `Run` cell cannot be read |
| Markers.RunRowsMissingColumn | windows/sequences.py:47 | without a `Run` column, any non-empty table raises the ValueError for `Run` |
| Markers.RunRowsSelects | windows/sequences.py:47 | when every `Run` cell can be read, the comprehension yields exactly the rows whose truncated `Run` equals the run, in table order |
| RunFiles.FirstMatchFrom | windows/sequences.py:38 | the regex search finds the leftmost `_S<digit>` at or after a position, or reports that there is none |
| RunFiles.DigitRun | windows/sequences.py:38 | `\d+` is greedy: every digit that follows is taken, and the next character is not a digit |
| RunFiles.RunNumber | windows/sequences.py:38-42 | a run number exists iff some `_S<digit>` occurs; it is the decimal value of the maximal digit run after the leftmost such marker |
| RunFiles.DecimalRoundTrip | windows/sequences.py:42 | `int()` of the decimal spelling of `n` is `n` |
| RunFiles.RunNumberOfSpelledName | windows/sequences.py:38-42 | a name `prefix + "_S" + str(n) + rest`, with no earlier marker and `rest` not starting with a digit, has run number `n` |
| RunFiles.AcceptedRun | windows/sequences.py:33-42 | a file is read iff its name ends with `_eeg.npy` and contains `_S<digit>`; its run is then the parsed number |
| RunFiles.ProducerNamesAccepted | windows/sequences.py:33-42 | every name `HS_P1_S{i}_eeg.npy`, as written by the ICA stage, is read with run number `i` |
| Windows.EventWindows | windows/sequences.py:49-60 | each reference pair is an in-bounds window of the run's matrix |
| Windows.PairCount | windows/sequences.py:49-60 | a run yields as many pairs as it has rows whose event time falls in bounds |
| Windows.WindowLayout | windows/sequences.py:57-60 | a pair has exactly 1000 and 1500 columns and every channel; the past is samples `s-1000..s-1`, the future `s..s+1499`; together they are the contiguous block around `s` |
| Windows.WindowShape | windows/sequences.py:56-60 | any window pair of a matrix has shape (channels, 1000) and (channels, 1500) |
| Windows.TruncationAgreesWithFloor | windows/sequences.py:54 | truncating `t * 500` accepts the same events as flooring it, and the two agree on every accepted event |
| Windows.RowsFoldKeepsRaised | windows/sequences.py:49-50 | an exception raised on one row ends the inner loop with that exception |
| Windows.FilesFoldKeepsRaised | windows/sequences.py:32-47 | an exception raised for one file ends the whole call with that exception |
| Windows.EventWindowsSnoc | windows/sequences.py:49-60 | a further row adds its pair iff its window is in bounds |
| Windows.EventWindowsAppend | windows/sequences.py:49-60 | the pairs of two row sequences, one after the other, are the pairs of each, in order |
| Windows.SkippedRowAddsNothing | windows/sequences.py:51-62 | a row with no start time or an out-of-bounds window contributes nothing and does not disturb the other rows' pairs |
| Windows.RowsFoldCollects | windows/sequences.py:49-60 | with a `StartTime` column and a cell for it in every row, the inner loop raises nothing and appends exactly the reference pairs, in row order |
| Windows.RowsFoldRaises | windows/sequences.py:49-54 | the inner loop raises iff there is a row and either `StartTime` is missing (its ValueError) or some row lacks the cell; once the column exists, the only error is the IndexError of a short row |
| Windows.ExtractMatchesReference | windows/sequences.py:29-64 | on a well-formed table the call raises nothing; it returns each accepted file's pairs, files in sorted order and rows in table order |
| Windows.ExtractYieldsOnlyWindows | windows/sequences.py:57-60 | windows are dropped, never padded: every returned pair is an exact in-bounds window of an input matrix |
| Windows.ExtractShapes | windows/sequences.py:56-60 | every returned pair is (channels, 1000) and (channels, 1500) of the file it came from |
| Windows.ScenarioRows | windows/sequences.py:47 | in the two-row example, both rows belong to run 1 |
| Windows.ScenarioFold | windows/sequences.py:49-62 | in the example, start time 2.0 gives sample 1000 (kept) and 0.5 gives sample 250 (skipped with its diagnostic) |
| Windows.ScenarioFileAccepted | windows/sequences.py:33-42 | `HS_P1_S1_eeg.npy` is read as run 1 |
| Windows.TwoEventsScenario | windows/sequences.py:29-64 | the whole call on the example returns one pair at sample 1000 and prints one out-of-bounds line for sample 250 |
| Windows.RampWindow | windows/sequences.py:58-59 | on a ramp channel, the pair at sample 1000 holds samples 0..999 and 1000..2499 |
| Windows.CollectFile | windows/sequences.py:32-62 | one pass of the outer loop computes the file step: skip without the suffix, log a missing run number, raise from the run-row selection, or cut the run's pairs |
| Windows.CollectRun | windows/sequences.py:49-62 | the inner loop computes the row fold from the pairs and diagnostics collected so far |
| Windows.Windows | windows/sequences.py:7-64 | the nested loop computes `Extract`; every returned pair is a fixed-shape window of an input file |
| Channels.KeptChannels | ica/bandpass_filter.py:45-53 | the kept positions are increasing and in range; a position is kept iff its name is one of the 14 allowed channels |
| Channels.SelectChannels | ica/bandpass_filter.py:53-55 | succeeds iff every kept position is a data column (otherwise numpy's IndexError); keeps every sample; the widths match the name list; only allowed names remain |
| Channels.SelectionAligned | ica/bandpass_filter.py:53-55 | result column `j` and result name `j` both come from the `j`-th kept position |
| Channels.AllowedChannelsKept | ica/bandpass_filter.py:53-55 | every allowed source channel, duplicates included, appears in the result with its own column |
| Channels.OnlyAllowedChannels | ica/bandpass_filter.py:53-55 | every result column is an allowed source column, under that column's name |
| Channels.SelectionIdempotent | ica/bandpass_filter.py:53-55 | selecting the channels of a selection changes nothing |
| Channels.DuplicatesAndOrderKept | ica/bandpass_filter.py:53 | for names Fp1, Cz, F3, Cz, positions 1, 2 and 3 are kept: input order and duplicates come from the input, not from the allowed list |

## Left out

- File system and loading:
  - The directory listing and `np.load` are not modelled. The extractor takes the listing as a sequence of (name, matrix) entries.
  - The JSON marker file is not modelled either. The extractor takes its `columns` and `data` as a table.
- Windows.Windows: takes the listing already in `sorted` order (it requires names strictly increasing) instead of sorting it.
- The lines the source prints are recorded as `Diagnostic` values in the outcome's log, not as text.
- The `__main__` block is not modelled: the fixed paths, the summary prints and the pickle dump.
- Floating point is not modelled:
  - Start times and cell values are exact reals, so `t * 500` has no rounding.
  - `int()` of an infinite or NaN value, which raises in Python, has no counterpart.
- Marker cells are only `null` or numbers. The model does not cover:
  - string cells, which `int()` would parse or reject;
  - booleans, which Python treats as 0 and 1;
  - nested values.
- RunFiles.RunNumber: `\d` is taken as the ASCII digits `0`-`9`. Python's `re` also matches other Unicode decimal digits.
- Signal files are rectangular 2-D matrices. An array of another dimension, whose `shape[1]` would fail or mean something else, is outside the model.
- An unreadable or missing file, and the exception it would raise, are not modelled.
- Channels.SelectChannels: the test `name in allowed_channels` is modelled as string equality on names. The JSON decoding of the names and the conversion of `data` to an array are not modelled.
- Channels.SelectChannels: the source rewrites `data_json["EEG"]["names"]` in place (ica/bandpass_filter.py:55), but it never writes the subset back to `data_json["EEG"]["data"]`, which keeps every column. `Eeg.data` in the result stands for the local `eeg_data` that goes on to the filter, not for the dictionary's `data` field. The in-place update of the dictionary is not modelled.
- Everything of `preprocess_eeg` after the channel subset is not part of this model:
  - the band-pass design and zero-phase filtering (ica/bandpass_filter.py:58);
  - storing the filtered signal under `filtered_data` (line 61);
  - the optional `json.dump` to `output_filepath` (lines 63-65).
- The ICA decomposition in ica/ica.py is not part of this model. Only the file names it writes are used, through RunFiles.ProducerNamesAccepted.
- The plotting code is not part of this model.
