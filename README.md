# CryptoTrack: a verified model of the data fetcher

CryptoTrack polls a market-data service for the top 50 cryptocurrencies. It
writes each snapshot into one sheet of an Excel workbook, with a CSV file
beside it as a backup. This project models the class that does the work,
`CryptocurrencyDataFetcher` in `crypto_tracker.py`, in Dafny. It covers three pieces:

- **Record normalisation.** `FetchTop50` turns the decoded response into a
  table of six-field records, one per coin, in response order. Each field is
  copied and the symbol is upper-cased. A failed request gives the empty table.
- **Sheet overwrite.** `UpdateExcelSheet` does nothing for an empty table.
  Otherwise it does these steps in order:
  1. sets up the Excel session when any of the three handles is missing;
  2. rewrites the CSV backup at the workbook path with its extension replaced by `.csv`;
  3. clears the sheet;
  4. writes the header into row 1 and record *i* into row *i* + 2, columns 1 to 6, cell by cell;
  5. saves the workbook.

  An exception at any step ends the update. It is swallowed and never reaches the caller.
- **Session lifecycle.** The three handle fields (application, workbook,
  sheet) are set in that order by `InitializeConnection`.
  `CloseExcelConnection` saves and closes the workbook and quits the
  application, but only what is open. It resets all three handles whatever raised.

The spreadsheet, the file system and COM live outside the program. The
object therefore carries a model of what they hold, in three fields:

- `grid`: the data sheet's cells, a map from 1-based (row, column) to a cell; a missing key is an empty cell;
- `files`: each CSV file written, as its rows;
- `trace`: the sequence of foreign calls made.

Whether a foreign call raises is an input of the operation that makes it:
- `InitOutcome`: how far the session set-up gets;
- `WriteFault`: the CSV write, the clear, or the n-th cell write raises;
- `CloseFault`: the save, the close or the quit raises.

The sheet contents are described by `Sheet.Shows(g, t, n)`. It says that `g` is the
sheet after the first `n` cell writes of table `t` into a cleared sheet, in
the source's order: the header first, then the records row by row, each row
left to right. Every other cell is empty.

Files: `cells.dfy` (cells, positions, the grid), `records.dfy` (coins,
records, upper-casing), `paths.dfy` (splitting off the extension, the
CSV path), `sheet.dfy` (the CSV snapshot and the cell-write order),
`tracker.dfy` (the fetcher class and its operations).

The fetch catches only `requests.RequestException`, so a coin missing a key
raises `KeyError` out of it (crypto_tracker.py:64-69, 77); see "Left out".

A set-up run that raises while renaming a newly added sheet (lines 105-106)
has already assigned all three handles. The update that ran it writes
nothing, but the next update finds every handle present (line 129), runs no
set-up, and fills that sheet, which was never named "CryptocurrencyData".
`Tracker.UpdateAfterFailedRename` proves this sequence.

## Model

| member | source | states |
|---|---|---|
| Records.UpperChar | crypto_tracker.py:65 | the n-th small ASCII letter becomes the n-th capital of the alphabet, every other character is kept, and no small letter is left |
| Records.Upper | crypto_tracker.py:65 | the upper-cased symbol has the same length, and each character is upper-cased in place |
| Records.UpperHasNoLower | crypto_tracker.py:65 | an upper-cased symbol holds no lower-case letter |
| Records.UpperIdempotent | crypto_tracker.py:65 | upper-casing an already upper-cased symbol changes nothing |
| Paths.LastSep | crypto_tracker.py:133 | the index of the last path separator ('\' or '/'), or -1; no separator follows it |
| Paths.LastDot | crypto_tracker.py:133 | the index of the last '.', or -1; no dot follows it |
| Paths.SplitExt | crypto_tracker.py:133 | root + ext is the path; ext is empty or a '.' followed by no dot and no separator; an extension is split off only after a non-dot character of the last component |
| Paths.CsvPath | crypto_tracker.py:133 | the backup path: the root of the split followed by ".csv"; its shape is stated by `CsvPathShape` |
| Paths.CsvPathShape | crypto_tracker.py:133 | the backup path is a prefix of the workbook path followed by ".csv", and the dropped part holds no separator, so both files are in the same directory |
| Paths.SplitExtAppend | crypto_tracker.py:133 | splitting a stem followed by an extension gives back the stem and the extension |
| Paths.CsvPathReplacesExtension | crypto_tracker.py:133 | a path ending in an extension backs up to the same path with that extension replaced by ".csv" |
| Paths.CsvPathWithoutExtension | crypto_tracker.py:133 | a path whose last component has no '.' backs up to the path with ".csv" appended |
| Sheet.Rows | crypto_tracker.py:134 | the CSV snapshot as `to_csv(index=False)` writes the table built at line 73: header row, then one row per record in table order, six cells each |
| Sheet.ShowsNothing | crypto_tracker.py:138 | a cleared sheet holds no cell |
| Sheet.ShowsStep | crypto_tracker.py:141-147 | writing column c of snapshot row r into 1-based cell (r + 1, c + 1) advances the sheet by exactly one write in row-major order |
| Sheet.ShowsUnique | crypto_tracker.py:138-147 | after the clear, the sheet depends only on the table and the number of writes, not on what it held before |
| Sheet.ShowsHeaderAndRecords | crypto_tracker.py:138-147 | after all writes: cell (1, c) holds column name c, cell (i + 2, c) holds field c of record i, and every other cell is empty |
| Sheet.ShowsPrefix | crypto_tracker.py:140-147 | a sheet whose writes stopped early agrees with the complete sheet wherever it holds a cell |
| Tracker.SheetCalls | crypto_tracker.py:133-150 | the calls of writing a table once a session exists: the CSV write comes first, the sheet is cleared unless that raised, and the workbook is saved exactly when every cell write succeeded |
| Tracker.UpdateCalls | crypto_tracker.py:128-150 | the calls of updating a non-empty table: a set-up exactly when one is needed, and the CSV write exactly when no set-up was needed or it succeeded |
| Tracker.CsvBeforeSheet | crypto_tracker.py:129-150 | in an update's foreign calls, the sheet is cleared only right after the CSV write, and the save comes only right after the clearing and filling |
| Tracker.CloseCalls | crypto_tracker.py:161-167 | the teardown's calls: the workbook is closed exactly when one is open and its save did not raise; when the quit happens is stated by `CloseCallsOrder` |
| Tracker.CloseNothingOpen | crypto_tracker.py:161-167 | teardown with nothing open makes no save, close or quit |
| Tracker.CloseCallsOrder | crypto_tracker.py:161-167 | teardown closes the workbook only right after saving it, saves exactly when a workbook is open, and quits the application exactly when one is open and neither the save nor the close raised |
| Tracker.CryptocurrencyDataFetcher.constructor | crypto_tracker.py:19-35 | the path is the given one or the default file name; all three handles are absent |
| Tracker.CryptocurrencyDataFetcher.Connected | crypto_tracker.py:129 | all three handles present, the negation of the guard that triggers a set-up |
| Tracker.CryptocurrencyDataFetcher.FetchTop50 | crypto_tracker.py:52-79 | a failed request gives the empty table; otherwise one record per coin, in order, each with the fields copied and the symbol upper-cased |
| Tracker.CryptocurrencyDataFetcher.InitializeConnection | crypto_tracker.py:85-113 | one set-up run assigns app, workbook and sheet in that order, stops at the call that raises, and reports the exception; on success all three handles are present |
| Tracker.CryptocurrencyDataFetcher.UpdateExcelSheet | crypto_tracker.py:115-155 | an empty table changes nothing. Otherwise a set-up runs only when some handle is missing and reuses the session when none is. Unless set-up raised, the CSV backup holds the snapshot unless its write raised, and unless that or the clear raised the sheet holds exactly the cells written before any failure. The calls are `UpdateCalls` |
| Tracker.CryptocurrencyDataFetcher.WriteBackupAndSheet | crypto_tracker.py:133-151 | CSV backup, then clear, then the cell writes, then the save, each only if nothing before it raised |
| Tracker.CryptocurrencyDataFetcher.WriteCells | crypto_tracker.py:140-147 | into a cleared sheet, the header row and then each record row; the sheet shows every write made before the one that raised, or all of them |
| Tracker.CryptocurrencyDataFetcher.WriteRow | crypto_tracker.py:141-147 | one row's cells, left to right from column 1, into sheet row r + 1; stops at the write that raises |
| Tracker.CryptocurrencyDataFetcher.CloseExcelConnection | crypto_tracker.py:157-182 | all three handles are absent afterwards whatever raised; save, close and quit are made only for what is open, up to the first that raises; COM is released last |
| Tracker.CryptocurrencyDataFetcher.RunCycle | crypto_tracker.py:196-200 | one poll: a failed request gives the empty table, and otherwise the fetched table is normalised as by `FetchTop50`; a failed or empty fetch leaves the object unchanged; otherwise the whole new state is as after `UpdateExcelSheet` of that table, for every set-up outcome and every fault: the calls, the handles and session count, the CSV files, and the sheet showing the writes made before any failure |
| Tracker.UpdateTwice | crypto_tracker.py:133-147 | when the session is connected beforehand or its set-up succeeds, and no write raises, updating twice with the same table leaves the same sheet and CSV as updating once; the second update reuses the session and makes only the CSV write, the clear and the save (the condition is sufficient, not necessary; `UpdateAfterFailedRename` shows a failed set-up after which the equality does not hold) |
| Tracker.UpdateAfterFailedRename | crypto_tracker.py:102-106 | from a disconnected state, an update whose set-up raises at the sheet rename leaves all three handles assigned; the next update runs no set-up, whatever a set-up would do, and writes the CSV and the whole sheet |

## Left out

- The HTTP request, its query parameters and JSON decoding (lines 44-55). They are network I/O; the decoded response is an input, either the coins or a request failure.
- The limit of 50 coins per page (line 47). It is a query parameter of the service; the model accepts a response of any length.
- A coin missing one of the six keys raises `KeyError`, which the fetch does not catch. Coins are modelled as always well formed.
- FetchTop50: upper-cases ASCII letters only, not the whole of Python's `str.upper`.
- Numeric fields are an opaque type. Floating-point values, nulls and how Excel stores them are not modelled.
- COM internals (`CoInitialize`, `Dispatch`, `Workbooks.Open`/`Add`, `SaveAs`, looking up or adding the sheet, and the `Visible` and `DisplayAlerts` settings). Each set-up run is a single step whose outcome says which handles it assigned before raising.
- The sheet a set-up run finds or creates is the same modelled `grid`. Creating a new sheet does not empty it.
- A failing `wb.Save()` at the end of an update (line 150) is not a fault case. The model does not tell saved from unsaved sheet contents, so the failure would change nothing observable.
- UpdateExcelSheet: a failing CSV write leaves `files` as it was. The partial file a failing `to_csv` may leave is not modelled.
- `to_csv` text formatting (quoting, number formatting, line endings). The CSV is modelled as its rows.
- `os.path.abspath` (line 32): the path is kept as given.
- Logging and `traceback.print_exc`. No behaviour depends on them.
- The `main` loop (lines 185-217): the endless repetition, the 30- and 60-second sleeps, and the "5 minutes" log message that does not match the 30-second sleep. One loop pass is `RunCycle`, and the final clean-up is `CloseExcelConnection`.
