/** The data fetcher object: it normalises a market-data response into a
    record table, and keeps a workbook session (application, workbook and
    sheet handles) through which it overwrites one sheet and a CSV backup
    with each table.

    The spreadsheet application, the file system and the network are
    outside the program. The object carries a model of what they hold: the
    cells of the data sheet (`grid`), the CSV files written so far
    (`files`), and the foreign calls made, in order (`trace`). Whether a
    foreign call raises is an input of the operation that makes it. */
module Tracker {
  import opened Cells
  import opened Records
  import opened Sheet
  import opened Paths

  datatype Option<T> = None | Some(value: T)

  /** A COM handle, identified by the connection attempt that obtained it. */
  datatype Handle = Handle(session: nat)

  /** The foreign calls whose order matters. `Connect` is one run of the
      connection set-up, `ReleaseCom` the final `CoUninitialize`. */
  datatype Call =
    | Connect
    | WriteCsv(path: string)
    | ClearSheet
    | SaveWorkbook
    | CloseWorkbook
    | QuitApp
    | ReleaseCom

  /** How far one run of the connection set-up gets: it succeeds, or raises
      before the application handle is obtained, after it, after the
      workbook handle, or after the sheet handle (when renaming a new sheet). */
  datatype InitOutcome =
    | InitOk
    | FailBeforeApp
    | FailAfterApp
    | FailAfterWorkbook
    | FailAfterSheet

  /** How many of the three handles (app, workbook, sheet, in that order)
      a run of the set-up assigns. */
  function HandlesAssigned(o: InitOutcome): nat {
    match o
    case FailBeforeApp => 0
    case FailAfterApp => 1
    case FailAfterWorkbook => 2
    case FailAfterSheet => 3
    case InitOk => 3
  }

  /** The value of the `stage`-th handle field after a set-up run in `session`. */
  function AfterInit(h: Option<Handle>, o: InitOutcome, stage: nat, session: nat): Option<Handle> {
    if stage <= HandlesAssigned(o) then Some(Handle(session)) else h
  }

  /** Which step of the sheet update raises, if any: the CSV write, the
      clearing of the sheet, or the cell write that comes after `written`
      successful ones. */
  datatype WriteFault = NoFault | CsvFault | ClearFault | CellFault(written: nat)

  /** Which call of the teardown raises, if any. */
  datatype CloseFault = CloseOk | SaveRaises | CloseRaises | QuitRaises

  const DefaultPath: string := "cryptocurrency_live_data.xlsx"

  /** True when some cell write of a table with `cells` cells raises. */
  predicate WriteInterrupted(fault: WriteFault, cells: nat) {
    fault.CellFault? && fault.written < cells
  }

  /** How many of `cells` cell writes succeed. */
  function Written(fault: WriteFault, cells: nat): (n: nat)
    ensures n <= cells
    ensures n < cells <==> WriteInterrupted(fault, cells)
  {
    if WriteInterrupted(fault, cells) then fault.written else cells
  }

  /** The foreign calls of writing one table once a session exists: the
      CSV backup, the clearing of the sheet and the save, each made only
      when nothing before it raised. */
  function SheetCalls(fault: WriteFault, cells: nat, csv: string): (calls: seq<Call>)
    ensures |calls| >= 1 && calls[0] == WriteCsv(csv)
    ensures ClearSheet in calls <==> fault != CsvFault
    ensures SaveWorkbook in calls <==>
      fault != CsvFault && fault != ClearFault && Written(fault, cells) == cells
  {
    if fault == CsvFault then [WriteCsv(csv)]
    else if fault == ClearFault || WriteInterrupted(fault, cells) then [WriteCsv(csv), ClearSheet]
    else [WriteCsv(csv), ClearSheet, SaveWorkbook]
  }

  /** The foreign calls of one update of a non-empty table: a connection
      set-up when one was needed, then, unless that raised, the writes. */
  function UpdateCalls(connecting: bool, init: InitOutcome, fault: WriteFault, cells: nat, csv: string): (calls: seq<Call>)
    ensures Connect in calls <==> connecting
    ensures WriteCsv(csv) in calls <==> !connecting || init.InitOk?
  {
    var setup := if connecting then [Connect] else [];
    if connecting && !init.InitOk? then setup else setup + SheetCalls(fault, cells, csv)
  }

  /** The backup precedes the sheet: every clearing of the sheet is
      immediately preceded by the CSV write, and a save happens only after
      the sheet was cleared. */
  lemma CsvBeforeSheet(connecting: bool, init: InitOutcome, fault: WriteFault, cells: nat, csv: string)
    ensures var calls := UpdateCalls(connecting, init, fault, cells, csv);
      forall k :: 0 <= k < |calls| && calls[k] == ClearSheet ==> k > 0 && calls[k - 1] == WriteCsv(csv)
    ensures var calls := UpdateCalls(connecting, init, fault, cells, csv);
      forall k :: 0 <= k < |calls| && calls[k] == SaveWorkbook ==> k > 0 && calls[k - 1] == ClearSheet
  {
    var calls := UpdateCalls(connecting, init, fault, cells, csv);
    var tail := SheetCalls(fault, cells, csv);
    if connecting && !init.InitOk? {
      assert calls == [Connect];
    } else if fault == CsvFault {
      assert tail == [WriteCsv(csv)];
    } else if fault == ClearFault || WriteInterrupted(fault, cells) {
      assert tail == [WriteCsv(csv), ClearSheet];
      assert calls == if connecting then [Connect, WriteCsv(csv), ClearSheet] else tail;
    } else {
      assert tail == [WriteCsv(csv), ClearSheet, SaveWorkbook];
      assert calls == if connecting then [Connect, WriteCsv(csv), ClearSheet, SaveWorkbook] else tail;
    }
  }

  /** The teardown's calls: save and close the workbook if one is open,
      then quit the application if one is open, stopping at the first
      call that raises. */
  function CloseCalls(wbOpen: bool, appOpen: bool, fault: CloseFault): (calls: seq<Call>)
    ensures CloseWorkbook in calls <==> wbOpen && fault != SaveRaises
  {
    var wbCalls :=
      if !wbOpen then []
      else if fault == SaveRaises then [SaveWorkbook]
      else [SaveWorkbook, CloseWorkbook];
    var stopped := wbOpen && (fault == SaveRaises || fault == CloseRaises);
    wbCalls + (if appOpen && !stopped then [QuitApp] else [])
  }

  /** Teardown with nothing open makes no save, close or quit, whatever would raise. */
  lemma CloseNothingOpen(fault: CloseFault)
    ensures CloseCalls(false, false, fault) == []
  {
  }

  /** A workbook is closed only after it was saved, and the application is
      quit only when it is open. */
  lemma CloseCallsOrder(wbOpen: bool, appOpen: bool, fault: CloseFault)
    ensures var calls := CloseCalls(wbOpen, appOpen, fault);
      forall k :: 0 <= k < |calls| && calls[k] == CloseWorkbook ==> k > 0 && calls[k - 1] == SaveWorkbook
    ensures QuitApp in CloseCalls(wbOpen, appOpen, fault) <==>
      appOpen && !(wbOpen && (fault == SaveRaises || fault == CloseRaises))
    ensures SaveWorkbook in CloseCalls(wbOpen, appOpen, fault) <==> wbOpen
  {
  }

  class CryptocurrencyDataFetcher {
    const excelPath: string
    var app: Option<Handle>
    var wb: Option<Handle>
    var sheet: Option<Handle>
    /** Number of connection set-up runs so far. */
    var sessions: nat
    /** The cells of the data sheet. */
    var grid: Grid
    /** The CSV files, each as its header row and data rows. */
    var files: map<string, seq<seq<Cell>>>
    /** The foreign calls made so far. */
    var trace: seq<Call>

    /** The fetcher for `path` (the default workbook name when absent),
        with no session open, over a sheet and file system as they are. */
    constructor (path: Option<string>, existingSheet: Grid, existingFiles: map<string, seq<seq<Cell>>>)
      ensures excelPath == (if path.Some? then path.value else DefaultPath)
      ensures app == None && wb == None && sheet == None
      ensures sessions == 0 && trace == []
      ensures grid == existingSheet && files == existingFiles
    {
      excelPath := if path.Some? then path.value else DefaultPath;
      app, wb, sheet := None, None, None;
      sessions := 0;
      grid := existingSheet;
      files := existingFiles;
      trace := [];
    }

    predicate Connected()
      reads this
    {
      app.Some? && wb.Some? && sheet.Some?
    }

    /** One record per coin, in response order, with the fields copied and
        the symbol upper-cased; a failed request yields the empty table. */
    method FetchTop50(response: Response) returns (table: seq<Record>)
      ensures response.RequestFailed? ==> table == []
      ensures response.Coins? ==> |table| == |response.coins|
      ensures response.Coins? ==>
        forall i :: 0 <= i < |table| ==> Normalises(response.coins[i], table[i])
    {
      match response
      case RequestFailed =>
        table := [];
      case Coins(data) =>
        table := [];
        for i := 0 to |data|
          invariant |table| == i
          invariant forall j :: 0 <= j < i ==> Normalises(data[j], table[j])
        {
          var coin := data[i];
          table := table + [Record(
            coin.name,
            Upper(coin.symbol),
            coin.currentPrice,
            coin.marketCap,
            coin.totalVolume,
            coin.priceChangePercentage24h)];
        }
    }

    /** One run of the connection set-up. The handles are assigned in the
        order app, workbook, sheet; a call that raises stops the run and
        leaves the fields not yet reached as they were. The exception is
        passed on to the caller, which here reads `raised`. */
    method InitializeConnection(outcome: InitOutcome) returns (raised: bool)
      modifies this`app, this`wb, this`sheet, this`sessions, this`trace
      ensures raised <==> !outcome.InitOk?
      ensures sessions == old(sessions) + 1
      ensures trace == old(trace) + [Connect]
      ensures app == AfterInit(old(app), outcome, 1, old(sessions))
      ensures wb == AfterInit(old(wb), outcome, 2, old(sessions))
      ensures sheet == AfterInit(old(sheet), outcome, 3, old(sessions))
      ensures !raised ==> Connected()
    {
      var session := sessions;
      sessions := sessions + 1;
      trace := trace + [Connect];
      if outcome == FailBeforeApp {
        return true;
      }
      app := Some(Handle(session));
      if outcome == FailAfterApp {
        return true;
      }
      wb := Some(Handle(session));
      if outcome == FailAfterWorkbook {
        return true;
      }
      sheet := Some(Handle(session));
      raised := outcome == FailAfterSheet;
    }

    /** Overwrite the CSV backup and the sheet with `table`. An empty table
        changes nothing. Otherwise a session is set up first when any
        handle is missing; then the CSV backup is rewritten, the sheet is
        cleared, and the header and the records are written cell by cell.
        Any exception is swallowed: it only stops the remaining steps. */
    method UpdateExcelSheet(table: seq<Record>, init: InitOutcome, fault: WriteFault)
      modifies this
      ensures |table| == 0 ==> unchanged(this)
      ensures |table| > 0 ==>
        trace == old(trace) + UpdateCalls(!old(Connected()), init, fault, CellCount(table), CsvPath(excelPath))
      ensures |table| > 0 && old(Connected()) ==>
        app == old(app) && wb == old(wb) && sheet == old(sheet) && sessions == old(sessions)
      ensures |table| > 0 && !old(Connected()) ==>
        && sessions == old(sessions) + 1
        && app == AfterInit(old(app), init, 1, old(sessions))
        && wb == AfterInit(old(wb), init, 2, old(sessions))
        && sheet == AfterInit(old(sheet), init, 3, old(sessions))
      ensures |table| > 0 && (old(Connected()) || init.InitOk?) ==> Connected()
      ensures var proceeds := |table| > 0 && (old(Connected()) || init.InitOk?);
        files == if proceeds && fault != CsvFault then old(files)[CsvPath(excelPath) := Rows(table)] else old(files)
      ensures var proceeds := |table| > 0 && (old(Connected()) || init.InitOk?);
        if proceeds && fault != CsvFault && fault != ClearFault
        then Shows(grid, table, Written(fault, CellCount(table)))
        else grid == old(grid)
    {
      if |table| == 0 {
        return;
      }
      if !Connected() {
        var raised := InitializeConnection(init);
        if raised {
          return;
        }
      }
      WriteBackupAndSheet(table, fault);
    }

    /** The writes of one update once a session exists: the CSV backup
        first, then the sheet is cleared and filled, then the workbook is
        saved. The first step that raises ends the update. */
    method WriteBackupAndSheet(table: seq<Record>, fault: WriteFault)
      modifies this`files, this`grid, this`trace
      ensures trace == old(trace) + SheetCalls(fault, CellCount(table), CsvPath(excelPath))
      ensures files == if fault != CsvFault then old(files)[CsvPath(excelPath) := Rows(table)] else old(files)
      ensures if fault != CsvFault && fault != ClearFault
        then Shows(grid, table, Written(fault, CellCount(table)))
        else grid == old(grid)
    {
      var csvPath := CsvPath(excelPath);
      trace := trace + [WriteCsv(csvPath)];
      if fault == CsvFault {
        return;
      }
      files := files[csvPath := Rows(table)];
      trace := trace + [ClearSheet];
      if fault == ClearFault {
        return;
      }
      grid := map[];
      var interrupted := WriteCells(table, fault);
      if !interrupted {
        trace := trace + [SaveWorkbook];
      }
    }

    /** Into the cleared sheet: the header in row 1, then record i in row
        i + 2, each left to right from column 1; a cell write that raises
        ends the writing. */
    method WriteCells(table: seq<Record>, fault: WriteFault) returns (interrupted: bool)
      requires grid == map[]
      modifies this`grid
      ensures interrupted <==> WriteInterrupted(fault, CellCount(table))
      ensures Shows(grid, table, Written(fault, CellCount(table)))
    {
      ShowsNothing(table);
      interrupted := WriteRow(table, 0, HeaderCells(), fault);
      if interrupted {
        return;
      }
      for i := 0 to |table|
        invariant Shows(grid, table, 6 * (i + 1))
        invariant !WriteInterrupted(fault, 6 * (i + 1))
      {
        interrupted := WriteRow(table, i + 1, RecordCells(table[i]), fault);
        if interrupted {
          return;
        }
      }
    }

    /** Writes `cells`, row r of the table's snapshot (the header is row 0),
        into sheet row r + 1 from column 1, after the rows before it. */
    method WriteRow(table: seq<Record>, r: nat, cells: seq<Cell>, fault: WriteFault) returns (interrupted: bool)
      requires r <= |table| && cells == Rows(table)[r]
      requires Shows(grid, table, 6 * r)
      requires !WriteInterrupted(fault, 6 * r)
      modifies this`grid
      ensures interrupted <==> WriteInterrupted(fault, 6 * (r + 1))
      ensures Shows(grid, table, Written(fault, 6 * (r + 1)))
    {
      for c := 0 to |cells|
        invariant Shows(grid, table, 6 * r + c)
        invariant !WriteInterrupted(fault, 6 * r + c)
      {
        if fault == CellFault(6 * r + c) {
          return true;
        }
        ShowsStep(grid, table, r, c);
        grid := grid[Pos(r + 1, c + 1) := cells[c]];
      }
      interrupted := false;
    }

    /** Save and close the workbook if one is open, quit the application if
        one is open, and reset all three handles whatever raised. */
    method CloseExcelConnection(fault: CloseFault)
      modifies this`app, this`wb, this`sheet, this`trace
      ensures app == None && wb == None && sheet == None
      ensures trace == old(trace) + CloseCalls(old(wb).Some?, old(app).Some?, fault) + [ReleaseCom]
    {
      var stopped := false;
      if wb.Some? {
        trace := trace + [SaveWorkbook];
        if fault == SaveRaises {
          stopped := true;
        } else {
          trace := trace + [CloseWorkbook];
          stopped := fault == CloseRaises;
        }
      }
      if !stopped && app.Some? {
        trace := trace + [QuitApp];
      }
      app, wb, sheet := None, None, None;
      trace := trace + [ReleaseCom];
    }

    /** One pass of the polling loop: fetch, then update with what was fetched. */
    method RunCycle(response: Response, init: InitOutcome, fault: WriteFault) returns (table: seq<Record>)
      modifies this
      ensures response.RequestFailed? ==> table == []
      ensures response.Coins? ==> |table| == |response.coins|
      ensures response.Coins? ==>
        forall i :: 0 <= i < |table| ==> Normalises(response.coins[i], table[i])
      ensures response.RequestFailed? || |table| == 0 ==> unchanged(this)
      ensures |table| > 0 ==>
        trace == old(trace) + UpdateCalls(!old(Connected()), init, fault, CellCount(table), CsvPath(excelPath))
      ensures |table| > 0 && old(Connected()) ==>
        app == old(app) && wb == old(wb) && sheet == old(sheet) && sessions == old(sessions)
      ensures |table| > 0 && !old(Connected()) ==>
        && sessions == old(sessions) + 1
        && app == AfterInit(old(app), init, 1, old(sessions))
        && wb == AfterInit(old(wb), init, 2, old(sessions))
        && sheet == AfterInit(old(sheet), init, 3, old(sessions))
      ensures |table| > 0 && (old(Connected()) || init.InitOk?) ==> Connected()
      ensures var proceeds := |table| > 0 && (old(Connected()) || init.InitOk?);
        files == if proceeds && fault != CsvFault then old(files)[CsvPath(excelPath) := Rows(table)] else old(files)
      ensures var proceeds := |table| > 0 && (old(Connected()) || init.InitOk?);
        if proceeds && fault != CsvFault && fault != ClearFault
        then Shows(grid, table, Written(fault, CellCount(table)))
        else grid == old(grid)
    {
      table := FetchTop50(response);
      UpdateExcelSheet(table, init, fault);
    }
  }

  /** Updating twice with the same table leaves the sheet and the CSV
      backup as updating once; the second update reuses the session. */
  method UpdateTwice(f: CryptocurrencyDataFetcher, table: seq<Record>, init: InitOutcome)
    returns (onceGrid: Grid, onceFiles: map<string, seq<seq<Cell>>>, onceTrace: seq<Call>)
    requires |table| > 0
    modifies f
    ensures old(f.Connected()) || init.InitOk? ==> f.grid == onceGrid && f.files == onceFiles
    ensures old(f.Connected()) || init.InitOk? ==>
      f.trace == onceTrace + [WriteCsv(CsvPath(f.excelPath)), ClearSheet, SaveWorkbook]
  {
    f.UpdateExcelSheet(table, init, NoFault);
    onceGrid, onceFiles, onceTrace := f.grid, f.files, f.trace;
    f.UpdateExcelSheet(table, init, NoFault);
    if old(f.Connected()) || init.InitOk? {
      ShowsUnique(f.grid, onceGrid, table, CellCount(table));
    }
  }

  /** A set-up run that raises when naming a newly added sheet has already
      assigned all three handles. The update that made it writes nothing,
      but the next update finds every handle present, runs no set-up
      (whatever a set-up would do), and fills that unnamed sheet. */
  method UpdateAfterFailedRename(f: CryptocurrencyDataFetcher, table: seq<Record>, laterInit: InitOutcome)
    requires |table| > 0 && !f.Connected()
    modifies f
    ensures f.sessions == old(f.sessions) + 1
    ensures f.app == Some(Handle(old(f.sessions)))
    ensures f.wb == Some(Handle(old(f.sessions)))
    ensures f.sheet == Some(Handle(old(f.sessions)))
    ensures f.trace == old(f.trace) + [Connect, WriteCsv(CsvPath(f.excelPath)), ClearSheet, SaveWorkbook]
    ensures Shows(f.grid, table, CellCount(table))
    ensures f.files == old(f.files)[CsvPath(f.excelPath) := Rows(table)]
  {
    f.UpdateExcelSheet(table, FailAfterSheet, NoFault);
    assert f.Connected() && f.grid == old(f.grid) && f.files == old(f.files);
    f.UpdateExcelSheet(table, laterInit, NoFault);
  }
}
