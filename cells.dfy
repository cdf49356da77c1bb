/** Spreadsheet cells: what a cell holds and its 1-based position; a sheet
    keeps its cells as a map, and a cell is empty exactly when its position
    is not a key. */
module Cells {

  /** A numeric field as the market-data service reports it (a price, a
      capitalisation, a volume, a percentage, possibly null). Its arithmetic
      plays no part in the behaviour modelled here, so it stays opaque. */
  type Value

  datatype Cell = Text(s: string) | Num(v: Value)

  /** A position as Excel's Cells(row, column) takes it: both start at 1. */
  datatype Pos = Pos(row: int, col: int)

  type Grid = map<Pos, Cell>
}
