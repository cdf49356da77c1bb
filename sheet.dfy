/** What one update puts into the CSV backup and into the sheet: a header
    row followed by one row per record, six columns each. The sheet is
    filled cell by cell, the header first, then the records row by row,
    each row left to right; `Shows` says which cells are present after a
    given number of those writes. */
module Sheet {
  import opened Cells
  import opened Records

  const Width := 6

  /** The column names, in the order the record dictionaries list their keys. */
  const Header: seq<string> := [
    "Name",
    "Symbol",
    "Current Price (USD)",
    "Market Capitalization",
    "24h Trading Volume",
    "24h Price Change (%)"]

  /** The header row's cells. */
  function HeaderCells(): seq<Cell> {
    [Text(Header[0]), Text(Header[1]), Text(Header[2]),
     Text(Header[3]), Text(Header[4]), Text(Header[5])]
  }

  /** A record's cells, in column order. */
  function RecordCells(r: Record): seq<Cell> {
    [Text(r.name), Text(r.symbol), Num(r.price), Num(r.marketCap), Num(r.volume), Num(r.change)]
  }

  /** The table as `to_csv(index=False)` lays it out: header row, then the records. */
  function Rows(t: seq<Record>): (rows: seq<seq<Cell>>)
    ensures |rows| == |t| + 1
    ensures forall r :: 0 <= r < |rows| ==> |rows[r]| == Width
    ensures rows[0] == HeaderCells()
    ensures forall i :: 0 <= i < |t| ==> rows[i + 1] == RecordCells(t[i])
  {
    [HeaderCells()] + seq(|t|, i requires 0 <= i < |t| => RecordCells(t[i]))
  }

  /** The number of cell writes an update of `t` makes. */
  function CellCount(t: seq<Record>): nat {
    6 * (|t| + 1)
  }

  /** `p` lies in the block of a header and `n` records. */
  predicate InBlock(n: nat, p: Pos) {
    1 <= p.row <= n + 1 && 1 <= p.col <= Width
  }

  /** How many cell writes come before the one at `p`. */
  function Index(p: Pos): int {
    6 * (p.row - 1) + (p.col - 1)
  }

  /** Within the block no two positions come at the same point of the order. */
  lemma IndexInjective(n: nat, p: Pos, q: Pos)
    requires InBlock(n, p) && InBlock(n, q) && Index(p) == Index(q)
    ensures p == q
  {
  }

  /** `g` is the sheet after the first `written` cell writes of an update
      of `t` into a cleared sheet: those cells hold the snapshot's values,
      and every other cell is empty. */
  ghost predicate Shows(g: Grid, t: seq<Record>, written: nat) {
    && (forall p :: p in g ==> InBlock(|t|, p) && Index(p) < written)
    && (forall p :: InBlock(|t|, p) && Index(p) < written ==> p in g)
    && (forall p :: p in g && InBlock(|t|, p) ==> g[p] == Rows(t)[p.row - 1][p.col - 1])
  }

  /** A cleared sheet shows no write yet. */
  lemma ShowsNothing(t: seq<Record>)
    ensures Shows(map[], t, 0)
  {
  }

  /** Writing row r, column c (0-based, the header is row 0) as the next
      write moves the sheet on by one write. */
  lemma ShowsStep(g: Grid, t: seq<Record>, r: nat, c: nat)
    requires r <= |t| && c < Width
    requires Shows(g, t, 6 * r + c)
    ensures Shows(g[Pos(r + 1, c + 1) := Rows(t)[r][c]], t, 6 * r + c + 1)
  {
    StepKeys(g, t, r, c);
    StepValues(g, t, r, c);
  }

  /** The cells present after the step are those before it and the one written. */
  lemma StepKeys(g: Grid, t: seq<Record>, r: nat, c: nat)
    requires r <= |t| && c < Width
    requires Shows(g, t, 6 * r + c)
    ensures var g' := g[Pos(r + 1, c + 1) := Rows(t)[r][c]];
      && (forall p :: p in g' ==> InBlock(|t|, p) && Index(p) < 6 * r + c + 1)
      && (forall p :: InBlock(|t|, p) && Index(p) < 6 * r + c + 1 ==> p in g')
  {
    var q := Pos(r + 1, c + 1);
    var g' := g[q := Rows(t)[r][c]];
    assert InBlock(|t|, q) && Index(q) == 6 * r + c;
    forall p | p in g' ensures InBlock(|t|, p) && Index(p) < 6 * r + c + 1 {
      if p != q {
        assert p in g;
      }
    }
    forall p | InBlock(|t|, p) && Index(p) < 6 * r + c + 1 ensures p in g' {
      if Index(p) == 6 * r + c {
        IndexInjective(|t|, p, q);
      }
    }
  }

  /** Every cell present after the step holds the snapshot's value. */
  lemma StepValues(g: Grid, t: seq<Record>, r: nat, c: nat)
    requires r <= |t| && c < Width
    requires Shows(g, t, 6 * r + c)
    ensures var g' := g[Pos(r + 1, c + 1) := Rows(t)[r][c]];
      forall p :: p in g' && InBlock(|t|, p) ==> g'[p] == Rows(t)[p.row - 1][p.col - 1]
  {
    var q := Pos(r + 1, c + 1);
    var g' := g[q := Rows(t)[r][c]];
    var v := Rows(t)[r][c];
    forall p | p in g' && InBlock(|t|, p) ensures g'[p] == Rows(t)[p.row - 1][p.col - 1] {
      if p == q {
        assert p.row - 1 == r && p.col - 1 == c;
        assert g'[p] == v;
      } else {
        assert p in g && g'[p] == g[p];
      }
    }
  }

  /** The sheet is fully determined by the table and the number of writes:
      whatever it held before the clear does not survive. */
  lemma ShowsUnique(g: Grid, h: Grid, t: seq<Record>, written: nat)
    requires Shows(g, t, written) && Shows(h, t, written)
    ensures g == h
  {
    assert g.Keys == h.Keys;
    forall p | p in g ensures g[p] == h[p] {
    }
  }

  /** After every write: headers in row 1, record i in row i + 2, columns
      1 to 6, and every other cell empty. */
  lemma ShowsHeaderAndRecords(g: Grid, t: seq<Record>)
    requires Shows(g, t, CellCount(t))
    ensures forall p: Pos :: p.row == 1 && 1 <= p.col <= Width ==>
      p in g && g[p] == Text(Header[p.col - 1])
    ensures forall p: Pos :: 2 <= p.row <= |t| + 1 && 1 <= p.col <= Width ==>
      p in g && g[p] == RecordCells(t[p.row - 2])[p.col - 1]
    ensures forall p :: p in g ==> 1 <= p.row <= |t| + 1 && 1 <= p.col <= Width
  {
    forall p: Pos | 2 <= p.row <= |t| + 1 && 1 <= p.col <= Width
      ensures p in g && g[p] == RecordCells(t[p.row - 2])[p.col - 1]
    {
      assert InBlock(|t|, p) && Index(p) < CellCount(t);
      assert Rows(t)[(p.row - 2) + 1] == RecordCells(t[p.row - 2]);
    }
    forall p: Pos | p.row == 1 && 1 <= p.col <= Width
      ensures p in g && g[p] == Text(Header[p.col - 1])
    {
      assert InBlock(|t|, p) && Index(p) < CellCount(t);
    }
  }

  /** A sheet whose writes stopped early agrees with the complete one
      wherever it holds anything, and holds nothing the complete one lacks. */
  lemma ShowsPrefix(g: Grid, full: Grid, t: seq<Record>, written: nat)
    requires written <= CellCount(t)
    requires Shows(g, t, written) && Shows(full, t, CellCount(t))
    ensures forall p :: p in g ==> p in full && g[p] == full[p]
  {
  }
}
