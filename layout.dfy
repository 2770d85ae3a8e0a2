/** The worksheet written by `save_to_xlsm` and `create_xlsm_in_memory`:
    four blank rows, the header row, one row per record, then the header
    and data styles and the borders, each applied by nested loops over a
    rectangle of cells. Both methods run the same loops; they differ only
    in where the serialised workbook goes, which is not modelled. */
module Layout {
  import opened Wrappers
  import Records

  datatype Align = General | Center | Left

  /** What the layout sets on a cell: its value, whether the font is bold,
      the horizontal alignment, and whether it has a thin border. */
  datatype Cell = Cell(value: Option<string>, bold: bool, align: Align, border: bool)

  /** A cell the sheet creates when it is first touched. */
  const Blank := Cell(None, false, General, false)

  type Cells = map<(int, int), Cell>

  function Get(m: Cells, r: int, c: int): Cell
  {
    if (r, c) in m then m[(r, c)] else Blank
  }

  predicate InRect(r: int, c: int, r0: int, r1: int, c0: int, c1: int)
  {
    r0 <= r < r1 && c0 <= c < c1
  }

  /** The cells after `f` has been applied to columns `c0 .. c-1` of row
      `r`, one cell after the other. */
  function PaintRow(m: Cells, r: int, c0: int, c: int, f: (int, int, Cell) -> Cell): Cells
    decreases c - c0
  {
    if c <= c0 then m
    else
      var before := PaintRow(m, r, c0, c - 1, f);
      before[(r, c - 1) := f(r, c - 1, Get(before, r, c - 1))]
  }

  /** The same, row after row, for rows `r0 .. r-1`: what the nested loops
      have written so far. */
  function PaintRows(m: Cells, r0: int, r: int, c0: int, c1: int, f: (int, int, Cell) -> Cell): Cells
    decreases r - r0
  {
    if r <= r0 then m else PaintRow(PaintRows(m, r0, r - 1, c0, c1, f), r - 1, c0, c1, f)
  }

  lemma {:induction false} PaintRowAt(m: Cells, r: int, c0: int, c: int, f: (int, int, Cell) -> Cell, i: int, j: int)
    ensures (i, j) in PaintRow(m, r, c0, c, f) <==> (i, j) in m || InRect(i, j, r, r + 1, c0, c)
    ensures Get(PaintRow(m, r, c0, c, f), i, j) ==
      if InRect(i, j, r, r + 1, c0, c) then f(i, j, Get(m, i, j)) else Get(m, i, j)
    decreases c - c0
  {
    if c > c0 {
      PaintRowAt(m, r, c0, c - 1, f, i, j);
      PaintRowAt(m, r, c0, c - 1, f, r, c - 1);
    }
  }

  lemma {:induction false} PaintRowsAt(m: Cells, r0: int, r1: int, c0: int, c1: int, f: (int, int, Cell) -> Cell, i: int, j: int)
    ensures (i, j) in PaintRows(m, r0, r1, c0, c1, f) <==> (i, j) in m || InRect(i, j, r0, r1, c0, c1)
    ensures Get(PaintRows(m, r0, r1, c0, c1, f), i, j) ==
      if InRect(i, j, r0, r1, c0, c1) then f(i, j, Get(m, i, j)) else Get(m, i, j)
    decreases r1 - r0
  {
    if r1 > r0 {
      PaintRowsAt(m, r0, r1 - 1, c0, c1, f, i, j);
      PaintRowAt(PaintRows(m, r0, r1 - 1, c0, c1, f), r1 - 1, c0, c1, f, i, j);
    }
  }

  /** The cells after `f` has been applied to every cell of rows `r0 .. r1-1`,
      columns `c0 .. c1-1`: each cell of the rectangle is created if needed
      and painted once from its value before; every other cell is kept. */
  function Paint(m: Cells, r0: int, r1: int, c0: int, c1: int, f: (int, int, Cell) -> Cell): Cells
  {
    var rect := set r: int, c: int | r0 <= r < r1 && c0 <= c < c1 :: (r, c);
    map p | p in m.Keys + rect :: if InRect(p.0, p.1, r0, r1, c0, c1) then f(p.0, p.1, Get(m, p.0, p.1)) else m[p]
  }

  lemma PaintAt(m: Cells, r0: int, r1: int, c0: int, c1: int, f: (int, int, Cell) -> Cell, i: int, j: int)
    ensures (i, j) in Paint(m, r0, r1, c0, c1, f) <==> (i, j) in m || InRect(i, j, r0, r1, c0, c1)
    ensures Get(Paint(m, r0, r1, c0, c1, f), i, j) ==
      if InRect(i, j, r0, r1, c0, c1) then f(i, j, Get(m, i, j)) else Get(m, i, j)
  {
    if InRect(i, j, r0, r1, c0, c1) {
      var rect := set r: int, c: int | r0 <= r < r1 && c0 <= c < c1 :: (r, c);
      assert (i, j) in rect;
    }
  }

  /** Painting row after row is painting the rectangle. */
  lemma PaintRowsIsPaint(m: Cells, r0: int, r1: int, c0: int, c1: int, f: (int, int, Cell) -> Cell)
    ensures PaintRows(m, r0, r1, c0, c1, f) == Paint(m, r0, r1, c0, c1, f)
  {
    var a := PaintRows(m, r0, r1, c0, c1, f);
    var b := Paint(m, r0, r1, c0, c1, f);
    forall p | p in a.Keys + b.Keys ensures p in a && p in b && a[p] == b[p] {
      PaintRowsAt(m, r0, r1, c0, c1, f, p.0, p.1);
      PaintAt(m, r0, r1, c0, c1, f, p.0, p.1);
    }
  }

  /** The worksheet: its title, its cells, and `max_row`, the highest row
      touched so far (1 for a sheet with no cells). */
  class Worksheet {
    var title: string
    var cells: Cells
    var maxRow: int

    constructor(title: string)
      ensures this.title == title && cells == map[] && maxRow == 1
    {
      this.title := title;
      cells := map[];
      maxRow := 1;
    }

    /** Touching cell `(r, c)` creates it if needed and applies `f` to it. */
    method Touch(r: int, c: int, f: (int, int, Cell) -> Cell)
      modifies this
      ensures title == old(title)
      ensures cells == old(cells)[(r, c) := f(r, c, Get(old(cells), r, c))]
      ensures maxRow == if r > old(maxRow) then r else old(maxRow)
    {
      cells := cells[(r, c) := f(r, c, Get(cells, r, c))];
      if r > maxRow {
        maxRow := r;
      }
    }

    /** `for row in range(r0, r1): for col in range(c0, c1): ...` */
    method PaintRect(r0: int, r1: int, c0: int, c1: int, f: (int, int, Cell) -> Cell)
      requires c0 < c1
      modifies this
      ensures title == old(title)
      ensures cells == PaintRows(old(cells), r0, r1, c0, c1, f)
      ensures maxRow == if r0 < r1 && r1 - 1 > old(maxRow) then r1 - 1 else old(maxRow)
    {
      if r0 >= r1 {
        return;
      }
      var r := r0;
      while r < r1
        invariant r0 <= r <= r1
        invariant title == old(title)
        invariant cells == PaintRows(old(cells), r0, r, c0, c1, f)
        invariant maxRow == if r > r0 && r - 1 > old(maxRow) then r - 1 else old(maxRow)
      {
        var rowStart := cells;
        var rowMax := maxRow;
        var c := c0;
        while c < c1
          invariant c0 <= c <= c1
          invariant title == old(title)
          invariant cells == PaintRow(rowStart, r, c0, c, f)
          invariant maxRow == if c > c0 && r > rowMax then r else rowMax
        {
          Touch(r, c, f);
          c := c + 1;
        }
        r := r + 1;
      }
    }

    /** The value loops on an empty sheet. */
    method WriteValues(rows: seq<Records.Row>)
      requires cells == map[] && maxRow == 1
      modifies this
      ensures title == old(title) && cells == ValueCells(rows) && maxRow == 5 + |rows|
    {
      ghost var m0 := cells;
      PaintRect(1, 5, 1, 13, SetEmpty);
      ghost var m1 := cells;
      PaintRect(5, 6, 1, 13, SetHeader);
      ghost var m2 := cells;
      PaintRect(6, 6 + |rows|, 1, 11, SetData(rows));
      ValueCellsOf(rows, m0, m1, m2, cells);
    }

    /** The styling loops, bounded by `max_row` as it stands after the
        values are written. */
    method ApplyStyles()
      requires maxRow >= 5
      modifies this
      ensures title == old(title) && cells == Styled(old(cells), old(maxRow)) && maxRow == old(maxRow)
    {
      var last := maxRow;
      ghost var m3 := cells;
      PaintRect(5, 6, 1, 11, HeaderStyle);
      ghost var m4 := cells;
      PaintRect(6, maxRow + 1, 1, 11, DataStyle);
      ghost var m5 := cells;
      PaintRect(5, maxRow + 1, 1, 11, ThinBorder);
      StyledOf(last, m3, m4, m5, cells);
    }
  }

  // ---------------------------------------------------------------------------
  // The layout

  /** Row 5: the ten column names, then two empty cells. */
  const HeaderRow: seq<string> := Records.Columns + ["", ""]

  function HeaderAt(c: int): string
  {
    if 1 <= c <= 12 then HeaderRow[c - 1] else ""
  }

  /** Value of column `c` of data row `r` (data row `k` is on sheet row `6 + k`). */
  function DataAt(rows: seq<Records.Row>, r: int, c: int): string
  {
    if 6 <= r < 6 + |rows| && 1 <= c <= |rows[r - 6]| then rows[r - 6][c - 1] else ""
  }

  function SetEmpty(r: int, c: int, x: Cell): Cell { x.(value := Some("")) }
  function SetHeader(r: int, c: int, x: Cell): Cell { x.(value := Some(HeaderAt(c))) }
  function HeaderStyle(r: int, c: int, x: Cell): Cell { x.(bold := true, align := Center) }
  function DataStyle(r: int, c: int, x: Cell): Cell { x.(bold := false, align := Left) }
  function ThinBorder(r: int, c: int, x: Cell): Cell { x.(border := true) }

  function SetData(rows: seq<Records.Row>): (int, int, Cell) -> Cell
  {
    (r: int, c: int, x: Cell) => x.(value := Some(DataAt(rows, r, c)))
  }

  /** The values the first three loops write on an empty sheet: blank
      rows 1-4, the header in row 5, data row `k` in row `6 + k`. */
  function ValueCells(rows: seq<Records.Row>): Cells
  {
    var blankRows := Paint(map[], 1, 5, 1, 13, SetEmpty);
    var header := Paint(blankRows, 5, 6, 1, 13, SetHeader);
    Paint(header, 6, 6 + |rows|, 1, 11, SetData(rows))
  }

  /** The styling loops over columns 1-10: row 5 as header, rows
      `6 .. maxRow` as data, rows `5 .. maxRow` bordered. */
  function Styled(m: Cells, maxRow: int): Cells
  {
    var headerStyled := Paint(m, 5, 6, 1, 11, HeaderStyle);
    var dataStyled := Paint(headerStyled, 6, maxRow + 1, 1, 11, DataStyle);
    Paint(dataStyled, 5, maxRow + 1, 1, 11, ThinBorder)
  }

  lemma ValueCellsOf(rows: seq<Records.Row>, m0: Cells, m1: Cells, m2: Cells, m3: Cells)
    requires m0 == map[]
    requires m1 == PaintRows(m0, 1, 5, 1, 13, SetEmpty)
    requires m2 == PaintRows(m1, 5, 6, 1, 13, SetHeader)
    requires m3 == PaintRows(m2, 6, 6 + |rows|, 1, 11, SetData(rows))
    ensures m3 == ValueCells(rows)
  {
    PaintRowsIsPaint(m0, 1, 5, 1, 13, SetEmpty);
    PaintRowsIsPaint(m1, 5, 6, 1, 13, SetHeader);
    PaintRowsIsPaint(m2, 6, 6 + |rows|, 1, 11, SetData(rows));
  }

  lemma StyledOf(maxRow: int, m3: Cells, m4: Cells, m5: Cells, m6: Cells)
    requires m4 == PaintRows(m3, 5, 6, 1, 11, HeaderStyle)
    requires m5 == PaintRows(m4, 6, maxRow + 1, 1, 11, DataStyle)
    requires m6 == PaintRows(m5, 5, maxRow + 1, 1, 11, ThinBorder)
    ensures m6 == Styled(m3, maxRow)
  {
    PaintRowsIsPaint(m3, 5, 6, 1, 11, HeaderStyle);
    PaintRowsIsPaint(m4, 6, maxRow + 1, 1, 11, DataStyle);
    PaintRowsIsPaint(m5, 5, maxRow + 1, 1, 11, ThinBorder);
  }

  /** The finished sheet: `max_row` is `5 + |rows|` once the data is written. */
  function LayoutCells(rows: seq<Records.Row>): Cells
  {
    Styled(ValueCells(rows), 5 + |rows|)
  }

  /** The sheet names once `Dados` is added and any `Sheet` is deleted. */
  function FinalSheets(initial: seq<string>): (names: seq<string>)
    decreases |initial|
  {
    if initial == [] then ["Dados"]
    else if initial[0] == "Sheet" then FinalSheets(initial[1..])
    else [initial[0]] + FinalSheets(initial[1..])
  }

  lemma {:induction false} FinalSheetsSpec(initial: seq<string>)
    ensures "Dados" in FinalSheets(initial) && "Sheet" !in FinalSheets(initial)
    ensures forall s :: s in initial && s != "Sheet" ==> s in FinalSheets(initial)
    ensures (forall k :: 0 <= k < |initial| ==> initial[k] == "Sheet") ==> FinalSheets(initial) == ["Dados"]
    decreases |initial|
  {
    if initial != [] {
      FinalSheetsSpec(initial[1..]);
      forall s | s in initial && s != "Sheet" ensures s in FinalSheets(initial) {
        if s != initial[0] {
          assert s in initial[1..];
        }
      }
      if forall k :: 0 <= k < |initial| ==> initial[k] == "Sheet" {
        assert forall k :: 0 <= k < |initial[1..]| ==> initial[1..][k] == initial[k + 1];
      }
    }
  }

  /** The layout loops, writing a fresh `Dados` sheet. Every data row has
      the ten columns of the frame. */
  method BuildSheet(rows: seq<Records.Row>) returns (ws: Worksheet)
    requires forall k :: 0 <= k < |rows| ==> |rows[k]| == |Records.Columns|
    ensures fresh(ws)
    ensures ws.title == "Dados" && ws.cells == LayoutCells(rows) && ws.maxRow == 5 + |rows|
  {
    ws := new Worksheet("Dados");
    ws.WriteValues(rows);
    ws.ApplyStyles();
  }

  // ---------------------------------------------------------------------------
  // What the layout holds, cell by cell

  /** Rows 1-4, columns 1-12: empty values, no style, no border. */
  lemma LayoutBlankRows(rows: seq<Records.Row>, r: int, c: int)
    requires 1 <= r <= 4 && 1 <= c <= 12
    ensures (r, c) in LayoutCells(rows) && Get(LayoutCells(rows), r, c) == Cell(Some(""), false, General, false)
  {
    var n := |rows|;
    var m1 := Paint(map[], 1, 5, 1, 13, SetEmpty);
    var m2 := Paint(m1, 5, 6, 1, 13, SetHeader);
    var m3 := ValueCells(rows);
    var m4 := Paint(m3, 5, 6, 1, 11, HeaderStyle);
    var m5 := Paint(m4, 6, 5 + n + 1, 1, 11, DataStyle);
    assert 5 + n + 1 == 6 + n;
    PaintAt(map[], 1, 5, 1, 13, SetEmpty, r, c);
    PaintAt(m1, 5, 6, 1, 13, SetHeader, r, c);
    PaintAt(m2, 6, 6 + n, 1, 11, SetData(rows), r, c);
    PaintAt(m3, 5, 6, 1, 11, HeaderStyle, r, c);
    PaintAt(m4, 6, 5 + n + 1, 1, 11, DataStyle, r, c);
    PaintAt(m5, 5, 5 + n + 1, 1, 11, ThinBorder, r, c);
  }

  lemma HeaderAtColumn(c: int)
    requires 1 <= c <= 12
    ensures HeaderAt(c) == if c <= 10 then Records.Columns[c - 1] else ""
  {
  }

  /** Row 5: the header names; columns 1-10 bold, centred and bordered,
      columns 11-12 empty and unstyled. */
  lemma LayoutHeaderRow(rows: seq<Records.Row>, c: int)
    requires 1 <= c <= 12
    ensures (5, c) in LayoutCells(rows)
    ensures Get(LayoutCells(rows), 5, c) ==
      if c <= 10 then Cell(Some(Records.Columns[c - 1]), true, Center, true) else Cell(Some(""), false, General, false)
  {
    HeaderAtColumn(c);
    var n := |rows|;
    var m1 := Paint(map[], 1, 5, 1, 13, SetEmpty);
    var m2 := Paint(m1, 5, 6, 1, 13, SetHeader);
    var m3 := ValueCells(rows);
    var m4 := Paint(m3, 5, 6, 1, 11, HeaderStyle);
    var m5 := Paint(m4, 6, 5 + n + 1, 1, 11, DataStyle);
    assert 5 + n + 1 == 6 + n;
    PaintAt(map[], 1, 5, 1, 13, SetEmpty, 5, c);
    PaintAt(m1, 5, 6, 1, 13, SetHeader, 5, c);
    PaintAt(m2, 6, 6 + n, 1, 11, SetData(rows), 5, c);
    PaintAt(m3, 5, 6, 1, 11, HeaderStyle, 5, c);
    PaintAt(m4, 6, 5 + n + 1, 1, 11, DataStyle, 5, c);
    PaintAt(m5, 5, 5 + n + 1, 1, 11, ThinBorder, 5, c);
  }

  /** Data row `k` is on sheet row `6 + k`: its values, regular,
      left-aligned and bordered. */
  lemma LayoutDataRow(rows: seq<Records.Row>, k: nat, c: int)
    requires k < |rows| && 1 <= c <= 10 && |rows[k]| == 10
    ensures (6 + k, c) in LayoutCells(rows)
    ensures Get(LayoutCells(rows), 6 + k, c) == Cell(Some(rows[k][c - 1]), false, Left, true)
  {
    var n := |rows|;
    var r := 6 + k;
    var m1 := Paint(map[], 1, 5, 1, 13, SetEmpty);
    var m2 := Paint(m1, 5, 6, 1, 13, SetHeader);
    var m3 := ValueCells(rows);
    PaintAt(m2, 6, 6 + n, 1, 11, SetData(rows), r, c);
    assert DataAt(rows, r, c) == rows[k][c - 1];
    var v := Get(m3, r, c).value;
    assert v == Some(rows[k][c - 1]);
    var m4 := Paint(m3, 5, 6, 1, 11, HeaderStyle);
    PaintAt(m3, 5, 6, 1, 11, HeaderStyle, r, c);
    assert (r, c) in m4 && Get(m4, r, c).value == v;
    var m5 := Paint(m4, 6, 5 + n + 1, 1, 11, DataStyle);
    PaintAt(m4, 6, 5 + n + 1, 1, 11, DataStyle, r, c);
    assert (r, c) in m5 && Get(m5, r, c) == Cell(v, false, Left, Get(m4, r, c).border);
    PaintAt(m5, 5, 5 + n + 1, 1, 11, ThinBorder, r, c);
  }

  /** Nothing else is written: every cell lies in rows 1 .. 5 + n, and
      below the header only columns 1-10 are used. */
  lemma LayoutBounds(rows: seq<Records.Row>, r: int, c: int)
    requires (r, c) in LayoutCells(rows)
    ensures 1 <= r <= 5 + |rows| && 1 <= c <= 12 && (r >= 6 ==> c <= 10)
  {
    var n := |rows|;
    var m1 := Paint(map[], 1, 5, 1, 13, SetEmpty);
    var m2 := Paint(m1, 5, 6, 1, 13, SetHeader);
    var m3 := ValueCells(rows);
    var m4 := Paint(m3, 5, 6, 1, 11, HeaderStyle);
    var m5 := Paint(m4, 6, 5 + n + 1, 1, 11, DataStyle);
    assert 5 + n + 1 == 6 + n;
    PaintAt(map[], 1, 5, 1, 13, SetEmpty, r, c);
    PaintAt(m1, 5, 6, 1, 13, SetHeader, r, c);
    PaintAt(m2, 6, 6 + n, 1, 11, SetData(rows), r, c);
    PaintAt(m3, 5, 6, 1, 11, HeaderStyle, r, c);
    PaintAt(m4, 6, 5 + n + 1, 1, 11, DataStyle, r, c);
    PaintAt(m5, 5, 5 + n + 1, 1, 11, ThinBorder, r, c);
  }
}
