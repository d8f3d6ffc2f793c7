/**
 * The rectangle of grid cells a multi-cell button covers, listed row by row
 * (the order in which the nested `for (r) for (c)` loops of the placement
 * engines visit them).
 */
module Grid {
  import opened Js

  /** A 1-based grid position. */
  datatype Cell = Cell(row: int, col: int)

  /** The `n` cells of one row starting at column `col`, left to right. */
  function RowCells(row: int, col: int, n: nat): (r: seq<Cell>)
    ensures |r| == n
    decreases n
  {
    if n == 0 then [] else RowCells(row, col, n - 1) + [Cell(row, col + n - 1)]
  }

  /** The `rows` × `cols` cells starting at (`row`, `col`), row-major. */
  function RectCells(row: int, col: int, rows: nat, cols: nat): (r: seq<Cell>)
    decreases rows
  {
    if rows == 0 then [] else RectCells(row, col, rows - 1, cols) + RowCells(row + rows - 1, col, cols)
  }

  /** A span taken from a loop bound `r < span`: a negative span runs no iteration. */
  function Count(span: int): nat {
    if span < 0 then 0 else span
  }

  lemma {:induction false} RowCellsAt(row: int, col: int, n: nat, j: nat)
    requires j < n
    ensures RowCells(row, col, n)[j] == Cell(row, col + j)
    decreases n
  {
    if j < n - 1 {
      RowCellsAt(row, col, n - 1, j);
    }
  }

  lemma {:induction false} RectCellsLength(row: int, col: int, rows: nat, cols: nat)
    ensures |RectCells(row, col, rows, cols)| == rows * cols
    decreases rows
  {
    if rows > 0 {
      RectCellsLength(row, col, rows - 1, cols);
      assert (rows - 1) * cols + cols == rows * cols;
    }
  }

  /** Column `j` of row `i` lies inside a rectangle of `rows` rows of `cols` cells. */
  lemma {:induction false} OffsetInside(i: nat, j: nat, rows: nat, cols: nat)
    requires i < rows && j < cols
    ensures i * cols + j < rows * cols
  {
    assert i * cols + cols == (i + 1) * cols;
    MulMonotone(i + 1, rows, cols);
  }

  /** Entry `i * cols + j` of the rectangle is the cell in its row `i`, column `j`. */
  lemma {:induction false} RectCellsAt(row: int, col: int, rows: nat, cols: nat, i: nat, j: nat)
    requires i < rows && j < cols
    ensures |RectCells(row, col, rows, cols)| == rows * cols
    ensures i * cols + j < rows * cols
    ensures RectCells(row, col, rows, cols)[i * cols + j] == Cell(row + i, col + j)
    decreases rows
  {
    RectCellsLength(row, col, rows, cols);
    OffsetInside(i, j, rows, cols);
    var upper, last := RectCells(row, col, rows - 1, cols), RowCells(row + rows - 1, col, cols);
    assert RectCells(row, col, rows, cols) == upper + last;
    var m := i * cols + j;
    if i < rows - 1 {
      assert m < |upper| by {
        RectCellsLength(row, col, rows - 1, cols);
        OffsetInside(i, j, rows - 1, cols);
      }
      RectCellsAt(row, col, rows - 1, cols, i, j);
      assert (upper + last)[m] == upper[m];
    } else {
      assert m == |upper| + j by {
        RectCellsLength(row, col, rows - 1, cols);
      }
      RowCellsAt(row + rows - 1, col, cols, j);
      assert (upper + last)[m] == last[j];
    }
  }

  lemma {:induction false} RowCellsMembership(row: int, col: int, n: nat, c: Cell)
    ensures c in RowCells(row, col, n) <==> c.row == row && col <= c.col < col + n
    decreases n
  {
    if n > 0 {
      var init := RowCells(row, col, n - 1);
      assert c in init + [Cell(row, col + n - 1)] <==> c in init || c == Cell(row, col + n - 1);
      RowCellsMembership(row, col, n - 1, c);
    }
  }

  /** A cell is covered exactly when it lies inside the rectangle. */
  lemma {:induction false} RectCellsMembership(row: int, col: int, rows: nat, cols: nat, c: Cell)
    ensures c in RectCells(row, col, rows, cols) <==>
            row <= c.row < row + rows && col <= c.col < col + cols
    decreases rows
  {
    if rows > 0 {
      var upper, last := RectCells(row, col, rows - 1, cols), RowCells(row + rows - 1, col, cols);
      assert c in RectCells(row, col, rows, cols) <==> c in upper || c in last;
      assert c in upper <==> row <= c.row < row + rows - 1 && col <= c.col < col + cols by {
        RectCellsMembership(row, col, rows - 1, cols, c);
      }
      assert c in last <==> c.row == row + rows - 1 && col <= c.col < col + cols by {
        RowCellsMembership(row + rows - 1, col, cols, c);
      }
    }
  }

  /** The first cell covered is the start cell. */
  lemma {:induction false} RectCellsFirst(row: int, col: int, rows: nat, cols: nat)
    requires rows > 0 && cols > 0
    ensures |RectCells(row, col, rows, cols)| > 0
    ensures RectCells(row, col, rows, cols)[0] == Cell(row, col)
  {
    RectCellsAt(row, col, rows, cols, 0, 0);
  }

  lemma {:induction false} MulMonotone(a: int, b: int, c: nat)
    requires a <= b
    ensures a * c <= b * c
  {
  }

  /** Entry `m` of the rectangle lies in its row `m / cols` and column `m % cols`. */
  lemma {:induction false} RectCellsIndex(row: int, col: int, rows: nat, cols: nat, m: nat)
    requires m < rows * cols
    ensures cols > 0 && m / cols < rows
    ensures |RectCells(row, col, rows, cols)| == rows * cols
    ensures RectCells(row, col, rows, cols)[m] == Cell(row + m / cols, col + m % cols)
  {
    assert cols > 0;
    var i, j := m / cols, m % cols;
    assert m == i * cols + j;
    assert i < rows by {
      if i >= rows {
        MulMonotone(rows, i, cols);
      }
    }
    RectCellsAt(row, col, rows, cols, i, j);
  }

  predicate Distinct<T(==)>(s: seq<T>) {
    forall k, m :: 0 <= k < m < |s| ==> s[k] != s[m]
  }

  /** The first index whose position is `cell` (`zones.find` by grid position). */
  function FindAt(positions: seq<Cell>, cell: Cell): (r: Option<nat>)
    ensures r.Some? ==> r.value < |positions| && positions[r.value] == cell
    ensures r.None? <==> cell !in positions
    decreases |positions|
  {
    if |positions| == 0 then None
    else if positions[0] == cell then Some(0)
    else match FindAt(positions[1..], cell)
      case None => None
      case Some(k) => Some(k + 1)
  }

  /** The zone found is the first one in document order at that cell. */
  lemma {:induction false} FindAtFirst(positions: seq<Cell>, cell: Cell)
    requires FindAt(positions, cell).Some?
    ensures forall k :: 0 <= k < FindAt(positions, cell).value ==> positions[k] != cell
    decreases |positions|
  {
    if positions[0] != cell {
      FindAtFirst(positions[1..], cell);
    }
  }

  /** The zones at each of `cells`, or `None` as soon as one cell has no zone. */
  function LookupAll(positions: seq<Cell>, cells: seq<Cell>): (r: Option<seq<nat>>)
    ensures r.Some? ==> |r.value| == |cells|
    ensures r.Some? ==> forall m :: 0 <= m < |r.value| ==> r.value[m] < |positions|
    decreases |cells|
  {
    if |cells| == 0 then Some([])
    else
      match LookupAll(positions, cells[..|cells| - 1])
      case None => None
      case Some(found) =>
        match FindAt(positions, cells[|cells| - 1])
        case None => None
        case Some(k) => Some(found + [k])
  }

  /** The lookup succeeds exactly when every cell has a zone, and then finds, cell by cell, the first zone there. */
  lemma {:induction false} LookupAllFinds(positions: seq<Cell>, cells: seq<Cell>)
    ensures LookupAll(positions, cells).Some? <==> forall m :: 0 <= m < |cells| ==> cells[m] in positions
    ensures LookupAll(positions, cells).Some? ==>
      forall m :: 0 <= m < |cells| ==> Some(LookupAll(positions, cells).value[m]) == FindAt(positions, cells[m])
    decreases |cells|
  {
    if |cells| > 0 {
      var init := cells[..|cells| - 1];
      LookupAllFinds(positions, init);
      assert forall m :: 0 <= m < |init| ==> init[m] == cells[m];
    }
  }

  /** A lookup extended by one cell finds that cell's zone too, or fails. */
  lemma {:induction false} LookupAllSnoc(positions: seq<Cell>, cells: seq<Cell>, cell: Cell)
    ensures LookupAll(positions, cells + [cell]) ==
            match LookupAll(positions, cells)
            case None => None
            case Some(found) =>
              match FindAt(positions, cell)
              case None => None
              case Some(k) => Some(found + [k])
  {
    assert (cells + [cell])[..|cells|] == cells;
  }

  /** One missing cell makes the whole lookup fail. */
  lemma {:induction false} LookupAllMissing(positions: seq<Cell>, row: int, col: int, rows: nat, cols: nat, i: nat, j: nat)
    requires i < rows && j < cols && Cell(row + i, col + j) !in positions
    ensures LookupAll(positions, RectCells(row, col, rows, cols)).None?
  {
    var cells := RectCells(row, col, rows, cols);
    RectCellsAt(row, col, rows, cols, i, j);
    assert cells[i * cols + j] !in positions;
    LookupAllFinds(positions, cells);
  }

  /**
   * The lookup in the order of the nested loops: rows `0 .. r - 1` of the
   * rectangle in full, then the first `c` cells of row `r`.
   */
  function Scan(positions: seq<Cell>, row: int, col: int, r: nat, cols: nat, c: nat): Option<seq<nat>>
    requires c <= cols
    decreases r, c
  {
    if c == 0 then
      if r == 0 then Some([]) else Scan(positions, row, col, r - 1, cols, cols)
    else
      match Scan(positions, row, col, r, cols, c - 1)
      case None => None
      case Some(found) =>
        match FindAt(positions, Cell(row + r, col + c - 1))
        case None => None
        case Some(k) => Some(found + [k])
  }

  /** Entry `m = i * cols + j` of a successful rectangle lookup is the zone found at row `i`, column `j` of the rectangle. */
  lemma {:induction false} LookupAllAt(positions: seq<Cell>, row: int, col: int, rows: nat, cols: nat, found: seq<nat>, i: nat, j: nat, m: nat)
    requires i < rows && j < cols && m == i * cols + j
    requires LookupAll(positions, RectCells(row, col, rows, cols)) == Some(found)
    ensures m < |found| && FindAt(positions, Cell(row + i, col + j)) == Some(found[m])
  {
    var cells := RectCells(row, col, rows, cols);
    assert m < |found| && cells[m] == Cell(row + i, col + j) by {
      RectCellsAt(row, col, rows, cols, i, j);
    }
    assert Some(found[m]) == FindAt(positions, cells[m]) by {
      LookupAllFinds(positions, cells);
    }
  }

  /** The loop-ordered lookup is the lookup of the cells visited so far. */
  lemma {:induction false} ScanIsLookup(positions: seq<Cell>, row: int, col: int, r: nat, cols: nat, c: nat)
    requires c <= cols
    ensures Scan(positions, row, col, r, cols, c) ==
            LookupAll(positions, RectCells(row, col, r, cols) + RowCells(row + r, col, c))
    decreases r, c, 1
  {
    if c == 0 {
      ScanRowStartIsLookup(positions, row, col, r, cols);
    } else {
      ScanCellIsLookup(positions, row, col, r, cols, c);
    }
  }

  lemma {:induction false} ScanRowStartIsLookup(positions: seq<Cell>, row: int, col: int, r: nat, cols: nat)
    ensures Scan(positions, row, col, r, cols, 0) ==
            LookupAll(positions, RectCells(row, col, r, cols) + RowCells(row + r, col, 0))
    decreases r, 0, 0
  {
    var rect := RectCells(row, col, r, cols);
    assert rect + RowCells(row + r, col, 0) == rect;
    if r > 0 {
      ScanIsLookup(positions, row, col, r - 1, cols, cols);
    }
  }

  lemma {:induction false} ScanCellIsLookup(positions: seq<Cell>, row: int, col: int, r: nat, cols: nat, c: nat)
    requires 0 < c <= cols
    ensures Scan(positions, row, col, r, cols, c) ==
            LookupAll(positions, RectCells(row, col, r, cols) + RowCells(row + r, col, c))
    decreases r, c, 0
  {
    var rect, init := RectCells(row, col, r, cols), RowCells(row + r, col, c - 1);
    var cell := Cell(row + r, col + c - 1);
    var before := LookupAll(positions, rect + init);
    assert Scan(positions, row, col, r, cols, c - 1) == before by {
      ScanIsLookup(positions, row, col, r, cols, c - 1);
    }
    assert LookupAll(positions, rect + RowCells(row + r, col, c)) ==
           match before
           case None => None
           case Some(found) =>
             match FindAt(positions, cell)
             case None => None
             case Some(k) => Some(found + [k])
    by {
      assert rect + RowCells(row + r, col, c) == (rect + init) + [cell] by {
        assert RowCells(row + r, col, c) == init + [cell];
      }
      LookupAllSnoc(positions, rect + init, cell);
    }
  }

  /** Scanning `rows` full rows looks up the whole rectangle. */
  lemma {:induction false} ScanFull(positions: seq<Cell>, row: int, col: int, rows: nat, cols: nat)
    ensures Scan(positions, row, col, rows, cols, 0) == LookupAll(positions, RectCells(row, col, rows, cols))
  {
    ScanIsLookup(positions, row, col, rows, cols, 0);
    assert RectCells(row, col, rows, cols) + RowCells(row + rows, col, 0) == RectCells(row, col, rows, cols);
  }
}
