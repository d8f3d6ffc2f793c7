/**
 * The React `Frame` component (src/components/Frame.jsx): the board of
 * sixteen zones (eight rows of two), of which the grid type shows a
 * rectangle, the search for the zones a dropped button covers, the drop
 * and remove handlers that drive the `useDragDrop` state, the style of a
 * placed button and the image URL rewrite done before a PDF export.
 */
module Frame {
  import opened Js
  import Grid
  import opened UseDragDrop

  // ---------------------------------------------------------------------------
  // grid types and the board

  datatype GridConfig = GridConfig(columns: nat, rows: nat, visibleZones: nat)

  /** `GRID_CONFIGS[gridType] || GRID_CONFIGS['2x4']`. */
  function GridConfigFor(gridType: string): (c: GridConfig)
    ensures gridType != "1x8" && gridType != "2x6" ==> c == GridConfig(2, 4, 8)
    ensures 1 <= c.columns <= 2 && 1 <= c.rows <= 8 && c.visibleZones == c.columns * c.rows
  {
    if gridType == "1x8" then GridConfig(1, 8, 8)
    else if gridType == "2x6" then GridConfig(2, 6, 12)
    else GridConfig(2, 4, 8)
  }

  /** An entry of `allZones`: a zone of the board at a 1-based row and column. */
  datatype ZoneCell = ZoneCell(id: string, row: int, col: int, visible: bool)

  /** The id of the `n`-th zone, `button{n}`. */
  function ZoneId(n: nat): string {
    "button" + NatToString(n)
  }

  /** Zone ids name their zone: two zones never share an id. */
  lemma {:induction false} ZoneIdInjective(a: nat, b: nat)
    requires ZoneId(a) == ZoneId(b)
    ensures a == b
  {
    assert ZoneId(a)[6..] == NatToString(a);
    assert ZoneId(b)[6..] == NatToString(b);
    DecimalValueOfNatToString(a);
    DecimalValueOfNatToString(b);
  }

  /** Entry `k` of the board: row `k / 2 + 1`, column `k % 2 + 1`, id `button{k + 1}`. */
  function ZoneAt(config: GridConfig, k: nat): (z: ZoneCell)
    requires k < 16
    ensures 1 <= z.row <= 8 && 1 <= z.col <= 2 && (z.row - 1) * 2 + z.col == k + 1
    ensures z.visible <==> z.row <= config.rows && z.col <= config.columns
  {
    var row, col := k / 2 + 1, k % 2 + 1;
    ZoneCell(ZoneId(k + 1), row, col, row <= config.rows && col <= config.columns)
  }

  function Board(config: GridConfig): (zones: seq<ZoneCell>)
    ensures |zones| == 16
  {
    seq(16, k requires 0 <= k < 16 => ZoneAt(config, k))
  }

  /**
   * The `allZones` memo: rows 1 to 8, columns 1 and 2, the zone at
   * (row, col) named `button{(row - 1) * 2 + col}` and visible exactly
   * when the grid type shows its row and column.
   */
  method AllZones(config: GridConfig) returns (zones: seq<ZoneCell>)
    ensures zones == Board(config)
  {
    zones := [];
    var row := 1;
    while row <= 8
      invariant 1 <= row <= 9 && |zones| == (row - 1) * 2
      invariant forall k :: 0 <= k < |zones| ==> zones[k] == ZoneAt(config, k)
    {
      var col := 1;
      while col <= 2
        invariant 1 <= col <= 3 && |zones| == (row - 1) * 2 + col - 1
        invariant forall k :: 0 <= k < |zones| ==> zones[k] == ZoneAt(config, k)
      {
        var zoneId := ZoneId((row - 1) * 2 + col);
        var zone := ZoneCell(zoneId, row, col, row <= config.rows && col <= config.columns);
        assert zone == ZoneAt(config, |zones|) by {
          var k := |zones|;
          assert k / 2 == row - 1 && k % 2 == col - 1;
        }
        zones := zones + [zone];
        col := col + 1;
      }
      row := row + 1;
    }
  }

  /** The grid positions of the zones, in document order. */
  function Cells(zones: seq<ZoneCell>): (r: seq<Grid.Cell>)
    ensures |r| == |zones|
    ensures forall k :: 0 <= k < |zones| ==> r[k] == Grid.Cell(zones[k].row, zones[k].col)
  {
    seq(|zones|, k requires 0 <= k < |zones| => Grid.Cell(zones[k].row, zones[k].col))
  }

  /** Every zone of the board has its own id and its own cell. */
  lemma {:induction false} BoardDistinct(config: GridConfig)
    ensures forall k, m :: 0 <= k < m < 16 ==> Board(config)[k].id != Board(config)[m].id
    ensures Grid.Distinct(Cells(Board(config)))
  {
    var zones := Board(config);
    forall k, m | 0 <= k < m < 16
      ensures zones[k].id != zones[m].id
    {
      if zones[k].id == zones[m].id {
        ZoneIdInjective(k + 1, m + 1);
      }
    }
  }

  /** `allZones.find(z => z.row === r && z.col === c)` on the board, for a cell of the 8 × 2 board: the zone at that cell. */
  lemma {:induction false} BoardFindInside(config: GridConfig, row: int, col: int)
    requires 1 <= row <= 8 && 1 <= col <= 2
    ensures Grid.FindAt(Cells(Board(config)), Grid.Cell(row, col)) == Some((row - 1) * 2 + col - 1)
  {
    var positions := Cells(Board(config));
    var cell := Grid.Cell(row, col);
    var i := (row - 1) * 2 + col - 1;
    assert positions[i] == cell by {
      assert i / 2 == row - 1 && i % 2 == col - 1;
    }
    var j := Grid.FindAt(positions, cell).value;
    assert j == i by {
      BoardDistinct(config);
    }
  }

  /** The same search for a cell off the board finds nothing. */
  lemma {:induction false} BoardFindOutside(config: GridConfig, row: int, col: int)
    requires !(1 <= row <= 8 && 1 <= col <= 2)
    ensures Grid.FindAt(Cells(Board(config)), Grid.Cell(row, col)) == None
  {
    var positions := Cells(Board(config));
    var cell := Grid.Cell(row, col);
    forall k | 0 <= k < 16
      ensures positions[k] != cell
    {
      assert Board(config)[k] == ZoneAt(config, k);
    }
  }

  /** `allZones.find(z => z.row === r && z.col === c)` on the board: the zone of a cell inside the 8 × 2 board, none outside. */
  lemma {:induction false} BoardFindCell(config: GridConfig, row: int, col: int)
    ensures Grid.FindAt(Cells(Board(config)), Grid.Cell(row, col)) ==
      if 1 <= row <= 8 && 1 <= col <= 2 then Some((row - 1) * 2 + col - 1) else None
  {
    if 1 <= row <= 8 && 1 <= col <= 2 {
      BoardFindInside(config, row, col);
    } else {
      BoardFindOutside(config, row, col);
    }
  }

  /** `allZones.find(z => z.id === zoneId)`: the first zone with that id. */
  function FindById(zones: seq<ZoneCell>, id: string): (r: Option<nat>)
    ensures r.Some? ==> r.value < |zones| && zones[r.value].id == id
    ensures r.None? <==> forall k :: 0 <= k < |zones| ==> zones[k].id != id
    ensures r.Some? ==> forall k :: 0 <= k < r.value ==> zones[k].id != id
    decreases |zones|
  {
    if |zones| == 0 then None
    else if zones[0].id == id then Some(0)
    else match FindById(zones[1..], id)
      case None => None
      case Some(k) => Some(k + 1)
  }

  /** The board finds `button{n}` at entry `n - 1`, and nothing for any other id. */
  lemma {:induction false} BoardFindById(config: GridConfig, id: string)
    ensures FindById(Board(config), id).Some? <==> exists n :: 1 <= n <= 16 && id == ZoneId(n)
    ensures forall n :: 1 <= n <= 16 && id == ZoneId(n) ==> FindById(Board(config), id) == Some(n - 1)
  {
    var zones := Board(config);
    forall n | 1 <= n <= 16 && id == ZoneId(n)
      ensures FindById(zones, id) == Some(n - 1)
    {
      assert zones[n - 1].id == id;
      var k := FindById(zones, id).value;
      assert k == n - 1 by {
        BoardDistinct(config);
      }
    }
    if FindById(zones, id).Some? {
      var k := FindById(zones, id).value;
      assert id == ZoneId(k + 1);
    }
  }

  // ---------------------------------------------------------------------------
  // getZonesToMerge

  /** A covered zone may be used when it is shown, or when its record is merged into another zone. */
  predicate Usable(z: ZoneCell, dropZones: ZoneMap) {
    z.visible || (z.id in dropZones && Truthy(dropZones[z.id].mergedInto))
  }

  predicate AllUsable(zones: seq<ZoneCell>, dropZones: ZoneMap, found: seq<nat>)
    requires forall m :: 0 <= m < |found| ==> found[m] < |zones|
  {
    forall m :: 0 <= m < |found| ==> Usable(zones[found[m]], dropZones)
  }

  function Ids(zones: seq<ZoneCell>, found: seq<nat>): (ids: seq<string>)
    requires forall m :: 0 <= m < |found| ==> found[m] < |zones|
    ensures |ids| == |found| && forall m :: 0 <= m < |found| ==> ids[m] == zones[found[m]].id
  {
    seq(|found|, m requires 0 <= m < |found| => zones[found[m]].id)
  }

  /**
   * The specification of `getZonesToMerge`: the ids of the first zones at
   * the cells of the rectangle, row by row, when every cell has a usable
   * zone and their number is colSpan × rowSpan; otherwise `null`.
   */
  function ZonesToMerge(zones: seq<ZoneCell>, dropZones: ZoneMap, start: ZoneCell, dims: Dimensions): Option<seq<string>> {
    var cells := Grid.RectCells(start.row, start.col, Grid.Count(dims.rowSpan), Grid.Count(dims.colSpan));
    match Grid.LookupAll(Cells(zones), cells)
    case None => None
    case Some(found) =>
      if AllUsable(zones, dropZones, found) && |found| == dims.colSpan * dims.rowSpan then Some(Ids(zones, found))
      else None
  }

  /** One unusable zone among those found makes the whole set unusable. */
  lemma UnusableAt(zones: seq<ZoneCell>, dropZones: ZoneMap, found: seq<nat>, m: nat)
    requires forall k :: 0 <= k < |found| ==> found[k] < |zones|
    requires m < |found| && !Usable(zones[found[m]], dropZones)
    ensures !AllUsable(zones, dropZones, found)
  {
  }

  /** A covered cell without a zone, or whose zone is hidden and not merged, refuses the merge. */
  lemma {:induction false} MergeRefused(zones: seq<ZoneCell>, dropZones: ZoneMap, start: ZoneCell, dims: Dimensions, i: nat, j: nat)
    requires i < dims.rowSpan && j < dims.colSpan
    requires var at := Grid.FindAt(Cells(zones), Grid.Cell(start.row + i, start.col + j));
      at.None? || !Usable(zones[at.value], dropZones)
    ensures ZonesToMerge(zones, dropZones, start, dims).None?
  {
    LookupUnusable(zones, dropZones, start.row, start.col, Grid.Count(dims.rowSpan), Grid.Count(dims.colSpan), i, j);
    RefusedWhenUnusable(zones, dropZones, start, dims);
  }

  /** The lookup over a rectangle fails, or finds an unusable zone, when one of its cells does. */
  lemma {:induction false} LookupUnusable(zones: seq<ZoneCell>, dropZones: ZoneMap, row: int, col: int, rs: nat, cs: nat, i: nat, j: nat)
    requires i < rs && j < cs
    requires var at := Grid.FindAt(Cells(zones), Grid.Cell(row + i, col + j));
      at.None? || !Usable(zones[at.value], dropZones)
    ensures var lookup := Grid.LookupAll(Cells(zones), Grid.RectCells(row, col, rs, cs));
      lookup.None? || !AllUsable(zones, dropZones, lookup.value)
  {
    var positions := Cells(zones);
    var lookup := Grid.LookupAll(positions, Grid.RectCells(row, col, rs, cs));
    if lookup.Some? {
      var found, m := lookup.value, i * cs + j;
      Grid.LookupAllAt(positions, row, col, rs, cs, found, i, j, m);
      assert Grid.FindAt(positions, Grid.Cell(row + i, col + j)) == Some(found[m]);
      UnusableAt(zones, dropZones, found, m);
    }
  }

  /** No zone at some cell, or an unusable one, refuses the merge. */
  lemma RefusedWhenUnusable(zones: seq<ZoneCell>, dropZones: ZoneMap, start: ZoneCell, dims: Dimensions)
    requires var lookup := Grid.LookupAll(Cells(zones), Grid.RectCells(start.row, start.col, Grid.Count(dims.rowSpan), Grid.Count(dims.colSpan)));
      lookup.None? || !AllUsable(zones, dropZones, lookup.value)
    ensures ZonesToMerge(zones, dropZones, start, dims).None?
  {
  }

  /**
   * A successful merge lists colSpan × rowSpan ids, one per covered cell;
   * it is empty only when a span is zero, and otherwise both spans are
   * positive.
   */
  lemma {:induction false} MergeCount(zones: seq<ZoneCell>, dropZones: ZoneMap, start: ZoneCell, dims: Dimensions)
    requires ZonesToMerge(zones, dropZones, start, dims).Some?
    ensures var ids := ZonesToMerge(zones, dropZones, start, dims).value;
      |ids| == dims.colSpan * dims.rowSpan == Grid.Count(dims.rowSpan) * Grid.Count(dims.colSpan) &&
      (|ids| > 0 ==> dims.colSpan > 0 && dims.rowSpan > 0)
  {
    var rs, cs := Grid.Count(dims.rowSpan), Grid.Count(dims.colSpan);
    Grid.RectCellsLength(start.row, start.col, rs, cs);
    assert rs * cs > 0 ==> rs > 0 && cs > 0;
  }

  /** The lookup behind a successful merge. */
  lemma {:induction false} MergeFound(zones: seq<ZoneCell>, dropZones: ZoneMap, start: ZoneCell, dims: Dimensions)
    returns (found: seq<nat>)
    requires ZonesToMerge(zones, dropZones, start, dims).Some?
    ensures Grid.LookupAll(Cells(zones), Grid.RectCells(start.row, start.col, Grid.Count(dims.rowSpan), Grid.Count(dims.colSpan))) == Some(found)
    ensures forall m :: 0 <= m < |found| ==> found[m] < |zones|
    ensures AllUsable(zones, dropZones, found)
    ensures ZonesToMerge(zones, dropZones, start, dims).value == Ids(zones, found)
  {
    found := Grid.LookupAll(Cells(zones), Grid.RectCells(start.row, start.col, Grid.Count(dims.rowSpan), Grid.Count(dims.colSpan))).value;
  }

  /** Id `m` of a merge is that of the usable zone at cell `m` of a rectangle `cols` wide, counted row by row. */
  predicate IdOfCell(zones: seq<ZoneCell>, dropZones: ZoneMap, start: ZoneCell, cols: int, ids: seq<string>, m: int) {
    0 <= m < |ids| && cols > 0 &&
    var at := Grid.FindAt(Cells(zones), Grid.Cell(start.row + m / cols, start.col + m % cols));
    at.Some? && ids[m] == zones[at.value].id && Usable(zones[at.value], dropZones)
  }

  /** Each id of a successful merge is that of the usable zone at its cell of the rectangle, row by row. */
  lemma {:induction false} MergeCovers(zones: seq<ZoneCell>, dropZones: ZoneMap, start: ZoneCell, dims: Dimensions)
    requires ZonesToMerge(zones, dropZones, start, dims).Some?
    ensures var ids := ZonesToMerge(zones, dropZones, start, dims).value;
      forall m :: 0 <= m < |ids| ==> IdOfCell(zones, dropZones, start, dims.colSpan, ids, m)
  {
    var found := MergeFound(zones, dropZones, start, dims);
    var ids := ZonesToMerge(zones, dropZones, start, dims).value;
    MergeCount(zones, dropZones, start, dims);
    forall m | 0 <= m < |ids|
      ensures IdOfCell(zones, dropZones, start, dims.colSpan, ids, m)
    {
      MergeCellAt(zones, start, dims, found, m);
      assert ids[m] == zones[found[m]].id && Usable(zones[found[m]], dropZones);
    }
  }

  lemma {:induction false} MergeCellAt(zones: seq<ZoneCell>, start: ZoneCell, dims: Dimensions, found: seq<nat>, m: nat)
    requires dims.colSpan > 0 && dims.rowSpan > 0
    requires Grid.LookupAll(Cells(zones), Grid.RectCells(start.row, start.col, dims.rowSpan, dims.colSpan)) == Some(found)
    requires m < |found|
    ensures Grid.FindAt(Cells(zones), Grid.Cell(start.row + m / dims.colSpan, start.col + m % dims.colSpan)) == Some(found[m])
  {
    var cells := Grid.RectCells(start.row, start.col, dims.rowSpan, dims.colSpan);
    Grid.RectCellsLength(start.row, start.col, dims.rowSpan, dims.colSpan);
    Grid.RectCellsIndex(start.row, start.col, dims.rowSpan, dims.colSpan, m);
    Grid.LookupAllFinds(Cells(zones), cells);
  }

  /** The cell `i` rows below and `j` columns right of the start has a zone, and the first such zone is usable. */
  predicate CoveredUsable(zones: seq<ZoneCell>, dropZones: ZoneMap, start: ZoneCell, i: int, j: int) {
    var at := Grid.FindAt(Cells(zones), Grid.Cell(start.row + i, start.col + j));
    at.Some? && Usable(zones[at.value], dropZones)
  }

  /** With spans of at least one and a usable zone at every covered cell, the merge succeeds. */
  lemma {:induction false} MergeSucceeds(zones: seq<ZoneCell>, dropZones: ZoneMap, start: ZoneCell, dims: Dimensions)
    requires dims.colSpan > 0 && dims.rowSpan > 0
    requires forall i, j :: 0 <= i < dims.rowSpan && 0 <= j < dims.colSpan ==> CoveredUsable(zones, dropZones, start, i, j)
    ensures ZonesToMerge(zones, dropZones, start, dims).Some?
  {
    var positions := Cells(zones);
    var rs, cs := dims.rowSpan, dims.colSpan;
    var cells := Grid.RectCells(start.row, start.col, rs, cs);
    Grid.RectCellsLength(start.row, start.col, rs, cs);
    Grid.LookupAllFinds(positions, cells);
    forall m | 0 <= m < |cells|
      ensures Grid.FindAt(positions, cells[m]).Some? && Usable(zones[Grid.FindAt(positions, cells[m]).value], dropZones)
    {
      Grid.RectCellsIndex(start.row, start.col, rs, cs, m);
      CoveredCell(zones, dropZones, start, rs, cs, m);
    }
  }

  /** Entry `m` of the covered rectangle, read row by row, is a covered cell `m / cs` rows and `m % cs` columns from the start. */
  lemma {:induction false} CoveredCell(zones: seq<ZoneCell>, dropZones: ZoneMap, start: ZoneCell, rs: nat, cs: nat, m: nat)
    requires m < rs * cs && cs > 0
    requires CoveredUsable(zones, dropZones, start, m / cs, m % cs)
    ensures |Grid.RectCells(start.row, start.col, rs, cs)| == rs * cs
    ensures var cell := Grid.RectCells(start.row, start.col, rs, cs)[m];
      Grid.FindAt(Cells(zones), cell).Some? && Usable(zones[Grid.FindAt(Cells(zones), cell).value], dropZones)
  {
    Grid.RectCellsIndex(start.row, start.col, rs, cs, m);
  }

  /** The loops' verdict at the first covered cell they cannot use. */
  lemma {:induction false} ScanStopped(zones: seq<ZoneCell>, dropZones: ZoneMap, start: ZoneCell, dims: Dimensions, row: int, col: int)
    requires start.row <= row < start.row + dims.rowSpan && start.col <= col < start.col + dims.colSpan
    requires var at := Grid.FindAt(Cells(zones), Grid.Cell(row, col));
      at.None? || !Usable(zones[at.value], dropZones)
    ensures ZonesToMerge(zones, dropZones, start, dims).None?
  {
    var i, j := row - start.row, col - start.col;
    assert Grid.Cell(start.row + i, start.col + j) == Grid.Cell(row, col);
    MergeRefused(zones, dropZones, start, dims, i, j);
  }

  /**
   * What the nested loops have established after `i` full rows and `c`
   * cells of the next: the scan so far succeeded with the zones `found`,
   * and each of them is usable.
   */
  ghost predicate Scanned(zones: seq<ZoneCell>, dropZones: ZoneMap, start: ZoneCell, i: nat, cs: nat, c: nat, found: seq<nat>) {
    c <= cs && Grid.Scan(Cells(zones), start.row, start.col, i, cs, c) == Some(found) &&
    (forall m :: 0 <= m < |found| ==> found[m] < |zones|) && AllUsable(zones, dropZones, found)
  }

  /** The loops' verdict once every row has been scanned. */
  lemma {:induction false} ScanCompleted(zones: seq<ZoneCell>, dropZones: ZoneMap, start: ZoneCell, dims: Dimensions, found: seq<nat>)
    requires Scanned(zones, dropZones, start, Grid.Count(dims.rowSpan), Grid.Count(dims.colSpan), 0, found)
    ensures forall m :: 0 <= m < |found| ==> found[m] < |zones|
    ensures ZonesToMerge(zones, dropZones, start, dims) ==
      if |found| == dims.colSpan * dims.rowSpan then Some(Ids(zones, found)) else None
  {
    Grid.ScanFull(Cells(zones), start.row, start.col, Grid.Count(dims.rowSpan), Grid.Count(dims.colSpan));
  }

  /** One more usable zone found by the inner loop extends the scan, the zones found and their ids. */
  lemma {:induction false} ScanStep(zones: seq<ZoneCell>, dropZones: ZoneMap, start: ZoneCell, row: int, col: int, i: nat, cs: nat, c: nat, found: seq<nat>, k: nat)
    requires row == start.row + i && col == start.col + c && c < cs
    requires Scanned(zones, dropZones, start, i, cs, c, found)
    requires Grid.FindAt(Cells(zones), Grid.Cell(row, col)) == Some(k)
    requires Usable(zones[k], dropZones)
    ensures Scanned(zones, dropZones, start, i, cs, c + 1, found + [k])
    ensures forall m :: 0 <= m < |found| ==> found[m] < |zones|
    ensures Ids(zones, found + [k]) == Ids(zones, found) + [zones[k].id]
  {
    assert Grid.Cell(start.row + i, start.col + (c + 1) - 1) == Grid.Cell(row, col);
  }

  /** A full row scanned is the start of the next. */
  lemma {:induction false} ScanRow(zones: seq<ZoneCell>, dropZones: ZoneMap, start: ZoneCell, i: nat, cs: nat, found: seq<nat>)
    requires Scanned(zones, dropZones, start, i, cs, cs, found)
    ensures Scanned(zones, dropZones, start, i + 1, cs, 0, found)
  {
  }

  /**
   * `getZonesToMerge(startZone, dimensions)`: the nested loops over the
   * covered rows and columns, returning `null` at the first cell without a
   * usable zone, and the final count check.
   */
  method GetZonesToMerge(zones: seq<ZoneCell>, dropZones: ZoneMap, start: ZoneCell, dims: Dimensions)
    returns (r: Option<seq<string>>)
    ensures r == ZonesToMerge(zones, dropZones, start, dims)
  {
    var positions := Cells(zones);
    ghost var rs, cs := Grid.Count(dims.rowSpan), Grid.Count(dims.colSpan);
    ghost var found: seq<nat> := [];
    ghost var i: nat := 0;
    var ids: seq<string> := [];
    var row := start.row;
    while row < start.row + dims.rowSpan
      invariant row == start.row + i && i <= rs
      invariant Scanned(zones, dropZones, start, i, cs, 0, found)
      invariant forall m :: 0 <= m < |found| ==> found[m] < |zones|
      invariant ids == Ids(zones, found)
    {
      ghost var c: nat := 0;
      var col := start.col;
      while col < start.col + dims.colSpan
        invariant col == start.col + c && c <= cs
        invariant Scanned(zones, dropZones, start, i, cs, c, found)
        invariant forall m :: 0 <= m < |found| ==> found[m] < |zones|
        invariant ids == Ids(zones, found)
      {
        var at := Grid.FindAt(positions, Grid.Cell(row, col));
        if at.None? {
          ScanStopped(zones, dropZones, start, dims, row, col);
          return None;
        }
        var z := zones[at.value];
        var isMerged := z.id in dropZones && Truthy(dropZones[z.id].mergedInto);
        if !z.visible && !isMerged {
          ScanStopped(zones, dropZones, start, dims, row, col);
          return None;
        }
        ScanStep(zones, dropZones, start, row, col, i, cs, c, found, at.value);
        ids := ids + [z.id];
        found := found + [at.value];
        col := col + 1;
        c := c + 1;
      }
      ScanRow(zones, dropZones, start, i, cs, found);
      row := row + 1;
      i := i + 1;
    }
    ScanCompleted(zones, dropZones, start, dims, found);
    if |ids| == dims.colSpan * dims.rowSpan {
      return Some(ids);
    }
    return None;
  }

  // ---------------------------------------------------------------------------
  // merges on the board

  /**
   * On the board, a merge succeeds exactly when every covered cell is
   * usable: with spans of at least one, `ZonesToMerge` is not `null` iff
   * every cell of the rectangle has a zone that is shown or merged.
   */
  lemma {:induction false} MergeIff(zones: seq<ZoneCell>, dropZones: ZoneMap, start: ZoneCell, dims: Dimensions)
    requires dims.colSpan > 0 && dims.rowSpan > 0
    ensures ZonesToMerge(zones, dropZones, start, dims).Some? <==>
      forall i, j :: 0 <= i < dims.rowSpan && 0 <= j < dims.colSpan ==> CoveredUsable(zones, dropZones, start, i, j)
  {
    if forall i, j :: 0 <= i < dims.rowSpan && 0 <= j < dims.colSpan ==> CoveredUsable(zones, dropZones, start, i, j) {
      MergeSucceeds(zones, dropZones, start, dims);
    } else {
      var i, j :| 0 <= i < dims.rowSpan && 0 <= j < dims.colSpan && !CoveredUsable(zones, dropZones, start, i, j);
      MergeRefused(zones, dropZones, start, dims, i, j);
    }
  }

  /** A covered cell found at zone `n` is usable iff that zone is. */
  lemma {:induction false} CoveredAt(zones: seq<ZoneCell>, dropZones: ZoneMap, start: ZoneCell, i: int, j: int, n: nat)
    requires Grid.FindAt(Cells(zones), Grid.Cell(start.row + i, start.col + j)) == Some(n)
    ensures n < |zones| && (CoveredUsable(zones, dropZones, start, i, j) <==> Usable(zones[n], dropZones))
  {
  }

  /** A rectangle that reaches past the 8 × 2 board never merges. */
  lemma {:induction false} OffBoardRefused(config: GridConfig, dropZones: ZoneMap, k: nat, dims: Dimensions)
    requires k < 16 && dims.colSpan > 0 && dims.rowSpan > 0
    requires Board(config)[k].row + dims.rowSpan - 1 > 8 || Board(config)[k].col + dims.colSpan - 1 > 2
    ensures ZonesToMerge(Board(config), dropZones, Board(config)[k], dims).None?
  {
    var start := Board(config)[k];
    assert start == ZoneAt(config, k);
    var i: nat, j: nat := dims.rowSpan - 1, dims.colSpan - 1;
    BoardFindOutside(config, start.row + i, start.col + j);
    MergeRefused(Board(config), dropZones, start, dims, i, j);
  }

  /** A cell of the shown grid, `i` rows and `j` columns from a zone, is covered by a usable zone. */
  lemma {:induction false} ShownCovered(config: GridConfig, dropZones: ZoneMap, start: ZoneCell, i: nat, j: nat)
    requires 1 <= start.row && 1 <= start.col && start.row + i <= 8 && start.col + j <= 2
    requires start.row + i <= config.rows && start.col + j <= config.columns
    ensures CoveredUsable(Board(config), dropZones, start, i, j)
  {
    ShownFound(config, start, i, j, start.row + i, start.col + j);
    ShownVisible(config, start, i, j);
    CoveredVisible(Board(config), dropZones, start, i, j, (start.row + i - 1) * 2 + start.col + j - 1);
  }

  /** The zone at a cell of the board is the one found there. */
  lemma {:induction false} ShownFound(config: GridConfig, start: ZoneCell, i: nat, j: nat, row: int, col: int)
    requires row == start.row + i && col == start.col + j && 1 <= row <= 8 && 1 <= col <= 2
    ensures Grid.FindAt(Cells(Board(config)), Grid.Cell(start.row + i, start.col + j)) == Some((row - 1) * 2 + col - 1)
  {
    assert Grid.Cell(start.row + i, start.col + j) == Grid.Cell(row, col);
    BoardFindInside(config, row, col);
  }

  /** The zone at a cell of the shown grid is visible. */
  lemma {:induction false} ShownVisible(config: GridConfig, start: ZoneCell, i: nat, j: nat)
    requires 1 <= start.row && 1 <= start.col && start.row + i <= 8 && start.col + j <= 2
    requires start.row + i <= config.rows && start.col + j <= config.columns
    ensures var n := (start.row + i - 1) * 2 + start.col + j - 1;
      0 <= n < 16 && Board(config)[n].visible
  {
    var n := (start.row + i - 1) * 2 + start.col + j - 1;
    assert Board(config)[n] == ZoneAt(config, n);
  }

  /** A covered cell whose first zone is shown is usable. */
  lemma {:induction false} CoveredVisible(zones: seq<ZoneCell>, dropZones: ZoneMap, start: ZoneCell, i: int, j: int, n: nat)
    requires Grid.FindAt(Cells(zones), Grid.Cell(start.row + i, start.col + j)) == Some(n)
    requires n < |zones| && zones[n].visible
    ensures CoveredUsable(zones, dropZones, start, i, j)
  {
  }

  /**
   * A rectangle that stays inside the shown part of the grid always
   * merges: after the fit check, `getZonesToMerge` can only return
   * `null` for a span below one.
   */
  lemma {:induction false} FitsThenMerges(config: GridConfig, dropZones: ZoneMap, k: nat, dims: Dimensions)
    requires k < 16 && config.columns <= 2 && config.rows <= 8
    requires dims.colSpan > 0 && dims.rowSpan > 0
    requires Board(config)[k].col + dims.colSpan - 1 <= config.columns
    requires Board(config)[k].row + dims.rowSpan - 1 <= config.rows
    ensures ZonesToMerge(Board(config), dropZones, Board(config)[k], dims).Some?
  {
    var start := Board(config)[k];
    assert 1 <= start.row && 1 <= start.col by {
      assert start == ZoneAt(config, k);
    }
    forall i, j | 0 <= i < dims.rowSpan && 0 <= j < dims.colSpan
      ensures CoveredUsable(Board(config), dropZones, start, i, j)
    {
      ShownCovered(config, dropZones, start, i, j);
    }
    MergeSucceeds(Board(config), dropZones, start, dims);
  }

  /** Id `m` of a merge on the board is `button{n}` for the zone `m / cols` rows and `m % cols` columns from the start. */
  predicate BoardIdAt(start: ZoneCell, cols: int, ids: seq<string>, m: int) {
    0 <= m < |ids| && cols > 0 &&
    var row, col := start.row + m / cols, start.col + m % cols;
    1 <= row <= 8 && 1 <= col <= 2 && ids[m] == ZoneId((row - 1) * 2 + col)
  }

  lemma {:induction false} BoardIdOfCell(config: GridConfig, dropZones: ZoneMap, start: ZoneCell, cols: int, ids: seq<string>, m: int)
    requires IdOfCell(Board(config), dropZones, start, cols, ids, m)
    ensures BoardIdAt(start, cols, ids, m)
  {
    var row, col := start.row + m / cols, start.col + m % cols;
    BoardFindCell(config, row, col);
    assert ids[m] == ZoneAt(config, (row - 1) * 2 + col - 1).id;
  }

  /** Each id of a merge on the board names the zone at its cell of the rectangle. */
  lemma {:induction false} BoardMergeIds(config: GridConfig, dropZones: ZoneMap, k: nat, dims: Dimensions)
    requires k < 16
    requires ZonesToMerge(Board(config), dropZones, Board(config)[k], dims).Some?
    ensures var ids := ZonesToMerge(Board(config), dropZones, Board(config)[k], dims).value;
      forall m :: 0 <= m < |ids| ==> BoardIdAt(Board(config)[k], dims.colSpan, ids, m)
  {
    var ids := ZonesToMerge(Board(config), dropZones, Board(config)[k], dims).value;
    MergeCovers(Board(config), dropZones, Board(config)[k], dims);
    forall m | 0 <= m < |ids|
      ensures BoardIdAt(Board(config)[k], dims.colSpan, ids, m)
    {
      BoardIdOfCell(config, dropZones, Board(config)[k], dims.colSpan, ids, m);
    }
  }

  /** Different entries of a rectangle `cols` wide lie at different cells of the board. */
  lemma {:induction false} BoardIndexInjective(rowA: int, colA: int, rowB: int, colB: int)
    requires 1 <= colA <= 2 && 1 <= colB <= 2
    requires (rowA - 1) * 2 + colA == (rowB - 1) * 2 + colB
    ensures rowA == rowB && colA == colB
  {
  }

  lemma {:induction false} DivModInjective(m: nat, n: nat, cols: int)
    requires cols > 0 && m / cols == n / cols && m % cols == n % cols
    ensures m == n
  {
    assert m == cols * (m / cols) + m % cols;
    assert n == cols * (n / cols) + n % cols;
  }

  /** Two entries of a merge on the board name different zones. */
  lemma {:induction false} BoardIdsDiffer(start: ZoneCell, cols: int, ids: seq<string>, a: int, b: int)
    requires BoardIdAt(start, cols, ids, a) && BoardIdAt(start, cols, ids, b) && a != b
    ensures ids[a] != ids[b]
  {
    var rowA, colA := start.row + a / cols, start.col + a % cols;
    var rowB, colB := start.row + b / cols, start.col + b % cols;
    if ids[a] == ids[b] {
      ZoneIdInjective((rowA - 1) * 2 + colA, (rowB - 1) * 2 + colB);
      BoardIndexInjective(rowA, colA, rowB, colB);
      DivModInjective(a, b, cols);
    }
  }

  /** A merge on the board names each zone once, and starts with the start zone. */
  lemma {:induction false} BoardMergeDistinct(config: GridConfig, dropZones: ZoneMap, k: nat, dims: Dimensions)
    requires k < 16
    requires ZonesToMerge(Board(config), dropZones, Board(config)[k], dims).Some?
    ensures var ids := ZonesToMerge(Board(config), dropZones, Board(config)[k], dims).value;
      Grid.Distinct(ids) && (|ids| > 0 ==> ids[0] == Board(config)[k].id)
  {
    var ids := ZonesToMerge(Board(config), dropZones, Board(config)[k], dims).value;
    var start := Board(config)[k];
    BoardMergeIds(config, dropZones, k, dims);
    forall a, b | 0 <= a < b < |ids|
      ensures ids[a] != ids[b]
    {
      BoardIdsDiffer(start, dims.colSpan, ids, a, b);
    }
    if |ids| > 0 {
      BoardFirstId(config, k, dims.colSpan, ids);
    }
  }

  lemma {:induction false} BoardFirstId(config: GridConfig, k: nat, cols: int, ids: seq<string>)
    requires k < 16 && BoardIdAt(Board(config)[k], cols, ids, 0)
    ensures ids[0] == Board(config)[k].id
  {
    var start := Board(config)[k];
    assert 0 / cols == 0 && 0 % cols == 0;
    assert ids[0] == ZoneId((start.row - 1) * 2 + start.col);
  }

  // ---------------------------------------------------------------------------
  // handleDrop

  /** The properties of the dragged button the drop reads; spans that are not numbers read as absent. */
  datatype ButtonData = ButtonData(buttonType: Option<JsValue>, colSpan: Option<int>, rowSpan: Option<int>)

  /** What `JSON.parse` made of the `text/plain` payload: a syntax error, a falsy value, or a truthy one. */
  datatype Parsed = SyntaxError | Falsy | Value(data: ButtonData)

  /** The drag payloads: `text/plain`, its parse, and `buttonType`. */
  datatype Transfer = Transfer(plain: string, json: Parsed, buttonType: string)

  datatype Received = Received(data: ButtonData) | NoData | ParseFailed

  /** The `buttonType` fallback: a non-zero `parseInt` gives the type and its spans; zero or NaN gives nothing. */
  function FallbackData(buttonTypeText: string): (r: Option<ButtonData>)
    ensures r.Some? <==> ParseInt(buttonTypeText).Some? && ParseInt(buttonTypeText).value != 0
  {
    match ParseInt(buttonTypeText)
    case None => None
    case Some(n) =>
      if n == 0 then None
      else
        var dims := GetButtonDimensions(n);
        Some(ButtonData(Some(JNum(n)), Some(dims.colSpan), Some(dims.rowSpan)))
  }

  /** The `try`/`catch` that reads the button data off the drop event. */
  function Receive(t: Transfer): Received {
    if t.plain != "" then
      match t.json
      case Value(data) => Received(data)
      case Falsy => NoData
      case SyntaxError =>
        match FallbackData(t.buttonType)
        case Some(data) => Received(data)
        case None => ParseFailed
    else
      match FallbackData(t.buttonType)
      case Some(data) => Received(data)
      case None => NoData
  }

  /**
   * The fallback reads a button type written in decimal: with no JSON
   * payload, or one that does not parse, the data is that type with its
   * own spans; and the parse error is reported only when the fallback
   * has nothing either.
   */
  lemma {:induction false} ReceiveButtonType(plain: string, json: Parsed, n: int)
    requires n != 0
    requires plain == "" || json == SyntaxError
    ensures var dims := GetButtonDimensions(n);
      Receive(Transfer(plain, json, IntToString(n))) ==
        Received(ButtonData(Some(JNum(n)), Some(dims.colSpan), Some(dims.rowSpan)))
  {
    ParseIntToString(n);
  }

  lemma {:induction false} ReceiveFailures(t: Transfer)
    ensures Receive(t) == ParseFailed <==> t.plain != "" && t.json == SyntaxError && FallbackData(t.buttonType).None?
    ensures Receive(t) == NoData <==>
      (t.plain != "" && t.json == Falsy) || (t.plain == "" && FallbackData(t.buttonType).None?)
  {
  }

  /** `{ colSpan: buttonData.colSpan || 1, rowSpan: buttonData.rowSpan || 1 }`. */
  function DropDimensions(data: ButtonData): (dims: Dimensions)
    ensures dims.colSpan != 0 && dims.rowSpan != 0
  {
    Dimensions(Or1(data.colSpan), Or1(data.rowSpan))
  }

  function FitMessage(dims: Dimensions, config: GridConfig): string {
    "Button doesn't fit here (needs " + IntToString(dims.colSpan) + "\U{00D7}" + IntToString(dims.rowSpan) +
    ", only " + NatToString(config.columns) + "\U{00D7}" + NatToString(config.rows) + " available)"
  }

  /** The rectangle a start zone and spans would cover ends inside the shown columns and rows. */
  predicate Fits(zone: ZoneCell, dims: Dimensions, config: GridConfig) {
    zone.col + dims.colSpan - 1 <= config.columns && zone.row + dims.rowSpan - 1 <= config.rows
  }

  /** How a drop ends: nothing at all (no such zone), a refusal with its message, or a button placed on `ids`. */
  datatype DropResult = Ignored | Refused(message: string) | Placed(ids: seq<string>, record: ZoneData)

  /** The decision `handleDrop` takes on a drop onto `zoneId`, given the zones and the `dropZones` it renders with. */
  function Drop(config: GridConfig, zones: seq<ZoneCell>, dropZones: ZoneMap, zoneId: string, t: Transfer): DropResult {
    match Receive(t)
    case ParseFailed => Refused("Error parsing drop data")
    case NoData => Refused("No button data found")
    case Received(data) =>
      match FindById(zones, zoneId)
      case None => Ignored
      case Some(k) =>
        var dims := DropDimensions(data);
        if !Fits(zones[k], dims, config) then Refused(FitMessage(dims, config))
        else
          match ZonesToMerge(zones, dropZones, zones[k], dims)
          case None => Refused("Cannot merge zones")
          case Some(ids) => Placed(ids, Blank.(kind := data.buttonType, dimensions := Some(dims), zones := Some(ids)))
  }

  /** `existing.zones` of an occupied zone when it has that list, the zone itself otherwise. */
  function ClearTargets(dropZones: ZoneMap, zoneId: string): seq<string> {
    if zoneId in dropZones && dropZones[zoneId].zones.Some? then dropZones[zoneId].zones.value else [zoneId]
  }

  /** The covered zones holding a record that is not merged into another. */
  function Occupied(dropZones: ZoneMap, ids: seq<string>): (r: seq<string>)
    ensures forall z :: z in r <==> z in ids && z in dropZones && !dropZones[z].isMerged
  {
    Filter(ids, zId => zId in dropZones && !dropZones[zId].isMerged)
  }

  /** Every zone the clearing loop clears, in order. */
  function AllTargets(dropZones: ZoneMap, occupied: seq<string>): seq<string>
    decreases |occupied|
  {
    if |occupied| == 0 then []
    else AllTargets(dropZones, occupied[..|occupied| - 1]) + ClearTargets(dropZones, occupied[|occupied| - 1])
  }

  lemma {:induction false} AllTargetsMembership(dropZones: ZoneMap, occupied: seq<string>, z: string)
    ensures z in AllTargets(dropZones, occupied) <==> exists i :: 0 <= i < |occupied| && z in ClearTargets(dropZones, occupied[i])
    decreases |occupied|
  {
    if |occupied| > 0 {
      var init := occupied[..|occupied| - 1];
      AllTargetsMembership(dropZones, init, z);
      assert forall i :: 0 <= i < |init| ==> init[i] == occupied[i];
    }
  }

  /** The map with the listed keys cleared. */
  function Without(zones: ZoneMap, keys: seq<string>): (r: ZoneMap)
    ensures forall k :: k in r <==> k in zones && k !in keys
    ensures forall k :: k in r ==> r[k] == zones[k]
  {
    map k | k in zones && k !in keys :: zones[k]
  }

  lemma {:induction false} WithoutTwice(zones: ZoneMap, first: seq<string>, second: seq<string>)
    ensures Without(Without(zones, first), second) == Without(zones, first + second)
  {
    assert forall k :: k in first + second <==> k in first || k in second;
  }

  lemma {:induction false} WithoutOneMore(zones: ZoneMap, keys: seq<string>, z: string)
    ensures RemoveZone(Without(zones, keys), z) == Without(zones, keys + [z])
  {
    assert forall k :: k in keys + [z] <==> k in keys || k == z;
  }

  /** The zones after a drop: occupants of the covered zones cleared with all their zones, then the button placed. */
  function AfterDrop(dropZones: ZoneMap, result: DropResult): ZoneMap {
    match result
    case Placed(ids, record) => PlaceButton(Without(dropZones, AllTargets(dropZones, Occupied(dropZones, ids))), ids, record)
    case _ => dropZones
  }

  function DropFeedback(result: DropResult): Option<Feedback> {
    match result
    case Ignored => None
    case Refused(message) => Some(Feedback(message, Failure))
    case Placed(_, _) => Some(Feedback("Button placed successfully!", Success))
  }

  /**
   * A drop that does not fit the shown grid is refused with the message
   * naming both sizes, and on the board a drop with the button's own
   * spans that fits is never refused as unmergeable.
   */
  lemma {:induction false} DropFitCheck(config: GridConfig, dropZones: ZoneMap, zoneId: string, t: Transfer)
    requires config.columns <= 2 && config.rows <= 8
    requires Receive(t).Received? && FindById(Board(config), zoneId).Some?
    ensures var dims := DropDimensions(Receive(t).data);
      var zone := Board(config)[FindById(Board(config), zoneId).value];
      (!Fits(zone, dims, config) <==> Drop(config, Board(config), dropZones, zoneId, t) == Refused(FitMessage(dims, config))) &&
      (Fits(zone, dims, config) && dims.colSpan > 0 && dims.rowSpan > 0 ==> Drop(config, Board(config), dropZones, zoneId, t).Placed?)
  {
    var dims := DropDimensions(Receive(t).data);
    var k := FindById(Board(config), zoneId).value;
    if Fits(Board(config)[k], dims, config) {
      if dims.colSpan > 0 && dims.rowSpan > 0 {
        FitsThenMerges(config, dropZones, k, dims);
      }
      assert FitMessage(dims, config)[0] == 'B';
    }
  }

  lemma {:induction false} ProductZero(a: int, b: int)
    ensures a * b == 0 <==> a == 0 || b == 0
  {
    if a != 0 && b != 0 {
      if a > 0 && b > 0 {
        assert a * b >= b;
      } else if a < 0 && b < 0 {
        assert a * b >= -b;
      } else if a > 0 {
        assert a * b <= b;
      } else {
        assert a * b <= a;
      }
    }
  }

  /** `id` names a zone of the board that the grid type shows. */
  predicate ShownZoneId(config: GridConfig, id: string) {
    exists n :: 0 <= n < 16 && Board(config)[n].id == id && Board(config)[n].visible
  }

  lemma {:induction false} PlacedZoneShown(config: GridConfig, k: nat, dims: Dimensions, ids: seq<string>, m: nat)
    requires k < 16 && Fits(Board(config)[k], dims, config)
    requires dims.colSpan > 0 && dims.rowSpan > 0 && |ids| == dims.colSpan * dims.rowSpan
    requires m < |ids| && BoardIdAt(Board(config)[k], dims.colSpan, ids, m)
    ensures ShownZoneId(config, ids[m])
  {
    var start := Board(config)[k];
    var row, col := start.row + m / dims.colSpan, start.col + m % dims.colSpan;
    assert m / dims.colSpan < dims.rowSpan by {
      Grid.RectCellsIndex(start.row, start.col, dims.rowSpan, dims.colSpan, m);
    }
    var n := (row - 1) * 2 + col - 1;
    assert Board(config)[n] == ZoneAt(config, n);
    assert n / 2 + 1 == row && n % 2 + 1 == col;
  }

  /**
   * A placed drop covers colSpan × rowSpan distinct zones, all shown by
   * the grid type, starting with the zone dropped on, and stores the
   * dragged type, the spans and the zone list in the record.
   */
  lemma {:induction false} DropPlaced(config: GridConfig, dropZones: ZoneMap, zoneId: string, t: Transfer, ids: seq<string>, record: ZoneData)
    requires Drop(config, Board(config), dropZones, zoneId, t) == Placed(ids, record)
    ensures Receive(t).Received?
    ensures var dims := DropDimensions(Receive(t).data);
      dims.colSpan > 0 && dims.rowSpan > 0 && |ids| == dims.colSpan * dims.rowSpan &&
      record == Blank.(kind := Receive(t).data.buttonType, dimensions := Some(dims), zones := Some(ids))
    ensures |ids| > 0 && ids[0] == zoneId && Grid.Distinct(ids)
    ensures forall m :: 0 <= m < |ids| ==> ShownZoneId(config, ids[m])
  {
    var dims := DropDimensions(Receive(t).data);
    var k := FindById(Board(config), zoneId).value;
    var start := Board(config)[k];
    MergeCount(Board(config), dropZones, start, dims);
    ProductZero(dims.colSpan, dims.rowSpan);
    BoardMergeDistinct(config, dropZones, k, dims);
    BoardMergeIds(config, dropZones, k, dims);
    forall m | 0 <= m < |ids|
      ensures ShownZoneId(config, ids[m])
    {
      PlacedZoneShown(config, k, dims, ids, m);
    }
  }

  /**
   * After a placed drop the zone dropped on holds the primary record,
   * listing every covered zone; the other covered zones are merged into
   * it; the zones of buttons it displaced are gone; every other zone is
   * as it was.
   */
  lemma {:induction false} DroppedButton(config: GridConfig, dropZones: ZoneMap, zoneId: string, t: Transfer, ids: seq<string>, record: ZoneData)
    requires Drop(config, Board(config), dropZones, zoneId, t) == Placed(ids, record)
    ensures |ids| > 0
    ensures var after := AfterDrop(dropZones, Placed(ids, record));
      var cleared := AllTargets(dropZones, Occupied(dropZones, ids));
      zoneId in after && after[zoneId] == PrimaryRecord(record, zoneId) && after[zoneId].zones == Some(ids) &&
      (forall z :: z in ids[1..] ==> z in after && after[z] == MergedRecord(record, zoneId)) &&
      (forall z :: z !in ids && z in cleared ==> z !in after) &&
      (forall z :: z !in ids && z !in cleared ==> (z in after <==> z in dropZones)) &&
      (forall z :: z !in ids && z !in cleared && z in dropZones ==> after[z] == dropZones[z])
  {
    DropPlaced(config, dropZones, zoneId, t, ids, record);
    var cleared := AllTargets(dropZones, Occupied(dropZones, ids));
    PlacedButton(Without(dropZones, cleared), ids, record);
    assert ids[0] !in ids[1..];
  }

  /** `handleRemove`'s effect on the zones: the button's listed zones, or the zone alone, are cleared. */
  function Removed(dropZones: ZoneMap, zoneId: string): ZoneMap {
    Without(dropZones, ClearTargets(dropZones, zoneId))
  }

  /**
   * Removing the button just dropped clears exactly the zones it covers,
   * and when those zones were empty before, the drop is undone.
   */
  lemma {:induction false} DropThenRemove(config: GridConfig, dropZones: ZoneMap, zoneId: string, t: Transfer, ids: seq<string>, record: ZoneData)
    requires Drop(config, Board(config), dropZones, zoneId, t) == Placed(ids, record)
    ensures var after := AfterDrop(dropZones, Placed(ids, record));
      Removed(after, zoneId) == Without(after, ids)
    ensures (forall z :: z in ids ==> z !in dropZones) ==>
      Removed(AfterDrop(dropZones, Placed(ids, record)), zoneId) == dropZones
  {
    var after := AfterDrop(dropZones, Placed(ids, record));
    DroppedButton(config, dropZones, zoneId, t, ids, record);
    if forall z :: z in ids ==> z !in dropZones {
      var occupied := Occupied(dropZones, ids);
      assert occupied == [];
      assert AllTargets(dropZones, occupied) == [];
      var removed := Removed(after, zoneId);
      assert removed.Keys == dropZones.Keys;
    }
  }

  /**
   * The records a drop places name the button type as `type`, never as
   * `buttonType`: `applyFullColor` as written recolours none of the zones
   * of a dropped button, while the intended test recolours every one.
   */
  lemma {:induction false} FullColorMissesDroppedButton(config: GridConfig, dropZones: ZoneMap, zoneId: string, t: Transfer,
                                                         ids: seq<string>, record: ZoneData, colorName: string)
    requires Drop(config, Board(config), dropZones, zoneId, t) == Placed(ids, record)
    requires JsTruthy(Receive(t).data.buttonType)
    ensures var after := AfterDrop(dropZones, Placed(ids, record));
      forall z :: z in ids ==>
        z in after &&
        Recolored(after, colorName, HasButtonTypeProperty)[z] == after[z] &&
        Recolored(after, colorName, HoldsButton)[z] == after[z].(color := Some(colorName))
  {
    DropPlaced(config, dropZones, zoneId, t, ids, record);
    DroppedButton(config, dropZones, zoneId, t, ids, record);
    var after := AfterDrop(dropZones, Placed(ids, record));
    forall z | z in ids
      ensures z in after && !HasButtonTypeProperty(after[z]) && HoldsButton(after[z])
    {
      if z != ids[0] {
        var m :| 0 <= m < |ids| && ids[m] == z;
        assert z in ids[1..] by {
          assert ids[1..][m - 1] == z;
        }
      }
    }
  }

  // ---------------------------------------------------------------------------
  // renderZoneContent

  /** The inline style of a placed button; an absent property is not set. */
  datatype ButtonStyle = ButtonStyle(
    gridColumn: Option<string>,
    gridRow: Option<string>,
    backgroundImage: Option<string>,
    backgroundColor: Option<string>,
    borderColor: Option<string>)

  /** What a label position shows: nothing, an `<img>`, or a text `<span>`. */
  datatype Slot = Empty | Img(src: string) | Span(text: string)

  /** `renderZoneContent`: nothing outside a primary zone, a `TypeError` without `dimensions`, else the button. */
  datatype Rendering = NotRendered | RenderError | Rendered(style: ButtonStyle, slots: seq<Slot>)

  function SpanStyle(span: int): Option<string> {
    if span > 1 then Some("span " + IntToString(span)) else None
  }

  /** The label position `p`: an icon with a file name, a non-empty text, or nothing. */
  function SlotView(zone: ZoneData, p: Position): Slot {
    if p !in zone.content then Empty
    else
      match zone.content[p]
      case Icon(file) => if file != "" then Img("/ican/images/" + file) else Empty
      case Text(value, _) => if value != "" then Span(value) else Empty
      case Null => Empty
  }

  /** The colour a button wears: its own when set, otherwise the colour applied to all buttons. */
  function ButtonColorName(zone: ZoneData, fullColor: Option<string>): (r: Option<string>)
    ensures r.Some? ==> r.value != ""
  {
    if Truthy(zone.color) then zone.color else if Truthy(fullColor) then fullColor else None
  }

  /** The background and border properties, chosen as `renderZoneContent` does. */
  function ColorStyle(zone: ZoneData, fullColor: Option<string>, frameColor: Option<string>): (Option<string>, Option<string>, Option<string>) {
    var textureImage :=
      if Truthy(zone.color) then GetTextureImage(zone.color.value)
      else if Truthy(fullColor) then GetTextureImage(fullColor.value)
      else None;
    if textureImage.Some? then
      var background :=
        if Truthy(zone.color) then GetColorValue(zone.color.value)
        else if Truthy(fullColor) then GetColorValue(fullColor.value)
        else "#ffffff";
      (Some("url(" + textureImage.value + ")"), Some(background), None)
    else if Truthy(zone.color) then (None, Some(GetColorValue(zone.color.value)), Some(GetColorValue(zone.color.value)))
    else if Truthy(fullColor) then (None, Some(GetColorValue(fullColor.value)), Some(GetColorValue(fullColor.value)))
    else if Truthy(frameColor) then (None, None, Some(GetColorValue(frameColor.value)))
    else (None, None, None)
  }

  function RenderZoneContent(dropZones: ZoneMap, zoneId: string, fullColor: Option<string>, frameColor: Option<string>): Rendering {
    if zoneId !in dropZones || !dropZones[zoneId].isPrimary then NotRendered
    else
      var zone := dropZones[zoneId];
      match zone.dimensions
      case None => RenderError
      case Some(dims) =>
        var colors := ColorStyle(zone, fullColor, frameColor);
        Rendered(ButtonStyle(SpanStyle(dims.colSpan), SpanStyle(dims.rowSpan), colors.0, colors.1, colors.2),
                 [SlotView(zone, S0), SlotView(zone, S1), SlotView(zone, S2)])
  }

  /**
   * The colour precedence of a rendered button: its own colour over the
   * colour applied to all, the frame colour only ever on the border; a
   * named colour is drawn with its texture over its colour value, any
   * other colour as white fill and border.
   */
  lemma {:induction false} RenderColors(dropZones: ZoneMap, zoneId: string, fullColor: Option<string>, frameColor: Option<string>)
    requires RenderZoneContent(dropZones, zoneId, fullColor, frameColor).Rendered?
    ensures var style := RenderZoneContent(dropZones, zoneId, fullColor, frameColor).style;
      var name := ButtonColorName(dropZones[zoneId], fullColor);
      (name.Some? ==> style.backgroundColor == Some(GetColorValue(name.value))) &&
      (name.Some? && IsColorName(name.value) ==>
        style.backgroundImage == Some("url(" + GetTextureImage(name.value).value + ")") && style.borderColor.None?) &&
      (name.Some? && !IsColorName(name.value) ==>
        style.backgroundImage.None? && style.borderColor == Some("#ffffff")) &&
      (name.None? ==>
        style.backgroundImage.None? && style.backgroundColor.None? &&
        style.borderColor == (if Truthy(frameColor) then Some(GetColorValue(frameColor.value)) else None))
  {
  }

  /** A primary record renders with its spans, and with no labels while its positions hold `null`. */
  lemma {:induction false} RenderPrimary(dropZones: ZoneMap, zoneId: string, fullColor: Option<string>, frameColor: Option<string>,
                                         record: ZoneData, dims: Dimensions)
    requires zoneId in dropZones && dropZones[zoneId] == PrimaryRecord(record, zoneId) && record.dimensions == Some(dims)
    ensures var view := RenderZoneContent(dropZones, zoneId, fullColor, frameColor);
      view.Rendered? && view.slots == [Empty, Empty, Empty] &&
      view.style.gridColumn == SpanStyle(dims.colSpan) && view.style.gridRow == SpanStyle(dims.rowSpan)
  {
  }

  /**
   * A placed drop renders once, in the zone dropped on, with the drop's
   * spans and empty labels; its other zones render nothing.
   */
  lemma {:induction false} RenderDroppedButton(config: GridConfig, dropZones: ZoneMap, zoneId: string, t: Transfer,
                                               ids: seq<string>, record: ZoneData, fullColor: Option<string>, frameColor: Option<string>)
    requires Drop(config, Board(config), dropZones, zoneId, t) == Placed(ids, record)
    ensures Receive(t).Received? && |ids| > 0
    ensures var dims := DropDimensions(Receive(t).data);
      var after := AfterDrop(dropZones, Placed(ids, record));
      var view := RenderZoneContent(after, zoneId, fullColor, frameColor);
      view.Rendered? && view.slots == [Empty, Empty, Empty] &&
      view.style.gridColumn == SpanStyle(dims.colSpan) && view.style.gridRow == SpanStyle(dims.rowSpan) &&
      forall z :: z in ids[1..] ==> RenderZoneContent(after, z, fullColor, frameColor) == NotRendered
  {
    var after := AfterDrop(dropZones, Placed(ids, record));
    DropPlaced(config, dropZones, zoneId, t, ids, record);
    DroppedButton(config, dropZones, zoneId, t, ids, record);
    RenderPrimary(after, zoneId, fullColor, frameColor, record, DropDimensions(Receive(t).data));
  }

  // ---------------------------------------------------------------------------
  // convertImageUrls

  /** The image paths the PDF export makes absolute. */
  predicate LocalImage(path: string) {
    StartsWith(path, "/images/") || StartsWith(path, "/ican/images/")
  }

  /** An `img` element's `src`, prefixed with the page origin when it is a local image. */
  function ConvertSrc(origin: string, src: Option<string>): Option<string> {
    if Truthy(src) && LocalImage(src.value) then Some(origin + src.value) else src
  }

  /** The characters `[^"')]` excludes. */
  predicate UrlDelimiter(c: char) {
    c == '"' || c == '\'' || c == ')'
  }

  predicate IsQuote(c: char) {
    c == '"' || c == '\''
  }

  function NotUrlDelimiter(c: char): bool {
    !UrlDelimiter(c)
  }

  /**
   * The match of `/url\(["']?([^"')]+)["']?\)/` starting at index `i`:
   * its group, the longest run of characters other than quotes and `)`,
   * which must be followed by an optional quote and `)`.
   */
  function UrlMatchAt(s: string, i: nat): Option<string>
    requires i <= |s|
  {
    if !StartsWith(s[i..], "url(") then None
    else
      var j := if i + 4 < |s| && IsQuote(s[i + 4]) then i + 5 else i + 4;
      var group := TakeWhile(s[j..], NotUrlDelimiter);
      var k := j + |group|;
      var close := if k < |s| && IsQuote(s[k]) then k + 1 else k;
      if |group| > 0 && close < |s| && s[close] == ')' then Some(group) else None
  }

  /** `bgImage.match(...)`: the group of the leftmost match. */
  function UrlMatch(s: string, from: nat): Option<string>
    requires from <= |s|
    decreases |s| - from
  {
    match UrlMatchAt(s, from)
    case Some(group) => Some(group)
    case None => if from == |s| then None else UrlMatch(s, from + 1)
  }

  /** `s.replace(pattern, replacement)` with a string pattern: the first occurrence only. */
  function ReplaceFirst(s: string, pattern: string, replacement: string): string
    decreases |s|
  {
    if StartsWith(s, pattern) then replacement + s[|pattern|..]
    else if |s| == 0 then s
    else [s[0]] + ReplaceFirst(s[1..], pattern, replacement)
  }

  /** An element's `style.backgroundImage`, its first local `url(...)` made absolute. */
  function ConvertBackground(origin: string, background: Option<string>): Option<string> {
    if Truthy(background) && Contains(background.value, "url(") then
      match UrlMatch(background.value, 0)
      case Some(imgUrl) =>
        if imgUrl != "" && LocalImage(imgUrl) then Some(ReplaceFirst(background.value, imgUrl, origin + imgUrl))
        else background
      case None => background
    else background
  }

  /** A path that needs no quoting inside `url(...)`. */
  predicate PlainPath(path: string) {
    '"' !in path && '\'' !in path && ')' !in path
  }

  lemma {:induction false} UrlMatchOfPlainUrl(path: string)
    requires |path| > 0 && path[0] == '/' && PlainPath(path)
    ensures UrlMatch("url(" + path + ")", 0) == Some(path)
  {
    var s := "url(" + path + ")";
    assert s[0..][..4] == "url(";
    assert s[4..] == path + ")";
    TakeWhilePrefix(path, ")", NotUrlDelimiter);
    assert s[4 + |path|] == ')';
  }

  lemma {:induction false} ReplaceAfterPrefix(prefix: string, tail: string, path: string, replacement: string)
    requires 0 < |path| <= |tail| && tail[..|path|] == path
    requires forall k :: 0 <= k < |prefix| ==> prefix[k] != path[0]
    ensures ReplaceFirst(prefix + tail, path, replacement) == prefix + (replacement + tail[|path|..])
    decreases |prefix|
  {
    var s := prefix + tail;
    if |prefix| == 0 {
      assert s == tail;
    } else {
      NotStartsWith(s, path);
      assert s[1..] == prefix[1..] + tail;
      ReplaceAfterPrefix(prefix[1..], tail, path, replacement);
      assert [prefix[0]] + (prefix[1..] + (replacement + tail[|path|..])) == prefix + (replacement + tail[|path|..]);
    }
  }

  lemma {:induction false} ReplacePlainUrl(origin: string, path: string)
    requires |path| > 0 && path[0] == '/'
    ensures ReplaceFirst("url(" + path + ")", path, origin + path) == "url(" + (origin + path) + ")"
  {
    var tail := path + ")";
    assert "url(" + path + ")" == "url(" + tail;
    assert tail[..|path|] == path && tail[|path|..] == ")";
    ReplaceAfterPrefix("url(", tail, path, origin + path);
    assert "url(" + ((origin + path) + ")") == "url(" + (origin + path) + ")";
  }

  /**
   * A texture background `url(<path>)` with a local path is rewritten to
   * `url(<origin><path>)`, and an icon's `src` to `<origin><src>`.
   */
  lemma {:induction false} ConvertPlainUrl(origin: string, path: string)
    requires LocalImage(path) && PlainPath(path)
    ensures ConvertBackground(origin, Some("url(" + path + ")")) == Some("url(" + (origin + path) + ")")
    ensures ConvertSrc(origin, Some(path)) == Some(origin + path)
  {
    var s := "url(" + path + ")";
    assert path[0] == '/';
    assert StartsWith(s, "url(");
    ContainsAt(s, 0, "url(");
    UrlMatchOfPlainUrl(path);
    ReplacePlainUrl(origin, path);
  }

  /** The first five colour names hold no quote or parenthesis. */
  lemma {:induction false} FirstNamesPlain(colorName: string)
    requires colorName in {"polar-white", "royal-silver", "anthracite-gray", "meteor-black", "texture-black"}
    ensures PlainPath(colorName)
  {
    if colorName == "polar-white" {
      assert PlainPath("polar-white");
    } else if colorName == "royal-silver" {
      assert PlainPath("royal-silver");
    } else if colorName == "anthracite-gray" {
      assert PlainPath("anthracite-gray");
    } else if colorName == "meteor-black" {
      assert PlainPath("meteor-black");
    } else {
      assert PlainPath("texture-black");
    }
  }

  /** The last five colour names hold no quote or parenthesis. */
  lemma {:induction false} LastNamesPlain(colorName: string)
    requires colorName in {"pure-gold", "antique-copper", "antique-bronze", "red-cherry", "green-leaf"}
    ensures PlainPath(colorName)
  {
    if colorName == "pure-gold" {
      assert PlainPath("pure-gold");
    } else if colorName == "antique-copper" {
      assert PlainPath("antique-copper");
    } else if colorName == "antique-bronze" {
      assert PlainPath("antique-bronze");
    } else if colorName == "red-cherry" {
      assert PlainPath("red-cherry");
    } else {
      assert PlainPath("green-leaf");
    }
  }

  /** The texture hashes of the first five colours hold no quote or parenthesis. */
  lemma {:induction false} FirstHashesPlain(colorName: string)
    requires colorName in {"polar-white", "royal-silver", "anthracite-gray", "meteor-black", "texture-black"}
    ensures PlainPath(TextureHash(colorName).value)
  {
    if colorName == "polar-white" {
      assert PlainPath("C_BHS7yz");
    } else if colorName == "royal-silver" {
      assert PlainPath("DCV-2Hhk");
    } else if colorName == "anthracite-gray" {
      assert PlainPath("C5T6qsn_");
    } else if colorName == "meteor-black" {
      assert PlainPath("gUXuWB01");
    } else {
      assert PlainPath("Cm2809Or");
    }
  }

  /** The texture hashes of the last five colours hold no quote or parenthesis. */
  lemma {:induction false} LastHashesPlain(colorName: string)
    requires colorName in {"pure-gold", "antique-copper", "antique-bronze", "red-cherry", "green-leaf"}
    ensures PlainPath(TextureHash(colorName).value)
  {
    if colorName == "pure-gold" {
      assert PlainPath("Be-uofrm");
    } else if colorName == "antique-copper" {
      assert PlainPath("rqO417XN");
    } else if colorName == "antique-bronze" {
      assert PlainPath("4-jEtX_3");
    } else if colorName == "red-cherry" {
      assert PlainPath("Dfq_s_0J");
    } else {
      assert PlainPath("DRw9hQSI");
    }
  }

  /** Colour names and their texture hashes hold no quote or parenthesis. */
  lemma {:induction false} NamePlain(colorName: string)
    requires IsColorName(colorName)
    ensures PlainPath(colorName) && PlainPath(TextureHash(colorName).value)
  {
    if colorName in {"polar-white", "royal-silver", "anthracite-gray", "meteor-black", "texture-black"} {
      FirstNamesPlain(colorName);
      FirstHashesPlain(colorName);
    } else {
      LastNamesPlain(colorName);
      LastHashesPlain(colorName);
    }
  }

  /** Every texture image is a local image whose path needs no quoting. */
  lemma {:induction false} TexturePlain(colorName: string)
    requires IsColorName(colorName)
    ensures LocalImage(GetTextureImage(colorName).value) && PlainPath(GetTextureImage(colorName).value)
  {
    var hash := TextureHash(colorName).value;
    NamePlain(colorName);
    PlainAppend(colorName, ".");
    PlainAppend(colorName + ".", hash);
    PlainAppend(colorName + "." + hash, ".webp");
    PlainAppend("/images/", colorName + "." + hash + ".webp");
  }

  /** Joining two paths without quotes or parentheses gives another. */
  lemma {:induction false} PlainAppend(a: string, b: string)
    requires PlainPath(a) || a in {"/images/", ".", ".webp"}
    requires PlainPath(b) || b in {"/images/", ".", ".webp"}
    ensures PlainPath(a + b)
  {
    assert PlainPath("/images/") && PlainPath(".") && PlainPath(".webp");
    assert forall c :: c in a + b ==> c in a || c in b;
  }

  /** The texture background of a rendered button is made absolute by the export. */
  lemma {:induction false} ConvertRenderedTexture(dropZones: ZoneMap, zoneId: string, fullColor: Option<string>, frameColor: Option<string>, origin: string)
    requires RenderZoneContent(dropZones, zoneId, fullColor, frameColor).Rendered?
    requires var name := ButtonColorName(dropZones[zoneId], fullColor); name.Some? && IsColorName(name.value)
    ensures var name := ButtonColorName(dropZones[zoneId], fullColor).value;
      var style := RenderZoneContent(dropZones, zoneId, fullColor, frameColor).style;
      ConvertBackground(origin, style.backgroundImage) == Some("url(" + (origin + GetTextureImage(name).value) + ")")
  {
    var name := ButtonColorName(dropZones[zoneId], fullColor).value;
    RenderColors(dropZones, zoneId, fullColor, frameColor);
    TexturePlain(name);
    ConvertPlainUrl(origin, GetTextureImage(name).value);
  }

  /** Converting twice is converting once, for an origin that is not itself a local path. */
  lemma {:induction false} ConvertSrcIdempotent(origin: string, src: Option<string>)
    requires |origin| > 0 && origin[0] != '/'
    ensures ConvertSrc(origin, ConvertSrc(origin, src)) == ConvertSrc(origin, src)
  {
    if Truthy(src) && LocalImage(src.value) {
      var converted := origin + src.value;
      assert converted[0] != '/';
      NotStartsWith(converted, "/images/");
      NotStartsWith(converted, "/ican/images/");
    }
  }

  /** Every icon a rendered button shows is a local image, made absolute by the export. */
  lemma {:induction false} ConvertRenderedIcons(dropZones: ZoneMap, zoneId: string, fullColor: Option<string>, frameColor: Option<string>, origin: string)
    requires RenderZoneContent(dropZones, zoneId, fullColor, frameColor).Rendered?
    ensures var slots := RenderZoneContent(dropZones, zoneId, fullColor, frameColor).slots;
      forall m :: 0 <= m < |slots| && slots[m].Img? ==>
        StartsWith(slots[m].src, "/ican/images/") && ConvertSrc(origin, Some(slots[m].src)) == Some(origin + slots[m].src)
  {
    var zone := dropZones[zoneId];
    var slots := RenderZoneContent(dropZones, zoneId, fullColor, frameColor).slots;
    forall m | 0 <= m < |slots| && slots[m].Img?
      ensures StartsWith(slots[m].src, "/ican/images/")
    {
      var p := [S0, S1, S2][m];
      assert slots[m] == SlotView(zone, p);
      var file := zone.content[p].file;
      assert slots[m].src == "/ican/images/" + file;
    }
  }

  // ---------------------------------------------------------------------------
  // the component

  /** The `Frame` component's own state. */
  class FrameView {
    var highlightedZones: seq<string>

    constructor ()
      ensures highlightedZones == []
    {
      highlightedZones := [];
    }

    /**
     * `handleDrop(e, zoneId)`: read the button data, find the zone, check
     * the fit and the merge, clear the buttons in the way (all zones of
     * each), place the button, select it and report.
     */
    method HandleDrop(hook: DesignState, zoneId: string, t: Transfer)
      modifies this, hook
      ensures highlightedZones == []
      ensures var config := GridConfigFor(old(hook.gridType));
        var result := Drop(config, Board(config), old(hook.dropZones), zoneId, t);
        hook.dropZones == AfterDrop(old(hook.dropZones), result) &&
        hook.feedback == (if result.Ignored? then old(hook.feedback) else DropFeedback(result)) &&
        hook.selectedButton == (if result.Placed? then Some(zoneId) else old(hook.selectedButton))
      ensures hook.gridType == old(hook.gridType) && hook.fullColor == old(hook.fullColor) && hook.frameColor == old(hook.frameColor)
      ensures hook.SelectionsKept() && hook.WallKept()
    {
      highlightedZones := [];
      var config := GridConfigFor(hook.gridType);
      var allZones := AllZones(config);
      var dropZones := hook.dropZones;
      var received := Receive(t);
      if received.ParseFailed? {
        hook.ShowFeedback("Error parsing drop data", Failure);
        return;
      }
      if received.NoData? {
        hook.ShowFeedback("No button data found", Failure);
        return;
      }
      var data := received.data;
      var found := FindById(allZones, zoneId);
      if found.None? {
        return;
      }
      var zone := allZones[found.value];
      var dims := DropDimensions(data);
      if !Fits(zone, dims, config) {
        hook.ShowFeedback(FitMessage(dims, config), Failure);
        return;
      }
      var zonesToMerge := GetZonesToMerge(allZones, dropZones, zone, dims);
      if zonesToMerge.None? {
        hook.ShowFeedback("Cannot merge zones", Failure);
        return;
      }
      var ids := zonesToMerge.value;
      PlaceDropped(hook, zoneId, ids, Blank.(kind := data.buttonType, dimensions := Some(dims), zones := Some(ids)));
    }

    /**
     * The end of `handleDrop`: clear the buttons holding a covered zone
     * (all zones of each), place the new one, select it and report.
     */
    method PlaceDropped(hook: DesignState, zoneId: string, ids: seq<string>, record: ZoneData)
      modifies hook
      ensures hook.dropZones == AfterDrop(old(hook.dropZones), Placed(ids, record))
      ensures hook.selectedButton == Some(zoneId) && hook.feedback == DropFeedback(Placed(ids, record))
      ensures hook.gridType == old(hook.gridType) && hook.fullColor == old(hook.fullColor) && hook.frameColor == old(hook.frameColor)
      ensures hook.SelectionsKept() && hook.WallKept()
    {
      var dropZones := hook.dropZones;
      var occupied := Occupied(dropZones, ids);
      var i := 0;
      while i < |occupied|
        invariant 0 <= i <= |occupied|
        invariant hook.dropZones == Without(dropZones, AllTargets(dropZones, occupied[..i]))
        invariant hook.gridType == old(hook.gridType) && hook.fullColor == old(hook.fullColor) && hook.frameColor == old(hook.frameColor)
        invariant hook.SelectionsKept() && hook.WallKept()
      {
        var targets := ClearTargets(dropZones, occupied[i]);
        WithoutTwice(dropZones, AllTargets(dropZones, occupied[..i]), targets);
        ClearZones(hook, targets);
        assert occupied[..i + 1][..i] == occupied[..i];
        i := i + 1;
      }
      assert occupied[..i] == occupied;
      hook.PlaceButtonInZones(ids, record);
      hook.selectedButton := Some(zoneId);
      hook.ShowFeedback("Button placed successfully!", Success);
    }

    /** `targets.forEach(z => clearDropZone(z))`. */
    method ClearZones(hook: DesignState, targets: seq<string>)
      modifies hook
      ensures hook.dropZones == Without(old(hook.dropZones), targets)
      ensures hook.selectedButton == old(hook.selectedButton) && hook.feedback == old(hook.feedback)
      ensures hook.gridType == old(hook.gridType) && hook.fullColor == old(hook.fullColor) && hook.frameColor == old(hook.frameColor)
      ensures hook.SelectionsKept() && hook.WallKept()
    {
      ghost var dropZones := hook.dropZones;
      var j := 0;
      while j < |targets|
        invariant 0 <= j <= |targets|
        invariant hook.dropZones == Without(dropZones, targets[..j])
        invariant hook.selectedButton == old(hook.selectedButton) && hook.feedback == old(hook.feedback)
        invariant hook.gridType == old(hook.gridType) && hook.fullColor == old(hook.fullColor) && hook.frameColor == old(hook.frameColor)
        invariant hook.SelectionsKept() && hook.WallKept()
      {
        WithoutOneMore(dropZones, targets[..j], targets[j]);
        hook.ClearDropZone(targets[j]);
        assert targets[..j + 1] == targets[..j] + [targets[j]];
        j := j + 1;
      }
      assert targets[..j] == targets;
    }

    /**
     * `handleRemove(e, zoneId)`: clear every zone the button lists (or the
     * zone alone), drop the selection if it was this zone, and report.
     */
    method HandleRemove(hook: DesignState, zoneId: string)
      modifies hook
      ensures hook.dropZones == Removed(old(hook.dropZones), zoneId)
      ensures hook.selectedButton == if old(hook.selectedButton) == Some(zoneId) then None else old(hook.selectedButton)
      ensures hook.feedback == Some(Feedback("Button removed", Success))
      ensures hook.gridType == old(hook.gridType) && hook.fullColor == old(hook.fullColor) && hook.frameColor == old(hook.frameColor)
      ensures hook.SelectionsKept() && hook.WallKept()
    {
      ClearZones(hook, ClearTargets(hook.dropZones, zoneId));
      if hook.selectedButton == Some(zoneId) {
        hook.selectedButton := None;
      }
      hook.ShowFeedback("Button removed", Success);
    }
  }
}
