/**
 * The vanilla drag-and-drop placement engine (`DragDropManager`, drag-drop.js).
 *
 * The page holds a list of `.drop-zone` elements in document order; a zone is
 * identified by its index in that list. Each zone carries a class list, its
 * attributes and at most one dropped button element. Dropping a button whose
 * span is colSpan × rowSpan on a zone covers the rectangle starting at that
 * zone: the start zone shows the button and every other covered zone is
 * hidden and marked `data-merged-into` the start's `data-place`.
 */
module DragDrop {
  import opened Js
  import Grid

  /** The JSON payload of a drag (`e.dataTransfer` text): the part a drop reads. */
  datatype DragData = DragData(buttonType: string, classes: seq<string>, colSpan: Option<int>, rowSpan: Option<int>)

  /**
   * The attributes of a `.drop-zone` that the page's markup sets and no
   * method changes: `data-place`, `data-grid-row` and `data-grid-col`.
   */
  datatype Slot = Slot(place: string, gridRow: Option<string>, gridCol: Option<string>)

  /**
   * The attributes the engine writes on a zone: `data-button-type`,
   * `data-button-classes`, `data-merged-zones`, `data-merged-into`,
   * `data-col-span` and `data-row-span`.
   */
  datatype Attr = DataButtonType | DataButtonClasses | DataMergedZones | DataMergedInto | DataColSpan | DataRowSpan

  /** The changing part of a `.drop-zone`: its class list, the attributes above and the dropped button it holds. */
  datatype Zone = Zone(classes: set<string>, attrs: map<Attr, string>, button: Option<DragData>)

  datatype Config = Config(columns: nat, rows: nat)

  /** `this.gridConfigs[gridType]`; an unknown type reads as `undefined`. */
  function GridConfig(gridType: string): (r: Option<Config>)
    ensures r.Some? <==> gridType == "2x4" || gridType == "1x8" || gridType == "2x6"
    ensures r.Some? ==> r.value.columns * r.value.rows >= 8 && r.value.columns <= 2
  {
    if gridType == "2x4" then Some(Config(2, 4))
    else if gridType == "1x8" then Some(Config(1, 8))
    else if gridType == "2x6" then Some(Config(2, 6))
    else None
  }

  // ---------------------------------------------------------------------------
  // colours

  /** This file's colour table; note that `pure-gold` is `#fbbf24` here. */
  function GetColorValue(colorName: string): (r: string)
    ensures IsHexColor(r)
    ensures colorName == "pure-gold" ==> r == "#fbbf24"
    ensures colorName !in {"polar-white", "royal-silver", "anthracite-gray", "meteor-black", "texture-black",
                           "pure-gold", "antique-copper", "antique-bronze", "red-cherry", "green-leaf"}
            ==> r == "#ffffff"
  {
    if colorName == "polar-white" then "#ffffff"
    else if colorName == "royal-silver" then "#cbd5e1"
    else if colorName == "anthracite-gray" then "#475569"
    else if colorName == "meteor-black" then "#1e293b"
    else if colorName == "texture-black" then "#0f172a"
    else if colorName == "pure-gold" then "#fbbf24"
    else if colorName == "antique-copper" then "#b45309"
    else if colorName == "antique-bronze" then "#78350f"
    else if colorName == "red-cherry" then "#dc2626"
    else if colorName == "green-leaf" then "#16a34a"
    else "#ffffff"
  }

  // ---------------------------------------------------------------------------
  // spans and positions

  /** `classes.find(cls => cls.startsWith(prefix))`. */
  function FindPrefixed(classes: seq<string>, prefix: string): (r: Option<string>)
    ensures r.Some? ==> StartsWith(r.value, prefix) && r.value in classes
    ensures r.None? <==> forall k :: 0 <= k < |classes| ==> !StartsWith(classes[k], prefix)
    decreases |classes|
  {
    if |classes| == 0 then None
    else if StartsWith(classes[0], prefix) then Some(classes[0])
    else FindPrefixed(classes[1..], prefix)
  }

  /** The span named by the first class carrying `prefix`: `parseInt(rest) || 1`, or 1 when there is none. */
  function SpanFrom(classes: seq<string>, prefix: string): (r: int)
    requires |prefix| > 0
    ensures r != 0
    ensures FindPrefixed(classes, prefix).None? ==> r == 1
  {
    match FindPrefixed(classes, prefix)
    case None => 1
    case Some(cls) => Or1(ParseInt(RemoveFirstString(cls, prefix)))
  }

  function GetColSpan(classes: seq<string>): (r: int)
    ensures r != 0
    ensures (forall k :: 0 <= k < |classes| ==> !StartsWith(classes[k], "col-span-")) ==> r == 1
  {
    SpanFrom(classes, "col-span-")
  }

  function GetRowSpan(classes: seq<string>): (r: int)
    ensures r != 0
    ensures (forall k :: 0 <= k < |classes| ==> !StartsWith(classes[k], "row-span-")) ==> r == 1
  {
    SpanFrom(classes, "row-span-")
  }

  lemma {:induction false} FindPrefixedFirst(pre: seq<string>, cls: string, post: seq<string>, prefix: string)
    requires forall k :: 0 <= k < |pre| ==> !StartsWith(pre[k], prefix)
    requires StartsWith(cls, prefix)
    ensures FindPrefixed(pre + [cls] + post, prefix) == Some(cls)
  {
    if |pre| > 0 {
      assert (pre + [cls] + post)[1..] == pre[1..] + [cls] + post;
      FindPrefixedFirst(pre[1..], cls, post, prefix);
    } else {
      assert (pre + [cls] + post)[0] == cls;
    }
  }

  /**
   * The span a class list announces is read back from the first matching class:
   * `col-span-N` for a non-zero integer N gives N, and `col-span-0` or a
   * non-numeric suffix gives 1.
   */
  lemma {:induction false} SpanOfClass(pre: seq<string>, suffix: string, post: seq<string>, prefix: string)
    requires |prefix| > 0
    requires forall k :: 0 <= k < |pre| ==> !StartsWith(pre[k], prefix)
    ensures SpanFrom(pre + [prefix + suffix] + post, prefix) ==
            (if ParseInt(suffix).Some? && ParseInt(suffix).value != 0 then ParseInt(suffix).value else 1)
  {
    var cls := prefix + suffix;
    assert cls[..|prefix|] == prefix;
    FindPrefixedFirst(pre, cls, post, prefix);
    assert RemoveFirstString(cls, prefix) == suffix;
  }

  /** `getColSpan` reads back the span written as `col-span-${n}`. */
  lemma {:induction false} ColSpanRoundTrip(pre: seq<string>, n: int, post: seq<string>)
    requires n != 0
    requires forall k :: 0 <= k < |pre| ==> !StartsWith(pre[k], "col-span-")
    ensures GetColSpan(pre + ["col-span-" + IntToString(n)] + post) == n
  {
    SpanOfClass(pre, IntToString(n), post, "col-span-");
    ParseIntToString(n);
  }

  /** `getRowSpan` reads back the span written as `row-span-${n}`. */
  lemma {:induction false} RowSpanRoundTrip(pre: seq<string>, n: int, post: seq<string>)
    requires n != 0
    requires forall k :: 0 <= k < |pre| ==> !StartsWith(pre[k], "row-span-")
    ensures GetRowSpan(pre + ["row-span-" + IntToString(n)] + post) == n
  {
    SpanOfClass(pre, IntToString(n), post, "row-span-");
    ParseIntToString(n);
  }

  /** `parseInt` of an attribute that may be absent: `parseInt(null)` is NaN (`None`). */
  function ParseAttr(value: Option<string>): Option<int> {
    if value.Some? then ParseInt(value.value) else None
  }

  /** `getGridPosition`: row and column attributes, each `parseInt(...) || 1`. */
  function GetGridPosition(s: Slot): (p: Grid.Cell)
    ensures p.row != 0 && p.col != 0
  {
    Grid.Cell(Or1(ParseAttr(s.gridRow)), Or1(ParseAttr(s.gridCol)))
  }

  /** A zone whose row and column attributes are written as positive integers sits at that cell. */
  lemma {:induction false} GridPositionOfAttributes(s: Slot, row: nat, col: nat)
    requires row > 0 && col > 0
    requires s.gridRow == Some(IntToString(row)) && s.gridCol == Some(IntToString(col))
    ensures GetGridPosition(s) == Grid.Cell(row, col)
  {
    ParseIntToString(row);
    ParseIntToString(col);
  }

  /** `isValidDropZone`: refused exactly when the zone is merged into another zone than itself. */
  predicate IsValidDropZone(z: Zone, place: string) {
    !(DataMergedInto in z.attrs && z.attrs[DataMergedInto] != place)
  }

  // ---------------------------------------------------------------------------
  // the cells a drop covers

  /** The grid position of every zone, in document order. */
  function Positions(slots: seq<Slot>): (r: seq<Grid.Cell>)
    ensures |r| == |slots|
    decreases |slots|
  {
    if |slots| == 0 then [] else Positions(slots[..|slots| - 1]) + [GetGridPosition(slots[|slots| - 1])]
  }

  lemma {:induction false} PositionsAt(slots: seq<Slot>, k: nat)
    requires k < |slots|
    ensures Positions(slots)[k] == GetGridPosition(slots[k])
    decreases |slots|
  {
    if k < |slots| - 1 {
      PositionsAt(slots[..|slots| - 1], k);
    }
  }

  /**
   * The zone found at a cell is the first zone in document order whose own
   * row and column attributes give that cell, and none is found exactly when
   * no zone's attributes give it.
   */
  lemma {:induction false} ZoneAtCell(slots: seq<Slot>, cell: Grid.Cell)
    ensures var r := Grid.FindAt(Positions(slots), cell);
      (r.None? <==> forall k :: 0 <= k < |slots| ==> GetGridPosition(slots[k]) != cell) &&
      (r.Some? ==> r.value < |slots| && GetGridPosition(slots[r.value]) == cell &&
                   forall k :: 0 <= k < r.value ==> GetGridPosition(slots[k]) != cell)
  {
    var positions := Positions(slots);
    forall k | 0 <= k < |slots| ensures positions[k] == GetGridPosition(slots[k]) {
      PositionsAt(slots, k);
    }
    if Grid.FindAt(positions, cell).Some? {
      Grid.FindAtFirst(positions, cell);
    }
  }

  /** What `getZonesToMerge` can return: the covered zones, `null`, or a thrown TypeError (unknown grid type). */
  datatype Merge = Cells(covered: seq<nat>) | Null | Throws

  /** The specification of `getZonesToMerge` for a drop at `start`. */
  function ZonesToMerge(positions: seq<Grid.Cell>, gridType: string, start: Grid.Cell, data: DragData): Merge {
    var colSpan := Or1(data.colSpan);
    var rowSpan := Or1(data.rowSpan);
    match GridConfig(gridType)
    case None => Throws
    case Some(cfg) =>
      if start.row + rowSpan - 1 > cfg.rows || start.col + colSpan - 1 > cfg.columns then Null
      else
        match Grid.LookupAll(positions, Grid.RectCells(start.row, start.col, Grid.Count(rowSpan), Grid.Count(colSpan)))
        case None => Null
        case Some(found) => if |found| == colSpan * rowSpan then Cells(found) else Null
  }

  /** The rectangle of a drop at `start` leaves the grid. */
  predicate OutOfBounds(start: Grid.Cell, data: DragData, cfg: Config) {
    start.row + Or1(data.rowSpan) - 1 > cfg.rows || start.col + Or1(data.colSpan) - 1 > cfg.columns
  }

  /** The loops' verdict once every row has been scanned. */
  lemma {:induction false} MergeScanned(positions: seq<Grid.Cell>, gridType: string, start: Grid.Cell, data: DragData, found: seq<nat>)
    requires GridConfig(gridType).Some?
    requires start.row + Or1(data.rowSpan) - 1 <= GridConfig(gridType).value.rows
    requires start.col + Or1(data.colSpan) - 1 <= GridConfig(gridType).value.columns
    requires Grid.Scan(positions, start.row, start.col, Grid.Count(Or1(data.rowSpan)), Grid.Count(Or1(data.colSpan)), 0) == Some(found)
    ensures ZonesToMerge(positions, gridType, start, data) ==
            if |found| == Or1(data.colSpan) * Or1(data.rowSpan) then Cells(found) else Null
  {
    Grid.ScanFull(positions, start.row, start.col, Grid.Count(Or1(data.rowSpan)), Grid.Count(Or1(data.colSpan)));
  }

  /** The loops' verdict at the first cell with no zone. */
  lemma {:induction false} MergeMissing(positions: seq<Grid.Cell>, gridType: string, start: Grid.Cell, data: DragData, i: nat, j: nat)
    requires GridConfig(gridType).Some?
    requires start.row + Or1(data.rowSpan) - 1 <= GridConfig(gridType).value.rows
    requires start.col + Or1(data.colSpan) - 1 <= GridConfig(gridType).value.columns
    requires i < Or1(data.rowSpan) && j < Or1(data.colSpan)
    requires Grid.Cell(start.row + i, start.col + j) !in positions
    ensures ZonesToMerge(positions, gridType, start, data) == Null
  {
    Grid.LookupAllMissing(positions, start.row, start.col, Grid.Count(Or1(data.rowSpan)), Grid.Count(Or1(data.colSpan)), i, j);
  }

  /** A drop whose rectangle leaves the grid is refused. */
  lemma {:induction false} MergeOutOfBounds(positions: seq<Grid.Cell>, gridType: string, start: Grid.Cell, data: DragData)
    requires GridConfig(gridType).Some?
    requires start.row + Or1(data.rowSpan) - 1 > GridConfig(gridType).value.rows ||
             start.col + Or1(data.colSpan) - 1 > GridConfig(gridType).value.columns
    ensures ZonesToMerge(positions, gridType, start, data) == Null
  {
  }

  /**
   * A successful merge lists exactly colSpan × rowSpan zones, one per cell of
   * the rectangle in row-major order (entry m covers row m / colSpan and column
   * m % colSpan of the rectangle), and the rectangle lies inside the grid.
   */
  lemma {:induction false} MergeCovers(positions: seq<Grid.Cell>, gridType: string, start: Grid.Cell, data: DragData)
    requires ZonesToMerge(positions, gridType, start, data).Cells?
    ensures var cs, rs := Or1(data.colSpan), Or1(data.rowSpan);
      var covered := ZonesToMerge(positions, gridType, start, data).covered;
      cs > 0 && rs > 0 && |covered| == cs * rs &&
      GridConfig(gridType).Some? &&
      start.row + rs - 1 <= GridConfig(gridType).value.rows &&
      start.col + cs - 1 <= GridConfig(gridType).value.columns &&
      forall m :: 0 <= m < |covered| ==>
        covered[m] < |positions| && positions[covered[m]] == Grid.Cell(start.row + m / cs, start.col + m % cs)
  {
    var cs, rs := Or1(data.colSpan), Or1(data.rowSpan);
    var cells := Grid.RectCells(start.row, start.col, Grid.Count(rs), Grid.Count(cs));
    var covered := ZonesToMerge(positions, gridType, start, data).covered;
    Grid.RectCellsLength(start.row, start.col, Grid.Count(rs), Grid.Count(cs));
    assert Grid.LookupAll(positions, cells) == Some(covered);
    Grid.LookupAllFinds(positions, cells);
    assert cs > 0 && rs > 0 by {
      if cs < 0 || rs < 0 {
        assert |covered| == 0;
        NonZeroProduct(cs, rs);
      }
    }
    forall m | 0 <= m < |covered|
      ensures covered[m] < |positions| && positions[covered[m]] == Grid.Cell(start.row + m / cs, start.col + m % cs)
    {
      Grid.RectCellsIndex(start.row, start.col, rs, cs, m);
    }
  }

  lemma {:induction false} NonZeroProduct(a: int, b: int)
    requires a != 0 && b != 0
    ensures a * b != 0
  {
  }

  /** With the zones on distinct cells, the first covered zone is the zone dropped on. */
  lemma {:induction false} MergeStartsAtDropZone(positions: seq<Grid.Cell>, gridType: string, s: nat, data: DragData)
    requires s < |positions| && Grid.Distinct(positions)
    requires ZonesToMerge(positions, gridType, positions[s], data).Cells?
    ensures ZonesToMerge(positions, gridType, positions[s], data).covered[0] == s
  {
    MergeCovers(positions, gridType, positions[s], data);
  }

  /** When every cell of an in-bounds rectangle has a zone, the merge succeeds. */
  lemma {:induction false} MergeSucceeds(positions: seq<Grid.Cell>, gridType: string, start: Grid.Cell, data: DragData)
    requires GridConfig(gridType).Some?
    requires Or1(data.colSpan) > 0 && Or1(data.rowSpan) > 0
    requires start.row + Or1(data.rowSpan) - 1 <= GridConfig(gridType).value.rows
    requires start.col + Or1(data.colSpan) - 1 <= GridConfig(gridType).value.columns
    requires forall cell: Grid.Cell ::
               (start.row <= cell.row < start.row + Or1(data.rowSpan) && start.col <= cell.col < start.col + Or1(data.colSpan))
               ==> cell in positions
    ensures ZonesToMerge(positions, gridType, start, data).Cells?
  {
    var cs, rs := Or1(data.colSpan), Or1(data.rowSpan);
    var cells := Grid.RectCells(start.row, start.col, rs, cs);
    Grid.RectCellsLength(start.row, start.col, rs, cs);
    Grid.LookupAllFinds(positions, cells);
    forall m | 0 <= m < |cells|
      ensures cells[m] in positions
    {
      Grid.RectCellsMembership(start.row, start.col, rs, cs, cells[m]);
    }
  }

  // ---------------------------------------------------------------------------
  // zone states

  /** The `data-place` of zone `k`. */
  function PlaceAt(slots: seq<Slot>, k: nat): string
    requires k < |slots|
  {
    slots[k].place
  }

  /** No two zones share a `data-place`. */
  predicate PlacesDistinct(slots: seq<Slot>) {
    forall k, m {:trigger PlaceAt(slots, k), PlaceAt(slots, m)} :: 0 <= k < m < |slots| ==> PlaceAt(slots, k) != PlaceAt(slots, m)
  }

  /** Two different zones of a page with unique places have different places. */
  lemma {:induction false} PlacesDiffer(slots: seq<Slot>, k: nat, m: nat)
    requires PlacesDistinct(slots) && k < |slots| && m < |slots| && k != m
    ensures slots[k].place != slots[m].place
  {
    if k < m {
      assert PlaceAt(slots, k) != PlaceAt(slots, m);
    } else {
      assert PlaceAt(slots, m) != PlaceAt(slots, k);
    }
  }

  /** `names.includes(place)`: some name in the list is `place`. */
  predicate Lists(names: seq<string>, place: string)
    decreases |names|
  {
    |names| > 0 && (Lists(names[..|names| - 1], place) || names[|names| - 1] == place)
  }

  /** A list includes a place exactly when the place is one of its elements. */
  lemma {:induction false} ListsIn(names: seq<string>, place: string)
    ensures Lists(names, place) <==> place in names
    decreases |names|
  {
    if |names| > 0 {
      var n := |names| - 1;
      ListsIn(names[..n], place);
      assert names == names[..n] + [names[n]];
    }
  }

  /** `document.querySelector('[data-place="…"]')`: the first zone with that place. */
  function FindPlace(slots: seq<Slot>, place: string): (r: Option<nat>)
    ensures r.Some? ==> r.value < |slots| && slots[r.value].place == place
    ensures r.None? <==> forall k :: 0 <= k < |slots| ==> slots[k].place != place
    decreases |slots|
  {
    if |slots| == 0 then None
    else if slots[0].place == place then Some(0)
    else match FindPlace(slots[1..], place)
      case None => None
      case Some(k) => Some(k + 1)
  }

  /** A prefix of a page with unique places has unique places. */
  lemma PlacesDistinctPrefix(slots: seq<Slot>, n: nat)
    requires PlacesDistinct(slots) && n <= |slots|
    ensures PlacesDistinct(slots[..n])
  {
    forall k, m | 0 <= k < m < n
      ensures PlaceAt(slots[..n], k) != PlaceAt(slots[..n], m)
    {
      PlacesDiffer(slots, k, m);
    }
  }

  /** On a page with unique places the zone found is the one with that place. */
  lemma {:induction false} FindPlaceUnique(slots: seq<Slot>, k: nat)
    requires PlacesDistinct(slots) && k < |slots|
    ensures FindPlace(slots, slots[k].place) == Some(k)
  {
    var r := FindPlace(slots, slots[k].place);
    assert r.Some?;
    if r.value != k {
      PlacesDiffer(slots, r.value, k);
    }
  }

  /** A zone with its `drag-over` highlight removed. */
  function Unhighlighted(z: Zone): Zone {
    z.(classes := z.classes - {"drag-over"})
  }

  /** A zone no longer hidden behind another zone's button. */
  function Unmerged(z: Zone): (r: Zone)
    ensures "merged-hidden" !in r.classes && DataMergedInto !in r.attrs
    ensures r.button == z.button && MergedPlaces(r) == MergedPlaces(z)
  {
    z.(classes := z.classes - {"merged-hidden"}, attrs := z.attrs - {DataMergedInto})
  }

  /** An un-merged zone accepts a drop whatever the drag started from. */
  lemma {:induction false} UnmergedAcceptsAll(z: Zone, place: string)
    ensures IsValidDropZone(Unmerged(z), place)
  {
  }

  /** Un-merging an un-merged zone changes nothing. */
  lemma {:induction false} UnmergedIdempotent(z: Zone)
    ensures Unmerged(Unmerged(z)) == Unmerged(z)
  {
    assert Unmerged(z).classes - {"merged-hidden"} == Unmerged(z).classes;
    assert Unmerged(z).attrs - {DataMergedInto} == Unmerged(z).attrs;
  }

  /** The places listed in a truthy `data-merged-zones`, or none. */
  function MergedPlaces(z: Zone): (r: seq<string>)
    ensures DataMergedZones !in z.attrs ==> r == []
  {
    if DataMergedZones in z.attrs && z.attrs[DataMergedZones] != "" then Split(z.attrs[DataMergedZones], ',')
    else []
  }

  /** Span classes `clearDropZone` removes: all but exactly `col-span-1/2` and `row-span-1/2`. */
  function DynamicSpanClasses(classes: set<string>): (r: set<string>)
    ensures r <= classes
  {
    set c | c in classes && (StartsWith(c, "col-span-") || StartsWith(c, "row-span-")) &&
            c !in {"col-span-1", "col-span-2", "row-span-1", "row-span-2"}
  }

  /** A class is removed by `clearDropZone` exactly when it is a span class other than `col-span-1/2` and `row-span-1/2`. */
  lemma {:induction false} DynamicSpanClassesExact(classes: set<string>, c: string)
    ensures c in DynamicSpanClasses(classes) <==>
      c in classes && (StartsWith(c, "col-span-") || StartsWith(c, "row-span-")) &&
      c != "col-span-1" && c != "col-span-2" && c != "row-span-1" && c != "row-span-2"
  {
  }

  /**
   * A zone after `clearDropZone`: no button, no content marker, no button or
   * span attributes and no merge list; every other class and its own
   * `data-merged-into` are kept.
   */
  function Cleared(z: Zone): (r: Zone)
    ensures r.button.None? && "has-content" !in r.classes
    ensures DataButtonType !in r.attrs && DataButtonClasses !in r.attrs
    ensures DataColSpan !in r.attrs && DataRowSpan !in r.attrs
    ensures MergedPlaces(r) == []
    ensures (DataMergedInto in r.attrs <==> DataMergedInto in z.attrs) &&
            (DataMergedInto in r.attrs ==> r.attrs[DataMergedInto] == z.attrs[DataMergedInto])
  {
    var emptied := z.(button := None, classes := z.classes - {"has-content"},
                      attrs := z.attrs - {DataButtonType, DataButtonClasses});
    var unlisted := if MergedPlaces(z) != [] then emptied.(attrs := emptied.attrs - {DataMergedZones}) else emptied;
    unlisted.(attrs := unlisted.attrs - {DataColSpan, DataRowSpan},
              classes := unlisted.classes - DynamicSpanClasses(unlisted.classes))
  }

  /** `clearDropZone` keeps a class exactly when it is not the content marker and not a span class it removes. */
  lemma {:induction false} ClearedClasses(z: Zone, c: string)
    ensures c in Cleared(z).classes <==> c in z.classes && c != "has-content" && c !in DynamicSpanClasses(z.classes)
  {
    DynamicSpanClassesExact(z.classes, c);
    DynamicSpanClassesExact(z.classes - {"has-content"}, c);
  }

  /** A covered zone after placement: hidden and pointing at the start's place. */
  function MarkMerged(z: Zone, startPlace: string): (r: Zone)
    ensures "merged-hidden" in r.classes && DataMergedInto in r.attrs && r.attrs[DataMergedInto] == startPlace
    ensures r.button == z.button && MergedPlaces(r) == MergedPlaces(z)
  {
    z.(classes := z.classes + {"merged-hidden"}, attrs := z.attrs[DataMergedInto := startPlace])
  }

  /** A zone merged behind a start accepts only drags from that start, and un-merging it undoes the merge. */
  lemma {:induction false} MarkMergedState(z: Zone, startPlace: string, place: string)
    ensures IsValidDropZone(MarkMerged(z, startPlace), place) <==> place == startPlace
    ensures Unmerged(MarkMerged(z, startPlace)) == Unmerged(z)
  {
    assert Unmerged(MarkMerged(z, startPlace)).attrs == Unmerged(z).attrs;
  }

  /** Marking a zone twice behind the same start is marking it once. */
  lemma {:induction false} MarkMergedIdempotent(z: Zone, startPlace: string)
    ensures MarkMerged(MarkMerged(z, startPlace), startPlace) == MarkMerged(z, startPlace)
  {
    assert MarkMerged(z, startPlace).classes + {"merged-hidden"} == MarkMerged(z, startPlace).classes;
  }

  /** A start zone's class list: visible, and carrying exactly the span classes of the spans above 1. */
  predicate ShowsSpans(classes: set<string>, colSpan: int, rowSpan: int) {
    "hidden" !in classes &&
    (forall c :: c in classes && StartsWith(c, "col-span-") ==> colSpan > 1 && c == "col-span-" + IntToString(colSpan)) &&
    (forall c :: c in classes && StartsWith(c, "row-span-") ==> rowSpan > 1 && c == "row-span-" + IntToString(rowSpan)) &&
    (colSpan > 1 ==> "col-span-" + IntToString(colSpan) in classes) &&
    (rowSpan > 1 ==> "row-span-" + IntToString(rowSpan) in classes)
  }

  /** The start zone's class list after placement: visible, its span classes replaced by the new spans. */
  function SpannedClasses(classes: set<string>, colSpan: int, rowSpan: int): set<string> {
    var kept := set c | c in classes && c != "hidden" && !StartsWith(c, "col-span-") && !StartsWith(c, "row-span-");
    var withCol := if colSpan > 1 then kept + {"col-span-" + IntToString(colSpan)} else kept;
    if rowSpan > 1 then withCol + {"row-span-" + IntToString(rowSpan)} else withCol
  }

  /**
   * The start zone keeps exactly its classes that are neither `hidden` nor a
   * span class, and gains the span classes of the spans above 1.
   */
  lemma {:induction false} SpannedClassesExact(classes: set<string>, colSpan: int, rowSpan: int, c: string)
    ensures c in SpannedClasses(classes, colSpan, rowSpan) <==>
      (c in classes && c != "hidden" && !StartsWith(c, "col-span-") && !StartsWith(c, "row-span-")) ||
      (colSpan > 1 && c == "col-span-" + IntToString(colSpan)) || (rowSpan > 1 && c == "row-span-" + IntToString(rowSpan))
  {
  }

  /** The start zone's classes after placement show exactly the new spans. */
  lemma {:induction false} SpannedClassesShowSpans(classes: set<string>, colSpan: int, rowSpan: int)
    ensures ShowsSpans(SpannedClasses(classes, colSpan, rowSpan), colSpan, rowSpan)
  {
    var r := SpannedClasses(classes, colSpan, rowSpan);
    NotStartsWith("col-span-" + IntToString(colSpan), "row-span-");
    NotStartsWith("row-span-" + IntToString(rowSpan), "col-span-");
    assert StartsWith("col-span-" + IntToString(colSpan), "col-span-");
    assert StartsWith("row-span-" + IntToString(rowSpan), "row-span-");
  }

  /** Marking the start zone as holding a selected button keeps its spans. */
  lemma {:induction false} ShowsSpansMarked(classes: set<string>, colSpan: int, rowSpan: int)
    requires ShowsSpans(classes, colSpan, rowSpan)
    ensures ShowsSpans(classes + {"has-content", "selected"}, colSpan, rowSpan)
  {
    NotStartsWith("has-content", "col-span-");
    NotStartsWith("selected", "col-span-");
    NotStartsWith("has-content", "row-span-");
    NotStartsWith("selected", "row-span-");
  }

  /** The start zone's attributes record the button type, its classes, the covered places and the spans. */
  predicate RecordsButton(attrs: map<Attr, string>, data: DragData, places: seq<string>, colSpan: int, rowSpan: int) {
    DataButtonType in attrs && attrs[DataButtonType] == data.buttonType &&
    DataButtonClasses in attrs && attrs[DataButtonClasses] == Join(data.classes, ' ') &&
    DataMergedZones in attrs && attrs[DataMergedZones] == Join(places, ',') &&
    DataColSpan in attrs && attrs[DataColSpan] == IntToString(colSpan) &&
    DataRowSpan in attrs && attrs[DataRowSpan] == IntToString(rowSpan)
  }

  /** The attributes written on the start zone at the end of a placement; the others are kept. */
  function ButtonAttrs(attrs: map<Attr, string>, data: DragData, places: seq<string>, colSpan: int, rowSpan: int): (r: map<Attr, string>)
    ensures RecordsButton(r, data, places, colSpan, rowSpan)
    ensures r.Keys == attrs.Keys + {DataButtonType, DataButtonClasses, DataMergedZones, DataColSpan, DataRowSpan}
    ensures DataMergedInto in attrs ==> r[DataMergedInto] == attrs[DataMergedInto]
  {
    attrs[DataButtonType := data.buttonType]
         [DataButtonClasses := Join(data.classes, ' ')]
         [DataMergedZones := Join(places, ',')]
         [DataColSpan := IntToString(colSpan)]
         [DataRowSpan := IntToString(rowSpan)]
  }

  /** A covered zone behind the start zone at `place`: hidden, empty and pointing at it. */
  predicate HiddenBehind(z: Zone, place: string) {
    "merged-hidden" in z.classes && z.button.None? && DataMergedInto in z.attrs && z.attrs[DataMergedInto] == place
  }

  /** Deselecting a hidden zone keeps it hidden. */
  lemma {:induction false} HiddenBehindUnselected(z: Zone, place: string)
    requires HiddenBehind(z, place)
    ensures HiddenBehind(z.(classes := z.classes - {"selected"}), place)
  {
  }

  /** `zonesToMerge.map(z => z.getAttribute('data-place'))`. */
  function PlacesOf(slots: seq<Slot>, cells: seq<nat>): (r: seq<string>)
    requires forall m :: 0 <= m < |cells| ==> cells[m] < |slots|
    ensures |r| == |cells| && forall m :: 0 <= m < |cells| ==> r[m] == slots[cells[m]].place
    decreases |cells|
  {
    if |cells| == 0 then [] else PlacesOf(slots, cells[..|cells| - 1]) + [slots[cells[|cells| - 1]].place]
  }

  /**
   * Clearing a start zone after a placement un-merges exactly the places the
   * placement recorded, provided no place contains a comma.
   */
  lemma {:induction false} MergedPlacesRoundTrip(z: Zone, data: DragData, places: seq<string>, colSpan: int, rowSpan: int)
    requires |places| >= 1 && NoSeparator(places, ',') && places != [""]
    ensures MergedPlaces(z.(attrs := ButtonAttrs(z.attrs, data, places, colSpan, rowSpan))) == places
  {
    SplitJoin(places, ',');
  }

  /** The zone at `pos` after `updateGridLayout`: emptied, un-merged, and shown or hidden by the grid type. */
  function LaidOut(z: Zone, pos: Grid.Cell, gridType: string): (r: Zone)
    ensures r.button.None? && "merged-hidden" !in r.classes && "has-content" !in r.classes
    ensures DataMergedInto !in r.attrs
    ensures GridConfig(gridType).None? ==> ("hidden" in r.classes <==> "hidden" in z.classes)
    ensures r.attrs == z.attrs - {DataMergedInto}
    ensures r.classes - {"hidden"} == z.classes - {"merged-hidden", "has-content", "hidden"}
  {
    var reset := z.(classes := z.classes - {"merged-hidden", "has-content"}, attrs := z.attrs - {DataMergedInto}, button := None);
    var show :=
      if gridType == "2x4" then Some(pos.row <= 4 && pos.col <= 2)
      else if gridType == "1x8" then Some(pos.col == 1 && pos.row <= 8)
      else if gridType == "2x6" then Some(pos.row <= 6 && pos.col <= 2)
      else None;
    match show
    case None => reset
    case Some(true) => reset.(classes := reset.classes - {"hidden"})
    case Some(false) => reset.(classes := reset.classes + {"hidden"})
  }

  /**
   * For the known grid types the visibility rules of `updateGridLayout` agree
   * with the grid configuration: a zone in a positive column is shown exactly
   * when its cell lies inside columns × rows.
   */
  lemma {:induction false} LayoutShowsConfiguredGrid(z: Zone, pos: Grid.Cell, gridType: string)
    requires GridConfig(gridType).Some? && pos.col >= 1
    ensures var cfg := GridConfig(gridType).value;
      "hidden" !in LaidOut(z, pos, gridType).classes <==> pos.row <= cfg.rows && pos.col <= cfg.columns
  {
  }

  /** The entry `getLayoutState` records for a zone holding a button. */
  datatype LayoutEntry = LayoutEntry(buttonType: string, classes: seq<string>)

  function EntryOf(z: Zone): LayoutEntry
    requires DataButtonType in z.attrs
  {
    LayoutEntry(z.attrs[DataButtonType],
                if DataButtonClasses in z.attrs then Split(z.attrs[DataButtonClasses], ' ') else [])
  }

  predicate HasButtonType(z: Zone) {
    DataButtonType in z.attrs && z.attrs[DataButtonType] != ""
  }

  /** `getLayoutState`: every zone holding a button, by place; a later zone with the same place overwrites. */
  function LayoutState(slots: seq<Slot>, zones: seq<Zone>): map<string, LayoutEntry>
    requires |slots| == |zones|
    decreases |zones|
  {
    if |zones| == 0 then map[]
    else
      var n := |zones| - 1;
      var before := LayoutState(slots[..n], zones[..n]);
      if HasButtonType(zones[n]) then before[slots[n].place := EntryOf(zones[n])] else before
  }

  /** The state has an entry for a place exactly when some zone there holds a button. */
  lemma {:induction false} LayoutStateKeys(slots: seq<Slot>, zones: seq<Zone>, key: string)
    requires |slots| == |zones|
    ensures key in LayoutState(slots, zones) <==> exists k :: 0 <= k < |zones| && HasButtonType(zones[k]) && slots[k].place == key
    decreases |zones|
  {
    if |zones| > 0 {
      var n := |zones| - 1;
      LayoutStateKeys(slots[..n], zones[..n], key);
      assert forall k :: 0 <= k < n ==> zones[..n][k] == zones[k] && slots[..n][k] == slots[k];
    }
  }

  /** With distinct places every zone holding a button contributes its own entry. */
  lemma {:induction false} LayoutStateEntry(slots: seq<Slot>, zones: seq<Zone>, k: nat)
    requires |slots| == |zones| && PlacesDistinct(slots) && k < |zones| && HasButtonType(zones[k])
    ensures slots[k].place in LayoutState(slots, zones) && LayoutState(slots, zones)[slots[k].place] == EntryOf(zones[k])
    decreases |zones|
  {
    var n := |zones| - 1;
    if k < n {
      var before := LayoutState(slots[..n], zones[..n]);
      PlacesDistinctPrefix(slots, n);
      assert zones[..n][k] == zones[k] && slots[..n][k] == slots[k];
      LayoutStateEntry(slots[..n], zones[..n], k);
      PlacesDiffer(slots, n, k);
      assert LayoutState(slots, zones) == if HasButtonType(zones[n]) then before[slots[n].place := EntryOf(zones[n])] else before;
    }
  }

  /** Saving a layout and reading it back: a placed button's type and classes come back unchanged. */
  lemma {:induction false} LayoutStateRoundTrip(z: Zone, data: DragData, places: seq<string>, colSpan: int, rowSpan: int)
    requires data.buttonType != "" && |data.classes| >= 1 && NoSeparator(data.classes, ' ')
    ensures var placed := z.(attrs := ButtonAttrs(z.attrs, data, places, colSpan, rowSpan));
      HasButtonType(placed) && EntryOf(placed) == LayoutEntry(data.buttonType, data.classes)
  {
    SplitJoin(data.classes, ' ');
  }

  // ---------------------------------------------------------------------------
  // the page: every zone's state after each step

  /** Every zone without its `drag-over` highlight. */
  function Unhighlight(zones: seq<Zone>): (r: seq<Zone>)
    ensures |r| == |zones|
    ensures forall k :: 0 <= k < |r| ==> "drag-over" !in r[k].classes
  {
    seq(|zones|, k requires 0 <= k < |zones| => Unhighlighted(zones[k]))
  }

  /** Zone `k` after `clearDropZone` on zone `i`. */
  function ClearedAtZone(slots: seq<Slot>, zones: seq<Zone>, i: nat, k: nat): Zone
    requires |zones| == |slots| && i < |zones| && k < |zones|
  {
    if k == i then Cleared(zones[i])
    else if Lists(MergedPlaces(zones[i]), slots[k].place) then Unmerged(zones[k])
    else zones[k]
  }

  /** The page after `clearDropZone` on zone `i`. */
  function ClearedAt(slots: seq<Slot>, zones: seq<Zone>, i: nat): (r: seq<Zone>)
    requires |zones| == |slots| && i < |zones|
    ensures |r| == |zones| && r[i] == Cleared(zones[i])
  {
    UnmergedNamed(slots, zones, i, MergedPlaces(zones[i]))[i := Cleared(zones[i])]
  }

  /**
   * The `forEach` of `clearDropZone(i)` over the places its zone lists: the
   * zone found by each place, unless it is zone `i` itself, is un-merged.
   */
  function UnmergedNamed(slots: seq<Slot>, zones: seq<Zone>, i: nat, names: seq<string>): (r: seq<Zone>)
    requires |zones| == |slots|
    ensures |r| == |zones| && (i < |zones| ==> r[i] == zones[i])
    decreases |names|
  {
    if names == [] then zones
    else
      var zs := UnmergedNamed(slots, zones, i, names[..|names| - 1]);
      match FindPlace(slots, names[|names| - 1])
      case Some(j) => if j != i then zs[j := Unmerged(zs[j])] else zs
      case None => zs
  }

  /** With unique places, un-merging by name touches exactly the zones whose places are named. */
  lemma {:induction false} UnmergedNamedEntry(slots: seq<Slot>, zones: seq<Zone>, i: nat, names: seq<string>, k: nat)
    requires |zones| == |slots| && PlacesDistinct(slots) && k < |zones| && k != i
    ensures UnmergedNamed(slots, zones, i, names)[k] == if Lists(names, slots[k].place) then Unmerged(zones[k]) else zones[k]
    decreases |names|
  {
    if names != [] {
      var n := |names| - 1;
      UnmergedNamedEntry(slots, zones, i, names[..n], k);
      UnmergedIdempotent(zones[k]);
      match FindPlace(slots, names[n])
      case Some(j) =>
        if j != k && names[n] == slots[k].place {
          PlacesDiffer(slots, j, k);
        }
      case None =>
    }
  }

  /** With unique places `clearDropZone(i)` changes each zone as `ClearedAtZone` says. */
  lemma ClearedAtEntry(slots: seq<Slot>, zones: seq<Zone>, i: nat, k: nat)
    requires |zones| == |slots| && PlacesDistinct(slots) && i < |zones| && k < |zones|
    ensures ClearedAt(slots, zones, i)[k] == ClearedAtZone(slots, zones, i, k)
  {
    if k != i {
      UnmergedNamedEntry(slots, zones, i, MergedPlaces(zones[i]), k);
    }
  }

  /** The zone a zone is merged into, found by the place in its `data-merged-into`. */
  function HostOf(slots: seq<Slot>, z: Zone): (r: Option<nat>)
    ensures r.Some? ==> r.value < |slots| && DataMergedInto in z.attrs && slots[r.value].place == z.attrs[DataMergedInto]
    ensures DataMergedInto !in z.attrs ==> r.None?
  {
    if DataMergedInto in z.attrs then FindPlace(slots, z.attrs[DataMergedInto]) else None
  }

  /** The page after the button that zone `k` is merged into, if any, is cleared. */
  function ParentCleared(slots: seq<Slot>, zones: seq<Zone>, k: nat): (r: seq<Zone>)
    requires |zones| == |slots| && k < |zones|
    ensures |r| == |zones|
    ensures HostOf(slots, zones[k]).None? ==> r == zones
  {
    match HostOf(slots, zones[k])
    case None => zones
    case Some(parent) => ClearedAt(slots, zones, parent)
  }

  /**
   * The page after the first step of a placement for one covered zone `k`:
   * a button starting at `k` is cleared, then the button `k` is merged into,
   * then whatever `k` still holds.
   */
  function OverlapCleared(slots: seq<Slot>, zones: seq<Zone>, k: nat): (r: seq<Zone>)
    requires |zones| == |slots| && k < |zones|
    ensures |r| == |zones| && r[k].button.None?
  {
    var own := if DataMergedZones in zones[k].attrs then ClearedAt(slots, zones, k) else zones;
    var freed := ParentCleared(slots, own, k);
    freed[k := freed[k].(button := None)]
  }

  /** The page after the first step of a placement has handled the covered zones from the `m`-th on, in order. */
  function OverlapsCleared(slots: seq<Slot>, zones: seq<Zone>, covered: seq<nat>, m: nat): (r: seq<Zone>)
    requires |zones| == |slots| && m <= |covered| && forall m :: 0 <= m < |covered| ==> covered[m] < |zones|
    ensures |r| == |zones|
    decreases |covered| - m
  {
    if m == |covered| then zones
    else OverlapsCleared(slots, OverlapCleared(slots, zones, covered[m]), covered, m + 1)
  }

  /** The page after the second step: every covered zone but the start is hidden behind it. */
  function HiddenAt(slots: seq<Slot>, zones: seq<Zone>, start: nat, covered: seq<nat>): (r: seq<Zone>)
    requires |zones| == |slots| && start < |zones|
    ensures |r| == |zones|
  {
    seq(|zones|, k requires 0 <= k < |zones| => HiddenAtZone(slots, zones, start, covered, k))
  }

  /** Zone `k` after the second step of a placement. */
  function HiddenAtZone(slots: seq<Slot>, zones: seq<Zone>, start: nat, covered: seq<nat>, k: nat): Zone
    requires |zones| == |slots| && start < |zones| && k < |zones|
  {
    if k in covered && k != start then MarkMerged(zones[k], slots[start].place) else zones[k]
  }

  /** A zone that is not the selected one. */
  function Deselected(z: Zone): (r: Zone)
    ensures "selected" !in r.classes
  {
    z.(classes := z.classes - {"selected"})
  }

  /** The start zone at the end of a placement. */
  function ShownStart(z: Zone, data: DragData, places: seq<string>): Zone {
    var colSpan, rowSpan := Or1(data.colSpan), Or1(data.rowSpan);
    z.(classes := SpannedClasses(z.classes, colSpan, rowSpan) + {"has-content", "selected"},
       button := Some(data),
       attrs := ButtonAttrs(z.attrs, data, places, colSpan, rowSpan))
  }

  /** The page after the last step: the start shows the button and is the only selected zone. */
  function ShownAt(zones: seq<Zone>, start: nat, data: DragData, places: seq<string>): (r: seq<Zone>)
    requires start < |zones|
    ensures |r| == |zones|
  {
    seq(|zones|, k requires 0 <= k < |zones| => ShownAtZone(zones, start, data, places, k))
  }

  /** Zone `k` after the last step of a placement. */
  function ShownAtZone(zones: seq<Zone>, start: nat, data: DragData, places: seq<string>, k: nat): Zone
    requires start < |zones| && k < |zones|
  {
    if k == start then ShownStart(zones[k], data, places) else Deselected(zones[k])
  }

  /** The page after `placeButtonInMergedZones(start, covered, data)`. */
  function Placement(slots: seq<Slot>, zones: seq<Zone>, start: nat, covered: seq<nat>, data: DragData): (r: seq<Zone>)
    requires |zones| == |slots| && start < |zones| && forall m :: 0 <= m < |covered| ==> covered[m] < |zones|
    ensures |r| == |zones|
  {
    ShownAt(HiddenAt(slots, OverlapsCleared(slots, zones, covered, 0), start, covered), start, data, PlacesOf(slots, covered))
  }

  /** Clearing a button never fills a zone. */
  lemma ClearedAtKeepsEmpty(slots: seq<Slot>, zones: seq<Zone>, i: nat, c: nat)
    requires |zones| == |slots| && i < |zones| && c < |zones| && zones[c].button.None?
    ensures ClearedAt(slots, zones, i)[c].button.None?
  {
    UnmergedNamedKeepsEmpty(slots, zones, i, MergedPlaces(zones[i]), c);
  }

  /** Un-merging by name never fills a zone. */
  lemma {:induction false} UnmergedNamedKeepsEmpty(slots: seq<Slot>, zones: seq<Zone>, i: nat, names: seq<string>, c: nat)
    requires |zones| == |slots| && c < |zones| && zones[c].button.None?
    ensures UnmergedNamed(slots, zones, i, names)[c].button.None?
    decreases |names|
  {
    if names != [] {
      UnmergedNamedKeepsEmpty(slots, zones, i, names[..|names| - 1], c);
    }
  }

  /** Clearing for one covered zone never fills a zone. */
  lemma OverlapClearedKeepsEmpty(slots: seq<Slot>, zones: seq<Zone>, k: nat, c: nat)
    requires |zones| == |slots| && k < |zones| && c < |zones| && zones[c].button.None?
    ensures OverlapCleared(slots, zones, k)[c].button.None?
  {
    var own := if DataMergedZones in zones[k].attrs then ClearedAt(slots, zones, k) else zones;
    if DataMergedZones in zones[k].attrs {
      ClearedAtKeepsEmpty(slots, zones, k, c);
    }
    match HostOf(slots, own[k])
    case None =>
    case Some(parent) => ClearedAtKeepsEmpty(slots, own, parent, c);
  }

  /** The first step never fills a zone. */
  lemma {:induction false} OverlapsClearedKeepEmpty(slots: seq<Slot>, zones: seq<Zone>, covered: seq<nat>, m: nat, c: nat)
    requires |zones| == |slots| && m <= |covered| && forall m :: 0 <= m < |covered| ==> covered[m] < |zones|
    requires c < |zones| && zones[c].button.None?
    ensures OverlapsCleared(slots, zones, covered, m)[c].button.None?
    decreases |covered| - m
  {
    if m < |covered| {
      OverlapClearedKeepsEmpty(slots, zones, covered[m], c);
      OverlapsClearedKeepEmpty(slots, OverlapCleared(slots, zones, covered[m]), covered, m + 1, c);
    }
  }

  /** After the first step every covered zone it handled is empty. */
  lemma {:induction false} OverlapsClearedEmpty(slots: seq<Slot>, zones: seq<Zone>, covered: seq<nat>, m: nat, j: nat, c: nat)
    requires |zones| == |slots| && m <= |covered| && forall m :: 0 <= m < |covered| ==> covered[m] < |zones|
    requires m <= j < |covered| && c == covered[j]
    ensures OverlapsCleared(slots, zones, covered, m)[c].button.None?
    decreases |covered| - m
  {
    var next := OverlapCleared(slots, zones, covered[m]);
    if j == m {
      OverlapsClearedKeepEmpty(slots, next, covered, m + 1, c);
    } else {
      OverlapsClearedEmpty(slots, next, covered, m + 1, j, c);
    }
  }

  /**
   * After a placement every covered zone other than the start is hidden
   * behind it and empty; the start holds the button over the whole span,
   * records its type, classes, the covered places and the spans, and is the
   * only selected zone.
   */
  lemma {:induction false} PlacementMarks(slots: seq<Slot>, zones: seq<Zone>, start: nat, covered: seq<nat>, data: DragData)
    requires |zones| == |slots| && start < |zones| && forall m :: 0 <= m < |covered| ==> covered[m] < |zones|
    ensures var r := Placement(slots, zones, start, covered, data);
      var colSpan, rowSpan := Or1(data.colSpan), Or1(data.rowSpan);
      (forall m :: 0 <= m < |covered| && covered[m] != start ==> HiddenBehind(r[covered[m]], slots[start].place)) &&
      r[start].button == Some(data) && "has-content" in r[start].classes &&
      ShowsSpans(r[start].classes, colSpan, rowSpan) &&
      RecordsButton(r[start].attrs, data, PlacesOf(slots, covered), colSpan, rowSpan) &&
      (forall k :: 0 <= k < |r| ==> ("selected" in r[k].classes <==> k == start))
  {
    var colSpan, rowSpan := Or1(data.colSpan), Or1(data.rowSpan);
    var cleared := OverlapsCleared(slots, zones, covered, 0);
    var hidden := HiddenAt(slots, cleared, start, covered);
    forall m | 0 <= m < |covered|
      ensures cleared[covered[m]].button.None?
    {
      OverlapsClearedEmpty(slots, zones, covered, 0, m, covered[m]);
    }
    SpannedClassesShowSpans(hidden[start].classes, colSpan, rowSpan);
    ShowsSpansMarked(SpannedClasses(hidden[start].classes, colSpan, rowSpan), colSpan, rowSpan);
  }

  // ---------------------------------------------------------------------------
  // the page's merge bookkeeping

  /**
   * What the merge bookkeeping reads from a zone: its `data-merged-into`,
   * whether it carries a `data-merged-zones` and the places that lists,
   * whether it holds a button and whether it is hidden as merged.
   */
  datatype Bookkeeping = Bookkeeping(into: Option<string>, hasList: bool, listed: seq<string>, filled: bool, hidden: bool)

  function BookOf(z: Zone): (r: Bookkeeping)
    ensures r.listed == MergedPlaces(z) && (r.filled <==> z.button.Some?) && (r.hidden <==> "merged-hidden" in z.classes)
    ensures r.into.Some? <==> DataMergedInto in z.attrs
    ensures r.into.Some? ==> r.into.value == z.attrs[DataMergedInto]
  {
    Bookkeeping(if DataMergedInto in z.attrs then Some(z.attrs[DataMergedInto]) else None,
                DataMergedZones in z.attrs, MergedPlaces(z), z.button.Some?, "merged-hidden" in z.classes)
  }

  /** The bookkeeping of every zone of the page. */
  function Books(zones: seq<Zone>): (r: seq<Bookkeeping>)
    ensures |r| == |zones| && forall k :: 0 <= k < |r| ==> r[k] == BookOf(zones[k])
  {
    seq(|zones|, k requires 0 <= k < |zones| => BookOf(zones[k]))
  }

  /** The zone a zone is merged into, read from its bookkeeping. */
  function Host(slots: seq<Slot>, b: Bookkeeping): (r: Option<nat>)
    ensures r.Some? ==> r.value < |slots| && b.into == Some(slots[r.value].place)
    ensures b.into.None? ==> r.None?
  {
    if b.into.Some? then FindPlace(slots, b.into.value) else None
  }

  /** `clearDropZone(i)` on the bookkeeping. */
  function BooksClearedAt(slots: seq<Slot>, bs: seq<Bookkeeping>, i: nat): (r: seq<Bookkeeping>)
    requires |bs| == |slots| && i < |bs|
    ensures |r| == |bs|
  {
    BooksUnmergedNamed(slots, bs, i, bs[i].listed)[i := BookClearedAt(slots, bs, i, i)]
  }

  /** The `forEach` of `clearDropZone(i)` over the places it lists, on the bookkeeping. */
  function BooksUnmergedNamed(slots: seq<Slot>, bs: seq<Bookkeeping>, i: nat, names: seq<string>): (r: seq<Bookkeeping>)
    requires |bs| == |slots|
    ensures |r| == |bs| && (i < |bs| ==> r[i] == bs[i])
    decreases |names|
  {
    if names == [] then bs
    else
      var rs := BooksUnmergedNamed(slots, bs, i, names[..|names| - 1]);
      match FindPlace(slots, names[|names| - 1])
      case Some(j) => if j != i then rs[j := rs[j].(into := None, hidden := false)] else rs
      case None => rs
  }

  /** With unique places, un-merging by name releases exactly the zones whose places are named. */
  lemma {:induction false} BooksUnmergedNamedEntry(slots: seq<Slot>, bs: seq<Bookkeeping>, i: nat, names: seq<string>, k: nat)
    requires |bs| == |slots| && PlacesDistinct(slots) && k < |bs| && k != i
    ensures BooksUnmergedNamed(slots, bs, i, names)[k] ==
      if Lists(names, slots[k].place) then bs[k].(into := None, hidden := false) else bs[k]
    decreases |names|
  {
    if names != [] {
      var n := |names| - 1;
      BooksUnmergedNamedEntry(slots, bs, i, names[..n], k);
      match FindPlace(slots, names[n])
      case Some(j) =>
        if j != k && names[n] == slots[k].place {
          PlacesDiffer(slots, j, k);
        }
      case None =>
    }
  }

  /** With unique places `clearDropZone(i)` changes each zone's bookkeeping as `BookClearedAt` says. */
  lemma BooksClearedAtEntry(slots: seq<Slot>, bs: seq<Bookkeeping>, i: nat, k: nat)
    requires |bs| == |slots| && PlacesDistinct(slots) && i < |bs| && k < |bs|
    ensures BooksClearedAt(slots, bs, i)[k] == BookClearedAt(slots, bs, i, k)
  {
    if k != i {
      BooksUnmergedNamedEntry(slots, bs, i, bs[i].listed, k);
    }
  }

  /** Zone `k`'s bookkeeping after `clearDropZone(i)`. */
  function BookClearedAt(slots: seq<Slot>, bs: seq<Bookkeeping>, i: nat, k: nat): Bookkeeping
    requires |bs| == |slots| && i < |bs| && k < |bs|
  {
    if k == i then bs[i].(hasList := bs[i].hasList && bs[i].listed == [], listed := [], filled := false)
    else if Lists(bs[i].listed, slots[k].place) then bs[k].(into := None, hidden := false)
    else bs[k]
  }

  /** Clearing the zone `k` is merged into, on the bookkeeping. */
  function BooksParentCleared(slots: seq<Slot>, bs: seq<Bookkeeping>, k: nat): (r: seq<Bookkeeping>)
    requires |bs| == |slots| && k < |bs|
    ensures |r| == |bs|
  {
    match Host(slots, bs[k])
    case None => bs
    case Some(parent) => BooksClearedAt(slots, bs, parent)
  }

  /** The first step of a placement for covered zone `k`, on the bookkeeping. */
  function BooksOverlapCleared(slots: seq<Slot>, bs: seq<Bookkeeping>, k: nat): (r: seq<Bookkeeping>)
    requires |bs| == |slots| && k < |bs|
    ensures |r| == |bs|
  {
    var freed := BooksParentCleared(slots, BooksOwnCleared(slots, bs, k), k);
    freed[k := freed[k].(filled := false)]
  }

  /** Clearing the button that starts at covered zone `k`, if it has a `data-merged-zones`, on the bookkeeping. */
  function BooksOwnCleared(slots: seq<Slot>, bs: seq<Bookkeeping>, k: nat): (r: seq<Bookkeeping>)
    requires |bs| == |slots| && k < |bs|
    ensures |r| == |bs|
  {
    if bs[k].hasList then BooksClearedAt(slots, bs, k) else bs
  }

  /** The first step of a placement for the covered zones from the `m`-th on, on the bookkeeping. */
  function BooksOverlapsCleared(slots: seq<Slot>, bs: seq<Bookkeeping>, covered: seq<nat>, m: nat): (r: seq<Bookkeeping>)
    requires |bs| == |slots| && m <= |covered| && forall m :: 0 <= m < |covered| ==> covered[m] < |bs|
    ensures |r| == |bs|
    decreases |covered| - m
  {
    if m == |covered| then bs
    else BooksOverlapsCleared(slots, BooksOverlapCleared(slots, bs, covered[m]), covered, m + 1)
  }

  /** What a start zone whose `data-merged-zones` is the comma-joined `places` lists. */
  function ListedOf(places: seq<string>): seq<string> {
    if Join(places, ',') != "" then Split(Join(places, ','), ',') else []
  }

  /** The last two steps of a placement, on the bookkeeping. */
  function BooksShown(slots: seq<Slot>, bs: seq<Bookkeeping>, start: nat, covered: seq<nat>): (r: seq<Bookkeeping>)
    requires |bs| == |slots| && start < |bs| && forall m :: 0 <= m < |covered| ==> covered[m] < |bs|
    ensures |r| == |bs|
  {
    seq(|bs|, k requires 0 <= k < |bs| => BookShown(slots, bs, start, covered, k))
  }

  /** Zone `k`'s bookkeeping after the last two steps of a placement. */
  function BookShown(slots: seq<Slot>, bs: seq<Bookkeeping>, start: nat, covered: seq<nat>, k: nat): Bookkeeping
    requires |bs| == |slots| && start < |bs| && k < |bs| && forall m :: 0 <= m < |covered| ==> covered[m] < |bs|
  {
    if k == start then bs[k].(hasList := true, listed := ListedOf(PlacesOf(slots, covered)), filled := true)
    else if k in covered then bs[k].(into := Some(slots[start].place), hidden := true)
    else bs[k]
  }

  /** `placeButtonInMergedZones` on the bookkeeping. */
  function BooksPlacement(slots: seq<Slot>, bs: seq<Bookkeeping>, start: nat, covered: seq<nat>): (r: seq<Bookkeeping>)
    requires |bs| == |slots| && start < |bs| && forall m :: 0 <= m < |covered| ==> covered[m] < |bs|
    ensures |r| == |bs|
  {
    BooksShown(slots, BooksOverlapsCleared(slots, bs, covered, 0), start, covered)
  }

  /** Zone `j` is hidden and empty, and the place it is merged into names another zone, holding a button, that lists it. */
  predicate MergedProperly(slots: seq<Slot>, bs: seq<Bookkeeping>, j: nat)
    requires |bs| == |slots|
  {
    j < |bs| &&
    var host := Host(slots, bs[j]);
    bs[j].hidden && !bs[j].filled &&
    host.Some? && host.value != j && bs[host.value].filled && Lists(bs[host.value].listed, slots[j].place)
  }

  /**
   * The page's merge bookkeeping agrees with itself: every merged zone is
   * merged properly, every zone a button lists (other than its own) is merged
   * into that button's zone, and only a zone holding a button and a
   * `data-merged-zones` lists places.
   */
  predicate Consistent(slots: seq<Slot>, bs: seq<Bookkeeping>)
    requires |bs| == |slots|
  {
    (forall j {:trigger MergedProperly(slots, bs, j)} :: 0 <= j < |bs| && bs[j].into.Some? ==> MergedProperly(slots, bs, j)) &&
    (forall p, j {:trigger Lists(bs[p].listed, slots[j].place)} :: (0 <= p < |bs| && 0 <= j < |bs| && p != j && bs[p].filled && Lists(bs[p].listed, slots[j].place)) ==>
       bs[j].into == Some(slots[p].place)) &&
    (forall p :: 0 <= p < |bs| && bs[p].listed != [] ==> bs[p].filled && bs[p].hasList)
  }

  /** A zone merged into nothing, listing nothing and holding no button. */
  predicate Vacant(b: Bookkeeping) {
    b.into.None? && b.listed == [] && !b.filled
  }

  /** `clearDropZone` keeps the bookkeeping consistent. */
  lemma {:induction false} ClearedAtConsistent(slots: seq<Slot>, bs: seq<Bookkeeping>, i: nat)
    requires |bs| == |slots| && i < |bs| && PlacesDistinct(slots) && Consistent(slots, bs)
    ensures Consistent(slots, BooksClearedAt(slots, bs, i))
  {
    var r := BooksClearedAt(slots, bs, i);
    forall k | 0 <= k < |r|
      ensures r[k] == BookClearedAt(slots, bs, i, k)
    {
      BooksClearedAtEntry(slots, bs, i, k);
    }
    forall j | 0 <= j < |r| && r[j].into.Some?
      ensures MergedProperly(slots, r, j)
    {
      assert MergedProperly(slots, bs, j);
    }
    forall p, j | 0 <= p < |r| && 0 <= j < |r| && p != j && r[p].filled && Lists(r[p].listed, slots[j].place)
      ensures r[j].into == Some(slots[p].place)
    {
      if p != i && j != i && Lists(bs[i].listed, slots[j].place) {
        PlacesDiffer(slots, p, i);
      }
    }
  }

  /** Emptying a zone that lists nothing keeps the bookkeeping consistent. */
  lemma {:induction false} EmptiedConsistent(slots: seq<Slot>, bs: seq<Bookkeeping>, k: nat)
    requires |bs| == |slots| && k < |bs| && Consistent(slots, bs) && bs[k].listed == []
    ensures Consistent(slots, bs[k := bs[k].(filled := false)])
  {
    var r := bs[k := bs[k].(filled := false)];
    forall j | 0 <= j < |r| && r[j].into.Some?
      ensures MergedProperly(slots, r, j)
    {
      assert MergedProperly(slots, bs, j);
    }
  }

  /** Clearing a covered zone's own button keeps the bookkeeping consistent and leaves the zone listing nothing. */
  lemma {:induction false} OwnClearedConsistent(slots: seq<Slot>, bs: seq<Bookkeeping>, k: nat)
    requires |bs| == |slots| && k < |bs| && PlacesDistinct(slots) && Consistent(slots, bs)
    ensures var r := BooksOwnCleared(slots, bs, k);
      Consistent(slots, r) && r[k].listed == [] && r[k].into == bs[k].into
  {
    if bs[k].hasList {
      ClearedAtConsistent(slots, bs, k);
    }
  }

  /** Clearing the button a zone listing nothing is merged into keeps the bookkeeping consistent and leaves the zone unmerged. */
  lemma {:induction false} ParentClearedConsistent(slots: seq<Slot>, bs: seq<Bookkeeping>, k: nat)
    requires |bs| == |slots| && k < |bs| && PlacesDistinct(slots) && Consistent(slots, bs) && bs[k].listed == []
    ensures var r := BooksParentCleared(slots, bs, k);
      Consistent(slots, r) && r[k].listed == [] && r[k].into.None?
  {
    if bs[k].into.Some? {
      assert MergedProperly(slots, bs, k);
    }
    match Host(slots, bs[k])
    case Some(p) =>
      ClearedAtConsistent(slots, bs, p);
      BooksClearedAtEntry(slots, bs, p, k);
    case None =>
  }

  /** The first step of a placement for one covered zone keeps the bookkeeping consistent. */
  lemma {:induction false} OverlapClearedConsistent(slots: seq<Slot>, bs: seq<Bookkeeping>, k: nat)
    requires |bs| == |slots| && k < |bs| && PlacesDistinct(slots) && Consistent(slots, bs)
    ensures Consistent(slots, BooksOverlapCleared(slots, bs, k))
  {
    var own := BooksOwnCleared(slots, bs, k);
    OwnClearedConsistent(slots, bs, k);
    var freed := BooksParentCleared(slots, own, k);
    ParentClearedConsistent(slots, own, k);
    EmptiedConsistent(slots, freed, k);
  }

  /** On a consistent page the first step of a placement leaves that covered zone vacant. */
  lemma {:induction false} OverlapClearedVacant(slots: seq<Slot>, bs: seq<Bookkeeping>, k: nat)
    requires |bs| == |slots| && k < |bs| && PlacesDistinct(slots) && Consistent(slots, bs)
    ensures Vacant(BooksOverlapCleared(slots, bs, k)[k])
  {
    var own := BooksOwnCleared(slots, bs, k);
    OwnClearedConsistent(slots, bs, k);
    ParentClearedConsistent(slots, own, k);
  }

  /** The first step of a placement keeps a vacant zone vacant. */
  lemma {:induction false} OverlapClearedKeepsVacant(slots: seq<Slot>, bs: seq<Bookkeeping>, k: nat, c: nat)
    requires |bs| == |slots| && k < |bs| && c < |bs| && Vacant(bs[c])
    ensures Vacant(BooksOverlapCleared(slots, bs, k)[c])
  {
    var own := BooksOwnCleared(slots, bs, k);
    if bs[k].hasList {
      ClearedAtKeepsVacant(slots, bs, k, c);
    }
    match Host(slots, own[k])
    case Some(p) => ClearedAtKeepsVacant(slots, own, p, c);
    case None =>
  }

  /** `clearDropZone` keeps a vacant zone vacant. */
  lemma ClearedAtKeepsVacant(slots: seq<Slot>, bs: seq<Bookkeeping>, i: nat, c: nat)
    requires |bs| == |slots| && i < |bs| && c < |bs| && Vacant(bs[c])
    ensures Vacant(BooksClearedAt(slots, bs, i)[c])
  {
    UnmergedNamedKeepsVacant(slots, bs, i, bs[i].listed, c);
  }

  /** Un-merging by name keeps a vacant zone vacant. */
  lemma {:induction false} UnmergedNamedKeepsVacant(slots: seq<Slot>, bs: seq<Bookkeeping>, i: nat, names: seq<string>, c: nat)
    requires |bs| == |slots| && c < |bs| && Vacant(bs[c])
    ensures Vacant(BooksUnmergedNamed(slots, bs, i, names)[c])
    decreases |names|
  {
    if names != [] {
      UnmergedNamedKeepsVacant(slots, bs, i, names[..|names| - 1], c);
    }
  }

  /** The page is consistent and the first `n` covered zones are vacant. */
  predicate ClearedUpTo(slots: seq<Slot>, bs: seq<Bookkeeping>, covered: seq<nat>, n: nat)
    requires |bs| == |slots| && n <= |covered| && forall m :: 0 <= m < |covered| ==> covered[m] < |bs|
  {
    Consistent(slots, bs) && forall m {:trigger Vacant(bs[covered[m]])} :: 0 <= m < n ==> Vacant(bs[covered[m]])
  }

  /** One more covered zone handled keeps the page consistent and that zone vacant too. */
  lemma {:induction false} OverlapClearedUpTo(slots: seq<Slot>, bs: seq<Bookkeeping>, covered: seq<nat>, n: nat)
    requires |bs| == |slots| && 0 < n <= |covered| && forall m :: 0 <= m < |covered| ==> covered[m] < |bs|
    requires PlacesDistinct(slots) && ClearedUpTo(slots, bs, covered, n - 1)
    ensures ClearedUpTo(slots, BooksOverlapCleared(slots, bs, covered[n - 1]), covered, n)
  {
    OverlapClearedConsistent(slots, bs, covered[n - 1]);
    OverlapClearedVacant(slots, bs, covered[n - 1]);
    var r := BooksOverlapCleared(slots, bs, covered[n - 1]);
    forall m | 0 <= m < n
      ensures Vacant(r[covered[m]])
    {
      if m < n - 1 {
        OverlapClearedKeepsVacant(slots, bs, covered[n - 1], covered[m]);
      } else {
        assert covered[m] == covered[n - 1];
      }
    }
  }

  /** The rest of the first step keeps the bookkeeping consistent and leaves every covered zone vacant. */
  lemma {:induction false} OverlapsClearedConsistent(slots: seq<Slot>, bs: seq<Bookkeeping>, covered: seq<nat>, m: nat)
    requires |bs| == |slots| && m <= |covered| && forall m :: 0 <= m < |covered| ==> covered[m] < |bs|
    requires PlacesDistinct(slots) && ClearedUpTo(slots, bs, covered, m)
    ensures ClearedUpTo(slots, BooksOverlapsCleared(slots, bs, covered, m), covered, |covered|)
    decreases |covered| - m
  {
    if m < |covered| {
      var next := BooksOverlapCleared(slots, bs, covered[m]);
      OverlapClearedUpTo(slots, bs, covered, m + 1);
      assert ClearedUpTo(slots, next, covered, m + 1);
      OverlapsClearedConsistent(slots, next, covered, m + 1);
    }
  }

  /** No place on the page contains the comma that separates `data-merged-zones`. */
  predicate PlacesCommaFree(slots: seq<Slot>) {
    forall k :: 0 <= k < |slots| ==> ',' !in slots[k].place
  }

  /** The start zone of a placement over two or more zones lists the place of every covered zone. */
  lemma {:induction false} ListedCovers(slots: seq<Slot>, covered: seq<nat>, a: nat, b: nat)
    requires PlacesCommaFree(slots) && forall m :: 0 <= m < |covered| ==> covered[m] < |slots|
    requires a < |covered| && b < |covered| && covered[a] != covered[b]
    ensures Lists(ListedOf(PlacesOf(slots, covered)), slots[covered[b]].place)
  {
    var places := PlacesOf(slots, covered);
    SplitJoin(places, ',');
    assert places[b] == slots[covered[b]].place;
    ListsIn(ListedOf(places), slots[covered[b]].place);
  }

  /** A start zone lists only covered places. */
  lemma {:induction false} ListedOnlyCovered(slots: seq<Slot>, covered: seq<nat>, j: nat)
    requires PlacesDistinct(slots) && PlacesCommaFree(slots) && j < |slots| && |covered| > 0
    requires forall m :: 0 <= m < |covered| ==> covered[m] < |slots|
    requires Lists(ListedOf(PlacesOf(slots, covered)), slots[j].place)
    ensures j in covered
  {
    var places := PlacesOf(slots, covered);
    SplitJoin(places, ',');
    ListsIn(ListedOf(places), slots[j].place);
    var m :| 0 <= m < |places| && places[m] == slots[j].place;
    if covered[m] != j {
      PlacesDiffer(slots, covered[m], j);
    }
  }

  /** After the first step of a placement every covered zone is vacant. */
  lemma CoveredVacant(slots: seq<Slot>, z: seq<Bookkeeping>, covered: seq<nat>, c: nat)
    requires |z| == |slots| && forall m :: 0 <= m < |covered| ==> covered[m] < |z|
    requires ClearedUpTo(slots, z, covered, |covered|) && c in covered
    ensures Vacant(z[c])
  {
    var m :| 0 <= m < |covered| && covered[m] == c;
    assert Vacant(z[covered[m]]);
  }

  /** After the last two steps of a placement every merged zone is merged properly. */
  lemma {:induction false} ShownMergedProperly(slots: seq<Slot>, z: seq<Bookkeeping>, start: nat, covered: seq<nat>, j: nat)
    requires |z| == |slots| && start < |z| && forall m :: 0 <= m < |covered| ==> covered[m] < |z|
    requires PlacesDistinct(slots) && PlacesCommaFree(slots) && start in covered && ClearedUpTo(slots, z, covered, |covered|)
    requires j < |z| && BooksShown(slots, z, start, covered)[j].into.Some?
    ensures MergedProperly(slots, BooksShown(slots, z, start, covered), j)
  {
    var r := BooksShown(slots, z, start, covered);
    CoveredVacant(slots, z, covered, start);
    if j in covered {
      CoveredVacant(slots, z, covered, j);
      var a :| 0 <= a < |covered| && covered[a] == start;
      var b :| 0 <= b < |covered| && covered[b] == j;
      ListedCovers(slots, covered, a, b);
      FindPlaceUnique(slots, start);
      assert Host(slots, r[j]) == Some(start);
    } else {
      assert MergedProperly(slots, z, j);
      var h := Host(slots, z[j]).value;
      if h in covered {
        CoveredVacant(slots, z, covered, h);
      }
      assert r[h] == z[h];
    }
  }

  /** After the last two steps of a placement every zone a button lists is merged into it. */
  lemma {:induction false} ShownListedMerged(slots: seq<Slot>, z: seq<Bookkeeping>, start: nat, covered: seq<nat>, p: nat, j: nat)
    requires |z| == |slots| && start < |z| && forall m :: 0 <= m < |covered| ==> covered[m] < |z|
    requires PlacesDistinct(slots) && PlacesCommaFree(slots) && start in covered && ClearedUpTo(slots, z, covered, |covered|)
    requires p < |z| && j < |z| && p != j
    requires var r := BooksShown(slots, z, start, covered); r[p].filled && Lists(r[p].listed, slots[j].place)
    ensures BooksShown(slots, z, start, covered)[j].into == Some(slots[p].place)
  {
    if p == start {
      ListedOnlyCovered(slots, covered, j);
    } else {
      if p in covered {
        CoveredVacant(slots, z, covered, p);
      }
      assert z[j].into == Some(slots[p].place);
      if j in covered {
        CoveredVacant(slots, z, covered, j);
      }
    }
  }

  /** The last two steps of a placement, once every covered zone is vacant, leave the bookkeeping consistent. */
  lemma {:induction false} ShownConsistent(slots: seq<Slot>, z: seq<Bookkeeping>, start: nat, covered: seq<nat>)
    requires |z| == |slots| && start < |z| && forall m :: 0 <= m < |covered| ==> covered[m] < |z|
    requires PlacesDistinct(slots) && PlacesCommaFree(slots) && start in covered && ClearedUpTo(slots, z, covered, |covered|)
    ensures Consistent(slots, BooksShown(slots, z, start, covered))
  {
    var r := BooksShown(slots, z, start, covered);
    forall j | 0 <= j < |r| && r[j].into.Some?
      ensures MergedProperly(slots, r, j)
    {
      ShownMergedProperly(slots, z, start, covered, j);
    }
    forall p, j | 0 <= p < |r| && 0 <= j < |r| && p != j && r[p].filled && Lists(r[p].listed, slots[j].place)
      ensures r[j].into == Some(slots[p].place)
    {
      ShownListedMerged(slots, z, start, covered, p, j);
    }
    forall p | 0 <= p < |r| && r[p].listed != []
      ensures r[p].filled && r[p].hasList
    {
      if p in covered {
        CoveredVacant(slots, z, covered, p);
      }
    }
  }

  /**
   * A placement keeps the page's merge bookkeeping consistent: every covered
   * zone but the start points at the start, which holds the button and lists
   * them, and every zone merged behind a cleared button has been released.
   */
  lemma {:induction false} BooksPlacementConsistent(slots: seq<Slot>, bs: seq<Bookkeeping>, start: nat, covered: seq<nat>)
    requires |bs| == |slots| && start < |bs| && forall m :: 0 <= m < |covered| ==> covered[m] < |bs|
    requires PlacesDistinct(slots) && PlacesCommaFree(slots) && start in covered && Consistent(slots, bs)
    ensures Consistent(slots, BooksPlacement(slots, bs, start, covered))
  {
    OverlapsClearedConsistent(slots, bs, covered, 0);
    ShownConsistent(slots, BooksOverlapsCleared(slots, bs, covered, 0), start, covered);
  }

  // ---------------------------------------------------------------------------
  // the bookkeeping of the page after each step

  /** Un-merging a zone releases its bookkeeping and changes nothing else in it. */
  lemma {:induction false} BookOfUnmerged(z: Zone)
    ensures BookOf(Unmerged(z)) == BookOf(z).(into := None, hidden := false)
  {
  }

  /** Clearing a zone empties it and drops its list, and keeps its `data-merged-into` and its hidden mark. */
  lemma {:induction false} BookOfCleared(z: Zone)
    ensures BookOf(Cleared(z)) ==
      BookOf(z).(hasList := DataMergedZones in z.attrs && MergedPlaces(z) == [], listed := [], filled := false)
  {
    NotStartsWith("merged-hidden", "col-span-");
    NotStartsWith("merged-hidden", "row-span-");
    ClearedClasses(z, "merged-hidden");
    DynamicSpanClassesExact(z.classes, "merged-hidden");
  }

  /** Un-merging by name, seen through the bookkeeping. */
  lemma {:induction false} BooksOfUnmergedNamed(slots: seq<Slot>, zones: seq<Zone>, i: nat, names: seq<string>)
    requires |zones| == |slots|
    ensures Books(UnmergedNamed(slots, zones, i, names)) == BooksUnmergedNamed(slots, Books(zones), i, names)
    decreases |names|
  {
    if names != [] {
      var n := |names| - 1;
      var zs := UnmergedNamed(slots, zones, i, names[..n]);
      BooksOfUnmergedNamed(slots, zones, i, names[..n]);
      match FindPlace(slots, names[n])
      case Some(j) =>
        if j != i {
          BookOfUnmerged(zs[j]);
          assert Books(zs[j := Unmerged(zs[j])]) == Books(zs)[j := BookOf(zs[j]).(into := None, hidden := false)];
        }
      case None =>
    }
  }

  /** `clearDropZone`, seen through the bookkeeping. */
  lemma {:induction false} BooksOfClearedAt(slots: seq<Slot>, zones: seq<Zone>, i: nat)
    requires |zones| == |slots| && i < |zones|
    ensures Books(ClearedAt(slots, zones, i)) == BooksClearedAt(slots, Books(zones), i)
  {
    var zs := UnmergedNamed(slots, zones, i, MergedPlaces(zones[i]));
    BooksOfUnmergedNamed(slots, zones, i, MergedPlaces(zones[i]));
    BookOfCleared(zones[i]);
    assert Books(zs[i := Cleared(zones[i])]) == Books(zs)[i := BookOf(Cleared(zones[i]))];
  }

  /** Clearing the button a zone is merged into, seen through the bookkeeping. */
  lemma {:induction false} BooksOfParentCleared(slots: seq<Slot>, zones: seq<Zone>, k: nat)
    requires |zones| == |slots| && k < |zones|
    ensures Books(ParentCleared(slots, zones, k)) == BooksParentCleared(slots, Books(zones), k)
  {
    assert HostOf(slots, zones[k]) == Host(slots, Books(zones)[k]);
    match HostOf(slots, zones[k])
    case Some(p) => BooksOfClearedAt(slots, zones, p);
    case None =>
  }

  /** The first step for one covered zone, seen through the bookkeeping. */
  lemma {:induction false} BooksOfOverlapCleared(slots: seq<Slot>, zones: seq<Zone>, k: nat)
    requires |zones| == |slots| && k < |zones|
    ensures Books(OverlapCleared(slots, zones, k)) == BooksOverlapCleared(slots, Books(zones), k)
  {
    var own := if DataMergedZones in zones[k].attrs then ClearedAt(slots, zones, k) else zones;
    if DataMergedZones in zones[k].attrs {
      BooksOfClearedAt(slots, zones, k);
    }
    assert Books(own) == BooksOwnCleared(slots, Books(zones), k);
    var freed := ParentCleared(slots, own, k);
    BooksOfParentCleared(slots, own, k);
    assert Books(freed[k := freed[k].(button := None)]) == Books(freed)[k := Books(freed)[k].(filled := false)];
  }

  /** The whole first step, seen through the bookkeeping. */
  lemma {:induction false} BooksOfOverlapsCleared(slots: seq<Slot>, zones: seq<Zone>, covered: seq<nat>, m: nat)
    requires |zones| == |slots| && m <= |covered| && forall m :: 0 <= m < |covered| ==> covered[m] < |zones|
    ensures Books(OverlapsCleared(slots, zones, covered, m)) == BooksOverlapsCleared(slots, Books(zones), covered, m)
    decreases |covered| - m
  {
    if m < |covered| {
      var next := OverlapCleared(slots, zones, covered[m]);
      BooksOfOverlapCleared(slots, zones, covered[m]);
      assert Books(next) == BooksOverlapCleared(slots, Books(zones), covered[m]);
      BooksOfOverlapsCleared(slots, next, covered, m + 1);
    }
  }

  /** The start zone at the end of a placement, seen through the bookkeeping. */
  lemma {:induction false} BookOfShownStart(z: Zone, data: DragData, places: seq<string>)
    ensures BookOf(Deselected(ShownStart(z, data, places))) ==
      BookOf(z).(hasList := true, listed := ListedOf(places), filled := true)
  {
    var colSpan, rowSpan := Or1(data.colSpan), Or1(data.rowSpan);
    SpannedClassesExact(z.classes, colSpan, rowSpan, "merged-hidden");
    NotStartsWith("merged-hidden", "col-span-");
    NotStartsWith("merged-hidden", "row-span-");
    assert "merged-hidden" != "col-span-" + IntToString(colSpan);
    assert "merged-hidden" != "row-span-" + IntToString(rowSpan);
  }

  /** The last two steps of a placement, seen through the bookkeeping. */
  lemma {:induction false} BooksOfShown(slots: seq<Slot>, zones: seq<Zone>, start: nat, covered: seq<nat>, data: DragData)
    requires |zones| == |slots| && start < |zones| && forall m :: 0 <= m < |covered| ==> covered[m] < |zones|
    ensures Books(ShownAt(HiddenAt(slots, zones, start, covered), start, data, PlacesOf(slots, covered))) ==
      BooksShown(slots, Books(zones), start, covered)
  {
    var hidden := HiddenAt(slots, zones, start, covered);
    var r := ShownAt(hidden, start, data, PlacesOf(slots, covered));
    var bs := BooksShown(slots, Books(zones), start, covered);
    forall k | 0 <= k < |r|
      ensures BookOf(r[k]) == bs[k]
    {
      if k == start {
        BookOfShownStart(zones[k], data, PlacesOf(slots, covered));
        assert r[k] == ShownStart(zones[k], data, PlacesOf(slots, covered));
      }
    }
  }

  /** A placement, seen through the bookkeeping. */
  lemma {:induction false} BooksOfPlacement(slots: seq<Slot>, zones: seq<Zone>, start: nat, covered: seq<nat>, data: DragData)
    requires |zones| == |slots| && start < |zones| && forall m :: 0 <= m < |covered| ==> covered[m] < |zones|
    ensures Books(Placement(slots, zones, start, covered, data)) == BooksPlacement(slots, Books(zones), start, covered)
  {
    var cleared := OverlapsCleared(slots, zones, covered, 0);
    BooksOfOverlapsCleared(slots, zones, covered, 0);
    BooksOfShown(slots, cleared, start, covered, data);
  }

  /**
   * A placement keeps the page's merge bookkeeping consistent: afterwards
   * every merged zone points at a zone that holds a button listing it, and
   * every zone a button lists is merged into it.
   */
  lemma {:induction false} PlacementConsistent(slots: seq<Slot>, zones: seq<Zone>, start: nat, covered: seq<nat>, data: DragData)
    requires |zones| == |slots| && start < |zones| && forall m :: 0 <= m < |covered| ==> covered[m] < |zones|
    requires PlacesDistinct(slots) && PlacesCommaFree(slots) && start in covered && Consistent(slots, Books(zones))
    ensures Consistent(slots, Books(Placement(slots, zones, start, covered, data)))
  {
    BooksOfPlacement(slots, zones, start, covered, data);
    BooksPlacementConsistent(slots, Books(zones), start, covered);
  }

  /** Clearing the highlights leaves the merge bookkeeping as it is. */
  lemma {:induction false} BooksOfUnhighlight(zones: seq<Zone>)
    ensures Books(Unhighlight(zones)) == Books(zones)
  {
    forall k | 0 <= k < |zones|
      ensures BookOf(Unhighlight(zones)[k]) == BookOf(zones[k])
    {
      assert "merged-hidden" in zones[k].classes - {"drag-over"} <==> "merged-hidden" in zones[k].classes;
    }
  }

  /** A drop that places a button, highlights cleared first, keeps the page's merge bookkeeping consistent. */
  lemma {:induction false} DropConsistent(slots: seq<Slot>, zones: seq<Zone>, target: nat, covered: seq<nat>, data: DragData)
    requires |zones| == |slots| && target < |zones| && forall m :: 0 <= m < |covered| ==> covered[m] < |zones|
    requires PlacesDistinct(slots) && PlacesCommaFree(slots) && target in covered && Consistent(slots, Books(zones))
    ensures Consistent(slots, Books(Placement(slots, Unhighlight(zones), target, covered, data)))
  {
    BooksOfUnhighlight(zones);
    PlacementConsistent(slots, Unhighlight(zones), target, covered, data);
  }

  /** A zone that takes no part in any merge: empty, not hidden and not merged into another. */
  predicate Idle(b: Bookkeeping) {
    b.into.None? && !b.filled && !b.hidden
  }

  /** Un-merging a zone that takes no part in any merge changes nothing. */
  lemma {:induction false} UnmergedIdle(z: Zone)
    requires Idle(BookOf(z))
    ensures Unmerged(z) == z
  {
    assert z.classes - {"merged-hidden"} == z.classes;
    assert z.attrs - {DataMergedInto} == z.attrs;
  }

  /** Un-merging by name leaves a zone that takes no part in any merge as it is. */
  lemma {:induction false} UnmergedNamedKeepsIdle(slots: seq<Slot>, zones: seq<Zone>, i: nat, names: seq<string>, k: nat)
    requires |zones| == |slots| && k < |zones| && Idle(BookOf(zones[k]))
    ensures UnmergedNamed(slots, zones, i, names)[k] == zones[k]
    decreases |names|
  {
    if names != [] {
      UnmergedNamedKeepsIdle(slots, zones, i, names[..|names| - 1], k);
      UnmergedIdle(zones[k]);
    }
  }

  /** Clearing another zone leaves a zone that takes no part in any merge as it is. */
  lemma ClearedAtKeepsIdle(slots: seq<Slot>, zones: seq<Zone>, i: nat, k: nat)
    requires |zones| == |slots| && i < |zones| && k < |zones| && k != i && Idle(BookOf(zones[k]))
    ensures ClearedAt(slots, zones, i)[k] == zones[k]
  {
    UnmergedNamedKeepsIdle(slots, zones, i, MergedPlaces(zones[i]), k);
  }

  /**
   * On a consistent page the first step for covered zone `c` leaves every
   * other zone that takes no part in any merge as it is: such a zone holds
   * no button, so it is not the button `c` is merged into.
   */
  lemma {:induction false} OverlapClearedKeepsIdle(slots: seq<Slot>, zones: seq<Zone>, c: nat, k: nat)
    requires |zones| == |slots| && c < |zones| && k < |zones| && k != c && Idle(BookOf(zones[k]))
    requires PlacesDistinct(slots) && Consistent(slots, Books(zones))
    ensures OverlapCleared(slots, zones, c)[k] == zones[k]
  {
    var own := if DataMergedZones in zones[c].attrs then ClearedAt(slots, zones, c) else zones;
    if DataMergedZones in zones[c].attrs {
      ClearedAtKeepsIdle(slots, zones, c, k);
      BooksOfClearedAt(slots, zones, c);
    }
    assert Books(own) == BooksOwnCleared(slots, Books(zones), c);
    OwnClearedConsistent(slots, Books(zones), c);
    assert HostOf(slots, own[c]) == Host(slots, Books(own)[c]);
    match HostOf(slots, own[c])
    case Some(p) =>
      assert MergedProperly(slots, Books(own), c);
      ClearedAtKeepsIdle(slots, own, p, k);
    case None =>
  }

  /** On a consistent page the first step leaves every uncovered zone that takes no part in any merge as it is. */
  lemma {:induction false} OverlapsClearedKeepIdle(slots: seq<Slot>, zones: seq<Zone>, covered: seq<nat>, m: nat, k: nat)
    requires |zones| == |slots| && m <= |covered| && forall m :: 0 <= m < |covered| ==> covered[m] < |zones|
    requires PlacesDistinct(slots) && ClearedUpTo(slots, Books(zones), covered, m)
    requires k < |zones| && k !in covered && Idle(BookOf(zones[k]))
    ensures OverlapsCleared(slots, zones, covered, m)[k] == zones[k]
    decreases |covered| - m
  {
    if m < |covered| {
      var next := OverlapCleared(slots, zones, covered[m]);
      OverlapClearedKeepsIdle(slots, zones, covered[m], k);
      BooksOfOverlapCleared(slots, zones, covered[m]);
      OverlapClearedUpTo(slots, Books(zones), covered, m + 1);
      assert ClearedUpTo(slots, Books(next), covered, m + 1);
      OverlapsClearedKeepIdle(slots, next, covered, m + 1, k);
    }
  }

  /**
   * On a consistent page a placement changes nothing in a zone outside the
   * covered ones that takes no part in any merge, except that it is no
   * longer selected.
   */
  lemma {:induction false} PlacementKeepsIdle(slots: seq<Slot>, zones: seq<Zone>, start: nat, covered: seq<nat>, data: DragData, k: nat)
    requires |zones| == |slots| && start < |zones| && forall m :: 0 <= m < |covered| ==> covered[m] < |zones|
    requires PlacesDistinct(slots) && start in covered && Consistent(slots, Books(zones))
    requires k < |zones| && k !in covered && Idle(BookOf(zones[k]))
    ensures Placement(slots, zones, start, covered, data)[k] == Deselected(zones[k])
  {
    OverlapsClearedKeepIdle(slots, zones, covered, 0, k);
  }

  // ---------------------------------------------------------------------------
  // the manager

  /** What a drop reports to the user. */
  datatype Feedback = Placed | DoesNotFit(colSpan: int, rowSpan: int, columns: nat, rows: nat) | Silent | ErrorPlacing

  class DragDropManager {
    /** The fixed attributes of `document.querySelectorAll('.drop-zone')`, in document order. */
    const slots: seq<Slot>
    /** The grid position of each zone, read once from `slots`. */
    const positions: seq<Grid.Cell>
    /** The changing state of each zone, index for index with `slots`. */
    var zones: seq<Zone>
    var highlightedZones: seq<nat>
    var selectedButton: Option<nat>
    var currentGridType: string
    /** The class list and `data-grid-type` of the `#key` layout element. */
    var layoutClasses: set<string>
    var layoutGridType: Option<string>

    ghost predicate Valid()
      reads this
    {
      |zones| == |slots| && |positions| == |slots| &&
      PlacesDistinct(slots) && Grid.Distinct(positions) &&
      (forall k :: 0 <= k < |highlightedZones| ==> highlightedZones[k] < |zones|) &&
      (selectedButton.Some? ==> selectedButton.value < |zones|)
    }

    /** The manager over a page whose places and cells are unique, before `init` lays it out. */
    constructor (page: seq<Slot>, state: seq<Zone>, layout: set<string>)
      requires |page| == |state| && PlacesDistinct(page) && Grid.Distinct(Positions(page))
      ensures Valid() && positions == Positions(page)
      ensures slots == page && zones == state && highlightedZones == [] && selectedButton.None?
      ensures currentGridType == "2x4" && layoutClasses == layout && layoutGridType.None?
    {
      slots := page;
      positions := Positions(page);
      zones := state;
      highlightedZones := [];
      selectedButton := None;
      currentGridType := "2x4";
      layoutClasses := layout;
      layoutGridType := None;
    }

    /** `getZonesToMerge`: nested loops over the rectangle, giving up at the first missing cell. */
    method GetZonesToMerge(startZone: nat, data: DragData) returns (merge: Merge)
      requires startZone < |positions|
      ensures merge == ZonesToMerge(positions, currentGridType, positions[startZone], data)
    {
      var start := positions[startZone];
      var colSpan := Or1(data.colSpan);
      var rowSpan := Or1(data.rowSpan);
      var config := GridConfig(currentGridType);
      if config.None? {
        return Throws;
      }
      if start.row + rowSpan - 1 > config.value.rows || start.col + colSpan - 1 > config.value.columns {
        MergeOutOfBounds(positions, currentGridType, start, data);
        return Null;
      }
      ghost var cs := Grid.Count(colSpan);
      ghost var rs := Grid.Count(rowSpan);
      var found: seq<nat> := [];
      var r := 0;
      while r < rowSpan
        invariant 0 <= r <= rs
        invariant Grid.Scan(positions, start.row, start.col, r, cs, 0) == Some(found)
      {
        var c := 0;
        while c < colSpan
          invariant 0 <= c <= cs
          invariant Grid.Scan(positions, start.row, start.col, r, cs, c) == Some(found)
        {
          var zone := Grid.FindAt(positions, Grid.Cell(start.row + r, start.col + c));
          if zone.None? {
            MergeMissing(positions, currentGridType, start, data, r, c);
            return Null;
          }
          found := found + [zone.value];
          c := c + 1;
        }
        r := r + 1;
      }
      MergeScanned(positions, currentGridType, start, data, found);
      if |found| == colSpan * rowSpan {
        return Cells(found);
      }
      return Null;
    }

    /** `clearAllHighlights`: no zone keeps the `drag-over` class and the highlight list is emptied. */
    method ClearAllHighlights()
      requires Valid()
      modifies this
      ensures Valid() && highlightedZones == [] && zones == Unhighlight(old(zones))
      ensures selectedButton == old(selectedButton) && currentGridType == old(currentGridType)
      ensures layoutClasses == old(layoutClasses) && layoutGridType == old(layoutGridType)
    {
      var zs := zones;
      var n := 0;
      while n < |highlightedZones|
        invariant 0 <= n <= |highlightedZones| && |zs| == |zones|
        invariant forall k :: 0 <= k < |zs| ==> zs[k] == zones[k] || zs[k] == Unhighlighted(zones[k])
      {
        var k := highlightedZones[n];
        zs := zs[k := Unhighlighted(zs[k])];
        n := n + 1;
      }
      n := 0;
      while n < |zs|
        invariant 0 <= n <= |zs| == |zones|
        invariant forall k :: 0 <= k < n ==> zs[k] == Unhighlighted(zones[k])
        invariant forall k :: n <= k < |zs| ==> zs[k] == zones[k] || zs[k] == Unhighlighted(zones[k])
      {
        zs := zs[n := Unhighlighted(zs[n])];
        n := n + 1;
      }
      zones := zs;
      highlightedZones := [];
    }

    /**
     * `selectButton`: afterwards exactly the selected button carries `selected`,
     * and a target without content selects nothing.
     */
    method SelectButton(target: Option<nat>)
      requires Valid() && (target.Some? ==> target.value < |zones|)
      modifies this
      ensures Valid() && |zones| == |old(zones)|
      ensures selectedButton == (if target.Some? && "has-content" in old(zones)[target.value].classes then target else None)
      ensures forall k :: 0 <= k < |zones| ==> ("selected" in zones[k].classes <==> selectedButton == Some(k))
      ensures forall k :: 0 <= k < |zones| ==>
        zones[k] == old(zones[k]).(classes := if selectedButton == Some(k) then old(zones[k]).classes + {"selected"}
                                              else old(zones[k]).classes - {"selected"})
      ensures highlightedZones == old(highlightedZones) && currentGridType == old(currentGridType)
      ensures layoutClasses == old(layoutClasses) && layoutGridType == old(layoutGridType)
    {
      var zs := zones;
      var n := 0;
      while n < |zs|
        invariant 0 <= n <= |zs| == |zones|
        invariant forall k :: 0 <= k < n ==> zs[k] == zones[k].(classes := zones[k].classes - {"selected"})
        invariant forall k :: n <= k < |zs| ==> zs[k] == zones[k]
      {
        zs := zs[n := zs[n].(classes := zs[n].classes - {"selected"})];
        n := n + 1;
      }
      if target.Some? && "has-content" in zs[target.value].classes {
        var k := target.value;
        zs := zs[k := zs[k].(classes := zs[k].classes + {"selected"})];
        selectedButton := target;
      } else {
        selectedButton := None;
      }
      zones := zs;
    }

    /**
     * `clearDropZone`: the zone is cleared and every other zone named in its
     * `data-merged-zones` is un-merged; no other zone changes.
     */
    method ClearDropZone(i: nat)
      requires Valid() && i < |zones|
      modifies this
      ensures Valid() && zones == ClearedAt(slots, old(zones), i)
      ensures highlightedZones == old(highlightedZones) && selectedButton == old(selectedButton)
      ensures currentGridType == old(currentGridType)
      ensures layoutClasses == old(layoutClasses) && layoutGridType == old(layoutGridType)
    {
      var z := zones[i];
      var zs := zones[i := z.(button := None, classes := z.classes - {"has-content"},
                              attrs := z.attrs - {DataButtonType, DataButtonClasses})];
      var names := MergedPlaces(z);
      if names != [] {
        ghost var emptied := zs[i];
        var n := 0;
        while n < |names|
          invariant 0 <= n <= |names| && zs == UnmergedNamed(slots, zones, i, names[..n])[i := emptied]
        {
          var j := FindPlace(slots, names[n]);
          assert names[..n + 1][..n] == names[..n];
          if j.Some? && j.value != i {
            zs := zs[j.value := Unmerged(zs[j.value])];
          }
          n := n + 1;
        }
        assert names[..n] == names;
        zs := zs[i := zs[i].(attrs := zs[i].attrs - {DataMergedZones})];
      }
      zs := zs[i := zs[i].(attrs := zs[i].attrs - {DataColSpan, DataRowSpan},
                           classes := zs[i].classes - DynamicSpanClasses(zs[i].classes))];
      zones := zs;
    }

    /** One covered zone in the first step of `placeButtonInMergedZones`: its button and any button it is part of are cleared. */
    method ClearOverlap(k: nat)
      requires Valid() && k < |zones|
      modifies this
      ensures Valid() && zones == OverlapCleared(slots, old(zones), k)
      ensures highlightedZones == old(highlightedZones) && selectedButton == old(selectedButton)
      ensures currentGridType == old(currentGridType)
      ensures layoutClasses == old(layoutClasses) && layoutGridType == old(layoutGridType)
    {
      if DataMergedZones in zones[k].attrs {
        ClearDropZone(k);
      }
      ClearParent(k);
      zones := zones[k := zones[k].(button := None)];
    }

    /** The button a hidden zone is merged into, found by its `data-place`, is cleared. */
    method ClearParent(k: nat)
      requires Valid() && k < |zones|
      modifies this
      ensures Valid() && zones == ParentCleared(slots, old(zones), k)
      ensures highlightedZones == old(highlightedZones) && selectedButton == old(selectedButton)
      ensures currentGridType == old(currentGridType)
      ensures layoutClasses == old(layoutClasses) && layoutGridType == old(layoutGridType)
    {
      if DataMergedInto in zones[k].attrs {
        var parent := FindPlace(slots, zones[k].attrs[DataMergedInto]);
        if parent.Some? {
          ClearDropZone(parent.value);
        }
      }
    }

    /** The first step of `placeButtonInMergedZones`: every button overlapping the covered zones is cleared. */
    method ClearOverlaps(covered: seq<nat>)
      requires Valid() && forall m :: 0 <= m < |covered| ==> covered[m] < |zones|
      modifies this
      ensures Valid() && zones == OverlapsCleared(slots, old(zones), covered, 0)
      ensures highlightedZones == old(highlightedZones) && selectedButton == old(selectedButton)
      ensures currentGridType == old(currentGridType)
      ensures layoutClasses == old(layoutClasses) && layoutGridType == old(layoutGridType)
    {
      var m := 0;
      while m < |covered|
        invariant 0 <= m <= |covered| && Valid()
        invariant OverlapsCleared(slots, zones, covered, m) == OverlapsCleared(slots, old(zones), covered, 0)
        invariant highlightedZones == old(highlightedZones) && selectedButton == old(selectedButton)
        invariant currentGridType == old(currentGridType)
        invariant layoutClasses == old(layoutClasses) && layoutGridType == old(layoutGridType)
      {
        ClearOverlap(covered[m]);
        m := m + 1;
      }
    }

    /** The second step of `placeButtonInMergedZones`: every covered zone but the start is hidden behind it. */
    method HideCovered(start: nat, covered: seq<nat>)
      requires Valid() && start < |zones| && forall m :: 0 <= m < |covered| ==> covered[m] < |zones|
      modifies this
      ensures Valid() && zones == HiddenAt(slots, old(zones), start, covered)
      ensures highlightedZones == old(highlightedZones) && selectedButton == old(selectedButton)
      ensures currentGridType == old(currentGridType)
      ensures layoutClasses == old(layoutClasses) && layoutGridType == old(layoutGridType)
    {
      var startPlace := slots[start].place;
      forall z: Zone ensures MarkMerged(MarkMerged(z, startPlace), startPlace) == MarkMerged(z, startPlace) {
        MarkMergedIdempotent(z, startPlace);
      }
      var zs := zones;
      var m := 0;
      while m < |covered|
        invariant 0 <= m <= |covered| && |zs| == |zones|
        invariant forall k :: 0 <= k < |zs| ==>
          zs[k] == if k in covered[..m] && k != start then MarkMerged(zones[k], startPlace) else zones[k]
      {
        var k := covered[m];
        if k != start {
          zs := zs[k := MarkMerged(zs[k], startPlace)];
        }
        assert covered[..m + 1] == covered[..m] + [k];
        m := m + 1;
      }
      assert covered[..m] == covered;
      zones := zs;
    }

    /**
     * The last step of `placeButtonInMergedZones`: the start zone shows the
     * button over the whole span, becomes the only selected zone and records
     * the button and the covered places.
     */
    method ShowAtStart(start: nat, data: DragData, places: seq<string>)
      requires Valid() && start < |zones|
      modifies this
      ensures Valid() && zones == ShownAt(old(zones), start, data, places) && selectedButton == Some(start)
      ensures highlightedZones == old(highlightedZones) && currentGridType == old(currentGridType)
      ensures layoutClasses == old(layoutClasses) && layoutGridType == old(layoutGridType)
    {
      var colSpan := Or1(data.colSpan);
      var rowSpan := Or1(data.rowSpan);
      var spanned := SpannedClasses(zones[start].classes, colSpan, rowSpan);
      zones := zones[start := zones[start].(classes := spanned + {"has-content"}, button := Some(data))];
      SelectButton(Some(start));
      assert zones[start].classes == spanned + {"has-content", "selected"};
      zones := zones[start := zones[start].(attrs := ButtonAttrs(zones[start].attrs, data, places, colSpan, rowSpan))];
    }

    /**
     * `placeButtonInMergedZones`: buttons overlapping the covered zones are
     * cleared first; then every covered zone other than the start is hidden
     * behind it, and the start holds the button over the whole span, is the
     * only selected zone and records the type, classes, covered places and spans.
     */
    method PlaceButtonInMergedZones(start: nat, covered: seq<nat>, data: DragData)
      requires Valid() && start < |zones| && forall m :: 0 <= m < |covered| ==> covered[m] < |zones|
      modifies this
      ensures Valid() && zones == Placement(slots, old(zones), start, covered, data) && selectedButton == Some(start)
      ensures highlightedZones == old(highlightedZones) && currentGridType == old(currentGridType)
      ensures layoutClasses == old(layoutClasses) && layoutGridType == old(layoutGridType)
    {
      ClearOverlaps(covered);
      HideCovered(start, covered);
      ShowAtStart(start, data, PlacesOf(slots, covered));
    }

    /**
     * `updateGridLayout`: the layout element is tagged with the grid type and
     * every zone is emptied, un-merged and shown or hidden by that type.
     */
    method UpdateGridLayout(gridType: string)
      requires Valid()
      modifies this
      ensures Valid() && |zones| == |old(zones)|
      ensures forall k :: 0 <= k < |zones| ==> zones[k] == LaidOut(old(zones[k]), positions[k], gridType)
      ensures layoutClasses == old(layoutClasses) - {"layout-2x4", "layout-1x8", "layout-2x6"} + {"layout-" + gridType}
      ensures layoutGridType == Some(gridType)
      ensures highlightedZones == old(highlightedZones) && selectedButton == old(selectedButton)
      ensures currentGridType == old(currentGridType)
    {
      layoutClasses := layoutClasses - {"layout-2x4", "layout-1x8", "layout-2x6"} + {"layout-" + gridType};
      layoutGridType := Some(gridType);
      var zs := zones;
      var n := 0;
      while n < |zs|
        invariant 0 <= n <= |zs| == |zones|
        invariant forall k :: 0 <= k < n ==> zs[k] == LaidOut(zones[k], positions[k], gridType)
        invariant forall k :: n <= k < |zs| ==> zs[k] == zones[k]
      {
        zs := zs[n := LaidOut(zs[n], positions[n], gridType)];
        n := n + 1;
      }
      zones := zs;
    }

    /** `getLayoutState`: the button type and classes of every zone that holds a button, by place. */
    method GetLayoutState() returns (state: map<string, LayoutEntry>)
      requires Valid()
      ensures state == LayoutState(slots, zones)
    {
      state := map[];
      var n := 0;
      while n < |zones|
        invariant 0 <= n <= |zones|
        invariant state == LayoutState(slots[..n], zones[..n])
      {
        assert zones[..n + 1][..n] == zones[..n] && slots[..n + 1][..n] == slots[..n];
        if HasButtonType(zones[n]) {
          state := state[slots[n].place := EntryOf(zones[n])];
        }
        n := n + 1;
      }
      assert zones[..n] == zones && slots[..n] == slots;
    }

    /**
     * `handleDrop`: a drop places the button when the covered zones can be
     * found, reports a button that does not fit, and stays silent otherwise.
     * `None` stands for a payload that is not valid JSON.
     */
    method HandleDrop(target: nat, data: Option<DragData>) returns (fb: Feedback)
      requires Valid() && target < |zones|
      modifies this
      ensures Valid() && highlightedZones == []
      ensures data.None? ==> fb == ErrorPlacing
      ensures data.Some? ==>
        var m := ZonesToMerge(positions, currentGridType, positions[target], data.value);
        var cfg := GridConfig(currentGridType);
        (fb == Placed <==> m.Cells? && |m.covered| > 0) &&
        (fb == ErrorPlacing <==> m.Throws?) &&
        (fb.DoesNotFit? <==> cfg.Some? && OutOfBounds(positions[target], data.value, cfg.value)) &&
        (fb.DoesNotFit? ==> fb == DoesNotFit(Or1(data.value.colSpan), Or1(data.value.rowSpan), cfg.value.columns, cfg.value.rows)) &&
        (fb == Silent <==> m.Null? && !OutOfBounds(positions[target], data.value, cfg.value))
      ensures fb == Placed ==>
        zones == Placement(slots, Unhighlight(old(zones)), target, ZonesToMerge(positions, currentGridType, positions[target], data.value).covered, data.value) &&
        selectedButton == Some(target)
      ensures fb != Placed ==> zones == Unhighlight(old(zones)) && selectedButton == old(selectedButton)
      ensures currentGridType == old(currentGridType)
      ensures layoutClasses == old(layoutClasses) && layoutGridType == old(layoutGridType)
    {
      ClearAllHighlights();
      if data.None? {
        return ErrorPlacing;
      }
      var merge := GetZonesToMerge(target, data.value);
      if merge.Throws? {
        return ErrorPlacing;
      }
      if merge.Cells? && |merge.covered| > 0 {
        MergeCovers(positions, currentGridType, positions[target], data.value);
        PlaceButtonInMergedZones(target, merge.covered, data.value);
        return Placed;
      }
      var start := positions[target];
      var colSpan := Or1(data.value.colSpan);
      var rowSpan := Or1(data.value.rowSpan);
      var config := GridConfig(currentGridType).value;
      if start.row + rowSpan - 1 > config.rows || start.col + colSpan - 1 > config.columns {
        return DoesNotFit(colSpan, rowSpan, config.columns, config.rows);
      }
      assert merge.Null? by {
        if merge.Cells? {
          MergeCovers(positions, currentGridType, positions[target], data.value);
        }
      }
      return Silent;
    }
  }
}
