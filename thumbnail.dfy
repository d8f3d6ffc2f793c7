/**
 * The saved-design thumbnail (`SavedDesignsThumbnail.jsx`): the grid type
 * gives the columns and rows, at most six rows are drawn, and the cells are
 * laid out row by row. A primary zone draws one cell spanning its button and
 * marks every cell it covers as done; a merged zone draws nothing; any other
 * cell draws an empty 1 × 1 cell in the default colour.
 *
 * The zone records are read under the keys `zone-{index}`, counted from 0
 * row by row; the set of finished cells holds those indices.
 */
module Thumbnail {
  import opened Js

  // ---------------------------------------------------------------------------
  // Grid dimensions

  /**
   * The leftmost match of `/(\d+)x(\d+)/` from position `i`: a maximal run of
   * digits directly followed by `x` and a digit, read as two decimal numbers.
   */
  function DimsAt(s: string, i: nat): (r: Option<(nat, nat)>)
    decreases |s| - i
  {
    if i >= |s| then None
    else
      var a := TakeWhile(s[i..], IsDigit);
      var j := i + |a|;
      if |a| > 0 && j + 1 < |s| && s[j] == 'x' && IsDigit(s[j + 1])
      then Some((DecimalValue(a), DecimalValue(TakeWhile(s[j + 1..], IsDigit))))
      else DimsAt(s, i + 1)
  }

  /** The columns and rows of a grid type: the named layouts, then the `dora-`/`pblock-` pattern, else 2 × 4. */
  function GridDims(gridType: string): (d: (nat, nat))
    ensures gridType == "2x4" || gridType == "dora-2x4" ==> d == (2, 4)
    ensures gridType == "2x6" || gridType == "dora-6plus3T" || gridType == "dora-2x6" ==> d == (2, 6)
    ensures gridType == "2x8" || gridType == "dora-2x8" ==> d == (2, 8)
    ensures gridType == "dora-3plus2T" ==> d == (3, 3)
    ensures (!StartsWith(gridType, "dora-") && !StartsWith(gridType, "pblock-") &&
             gridType !in {"2x4", "2x6", "2x8"}) ==> d == (2, 4)
  {
    if gridType == "2x4" then (2, 4)
    else if gridType == "2x6" then (2, 6)
    else if gridType == "2x8" then (2, 8)
    else if gridType == "dora-3plus2T" then (3, 3)
    else if gridType == "dora-6plus3T" then (2, 6)
    else if gridType == "dora-2x6" then (2, 6)
    else if gridType == "dora-2x8" then (2, 8)
    else if gridType == "dora-2x4" then (2, 4)
    else if StartsWith(gridType, "dora-") || StartsWith(gridType, "pblock-") then
      match DimsAt(gridType, 0)
      case Some(d) => d
      case None => (2, 4)
    else (2, 4)
  }

  /** Positions before the numbers that hold no digit are skipped. */
  lemma {:induction false} DimsSkip(s: string, i: nat, n: nat)
    requires i <= n <= |s| && forall k :: i <= k < n ==> !IsDigit(s[k])
    ensures DimsAt(s, i) == DimsAt(s, n)
    decreases n - i
  {
    if i < n {
      assert !IsDigit(s[i..][0]);
      DimsSkip(s, i + 1, n);
    }
  }

  /** Two digit runs `sa` and `sb` written as `{sa}x{sb}` at position `i` are the match found there. */
  lemma {:induction false} DimsAtWritten(s: string, i: nat, sa: string, sb: string)
    requires i <= |s| && s[i..] == sa + ("x" + sb)
    requires |sa| > 0 && |sb| > 0
    requires forall k :: 0 <= k < |sa| ==> IsDigit(sa[k])
    requires forall k :: 0 <= k < |sb| ==> IsDigit(sb[k])
    ensures DimsAt(s, i) == Some((DecimalValue(sa), DecimalValue(sb)))
  {
    TakeWhilePrefix(sa, "x" + sb, IsDigit);
    var j := i + |sa|;
    assert s[j] == s[i..][|sa|] == 'x';
    assert s[j + 1] == s[i..][|sa| + 1] == sb[0];
    assert s[j + 1..] == s[i..][|sa| + 1..] == sb;
    TakeWhileAll(sb, IsDigit);
  }

  /** `{prefix}{a}x{b}` with no digit in the prefix matches with `a` and `b`. */
  lemma {:induction false} DimsOfName(p: string, a: nat, b: nat)
    requires forall k :: 0 <= k < |p| ==> !IsDigit(p[k])
    ensures DimsAt(p + NatToString(a) + "x" + NatToString(b), 0) == Some((a, b))
  {
    var sa, sb := NatToString(a), NatToString(b);
    var s := p + sa + "x" + sb;
    DimsSkip(s, 0, |p|);
    assert s[|p|..] == sa + ("x" + sb);
    DimsAtWritten(s, |p|, sa, sb);
    DecimalValueOfNatToString(a);
    DecimalValueOfNatToString(b);
  }

  /** The named `dora-` layouts written as `{a}x{b}` agree with the pattern. */
  lemma NamedAgree()
    ensures DimsAt("dora-2x4", 0) == Some((2, 4))
    ensures DimsAt("dora-2x6", 0) == Some((2, 6))
    ensures DimsAt("dora-2x8", 0) == Some((2, 8))
  {
    assert NatToString(2) == "2" && NatToString(4) == "4" && NatToString(6) == "6" && NatToString(8) == "8";
    DimsOfName("dora-", 2, 4);
    assert "dora-" + "2" + "x" + "4" == "dora-2x4";
    DimsOfName("dora-", 2, 6);
    assert "dora-" + "2" + "x" + "6" == "dora-2x6";
    DimsOfName("dora-", 2, 8);
    assert "dora-" + "2" + "x" + "8" == "dora-2x8";
  }

  /** Every `dora-{a}x{b}` and `pblock-{a}x{b}` grid has `a` columns and `b` rows, the named ones included. */
  lemma GridDimsPattern(prefix: string, a: nat, b: nat)
    requires prefix == "dora-" || prefix == "pblock-"
    ensures GridDims(prefix + NatToString(a) + "x" + NatToString(b)) == (a, b)
  {
    var s := prefix + NatToString(a) + "x" + NatToString(b);
    DimsOfName(prefix, a, b);
    assert s[..|prefix|] == prefix;
    assert s[|prefix| + |NatToString(a)|] == 'x';
    GridDimsByPattern(s);
  }

  /** A `dora-`/`pblock-` name holding an `x` and matching the pattern takes the pattern's numbers. */
  lemma GridDimsByPattern(s: string)
    requires StartsWith(s, "dora-") || StartsWith(s, "pblock-")
    requires 'x' in s && DimsAt(s, 0).Some?
    ensures GridDims(s) == DimsAt(s, 0).value
  {
    assert s[0] != '2';
    NoX();
    if s == "dora-2x4" || s == "dora-2x6" || s == "dora-2x8" {
      NamedAgree();
    }
  }

  /** The two named `dora-` layouts that the pattern cannot match. */
  lemma NoX()
    ensures 'x' !in "dora-3plus2T" && 'x' !in "dora-6plus3T"
  {
  }

  /** `Math.min(rows, 6)`. */
  function DisplayRows(rows: nat): (r: nat)
    ensures r <= 6 && r <= rows && (rows <= 6 ==> r == rows)
  {
    Min(rows, 6)
  }

  // ---------------------------------------------------------------------------
  // Colours

  /** The thumbnail's colour table; an unknown name is `#f5f5f5`. */
  function ThumbColor(colorName: string): (hex: string)
    ensures colorName == "pure-gold" ==> hex == "#c59158"
    ensures colorName !in {"polar-white", "royal-silver", "anthracite-gray", "meteor-black", "texture-black",
                           "pure-gold", "antique-copper", "antique-bronze", "red-cherry", "green-leaf"}
            ==> hex == "#f5f5f5"
    ensures IsHexColor(hex)
  {
    if colorName == "polar-white" then "#ffffff"
    else if colorName == "royal-silver" then "#cbd5e1"
    else if colorName == "anthracite-gray" then "#475569"
    else if colorName == "meteor-black" then "#1e293b"
    else if colorName == "texture-black" then "#0f172a"
    else if colorName == "pure-gold" then "#c59158"
    else if colorName == "antique-copper" then "#b45309"
    else if colorName == "antique-bronze" then "#78350f"
    else if colorName == "red-cherry" then "#dc2626"
    else if colorName == "green-leaf" then "#16a34a"
    else "#f5f5f5"
  }

  /** `fullColor || frameColor || 'polar-white'`. */
  function DefaultColor(fullColor: Option<string>, frameColor: Option<string>): (c: string)
    ensures Truthy(fullColor) ==> c == fullColor.value
    ensures !Truthy(fullColor) && Truthy(frameColor) ==> c == frameColor.value
    ensures !Truthy(fullColor) && !Truthy(frameColor) ==> c == "polar-white"
  {
    Or(fullColor, Or(frameColor, Some("polar-white"))).value
  }

  // ---------------------------------------------------------------------------
  // Zones and cells

  /** `s0`, `s1` or `s2` of a zone record: its `type`, `color` and `value`. */
  datatype Section = Section(kind: Option<string>, color: Option<string>, value: Option<string>)

  /** A zone record as the thumbnail reads it; an absent flag is `false`. */
  datatype ThumbZone = ThumbZone(
    isPrimary: bool, isMerged: bool, colSpan: Option<int>, rowSpan: Option<int>, color: Option<string>,
    s0: Option<Section>, s1: Option<Section>, s2: Option<Section>)

  /** A saved design as far as the thumbnail reads it. */
  datatype ThumbDesign = ThumbDesign(
    gridType: string, dropZones: map<string, ThumbZone>, frameColor: Option<string>, fullColor: Option<string>)

  /** A drawn cell: `col` and `row` are the 1-based grid lines it starts on. */
  datatype ThumbCell =
    | ButtonCell(key: string, col: int, row: int, colSpan: int, rowSpan: int, background: string,
                 textColor: string, caption: Option<string>, iconDot: bool)
    | EmptyCell(key: string, col: int, row: int, background: string)

  /** `zone-${index}`. */
  function ZoneKey(index: int): string {
    "zone-" + IntToString(index)
  }

  predicate HasKind(s: Option<Section>, kind: string) {
    s.Some? && s.value.kind == Some(kind)
  }

  /** The field of the first section, in the order `s0`, `s1`, `s2`, whose value is truthy. */
  function FirstOf(a: Option<string>, b: Option<string>, c: Option<string>, fallback: string): (r: string)
    ensures Truthy(a) ==> r == a.value
    ensures !Truthy(a) && Truthy(b) ==> r == b.value
    ensures !Truthy(a) && !Truthy(b) && Truthy(c) ==> r == c.value
    ensures !Truthy(a) && !Truthy(b) && !Truthy(c) ==> r == fallback
  {
    Or(a, Or(b, Or(c, Some(fallback)))).value
  }

  function ColorOf(s: Option<Section>): Option<string> {
    if s.Some? then s.value.color else None
  }

  function ValueOf(s: Option<Section>): Option<string> {
    if s.Some? then s.value.value else None
  }

  /** Some section of the zone has type `kind`. */
  predicate ZoneHas(zone: ThumbZone, kind: string) {
    HasKind(zone.s0, kind) || HasKind(zone.s1, kind) || HasKind(zone.s2, kind)
  }

  /** The cell a primary zone draws at 0-based `(row, col)`: its spans, its colour, and text or an icon dot. */
  function PrimaryCell(zone: ThumbZone, key: string, row: int, col: int, fullColor: Option<string>, frameColor: Option<string>): (cell: ThumbCell)
    ensures cell.ButtonCell? && cell.key == key && cell.col == col + 1 && cell.row == row + 1
    ensures cell.colSpan == Or1(zone.colSpan) && cell.rowSpan == Or1(zone.rowSpan)
    ensures cell.background == ThumbColor(Or(zone.color, Some(DefaultColor(fullColor, frameColor))).value)
    ensures cell.caption.Some? <==> ZoneHas(zone, "text")
    ensures ZoneHas(zone, "text") ==>
              cell.textColor == FirstOf(ColorOf(zone.s0), ColorOf(zone.s1), ColorOf(zone.s2), "#fff") &&
              cell.caption.value == FirstOf(ValueOf(zone.s0), ValueOf(zone.s1), ValueOf(zone.s2), "")
    ensures !ZoneHas(zone, "text") ==> cell.textColor == "transparent"
    ensures cell.iconDot <==> ZoneHas(zone, "icon") && !ZoneHas(zone, "text")
  {
    var hasIcon := ZoneHas(zone, "icon");
    var hasText := ZoneHas(zone, "text");
    ButtonCell(key, col + 1, row + 1, Or1(zone.colSpan), Or1(zone.rowSpan),
               ThumbColor(Or(zone.color, Some(DefaultColor(fullColor, frameColor))).value),
               if hasText then FirstOf(ColorOf(zone.s0), ColorOf(zone.s1), ColorOf(zone.s2), "#fff") else "transparent",
               if hasText then Some(FirstOf(ValueOf(zone.s0), ValueOf(zone.s1), ValueOf(zone.s2), "")) else None,
               hasIcon && !hasText)
  }

  /** The index of the cell at 0-based `(row, col)` in a grid `cols` wide, counted row by row. */
  function Idx(row: int, col: int, cols: int): int {
    row * cols + col
  }

  /** The indices of columns `col .. col+cs-1` of `row`. */
  function CoveredCols(row: int, col: int, cols: int, cs: int): (r: set<int>)
    ensures cs >= 1 ==> Idx(row, col, cols) in r
    decreases cs
  {
    if cs <= 0 then {} else CoveredCols(row, col, cols, cs - 1) + {Idx(row, col + cs - 1, cols)}
  }

  /** The indices of the rectangle of `rs` rows and `cs` columns whose top left cell is `(row, col)`. */
  function CoveredRows(row: int, col: int, cols: int, rs: int, cs: int): (r: set<int>)
    ensures rs >= 1 && cs >= 1 ==> Idx(row, col, cols) in r
    decreases rs
  {
    if rs <= 0 then {} else CoveredRows(row, col, cols, rs - 1, cs) + CoveredCols(row + rs - 1, col, cols, cs)
  }

  lemma {:induction false} CoveredColsIff(row: int, col: int, cols: int, cs: int, x: int)
    ensures x in CoveredCols(row, col, cols, cs) <==> exists j :: col <= j < col + cs && x == Idx(row, j, cols)
    decreases cs
  {
    if cs > 0 {
      CoveredColsIff(row, col, cols, cs - 1, x);
      if x == Idx(row, col + cs - 1, cols) {
        assert col <= col + cs - 1 < col + cs;
      }
    }
  }

  /** A primary zone covers exactly the cells of its rectangle. */
  lemma {:induction false} CoveredRowsIff(row: int, col: int, cols: int, rs: int, cs: int, x: int)
    ensures x in CoveredRows(row, col, cols, rs, cs) <==>
            exists i, j :: row <= i < row + rs && col <= j < col + cs && x == Idx(i, j, cols)
    decreases rs
  {
    if rs > 0 {
      CoveredRowsIff(row, col, cols, rs - 1, cs, x);
      CoveredColsIff(row + rs - 1, col, cols, cs, x);
      if exists i, j :: row <= i < row + rs && col <= j < col + cs && x == Idx(i, j, cols) {
        var i, j :| row <= i < row + rs && col <= j < col + cs && x == Idx(i, j, cols);
        if i < row + rs - 1 {
          assert row <= i < row + (rs - 1);
        }
      }
    }
  }

  /** The finished cells and the drawn cells, as the loops keep them. */
  datatype Walk = Walk(processed: set<int>, cells: seq<ThumbCell>)

  /** Every zone spans at least one row and one column once `|| 1` is applied. */
  predicate SpansPositive(d: ThumbDesign) {
    forall k :: k in d.dropZones ==> Or1(d.dropZones[k].rowSpan) >= 1 && Or1(d.dropZones[k].colSpan) >= 1
  }

  /** One step of the inner loop, at 0-based `(row, col)`. */
  function Visit(w: Walk, d: ThumbDesign, cols: int, row: int, col: int): (r: Walk)
    ensures Idx(row, col, cols) in w.processed ==> r == w
    ensures w.processed <= r.processed
    ensures SpansPositive(d) ==> Idx(row, col, cols) in r.processed
    ensures r.cells == w.cells || (|r.cells| == |w.cells| + 1 && r.cells[..|w.cells|] == w.cells)
  {
    var index := Idx(row, col, cols);
    var key := ZoneKey(index);
    if index in w.processed then w
    else if key in d.dropZones && d.dropZones[key].isPrimary then
      var zone := d.dropZones[key];
      Walk(w.processed + CoveredRows(row, col, cols, Or1(zone.rowSpan), Or1(zone.colSpan)),
           w.cells + [PrimaryCell(zone, key, row, col, d.fullColor, d.frameColor)])
    else if key in d.dropZones && d.dropZones[key].isMerged then
      Walk(w.processed + {index}, w.cells)
    else
      Walk(w.processed + {index}, w.cells + [EmptyCell(key, col + 1, row + 1, ThumbColor(DefaultColor(d.fullColor, d.frameColor)))])
  }

  /** Columns `0 .. c-1` of `row`. */
  function RowWalk(w: Walk, d: ThumbDesign, cols: int, row: int, c: nat): Walk
    decreases c
  {
    if c == 0 then w else Visit(RowWalk(w, d, cols, row, c - 1), d, cols, row, c - 1)
  }

  /** Rows `0 .. r-1`, each over all `cols` columns. */
  function Rows(d: ThumbDesign, cols: nat, r: nat): Walk
    decreases r
  {
    if r == 0 then Walk({}, []) else RowWalk(Rows(d, cols, r - 1), d, cols, r - 1, cols)
  }

  // ---------------------------------------------------------------------------
  // Properties of the walk

  /** A visited row leaves every one of its visited cells finished. */
  lemma {:induction false} RowWalkFinishes(w: Walk, d: ThumbDesign, cols: int, row: int, c: nat)
    requires SpansPositive(d)
    ensures var r := RowWalk(w, d, cols, row, c);
            w.processed <= r.processed && forall k :: 0 <= k < c ==> Idx(row, k, cols) in r.processed
    decreases c
  {
    if c > 0 {
      RowWalkFinishes(w, d, cols, row, c - 1);
    }
  }

  /** After the walk every cell of the drawn grid is finished: drawn, merged away, or covered by a button. */
  lemma {:induction false} WalkFinishesAll(d: ThumbDesign, cols: nat, r: nat)
    requires SpansPositive(d)
    ensures forall row, col :: 0 <= row < r && 0 <= col < cols ==> Idx(row, col, cols) in Rows(d, cols, r).processed
    decreases r
  {
    if r > 0 {
      WalkFinishesAll(d, cols, r - 1);
      RowWalkFinishes(Rows(d, cols, r - 1), d, cols, r - 1, cols);
    }
  }

  /**
   * The three kinds of cell: a primary zone draws one cell with its spans and
   * finishes its whole rectangle; a merged zone draws nothing; any other
   * cell draws one 1 × 1 empty cell. A finished cell draws nothing.
   */
  lemma VisitKinds(w: Walk, d: ThumbDesign, cols: int, row: int, col: int)
    requires Idx(row, col, cols) !in w.processed
    ensures var key := ZoneKey(Idx(row, col, cols));
            var r := Visit(w, d, cols, row, col);
            if key in d.dropZones && d.dropZones[key].isPrimary then
              var z := d.dropZones[key];
              && r.cells == w.cells + [PrimaryCell(z, key, row, col, d.fullColor, d.frameColor)]
              && (forall i, j :: row <= i < row + Or1(z.rowSpan) && col <= j < col + Or1(z.colSpan) ==> Idx(i, j, cols) in r.processed)
            else if key in d.dropZones && d.dropZones[key].isMerged then
              r.cells == w.cells
            else
              r.cells == w.cells + [EmptyCell(key, col + 1, row + 1, ThumbColor(DefaultColor(d.fullColor, d.frameColor)))]
  {
    var key := ZoneKey(Idx(row, col, cols));
    if key in d.dropZones && d.dropZones[key].isPrimary {
      var z := d.dropZones[key];
      forall i, j | row <= i < row + Or1(z.rowSpan) && col <= j < col + Or1(z.colSpan)
        ensures Idx(i, j, cols) in Visit(w, d, cols, row, col).processed
      {
        CoveredRowsIff(row, col, cols, Or1(z.rowSpan), Or1(z.colSpan), Idx(i, j, cols));
      }
    }
  }

  /** A cell covered by a primary zone drawn earlier is skipped when the loops reach it. */
  lemma CoveredSkipped(w: Walk, d: ThumbDesign, cols: int, row: int, col: int, i: int, j: int)
    requires Idx(row, col, cols) !in w.processed
    requires ZoneKey(Idx(row, col, cols)) in d.dropZones && d.dropZones[ZoneKey(Idx(row, col, cols))].isPrimary
    requires var z := d.dropZones[ZoneKey(Idx(row, col, cols))];
             row <= i < row + Or1(z.rowSpan) && col <= j < col + Or1(z.colSpan)
    ensures var r := Visit(w, d, cols, row, col);
            Visit(r, d, cols, i, j) == r
  {
    VisitKinds(w, d, cols, row, col);
  }

  /** No zone record under any `zone-{index}` key. */
  predicate NoZoneKeys(d: ThumbDesign) {
    forall k :: k in d.dropZones ==> !StartsWith(k, "zone-")
  }

  /** The empty cell at `(row, col)`. */
  function Blank(d: ThumbDesign, cols: int, row: int, col: int): ThumbCell {
    EmptyCell(ZoneKey(Idx(row, col, cols)), col + 1, row + 1, ThumbColor(DefaultColor(d.fullColor, d.frameColor)))
  }

  /** Columns `0 .. c-1` of `row` as empty cells. */
  function BlankRow(d: ThumbDesign, cols: int, row: int, c: nat): (cells: seq<ThumbCell>)
    ensures |cells| == c && forall k :: 0 <= k < c ==> cells[k].EmptyCell?
  {
    if c == 0 then [] else BlankRow(d, cols, row, c - 1) + [Blank(d, cols, row, c - 1)]
  }

  /** Cell `k` of the row is the empty cell at column `k`. */
  lemma {:induction false} BlankRowAt(d: ThumbDesign, cols: int, row: int, c: nat, k: nat)
    requires k < c
    ensures BlankRow(d, cols, row, c)[k] == Blank(d, cols, row, k)
    decreases c
  {
    if k < c - 1 {
      BlankRowAt(d, cols, row, c - 1, k);
    }
  }

  /** Rows `0 .. r-1` as empty cells, row by row. */
  function BlankGrid(d: ThumbDesign, cols: nat, r: nat): (cells: seq<ThumbCell>)
    ensures forall k :: 0 <= k < |cells| ==> cells[k].EmptyCell?
  {
    if r == 0 then [] else BlankGrid(d, cols, r - 1) + BlankRow(d, cols, r - 1, cols)
  }

  /** The empty grid has `r × cols` cells. */
  lemma {:induction false} BlankGridLength(d: ThumbDesign, cols: nat, r: nat)
    ensures |BlankGrid(d, cols, r)| == r * cols
    decreases r
  {
    if r > 0 {
      BlankGridLength(d, cols, r - 1);
      assert |BlankGrid(d, cols, r)| == (r - 1) * cols + cols;
    }
  }

  /** Without zone records a row is drawn as empty cells. */
  lemma {:induction false} EmptyRow(w: Walk, d: ThumbDesign, cols: nat, row: nat, c: nat)
    requires NoZoneKeys(d) && c <= cols
    requires forall k :: k in w.processed ==> k < Idx(row, 0, cols)
    ensures var r := RowWalk(w, d, cols, row, c);
            && r.cells == w.cells + BlankRow(d, cols, row, c)
            && (forall k :: k in r.processed ==> k < Idx(row, c, cols))
    decreases c
  {
    if c > 0 {
      EmptyRow(w, d, cols, row, c - 1);
      var key := ZoneKey(Idx(row, c - 1, cols));
      assert StartsWith(key, "zone-");
    }
  }

  /** The next row starts `cols` cells later. */
  lemma NextRow(row: int, cols: int)
    ensures Idx(row + 1, 0, cols) == Idx(row, cols, cols)
  {
  }

  /** Without zone records, the walk over rows `0 .. r-1` has finished only cells before row `r`. */
  lemma {:induction false} EmptyWalkProcessed(d: ThumbDesign, cols: nat, r: nat)
    requires NoZoneKeys(d)
    ensures forall k :: k in Rows(d, cols, r).processed ==> k < Idx(r, 0, cols)
    decreases r
  {
    if r > 0 {
      var prev := Rows(d, cols, r - 1);
      EmptyWalkProcessed(d, cols, r - 1);
      EmptyRow(prev, d, cols, r - 1, cols);
      NextRow(r - 1, cols);
      var w := RowWalk(prev, d, cols, r - 1, cols);
      assert Rows(d, cols, r) == w;
      forall k | k in w.processed
        ensures k < Idx(r, 0, cols)
      {
        assert k < Idx(r - 1, cols, cols);
      }
    }
  }

  /** Without zone records, each further row appends its empty cells to the walk. */
  lemma EmptyRowsStep(d: ThumbDesign, cols: nat, r: nat)
    requires NoZoneKeys(d) && r > 0
    ensures Rows(d, cols, r).cells == Rows(d, cols, r - 1).cells + BlankRow(d, cols, r - 1, cols)
  {
    var prev := Rows(d, cols, r - 1);
    EmptyWalkProcessed(d, cols, r - 1);
    EmptyRow(prev, d, cols, r - 1, cols);
  }

  /**
   * A design with no zone record under a `zone-{index}` key, such as one
   * whose records use the editor's `button{n}` ids, is drawn as
   * `r × cols` empty cells in reading order.
   */
  lemma {:induction false} EmptyWalk(d: ThumbDesign, cols: nat, r: nat)
    requires NoZoneKeys(d)
    ensures Rows(d, cols, r).cells == BlankGrid(d, cols, r)
    decreases r
  {
    if r == 0 {
      assert Rows(d, cols, r) == Walk({}, []);
    } else {
      EmptyWalk(d, cols, r - 1);
      EmptyRowsStep(d, cols, r);
      assert BlankGrid(d, cols, r) == BlankGrid(d, cols, r - 1) + BlankRow(d, cols, r - 1, cols);
    }
  }

  // ---------------------------------------------------------------------------
  // The renderer

  /** The `if` chain that picks the grid's columns and rows. */
  method ParseGrid(gridType: string) returns (cols: nat, rows: nat)
    ensures (cols, rows) == GridDims(gridType)
  {
    cols, rows := 2, 4;
    if gridType == "2x4" { cols, rows := 2, 4; }
    else if gridType == "2x6" { cols, rows := 2, 6; }
    else if gridType == "2x8" { cols, rows := 2, 8; }
    else if gridType == "dora-3plus2T" { cols, rows := 3, 3; }
    else if gridType == "dora-6plus3T" { cols, rows := 2, 6; }
    else if gridType == "dora-2x6" { cols, rows := 2, 6; }
    else if gridType == "dora-2x8" { cols, rows := 2, 8; }
    else if gridType == "dora-2x4" { cols, rows := 2, 4; }
    else if StartsWith(gridType, "dora-") || StartsWith(gridType, "pblock-") {
      var m := DimsAt(gridType, 0);
      if m.Some? {
        cols, rows := m.value.0, m.value.1;
      }
    }
  }

  /** The two loops that mark every cell a primary zone covers as finished. */
  method MarkCovered(processed: set<int>, row: int, col: int, cols: int, rowSpan: int, colSpan: int)
    returns (marked: set<int>)
    ensures marked == processed + CoveredRows(row, col, cols, rowSpan, colSpan)
  {
    marked := processed;
    var r := 0;
    while r < rowSpan
      invariant 0 <= r <= Max(rowSpan, 0)
      invariant marked == processed + CoveredRows(row, col, cols, r, colSpan)
    {
      var c := 0;
      while c < colSpan
        invariant 0 <= c <= Max(colSpan, 0)
        invariant marked == processed + CoveredRows(row, col, cols, r, colSpan) + CoveredCols(row + r, col, cols, c)
      {
        marked := marked + {(row + r) * cols + (col + c)};
        c := c + 1;
      }
      r := r + 1;
    }
  }

  /** The body of the inner loop at 0-based `(row, col)`. */
  method VisitCell(d: ThumbDesign, cols: nat, row: nat, col: nat, processed: set<int>, cells: seq<ThumbCell>)
    returns (processed': set<int>, cells': seq<ThumbCell>)
    ensures Walk(processed', cells') == Visit(Walk(processed, cells), d, cols, row, col)
  {
    processed', cells' := processed, cells;
    var index := row * cols + col;
    var zoneId := ZoneKey(index);
    if index in processed {
      return;
    }
    if zoneId in d.dropZones && d.dropZones[zoneId].isPrimary {
      var zone := d.dropZones[zoneId];
      var colSpan := Or1(zone.colSpan);
      var rowSpan := Or1(zone.rowSpan);
      processed' := MarkCovered(processed, row, col, cols, rowSpan, colSpan);
      cells' := cells + [PrimaryCell(zone, zoneId, row, col, d.fullColor, d.frameColor)];
    } else if zoneId in d.dropZones && d.dropZones[zoneId].isMerged {
      processed' := processed + {index};
    } else {
      var defaultColor := DefaultColor(d.fullColor, d.frameColor);
      processed' := processed + {index};
      cells' := cells + [EmptyCell(zoneId, col + 1, row + 1, ThumbColor(defaultColor))];
    }
  }

  /** The inner loop over the columns of `row`. */
  method DrawRow(d: ThumbDesign, cols: nat, row: nat, processed: set<int>, cells: seq<ThumbCell>)
    returns (processed': set<int>, cells': seq<ThumbCell>)
    ensures Walk(processed', cells') == RowWalk(Walk(processed, cells), d, cols, row, cols)
  {
    processed', cells' := processed, cells;
    var col: nat := 0;
    while col < cols
      invariant col <= cols
      invariant Walk(processed', cells') == RowWalk(Walk(processed, cells), d, cols, row, col)
    {
      processed', cells' := VisitCell(d, cols, row, col, processed', cells');
      col := col + 1;
    }
  }

  /** The outer loop over the drawn rows. */
  method DrawRows(d: ThumbDesign, cols: nat, displayRows: nat) returns (cells: seq<ThumbCell>)
    ensures cells == Rows(d, cols, displayRows).cells
  {
    cells := [];
    var processed: set<int> := {};
    var row: nat := 0;
    while row < displayRows
      invariant row <= displayRows
      invariant Walk(processed, cells) == Rows(d, cols, row)
    {
      processed, cells := DrawRow(d, cols, row, processed, cells);
      row := row + 1;
    }
  }

  /**
   * `renderThumbnailPreview`: the grid's columns and drawn rows, and the
   * cells in the order the loops push them.
   */
  method RenderThumbnail(d: ThumbDesign) returns (cols: nat, displayRows: nat, cells: seq<ThumbCell>)
    ensures (cols, displayRows) == (GridDims(d.gridType).0, DisplayRows(GridDims(d.gridType).1))
    ensures cells == Rows(d, cols, displayRows).cells
  {
    var rows;
    cols, rows := ParseGrid(d.gridType);
    displayRows := Min(rows, 6);
    cells := DrawRows(d, cols, displayRows);
  }
}
