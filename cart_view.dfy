/**
 * The cart catalogue (`CartView.jsx`): for every cart item a preview (the
 * captured image, or a grid of cells marking the buttons found by id), the
 * frame information, and one entry per configured button with its number,
 * its colour and the text of its three sections. The same content is shown
 * on screen and written to the exported PDF; the PDF's page layout is not
 * part of this model.
 */
module CartView {
  import opened Js

  /** A section `s0`, `s1` or `s2` of a zone record: its `type` and `value`. */
  datatype CartSection = CartSection(kind: Option<string>, value: Option<string>)

  /** A zone record as the catalogue reads it; an absent `isPrimary` is `false`. */
  datatype CartZone = CartZone(
    id: Option<string>, isPrimary: bool, color: Option<string>,
    s0: Option<CartSection>, s1: Option<CartSection>, s2: Option<CartSection>)

  /**
   * The `dropZones` field of an item: absent or falsy, an array, a plain
   * object (its own properties in `Object.values` order), or some other
   * truthy value. An element that is `null` or `undefined` is `None`.
   */
  datatype ZonesField =
    | NoZones
    | ZoneArray(elements: seq<Option<CartZone>>)
    | ZoneObject(entries: seq<(string, Option<CartZone>)>)
    | OtherValue

  /** A cart item as the catalogue reads it. */
  datatype CartEntry = CartEntry(
    name: Option<string>, gridType: Option<string>, frameColor: Option<string>, fullColor: Option<string>,
    designImage: Option<string>, dropZones: ZonesField)

  /** How a template literal shows a possibly undefined string. */
  function Show(v: Option<string>): string {
    if v.Some? then v.value else "undefined"
  }

  // ---------------------------------------------------------------------------
  // Tables

  /** `getGridSettings`: `(cols, rows)` of a grid type; an unknown or missing type is 2 × 4. */
  function GridSettings(gridType: Option<string>): (s: (nat, nat))
    ensures gridType == Some("3-12-buttons") ==> s == (3, 4)
    ensures gridType == Some("pblock-level-2") ==> s == (2, 2)
    ensures gridType == Some("pblock-level-3") ==> s == (2, 3)
    ensures gridType.None? || gridType.value !in {"3-12-buttons", "pblock-level-2", "pblock-level-3"} ==> s == (2, 4)
  {
    if gridType.None? then (2, 4)
    else match gridType.value
      case "2-8-buttons" => (2, 4)
      case "3-12-buttons" => (3, 4)
      case "2-8-room" => (2, 4)
      case "design-self" => (2, 4)
      case "pblock-level-2" => (2, 2)
      case "pblock-level-3" => (2, 3)
      case "pblock-level-4" => (2, 4)
      case _ => (2, 4)
  }

  /** `getColorValue`: the catalogue's colour table; an unknown name is white. */
  function CartColor(colorName: string): (hex: string)
    ensures colorName == "pure-gold" ==> hex == "#c59158"
    ensures colorName !in {"polar-white", "royal-silver", "anthracite-gray", "meteor-black", "texture-black",
                           "pure-gold", "antique-copper", "antique-bronze", "red-cherry", "green-leaf"}
            ==> hex == "#ffffff"
    ensures IsHexColor(hex)
  {
    match colorName
    case "polar-white" => "#ffffff"
    case "royal-silver" => "#cbd5e1"
    case "anthracite-gray" => "#475569"
    case "meteor-black" => "#1e293b"
    case "texture-black" => "#0f172a"
    case "pure-gold" => "#c59158"
    case "antique-copper" => "#b45309"
    case "antique-bronze" => "#78350f"
    case "red-cherry" => "#dc2626"
    case "green-leaf" => "#16a34a"
    case _ => "#ffffff"
  }

  // ---------------------------------------------------------------------------
  // Text contrast

  /** `parseInt(hex.substr(i, 2), 16)`, with `None` for `NaN`. */
  function Channel(hex: string, i: nat): Option<int> {
    ParseIntHex(Substr(hex, i, 2))
  }

  /** The luminance test of `getTextColor`, on exact reals. */
  predicate Bright(r: int, g: int, b: int) {
    (0.299 * r as real + 0.587 * g as real + 0.114 * b as real) / 255.0 > 0.5
  }

  /** `getTextColor`: black on a bright background, white otherwise, and white when a channel is `NaN`. */
  function TextColor(bg: string): (c: string)
    ensures c == "#000000" || c == "#FFFFFF"
  {
    var hex := RemoveFirst(bg, '#');
    var r, g, b := Channel(hex, 0), Channel(hex, 2), Channel(hex, 4);
    if r.Some? && g.Some? && b.Some? && Bright(r.value, g.value, b.value) then "#000000" else "#FFFFFF"
  }

  /** The luminance test is an integer inequality. */
  lemma BrightIff(r: int, g: int, b: int)
    ensures Bright(r, g, b) <==> 299 * r + 587 * g + 114 * b > 127500
  {
    var sum := 0.299 * r as real + 0.587 * g as real + 0.114 * b as real;
    assert sum * 1000.0 == (299 * r + 587 * g + 114 * b) as real;
    assert sum / 255.0 > 0.5 <==> sum > 127.5;
  }

  /** For a `#rrggbb` background the text is black exactly when `299r + 587g + 114b > 127500`. */
  lemma TextColorOfHex(bg: string)
    requires IsHexColor(bg)
    ensures var r, g, b := HexByte(bg[1], bg[2]), HexByte(bg[3], bg[4]), HexByte(bg[5], bg[6]);
            TextColor(bg) == "#000000" <==> 299 * r + 587 * g + 114 * b > 127500
  {
    var hex := RemoveFirst(bg, '#');
    assert hex == bg[1..];
    assert Substr(hex, 0, 2) == bg[1..3];
    assert Substr(hex, 2, 2) == bg[3..5];
    assert Substr(hex, 4, 2) == bg[5..7];
    ParseTwoHexDigits(bg[1..3]);
    ParseTwoHexDigits(bg[3..5]);
    ParseTwoHexDigits(bg[5..7]);
    BrightIff(HexByte(bg[1], bg[2]), HexByte(bg[3], bg[4]), HexByte(bg[5], bg[6]));
  }

  // ---------------------------------------------------------------------------
  // Zones

  /** The `dropZones` → array conversion. */
  function ZonesArray(f: ZonesField): (zs: seq<Option<CartZone>>)
    ensures f.ZoneArray? ==> zs == f.elements
    ensures f.ZoneObject? ==> |zs| == |f.entries| && forall k :: 0 <= k < |zs| ==> zs[k] == f.entries[k].1
    ensures f.NoZones? || f.OtherValue? ==> zs == []
  {
    match f
    case NoZones => []
    case ZoneArray(elements) => elements
    case ZoneObject(entries) => seq(|entries|, k requires 0 <= k < |entries| => entries[k].1)
    case OtherValue => []
  }

  /** `zone && (zone.isPrimary || zone.s0 || zone.s1 || zone.s2)`. */
  predicate IsConfigured(z: CartZone) {
    z.isPrimary || z.s0.Some? || z.s1.Some? || z.s2.Some?
  }

  /** `configuredButtons`: the zones that are present and configured, in array order. */
  function Configured(zs: seq<Option<CartZone>>): (r: seq<CartZone>)
    ensures forall z :: z in r <==> Some(z) in zs && IsConfigured(z)
    ensures |r| <= |zs|
    decreases |zs|
  {
    if |zs| == 0 then []
    else
      var rest := Configured(zs[1..]);
      assert forall z :: Some(z) in zs <==> Some(z) == zs[0] || Some(z) in zs[1..];
      if zs[0].Some? && IsConfigured(zs[0].value) then [zs[0].value] + rest else rest
  }

  /** `Configured` keeps the array's order: each configured zone is followed by those after it. */
  lemma {:induction false} ConfiguredAppend(a: seq<Option<CartZone>>, b: seq<Option<CartZone>>)
    ensures Configured(a + b) == Configured(a) + Configured(b)
    decreases |a|
  {
    if |a| > 0 {
      ConfiguredAppend(a[1..], b);
      assert (a + b)[1..] == a[1..] + b;
    } else {
      assert a + b == b;
    }
  }

  /** `Button ${n}`: the number after `button` in the id, plus one, or the position plus one without an id; `None` is `NaN`. */
  function ButtonNumber(zone: CartZone, idx: nat): (n: Option<int>)
    ensures !Truthy(zone.id) ==> n == Some(idx + 1)
  {
    if Truthy(zone.id) then
      match ParseInt(RemoveFirstString(zone.id.value, "button"))
      case Some(v) => Some(v + 1)
      case None => None
    else Some(idx + 1)
  }

  /** A zone with id `button{n}` is numbered `n + 1`. */
  lemma ButtonNumberOfId(zone: CartZone, idx: nat, n: int)
    requires zone.id == Some("button" + IntToString(n))
    ensures ButtonNumber(zone, idx) == Some(n + 1)
  {
    var id := "button" + IntToString(n);
    assert StartsWith(id, "button");
    assert RemoveFirstString(id, "button") == IntToString(n);
    ParseIntToString(n);
  }

  /** `zone.color || item.fullColor || item.frameColor || 'Default'`. */
  function ButtonColor(zone: CartZone, item: CartEntry): (c: string)
    ensures Truthy(zone.color) ==> c == zone.color.value
    ensures !Truthy(zone.color) && Truthy(item.fullColor) ==> c == item.fullColor.value
    ensures !Truthy(zone.color) && !Truthy(item.fullColor) && Truthy(item.frameColor) ==> c == item.frameColor.value
    ensures !Truthy(zone.color) && !Truthy(item.fullColor) && !Truthy(item.frameColor) ==> c == "Default"
  {
    Or(zone.color, Or(item.fullColor, Or(item.frameColor, Some("Default")))).value
  }

  /** `colorHex`: the table's hex for a named colour, `N/A` for `Default`. */
  function ColorHex(c: string): (hex: string)
    ensures c == "Default" <==> hex == "N/A"
    ensures c != "Default" ==> IsHexColor(hex)
  {
    if c != "Default" then CartColor(c) else "N/A"
  }

  /** The colour text after the button number: `name (hex)`, or just `Default`. */
  function ColorCode(c: string): (t: string)
    ensures c == "Default" ==> t == "Default"
    ensures c != "Default" ==> t == c + " (" + ColorHex(c) + ")"
  {
    if c != "Default" then c + " (" + ColorHex(c) + ")" else c
  }

  /** `s0Content`, `s1Content`, `s2Content`. */
  function SectionText(s: Option<CartSection>): (t: string)
    ensures s.Some? && s.value.kind == Some("icon") ==> t == "Icon: " + Show(s.value.value)
    ensures s.Some? && s.value.kind == Some("text") ==> t == "Text: " + Show(s.value.value)
  {
    if s.Some? && s.value.kind == Some("icon") then "Icon: " + Show(s.value.value)
    else if s.Some? && s.value.kind == Some("text") then "Text: " + Show(s.value.value)
    else ""
  }

  /** A section line (`Top:`, `Center:`, `Bottom:`) is shown exactly for an icon or a text section. */
  lemma SectionShown(s: Option<CartSection>)
    ensures SectionText(s) != "" <==> s.Some? && (s.value.kind == Some("icon") || s.value.kind == Some("text"))
  {
    if s.Some? && s.value.kind == Some("icon") {
      assert SectionText(s)[0] == 'I';
    } else if s.Some? && s.value.kind == Some("text") {
      assert SectionText(s)[0] == 'T';
    }
  }

  /** One line of "Button Details". */
  datatype ButtonEntry = ButtonEntry(
    number: Option<int>, color: string, colorCode: string, top: string, center: string, bottom: string)

  function Entry(zone: CartZone, idx: nat, item: CartEntry): ButtonEntry {
    var c := ButtonColor(zone, item);
    ButtonEntry(ButtonNumber(zone, idx), c, ColorCode(c), SectionText(zone.s0), SectionText(zone.s1), SectionText(zone.s2))
  }

  /** "Button Details": `No buttons configured`, or one entry per configured button. */
  datatype Details = NoButtons | Buttons(entries: seq<ButtonEntry>)

  function ButtonDetails(item: CartEntry): (d: Details)
    ensures d.NoButtons? <==> Configured(ZonesArray(item.dropZones)) == []
    ensures d.Buttons? ==> var cfg := Configured(ZonesArray(item.dropZones));
            |d.entries| == |cfg| && forall i :: 0 <= i < |cfg| ==> d.entries[i] == Entry(cfg[i], i, item)
  {
    var cfg := Configured(ZonesArray(item.dropZones));
    if |cfg| == 0 then NoButtons
    else Buttons(seq(|cfg|, i requires 0 <= i < |cfg| => Entry(cfg[i], i, item)))
  }

  // ---------------------------------------------------------------------------
  // Preview

  /** A cell of the grid preview: `●` when a zone was found, `○` otherwise. */
  datatype PreviewCell = PreviewCell(filled: bool, background: string, textColor: string)

  datatype Preview = ImagePreview(src: string) | GridPreview(cols: nat, cells: seq<PreviewCell>)

  /** `zonesArray.find(z => z && z.id === id)`. */
  function FindById(zs: seq<Option<CartZone>>, id: string): (r: Option<CartZone>)
    ensures r.Some? ==> Some(r.value) in zs && r.value.id == Some(id)
    ensures r.None? <==> forall k :: 0 <= k < |zs| ==> zs[k].None? || zs[k].value.id != Some(id)
    decreases |zs|
  {
    if |zs| == 0 then None
    else if zs[0].Some? && zs[0].value.id == Some(id) then zs[0]
    else FindById(zs[1..], id)
  }

  /** The zone found is the first present zone carrying the id. */
  lemma {:induction false} FindByIdFirst(zs: seq<Option<CartZone>>, id: string, k: nat)
    requires k < |zs| && zs[k].Some? && zs[k].value.id == Some(id)
    requires forall j :: 0 <= j < k ==> zs[j].None? || zs[j].value.id != Some(id)
    ensures FindById(zs, id) == zs[k]
    decreases |zs|
  {
    if k > 0 {
      assert zs[1..][k - 1] == zs[k];
      FindByIdFirst(zs[1..], id, k - 1);
    }
  }

  /** The cell at `idx`: the found zone's colour, else the frame colour, else `#f0f0f0`. */
  function Cell(zs: seq<Option<CartZone>>, idx: nat, frameColor: Option<string>): PreviewCell {
    var zone := FindById(zs, "button" + IntToString(idx));
    var bg := if zone.Some? && Truthy(zone.value.color) then CartColor(zone.value.color.value)
              else if Truthy(frameColor) then CartColor(frameColor.value)
              else Fallback;
    PreviewCell(zone.Some?, bg, TextColor(bg))
  }

  /** The preview's background when neither the zone nor the frame has a colour. */
  const Fallback := "#f0f0f0"

  lemma FallbackHex()
    ensures IsHexColor(Fallback)
  {
    assert Fallback[1] == 'f' && Fallback[2] == '0' && Fallback[3] == 'f';
    assert Fallback[4] == '0' && Fallback[5] == 'f' && Fallback[6] == '0';
  }

  /** `renderDesignPreview`. */
  function PreviewOf(item: CartEntry): Preview {
    if Truthy(item.designImage) then ImagePreview(item.designImage.value)
    else
      var (cols, rows) := GridSettings(item.gridType);
      var zs := ZonesArray(item.dropZones);
      GridPreview(cols, seq(cols * rows, idx requires 0 <= idx < cols * rows => Cell(zs, idx, item.frameColor)))
  }

  /**
   * Without a captured image the preview has `cols × rows` cells; cell
   * `idx` is filled exactly when some zone has the id `button{idx}`, and its
   * text colour is the contrast rule applied to its hex background.
   */
  lemma PreviewGrid(item: CartEntry, idx: nat)
    requires !Truthy(item.designImage)
    ensures var p := PreviewOf(item);
            var (cols, rows) := GridSettings(item.gridType);
            p.GridPreview? && p.cols == cols && |p.cells| == cols * rows
    ensures var p := PreviewOf(item);
            var zs := ZonesArray(item.dropZones);
            idx < |p.cells| ==>
              && (p.cells[idx].filled <==> exists k :: 0 <= k < |zs| && zs[k].Some? && zs[k].value.id == Some("button" + IntToString(idx)))
              && IsHexColor(p.cells[idx].background)
              && p.cells[idx].textColor == TextColor(p.cells[idx].background)
    ensures var p := PreviewOf(item);
            var zone := FindById(ZonesArray(item.dropZones), "button" + IntToString(idx));
            idx < |p.cells| ==>
              && (zone.Some? && Truthy(zone.value.color) ==> p.cells[idx].background == CartColor(zone.value.color.value))
              && (!(zone.Some? && Truthy(zone.value.color)) && Truthy(item.frameColor) ==>
                    p.cells[idx].background == CartColor(item.frameColor.value))
              && (!(zone.Some? && Truthy(zone.value.color)) && !Truthy(item.frameColor) ==> p.cells[idx].background == Fallback)
  {
    var p := PreviewOf(item);
    if idx < |p.cells| {
      FallbackHex();
    }
  }

  // ---------------------------------------------------------------------------
  // The catalogue and its export

  /** What the catalogue shows for the item at position `index`. */
  datatype CatalogEntry = CatalogEntry(
    number: nat, name: string, buttonType: string, frameColor: string, preview: Preview, details: Details)

  function CatalogOf(item: CartEntry, index: nat): CatalogEntry {
    CatalogEntry(index + 1, Show(item.name), Or(item.gridType, Some("N/A")).value, Or(item.frameColor, Some("N/A")).value,
                 PreviewOf(item), ButtonDetails(item))
  }

  /** `cart.map((item, index) => …)`: one entry per item, numbered from 1 in cart order. */
  function Catalog(cart: seq<CartEntry>): (c: seq<CatalogEntry>)
    ensures |c| == |cart|
    ensures forall i :: 0 <= i < |c| ==> c[i].number == i + 1 && c[i].details == ButtonDetails(cart[i])
  {
    seq(|cart|, i requires 0 <= i < |cart| => CatalogOf(cart[i], i))
  }

  datatype ExportOutcome = EmptyCartAlert | PdfExport(filename: string, entries: seq<CatalogEntry>)

  /**
   * `handleExportPDF`: an empty cart raises the alert and creates no PDF;
   * otherwise the PDF is named after the date part of the ISO timestamp and
   * lists the catalogue.
   */
  function ExportPdf(cart: seq<CartEntry>, isoNow: string): (r: ExportOutcome)
    ensures r.EmptyCartAlert? <==> |cart| == 0
    ensures r.PdfExport? ==> r.entries == Catalog(cart) && |r.entries| == |cart|
  {
    if |cart| == 0 then EmptyCartAlert
    else PdfExport("Board_Designer_Cart_" + Split(isoNow, 'T')[0] + ".pdf", Catalog(cart))
  }

  /** The export's file name carries the date before the `T` of the timestamp. */
  lemma ExportName(cart: seq<CartEntry>, date: string, time: string)
    requires |cart| > 0 && 'T' !in date
    ensures ExportPdf(cart, date + "T" + time).filename == "Board_Designer_Cart_" + date + ".pdf"
  {
    SplitThroughSeparator(date, 'T', time);
  }
}
