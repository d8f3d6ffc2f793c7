/**
 * The React hook `useDragDrop` (src/hooks/useDragDrop.js): the design state
 * of the board designer. Its centre is `dropZones`, a map from zone id
 * (`button1` … `button16`) to the record of the button shown there. A button
 * covering several zones has one primary record and one merged record per
 * other covered zone. The pure updaters below are what the hook's
 * `setDropZones(prev => …)` callbacks compute; `DesignState` holds the
 * hook's state variables and applies them.
 */
module UseDragDrop {
  import opened Js

  // ---------------------------------------------------------------------------
  // colour tables

  predicate IsColorName(name: string) {
    name in {"polar-white", "royal-silver", "anthracite-gray", "meteor-black", "texture-black",
             "pure-gold", "antique-copper", "antique-bronze", "red-cherry", "green-leaf"}
  }

  /** `COLORS[colorName] || '#ffffff'`; in this table `pure-gold` is `#c59158`. */
  function GetColorValue(colorName: string): (r: string)
    ensures IsHexColor(r)
    ensures colorName == "pure-gold" ==> r == "#c59158"
    ensures !IsColorName(colorName) ==> r == "#ffffff"
  {
    if colorName == "polar-white" then "#ffffff"
    else if colorName == "royal-silver" then "#cbd5e1"
    else if colorName == "anthracite-gray" then "#475569"
    else if colorName == "meteor-black" then "#1e293b"
    else if colorName == "texture-black" then "#0f172a"
    else if colorName == "pure-gold" then "#c59158"
    else if colorName == "antique-copper" then "#b45309"
    else if colorName == "antique-bronze" then "#78350f"
    else if colorName == "red-cherry" then "#dc2626"
    else if colorName == "green-leaf" then "#16a34a"
    else "#ffffff"
  }

  /** The content hash in the file name of each colour's texture. */
  function TextureHash(colorName: string): (r: Option<string>)
    ensures r.Some? <==> IsColorName(colorName)
  {
    if colorName == "polar-white" then Some("C_BHS7yz")
    else if colorName == "royal-silver" then Some("DCV-2Hhk")
    else if colorName == "anthracite-gray" then Some("C5T6qsn_")
    else if colorName == "meteor-black" then Some("gUXuWB01")
    else if colorName == "texture-black" then Some("Cm2809Or")
    else if colorName == "pure-gold" then Some("Be-uofrm")
    else if colorName == "antique-copper" then Some("rqO417XN")
    else if colorName == "antique-bronze" then Some("4-jEtX_3")
    else if colorName == "red-cherry" then Some("Dfq_s_0J")
    else if colorName == "green-leaf" then Some("DRw9hQSI")
    else None
  }

  /**
   * `TEXTURE_IMAGES[colorName] || null`: every named colour has a texture,
   * `/images/<name>.<hash>.webp`.
   */
  function GetTextureImage(colorName: string): (r: Option<string>)
    ensures r.Some? <==> IsColorName(colorName)
    ensures r.Some? ==> StartsWith(r.value, "/images/")
  {
    match TextureHash(colorName)
    case None => None
    case Some(hash) =>
      var path := "/images/" + (colorName + "." + hash + ".webp");
      assert path[..|"/images/"|] == "/images/";
      Some(path)
  }

  // ---------------------------------------------------------------------------
  // button spans

  datatype Dimensions = Dimensions(colSpan: int, rowSpan: int)

  /**
   * `getButtonDimensions`: the span table of button types 1 to 7 and of the
   * PBlock types 8 to 11; any other type is a single cell.
   */
  function GetButtonDimensions(buttonType: int): (r: Dimensions)
    ensures 1 <= r.colSpan <= 2 && 1 <= r.rowSpan <= 2
    ensures r.colSpan == 2 <==> buttonType in {2, 4, 6, 9}
    ensures r.rowSpan == 2 <==> buttonType in {3, 4, 5, 10}
    ensures !(1 <= buttonType <= 11) ==> r == Dimensions(1, 1)
  {
    if buttonType == 1 then Dimensions(1, 1)
    else if buttonType == 2 then Dimensions(2, 1)
    else if buttonType == 3 then Dimensions(1, 2)
    else if buttonType == 4 then Dimensions(2, 2)
    else if buttonType == 5 then Dimensions(1, 2)
    else if buttonType == 6 then Dimensions(2, 1)
    else if buttonType == 7 then Dimensions(1, 1)
    else if buttonType == 8 then Dimensions(1, 1)
    else if buttonType == 9 then Dimensions(2, 1)
    else if buttonType == 10 then Dimensions(1, 2)
    else if buttonType == 11 then Dimensions(1, 1)
    else Dimensions(1, 1)
  }

  // ---------------------------------------------------------------------------
  // zone records

  /** The three label positions of a button: `s0`, `s1` and `s2`. */
  datatype Position = S0 | S1 | S2

  function PositionName(p: Position): string {
    match p
    case S0 => "s0"
    case S1 => "s1"
    case S2 => "s2"
  }

  /** What a position shows: `null`, `{type: 'icon', value}` or `{type: 'text', value, color}`. */
  datatype Content = Null | Icon(file: string) | Text(value: string, color: string)

  /**
   * One record of `dropZones`. A property the record does not have is `None`;
   * `isPrimary` and `isMerged` are only ever read for their truthiness, so an
   * absent flag is `false`. `kind` is the `type` property, and `content` maps
   * the positions the record has (`s0`, `s1`, `s2`) to what they hold.
   */
  datatype ZoneData = ZoneData(
    buttonType: Option<JsValue>,
    kind: Option<JsValue>,
    dimensions: Option<Dimensions>,
    zones: Option<seq<string>>,
    isPrimary: bool,
    primaryZone: Option<string>,
    isMerged: bool,
    mergedInto: Option<string>,
    color: Option<string>,
    content: map<Position, Content>)

  /** The empty object `{}`. */
  const Blank := ZoneData(None, None, None, None, false, None, false, None, None, map[])

  type ZoneMap = map<string, ZoneData>

  /** JavaScript truthiness of a JSON value. */
  predicate JsTruthy(v: Option<JsValue>) {
    match v
    case None => false
    case Some(JStr(s)) => s != ""
    case Some(JNum(n)) => n != 0
    case Some(JBool(b)) => b
    case Some(JNull) => false
    case Some(JOpaque(_)) => true
  }

  // ---------------------------------------------------------------------------
  // the map updaters

  /** `updateDropZone(zoneId, data)`: `{...prev, [zoneId]: data}`. */
  function SetZone(zones: ZoneMap, zoneId: string, data: ZoneData): (r: ZoneMap)
    ensures zoneId in r && r[zoneId] == data
    ensures forall k :: k != zoneId ==> (k in r <==> k in zones)
    ensures forall k :: k != zoneId && k in zones ==> r[k] == zones[k]
  {
    zones[zoneId := data]
  }

  /** `clearDropZone(zoneId)`: a copy of `prev` without the key. */
  function RemoveZone(zones: ZoneMap, zoneId: string): (r: ZoneMap)
    ensures zoneId !in r
    ensures forall k :: k != zoneId ==> (k in r <==> k in zones)
    ensures forall k :: k != zoneId && k in zones ==> r[k] == zones[k]
  {
    zones - {zoneId}
  }

  /** Clearing a zone just filled with a fresh id gives the map back; filling a cleared zone is filling it. */
  lemma {:induction false} ClearUndoesUpdate(zones: ZoneMap, zoneId: string, data: ZoneData)
    ensures zoneId !in zones ==> RemoveZone(SetZone(zones, zoneId, data), zoneId) == zones
    ensures SetZone(RemoveZone(zones, zoneId), zoneId, data) == SetZone(zones, zoneId, data)
  {
    var cleared := RemoveZone(SetZone(zones, zoneId, data), zoneId);
    if zoneId !in zones {
      assert cleared.Keys == zones.Keys;
    }
    assert SetZone(RemoveZone(zones, zoneId), zoneId, data).Keys == SetZone(zones, zoneId, data).Keys;
  }

  /** The record of the first zone of a button: primary, with its three positions `null`. */
  function PrimaryRecord(data: ZoneData, primary: string): ZoneData {
    data.(isPrimary := true, primaryZone := Some(primary), content := map[S0 := Null, S1 := Null, S2 := Null])
  }

  /** The record of every other zone of a button: merged into the primary. */
  function MergedRecord(data: ZoneData, primary: string): ZoneData {
    data.(isPrimary := false, isMerged := true, mergedInto := Some(primary))
  }

  /** `ids.forEach(zoneId => updateDropZone(zoneId, record))`. */
  function UpdateEach(zones: ZoneMap, ids: seq<string>, record: ZoneData): ZoneMap
    decreases |ids|
  {
    if |ids| == 0 then zones else UpdateEach(SetZone(zones, ids[0], record), ids[1..], record)
  }

  lemma {:induction false} UpdateEachSpec(zones: ZoneMap, ids: seq<string>, record: ZoneData)
    ensures forall k :: k in UpdateEach(zones, ids, record) <==> k in zones || k in ids
    ensures forall k :: k in ids ==> UpdateEach(zones, ids, record)[k] == record
    ensures forall k :: k in zones && k !in ids ==> UpdateEach(zones, ids, record)[k] == zones[k]
    decreases |ids|
  {
    if |ids| > 0 {
      UpdateEachSpec(SetZone(zones, ids[0], record), ids[1..], record);
      assert forall k :: k in ids <==> k == ids[0] || k in ids[1..];
    }
  }

  /** `placeButtonInZones(zones, buttonData)`: nothing for an empty list. */
  function PlaceButton(zones: ZoneMap, ids: seq<string>, data: ZoneData): ZoneMap {
    if |ids| == 0 then zones
    else UpdateEach(SetZone(zones, ids[0], PrimaryRecord(data, ids[0])), ids[1..], MergedRecord(data, ids[0]))
  }

  /**
   * After placing, the first id holds the primary record (unless it is
   * listed again later), every later id holds a record merged into the
   * first, and every other zone is as it was.
   */
  lemma {:induction false} PlacedButton(zones: ZoneMap, ids: seq<string>, data: ZoneData)
    ensures |ids| == 0 ==> PlaceButton(zones, ids, data) == zones
    ensures forall k :: k in PlaceButton(zones, ids, data) <==> k in zones || k in ids
    ensures |ids| > 0 && ids[0] !in ids[1..] ==>
      PlaceButton(zones, ids, data)[ids[0]] == PrimaryRecord(data, ids[0])
    ensures |ids| > 0 ==> forall k :: k in ids[1..] ==>
      PlaceButton(zones, ids, data)[k] == MergedRecord(data, ids[0])
    ensures forall k :: k in zones && k !in ids ==> PlaceButton(zones, ids, data)[k] == zones[k]
  {
    if |ids| > 0 {
      UpdateEachSpec(SetZone(zones, ids[0], PrimaryRecord(data, ids[0])), ids[1..], MergedRecord(data, ids[0]));
      assert forall k :: k in ids <==> k == ids[0] || k in ids[1..];
    }
  }

  /**
   * The occupancy invariant a placement establishes on distinct ids: the
   * first zone is primary with its positions `null`, and every other zone
   * is merged and points at it.
   */
  lemma {:induction false} PlacedButtonPointsAtPrimary(zones: ZoneMap, ids: seq<string>, data: ZoneData)
    requires |ids| > 0 && ids[0] !in ids[1..]
    ensures var r := PlaceButton(zones, ids, data);
      ids[0] in r && r[ids[0]].isPrimary && r[ids[0]].primaryZone == Some(ids[0]) &&
      (forall p :: r[ids[0]].content.Keys == {S0, S1, S2} && (p in r[ids[0]].content ==> r[ids[0]].content[p] == Null)) &&
      forall k :: k in ids[1..] ==> k in r && r[k].isMerged && !r[k].isPrimary && r[k].mergedInto == Some(ids[0])
  {
    PlacedButton(zones, ids, data);
    assert forall k :: k in ids[1..] ==> k in ids;
  }

  // ---------------------------------------------------------------------------
  // applyFullColor

  /**
   * `applyFullColor`'s test for "an existing button" as written: the
   * record's `buttonType` property is truthy.
   */
  predicate HasButtonTypeProperty(z: ZoneData) {
    JsTruthy(z.buttonType)
  }

  /**
   * The evidently intended test: the record holds a button, whether it was
   * placed by the frame (which records the button type as `type`) or
   * carries `buttonType`.
   */
  predicate HoldsButton(z: ZoneData) {
    JsTruthy(z.kind) || JsTruthy(z.buttonType)
  }

  /** Every record that passes `hasButton` gets `color: colorName`; the others are kept. */
  function Recolored(zones: ZoneMap, colorName: string, hasButton: ZoneData -> bool): ZoneMap {
    map k | k in zones :: if hasButton(zones[k]) then zones[k].(color := Some(colorName)) else zones[k]
  }

  /** The `forEach` over `Object.keys(updatedZones)` that rewrites a copy of the map in place. */
  method RecolorButtons(zones: ZoneMap, colorName: string, hasButton: ZoneData -> bool) returns (updated: ZoneMap)
    ensures updated == Recolored(zones, colorName, hasButton)
  {
    updated := zones;
    var pending := zones.Keys;
    while pending != {}
      invariant pending <= zones.Keys && updated.Keys == zones.Keys
      invariant forall k :: k in pending ==> updated[k] == zones[k]
      invariant forall k :: k in zones && k !in pending ==> updated[k] == Recolored(zones, colorName, hasButton)[k]
      decreases pending
    {
      var k :| k in pending;
      if hasButton(updated[k]) {
        updated := updated[k := updated[k].(color := Some(colorName))];
      }
      pending := pending - {k};
    }
  }

  /** Recolouring keeps every key and changes nothing but `color`, and only on records that pass the test. */
  lemma {:induction false} RecoloredChangesOnlyColor(zones: ZoneMap, colorName: string, hasButton: ZoneData -> bool)
    ensures Recolored(zones, colorName, hasButton).Keys == zones.Keys
    ensures forall k :: k in zones ==>
      Recolored(zones, colorName, hasButton)[k].(color := zones[k].color) == zones[k] &&
      (Recolored(zones, colorName, hasButton)[k].color == Some(colorName) <==>
         hasButton(zones[k]) || zones[k].color == Some(colorName))
  {
  }

  /** With the intended test, recolouring twice with one colour is recolouring once. */
  lemma {:induction false} RecoloredIdempotent(zones: ZoneMap, colorName: string)
    ensures Recolored(Recolored(zones, colorName, HoldsButton), colorName, HoldsButton) ==
            Recolored(zones, colorName, HoldsButton)
  {
    var once := Recolored(zones, colorName, HoldsButton);
    assert forall k :: k in once ==> HoldsButton(once[k]) == HoldsButton(zones[k]);
  }

  // ---------------------------------------------------------------------------
  // labels and per-button colour

  datatype Level = Info | Success | Failure

  /** The message `showFeedback` displays. */
  datatype Feedback = Feedback(message: string, level: Level)

  /** The new `dropZones` and the feedback a hook operation shows. */
  datatype Outcome = Outcome(zones: ZoneMap, feedback: Feedback)

  /** `zone.isPrimary ? buttonId : (zone.mergedInto || buttonId)`. */
  function PrimaryId(zone: ZoneData, buttonId: string): (r: string)
    ensures zone.isPrimary || !Truthy(zone.mergedInto) ==> r == buttonId
    ensures !zone.isPrimary && Truthy(zone.mergedInto) ==> r == zone.mergedInto.value
  {
    if zone.isPrimary then buttonId else Or(zone.mergedInto, Some(buttonId)).value
  }

  /** `dropZones[primaryZoneId] || zone`: the record the new label is added to. */
  function PrimaryBase(zones: ZoneMap, buttonId: string): ZoneData
    requires buttonId in zones
  {
    var id := PrimaryId(zones[buttonId], buttonId);
    if id in zones then zones[id] else zones[buttonId]
  }

  /** The record `base` with one position set (`Some`) or deleted (`None`). */
  function WithContent(base: ZoneData, position: Position, content: Option<Content>): ZoneData {
    if content.Some? then base.(content := base.content[position := content.value])
    else base.(content := base.content - {position})
  }

  /**
   * The shape shared by `applyIconToButton` and `applyTextToButton`: no
   * change without a selected button or when it has no record; otherwise
   * the primary record of its button, and only it, gets the new position.
   */
  ghost predicate LabelledOnly(zones: ZoneMap, buttonId: Option<string>, position: Position,
                         content: Option<Content>, r: ZoneMap)
  {
    if !Truthy(buttonId) || buttonId.value !in zones then r == zones
    else
      var id := PrimaryId(zones[buttonId.value], buttonId.value);
      var base := PrimaryBase(zones, buttonId.value);
      id in r && r[id].(content := base.content) == base &&
      (content.Some? ==> position in r[id].content && r[id].content[position] == content.value) &&
      (content.None? ==> position !in r[id].content) &&
      (forall p :: p != position ==> (p in r[id].content <==> p in base.content)) &&
      (forall k :: k != id ==> (k in r <==> k in zones) && (k in zones ==> r[k] == zones[k]))
  }

  function SetLabel(zones: ZoneMap, buttonId: Option<string>, position: Position, content: Option<Content>): (r: ZoneMap)
    ensures LabelledOnly(zones, buttonId, position, content, r)
  {
    if !Truthy(buttonId) || buttonId.value !in zones then zones
    else
      var id := PrimaryId(zones[buttonId.value], buttonId.value);
      SetZone(zones, id, WithContent(PrimaryBase(zones, buttonId.value), position, content))
  }

  /** The feedback for a label operation that finds no button. */
  function MissingButton(zones: ZoneMap, buttonId: Option<string>): Option<Feedback> {
    if !Truthy(buttonId) then Some(Feedback("Please select a button first", Info))
    else if buttonId.value !in zones then Some(Feedback("Button not found", Failure))
    else None
  }

  /**
   * `applyIconToButton(buttonId, position, iconPath)`: the icon's file name
   * (the last `/`-separated segment of the path) is stored at the position
   * of the button's primary record.
   */
  function IconApplied(zones: ZoneMap, buttonId: Option<string>, position: Position, iconPath: string): (r: Outcome)
    ensures LabelledOnly(zones, buttonId, position, Some(Icon(LastSegment(iconPath))), r.zones)
    ensures '/' !in LastSegment(iconPath) && ('/' !in iconPath ==> LastSegment(iconPath) == iconPath)
    ensures MissingButton(zones, buttonId).Some? ==> r.feedback == MissingButton(zones, buttonId).value
    ensures MissingButton(zones, buttonId).None? ==> r.feedback == Feedback("Icon applied to " + PositionName(position), Success)
  {
    var missing := MissingButton(zones, buttonId);
    if missing.Some? then Outcome(zones, missing.value)
    else Outcome(SetLabel(zones, buttonId, position, Some(Icon(LastSegment(iconPath)))),
                 Feedback("Icon applied to " + PositionName(position), Success))
  }

  /**
   * `applyTextToButton(buttonId, position, text, color = '#ffffff')`: a
   * non-empty text is stored with its colour; an empty text deletes the
   * position. `color` is `None` when the caller passes none.
   */
  function TextApplied(zones: ZoneMap, buttonId: Option<string>, position: Position, text: string,
                             color: Option<string>): (r: Outcome)
    ensures text != "" ==>
      LabelledOnly(zones, buttonId, position, Some(Text(text, if color.Some? then color.value else "#ffffff")), r.zones)
    ensures text == "" ==> LabelledOnly(zones, buttonId, position, None, r.zones)
    ensures MissingButton(zones, buttonId).Some? ==> r.feedback == MissingButton(zones, buttonId).value
    ensures MissingButton(zones, buttonId).None? ==> r.feedback == Feedback("Text applied", Success)
  {
    var missing := MissingButton(zones, buttonId);
    var content := if text != "" then Some(Text(text, if color.Some? then color.value else "#ffffff")) else None;
    if missing.Some? then Outcome(zones, missing.value)
    else Outcome(SetLabel(zones, buttonId, position, content), Feedback("Text applied", Success))
  }

  /**
   * `zone.zones.forEach(zId => { const z = dropZones[zId]; if (z) updateDropZone(zId, {...z, color}) })`:
   * the records are read from the snapshot `dropZones`, the updates pile up on `current`.
   */
  function ColorEach(current: ZoneMap, snapshot: ZoneMap, ids: seq<string>, colorName: string): ZoneMap
    decreases |ids|
  {
    if |ids| == 0 then current
    else
      var next := if ids[0] in snapshot then SetZone(current, ids[0], snapshot[ids[0]].(color := Some(colorName)))
                  else current;
      ColorEach(next, snapshot, ids[1..], colorName)
  }

  lemma {:induction false} ColorEachSpec(current: ZoneMap, snapshot: ZoneMap, ids: seq<string>, colorName: string)
    ensures forall k :: k in ColorEach(current, snapshot, ids, colorName) <==> k in current || (k in ids && k in snapshot)
    ensures forall k :: k in ids && k in snapshot ==>
      ColorEach(current, snapshot, ids, colorName)[k] == snapshot[k].(color := Some(colorName))
    ensures forall k :: k in current && !(k in ids && k in snapshot) ==>
      ColorEach(current, snapshot, ids, colorName)[k] == current[k]
    decreases |ids|
  {
    if |ids| > 0 {
      var next := if ids[0] in snapshot then SetZone(current, ids[0], snapshot[ids[0]].(color := Some(colorName)))
                  else current;
      ColorEachSpec(next, snapshot, ids[1..], colorName);
      assert forall k :: k in ids <==> k == ids[0] || k in ids[1..];
    }
  }

  /**
   * `applyButtonColor(buttonId, colorName)`: a button whose record lists
   * its zones is recoloured in every listed zone that has a record; a
   * single-zone button in its own zone.
   */
  function ButtonColored(zones: ZoneMap, buttonId: string, colorName: string): (r: Outcome)
    ensures buttonId !in zones ==> r == Outcome(zones, Feedback("Button not found", Failure))
    ensures buttonId in zones ==> r.feedback == Feedback("Color applied to button", Success)
  {
    if buttonId !in zones then Outcome(zones, Feedback("Button not found", Failure))
    else
      var zone := zones[buttonId];
      if zone.zones.Some? && |zone.zones.value| > 0 then
        Outcome(ColorEach(zones, zones, zone.zones.value, colorName), Feedback("Color applied to button", Success))
      else
        Outcome(SetZone(zones, buttonId, zone.(color := Some(colorName))), Feedback("Color applied to button", Success))
  }

  /**
   * What `applyButtonColor` does to the map: exactly the records of the
   * button's zones (or of the zone itself) get the colour, every key stays.
   */
  lemma {:induction false} ButtonColorTargets(zones: ZoneMap, buttonId: string, colorName: string)
    requires buttonId in zones
    ensures var r := ButtonColored(zones, buttonId, colorName).zones;
      var targets := if zones[buttonId].zones.Some? && |zones[buttonId].zones.value| > 0
                     then zones[buttonId].zones.value else [buttonId];
      r.Keys == zones.Keys &&
      forall k :: k in zones ==> r[k] == if k in targets then zones[k].(color := Some(colorName)) else zones[k]
  {
    var zone := zones[buttonId];
    if zone.zones.Some? && |zone.zones.value| > 0 {
      ColorEachSpec(zones, zones, zone.zones.value, colorName);
    }
  }

  /**
   * A button placed with its zone list in every record is recoloured as a
   * whole from any of its zones.
   */
  lemma {:induction false} ButtonColorCoversPlacedButton(zones: ZoneMap, ids: seq<string>, data: ZoneData,
                                                        clicked: string, colorName: string)
    requires |ids| > 0 && ids[0] !in ids[1..] && data.zones == Some(ids) && clicked in ids
    ensures var placed := PlaceButton(zones, ids, data);
      var r := ButtonColored(placed, clicked, colorName).zones;
      forall k :: k in ids ==> k in r && r[k].color == Some(colorName)
  {
    var placed := PlaceButton(zones, ids, data);
    PlacedButton(zones, ids, data);
    assert clicked in placed;
    assert placed[clicked].zones == Some(ids) by {
      if clicked == ids[0] {
      } else {
        assert clicked in ids[1..];
      }
    }
    ButtonColorTargets(placed, clicked, colorName);
  }

  // ---------------------------------------------------------------------------
  // the wall texture

  /** The colour channels read from the wall colour; `None` is NaN (what `parseInt` returns on a non-number). */
  datatype Rgb = Rgb(r: Option<int>, g: Option<int>, b: Option<int>)

  const Grey := Rgb(Some(128), Some(128), Some(128))

  /** `(\d+)` at the start of `t`: the value of the greedy digit run and the text after it. */
  function DigitGroup(t: string): (r: Option<(nat, string)>)
    ensures r.Some? <==> |t| > 0 && IsDigit(t[0])
    ensures r.Some? ==> var n := |t| - |r.value.1|;
      0 < n <= |t| && r.value.1 == t[n..] &&
      (forall k :: 0 <= k < n ==> IsDigit(t[k])) && (n < |t| ==> !IsDigit(t[n])) &&
      r.value.0 == DecimalValue(t[..n])
  {
    var ds := TakeWhile(t, IsDigit);
    if |ds| == 0 then None else Some((DecimalValue(ds), t[|ds|..]))
  }

  /** `,\s*(\d+)` at the start of `t`. */
  function CommaGroup(t: string): Option<(nat, string)> {
    if |t| == 0 || t[0] != ',' then None else DigitGroup(TrimStart(t[1..]))
  }

  /**
   * The regular expression `rgba?\((\d+),\s*(\d+),\s*(\d+)` anchored at the
   * start of `t`. Every quantifier in it is followed by a character it
   * cannot match, so the greedy reading is the only one.
   */
  function RgbAt(t: string): Option<(nat, nat, nat)> {
    var open :=
      if StartsWith(t, "rgba(") then Some(t[5..])
      else if StartsWith(t, "rgb(") then Some(t[4..])
      else None;
    if open.None? then None
    else
      match DigitGroup(open.value)
      case None => None
      case Some((r, t1)) =>
        match CommaGroup(t1)
        case None => None
        case Some((g, t2)) =>
          match CommaGroup(t2)
          case None => None
          case Some((b, _)) => Some((r, g, b))
  }

  /** `color.match(…)`: the leftmost place where the expression matches. */
  function MatchRgb(s: string): Option<(nat, nat, nat)>
    decreases |s|
  {
    if |s| == 0 then None
    else if RgbAt(s).Some? then RgbAt(s)
    else MatchRgb(s[1..])
  }

  /**
   * The channels `applyWallColor` starts from: 128 each, replaced by the
   * three numbers of an `rgb(…)`/`rgba(…)` colour or by the three hex pairs
   * after the first `#` of a `#` colour.
   */
  function WallChannels(color: string): (c: Rgb)
    ensures !StartsWith(color, "rgb") && !StartsWith(color, "#") ==> c == Grey
  {
    if StartsWith(color, "rgba") || StartsWith(color, "rgb") then RgbChannels(color)
    else if StartsWith(color, "#") then HexChannels(color)
    else Grey
  }

  /** The numbers of the leftmost `rgb(…)`/`rgba(…)` in the colour, or 128 each. */
  function RgbChannels(color: string): Rgb {
    match MatchRgb(color)
    case None => Grey
    case Some((r, g, b)) => Rgb(Some(r), Some(g), Some(b))
  }

  /** `parseInt(hex.substr(k, 2), 16)` for k = 0, 2, 4, where `hex` is the colour without its first `#`. */
  function HexChannels(color: string): Rgb {
    var hex := RemoveFirst(color, '#');
    Rgb(ParseIntHex(Substr(hex, 0, 2)), ParseIntHex(Substr(hex, 2, 2)), ParseIntHex(Substr(hex, 4, 2)))
  }

  lemma {:induction false} HexPairValue(pair: string, hi: char, lo: char)
    requires |pair| == 2 && pair[0] == hi && pair[1] == lo && IsHexDigit(hi) && IsHexDigit(lo)
    ensures ParseIntHex(pair) == Some(HexByte(hi, lo))
  {
    ParseTwoHexDigits(pair);
  }

  /** The three hex pairs of a `#rrggbb` colour are the bytes they spell. */
  lemma {:induction false} HexChannelsOfHexColor(color: string)
    requires IsHexColor(color)
    ensures HexChannels(color) ==
      Rgb(Some(HexByte(color[1], color[2])), Some(HexByte(color[3], color[4])), Some(HexByte(color[5], color[6])))
  {
    var hex := color[1..];
    var p0, p1, p2 := Substr(hex, 0, 2), Substr(hex, 2, 2), Substr(hex, 4, 2);
    assert HexChannels(color) == Rgb(ParseIntHex(p0), ParseIntHex(p1), ParseIntHex(p2)) by {
      assert RemoveFirst(color, '#') == hex;
    }
    HexPairValue(p0, color[1], color[2]);
    HexPairValue(p1, color[3], color[4]);
    HexPairValue(p2, color[5], color[6]);
  }

  /** A `#rrggbb` colour gives the three bytes it spells. */
  lemma {:induction false} HexWallColor(color: string)
    requires IsHexColor(color)
    ensures WallChannels(color) ==
      Rgb(Some(HexByte(color[1], color[2])), Some(HexByte(color[3], color[4])), Some(HexByte(color[5], color[6])))
  {
    assert WallChannels(color) == HexChannels(color) by {
      NotStartsWith(color, "rgba");
      NotStartsWith(color, "rgb");
      assert StartsWith(color, "#");
    }
    HexChannelsOfHexColor(color);
  }

  /** The digit run of a written number stops at the separator after it. */
  lemma {:induction false} DigitGroupOfNumber(n: nat, rest: string)
    requires |rest| > 0 && !IsDigit(rest[0])
    ensures DigitGroup(NatToString(n) + rest) == Some((n, rest))
  {
    var ds := NatToString(n);
    TakeWhilePrefix(ds, rest, IsDigit);
    assert (ds + rest)[|ds|..] == rest;
    DecimalValueOfNatToString(n);
  }

  lemma {:induction false} CommaGroupOpening(u: string)
    ensures CommaGroup(", " + u) == DigitGroup(TrimStart((", " + u)[1..]))
  {
    assert (", " + u)[0] == ',';
  }

  /** The space after the comma is skipped, up to a digit. */
  lemma {:induction false} CommaSpaceSkipped(u: string)
    requires |u| > 0 && IsDigit(u[0])
    ensures TrimStart((", " + u)[1..]) == u
  {
    assert (", " + u)[1..] == " " + u;
    TrimStartSpace(u);
  }

  /** `, ` followed by a written number and a separator reads as the number. */
  lemma {:induction false} CommaGroupOfNumber(n: nat, rest: string)
    requires |rest| > 0 && !IsDigit(rest[0])
    ensures CommaGroup(", " + (NatToString(n) + rest)) == Some((n, rest))
  {
    var u := NatToString(n) + rest;
    CommaGroupOpening(u);
    assert u[0] == NatToString(n)[0];
    CommaSpaceSkipped(u);
    DigitGroupOfNumber(n, rest);
  }

  /** The text `rgb(r, g, b)` a CSS colour is written as. */
  function RgbText(r: nat, g: nat, b: nat): string {
    "rgb(" + (NatToString(r) + (", " + (NatToString(g) + (", " + (NatToString(b) + ")")))))
  }

  lemma {:induction false} RgbOpening(body: string)
    ensures StartsWith("rgb(" + body, "rgb") && StartsWith("rgb(" + body, "rgb(")
    ensures !StartsWith("rgb(" + body, "rgba") && !StartsWith("rgb(" + body, "rgba(")
    ensures ("rgb(" + body)[4..] == body
  {
    var t := "rgb(" + body;
    assert t[..3] == "rgb" && t[..4] == "rgb(" && t[3] == '(';
  }

  /** Reading the channels of a written `rgb(r, g, b)` colour gives them back. */
  lemma {:induction false} RgbWallColor(r: nat, g: nat, b: nat)
    ensures WallChannels(RgbText(r, g, b)) == Rgb(Some(r), Some(g), Some(b))
  {
    var tail2 := ", " + (NatToString(b) + ")");
    var tail1 := ", " + (NatToString(g) + tail2);
    var body := NatToString(r) + tail1;
    var text := "rgb(" + body;
    assert text == RgbText(r, g, b);
    RgbOpening(body);
    assert RgbAt(text) == Some((r, g, b)) by {
      assert DigitGroup(body) == Some((r, tail1)) by {
        DigitGroupOfNumber(r, tail1);
      }
      assert CommaGroup(tail1) == Some((g, tail2)) by {
        CommaGroupOfNumber(g, tail2);
      }
      assert CommaGroup(tail2) == Some((b, ")")) by {
        CommaGroupOfNumber(b, ")");
      }
    }
    assert MatchRgb(text) == RgbAt(text);
  }

  /** One fleck of the texture: its position in percent, its colour and the layer's opacity and size. */
  datatype Fleck = Fleck(x: int, y: int, r: Option<int>, g: Option<int>, b: Option<int>, opacity: string, size: string)

  /** `Math.max(0, channel - 3 - darkOffset)`; NaN stays NaN. */
  function Darken(channel: Option<int>, darkOffset: int): (r: Option<int>)
    requires 0 <= darkOffset
    ensures r.Some? <==> channel.Some?
    ensures r.Some? ==> 0 <= r.value && (channel.value >= 0 ==> r.value <= channel.value)
  {
    if channel.None? then None else Some(Max(0, channel.value - 3 - darkOffset))
  }

  /** Fleck `i` of a layer: a deterministic spread of positions, darkened by `i % 4`. */
  function FleckAt(i: nat, opacity: string, size: string, baseOffset: nat, c: Rgb): (f: Fleck)
    ensures 0 <= f.x <= 98 && 0 <= f.y <= 98
    ensures f.r.Some? <==> c.r.Some?
    ensures f.g.Some? <==> c.g.Some?
    ensures f.b.Some? <==> c.b.Some?
    ensures f.r.Some? ==> f.r.value >= 0
    ensures f.g.Some? ==> f.g.value >= 0
    ensures f.b.Some? ==> f.b.value >= 0
  {
    var x := ((i * 37 + baseOffset) % 97) + ((i * 13) % 3);
    var y := ((i * 23 + baseOffset * 2) % 98) + ((i * 7) % 2);
    var darkOffset := i % 4;
    Fleck(x, y, Darken(c.r, darkOffset), Darken(c.g, darkOffset), Darken(c.b, darkOffset), opacity, size)
  }

  /** A layer of `count` flecks: fleck `i` at every index `i`. */
  function FleckLayer(count: nat, opacity: string, size: string, baseOffset: nat, c: Rgb): (flecks: seq<Fleck>)
    ensures |flecks| == count
    ensures forall k :: 0 <= k < |flecks| ==> WellPlaced(flecks[k])
  {
    seq(count, i requires 0 <= i < count => FleckAt(i, opacity, size, baseOffset, c))
  }

  /** The texture `applyWallColor` paints: 40 medium, 30 smaller and 25 tiny flecks, all inside the surface. */
  function WallTexture(color: string): (all: seq<Fleck>)
    ensures |all| == 40 + 30 + 25
    ensures forall k :: 0 <= k < |all| ==> WellPlaced(all[k])
  {
    var c := WallChannels(color);
    FleckLayer(40, "0.05", "0.35%", 0, c) + FleckLayer(30, "0.04", "0.25%", 17, c) + FleckLayer(25, "0.03", "0.2%", 31, c)
  }

  /** `generateFleckLayer(count, opacity, size, baseOffset)`. */
  method GenerateFleckLayer(count: nat, opacity: string, size: string, baseOffset: nat, c: Rgb)
    returns (flecks: seq<Fleck>)
    ensures flecks == FleckLayer(count, opacity, size, baseOffset, c)
    ensures forall i :: 0 <= i < count ==> flecks[i] == FleckAt(i, opacity, size, baseOffset, c)
  {
    flecks := [];
    var i := 0;
    while i < count
      invariant 0 <= i <= count && |flecks| == i
      invariant forall j :: 0 <= j < i ==> flecks[j] == FleckAt(j, opacity, size, baseOffset, c)
    {
      flecks := flecks + [FleckAt(i, opacity, size, baseOffset, c)];
      i := i + 1;
    }
  }

  /** A fleck inside the surface whose channels are NaN or not negative. */
  predicate WellPlaced(f: Fleck) {
    0 <= f.x <= 98 && 0 <= f.y <= 98 &&
    (f.r.Some? ==> f.r.value >= 0) && (f.g.Some? ==> f.g.value >= 0) && (f.b.Some? ==> f.b.value >= 0)
  }

  /** The three fleck layers of `applyWallColor`: 40 medium, 30 smaller and 25 tiny flecks. */
  method WallFlecks(color: string) returns (all: seq<Fleck>)
    ensures all == WallTexture(color)
    ensures |all| == 40 + 30 + 25
    ensures forall k :: 0 <= k < |all| ==> WellPlaced(all[k])
    ensures forall i :: 0 <= i < 40 ==> all[i] == FleckAt(i, "0.05", "0.35%", 0, WallChannels(color))
    ensures forall i :: 0 <= i < 30 ==> all[40 + i] == FleckAt(i, "0.04", "0.25%", 17, WallChannels(color))
    ensures forall i :: 0 <= i < 25 ==> all[70 + i] == FleckAt(i, "0.03", "0.2%", 31, WallChannels(color))
  {
    var c := WallChannels(color);
    var layer1 := GenerateFleckLayer(40, "0.05", "0.35%", 0, c);
    var layer2 := GenerateFleckLayer(30, "0.04", "0.25%", 17, c);
    var layer3 := GenerateFleckLayer(25, "0.03", "0.2%", 31, c);
    all := layer1 + layer2 + layer3;
  }

  // ---------------------------------------------------------------------------
  // the hook's state

  /** The state variables of `useDragDrop` (the layout widths and popups' own texts are left out). */
  class DesignState {
    var gridType: string
    var selectedButton: Option<string>
    var dropZones: ZoneMap
    var selectedColor: Option<string>
    var frameColor: Option<string>
    var fullColor: Option<string>
    var showIconPopup: bool
    var currentIconPosition: Option<Position>
    var showButtonColorPopup: bool
    var buttonColorTarget: Option<string>
    var feedback: Option<Feedback>
    var wallColor: string
    var wallTexture: seq<Fleck>
    var selectedButtonPart: Option<string>

    /** The colour and part selections and both popups are as they were. */
    twostate predicate SelectionsKept()
      reads this
    {
      selectedColor == old(selectedColor) && selectedButtonPart == old(selectedButtonPart) &&
      showIconPopup == old(showIconPopup) && currentIconPosition == old(currentIconPosition) &&
      showButtonColorPopup == old(showButtonColorPopup) && buttonColorTarget == old(buttonColorTarget)
    }

    /** The wall colour and its texture are as they were. */
    twostate predicate WallKept()
      reads this
    {
      wallColor == old(wallColor) && wallTexture == old(wallTexture)
    }

    /** The initial state: a 2x4 frame, no button, a light grey wall. */
    constructor ()
      ensures gridType == "2x4" && selectedButton.None? && dropZones == map[]
      ensures selectedColor.None? && frameColor.None? && fullColor.None?
      ensures !showIconPopup && currentIconPosition.None? && !showButtonColorPopup && buttonColorTarget.None?
      ensures feedback.None? && wallColor == "#e8e8e8" && wallTexture == [] && selectedButtonPart.None?
    {
      gridType := "2x4";
      selectedButton := None;
      dropZones := map[];
      selectedColor := None;
      frameColor := None;
      fullColor := None;
      showIconPopup := false;
      currentIconPosition := None;
      showButtonColorPopup := false;
      buttonColorTarget := None;
      feedback := None;
      wallColor := "#e8e8e8";
      wallTexture := [];
      selectedButtonPart := None;
    }

    method UpdateDropZone(zoneId: string, data: ZoneData)
      modifies this
      ensures dropZones == SetZone(old(dropZones), zoneId, data)
      ensures selectedButton == old(selectedButton) && fullColor == old(fullColor) && frameColor == old(frameColor)
      ensures feedback == old(feedback) && gridType == old(gridType) && SelectionsKept() && WallKept()
    {
      dropZones := SetZone(dropZones, zoneId, data);
    }

    method ClearDropZone(zoneId: string)
      modifies this
      ensures dropZones == RemoveZone(old(dropZones), zoneId)
      ensures selectedButton == old(selectedButton) && fullColor == old(fullColor) && frameColor == old(frameColor)
      ensures feedback == old(feedback) && gridType == old(gridType) && SelectionsKept() && WallKept()
    {
      dropZones := RemoveZone(dropZones, zoneId);
    }

    method PlaceButtonInZones(ids: seq<string>, data: ZoneData)
      modifies this
      ensures dropZones == PlaceButton(old(dropZones), ids, data)
      ensures selectedButton == old(selectedButton) && fullColor == old(fullColor) && frameColor == old(frameColor)
      ensures feedback == old(feedback) && gridType == old(gridType) && SelectionsKept() && WallKept()
    {
      dropZones := PlaceButton(dropZones, ids, data);
    }

    /** `showFeedback(message, type)`: the message shown; clearing it three seconds later is not modelled. */
    method ShowFeedback(message: string, level: Level)
      modifies this
      ensures feedback == Some(Feedback(message, level))
      ensures dropZones == old(dropZones) && selectedButton == old(selectedButton) && gridType == old(gridType)
      ensures fullColor == old(fullColor) && frameColor == old(frameColor) && SelectionsKept() && WallKept()
    {
      feedback := Some(Feedback(message, level));
    }

    /** `resetSelections`: no selected button, part or colour, and both popups closed. */
    method ResetSelections()
      modifies this
      ensures selectedButton.None? && selectedButtonPart.None? && selectedColor.None?
      ensures !showIconPopup && currentIconPosition.None? && !showButtonColorPopup && buttonColorTarget.None?
      ensures dropZones == old(dropZones) && frameColor == old(frameColor) && fullColor == old(fullColor)
      ensures gridType == old(gridType) && wallColor == old(wallColor) && wallTexture == old(wallTexture)
      ensures feedback == old(feedback)
    {
      selectedButton := None;
      selectedButtonPart := None;
      selectedColor := None;
      showIconPopup := false;
      currentIconPosition := None;
      showButtonColorPopup := false;
      buttonColorTarget := None;
    }

    /** `resetDesign`: no button and no frame or full colour, and every selection reset. */
    method ResetDesign()
      modifies this
      ensures dropZones == map[] && frameColor.None? && fullColor.None?
      ensures selectedButton.None? && selectedButtonPart.None? && selectedColor.None?
      ensures !showIconPopup && currentIconPosition.None? && !showButtonColorPopup && buttonColorTarget.None?
      ensures gridType == old(gridType) && wallColor == old(wallColor) && wallTexture == old(wallTexture)
      ensures feedback == old(feedback)
    {
      dropZones := map[];
      frameColor := None;
      fullColor := None;
      ResetSelections();
    }

    /** `applyFullColor` as written: only records with a truthy `buttonType` are recoloured. */
    method ApplyFullColorAsWritten(colorName: string)
      modifies this
      ensures fullColor == Some(colorName)
      ensures dropZones == Recolored(old(dropZones), colorName, HasButtonTypeProperty)
      ensures feedback == Some(Feedback(colorName + " applied to all", Success))
      ensures selectedButton == old(selectedButton) && frameColor == old(frameColor) && gridType == old(gridType)
      ensures SelectionsKept() && WallKept()
    {
      fullColor := Some(colorName);
      dropZones := RecolorButtons(dropZones, colorName, HasButtonTypeProperty);
      feedback := Some(Feedback(colorName + " applied to all", Success));
    }

    /** `applyFullColor` with the test it evidently intends: every record that holds a button is recoloured. */
    method ApplyFullColor(colorName: string)
      modifies this
      ensures fullColor == Some(colorName)
      ensures dropZones == Recolored(old(dropZones), colorName, HoldsButton)
      ensures feedback == Some(Feedback(colorName + " applied to all", Success))
      ensures selectedButton == old(selectedButton) && frameColor == old(frameColor) && gridType == old(gridType)
      ensures SelectionsKept() && WallKept()
    {
      fullColor := Some(colorName);
      dropZones := RecolorButtons(dropZones, colorName, HoldsButton);
      feedback := Some(Feedback(colorName + " applied to all", Success));
    }

    method ApplyIconToButton(buttonId: Option<string>, position: Position, iconPath: string)
      modifies this
      ensures dropZones == IconApplied(old(dropZones), buttonId, position, iconPath).zones
      ensures feedback == Some(IconApplied(old(dropZones), buttonId, position, iconPath).feedback)
      ensures selectedButton == old(selectedButton) && fullColor == old(fullColor) && frameColor == old(frameColor)
      ensures gridType == old(gridType) && SelectionsKept() && WallKept()
    {
      var outcome := IconApplied(dropZones, buttonId, position, iconPath);
      dropZones := outcome.zones;
      feedback := Some(outcome.feedback);
    }

    method ApplyTextToButton(buttonId: Option<string>, position: Position, text: string, color: Option<string>)
      modifies this
      ensures dropZones == TextApplied(old(dropZones), buttonId, position, text, color).zones
      ensures feedback == Some(TextApplied(old(dropZones), buttonId, position, text, color).feedback)
      ensures selectedButton == old(selectedButton) && fullColor == old(fullColor) && frameColor == old(frameColor)
      ensures gridType == old(gridType) && SelectionsKept() && WallKept()
    {
      var outcome := TextApplied(dropZones, buttonId, position, text, color);
      dropZones := outcome.zones;
      feedback := Some(outcome.feedback);
    }

    method ApplyButtonColor(buttonId: string, colorName: string)
      modifies this
      ensures dropZones == ButtonColored(old(dropZones), buttonId, colorName).zones
      ensures feedback == Some(ButtonColored(old(dropZones), buttonId, colorName).feedback)
      ensures selectedButton == old(selectedButton) && fullColor == old(fullColor) && frameColor == old(frameColor)
      ensures gridType == old(gridType) && SelectionsKept() && WallKept()
    {
      var outcome := ButtonColored(dropZones, buttonId, colorName);
      dropZones := outcome.zones;
      feedback := Some(outcome.feedback);
    }

    /** `applyWallColor(color)`: the wall colour and the 95 flecks of its texture. */
    method ApplyWallColor(color: string)
      modifies this
      ensures wallColor == color && wallTexture == WallTexture(color)
      ensures feedback == Some(Feedback("Wall color applied", Success))
      ensures dropZones == old(dropZones) && selectedButton == old(selectedButton) && gridType == old(gridType)
      ensures fullColor == old(fullColor) && frameColor == old(frameColor) && SelectionsKept()
    {
      wallColor := color;
      wallTexture := WallFlecks(color);
      feedback := Some(Feedback("Wall color applied", Success));
    }
  }
}
