# Board designer: placement engine, design stores and PDF export

This project models the logic of a board/switch designer. A browser UI lets
the user place multi-cell buttons on a small grid of drop zones (2 × 4,
1 × 8 or 2 × 6 cells). The buttons can be recoloured and labelled. Designs
are saved, collected in a cart and summarised. A Python service turns the
rendered frame into a PDF.

The model is written in Dafny, one module per source file:

| module | file | what it covers |
|---|---|---|
| `Js` | js.dfy | JavaScript/Python semantics the others share: optional values, JSON objects as maps, truthiness, `parseInt` in base 10 and 16, `split`/`join`, `startsWith`, `filter` |
| `Grid` | grid.dfy | cells, rectangles of cells read row by row, and lookup of the first zone at a cell |
| `DragDrop` | drag_drop.dfy | the vanilla `DragDropManager` (drag-drop.js); zones are records of classes and attributes, held by a class that updates them in place |
| `UseDragDrop` | use_drag_drop.dfy | the `useDragDrop` React hook: the zone map updaters, the hook state as a class, the full-colour recolouring loop and the wall texture |
| `Frame` | frame.dfy | the React `Frame` component: the 16-zone board, the merge search, the drop and remove handlers, button styling and image-URL rewriting |
| `PdfServer` | pdf_server.dfy | `generate_pdf` in pdf_server.py: request defaults, the page template, the image route, the four-step capture chain, A4 fitting and the file name |
| `DesignServer` | design_server.dfy | the Express design API in server.js over an in-memory list |
| `SaveDesignDialog` | save_design.dfy | the Save Design dialog's per-category store |
| `Cart` | cart.dfy | the `useCart` hook |
| `Thumbnail` | thumbnail.dfy | the saved-design thumbnail layout |
| `CartView` | cart_view.dfy | the cart page's catalogue helpers, preview grid and PDF export guard |

Code that mutates state becomes a Dafny `class`. Each method gives every
field it sets as a function of the old state, and states that every other
field of the class is unchanged; its loops carry invariants. Pure code
becomes functions, and lemmas state the properties the source promises.

Things outside the program are parameters:
- the DOM as the handlers see it, and the browser's answers to each screenshot call;
- the stylesheet text;
- the clock, uuids and `window.confirm`;
- `JSON.parse`, modelled as a function that may fail.

Each file keeps its own colour table as written. `pure-gold` is `#fbbf24`
in drag-drop.js and `#c59158` elsewhere. The thumbnail falls back to
`#f5f5f5`.

Two behaviours of the code worth knowing:
- When every capture strategy fails, pdf_server.py raises
  `"Failed to capture screenshot"` (pdf_server.py:278-279). The 500 response
  therefore carries that message, not the last strategy's error.
- server.js answers a POST with the newly generated `id` even when it
  merged into an existing design. That design keeps its stored `id`.

## Model

| member | source | states |
|---|---|---|
| DragDrop.GridConfig | drag-drop.js:13-17 | the three grid configurations (2 × 4, 1 × 8, 2 × 6); any other type has none |
| DragDrop.GetColorValue | drag-drop.js:245-259 | the colour table of this file (`pure-gold` is `#fbbf24`); an unknown name is `#ffffff`; every result is a `#rrggbb` colour |
| DragDrop.FindPrefixed | drag-drop.js:956 | the first class with the prefix, and no earlier class has it; `None` iff no class has it |
| DragDrop.SpanFrom | drag-drop.js:955-961 | the span announced by the first prefixed class, `parseInt(rest) \|\| 1`, or 1 when there is no such class; never 0 |
| DragDrop.GetColSpan | drag-drop.js:955-961 | `getColSpan` is the span read from the first `col-span-` class |
| DragDrop.GetRowSpan | drag-drop.js:966-972 | `getRowSpan` is the span read from the first `row-span-` class |
| DragDrop.FindPrefixedFirst | drag-drop.js:956 | with no prefixed class before it, the class found is the first prefixed one |
| DragDrop.SpanOfClass | drag-drop.js:955-961 | `col-span-N` for a non-zero integer N gives N; zero or a non-numeric suffix gives 1 |
| DragDrop.ColSpanRoundTrip | drag-drop.js:955-961 | a span written as `col-span-${n}` (n ≠ 0) is read back as n |
| DragDrop.RowSpanRoundTrip | drag-drop.js:966-972 | a span written as `row-span-${n}` (n ≠ 0) is read back as n |
| DragDrop.GetGridPosition | drag-drop.js:1094-1098 | row and column are `parseInt(attribute) \|\| 1`; never 0 |
| DragDrop.GridPositionOfAttributes | drag-drop.js:1094-1098 | a zone whose attributes hold positive integers sits at that cell |
| DragDrop.PositionsAt | drag-drop.js:1127-1128 | entry k of the positions the search reads is zone k's own grid position |
| DragDrop.ZoneAtCell | drag-drop.js:1127-1130 | the zone found at a cell is the first zone in document order whose row and column attributes give that cell; none is found iff no zone's attributes give it |
| DragDrop.MergeScanned | drag-drop.js:1121-1147 | once every row is scanned, the loops' result is the rectangle's zones, or null when their count is not colSpan × rowSpan |
| DragDrop.MergeMissing | drag-drop.js:1132-1134 | a covered cell without a zone makes the merge null |
| DragDrop.MergeOutOfBounds | drag-drop.js:1112-1115 | a drop with `row + rowSpan - 1 > rows` or `col + colSpan - 1 > columns` gives null |
| DragDrop.MergeCovers | drag-drop.js:1121-1147 | a successful merge lists exactly colSpan × rowSpan zones, entry m at row m / colSpan and column m % colSpan of the rectangle, and the rectangle lies inside the grid |
| DragDrop.MergeStartsAtDropZone | drag-drop.js:1121-1130 | with zones on distinct cells, the first covered zone is the one dropped on |
| DragDrop.MergeSucceeds | drag-drop.js:1103-1148 | an in-bounds rectangle whose every cell has a zone merges |
| DragDrop.ListsIn | drag-drop.js:1453-1455 | the places a `data-merged-zones` list names are exactly its elements |
| DragDrop.FindPlace | drag-drop.js:1194 | `querySelector('[data-place=…]')`: a zone with that place; `None` iff no zone has it |
| DragDrop.FindPlaceUnique | drag-drop.js:1194 | on a page whose places are distinct, a zone's own place finds that zone |
| DragDrop.Unmerged | drag-drop.js:1455-1458 | a zone no longer `merged-hidden` and without `data-merged-into`; its button and its merge list stay |
| DragDrop.UnmergedAcceptsAll | drag-drop.js:1072-1089 | an un-merged zone is a valid drop zone for any place |
| DragDrop.UnmergedIdempotent | drag-drop.js:1455-1458 | un-merging twice is un-merging once |
| DragDrop.MergedPlaces | drag-drop.js:1450-1452 | without a `data-merged-zones` attribute a zone lists no place |
| DragDrop.DynamicSpanClassesExact | drag-drop.js:1471-1476 | a class is removed iff it starts with `col-span-` or `row-span-` and is none of `col-span-1`, `col-span-2`, `row-span-1`, `row-span-2` |
| DragDrop.Cleared | drag-drop.js:1440-1477 | after `clearDropZone` a zone has no button, no `has-content`, no button-type, button-classes or span attributes and lists no place; it keeps its own `data-merged-into` and its value |
| DragDrop.ClearedClasses | drag-drop.js:1445-1476 | a class survives `clearDropZone` iff it was there, is not `has-content` and is not a removed span class |
| DragDrop.MarkMerged | drag-drop.js:1207-1212 | a covered zone becomes `merged-hidden` and points at the start's place; its button and merge list stay |
| DragDrop.MarkMergedState | drag-drop.js:1072-1089 | a marked zone is a valid drop zone iff the drag comes from the start's place, and un-merging it undoes the marking |
| DragDrop.MarkMergedIdempotent | drag-drop.js:1207-1212 | marking a zone twice behind the same start is marking it once |
| DragDrop.SpannedClassesExact | drag-drop.js:1214-1239 | the start zone keeps exactly its classes that are neither `hidden` nor a span class, and gains `col-span-N` / `row-span-N` only for spans above 1; nothing else is added |
| DragDrop.SpannedClassesShowSpans | drag-drop.js:1214-1239 | the start zone is shown and its span classes are exactly those of the spans above 1 |
| DragDrop.ShowsSpansMarked | drag-drop.js:1247-1253 | adding `has-content` and `selected` keeps the start zone's spans |
| DragDrop.ButtonAttrs | drag-drop.js:1255-1260 | the start zone records the button type, its classes joined by spaces, the covered places joined by commas and both spans; its other attributes and its `data-merged-into` stay |
| DragDrop.HiddenBehindUnselected | drag-drop.js:1419-1423 | deselecting a hidden covered zone keeps it hidden behind the start |
| DragDrop.PlacesOf | drag-drop.js:1258 | the `data-place` of every covered zone, in order |
| DragDrop.MergedPlacesRoundTrip | drag-drop.js:1450-1452 | clearing a start zone un-merges exactly the places its placement recorded, when no place holds a comma |
| DragDrop.LaidOut | drag-drop.js:776-817 | after `updateGridLayout` a zone holds no button and loses `merged-hidden`, `has-content` and `data-merged-into`; every other class except `hidden` and every other attribute stay; for an unknown grid type `hidden` stays as it was |
| DragDrop.LayoutShowsConfiguredGrid | drag-drop.js:765-818 | for the three known types a zone in a positive column is shown iff its cell lies inside columns × rows of the configuration |
| DragDrop.LayoutStateKeys | drag-drop.js:1543-1556 | the layout state has an entry for a place iff some zone there holds a button type |
| DragDrop.LayoutStateEntry | drag-drop.js:1543-1556 | with distinct places, every zone holding a button contributes its own type and classes |
| DragDrop.LayoutStateRoundTrip | drag-drop.js:1543-1556 | saving a placed button's layout reads back its type and its classes |
| DragDrop.Unhighlight | drag-drop.js:1169-1179 | no zone of the page keeps `drag-over`; the page keeps its length |
| DragDrop.ClearedAt | drag-drop.js:1440-1477 | the page after `clearDropZone(i)`: zone i is `Cleared` |
| DragDrop.UnmergedNamed | drag-drop.js:1450-1461 | the `forEach` over the listed places never touches the cleared zone itself |
| DragDrop.UnmergedNamedEntry | drag-drop.js:1450-1461 | with distinct places, every other zone is un-merged iff its place is listed, and is otherwise unchanged |
| DragDrop.ClearedAtEntry | drag-drop.js:1440-1477 | with distinct places, `clearDropZone(i)` clears zone i, un-merges every other zone its list names, and leaves every other zone as it was |
| DragDrop.HostOf | drag-drop.js:1192-1194 | the zone found by a zone's `data-merged-into` has that place; a zone without the attribute has none |
| DragDrop.ParentCleared | drag-drop.js:1191-1198 | without a parent found by `data-merged-into` the page is unchanged |
| DragDrop.OverlapCleared | drag-drop.js:1186-1203 | after the first step for a covered zone that zone holds no button |
| DragDrop.OverlapsClearedEmpty | drag-drop.js:1186-1204 | after the first step every covered zone holds no button |
| DragDrop.ClearedAtKeepsEmpty | drag-drop.js:1440-1477 | clearing a button never fills a zone |
| DragDrop.OverlapClearedKeepsEmpty | drag-drop.js:1186-1203 | the first step for one covered zone never fills a zone |
| DragDrop.Deselected | drag-drop.js:1421-1423 | a zone without `selected` |
| DragDrop.PlacementMarks | drag-drop.js:1184-1267 | after a placement every covered zone but the start is hidden behind it and empty; the start holds the button with `has-content`, shows exactly the new spans, records type, classes, covered places and spans, and is the only selected zone |
| DragDrop.PlacementKeepsIdle | drag-drop.js:1184-1267 | on a consistent page a placement changes a zone outside the covered ones that takes no part in any merge only by removing `selected` |
| DragDrop.Books | drag-drop.js:1207-1260 | the merge bookkeeping of the page reads, for every zone, its `data-merged-into`, its list, its button and its `merged-hidden` mark |
| DragDrop.BookOf | drag-drop.js:1207-1260 | a zone's bookkeeping lists its merged places, is filled iff it holds a button, hidden iff `merged-hidden` |
| DragDrop.BookOfUnmerged | drag-drop.js:1455-1458 | un-merging releases a zone's bookkeeping and changes nothing else in it |
| DragDrop.BookOfCleared | drag-drop.js:1440-1477 | clearing a zone empties it and drops its list, and keeps its `data-merged-into` and its hidden mark |
| DragDrop.BooksOfClearedAt | drag-drop.js:1440-1477 | `clearDropZone` on the page is `BooksClearedAt` on its bookkeeping |
| DragDrop.BooksOfOverlapsCleared | drag-drop.js:1186-1204 | the first step on the page is `BooksOverlapsCleared` on its bookkeeping |
| DragDrop.BooksOfPlacement | drag-drop.js:1184-1267 | a placement on the page is `BooksPlacement` on its bookkeeping |
| DragDrop.BooksOfUnhighlight | drag-drop.js:1169-1179 | clearing highlights leaves the bookkeeping as it is |
| DragDrop.BooksUnmergedNamedEntry | drag-drop.js:1450-1461 | with distinct places, un-merging by name releases exactly the other zones whose places are listed |
| DragDrop.ClearedAtConsistent | drag-drop.js:1440-1477 | `clearDropZone` keeps the merge bookkeeping consistent |
| DragDrop.OwnClearedConsistent | drag-drop.js:1188-1190 | clearing the button that starts at a covered zone keeps the bookkeeping consistent and leaves that zone listing nothing |
| DragDrop.ParentClearedConsistent | drag-drop.js:1191-1198 | clearing the button a covered zone is merged into keeps the bookkeeping consistent and leaves that zone merged into nothing |
| DragDrop.OverlapClearedConsistent | drag-drop.js:1186-1203 | the first step for one covered zone keeps the bookkeeping consistent |
| DragDrop.OverlapClearedVacant | drag-drop.js:1186-1203 | on a consistent page the first step for a covered zone leaves it merged into nothing, listing nothing and empty |
| DragDrop.OverlapsClearedConsistent | drag-drop.js:1186-1204 | the whole first step keeps the bookkeeping consistent and leaves every covered zone vacant |
| DragDrop.ListedCovers | drag-drop.js:1258 | the start's recorded list names every other covered zone's place |
| DragDrop.ListedOnlyCovered | drag-drop.js:1258 | the start's recorded list names only covered places |
| DragDrop.ShownConsistent | drag-drop.js:1206-1260 | hiding the covered zones and showing the start, once they are vacant, leaves the bookkeeping consistent |
| DragDrop.BooksPlacementConsistent | drag-drop.js:1184-1267 | a placement keeps the bookkeeping consistent |
| DragDrop.PlacementConsistent | drag-drop.js:1184-1267 | a placement keeps the page consistent: every merged zone is hidden, empty and points at another zone that holds a button listing it; every zone a button lists points at that button; only a zone holding a button with a `data-merged-zones` lists places |
| DragDrop.DropConsistent | drag-drop.js:1032-1067 | a drop that places a button, highlights cleared first, keeps the page consistent |
| DragDrop.UnmergedIdle | drag-drop.js:1455-1458 | un-merging a zone that takes no part in any merge changes nothing |
| DragDrop.ClearedAtKeepsIdle | drag-drop.js:1440-1477 | clearing another zone leaves a zone that takes no part in any merge as it is |
| DragDrop.OverlapsClearedKeepIdle | drag-drop.js:1186-1204 | on a consistent page the first step leaves every uncovered zone that takes no part in any merge as it is |
| DragDrop.DragDropManager.constructor | drag-drop.js:7-25 | no highlights, no selection, grid type `2x4`, over the page's zones |
| DragDrop.DragDropManager.GetZonesToMerge | drag-drop.js:1103-1148 | the nested loops compute the merge specification `ZonesToMerge` |
| DragDrop.DragDropManager.ClearAllHighlights | drag-drop.js:1169-1179 | the page becomes `Unhighlight` of the old one, the highlight list is empty, nothing else changes |
| DragDrop.DragDropManager.SelectButton | drag-drop.js:1419-1435 | exactly the selected zone carries `selected`; the selection is the target only when it has content, otherwise none; every zone changes only in `selected` |
| DragDrop.DragDropManager.ClearDropZone | drag-drop.js:1440-1477 | the page becomes `ClearedAt` of the old one (see `ClearedAtEntry`); the other fields are unchanged |
| DragDrop.DragDropManager.ClearOverlap | drag-drop.js:1186-1203 | the page becomes `OverlapCleared` of the old one; the other fields are unchanged |
| DragDrop.DragDropManager.ClearParent | drag-drop.js:1191-1198 | the page becomes `ParentCleared` of the old one: the parent found by place is cleared by `ClearedAt`; the other fields are unchanged |
| DragDrop.DragDropManager.ClearOverlaps | drag-drop.js:1185-1204 | the page becomes `OverlapsCleared` of the old one, the covered zones handled in order; the other fields are unchanged |
| DragDrop.DragDropManager.HideCovered | drag-drop.js:1206-1212 | the page becomes `HiddenAt`: every covered zone but the start is marked merged into the start's place, the others are unchanged; the other fields are unchanged |
| DragDrop.DragDropManager.ShowAtStart | drag-drop.js:1214-1260 | the page becomes `ShownAt`: the start shows the button with its spans and records, every other zone only loses `selected`; the start is selected; the other fields are unchanged |
| DragDrop.DragDropManager.PlaceButtonInMergedZones | drag-drop.js:1184-1267 | the page becomes `Placement` of the old one (see `PlacementMarks`, `PlacementConsistent`, `PlacementKeepsIdle`); the start is selected; the other fields are unchanged |
| DragDrop.DragDropManager.UpdateGridLayout | drag-drop.js:765-818 | the layout carries only the new `layout-` class and the grid type, and every zone is laid out by `LaidOut` |
| DragDrop.DragDropManager.GetLayoutState | drag-drop.js:1543-1556 | the loop over the zones computes `LayoutState` |
| DragDrop.DragDropManager.HandleDrop | drag-drop.js:1032-1067 | invalid data or an unknown grid type gives the placement error; placed iff the merge finds a non-empty set of zones; "does not fit" (with both sizes) iff the data is valid and the rectangle leaves a known grid; silent iff the merge is null inside the grid; a placed drop makes the page `Placement` of the unhighlighted page and selects the target; any other outcome only clears the highlights |
| UseDragDrop.GetColorValue | src/hooks/useDragDrop.js:3-14 | the hook's colour table (`pure-gold` is `#c59158`); an unknown name is `#ffffff` |
| UseDragDrop.TextureHash | src/hooks/useDragDrop.js:16-27 | a named colour has exactly one texture hash; any other name has none |
| UseDragDrop.GetTextureImage | src/hooks/useDragDrop.js:16-27 | every named colour has the texture `/images/<name>.<hash>.webp`; any other name gives null |
| UseDragDrop.GetButtonDimensions | src/hooks/useDragDrop.js:129-145 | the span table of types 1 to 11; any other type is 1 × 1; spans are 1 or 2 |
| UseDragDrop.SetZone | src/hooks/useDragDrop.js:147-149 | `updateDropZone` sets key zoneId to the data and leaves every other key unchanged |
| UseDragDrop.RemoveZone | src/hooks/useDragDrop.js:151-157 | `clearDropZone` removes key zoneId and leaves every other key unchanged |
| UseDragDrop.ClearUndoesUpdate | src/hooks/useDragDrop.js:147-157 | clearing a freshly set key gives the map back; setting after clearing is setting |
| UseDragDrop.UpdateEachSpec | src/hooks/useDragDrop.js:209-216 | after the loop every listed id holds the record, and every other key is unchanged |
| UseDragDrop.PlacedButton | src/hooks/useDragDrop.js:192-217 | an empty list changes nothing; otherwise zones[0] holds the primary record with s0–s2 null, later ids hold records merged into zones[0], other keys are unchanged |
| UseDragDrop.PlacedButtonPointsAtPrimary | src/hooks/useDragDrop.js:192-217 | on distinct ids, the first zone is primary and every other covered zone is merged and points at it |
| UseDragDrop.RecolorButtons | src/hooks/useDragDrop.js:228-239 | the `forEach` over the copied map computes `Recolored` |
| UseDragDrop.RecoloredChangesOnlyColor | src/hooks/useDragDrop.js:228-239 | recolouring keeps every key, changes only `color`, and only on records passing the test |
| UseDragDrop.RecoloredIdempotent | src/hooks/useDragDrop.js:224-242 | with the intended test, recolouring twice with one colour is recolouring once |
| UseDragDrop.PrimaryId | src/hooks/useDragDrop.js:259 | a primary record targets itself, otherwise `mergedInto \|\| buttonId` |
| UseDragDrop.SetLabel | src/hooks/useDragDrop.js:258-267 | without a button or its record nothing changes; otherwise only the primary record gets the new position |
| UseDragDrop.IconApplied | src/hooks/useDragDrop.js:244-270 | a falsy id asks for a selection, a missing record reports "Button not found" (both unchanged); otherwise the last `/` segment of the path is stored at the position of the primary record |
| UseDragDrop.TextApplied | src/hooks/useDragDrop.js:272-298 | a non-empty text is stored with its colour (default `#ffffff`) and an empty text deletes the position, in the primary record only |
| UseDragDrop.ColorEachSpec | src/hooks/useDragDrop.js:309-317 | every listed zone with a record in the snapshot gets that record with the new colour; other keys are unchanged |
| UseDragDrop.ButtonColored | src/hooks/useDragDrop.js:300-327 | a missing record reports "Button not found" and changes nothing; otherwise the button's zones are recoloured |
| UseDragDrop.ButtonColorTargets | src/hooks/useDragDrop.js:307-324 | exactly the records of the button's listed zones (or of the zone itself) get the colour; every key stays |
| UseDragDrop.ButtonColorCoversPlacedButton | src/hooks/useDragDrop.js:300-327 | a placed button whose records list its zones is recoloured whole from any of its zones |
| UseDragDrop.DigitGroup | src/hooks/useDragDrop.js:336 | `(\d+)` at the start: matches iff the text starts with a digit; the run taken is the longest digit prefix, the value is its decimal value, and the rest is the text after it |
| UseDragDrop.WallChannels | src/hooks/useDragDrop.js:334-347 | a colour starting neither with `rgb` nor with `#` keeps r = g = b = 128 |
| UseDragDrop.HexPairValue | src/hooks/useDragDrop.js:344-346 | two hex digits parse to the byte they spell |
| UseDragDrop.HexChannelsOfHexColor | src/hooks/useDragDrop.js:342-346 | the three pairs of `#rrggbb` are its three bytes |
| UseDragDrop.HexWallColor | src/hooks/useDragDrop.js:334-347 | a `#rrggbb` wall colour gives the bytes it spells |
| UseDragDrop.DigitGroupOfNumber | src/hooks/useDragDrop.js:336 | the digit run of a written number stops at the separator after it |
| UseDragDrop.CommaGroupOpening | src/hooks/useDragDrop.js:336 | `,` then a digit starts a comma group |
| UseDragDrop.CommaSpaceSkipped | src/hooks/useDragDrop.js:336 | the `\s*` after the comma skips a space up to a digit |
| UseDragDrop.CommaGroupOfNumber | src/hooks/useDragDrop.js:336 | `, n` followed by a separator reads as n |
| UseDragDrop.RgbOpening | src/hooks/useDragDrop.js:336 | `rgb(` followed by three groups is matched at the start |
| UseDragDrop.RgbWallColor | src/hooks/useDragDrop.js:334-341 | reading a written `rgb(r, g, b)` gives r, g and b back |
| UseDragDrop.Darken | src/hooks/useDragDrop.js:368 | `max(0, c - 3 - offset)` is never negative, and NaN stays NaN |
| UseDragDrop.FleckAt | src/hooks/useDragDrop.js:362-370 | a fleck lies at 0 ≤ x ≤ 98, 0 ≤ y ≤ 98, and its channels are NaN or not negative |
| UseDragDrop.FleckLayer | src/hooks/useDragDrop.js:358-373 | a layer of `count` flecks, all well placed |
| UseDragDrop.WallTexture | src/hooks/useDragDrop.js:376-381 | the texture of a wall colour is 40 + 30 + 25 = 95 flecks, all well placed |
| UseDragDrop.GenerateFleckLayer | src/hooks/useDragDrop.js:358-373 | the loop yields `FleckLayer`: `count` flecks, fleck i being `FleckAt(i, …)` |
| UseDragDrop.WallFlecks | src/hooks/useDragDrop.js:376-381 | the three calls yield `WallTexture`: 40, 30 and 25 flecks with their opacity, size and offset, all well placed |
| UseDragDrop.DesignState.constructor | src/hooks/useDragDrop.js:104-118 | the initial state: 2x4, no zones, no colours or selections, wall `#e8e8e8` |
| UseDragDrop.DesignState.UpdateDropZone | src/hooks/useDragDrop.js:147-149 | the zone map becomes `SetZone` of the old one; every other field is unchanged |
| UseDragDrop.DesignState.ClearDropZone | src/hooks/useDragDrop.js:151-157 | the zone map becomes `RemoveZone` of the old one; every other field is unchanged |
| UseDragDrop.DesignState.PlaceButtonInZones | src/hooks/useDragDrop.js:192-217 | the zone map becomes `PlaceButton` of the old one; every other field is unchanged |
| UseDragDrop.DesignState.ShowFeedback | src/hooks/useDragDrop.js:120-123 | the feedback shown is the message and level; every other field is unchanged |
| UseDragDrop.DesignState.ResetSelections | src/hooks/useDragDrop.js:175-183 | no selected button, part or colour, and both popups closed |
| UseDragDrop.DesignState.ResetDesign | src/hooks/useDragDrop.js:185-190 | no zones, no frame or full colour, and every selection reset |
| UseDragDrop.DesignState.ApplyFullColorAsWritten | src/hooks/useDragDrop.js:224-242 | full colour set; exactly the records with a truthy `buttonType` are recoloured; success reported; every other field is unchanged |
| UseDragDrop.DesignState.ApplyFullColor | src/hooks/useDragDrop.js:224-242 | full colour set; every record holding a button (by `type` or `buttonType`) is recoloured; success reported; every other field is unchanged |
| UseDragDrop.DesignState.ApplyIconToButton | src/hooks/useDragDrop.js:244-270 | zones and feedback as `IconApplied`; every other field is unchanged |
| UseDragDrop.DesignState.ApplyTextToButton | src/hooks/useDragDrop.js:272-298 | zones and feedback as `TextApplied`; every other field is unchanged |
| UseDragDrop.DesignState.ApplyButtonColor | src/hooks/useDragDrop.js:300-327 | zones and feedback as `ButtonColored`; every other field is unchanged |
| UseDragDrop.DesignState.ApplyWallColor | src/hooks/useDragDrop.js:329-413 | the wall colour is set and its texture is `WallTexture` of that colour; success reported; every other field is unchanged |
| Frame.GridConfigFor | src/components/Frame.jsx:3-27 | 1x8 and 2x6 have their configurations; any other type uses 2x4; visible zones = columns × rows |
| Frame.ZoneIdInjective | src/components/Frame.jsx:35 | two zones never share a `button{n}` id |
| Frame.ZoneAt | src/components/Frame.jsx:33-41 | entry k lies at row k / 2 + 1, column k % 2 + 1, with id number (row - 1) × 2 + col, visible iff row ≤ rows ∧ col ≤ columns |
| Frame.Board | src/components/Frame.jsx:31-45 | the board has 16 zones |
| Frame.AllZones | src/components/Frame.jsx:31-45 | the nested loops build the board |
| Frame.Cells | src/components/Frame.jsx:51 | the cell of every zone, in order |
| Frame.BoardDistinct | src/components/Frame.jsx:31-45 | every zone of the board has its own id and its own cell |
| Frame.BoardFindInside | src/components/Frame.jsx:51 | a cell of the 8 × 2 board is found at its own zone |
| Frame.BoardFindOutside | src/components/Frame.jsx:51 | a cell off the board finds nothing |
| Frame.BoardFindCell | src/components/Frame.jsx:51 | the cell search on the board: the zone of a cell inside, nothing outside |
| Frame.FindById | src/components/Frame.jsx:158 | the first zone with the id; `None` iff none has it |
| Frame.BoardFindById | src/components/Frame.jsx:158 | `button{n}` for 1 ≤ n ≤ 16 is found at entry n - 1, any other id nowhere |
| Frame.Ids | src/components/Frame.jsx:58 | the ids of the found zones, in order |
| Frame.UnusableAt | src/components/Frame.jsx:52-57 | one hidden, unmerged zone among those found makes the set unusable |
| Frame.MergeRefused | src/components/Frame.jsx:49-61 | a covered cell without a zone, or whose zone is hidden and not merged, refuses the merge |
| Frame.LookupUnusable | src/components/Frame.jsx:49-61 | the rectangle lookup fails or finds an unusable zone when one of its cells does |
| Frame.RefusedWhenUnusable | src/components/Frame.jsx:55-60 | a failed lookup or an unusable zone gives null |
| Frame.MergeCount | src/components/Frame.jsx:64 | a merge lists colSpan × rowSpan ids, one per covered cell; it is empty only for a zero span |
| Frame.MergeFound | src/components/Frame.jsx:47-65 | a successful merge comes from a lookup that found every cell |
| Frame.MergeCovers | src/components/Frame.jsx:47-65 | id m of a merge is the usable zone at cell m of the rectangle, row by row |
| Frame.MergeCellAt | src/components/Frame.jsx:49-51 | the zone found for entry m lies at that cell |
| Frame.MergeSucceeds | src/components/Frame.jsx:47-65 | with spans ≥ 1 and a usable zone at every covered cell, the merge succeeds |
| Frame.CoveredCell | src/components/Frame.jsx:49-50 | entry m of the rectangle is the cell m / cs rows and m % cs columns from the start |
| Frame.ScanStopped | src/components/Frame.jsx:55-61 | the loops return null at the first unusable covered cell |
| Frame.ScanCompleted | src/components/Frame.jsx:64 | after every row the loops' result is the specification's |
| Frame.ScanStep | src/components/Frame.jsx:58 | one more usable zone extends the scan |
| Frame.ScanRow | src/components/Frame.jsx:49-50 | a full row scanned starts the next |
| Frame.GetZonesToMerge | src/components/Frame.jsx:47-65 | the nested loops compute `ZonesToMerge` |
| Frame.MergeIff | src/components/Frame.jsx:47-65 | with spans ≥ 1 the merge is non-null iff every cell of the rectangle has a zone that is visible or merged |
| Frame.CoveredAt | src/components/Frame.jsx:52-57 | a covered cell found at a zone is usable iff that zone is |
| Frame.OffBoardRefused | src/components/Frame.jsx:59-61 | a rectangle reaching past the 8 × 2 board never merges |
| Frame.ShownCovered | src/components/Frame.jsx:40 | a cell of the shown grid is covered by a usable zone |
| Frame.ShownFound | src/components/Frame.jsx:51 | the zone at a cell of the board is the one found there |
| Frame.ShownVisible | src/components/Frame.jsx:40 | the zone at a cell of the shown grid is visible |
| Frame.CoveredVisible | src/components/Frame.jsx:55 | a covered cell whose zone is visible is usable |
| Frame.FitsThenMerges | src/components/Frame.jsx:166-178 | a rectangle inside the shown grid always merges, so "Cannot merge zones" needs a span below one |
| Frame.BoardIdOfCell | src/components/Frame.jsx:35 | on the board the id at a cell is `button{(row - 1) × 2 + col}` |
| Frame.BoardMergeIds | src/components/Frame.jsx:47-65 | each id of a merge on the board names the zone at its cell |
| Frame.BoardIdsDiffer | src/components/Frame.jsx:47-65 | two entries of a merge on the board name different zones |
| Frame.BoardMergeDistinct | src/components/Frame.jsx:47-65 | a merge on the board names each zone once and starts with the start zone |
| Frame.BoardFirstId | src/components/Frame.jsx:49-58 | the first id of a merge is the start zone's |
| Frame.FallbackData | src/components/Frame.jsx:127-136 | the `buttonType` fallback gives data iff `parseInt` is a non-zero number |
| Frame.ReceiveButtonType | src/components/Frame.jsx:121-151 | with no payload or a payload that does not parse, a decimal button type gives that type with its own spans |
| Frame.ReceiveFailures | src/components/Frame.jsx:121-156 | the parse error is reported iff the payload does not parse and the fallback has nothing; "no data" iff the payload is falsy, or absent with no fallback |
| Frame.DropDimensions | src/components/Frame.jsx:161-164 | spans are `n \|\| 1`, never 0 |
| Frame.Occupied | src/components/Frame.jsx:181-184 | exactly the covered zones holding a record that is not merged |
| Frame.AllTargetsMembership | src/components/Frame.jsx:187-194 | a zone is cleared iff some occupied zone lists it (or is it) |
| Frame.Without | src/components/Frame.jsx:187-194 | the listed keys are removed and the others are unchanged |
| Frame.WithoutTwice | src/components/Frame.jsx:187-194 | clearing two lists in turn is clearing their concatenation |
| Frame.WithoutOneMore | src/components/Frame.jsx:190 | clearing one more zone extends the cleared list |
| Frame.DropFitCheck | src/components/Frame.jsx:166-178 | a drop that does not fit is refused with the message naming both sizes, iff it does not fit; a fitting drop with positive spans is placed |
| Frame.PlacedZoneShown | src/components/Frame.jsx:166-174 | each zone of a fitting merge is shown by the grid type |
| Frame.DropPlaced | src/components/Frame.jsx:115-203 | a placed drop covers colSpan × rowSpan distinct shown zones starting at the drop zone, and records type, spans and zone list |
| Frame.DroppedButton | src/components/Frame.jsx:180-205 | after a drop the drop zone holds the primary record, the other covered zones are merged into it, displaced buttons are gone, and every other zone is as it was |
| Frame.DropThenRemove | src/components/Frame.jsx:214-227 | removing the button just dropped clears exactly its zones, and undoes the drop when they were empty |
| Frame.FullColorMissesDroppedButton | src/hooks/useDragDrop.js:231 | the records a drop places have no `buttonType`: as written `applyFullColor` leaves every zone of a dropped button unchanged, while the intended test recolours each one |
| Frame.ButtonColorName | src/components/Frame.jsx:394-398 | a button's own colour, else the full colour |
| Frame.RenderColors | src/components/Frame.jsx:393-420 | own colour over full colour; the frame colour only ever on the border; a named colour is drawn with texture over its value |
| Frame.RenderPrimary | src/components/Frame.jsx:381-391 | only a primary record renders; spans above 1 become grid spans, and `null` positions show no label |
| Frame.RenderDroppedButton | src/components/Frame.jsx:381-420 | a dropped button renders once, in its drop zone, with the drop's spans and empty labels; its other zones render nothing |
| Frame.UrlMatchOfPlainUrl | src/components/Frame.jsx:285 | the `url(...)` pattern on `url(<path>)` captures the path |
| Frame.ReplaceAfterPrefix | src/components/Frame.jsx:289 | a string `replace` acts on the first occurrence |
| Frame.ReplacePlainUrl | src/components/Frame.jsx:289 | replacing the path inside `url(<path>)` prefixes it |
| Frame.ConvertPlainUrl | src/components/Frame.jsx:270-294 | a local `url(<path>)` becomes `url(<origin><path>)` and a local `src` becomes `<origin><src>` |
| Frame.FirstNamesPlain | src/hooks/useDragDrop.js:3-8 | the first five colour names hold no quote or parenthesis |
| Frame.LastNamesPlain | src/hooks/useDragDrop.js:9-13 | the last five colour names hold no quote or parenthesis |
| Frame.FirstHashesPlain | src/hooks/useDragDrop.js:16-21 | the first five texture hashes hold no quote or parenthesis |
| Frame.LastHashesPlain | src/hooks/useDragDrop.js:22-26 | the last five texture hashes hold no quote or parenthesis |
| Frame.NamePlain | src/hooks/useDragDrop.js:3-27 | colour names and their hashes hold no quote or parenthesis |
| Frame.TexturePlain | src/hooks/useDragDrop.js:16-27 | every texture is a local image whose path needs no quoting |
| Frame.PlainAppend | src/components/Frame.jsx:285 | joining two such paths keeps them plain |
| Frame.ConvertRenderedTexture | src/components/Frame.jsx:280-293 | the texture background of a rendered button is made absolute |
| Frame.ConvertSrcIdempotent | src/components/Frame.jsx:274-277 | converting twice is converting once |
| Frame.ConvertRenderedIcons | src/components/Frame.jsx:272-278 | every icon a rendered button shows is local and is made absolute |
| Frame.FrameView.constructor | src/components/Frame.jsx:28 | no zone is highlighted |
| Frame.FrameView.HandleDrop | src/components/Frame.jsx:115-206 | no zone stays highlighted; zones, feedback and selection after a drop are those of the decision `Drop`; every other field of the hook is unchanged |
| Frame.FrameView.PlaceDropped | src/components/Frame.jsx:180-205 | occupants are cleared with all their zones, the button is placed, the drop zone selected and success reported; every other field of the hook is unchanged |
| Frame.FrameView.ClearZones | src/components/Frame.jsx:190 | the loop clears exactly the listed zones; every other field of the hook is unchanged |
| Frame.FrameView.HandleRemove | src/components/Frame.jsx:214-227 | all zones of the button (or the zone alone) are cleared and "Button removed" reported; the selection is dropped only if it was this zone; every other field of the hook is unchanged |
| PdfServer.FrameWidth | pdf_server.py:34 | width defaults to 320 |
| PdfServer.FrameHeight | pdf_server.py:35 | height defaults to 320 |
| PdfServer.GridType | pdf_server.py:36 | grid type defaults to `2x4` |
| PdfServer.TemplateLayout | pdf_server.py:52-92 | the container is sized width × height px, the hiding rules precede the injected CSS, and the fragment sits inside the container |
| PdfServer.Viewport | pdf_server.py:101-104 | the viewport is (width + 40) × (height + 40) |
| PdfServer.RouteByPrefix | pdf_server.py:111-135 | a `/images/` or `/ican/images/` URL is redirected to `http://localhost:3000` + url, and aborted if that fails; any other request continues, or is aborted on failure |
| PdfServer.RedirectKeepsPath | pdf_server.py:119-124 | a redirect asks the development server for the same path |
| PdfServer.ShotStep | pdf_server.py:262-274 | a screenshot call gives its bytes or records its exception |
| PdfServer.ContainerStep | pdf_server.py:175-206 | method 1: no match skips, a box gives the clipped shot, no box the element shot; a raising count or box lookup is the strategy's failure |
| PdfServer.KeyStep | pdf_server.py:208-242 | method 2: no match skips; a box and a clip give the clipped shot, otherwise (no box, or the box or clip call raises) the element shot; a raising count is the strategy's failure |
| PdfServer.LayoutStep | pdf_server.py:244-259 | method 3: no match skips, a match gives the element shot; a raising count is the strategy's failure |
| PdfServer.Attempt | pdf_server.py:209 | a strategy runs only while no non-empty screenshot exists |
| PdfServer.RunStops | pdf_server.py:209-262 | once an image exists, the rest of the chain changes nothing |
| PdfServer.RunFirstImage | pdf_server.py:175-274 | the chain ends with an image iff some strategy yields one, and it is the first one yielded |
| PdfServer.RunNoImage | pdf_server.py:175-274 | no strategy yielding an image leaves the chain without one |
| PdfServer.ChainImage | pdf_server.py:175-274 | the chain from the start state: an image iff some strategy yields one, the first such |
| PdfServer.FirstYield | pdf_server.py:175-274 | the index of the first strategy yielding an image |
| PdfServer.TryContainer | pdf_server.py:175-206 | the `try` block of method 1 computes `Attempt` with `ContainerStep` |
| PdfServer.TryKey | pdf_server.py:208-242 | the `try` block of method 2 computes `Attempt` with `KeyStep` |
| PdfServer.TryLayout | pdf_server.py:244-259 | the `try` block of method 3 computes `Attempt` with `LayoutStep` |
| PdfServer.CaptureChain | pdf_server.py:171-274 | the four blocks compute the chain `Run` over the four strategies |
| PdfServer.RunFour | pdf_server.py:175-274 | the chain over four strategies is the four attempts in turn |
| PdfServer.Fit | pdf_server.py:285-298 | a ratio above maxW / maxH takes the full width, any other the full height |
| PdfServer.FitWithin | pdf_server.py:285-298 | the page fits inside A4 minus 40 pt, keeps the ratio, and reaches one bound |
| PdfServer.FitScaleFree | pdf_server.py:285-298 | scaling the image changes nothing on the page |
| PdfServer.FilenameParts | pdf_server.py:322 | the name is `board-design-{gridType}-{seconds}.pdf`, and the timestamp reads back as the seconds |
| PdfServer.GeneratePdf | pdf_server.py:31-332 | a missing or empty `html` answers 400 before any browser; otherwise the page and viewport are built, the browser is closed, no image answers 500 "Failed to capture screenshot", a decoder failure answers 500 with its message, and otherwise the fitted PDF is sent under its file name |
| DesignServer.QueryValue | server.js:28 | an absent query parameter is `undefined`, a present one a string |
| DesignServer.FindIndex | server.js:57-59 | the first index with the body's (name, category); `None` iff there is none |
| DesignServer.NewDesign | server.js:50-54 | the new design carries the body's fields, `createdAt`, and the fresh `id` unless the body has one |
| DesignServer.Updated | server.js:63-67 | the merged design carries the body's fields over the stored ones, and `updatedAt` |
| DesignServer.ByCategoryExact | server.js:30-32 | a category query answers that category's designs, each as many times as it is stored, in stored order, and no other design |
| DesignServer.UpsertExisting | server.js:61-67 | an existing key is merged at its index; the length and every other design are unchanged |
| DesignServer.UpsertNew | server.js:68-71 | a new key is appended with the body's fields, `createdAt` and a fresh `id` |
| DesignServer.UpdateKeepsId | server.js:61-67 | on the update path the stored `id` is kept |
| DesignServer.UpsertFindsBody | server.js:56-71 | after a POST the body's key is found and holds the body's fields |
| DesignServer.UpsertKeepsUnique | server.js:56-71 | a POST keeps (name, category) keys unique |
| DesignServer.WithoutIdExact | server.js:87 | delete by id removes every design with that id and keeps every other design as many times as stored, in order |
| DesignServer.WithoutKeyExact | server.js:103-105 | delete by name and category removes exactly the designs matching both, keeps every other design as many times as stored, in order, and the key is then absent |
| DesignServer.DesignStore.constructor | server.js:20-22 | a new store holds no design |
| DesignServer.DesignStore.GetDesigns | server.js:25-40 | with a category, exactly its designs; without one, all designs |
| DesignServer.DesignStore.SaveDesign | server.js:43-79 | the answer's `id` is `Date.now()` as text, and the list becomes the upsert |
| DesignServer.DesignStore.DeleteDesign | server.js:82-95 | the list becomes `WithoutId` of the old one |
| DesignServer.DesignStore.DeleteByKey | server.js:98-113 | the list becomes `WithoutKey` of the old one |
| SaveDesignDialog.StorageKey | src/components/SaveDesign.jsx:17 | the key is `designs_` followed by the category |
| SaveDesignDialog.StorageKeyInjective | src/components/SaveDesign.jsx:43 | different categories use different keys |
| SaveDesignDialog.Load | src/components/SaveDesign.jsx:15-23 | a category with no stored key loads as the empty list |
| SaveDesignDialog.BlankIff | src/components/SaveDesign.jsx:26 | a name is refused iff every character is whitespace |
| SaveDesignDialog.FindName | src/components/SaveDesign.jsx:49 | the first index with the name; `None` iff there is none |
| SaveDesignDialog.UpsertExisting | src/components/SaveDesign.jsx:49-55 | the first design with the name is replaced at its index once confirmed; declining writes nothing |
| SaveDesignDialog.UpsertNew | src/components/SaveDesign.jsx:56-58 | a new name is appended |
| SaveDesignDialog.UpsertKeepsUnique | src/components/SaveDesign.jsx:48-58 | a save keeps names unique, and the saved design is found under its name |
| SaveDesignDialog.FoundAt | src/components/SaveDesign.jsx:49 | a name held only at i is found at i |
| SaveDesignDialog.WithoutNameExact | src/components/SaveDesign.jsx:87 | delete removes every design with the name and keeps every other design as many times as stored, in order; the name is then absent |
| SaveDesignDialog.Dialog.constructor | src/components/SaveDesign.jsx:4-13 | the dialog opens on category `2-8` with an empty name and loads that category |
| SaveDesignDialog.Dialog.SelectCategory | src/components/SaveDesign.jsx:11-23 | a category change reloads that category's list |
| SaveDesignDialog.Dialog.SaveDesign | src/components/SaveDesign.jsx:25-71 | a blank name is refused iff it is blank and changes nothing; a declined replace changes nothing; a save writes only this category's key, shows the new list and clears the name |
| SaveDesignDialog.Dialog.DeleteDesign | src/components/SaveDesign.jsx:85-102 | the filtered list is stored, or the key removed when it is empty |
| SaveDesignDialog.OtherCategoriesUntouched | src/components/SaveDesign.jsx:60 | a save or delete leaves every other category's list as it was |
| SaveDesignDialog.DeleteLastEmpties | src/components/SaveDesign.jsx:90-92 | after the last design is deleted the key is gone and the category loads as empty |
| Cart.LoadCart | src/hooks/useCart.js:5-13 | missing, empty or unparsable storage loads as `[]`; otherwise the parsed list |
| Cart.NewItem | src/hooks/useCart.js:47-51 | the item carries the design's fields, `addedAt`, and the uuid unless the design has an `id` |
| Cart.ClearCart | src/hooks/useCart.js:62-66 | the cart is empty |
| Cart.CartSummary | src/hooks/useCart.js:69-74 | `count` is the number of items, and the items are the cart |
| Cart.AddAppends | src/hooks/useCart.js:46-54 | adding appends exactly one item after the unchanged old ones; the count grows by one |
| Cart.RemoveExact | src/hooks/useCart.js:57-59 | removing drops every item with that id and keeps every other item as many times as it was there, in order |
| Cart.RemoveAbsent | src/hooks/useCart.js:57-59 | removing an absent id changes nothing |
| Cart.RemoveUndoesAdd | src/hooks/useCart.js:46-59 | removing the item just added, by its fresh uuid, gives the cart back |
| Cart.StorageEventClears | src/hooks/useCart.js:34-38 | an event for `boardDesignerCart` with no new value empties the cart; other keys change nothing |
| Cart.StorageEventLoads | src/hooks/useCart.js:34-38 | an event carrying a stored list makes the cart what loading that list gives |
| Thumbnail.GridDims | src/components/SavedDesignsThumbnail.jsx:9-24 | the named grid types by the table; another `dora-`/`pblock-` type with `NxM` takes N × M; anything else 2 × 4 |
| Thumbnail.DimsSkip | src/components/SavedDesignsThumbnail.jsx:19 | the leftmost match skips positions holding no digit |
| Thumbnail.DimsAtWritten | src/components/SavedDesignsThumbnail.jsx:19-23 | two digit runs written `{a}x{b}` at a position are the match found there, with their decimal values |
| Thumbnail.DimsOfName | src/components/SavedDesignsThumbnail.jsx:19-23 | `{prefix}{a}x{b}` with no digit in the prefix matches with a and b |
| Thumbnail.NamedAgree | src/components/SavedDesignsThumbnail.jsx:15-17 | the named `dora-NxM` rows agree with the pattern |
| Thumbnail.GridDimsPattern | src/components/SavedDesignsThumbnail.jsx:9-24 | every `dora-{a}x{b}` and `pblock-{a}x{b}` has a columns and b rows |
| Thumbnail.GridDimsByPattern | src/components/SavedDesignsThumbnail.jsx:18-24 | a prefixed name holding the pattern takes its numbers |
| Thumbnail.NoX | src/components/SavedDesignsThumbnail.jsx:13-14 | the two named `dora-` types without `x` do not match the pattern |
| Thumbnail.DisplayRows | src/components/SavedDesignsThumbnail.jsx:27 | `min(rows, 6)` |
| Thumbnail.ThumbColor | src/components/SavedDesignsThumbnail.jsx:30-43 | the thumbnail's table; an unknown name is `#f5f5f5`; every result is `#rrggbb` |
| Thumbnail.DefaultColor | src/components/SavedDesignsThumbnail.jsx:118 | full colour, else frame colour, else `polar-white` |
| Thumbnail.FirstOf | src/components/SavedDesignsThumbnail.jsx:92-100 | the first truthy field among s0, s1, s2, else the fallback |
| Thumbnail.PrimaryCell | src/components/SavedDesignsThumbnail.jsx:60-112 | a primary zone's cell: column col + 1, row row + 1, spans `n \|\| 1`, colour zone > full > frame > polar-white; with a text section, the first truthy section colour (else `#fff`) and the first truthy section value (else empty) as its label; without one, a transparent text colour and no label; an icon dot exactly when an icon section comes without text |
| Thumbnail.CoveredCols | src/components/SavedDesignsThumbnail.jsx:69-72 | the indices of one covered row |
| Thumbnail.CoveredRows | src/components/SavedDesignsThumbnail.jsx:68-73 | the indices the marking loops add include the start cell |
| Thumbnail.CoveredColsIff | src/components/SavedDesignsThumbnail.jsx:69-72 | an index is marked in a row iff it is one of the colSpan cells from the start |
| Thumbnail.CoveredRowsIff | src/components/SavedDesignsThumbnail.jsx:68-73 | the marked indices are exactly `(row + r) × cols + (col + c)` for r < rowSpan, c < colSpan |
| Thumbnail.Visit | src/components/SavedDesignsThumbnail.jsx:51-133 | one step: a processed cell changes nothing; marks only grow; the cell ends processed; at most one cell is drawn |
| Thumbnail.RowWalkFinishes | src/components/SavedDesignsThumbnail.jsx:50-134 | after a row every visited cell is finished |
| Thumbnail.WalkFinishesAll | src/components/SavedDesignsThumbnail.jsx:49-135 | after the loops every cell of the drawn grid is drawn, merged away or covered |
| Thumbnail.VisitKinds | src/components/SavedDesignsThumbnail.jsx:54-133 | a primary zone draws one cell with its spans and finishes its rectangle; a merged zone draws nothing; any other zone draws one 1 × 1 empty cell |
| Thumbnail.CoveredSkipped | src/components/SavedDesignsThumbnail.jsx:54-56 | a cell covered by an earlier primary zone is skipped |
| Thumbnail.BlankRow | src/components/SavedDesignsThumbnail.jsx:116-132 | a row of c cells, all empty |
| Thumbnail.BlankRowAt | src/components/SavedDesignsThumbnail.jsx:116-132 | cell k of the row is the empty cell at column k, with key `zone-{index}` and the default colour |
| Thumbnail.BlankGrid | src/components/SavedDesignsThumbnail.jsx:116-132 | rows of empty cells, all empty |
| Thumbnail.BlankGridLength | src/components/SavedDesignsThumbnail.jsx:49-50 | the empty grid has r × cols cells |
| Thumbnail.EmptyRow | src/components/SavedDesignsThumbnail.jsx:50-134 | without zone records a row is drawn as empty cells |
| Thumbnail.NextRow | src/components/SavedDesignsThumbnail.jsx:51 | the next row starts cols indices later |
| Thumbnail.EmptyWalkProcessed | src/components/SavedDesignsThumbnail.jsx:49-135 | without zone records, the rows walked so far finish only cells before the next row |
| Thumbnail.EmptyRowsStep | src/components/SavedDesignsThumbnail.jsx:50-134 | without zone records, each further row appends its empty cells |
| Thumbnail.EmptyWalk | src/components/SavedDesignsThumbnail.jsx:49-135 | a design with no `zone-{index}` record draws r × cols empty cells in reading order |
| Thumbnail.ParseGrid | src/components/SavedDesignsThumbnail.jsx:9-24 | the `if` chain computes `GridDims` |
| Thumbnail.MarkCovered | src/components/SavedDesignsThumbnail.jsx:68-73 | the loops add exactly the covered indices |
| Thumbnail.VisitCell | src/components/SavedDesignsThumbnail.jsx:51-133 | the inner loop's body computes `Visit` |
| Thumbnail.DrawRow | src/components/SavedDesignsThumbnail.jsx:50-134 | the inner loop computes `RowWalk` |
| Thumbnail.DrawRows | src/components/SavedDesignsThumbnail.jsx:49-135 | the outer loop computes `Rows` |
| Thumbnail.RenderThumbnail | src/components/SavedDesignsThumbnail.jsx:5-135 | columns and displayed rows by `GridDims` and `DisplayRows`, cells in the order the loops push them |
| CartView.GridSettings | src/components/CartView.jsx:12-23 | the table; an unknown type is 2 × 4 |
| CartView.CartColor | src/components/CartView.jsx:112-126 | the cart's table; an unknown name is `#ffffff`; every result is `#rrggbb` |
| CartView.TextColor | src/components/CartView.jsx:128-135 | black on a bright background, white otherwise and when a channel is NaN |
| CartView.BrightIff | src/components/CartView.jsx:133-134 | the luminance test is `299r + 587g + 114b > 127500` |
| CartView.TextColorOfHex | src/components/CartView.jsx:128-135 | on `#rrggbb` the text is black iff `299r + 587g + 114b > 127500` over its bytes |
| CartView.ZonesArray | src/components/CartView.jsx:59-67 | an array as is, an object's values in order, anything else empty |
| CartView.Configured | src/components/CartView.jsx:278 | a zone is listed iff it is present and primary or has s0, s1 or s2 |
| CartView.ConfiguredAppend | src/components/CartView.jsx:278 | the filter keeps array order |
| CartView.ButtonNumber | src/components/CartView.jsx:300 | `parseInt(id minus "button") + 1`, or idx + 1 without an id |
| CartView.ButtonNumberOfId | src/components/CartView.jsx:300 | id `button{n}` is numbered n + 1 |
| CartView.ButtonColor | src/components/CartView.jsx:301 | zone colour > full colour > frame colour > `Default` |
| CartView.ColorHex | src/components/CartView.jsx:302 | `N/A` iff the colour is `Default` |
| CartView.ColorCode | src/components/CartView.jsx:308 | `name (hex)`, or `Default` |
| CartView.SectionText | src/components/CartView.jsx:313-315 | `Icon: v`, `Text: v`, or empty |
| CartView.SectionShown | src/components/CartView.jsx:313-315 | a section text is non-empty iff it is an icon or a text |
| CartView.ButtonDetails | src/components/CartView.jsx:461-481 | no buttons iff nothing is configured; otherwise one entry per configured zone |
| CartView.FindById | src/components/CartView.jsx:83 | a present zone with the id; `None` iff no present zone has it |
| CartView.FindByIdFirst | src/components/CartView.jsx:83 | the zone found is the first present zone carrying the id |
| CartView.FallbackHex | src/components/CartView.jsx:86 | `#f0f0f0` is a `#rrggbb` colour |
| CartView.PreviewGrid | src/components/CartView.jsx:56-107 | without an image the preview has cols × rows cells; cell idx is filled iff a zone `button{idx}` exists; its background is the zone's colour, else the frame colour, else `#f0f0f0`, always `#rrggbb`; its text colour is the contrast rule on that background |
| CartView.Catalog | src/components/CartView.jsx:400-422 | one entry per item, numbered from 1 in cart order |
| CartView.ExportPdf | src/components/CartView.jsx:145-149 | an empty cart alerts and creates no PDF; otherwise the PDF lists the catalogue |
| CartView.ExportName | src/components/CartView.jsx:354 | the file name carries the date before the `T` |

## Left out

- The browser, the DOM and React rendering: zones are records. Event wiring, drag images, highlight animation and `setTimeout` feedback clearing are not modelled.
- DragDrop: `handleDragEnter`, `handleDragOver`, `handleDragLeave`, `highlightMergeZones` and `switchGridType` are UI wiring around the modelled operations.
- DragDrop: the placed button element (`createButtonElement`), icon and text editing, and the colour palettes are not modelled. The zone records which button it holds.
- DragDrop: inline grid styles (`style.gridColumn`, `style.gridRow`) are not modelled. They mirror the span classes.
- DragDrop.DragDropManager.constructor: it requires distinct `data-place` values and distinct cells. The page markup provides them, but drag-drop.js never checks them.
- DragDrop: the merge bookkeeping (`Books`) reads only `data-merged-into`, the merge list, the button and `merged-hidden`. The consistency lemmas are stated over that view, not over the whole zone.
- PlacementKeepsIdle: the footprint of a placement outside the covered zones is stated only for zones that take no part in any merge. Zones released from a cleared button are described by `ClearedAtEntry`, not by a lemma about the whole placement.
- PlacementConsistent: it assumes place names without commas, because `data-merged-zones` joins them with commas.
- Frame: `handleDownloadPDF`'s fetch and blob download, and `applyComputedStyles`, are I/O.
- Frame: in the dragged button's data, a `colSpan` or `rowSpan` that is not a number reads as absent, so its span is 1. JavaScript's `|| 1` would keep a truthy non-number.
- Frame.ConvertPlainUrl: a path holding `$` patterns is left out. JavaScript's `replace` would expand them.
- UseDragDrop: `loadDesign`, `applyFrameColor` and the icon list are plain setters or data.
- UseDragDrop.WallFlecks: the CSS strings are not modelled. Each fleck keeps its position, channels, opacity and size.
- UseDragDrop.GenerateFleckLayer: `parseFloat(size) * 2.5` is a float.
- PdfServer: Playwright, page loading, waits and timeouts are not modelled. Each capture strategy is an outcome (bytes, none or exception).
- PdfServer: the debug DOM probe is not modelled.
- PdfServer: the stylesheet read is a parameter.
- PdfServer: PIL decoding is a parameter, and reportlab drawing is not modelled.
- PdfServer: a JSON body that is not an object, or whose fields are not numbers or strings, is not modelled.
- PdfServer: `width` and `height` are integers. Frame.jsx sends `rect.width` and `rect.height`, which may be fractional; fractional sizes in the template and the viewport are not modelled.
- PdfServer: the error message of a failed strategy is recorded but never reaches the response. The code raises its own message.
- PdfServer.Fit: A4 and the ratio are exact reals (A4 = 21 cm × 29.7 cm in points), not floats.
- PdfServer: the `drawImage` offsets are not modelled. They are always 0.
- DesignServer: the file read and write and the JSON round trip are a field. Express routing, CORS and the 500 answers on I/O errors are not modelled.
- SaveDesignDialog, Cart: localStorage is a map, or a list with a parse function. `alert`, the `designsSaved` and `cartCleared` events and `saveCartToStorage` are not modelled.
- SaveDesignDialog: `loadDesignFromList` only calls back into the page.
- Cart: `exportCartAsJSON` is a download.
- Thumbnail: `processedZones` holds indices rather than the `zone-{index}` strings. The two are in bijection.
- Thumbnail, CartView: prototype keys of the colour and settings tables (such as `constructor`) are not modelled.
- CartView: the jsPDF page layout (`yPosition`, `pageNumber`, image sizes) and `window.print` are not modelled.
- CartView.TextColor: the luminance is exact. Floating-point rounding exactly at the 0.5 boundary is not modelled.
- CartView: zone elements that are not objects are not modelled.
- Thumbnail: an undefined `gridType` that matches no named layout, and an undefined `dropZones`, make the component throw a TypeError (SavedDesignsThumbnail.jsx:18 calls `startsWith` on the type, :58 indexes the zones). The model's grid type is a string and its zones a map, so neither crash is represented.
- DesignServer.Key: names and categories compare by value. server.js:58 compares them with `===`, which for two objects compares references, so two distinct but equal object names match here and not in the server.
- CartView.CatalogOf: a missing item name becomes the text `undefined`, as the PDF heading prints it (CartView.jsx:196). The on-screen heading (CartView.jsx:425) renders nothing for it; that difference is not modelled.
- Js.ParseInt: `parseInt` is exact, so the precision loss of numbers beyond 2^53 is not modelled.
- All modules use unbounded integers. JavaScript numbers are doubles, so numbers beyond 2^53 are not modelled.

## Findings

| source | as written | input that shows it | evidently intended | confidence | as-written member | corrected member |
|---|---|---|---|---|---|---|
| src/hooks/useDragDrop.js:231 | `applyFullColor` recolours only records whose `buttonType` is truthy, but `Frame`'s `handleDrop` stores the button type as `type` (src/components/Frame.jsx:197-201) | drop button type 1 on `button1` of an empty 2x4 frame, then apply full colour `red-cherry`: the zone keeps no `color` | every placed button takes the full colour | not executed | UseDragDrop.DesignState.ApplyFullColorAsWritten | UseDragDrop.DesignState.ApplyFullColor |
