# Canvas editor scene bookkeeping — a Dafny model

The Canvas editor is a React front end around a Fabric.js canvas. Its panels
keep their own view of the scene and write back into it:

- the **layer panel** gives every object an id, keeps `zIndex` equal to the
  stacking position, lists the objects front-most first (leaving out the
  snapping guide lines), mirrors the selection in both directions, moves the
  selected layer one step up or down and hides or shows it by saving and
  restoring its opacity;
- the **crop tool** adds numbered frame rectangles and folds their scale into
  their width and height so the outline stays one pixel wide;
- the **crop panel** lists the frames, selects one and exports its region
  with every other frame hidden and the selected frame's outline removed,
  restoring both afterwards;
- the **style palette** appends and edits named colours, applies one to the
  active object and, on save, recolours every object that refers to a palette
  entry by its style id;
- the **object settings panel** shows a rectangle's width and height or a
  circle's diameter, rounded, and writes typed values back divided by the
  scale; the **canvas size panel** sets the canvas width and height. Both
  strip commas, run `parseInt` and ignore `NaN` and negative numbers.

The model treats the canvas as an immutable sequence of object records
(index 0 is the back-most object) and every handler as a pure function from
the old scene and panel state to the new one. Where a component holds a
Fabric object by reference (the active object, the crop panel's frames and
selected frame) the model holds its position in the sequence; the settings
panel holds the object value itself and returns it updated. Clock readings
are parameters (`now`). Geometry is over `real`.

Modules, one per source component plus two shared ones:

| file | module | models |
|---|---|---|
| `jsprims.dfy` | `JsPrims` | the JavaScript primitives the handlers lean on: `x \|\| 1`, `Math.round`, number-to-string, `replace(/,/g, "")`, `parseInt(s, 10)` |
| `scene.dfy` | `Scene` | object records, the canvas, `find` by id |
| `layers.dfy` | `LayersList` | `CLIENT/src/LayersList.jsx` |
| `cropping.dfy` | `Cropping` | `CLIENT/src/Cropping.jsx` |
| `croppingsettings.dfy` | `CroppingSettings` | `src/CroppingSettings.jsx` |
| `styleeditor.dfy` | `StyleEditor` | `CLIENT/src/StyleEditor.jsx` |
| `settings.dfy` | `Settings` | `src/Settings.jsx` |
| `canvassettings.dfy` | `CanvasSettings` | `src/CanvasSettings.jsx` |

Two behaviours of the source that the lemmas make explicit rather than hide:
the id assigner is only as unique as the clock (`LayersList.SameTickSameId`:
two id-less objects of one type met in one rank pass can get the same id, when the clock has not advanced between them), and
the up/down arrows are only guaranteed to move the object when the panel is
in step with the canvas (`LayersList.UpEnabledMeansRoomAbove`).

## Model

| member | source | states |
|---|---|---|
| `JsPrims.OrOne` | CLIENT/src/Cropping.jsx:27-28 | `x \|\| 1` on a number is 1 when `x` is zero and `x` otherwise |
| `JsPrims.OptOrOne` | CLIENT/src/LayersList.jsx:24 | `prevOpacity \|\| 1` is never zero, is the saved value when that is non-zero, and 1 when the saved value is zero or nothing is saved |
| `JsPrims.Round` | src/Settings.jsx:45-46 | `Math.round(x)` is the integer within half a unit of `x`, halves going up |
| `JsPrims.RoundOfInt` | src/Settings.jsx:45 | rounding an integral value returns it |
| `JsPrims.NatToString` | CLIENT/src/Cropping.jsx:8 | a number in a template literal renders as a non-empty run of decimal digits without a leading zero |
| `JsPrims.NatToStringInjective` | CLIENT/src/LayersList.jsx:40-41 | different numbers render as different strings |
| `JsPrims.StripCommas` | src/Settings.jsx:67 | `replace(/,/g, "")` leaves no comma, keeps every other character as often as before, and leaves a comma-free string alone |
| `JsPrims.StripCommasAppend` | src/Settings.jsx:67 | stripping commas from a concatenation strips each part, so the kept characters stay in their order |
| `JsPrims.StripCommasIdempotent` | src/CanvasSettings.jsx:17 | stripping commas twice is stripping them once |
| `JsPrims.DigitsValueOfNatToString` | src/Settings.jsx:68 | reading the decimal rendering of a natural number back in base 10 gives the number |
| `JsPrims.TrimStart` | src/Settings.jsx:68 | the white space `parseInt` skips: a prefix of JavaScript white-space characters is removed and the rest starts with a non-space |
| `JsPrims.LeadingDigits` | src/Settings.jsx:68 | the digit run `parseInt` reads: every counted character is a digit and the next one is not |
| `JsPrims.InputValue` | src/Settings.jsx:67-68 | the number a text input holds after comma stripping and `parseInt`; it is present only when the input holds a digit |
| `JsPrims.ParseInt` | src/Settings.jsx:68 | `parseInt` yields a number only when the input holds a digit, and a negative one only when it holds a minus sign |
| `JsPrims.ParseIntOfNatToString` | src/Settings.jsx:68 | parsing the decimal rendering of a natural number gives that number |
| `JsPrims.ParseIntOfNatToStringThen` | src/Settings.jsx:68 | characters after the digit run are ignored (`"12px"` parses to 12) |
| `JsPrims.ParseIntOfNegative` | src/CanvasSettings.jsx:18 | a leading minus sign negates the parsed number |
| `JsPrims.ParseIntSkipsSpace` | src/CanvasSettings.jsx:25 | leading white space does not change the parse |
| `JsPrims.ParseIntNoDigits` | src/Settings.jsx:68-71 | input with no digit at all parses to `NaN` |
| `Scene.IndexOfId` | CLIENT/src/LayersList.jsx:18-20 | `find` by id returns the first object carrying the id, and nothing exactly when no object carries it |
| `Scene.IndexOfIdOnlyReadsIds` | CLIENT/src/LayersList.jsx:80 | the object found by id depends on the ids alone, so a rank refresh or an opacity change does not move it |
| `LayersList.EnsureObjectHasId` | CLIENT/src/LayersList.jsx:38-43 | afterwards the object has an id; an object that had one is unchanged; otherwise only the id changes and it starts with `type_` |
| `LayersList.EnsureObjectHasIdIdempotent` | CLIENT/src/LayersList.jsx:38-43 | assigning ids twice is assigning them once, whatever the second clock reading |
| `LayersList.SameTickSameId` | CLIENT/src/LayersList.jsx:40-41 | two id-less objects of one type met at one clock reading get the same id |
| `LayersList.DistinctTicksDistinctIds` | CLIENT/src/LayersList.jsx:40-41 | two id-less objects of one type met at different clock readings get different ids |
| `LayersList.UpdateZIndices` | CLIENT/src/LayersList.jsx:45-51 | every object ends with an id and `zIndex` equal to its position; nothing else changes and existing ids are kept |
| `LayersList.RanksArePermutation` | CLIENT/src/LayersList.jsx:45-51 | after ranking, the `zIndex` values are exactly `0 .. N-1`, each once |
| `LayersList.UpdateZIndicesIdempotent` | CLIENT/src/LayersList.jsx:45-51 | ranking a ranked canvas changes nothing |
| `LayersList.VisibleEntries` | CLIENT/src/LayersList.jsx:57-70 | the filtered projection holds exactly the projections of the non-guide-line objects, never more rows than objects |
| `LayersList.VisibleEntriesAscending` | CLIENT/src/LayersList.jsx:57-70 | the filtered projection of consecutively ranked objects has strictly rising ranks within the ranked range |
| `LayersList.LayerListMembers` | CLIENT/src/LayersList.jsx:57-71 | the rows are exactly the projections of the non-guide-line objects |
| `LayersList.LayerListEntriesProject` | CLIENT/src/LayersList.jsx:65-70 | on a ranked canvas each row equals the projection of the object its rank points at |
| `LayersList.ReverseOfRising` | CLIENT/src/LayersList.jsx:71 | reversing rows whose ranks rise strictly gives rows whose ranks fall strictly |
| `LayersList.LayerListDescending` | CLIENT/src/LayersList.jsx:54-73 | on a ranked canvas the rows' ranks fall strictly, front-most first |
| `LayersList.LayerListShape` | CLIENT/src/LayersList.jsx:54-73 | the rows are exactly the non-guide-line objects, each row equal to its object's `{id, zIndex, type, opacity}`, front-most first |
| `LayersList.UpdateLayers` | CLIENT/src/LayersList.jsx:54-73 | afterwards the canvas is ranked and the rows are the ones derived from it; selection, active object and background are kept |
| `LayersList.HandleObjectSelected` | CLIENT/src/LayersList.jsx:127-138 | the selection record is `{id, opacity}` of the first selected object, and none exactly when the selection is empty |
| `LayersList.SelectionCleared` | CLIENT/src/LayersList.jsx:164 | clearing the canvas selection clears the panel's record and nothing else |
| `LayersList.SelectLayerInCanvas` | CLIENT/src/LayersList.jsx:141-152 | a row click on an id on the canvas makes its first object active and records its `{id, opacity}`; an unknown id changes nothing |
| `LayersList.PanelSelectionConverges` | CLIENT/src/LayersList.jsx:127-152 | after a row click, the selection event for the now active object reproduces the same record |
| `LayersList.SceneSelectionConverges` | CLIENT/src/LayersList.jsx:127-152 | clicking the row of the object the canvas reported selected activates that same object and keeps the record |
| `LayersList.ToggleOpacity` | CLIENT/src/LayersList.jsx:23-29 | a hidden object gets back its saved opacity, or 1, and forgets it; a shown one saves its opacity and drops to 0; nothing else changes |
| `LayersList.ToggleTwiceRestoresOpacity` | CLIENT/src/LayersList.jsx:23-29 | toggling twice restores the opacity |
| `LayersList.ToggleTwiceOnShownObject` | CLIENT/src/LayersList.jsx:23-29 | a shown object with nothing saved comes back exactly as it was after two toggles |
| `LayersList.ToggleKeepsHiddenStateConsistent` | CLIENT/src/LayersList.jsx:23-29 | a saved opacity is only held by a hidden object and is non-zero, before and after each toggle |
| `LayersList.HideSelectedLayer` | CLIENT/src/LayersList.jsx:15-35 | no selection or an id gone from the canvas changes nothing; otherwise exactly the selected object toggles, the panel is refreshed and the record's opacity is the object's new opacity |
| `LayersList.HideOnce` | CLIENT/src/LayersList.jsx:15-35 | one press toggles the found object's opacity pair, keeps every other opacity and every existing id, and the record takes the new opacity |
| `LayersList.HideTwiceRestoresOpacity` | CLIENT/src/LayersList.jsx:15-35 | pressing the eye twice restores every object's opacity and leaves the record with the object's opacity |
| `LayersList.Swap` | CLIENT/src/LayersList.jsx:87-95 | exchanging two positions changes only those two and keeps the multiset of objects |
| `LayersList.MoveTarget` | CLIENT/src/LayersList.jsx:86-96 | up goes to `i+1` only below the top, down to `i-1` only above the bottom, otherwise the position stays |
| `LayersList.MoveSelectedLayer` | CLIENT/src/LayersList.jsx:76-124 | no selection or an unknown id changes nothing; otherwise the object and its neighbour trade places and nothing else moves, ranks are renewed, the moved object is active, background and size are kept and the panel is refreshed |
| `LayersList.MovedObjectIsActive` | CLIENT/src/LayersList.jsx:117 | after a move the active object carries the selected id |
| `LayersList.MoveAtBoundaryKeepsOrder` | CLIENT/src/LayersList.jsx:86-96 | moving the top object up or the bottom one down keeps the order |
| `LayersList.MovePermutes` | CLIENT/src/LayersList.jsx:83-103 | on a ranked canvas a move permutes the objects: apart from ranks the same objects, each as often |
| `LayersList.UpEnabledMeansRoomAbove` | CLIENT/src/LayersList.jsx:186 | when the panel is in step and the up arrow is enabled for a listed object, that object is not the top one |
| `LayersList.DownEnabledMeansRoomBelow` | CLIENT/src/LayersList.jsx:194-196 | when the panel is in step and the down arrow is enabled for a listed object, that object is not the bottom one |
| `LayersList.HideDisabledMeansNoOp` | CLIENT/src/LayersList.jsx:204 | when the eye is disabled (no selection) both arrows are disabled too, and hiding or moving would change nothing |
| `Cropping.CountKind` | CLIENT/src/Cropping.jsx:8 | `getObjects("rect").length` is at most the number of objects and zero exactly when there is no rectangle |
| `Cropping.CountKindAppend` | CLIENT/src/Cropping.jsx:8 | counting over two runs of objects adds the counts |
| `Cropping.AddFrameToCanvas` | CLIENT/src/Cropping.jsx:7-23 | exactly one object is appended: a transparent 200 x 200 rectangle at (100, 100) with a one-pixel outline, named `Frame <rectangles + 1>`; nothing else changes |
| `Cropping.ConsecutiveFramesNumbered` | CLIENT/src/Cropping.jsx:8 | two frames added in a row get consecutive numbers |
| `Cropping.MaintainStrokeWidth` | CLIENT/src/Cropping.jsx:26-39 | only width, height, scales and outline change; the on-screen size `width*scaleX` by `height*scaleY` is kept, and a zero scale (which counts as 1) keeps the size; scales end at 1 and the outline at one pixel |
| `Cropping.MaintainStrokeWidthIdempotent` | CLIENT/src/Cropping.jsx:26-39 | normalising a normalised frame changes nothing |
| `Cropping.StretchedFrameExample` | CLIENT/src/Cropping.jsx:30-36 | a 200 x 200 frame stretched by 2 and 0.5 becomes 400 x 100 at unit scale |
| `CroppingSettings.FramesFrom` | src/CroppingSettings.jsx:11-13 | the positions listed are exactly the frames from a starting position on, ascending |
| `CroppingSettings.UpdateFrames` | src/CroppingSettings.jsx:9-21 | the list is exactly the rectangles named `Frame...`, in canvas order; the first becomes selected when there is one, otherwise the selection is kept |
| `CroppingSettings.AddedFrameIsListed` | src/CroppingSettings.jsx:9-21 | a frame added by the crop tool is the last entry of the refreshed list |
| `CroppingSettings.FindFrameByName` | src/CroppingSettings.jsx:28 | the first listed frame with the name, and none exactly when no listed frame has it |
| `CroppingSettings.HandleFrameSelect` | src/CroppingSettings.jsx:27-32 | a frame is selected exactly when some listed frame has the chosen name; it is the first such frame in the list and becomes the active object; an unlisted name clears the selected frame and leaves the canvas alone |
| `CroppingSettings.SelectListedFrame` | src/CroppingSettings.jsx:27-32 | choosing the name of a listed frame that no earlier listed frame shares selects exactly that frame, makes it active and changes nothing else |
| `CroppingSettings.RefreshThenSelectFirst` | src/CroppingSettings.jsx:17-30 | after a refresh, choosing the selected frame's name keeps it selected and makes it active |
| `CroppingSettings.SetVisibility` | src/CroppingSettings.jsx:37-39 | listed objects get the visibility, the others are unchanged |
| `CroppingSettings.ExportFrameAsPNG` | src/CroppingSettings.jsx:34-68 | no selected frame: nothing happens; otherwise the capture sees only the selected frame, outline 0, region `(left, top, width*scaleX, height*scaleY)`, file `name.png`; afterwards every frame is visible and the selected one has a one-pixel outline |
| `CroppingSettings.ExportRestoresCanvas` | src/CroppingSettings.jsx:34-68 | with every frame shown and the selected frame outlined, an export leaves the canvas as it was |
| `CroppingSettings.ExportSettles` | src/CroppingSettings.jsx:54-60 | after an export the frames are shown and the selected one outlined, so a second export leaves the canvas as the first left it |
| `CroppingSettings.ExportCapturesAgain` | src/CroppingSettings.jsx:37-52 | a second export captures the same scene, region and file name as the first |
| `CroppingSettings.ExportRepeatable` | src/CroppingSettings.jsx:34-68 | exporting twice captures the same picture and ends in the same state as exporting once |
| `StyleEditor.AddColor` | CLIENT/src/StyleEditor.jsx:14-19 | exactly one entry is appended, with id `color` followed by the clock reading and the colour being edited; earlier entries are unchanged |
| `StyleEditor.DistinctTicksDistinctColorIds` | CLIENT/src/StyleEditor.jsx:15 | colours added at different clock readings get different ids |
| `StyleEditor.UpdateColor` | CLIENT/src/StyleEditor.jsx:47-52 | length and order kept; entries with the id take the colour, all others are unchanged |
| `StyleEditor.UpdateColorLastWins` | CLIENT/src/StyleEditor.jsx:47-52 | of two edits of one entry only the last counts |
| `StyleEditor.EditFreshColor` | CLIENT/src/StyleEditor.jsx:14-52 | editing a colour just added under a fresh id equals adding the edited colour |
| `StyleEditor.FindColor` | CLIENT/src/StyleEditor.jsx:30 | the colour of the first palette entry with the object's style id, none exactly when no entry has it or the object has no style id |
| `StyleEditor.FindColorAfterUpdate` | CLIENT/src/StyleEditor.jsx:30-52 | after an edit, looking up the edited id yields the new colour |
| `StyleEditor.Recolor` | CLIENT/src/StyleEditor.jsx:29-33 | only the fill may change; it becomes the palette colour found, and nothing changes when none is found |
| `StyleEditor.SaveColors` | CLIENT/src/StyleEditor.jsx:28-34 | every object whose style id is in the palette takes that entry's colour; every other object is unchanged; only fills change |
| `StyleEditor.SaveColorsIdempotent` | CLIENT/src/StyleEditor.jsx:28-34 | saving twice gives the objects of saving once |
| `StyleEditor.EditThenSavePropagates` | CLIENT/src/StyleEditor.jsx:28-52 | after editing an entry and saving, every object referring to it wears the new colour |
| `StyleEditor.ApplyStyle` | CLIENT/src/StyleEditor.jsx:38-45 | the active object takes the fill and the style id and no other object changes; without an active object nothing happens |
| `StyleEditor.ApplyThenSaveKeepsFill` | CLIENT/src/StyleEditor.jsx:28-45 | a colour applied from the palette survives saving the unchanged palette |
| `Settings.HandleObjectSelection` | src/Settings.jsx:40-57 | no object: nothing; a rectangle shows width and height within half a pixel of its on-screen size and its fill, diameter cleared; a circle shows its on-screen diameter and fill, width and height cleared; another type only becomes selected |
| `Settings.ClearSettings` | src/Settings.jsx:58-64 | all four inputs are emptied; the selection is kept |
| `Settings.SelectionCleared` | src/Settings.jsx:25-28 | clearing the selection returns the panel to its initial state |
| `Settings.FieldOf` | src/Settings.jsx:70-75 | `NaN` shows an empty field, a number shows itself |
| `Settings.Unscale` | src/Settings.jsx:78 | `n / scale` times the scale is `n` |
| `Settings.UnscaleHalf` | src/Settings.jsx:108 | `n / 2 / scale` times 2 times the scale is `n` |
| `Settings.ApplyWidth` | src/Settings.jsx:70-81 | the width field shows the parse; for a rectangle and a non-negative number only the object's width changes and width times scale is the number; otherwise the object is untouched |
| `Settings.HandleWidthChange` | src/Settings.jsx:66-82 | the width field shows the comma-stripped parse; a `NaN` or negative value never touches the object |
| `Settings.ApplyHeight` | src/Settings.jsx:86-96 | as the width, with the height and the vertical scale |
| `Settings.HandleHeightChange` | src/Settings.jsx:83-97 | the height field shows the comma-stripped parse; a `NaN` or negative value never touches the object |
| `Settings.ApplyDiameter` | src/Settings.jsx:101-111 | for a circle and a non-negative number only the radius changes and twice the radius times scale is the number; otherwise the object is untouched |
| `Settings.HandleDiameterChange` | src/Settings.jsx:98-112 | the diameter field shows the comma-stripped parse; a `NaN` or negative value never touches the object |
| `Settings.HandleColorChange` | src/Settings.jsx:115-124 | the colour field shows the value and any selected object, of any type, takes it as fill |
| `Settings.ColorChangeShownOnReport` | src/Settings.jsx:47-120 | a colour typed for a selected rectangle or circle is shown again when the object is next reported |
| `Settings.ApplyWidthShowsValue` | src/Settings.jsx:45-78 | a width written into a rectangle is shown back unchanged when the object is next reported |
| `Settings.ApplyHeightShowsValue` | src/Settings.jsx:46-93 | the same for the height |
| `Settings.ApplyDiameterShowsValue` | src/Settings.jsx:51-108 | the same for a circle's diameter |
| `Settings.WidthRoundTrip` | src/Settings.jsx:45-82 | typing a decimal width into a selected rectangle: the next report shows that number |
| `Settings.HeightRoundTrip` | src/Settings.jsx:46-97 | the same for the height |
| `Settings.DiameterRoundTrip` | src/Settings.jsx:51-112 | the same for a circle's diameter |
| `Settings.ParsesTo` | src/Settings.jsx:67-68 | a rendered natural number passes comma stripping and parsing unchanged |
| `Settings.NonNumericWidthIgnored` | src/Settings.jsx:67-77 | input without a digit empties the field and leaves the object alone |
| `Settings.NegativeWidthIgnored` | src/Settings.jsx:74-77 | a negative width is shown but never written into the object |
| `CanvasSettings.HandleWidthChange` | src/CanvasSettings.jsx:16-22 | the width becomes the parsed number when it is not `NaN` and not negative, otherwise nothing changes; the height never changes |
| `CanvasSettings.HandleHeightChange` | src/CanvasSettings.jsx:23-29 | the height becomes the parsed number when it is not `NaN` and not negative, otherwise nothing changes; the width never changes |
| `CanvasSettings.ApplySize` | src/CanvasSettings.jsx:8-14 | the canvas takes the panel's width and height and nothing else changes |
| `CanvasSettings.TypedWidthTaken` | src/CanvasSettings.jsx:16-22 | typing a decimal number sets exactly the width to it |
| `CanvasSettings.TypedHeightTaken` | src/CanvasSettings.jsx:23-29 | typing a decimal number sets exactly the height to it |
| `CanvasSettings.NegativeWidthIgnored` | src/CanvasSettings.jsx:19-21 | a negative number leaves the size as it was |
| `CanvasSettings.CommasIgnored` | src/CanvasSettings.jsx:17-25 | commas in the input make no difference to either dimension |

## Left out

- Event subscription and cleanup (`canvas.on`/`canvas.off`), including the
  inline `selection:cleared` listener that the layer panel's cleanup cannot
  remove: the model calls each handler directly.
- `renderAll` and `setCoords`, and the events a reorder fires: `canvas.clear()`
  drops the active object and fires `selection:cleared` (the record becomes
  null), then `setActiveObject` fires `selection:created` (the record becomes
  `{id, opacity}` of the moved object). LayersList.MoveSelectedLayer keeps the
  record instead; the two agree whenever the record is the moved object's,
  as it is in every state the handlers here produce.
- `canvas.clear()` during a reorder is modelled as resetting only what the
  handler restores (the object order, the background colour and the active
  object); Fabric's other canvas-wide state is not part of this model.
- The snapping guide-line engine (`handleObjectMoving`, `clearGuidelines`,
  imported at CLIENT/src/App.jsx:10) is not part of this model; only the ids
  of its guide lines matter here, through `LayersList.IsHelper`.
- The panels are modelled independently. The crop panel's frames and
  selected frame are canvas positions, so a reorder in the layer panel would
  leave them pointing at other objects, whereas the source's references
  follow the objects; no lemma combines the two panels.
- Wall-clock time: `Date.now()` and `new Date().getTime()` are the `now`
  parameter; one handler call reads the clock once.
- `localStorage` and JSON (CLIENT/src/StyleEditor.jsx:10-11,26), PNG encoding
  by `toDataURL` and the download link click (src/CroppingSettings.jsx:46-52,
  64-67): the capture is returned as its scene, region and file name.
- Rendering the panels (JSX), the colour pickers' DOM clicks and the console
  log in `addColor`.
- src/Video.jsx, CLIENT/src/fabricAssist.jsx, SERVER/server.js,
  CLIENT/src/AddElements.jsx and both App.jsx files: media I/O, HTTP calls
  to a text-generation service, shape constructors and component wiring.
- IEEE double arithmetic: geometry is over exact reals and `Math.round` is
  `Floor(x + 0.5)`; `NaN`, `undefined` and infinite numbers are not values
  of the model (`NaN` from `parseInt` is `None`).
- JsPrims.ParseInt: recognises the common JavaScript white-space characters
  only (not every Unicode space separator) and has no precision limit, so
  digit runs beyond 2^53 parse exactly instead of rounding.
- JsPrims.OrOne: `x || 1` also replaces `NaN` and `undefined` by 1; only the
  zero case exists in the model.
- Settings.ApplyWidth: requires a non-zero horizontal scale on a selected
  rectangle, because `n / 0` yields an infinite width that exact reals cannot
  represent; the same holds for Settings.HandleWidthChange.
- Settings.ApplyHeight: requires a non-zero vertical scale on a selected
  rectangle, for the same reason; the same holds for
  Settings.HandleHeightChange.
- Settings.ApplyDiameter: requires a non-zero horizontal scale on a selected
  circle, for the same reason; the same holds for
  Settings.HandleDiameterChange.
- CroppingSettings.HandleFrameSelect: for a name no listed frame carries, the
  source passes `undefined` to `setActiveObject`; the model clears the
  selected frame and leaves the canvas as it was, since what Fabric does
  with `undefined` is outside the model. It also requires the panel's
  frame positions to be positions on the canvas (`RefsValid`): the source's
  frame list holds object references that could outlive a removal.
- CroppingSettings.ExportFrameAsPNG: requires the same `RefsValid`; the
  order in which the outline and visibility are restored is folded into the
  final state.
- StyleEditor.SaveColors: the `fill !== color` test only skips a write of
  the value already there, so it has no effect on the resulting objects.
- StyleEditor.ApplyStyle: requires the active position to be on the canvas
  (`ValidCanvas`), which Fabric's active object always is.
- LayersList.MovedObjectIsActive: requires the selected id to be non-empty;
  an empty id matches an id-less object, which the rank pass inside the move
  gives a fresh id.
- LayersList.UpEnabledMeansRoomAbove: assumes the panel is in step with the
  canvas (`Synced`) and the selected object is not a guide line; the source
  also evaluates the arrow state between a canvas change and the refresh.
- LayersList.DownEnabledMeansRoomBelow: assumes the same.
