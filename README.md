# Photo-frame editor: scene-state engine

This project models the scene-state engine of the photo-frame editor in `app.js`. The editor
keeps one global `state` record with these parts:

- the uploaded photo and its transform (zoom, rotation, offset);
- the chosen frame and whether it is ready;
- the blur toggle, the colour filter and the text-over-frame toggle;
- an ordered list of text items and the id of the active one;
- a drag record.

Each event handler changes that record in place.

The model is made of these modules:

- `Wrappers`: the `Option` type.
- `JsText`: the parts of JavaScript's string behaviour the engine relies on.
  - `String.prototype.trim` over the ECMAScript white-space and line-terminator set.
  - `String.prototype.startsWith`, as `StartsWith` (the `image/` test of a photo file's type).
  - `Array.prototype.join`.
  - `parseInt(s, 10)`: leading white space, an optional sign and the longest run of decimal
    digits.
- `Filters`: the filter presets and `buildFilterString`.
- `TextItems`: text items as values, and the sequence functions the handlers are specified by:
  - `find` by id;
  - `filter` by id;
  - the top-most-first hit scan;
  - moving the item with a given id.
- `Rendering`: `renderCanvas` as a pure function from what it reads to the list of layers it
  draws, bottom to top, plus whether the download button is disabled.
- `SceneState`: `class Scene`, whose fields are the `state` record. Its methods are the handlers:
  - `addText`, `setActiveText` and `deleteActiveText`;
  - `getActiveText` and `hitTestText`;
  - the three pointer handlers;
  - `resetPhotoTransform`;
  - photo and frame loading, each with its outcome passed in;
  - the toggles, sliders and filter chips.
- `Scenarios`: sequences of handler calls, each proved from the handlers' contracts alone:
  - adding then deleting a text;
  - dragging a text;
  - dragging the photo;
  - a new text winning a hit test;
  - a failed frame load.

Inputs the engine gets from the browser are parameters of the model:

- the fresh id `addText` generates from the clock and a random number;
- the raw values of the text, size and rotation inputs;
- the active swatch colour and the current style defaults;
- the canvas position of the pointer;
- the geometric containment test of `hitTestText`, as `contains`;
- whether a photo file decodes and whether a frame image loads.

Every generated id starts with `text-`, so an id is never empty and never the string `"photo"`.
This is why the model can use `Option<Id>` for the active id and a three-way `DragTarget` where
the source compares against `null` and `"photo"`; `SceneState.Scene.ItemIdsAreNotPhoto` proves it for every
item of a valid scene.

## Model

| member | source | states |
|---|---|---|
| `JsText.TrimStart` | app.js:462 | the result is a suffix of the input, it starts with no white space, and everything dropped is white space |
| `JsText.TrimEnd` | app.js:462 | the result is a prefix of the input, it ends with no white space, and everything dropped is white space |
| `JsText.Trim` | app.js:462 | the result is empty iff the input is all white space; otherwise it has no white space at either end |
| `JsText.TrimSlice` | app.js:462 | the result of trimming is the contiguous slice of the input that starts after its leading white space, with only white space before and after it |
| `JsText.TrimIdempotent` | app.js:462 | trimming twice is the same as trimming once |
| `JsText.TrimUntouched` | app.js:540 | a string with no white space at either end is left unchanged by trimming |
| `JsText.JoinShape` | app.js:540 | `Join`, the model of `pieces.join(" ")`: empty for no pieces, the piece itself for one piece; for more, it starts with the first piece, then the separator, and ends with the last piece |
| `JsText.JoinAppend` | app.js:540 | appending a piece to a non-empty list of pieces appends the separator and that piece to the join; with the one-piece case this fixes every join, so the two pieces `buildFilterString` may join give `blur(6px)` + `" "` + preset |
| `JsText.ParseInt` | app.js:469-470 | `parseInt(s, 10)` gives a number iff a digit follows the leading white space and at most one sign; a negative result comes only from a leading minus sign; `ParseIntOfParts` gives its value for white space, an optional sign, a digit run and a tail that does not start with a digit (`" 42"`, `"+7"`, `"007"`, `"-3px"`), and `ParseIntWithoutDigits` covers text with no digit at all (the sliders at app.js:578 and app.js:585 call it too) |
| `JsText.DecimalString` | app.js:469-470 | the decimal rendering of a natural number is a non-empty run of digits |
| `JsText.ParseIntRoundTrip` | app.js:469-470 | `parseInt` of the decimal form of any integer, followed by anything that does not start with a digit, gives back that integer |
| `JsText.ParseIntOfParts` | app.js:469-470 | `parseInt` of any run of white space, then no sign, `+` or `-` (a `Sign`), then a non-empty run of digits (leading zeros included), then anything that does not start with a digit, is the value of the digits, negated exactly when the sign is `-` |
| `JsText.ParseIntWithoutDigits` | app.js:469-470 | `parseInt` of a string that contains no decimal digit is NaN (`None`) |
| `TextItems.ParsedOr` | app.js:469-470 | `parseInt(input, 10)` or else the fallback: the fallback when the parse gives NaN or 0 (both falsy), and otherwise the parsed value |
| `TextItems.Content` | app.js:462 | the trimmed input or else `Enter your text`: the placeholder iff the input is all white space, and otherwise the trimmed input with no white space at either end |
| `Filters.PresetFor` | app.js:532 | a known filter id gives its preset; any other id gives the `original` preset, `"none"` |
| `Filters.PresetIsTrimmed` | app.js:163-169 | every preset is non-empty and has no white space at either end |
| `Filters.BuildFilterString` | app.js:531-541 | the result is never empty; it is `"none"` iff blur does not apply and the preset is `"none"`; when blur applies it starts with `blur(6px)` and is `blur(6px)` alone or followed by one space and the preset; without blur it is exactly the preset |
| `Filters.PresetIsNotBlur` | app.js:163-169 | no preset starts with the blur term |
| `Filters.FrameFilterHasNoBlur` | app.js:315 | the frame layer's filter string (`includeBlur` false) is exactly the chosen preset, whatever the blur toggle says, so it never starts with `blur(6px)` |
| `TextItems.GeneratedIdIsDistinct` | app.js:464 | a generated id is neither empty nor `"photo"` |
| `TextItems.NewTextItem` | app.js:461-476 | the new item has the given id and sits at the canvas centre (540, 540); its content is the placeholder `Enter your text` iff the input is all white space, and otherwise the trimmed input; its size is 36 when `parseInt` gives NaN or 0, and otherwise the parsed value; its rotation is 0 when `parseInt` gives NaN, and otherwise the parsed value; colour and style come from the given swatch and defaults |
| `TextItems.NewTextItemSizeFromSlider` | app.js:469 | a non-zero size written in decimal becomes the item's size |
| `TextItems.FirstIndexOf` | app.js:422 | `find` by id: the index returned holds the id and no earlier index does; `None` iff no item has the id |
| `TextItems.FirstIndexOfSameIds` | app.js:748 | two lists whose ids agree position by position find the same index for any id |
| `TextItems.RemoveId` | app.js:525 | `filter` by id: the result keeps exactly the items whose id differs |
| `TextItems.RemoveIdAppend` | app.js:525 | filtering distributes over concatenation |
| `TextItems.RemoveIdAbsent` | app.js:525 | filtering out an id no item has changes nothing |
| `TextItems.RemoveIdUnique` | app.js:525 | with distinct ids, filtering out the id at index k removes exactly that item and keeps the others in order |
| `TextItems.RemoveIdKeepsUnique` | app.js:525 | filtering keeps ids distinct |
| `TextItems.AppendFresh` | app.js:477 | appending an item with a fresh id keeps ids distinct; `find` then locates it at the end; every id present before is still present |
| `TextItems.AppendGenerated` | app.js:477 | appending an item with a generated id keeps all ids generated |
| `TextItems.AddThenRemove` | app.js:523-526 | appending an item with a fresh id and then filtering that id out gives back the original list |
| `TextItems.TopmostHit` | app.js:398-413 | the index returned is the highest one whose item contains the point; `None` iff no item contains it |
| `TextItems.TopmostHitIsUnique` | app.js:398-413 | any index, or `None`, that satisfies the top-most characterisation is the one `TopmostHit` returns |
| `TextItems.TopmostHitAfterAdd` | app.js:398-413 | an item appended last that contains the point is the one hit |
| `TextItems.LaterItemWins` | app.js:398-413 | when two items both contain the point, the hit is at or after the later one |
| `TextItems.DraggedTo` | app.js:741-751 | the target's displacement from its origin equals the pointer's displacement from the drag start |
| `TextItems.MoveItem` | app.js:748-752 | the length and all ids are preserved; items with another id are unchanged; an absent id changes nothing; with distinct ids the item with the id gets exactly the new x and y |
| `TextItems.MoveItemTwice` | app.js:738-755 | moving the same item twice is the same as moving it once to the second position |
| `Rendering.Render` | app.js:300-325 | three layers when the frame is ready and present, two otherwise; download is disabled iff there is no photo |
| `Rendering.RenderShape` | app.js:300-325 | the exact layer list for each combination of frame-ready and text-over-frame |
| `Rendering.RenderBackgroundFirst` | app.js:205-223 | the first layer is the photo, drawn with the photo filter and the scene's zoom, rotation and offset, when there is a photo, and the placeholder otherwise; no later layer is a background |
| `Rendering.RenderTextsOnce` | app.js:309-322 | the texts layer, with all items and the active one, is drawn exactly once and never first |
| `Rendering.RenderFrameWhenReady` | app.js:313-318 | a frame layer is drawn iff the frame is ready and present, and its filter is the frame filter string |
| `Rendering.RenderTextsBelowFrameIff` | app.js:309-322 | the texts layer comes below the frame layer iff text-over-frame is off |
| `SceneState.Scene.constructor` | app.js:171-190 | the initial `state`: no photo or frame, identity transform, no blur, filter `original`, no texts, no selection, no drag; text-over-frame follows the toggle when there is one (app.js:766) |
| `SceneState.Scene.ItemIdsAreNotPhoto` | app.js:744 | in a valid scene no item id is empty or `"photo"`, so the drag target's variant tells a text drag from a photo drag where the source compares the target with `"photo"` (ids are generated at app.js:464) |
| `SceneState.Scene.GetActiveText` | app.js:420-423 | some item iff there is an active id that an item has; it is the first item with that id |
| `SceneState.Scene.View` | app.js:205-210 | what `renderCanvas` reads from `state`: the photo filter is `buildFilterString` with blur included, so when blur is on it is `blur(6px)`, followed by one space and the preset unless the preset is `"none"`, and otherwise the bare preset (app.js:210, app.js:534-540), the frame filter is the bare preset (app.js:315), and the active item is `getActiveText()` (app.js:294) |
| `SceneState.Scene.RenderCanvas` | app.js:300-325 | `renderCanvas` on the current `state`: three layers when the frame is ready and present, two otherwise; the first is the photo drawn with the scene's filter string (blur included), zoom, rotation and offset, or the placeholder without a photo; download is disabled iff there is no photo |
| `SceneState.Scene.RenderedFrameHasNoBlur` | app.js:313-318 | in any rendering of the scene, the frame layer's filter is the bare preset of the chosen filter and does not start with the blur term |
| `SceneState.Scene.SetActiveText` | app.js:415-418 | the active id becomes the given item's id, or none |
| `SceneState.Scene.AddText` | app.js:461-478 | the list grows by exactly the new item, at the end; the new item becomes active and is what `getActiveText` returns; ids stay distinct |
| `SceneState.Scene.DeleteActiveText` | app.js:523-527 | with no active id nothing changes; otherwise the items with that id are filtered out, which is exactly one item with the others kept in order; the selection is cleared |
| `SceneState.Scene.ResetPhotoTransform` | app.js:360-363 | scale 1, rotation 0, offset (0, 0) |
| `SceneState.Scene.HitTestText` | app.js:398-413 | the reverse scan returns the `TopmostHit` index: the highest index whose item contains the point, or none when no item does |
| `SceneState.Scene.PointerDown` | app.js:714-736 | a hit selects that item and starts a drag of its id from its (x, y); with no hit and a photo, it clears the selection and starts a photo drag from the current offset; otherwise nothing changes |
| `SceneState.Scene.PointerMove` | app.js:738-755 | nothing changes without an active drag; a photo drag puts the offset at origin + (pos - start); a text drag moves the first item with the target id there and changes nothing when no item has it |
| `SceneState.Scene.PointerUp` | app.js:757-762 | the drag becomes inactive with no target; start and origin are kept |
| `SceneState.Scene.HandlePhoto` | app.js:370-389 | the photo loads iff there is a file, its type starts with `image/` and it decodes, and then the transform is reset; the outcome is `NoFile` iff there is no file and `NotAnImage` iff the type does not start with `image/`; in every other case the photo and transform are unchanged |
| `SceneState.Scene.SelectFrame` | app.js:340-354 | the frame is ready afterwards iff it loaded; a load makes the frame present and active; a failure leaves the previous frame image and active frame |
| `SceneState.Scene.SetBlur` | app.js:591-594 | the blur toggle sets `blurBackground` |
| `SceneState.Scene.SetTextOverFrame` | app.js:597-600 | the toggle sets `textOverFrame` |
| `SceneState.Scene.SetFilter` | app.js:682-686 | a filter chip sets the filter id |
| `SceneState.Scene.SetPhotoZoom` | app.js:577-579 | the scale is the slider's percentage divided by 100 |
| `SceneState.Scene.SetPhotoRotation` | app.js:584-586 | the rotation is the slider's value in degrees |
| `Scenarios.AddThenDelete` | app.js:523-526 | adding a text and deleting it straight away restores the list and leaves no selection |
| `Scenarios.DragText` | app.js:714-762 | press, move and release on a text moves the top-most hit item by exactly the pointer delta, selects it and leaves every other item and the photo alone |
| `Scenarios.DragPhoto` | app.js:714-762 | press beside every text with a photo loaded, then move and release: the photo offset moves by the pointer delta, the selection is cleared and the texts are unchanged |
| `Scenarios.AddThenPress` | app.js:398-413 | a text just added is selected and dragged when pressed where it lies, even over older items |
| `Scenarios.FrameLoadFails` | app.js:340-354 | after a frame fails to load, no rendering draws a frame layer |

## Left out

- Canvas drawing is not modelled:
  - `drawUserPhoto`, `drawPlaceholder`, `drawText`, `drawDecorations` and `drawTextOutline`;
  - the clip, translate, rotate and filter calls.

  These are browser 2D-context effects. `Render` returns the layers instead. The photo layer carries its filter and the scene's zoom, rotation and offset. It does not carry the cover-fit base scale (`getBaseImageScale`, which depends on the image size) or the clip circle of radius 360. Text layers carry the items themselves, with their position, size, rotation and style.
- Floating-point geometry is not modelled: the rotated-box test in `hitTestText`, `measureTextRect`, `getPointerPos` and `getBaseImageScale`. The containment test is the `contains` parameter and pointer positions are given in canvas coordinates. Coordinates are exact reals.
- Asynchronous loading is modelled only by its outcome:
  - `loadFrame` and `selectFrame` use a Promise over an Image;
  - `handlePhoto` uses a FileReader.

  Each becomes one method call given whether the load succeeds. The race between two overlapping frame loads, where a late load of an older frame can overwrite a newer one, is not modelled.
- Export is not modelled: `canvas.toBlob`, object URLs and the download link.
- DOM synchronisation and the frame catalogue UI are not modelled. This covers `syncTextControls`, `syncStyleButtons`, `setActiveSwatch`, `populateFrameChooser`, `renderFrameCards`, the view switching, the accordions and the status text. One effect is also missing: `syncTextControls` rewrites `textDefaults.color` through `setActiveSwatch`. The colour and style defaults are therefore parameters of `AddText`.
- guide.js is not part of this model. It is an onboarding tour built on an external library.
- Id generation from `Date.now()` and `Math.random()` is not modelled. `AddText` takes the id as a parameter and requires that it has the `text-` prefix and is not in use.
- The handlers that edit the active item are not modelled:
  - `updateActiveTextFromInput`, `updateActiveTextSize` and `updateActiveTextRotation` (app.js:483-508);
  - the font-family, style-chip and colour-palette handlers (app.js:632-680).

  The handlers modelled here are the scene-state core around the item list, selection, drag, filter and layers.
- Text items are values in a sequence. `pointermove` changes the found object in place, and the model replaces the element at that index instead. Aliasing between `state.texts` and objects held elsewhere is not modelled.
- `Rendering.Render` receives the photo and frame filter strings already built by `SceneState.Scene.View`, instead of building them itself.
- `Filters.PresetFor`: the lookup `filterPresets[state.filter]` also finds keys inherited from `Object.prototype`, such as `toString`. The model treats every id outside the five presets as unknown.
- `JsText.ParseInt`: JavaScript numbers are doubles, so very long digit runs lose precision. The model parses them exactly.
- `SceneState.Scene.SetPhotoZoom` and `SceneState.Scene.SetPhotoRotation` take the slider value already parsed. A NaN from an empty slider is not modelled.
- `SceneState.Scene.SelectFrame`: the model follows the code. `selectFrame` clears `frameReady` before the load starts (app.js:343). On a failed load, the catch at app.js:350-353 only logs and sets the status, so the frame stays not ready and the previously loaded frame image is no longer drawn.
