/**
 * The scene: the global `state` object of the editor and the handlers that change it in place
 * (adding, selecting and deleting text, the pointer drag state machine, photo and frame loading,
 * the photo controls), with the read-only queries `getActiveText` and `hitTestText`.
 */
module SceneState {
  import opened Wrappers
  import opened JsText
  import opened TextItems
  import opened Filters
  import opened Rendering

  /** `state.drag.target`: null, the string "photo", or a text item's id. */
  datatype DragTarget = NoTarget | PhotoTarget | TextTarget(id: Id)

  /** `state.drag`: whether a drag is on, what it moves, where the pointer started, where the target was. */
  datatype Drag = Drag(active: bool, target: DragTarget, start: Point, origin: Point)

  /** How a photo upload ends (each but Loaded leaves the scene as it was). */
  datatype PhotoOutcome = NoFile | NotAnImage | Unreadable | Loaded

  const Origin := Point(0.0, 0.0)
  const ImageMimePrefix := "image/"

  class Scene {
    /** `userImage !== null`; the decoded image itself is not modelled. */
    var hasUserImage: bool
    /** `frameImage !== null` */
    var hasFrameImage: bool
    var frameReady: bool
    var photoScale: real
    var photoRotation: int
    var photoOffset: Point
    var blurBackground: bool
    var textOverFrame: bool
    var filter: string
    var texts: seq<TextItem>
    var activeTextId: Option<Id>
    var activeFrameId: Option<string>
    var drag: Drag

    /**
     * Item ids are generated and distinct, the active id names an item, and a drag is on
     * exactly when it has a target.
     */
    ghost predicate Valid()
      reads this
    {
      && UniqueIds(texts)
      && AllGenerated(texts)
      && (activeTextId.Some? ==> HasId(texts, activeTextId.value))
      && (drag.active <==> !drag.target.NoTarget?)
    }

    /**
     * No item id is empty or `"photo"`, so a drag target is told apart by its variant alone
     * where the source compares the target with `null` and with `"photo"`.
     */
    lemma ItemIdsAreNotPhoto()
      requires Valid()
      ensures forall i :: 0 <= i < |texts| ==> texts[i].id != "" && texts[i].id != "photo"
    {
      forall i | 0 <= i < |texts|
        ensures texts[i].id != "" && texts[i].id != "photo"
      {
        GeneratedIdIsDistinct(texts[i].id);
      }
    }

    /** The initial `state` record; `textOverFrame` then follows the toggle when there is one. */
    constructor (textOverFrameToggle: Option<bool>)
      ensures Valid()
      ensures !hasUserImage && !hasFrameImage && !frameReady
      ensures photoScale == 1.0 && photoRotation == 0 && photoOffset == Origin
      ensures !blurBackground && filter == OriginalId
      ensures textOverFrame == (textOverFrameToggle.None? || textOverFrameToggle.value)
      ensures texts == [] && activeTextId == None && activeFrameId == None
      ensures drag == Drag(false, NoTarget, Origin, Origin)
    {
      hasUserImage, hasFrameImage, frameReady := false, false, false;
      photoScale, photoRotation, photoOffset := 1.0, 0, Origin;
      blurBackground := false;
      textOverFrame := if textOverFrameToggle.Some? then textOverFrameToggle.value else true;
      filter := OriginalId;
      texts, activeTextId, activeFrameId := [], None, None;
      drag := Drag(false, NoTarget, Origin, Origin);
    }

    /** `getActiveText`: the first item whose id is the active id, if there is an active id. */
    function GetActiveText(): (r: Option<TextItem>)
      reads this
      ensures r.Some? <==> activeTextId.Some? && HasId(texts, activeTextId.value)
      ensures r.Some? ==> r.value.id == activeTextId.value
      ensures r.Some? ==> exists k :: 0 <= k < |texts| && texts[k] == r.value
                            && forall j :: 0 <= j < k ==> texts[j].id != r.value.id
    {
      match activeTextId
      case None => None
      case Some(id) =>
        match FirstIndexOf(texts, id)
        case None => None
        case Some(k) => Some(texts[k])
    }

    /**
     * What `renderCanvas` reads: the photo filter carries the blur term exactly when blur is
     * on, the frame filter is the bare preset, and the texts and active item are the scene's.
     */
    function View(): (v: SceneView)
      reads this
      ensures v.hasUserImage == hasUserImage && v.hasFrameImage == hasFrameImage
      ensures v.frameReady == frameReady && v.textOverFrame == textOverFrame
      ensures v.photoScale == photoScale && v.photoRotation == photoRotation && v.photoOffset == photoOffset
      ensures v.photoFilter == BuildFilterString(filter, blurBackground, true)
      ensures blurBackground ==> StartsWith(v.photoFilter, BlurTerm)
      ensures !blurBackground ==> v.photoFilter == PresetFor(filter)
      ensures v.frameFilter == PresetFor(filter)
      ensures v.texts == texts && v.active == GetActiveText()
    {
      SceneView(hasUserImage, hasFrameImage, frameReady, textOverFrame,
                photoScale, photoRotation, photoOffset,
                BuildFilterString(filter, blurBackground, true),
                BuildFilterString(filter, blurBackground, false),
                texts, GetActiveText())
    }

    /**
     * The layers `renderCanvas` draws for the current state: the photo first, drawn with the
     * scene's zoom, rotation and offset; download is disabled exactly when there is no photo.
     */
    function RenderCanvas(): (r: Rendered)
      reads this
      ensures r.downloadDisabled <==> !hasUserImage
      ensures |r.layers| == if frameReady && hasFrameImage then 3 else 2
      ensures hasUserImage ==> r.layers[0].PhotoLayer? && r.layers[0].scale == photoScale
                               && r.layers[0].filter == BuildFilterString(filter, blurBackground, true)
                               && r.layers[0].rotation == photoRotation && r.layers[0].offset == photoOffset
      ensures !hasUserImage ==> r.layers[0] == PlaceholderLayer
    {
      RenderBackgroundFirst(View());
      Render(View())
    }

    /**
     * The frame layer of a rendering is drawn with the bare preset of the chosen filter, so it
     * never carries the blur term, whatever the blur toggle says.
     */
    lemma RenderedFrameHasNoBlur()
      ensures forall j :: 0 <= j < |RenderCanvas().layers| && RenderCanvas().layers[j].FrameLayer? ==>
                RenderCanvas().layers[j].filter == PresetFor(filter)
                && !StartsWith(RenderCanvas().layers[j].filter, BlurTerm)
    {
      RenderFrameWhenReady(View());
      PresetIsNotBlur(filter);
    }

    /** `setActiveText`: select the given item, or clear the selection. */
    method SetActiveText(text: Option<TextItem>)
      requires Valid()
      requires text.Some? ==> text.value in texts
      modifies this`activeTextId
      ensures Valid()
      ensures activeTextId == if text.Some? then Some(text.value.id) else None
    {
      activeTextId := if text.Some? then Some(text.value.id) else None;
    }

    /**
     * `addText` with the fresh id it generates, the raw values of the text, size and rotation
     * inputs, the active swatch colour and the current style defaults: the new item goes on top
     * and becomes the active one.
     */
    method AddText(id: Id, input: string, sizeInput: string, rotationInput: string,
                   color: string, style: StyleDefaults)
      requires Valid()
      requires IsGeneratedId(id) && !HasId(texts, id)
      modifies this`texts, this`activeTextId
      ensures Valid()
      ensures texts == old(texts) + [NewTextItem(id, input, sizeInput, rotationInput, color, style)]
      ensures activeTextId == Some(id)
      ensures GetActiveText() == Some(NewTextItem(id, input, sizeInput, rotationInput, color, style))
    {
      var item := NewTextItem(id, input, sizeInput, rotationInput, color, style);
      AppendFresh(texts, item);
      AppendGenerated(texts, item);
      texts := texts + [item];
      assert texts[|texts| - 1] == item;
      SetActiveText(Some(item));
    }

    /**
     * `deleteActiveText`: without an active item nothing happens; otherwise every item with the
     * active id is filtered out (exactly one, ids being unique) and the selection is cleared.
     */
    method DeleteActiveText()
      requires Valid()
      modifies this`texts, this`activeTextId
      ensures Valid()
      ensures activeTextId == None
      ensures old(activeTextId).None? ==> texts == old(texts)
      ensures old(activeTextId).Some? ==> texts == RemoveId(old(texts), old(activeTextId).value)
      ensures old(activeTextId).Some? ==>
                exists k :: 0 <= k < |old(texts)| && old(texts)[k].id == old(activeTextId).value
                            && texts == old(texts)[..k] + old(texts)[k + 1..]
    {
      match activeTextId {
        case None =>
        case Some(id) =>
          var k :| 0 <= k < |texts| && texts[k].id == id;
          var kept := RemoveId(texts, id);
          assert kept == texts[..k] + texts[k + 1..] by {
            RemoveIdUnique(texts, k);
          }
          assert UniqueIds(kept) && AllGenerated(kept) by {
            RemoveIdKeepsUnique(texts, id);
            assert forall i :: 0 <= i < |kept| ==> kept[i] in texts;
          }
          texts := kept;
          activeTextId := None;
      }
    }

    /** `resetPhotoTransform`: zoom 100 %, no rotation, no offset. */
    method ResetPhotoTransform()
      modifies this`photoScale, this`photoRotation, this`photoOffset
      ensures photoScale == 1.0 && photoRotation == 0 && photoOffset == Origin
    {
      photoScale := 1.0;
      photoRotation := 0;
      photoOffset := Origin;
    }

    /**
     * `hitTestText`: scan the items from the last (top-most) to the first and return the index
     * of the first whose box contains the point, given the containment test.
     */
    method HitTestText(point: Point, contains: (TextItem, Point) -> bool) returns (hit: Option<nat>)
      ensures hit == TopmostHit(texts, point, contains)
      ensures hit.Some? ==> hit.value < |texts| && contains(texts[hit.value], point)
      ensures hit.Some? ==> forall j :: hit.value < j < |texts| ==> !contains(texts[j], point)
      ensures hit.None? ==> forall j :: 0 <= j < |texts| ==> !contains(texts[j], point)
    {
      var i := |texts|;
      while i > 0
        invariant 0 <= i <= |texts|
        invariant forall j :: i <= j < |texts| ==> !contains(texts[j], point)
      {
        i := i - 1;
        if contains(texts[i], point) {
          hit := Some(i);
          TopmostHitIsUnique(texts, point, contains, hit);
          return;
        }
      }
      hit := None;
      TopmostHitIsUnique(texts, point, contains, hit);
    }

    /**
     * The pointer-down handler at canvas position `pos`: a text hit selects that item and starts
     * dragging it from its position; otherwise, with a photo loaded, the selection is cleared and
     * the photo is dragged from its offset; otherwise nothing changes.
     */
    method PointerDown(pos: Point, contains: (TextItem, Point) -> bool)
      requires Valid()
      modifies this`activeTextId, this`drag
      ensures Valid()
      ensures TopmostHit(texts, pos, contains).Some? ==>
                var t := texts[TopmostHit(texts, pos, contains).value];
                activeTextId == Some(t.id) && drag == Drag(true, TextTarget(t.id), pos, Point(t.x, t.y))
      ensures TopmostHit(texts, pos, contains).None? && hasUserImage ==>
                activeTextId == None && drag == Drag(true, PhotoTarget, pos, photoOffset)
      ensures TopmostHit(texts, pos, contains).None? && !hasUserImage ==>
                activeTextId == old(activeTextId) && drag == old(drag)
    {
      var hit := HitTestText(pos, contains);
      if hit.Some? {
        var t := texts[hit.value];
        SetActiveText(Some(t));
        drag := Drag(true, TextTarget(t.id), pos, Point(t.x, t.y));
        return;
      }
      if hasUserImage {
        SetActiveText(None);
        drag := Drag(true, PhotoTarget, pos, Point(photoOffset.x, photoOffset.y));
      }
    }

    /**
     * The pointer-move handler: while a drag is on, its target (the photo offset, or the first
     * item with the target id) is put at origin + (pos - start); nothing else changes.
     */
    method PointerMove(pos: Point)
      requires Valid()
      modifies this`photoOffset, this`texts
      ensures Valid()
      ensures !drag.active ==> photoOffset == old(photoOffset) && texts == old(texts)
      ensures drag.active && drag.target.PhotoTarget? ==>
                photoOffset == DraggedTo(drag.origin, drag.start, pos) && texts == old(texts)
      ensures drag.active && drag.target.TextTarget? ==>
                photoOffset == old(photoOffset)
                && texts == MoveItem(old(texts), drag.target.id, DraggedTo(drag.origin, drag.start, pos))
    {
      if !drag.active {
        return;
      }
      var to := DraggedTo(drag.origin, drag.start, pos);
      if drag.target.PhotoTarget? {
        photoOffset := to;
      } else if drag.target.TextTarget? {
        var moved := MoveItem(texts, drag.target.id, to);
        assert HasId(texts, drag.target.id) <==> HasId(moved, drag.target.id);
        assert activeTextId.Some? ==> HasId(moved, activeTextId.value);
        texts := moved;
      }
    }

    /** The pointer-up, pointer-leave and pointer-cancel handlers: the drag ends. */
    method PointerUp()
      requires Valid()
      modifies this`drag
      ensures Valid()
      ensures drag == old(drag).(active := false, target := NoTarget)
    {
      drag := drag.(active := false, target := NoTarget);
    }

    /**
     * `handlePhoto` followed by the outcome of reading and decoding the file: no file, or a
     * type that is not `image/...`, or an unreadable image leave the scene alone; a decoded
     * image replaces the photo and resets its transform.
     */
    method HandlePhoto(fileType: Option<string>, decodes: bool) returns (outcome: PhotoOutcome)
      modifies this`hasUserImage, this`photoScale, this`photoRotation, this`photoOffset
      ensures outcome == Loaded <==> fileType.Some? && StartsWith(fileType.value, ImageMimePrefix) && decodes
      ensures outcome == NotAnImage <==> fileType.Some? && !StartsWith(fileType.value, ImageMimePrefix)
      ensures outcome == NoFile <==> fileType.None?
      ensures outcome == Loaded ==>
                hasUserImage && photoScale == 1.0 && photoRotation == 0 && photoOffset == Origin
      ensures outcome != Loaded ==>
                hasUserImage == old(hasUserImage) && photoScale == old(photoScale)
                && photoRotation == old(photoRotation) && photoOffset == old(photoOffset)
    {
      if fileType.None? {
        return NoFile;
      }
      if !StartsWith(fileType.value, ImageMimePrefix) {
        return NotAnImage;
      }
      if !decodes {
        return Unreadable;
      }
      hasUserImage := true;
      ResetPhotoTransform();
      outcome := Loaded;
    }

    /**
     * `selectFrame` followed by the outcome of loading the frame image: the frame stops being
     * ready when loading starts; a load makes it present, ready and the active frame, while a
     * failure leaves it not ready.
     */
    method SelectFrame(frameId: string, loads: bool)
      modifies this`hasFrameImage, this`frameReady, this`activeFrameId
      ensures frameReady == loads
      ensures loads ==> hasFrameImage && activeFrameId == Some(frameId)
      ensures !loads ==> hasFrameImage == old(hasFrameImage) && activeFrameId == old(activeFrameId)
    {
      frameReady := false;
      if loads {
        hasFrameImage := true;
        frameReady := true;
        activeFrameId := Some(frameId);
      }
    }

    /** The blur toggle. */
    method SetBlur(on: bool)
      modifies this`blurBackground
      ensures blurBackground == on
    {
      blurBackground := on;
    }

    /** The text-over-frame toggle. */
    method SetTextOverFrame(on: bool)
      modifies this`textOverFrame
      ensures textOverFrame == on
    {
      textOverFrame := on;
    }

    /** A filter chip click. */
    method SetFilter(filterId: string)
      modifies this`filter
      ensures filter == filterId
    {
      filter := filterId;
    }

    /** The zoom slider, given as a whole percentage. */
    method SetPhotoZoom(percent: int)
      modifies this`photoScale
      ensures photoScale * 100.0 == percent as real
    {
      photoScale := percent as real / 100.0;
    }

    /** The rotation slider, in whole degrees. */
    method SetPhotoRotation(degrees: int)
      modifies this`photoRotation
      ensures photoRotation == degrees
    {
      photoRotation := degrees;
    }
  }
}
