/**
 * Sequences of handler calls, as a user produces them, and what the scene is afterwards.
 * Each is proved from the handlers' contracts alone.
 */
module Scenarios {
  import opened Wrappers
  import opened TextItems
  import opened Rendering
  import opened SceneState

  /** Adding a text and deleting it straight away gives back the previous list and no selection. */
  method AddThenDelete(s: Scene, id: Id, input: string, sizeInput: string, rotationInput: string,
                       color: string, style: StyleDefaults)
    requires s.Valid() && IsGeneratedId(id) && !HasId(s.texts, id)
    modifies s
    ensures s.Valid() && s.texts == old(s.texts) && s.activeTextId == None
  {
    s.AddText(id, input, sizeInput, rotationInput, color, style);
    s.DeleteActiveText();
    AddThenRemove(old(s.texts), NewTextItem(id, input, sizeInput, rotationInput, color, style));
  }

  /**
   * Pressing on a text item, moving the pointer from `p` to `q` and releasing moves that item
   * (the top-most one under `p`) by exactly q - p, selects it, and leaves every other item alone.
   */
  method DragText(s: Scene, p: Point, q: Point, contains: (TextItem, Point) -> bool)
    requires s.Valid() && TopmostHit(s.texts, p, contains).Some?
    modifies s
    ensures s.Valid() && !s.drag.active && |s.texts| == |old(s.texts)|
    ensures var k := TopmostHit(old(s.texts), p, contains).value;
      && s.texts[k] == old(s.texts)[k].(x := old(s.texts)[k].x + (q.x - p.x),
                                       y := old(s.texts)[k].y + (q.y - p.y))
      && (forall i :: 0 <= i < |s.texts| && i != k ==> s.texts[i] == old(s.texts)[i])
      && s.activeTextId == Some(old(s.texts)[k].id)
    ensures s.photoOffset == old(s.photoOffset)
  {
    ghost var k := TopmostHit(s.texts, p, contains).value;
    ghost var t := s.texts[k];
    s.PointerDown(p, contains);
    assert s.drag == Drag(true, TextTarget(t.id), p, Point(t.x, t.y));
    s.PointerMove(q);
    ghost var to := DraggedTo(Point(t.x, t.y), p, q);
    assert to == Point(t.x + (q.x - p.x), t.y + (q.y - p.y));
    assert s.texts == MoveItem(old(s.texts), t.id, to);
    s.PointerUp();
  }

  /** Pressing beside every text with a photo loaded drags the photo and clears the selection. */
  method DragPhoto(s: Scene, p: Point, q: Point, contains: (TextItem, Point) -> bool)
    requires s.Valid() && s.hasUserImage && TopmostHit(s.texts, p, contains).None?
    modifies s
    ensures s.Valid() && !s.drag.active && s.activeTextId == None
    ensures s.photoOffset == Point(old(s.photoOffset).x + (q.x - p.x), old(s.photoOffset).y + (q.y - p.y))
    ensures s.texts == old(s.texts)
  {
    s.PointerDown(p, contains);
    s.PointerMove(q);
    s.PointerUp();
  }

  /** A text added last is on top: pressing where it lies selects it, even over older items. */
  method AddThenPress(s: Scene, id: Id, input: string, sizeInput: string, rotationInput: string,
                      color: string, style: StyleDefaults, p: Point, contains: (TextItem, Point) -> bool)
    requires s.Valid() && IsGeneratedId(id) && !HasId(s.texts, id)
    requires contains(NewTextItem(id, input, sizeInput, rotationInput, color, style), p)
    modifies s
    ensures s.Valid() && s.activeTextId == Some(id)
    ensures s.drag.active && s.drag.target == TextTarget(id)
  {
    ghost var item := NewTextItem(id, input, sizeInput, rotationInput, color, style);
    ghost var before := s.texts;
    s.AddText(id, input, sizeInput, rotationInput, color, style);
    TopmostHitAfterAdd(before, item, p, contains);
    assert TopmostHit(s.texts, p, contains) == Some(|before|) && s.texts[|before|] == item;
    s.PointerDown(p, contains);
  }

  /** After a frame fails to load, renderings draw no frame at all. */
  method FrameLoadFails(s: Scene, frameId: string)
    modifies s
    ensures forall j :: 0 <= j < |s.RenderCanvas().layers| ==> !s.RenderCanvas().layers[j].FrameLayer?
  {
    s.SelectFrame(frameId, false);
    RenderFrameWhenReady(s.View());
  }
}
