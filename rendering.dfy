/**
 * `renderCanvas` as the list of layers it draws, bottom first, together with whether the
 * download button ends up disabled. The drawing calls themselves are not modelled.
 */
module Rendering {
  import opened Wrappers
  import opened TextItems

  /**
   * The parts of the scene that `renderCanvas` reads: the flags, the photo transform, the two
   * filter strings it builds (`buildFilterString(true)` for the photo, `buildFilterString(false)`
   * for the frame), the text items and the active item.
   */
  datatype SceneView = SceneView(
    hasUserImage: bool, hasFrameImage: bool, frameReady: bool, textOverFrame: bool,
    photoScale: real, photoRotation: int, photoOffset: Point,
    photoFilter: string, frameFilter: string, texts: seq<TextItem>, active: Option<TextItem>)

  datatype Layer =
      /**
       * the photo, clipped to the central circle, translated by `offset` from the canvas centre,
       * rotated by `rotation` degrees and zoomed by `scale` on top of its cover-fit scale
       */
    | PhotoLayer(filter: string, scale: real, rotation: int, offset: Point)
    | PlaceholderLayer
      /** every item in list order (later ones on top), then the dashed outline of the active item */
    | TextsLayer(items: seq<TextItem>, outline: Option<TextItem>)
    | FrameLayer(filter: string)

  datatype Rendered = Rendered(layers: seq<Layer>, downloadDisabled: bool)

  predicate IsBackground(l: Layer) {
    l.PhotoLayer? || l.PlaceholderLayer?
  }

  /** The bottom layer: the photo with its filter and transform, or the white placeholder. */
  function BackgroundLayer(v: SceneView): Layer {
    if v.hasUserImage then PhotoLayer(v.photoFilter, v.photoScale, v.photoRotation, v.photoOffset)
    else PlaceholderLayer
  }

  /** What `renderCanvas` draws for the scene: layer by layer, bottom first. */
  function Render(v: SceneView): (r: Rendered)
    ensures |r.layers| == if v.frameReady && v.hasFrameImage then 3 else 2
    ensures r.downloadDisabled <==> !v.hasUserImage
  {
    var texts := [TextsLayer(v.texts, v.active)];
    var frame := if v.frameReady && v.hasFrameImage then [FrameLayer(v.frameFilter)] else [];
    var layers := [BackgroundLayer(v)] + (if v.textOverFrame then [] else texts) + frame
                  + (if v.textOverFrame then texts else []);
    Rendered(layers, !v.hasUserImage)
  }

  /** The three shapes the layer list can take. */
  lemma RenderShape(v: SceneView)
    ensures Render(v).layers ==
      if !(v.frameReady && v.hasFrameImage) then [BackgroundLayer(v), TextsLayer(v.texts, v.active)]
      else if v.textOverFrame then [BackgroundLayer(v), FrameLayer(v.frameFilter), TextsLayer(v.texts, v.active)]
      else [BackgroundLayer(v), TextsLayer(v.texts, v.active), FrameLayer(v.frameFilter)]
  {
  }

  /**
   * The background is drawn first and only first: the photo, with the photo filter and the
   * scene's zoom, rotation and offset, when there is one, and the placeholder otherwise.
   */
  lemma RenderBackgroundFirst(v: SceneView)
    ensures v.hasUserImage ==>
              Render(v).layers[0] == PhotoLayer(v.photoFilter, v.photoScale, v.photoRotation, v.photoOffset)
    ensures !v.hasUserImage ==> Render(v).layers[0] == PlaceholderLayer
    ensures forall i :: 0 < i < |Render(v).layers| ==> !IsBackground(Render(v).layers[i])
  {
    RenderShape(v);
  }

  /** The texts layer, with every item and the active item's outline, is drawn exactly once. */
  lemma RenderTextsOnce(v: SceneView)
    ensures exists k :: 0 < k < |Render(v).layers| && Render(v).layers[k] == TextsLayer(v.texts, v.active)
    ensures forall i, j :: 0 <= i < j < |Render(v).layers| ==>
              !(Render(v).layers[i].TextsLayer? && Render(v).layers[j].TextsLayer?)
  {
    RenderShape(v);
    var layers := Render(v).layers;
    assert layers[|layers| - 1] == TextsLayer(v.texts, v.active) || layers[1] == TextsLayer(v.texts, v.active);
  }

  /** The frame is drawn iff it is loaded and ready, and then with the frame's filter. */
  lemma RenderFrameWhenReady(v: SceneView)
    ensures (exists j :: 0 <= j < |Render(v).layers| && Render(v).layers[j].FrameLayer?)
            <==> v.frameReady && v.hasFrameImage
    ensures forall j :: 0 <= j < |Render(v).layers| && Render(v).layers[j].FrameLayer? ==>
              Render(v).layers[j].filter == v.frameFilter
  {
    RenderShape(v);
    var layers := Render(v).layers;
    if v.frameReady && v.hasFrameImage {
      assert layers[if v.textOverFrame then 1 else 2].FrameLayer?;
    }
  }

  /** The texts layer lies below the frame iff text is not drawn over the frame. */
  lemma RenderTextsBelowFrameIff(v: SceneView, i: nat, j: nat)
    requires i < |Render(v).layers| && j < |Render(v).layers|
    requires Render(v).layers[i].TextsLayer? && Render(v).layers[j].FrameLayer?
    ensures i < j <==> !v.textOverFrame
  {
    RenderShape(v);
  }
}
