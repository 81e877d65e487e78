/** The editor's top level: keeping a base layer for the loaded image, and
    the compositing pass, modelled as the ordered list of draw commands it
    issues on the canvas. */
module Compositor {
  import opened Options
  import opened Layers

  // ---------------------------------------------------------------------------
  // The base layer

  const BaseId: string := "base-layer"

  /** The base layer's display name, "Фон" ("background"). */
  const BaseName: string := "Фон"

  /** The position of the first layer with the base layer's id. */
  function FindBase(layers: seq<Layer>): (r: Option<nat>)
    ensures r.None? <==> forall j | 0 <= j < |layers| :: layers[j].id != BaseId
    ensures r.Some? ==> r.value < |layers| && layers[r.value].id == BaseId
                        && forall j | 0 <= j < r.value :: layers[j].id != BaseId
  {
    if |layers| == 0 then None
    else if layers[0].id == BaseId then Some(0)
    else match FindBase(layers[1..])
      case None => None
      case Some(i) => Some(i + 1)
  }

  function BaseLayer(e: Element): Layer {
    Layer(BaseId, BaseName, Some(e), None, true, true, 1.0, "normal", None, None, None, None)
  }

  /** The effect run when a new image is loaded: with no image element the
      list is untouched; without a base layer one is put at the bottom of the
      stack (index 0); otherwise only the base layer's image is replaced. */
  function UpsertBaseLayer(layers: seq<Layer>, element: Option<Element>): (r: seq<Layer>)
    ensures element.None? ==> r == layers
    ensures element.Some? && FindBase(layers).None? ==>
      && r == [BaseLayer(element.value)] + layers
      && r[0].visible && r[0].alphaVisible && r[0].opacity == 1.0 && r[0].blendMode == "normal"
    ensures element.Some? && FindBase(layers).Some? ==>
      var i := FindBase(layers).value;
      SameExceptAt(r, layers, i) && r[i] == layers[i].(image := element)
  {
    match element
    case None => layers
    case Some(e) =>
      match FindBase(layers)
      case None => [BaseLayer(e)] + layers
      case Some(i) => layers[i := layers[i].(image := Some(e))]
  }

  /** After an upsert with an image there is a base layer and it shows that
      image. */
  lemma UpsertShowsImage(layers: seq<Layer>, e: Element)
    ensures var r := UpsertBaseLayer(layers, Some(e));
      FindBase(r).Some? && r[FindBase(r).value].image == Some(e)
  {
    var r := UpsertBaseLayer(layers, Some(e));
    if FindBase(layers).Some? {
      var i := FindBase(layers).value;
      assert forall j | 0 <= j < i :: r[j].id != BaseId;
      assert FindBase(r) == Some(i);
    }
  }

  /** Loading the same image again changes nothing. */
  lemma UpsertIdempotent(layers: seq<Layer>, e: Element)
    ensures UpsertBaseLayer(UpsertBaseLayer(layers, Some(e)), Some(e)) == UpsertBaseLayer(layers, Some(e))
  {
    var r := UpsertBaseLayer(layers, Some(e));
    UpsertShowsImage(layers, e);
    if FindBase(layers).Some? {
      var i := FindBase(layers).value;
      assert forall j | 0 <= j < i :: r[j].id != BaseId;
      assert FindBase(r) == Some(i);
    } else {
      assert FindBase(r) == Some(0);
    }
  }

  /** The upsert adds at most one layer, and only when there was no base layer. */
  lemma UpsertLength(layers: seq<Layer>, e: Option<Element>)
    ensures |UpsertBaseLayer(layers, e)| == |layers| + (if e.Some? && FindBase(layers).None? then 1 else 0)
  {
  }

  // ---------------------------------------------------------------------------
  // Compositing

  datatype CompositeOp = SourceOver | Multiply | Screen | Overlay

  /** The blend-mode table; an unknown mode falls back to source-over. */
  function OpFor(mode: string): (op: CompositeOp)
    ensures mode == "multiply" <==> op == Multiply
    ensures mode == "screen" <==> op == Screen
    ensures mode == "overlay" <==> op == Overlay
  {
    if mode == "multiply" then Multiply
    else if mode == "screen" then Screen
    else if mode == "overlay" then Overlay
    else SourceOver
  }

  datatype Source = Picture(element: Element) | Fill(colour: string)

  /** One draw over the whole canvas with the given global alpha and
      composite operation. */
  datatype Draw = Draw(source: Source, alpha: real, op: CompositeOp)

  datatype Plan = Plan(width: nat, height: nat, draws: seq<Draw>)

  /** `x || fallback` on a dimension: an absent image or a zero size falls back. */
  function DimensionOr(d: Option<nat>, fallback: nat): (r: nat)
    ensures d.Some? && d.value > 0 ==> r == d.value
    ensures d.None? || d.value == 0 ==> r == fallback
  {
    if d.Some? && d.value > 0 then d.value else fallback
  }

  /** Whether a visible layer paints its own content: an image, or else a
      non-empty fill colour (an empty colour string is falsy). */
  predicate HasContent(l: Layer) {
    l.image.Some? || (l.previewColor.Some? && l.previewColor.value != "")
  }

  /** Whether a visible layer paints its alpha preview. */
  predicate ShowsAlpha(l: Layer) {
    l.alphaImage.Some? && l.alphaVisible
  }

  /** What one layer draws: nothing when hidden; its image, or else its fill
      colour, or else nothing; then the alpha preview at half the layer's
      opacity, always source-over. */
  function LayerDraws(l: Layer): (r: seq<Draw>)
    ensures !l.visible ==> r == []
    ensures l.visible ==> |r| == (if HasContent(l) then 1 else 0) + (if ShowsAlpha(l) then 1 else 0)
    ensures l.visible && l.image.Some? ==> r[0] == Draw(Picture(l.image.value), l.opacity, OpFor(l.blendMode))
    ensures l.visible && l.image.None? && HasContent(l) ==>
              r[0] == Draw(Fill(l.previewColor.value), l.opacity, OpFor(l.blendMode))
    ensures l.image.Some? ==> forall k | 0 <= k < |r| :: r[k].source.Picture?
    ensures l.visible && ShowsAlpha(l) ==>
              r[|r| - 1] == Draw(Picture(l.alphaImage.value), l.opacity * 0.5, SourceOver)
  {
    if !l.visible then []
    else
      var op := OpFor(l.blendMode);
      var main :=
        if l.image.Some? then [Draw(Picture(l.image.value), l.opacity, op)]
        else if l.previewColor.Some? && l.previewColor.value != "" then [Draw(Fill(l.previewColor.value), l.opacity, op)]
        else [];
      var alpha :=
        if ShowsAlpha(l) then [Draw(Picture(l.alphaImage.value), l.opacity * 0.5, SourceOver)]
        else [];
      main + alpha
  }

  /** The draws of a whole stack, bottom layer (index 0) first. */
  function Draws(layers: seq<Layer>): seq<Draw>
  {
    if |layers| == 0 then [] else LayerDraws(layers[0]) + Draws(layers[1..])
  }

  /** The composite effect: no composite for an empty stack; otherwise a
      canvas sized by layer 0's image (800 by 600 without one) and the draws
      of every layer in order. */
  function Composite(layers: seq<Layer>): (r: Option<Plan>)
    ensures r.None? <==> |layers| == 0
    ensures r.Some? ==> r.value.width >= 1 && r.value.height >= 1 && r.value.draws == Draws(layers)
    ensures r.Some? && layers[0].image.None? ==> r.value.width == 800 && r.value.height == 600
    ensures r.Some? && layers[0].image.Some? ==>
              && r.value.width == DimensionOr(Some(layers[0].image.value.naturalWidth), 800)
              && r.value.height == DimensionOr(Some(layers[0].image.value.naturalHeight), 600)
  {
    if |layers| == 0 then None
    else
      var img := layers[0].image;
      var w := DimensionOr(if img.Some? then Some(img.value.naturalWidth) else None, 800);
      var h := DimensionOr(if img.Some? then Some(img.value.naturalHeight) else None, 600);
      Some(Plan(w, h, Draws(layers)))
  }

  /** The draws of a stack are those of its parts, in order. */
  lemma {:induction false} DrawsAppend(a: seq<Layer>, b: seq<Layer>)
    ensures Draws(a + b) == Draws(a) + Draws(b)
    decreases |a|
  {
    if |a| == 0 {
      assert a + b == b;
    } else {
      assert (a + b)[1..] == a[1..] + b;
      DrawsAppend(a[1..], b);
    }
  }

  /** A hidden layer contributes nothing, wherever it sits. */
  lemma HiddenLayerDrawsNothing(a: seq<Layer>, l: Layer, b: seq<Layer>)
    requires !l.visible
    ensures Draws(a + [l] + b) == Draws(a + b)
  {
    DrawsAppend(a + [l], b);
    DrawsAppend(a, [l]);
    DrawsAppend(a, b);
    assert [l][1..] == [];
    assert Draws([l]) == [];
    assert Draws(a + [l]) == Draws(a);
  }

  /** Each layer issues at most two draws. */
  lemma {:induction false} DrawsBound(layers: seq<Layer>)
    ensures |Draws(layers)| <= 2 * |layers|
    decreases |layers|
  {
    if |layers| > 0 {
      DrawsBound(layers[1..]);
    }
  }

  /** Hiding every layer leaves an empty canvas. */
  lemma {:induction false} AllHiddenDrawNothing(layers: seq<Layer>)
    requires forall j | 0 <= j < |layers| :: !layers[j].visible
    ensures Draws(layers) == []
    decreases |layers|
  {
    if |layers| > 0 {
      AllHiddenDrawNothing(layers[1..]);
    }
  }

  /** Toggling a layer's visibility twice gives the same composite. */
  lemma ToggleTwiceSameComposite(layers: seq<Layer>, index: nat)
    requires index < |layers|
    ensures Composite(ToggleVisible(ToggleVisible(layers, index), index)) == Composite(layers)
  {
    ToggleTwice(layers, index);
  }

}
