/** The layer stack and the list operations of the layer panel.

    Every operation returns a new list; the layer objects are values, so an
    update to one layer is visible only in the list that is returned. */
module Layers {
  import opened Options
  import Raster
  import ToneCurve

  /** An image element, seen through what the editor reads of it. */
  datatype Element = Element(src: string, naturalWidth: nat, naturalHeight: nat)

  /** A layer. `image` and `alphaImage` are absent as `None` (an absent
      property and `null` behave alike); `imageData` is the pixel data the
      filters work on and `originalImageData` the copy kept while a tone curve
      is applied. */
  datatype Layer = Layer(
    id: string,
    name: string,
    image: Option<Element>,
    alphaImage: Option<Element>,
    visible: bool,
    alphaVisible: bool,
    opacity: real,
    blendMode: string,
    previewColor: Option<string>,
    imageData: Option<Raster.Image>,
    originalImageData: Option<Raster.Image>,
    curves: Option<ToneCurve.Curves>)

  /** Only `visible` differs between `a` and `b`. */
  predicate OnlyVisibleDiffers(a: Layer, b: Layer) {
    a.(visible := b.visible) == b
  }

  /** The lists have the same length and agree everywhere except at `i`. */
  predicate SameExceptAt(a: seq<Layer>, b: seq<Layer>, i: nat) {
    |a| == |b| && forall j | 0 <= j < |a| && j != i :: a[j] == b[j]
  }

  // ---------------------------------------------------------------------------
  // Adding a fill layer

  datatype AddOutcome = Refused | Added(layers: seq<Layer>, active: nat)

  /** A fresh layer filled with `colour`. */
  function FillLayer(id: string, name: string, colour: string): Layer {
    Layer(id, name, None, None, true, true, 1.0, "normal", Some(colour), None, None, None)
  }

  /** `handleAddLayer` without a chosen file: refused once the stack holds
      `maxLayers` layers, otherwise the fill layer is appended and becomes the
      active one. The id comes from the caller. */
  function AddFillLayer(layers: seq<Layer>, maxLayers: int, id: string, name: string, colour: string): (r: AddOutcome)
    ensures r.Refused? <==> |layers| >= maxLayers
    ensures r.Added? ==>
      && |r.layers| == |layers| + 1
      && r.layers[..|layers|] == layers
      && r.active == |layers|
      && var l := r.layers[r.active];
         l.id == id && l.name == name && l.visible && l.alphaVisible && l.opacity == 1.0
         && l.blendMode == "normal" && l.previewColor == Some(colour)
         && l.image.None? && l.alphaImage.None? && l.imageData.None? && l.curves.None?
         && l.originalImageData.None?
  {
    if |layers| >= maxLayers then Refused
    else
      var added := layers + [FillLayer(id, name, colour)];
      assert added[..|layers|] == layers;
      Added(added, |added| - 1)
  }

  /** Adding never takes the stack beyond `maxLayers`. */
  lemma AddKeepsCapacity(layers: seq<Layer>, maxLayers: int, id: string, name: string, colour: string)
    requires |layers| <= maxLayers
    ensures var r := AddFillLayer(layers, maxLayers, id, name, colour);
      r.Added? ==> |r.layers| <= maxLayers
  {
  }

  // ---------------------------------------------------------------------------
  // Moving

  datatype Direction = Up | Down

  /** The position `moveLayer` swaps with, which may be out of range. */
  function Target(index: nat, d: Direction): int {
    match d
    case Up => index - 1
    case Down => index + 1
  }

  /** `moveLayer`: swap the layer with its neighbour above (`Up`, towards
      index 0) or below; with no neighbour that way the list is unchanged.
      The panel only passes indices of existing layers. */
  function MoveLayer(layers: seq<Layer>, index: nat, d: Direction): (r: seq<Layer>)
    requires index < |layers|
    ensures |r| == |layers| && multiset(r) == multiset(layers)
    ensures var t := Target(index, d);
      if 0 <= t < |layers| then
        r[index] == layers[t] && r[t] == layers[index]
        && forall j | 0 <= j < |layers| && j != index && j != t :: r[j] == layers[j]
      else r == layers
  {
    var t := Target(index, d);
    if t < 0 || t >= |layers| then layers
    else
      var r := layers[index := layers[t]][t := layers[index]];
      SwapMultiset(layers, index, t);
      r
  }

  lemma SwapMultiset(s: seq<Layer>, i: nat, j: nat)
    requires i < |s| && j < |s|
    ensures multiset(s[i := s[j]][j := s[i]]) == multiset(s)
  {
    var t := s[i := s[j]];
    assert multiset(t) == multiset(s) - multiset{s[i]} + multiset{s[j]};
    assert t[j] == (if i == j then s[i] else s[j]);
    assert multiset(t[j := s[i]]) == multiset(t) - multiset{t[j]} + multiset{s[i]};
  }

  /** Moving a layer up and then moving it back down restores the list. */
  lemma MoveUpThenDown(layers: seq<Layer>, index: nat)
    requires 0 < index < |layers|
    ensures MoveLayer(MoveLayer(layers, index, Up), index - 1, Down) == layers
  {
    var once := MoveLayer(layers, index, Up);
    var twice := MoveLayer(once, index - 1, Down);
    assert forall j | 0 <= j < |layers| :: twice[j] == layers[j];
  }

  /** Moving the top layer up, or the bottom layer down, changes nothing. */
  lemma MoveAtEnds(layers: seq<Layer>)
    requires |layers| > 0
    ensures MoveLayer(layers, 0, Up) == layers
    ensures MoveLayer(layers, |layers| - 1, Down) == layers
  {
  }

  // ---------------------------------------------------------------------------
  // Per-layer flags and settings

  /** `toggleVisible`. */
  function ToggleVisible(layers: seq<Layer>, index: nat): (r: seq<Layer>)
    requires index < |layers|
    ensures SameExceptAt(r, layers, index)
    ensures r[index].visible == !layers[index].visible
    ensures OnlyVisibleDiffers(layers[index], r[index])
  {
    layers[index := layers[index].(visible := !layers[index].visible)]
  }

  /** `toggleAlphaVisible`. */
  function ToggleAlphaVisible(layers: seq<Layer>, index: nat): (r: seq<Layer>)
    requires index < |layers|
    ensures SameExceptAt(r, layers, index)
    ensures r[index].alphaVisible == !layers[index].alphaVisible
    ensures r[index].(alphaVisible := layers[index].alphaVisible) == layers[index]
  {
    layers[index := layers[index].(alphaVisible := !layers[index].alphaVisible)]
  }

  /** Toggling either flag twice gives the list back. */
  lemma ToggleTwice(layers: seq<Layer>, index: nat)
    requires index < |layers|
    ensures ToggleVisible(ToggleVisible(layers, index), index) == layers
    ensures ToggleAlphaVisible(ToggleAlphaVisible(layers, index), index) == layers
  {
    var v := ToggleVisible(ToggleVisible(layers, index), index);
    assert forall j | 0 <= j < |layers| :: v[j] == layers[j];
    var a := ToggleAlphaVisible(ToggleAlphaVisible(layers, index), index);
    assert forall j | 0 <= j < |layers| :: a[j] == layers[j];
  }

  /** `deleteAlpha`: the alpha preview image is dropped. */
  function DeleteAlpha(layers: seq<Layer>, index: nat): (r: seq<Layer>)
    requires index < |layers|
    ensures SameExceptAt(r, layers, index)
    ensures r[index].alphaImage.None?
    ensures r[index].(alphaImage := layers[index].alphaImage) == layers[index]
  {
    layers[index := layers[index].(alphaImage := None)]
  }

  /** `changeOpacity`. */
  function ChangeOpacity(layers: seq<Layer>, index: nat, value: real): (r: seq<Layer>)
    requires index < |layers|
    ensures SameExceptAt(r, layers, index)
    ensures r[index].opacity == value
    ensures r[index].(opacity := layers[index].opacity) == layers[index]
  {
    layers[index := layers[index].(opacity := value)]
  }

  /** `changeBlendMode`. */
  function ChangeBlendMode(layers: seq<Layer>, index: nat, mode: string): (r: seq<Layer>)
    requires index < |layers|
    ensures SameExceptAt(r, layers, index)
    ensures r[index].blendMode == mode
    ensures r[index].(blendMode := layers[index].blendMode) == layers[index]
  {
    layers[index := layers[index].(blendMode := mode)]
  }

  /** A later setting of the same field overrides an earlier one. */
  lemma SettingsOverride(layers: seq<Layer>, index: nat, a: real, b: real, m: string, n: string)
    requires index < |layers|
    ensures ChangeOpacity(ChangeOpacity(layers, index, a), index, b) == ChangeOpacity(layers, index, b)
    ensures ChangeBlendMode(ChangeBlendMode(layers, index, m), index, n) == ChangeBlendMode(layers, index, n)
  {
  }

  /** Setting a field back to the value it had restores the list. */
  lemma SettingsRestore(layers: seq<Layer>, index: nat, a: real, m: string)
    requires index < |layers|
    ensures ChangeOpacity(ChangeOpacity(layers, index, a), index, layers[index].opacity) == layers
    ensures ChangeBlendMode(ChangeBlendMode(layers, index, m), index, layers[index].blendMode) == layers
  {
    var o := ChangeOpacity(ChangeOpacity(layers, index, a), index, layers[index].opacity);
    assert forall j | 0 <= j < |layers| :: o[j] == layers[j];
    var b := ChangeBlendMode(ChangeBlendMode(layers, index, m), index, layers[index].blendMode);
    assert forall j | 0 <= j < |layers| :: b[j] == layers[j];
  }

  // ---------------------------------------------------------------------------
  // Deleting

  /** `deleteLayer`: `splice(index, 1)`, which removes the layer at `index`
      (any layer, the base layer included) and does nothing past the end. */
  function DeleteLayer(layers: seq<Layer>, index: nat): (r: seq<Layer>)
    ensures index < |layers| ==>
      && |r| == |layers| - 1
      && (forall j | 0 <= j < index :: r[j] == layers[j])
      && (forall j | index <= j < |r| :: r[j] == layers[j + 1])
    ensures index >= |layers| ==> r == layers
  {
    if index < |layers| then layers[..index] + layers[index + 1..] else layers
  }

  /** Deleting loses exactly the deleted layer: putting it back where it was
      gives the list back. */
  lemma DeleteThenReinsert(layers: seq<Layer>, index: nat)
    requires index < |layers|
    ensures var r := DeleteLayer(layers, index);
      r[..index] + [layers[index]] + r[index..] == layers
      && multiset(r) + multiset{layers[index]} == multiset(layers)
  {
    var r := DeleteLayer(layers, index);
    assert r[..index] + [layers[index]] + r[index..] == layers;
    calc {
      multiset(layers);
      multiset(r[..index] + [layers[index]] + r[index..]);
      multiset(r[..index]) + multiset{layers[index]} + multiset(r[index..]);
      { assert r == r[..index] + r[index..]; }
      multiset(r) + multiset{layers[index]};
    }
  }

  /** `deleteCurves`. With a saved original, the layer gets it back as pixel
      data, shown through `restored` (the element rebuilt from it), and the
      saved copy and the curve parameters are cleared; without one only the
      curve parameters are cleared. */
  function DeleteCurves(layers: seq<Layer>, index: nat, restored: Element): (r: seq<Layer>)
    requires index < |layers|
    ensures SameExceptAt(r, layers, index)
    ensures r[index].curves.None? && r[index].originalImageData.None?
    ensures layers[index].originalImageData.Some? ==>
      r[index] == layers[index].(image := Some(restored), imageData := layers[index].originalImageData,
                                 originalImageData := None, curves := None)
    ensures layers[index].originalImageData.None? ==> r[index] == layers[index].(curves := None)
  {
    var l := layers[index];
    if l.originalImageData.Some? then
      layers[index := l.(image := Some(restored), imageData := l.originalImageData,
                         originalImageData := None, curves := None)]
    else
      layers[index := l.(curves := None)]
  }

  /** A layer that never had a curve applied (no saved original) keeps its
      pixels when its curve is deleted. */
  lemma DeleteCurvesKeepsPixels(layers: seq<Layer>, index: nat, restored: Element)
    requires index < |layers| && layers[index].originalImageData.None?
    ensures DeleteCurves(layers, index, restored)[index].imageData == layers[index].imageData
    ensures DeleteCurves(layers, index, restored)[index].image == layers[index].image
  {
  }

  /** Deleting the curve twice is the same as deleting it once. */
  lemma DeleteCurvesIdempotent(layers: seq<Layer>, index: nat, restored: Element)
    requires index < |layers|
    ensures DeleteCurves(DeleteCurves(layers, index, restored), index, restored)
         == DeleteCurves(layers, index, restored)
  {
  }

}
