/** The kernel filter dialog: six predefined 3x3 kernels, a grid of editable
    weights, a preview switch, and an apply button that hands the active
    layer's pixels and the current kernel to the caller.

    The dialog's state is modelled twice. `Shared` is the dialog as written:
    choosing a preset makes the grid share that preset's rows, so an edit
    writes through into the preset table itself. `Copied` gives the grid its
    own copy of the weights, which is what the reset button assumes. */
module KernelDialog {
  import opened Options
  import opened JsNumber
  import opened Raster
  import opened Convolution

  datatype Preset = Identity | Sharpen | GaussianBlur | BoxBlur | PrewittX | PrewittY

  /** The key of a preset in the dialog's selector. */
  function PresetKey(p: Preset): string {
    match p
    case Identity => "identity"
    case Sharpen => "sharpen"
    case GaussianBlur => "gaussianBlur"
    case BoxBlur => "boxBlur"
    case PrewittX => "prewittX"
    case PrewittY => "prewittY"
  }

  /** The preset a selector key names. */
  function PresetOfKey(key: string): (r: Option<Preset>)
    ensures r.Some? ==> PresetKey(r.value) == key
  {
    if key == "identity" then Some(Identity)
    else if key == "sharpen" then Some(Sharpen)
    else if key == "gaussianBlur" then Some(GaussianBlur)
    else if key == "boxBlur" then Some(BoxBlur)
    else if key == "prewittX" then Some(PrewittX)
    else if key == "prewittY" then Some(PrewittY)
    else None
  }

  /** Every preset is found again from its key, so the keys are distinct. */
  lemma PresetKeyRoundTrip(p: Preset)
    ensures PresetOfKey(PresetKey(p)) == Some(p)
  {
  }

  function PresetValues(p: Preset): (k: seq<seq<real>>)
    ensures |k| == 3 && forall row | row in k :: |row| == 3
  {
    match p
    case Identity => [[0.0, 0.0, 0.0], [0.0, 1.0, 0.0], [0.0, 0.0, 0.0]]
    case Sharpen => [[0.0, -1.0, 0.0], [-1.0, 5.0, -1.0], [0.0, -1.0, 0.0]]
    case GaussianBlur =>
      [[1.0 / 16.0, 2.0 / 16.0, 1.0 / 16.0],
       [2.0 / 16.0, 4.0 / 16.0, 2.0 / 16.0],
       [1.0 / 16.0, 2.0 / 16.0, 1.0 / 16.0]]
    case BoxBlur =>
      [[1.0 / 9.0, 1.0 / 9.0, 1.0 / 9.0],
       [1.0 / 9.0, 1.0 / 9.0, 1.0 / 9.0],
       [1.0 / 9.0, 1.0 / 9.0, 1.0 / 9.0]]
    case PrewittX => [[-1.0, 0.0, 1.0], [-1.0, 0.0, 1.0], [-1.0, 0.0, 1.0]]
    case PrewittY => [[-1.0, -1.0, -1.0], [0.0, 0.0, 0.0], [1.0, 1.0, 1.0]]
  }

  /** Three rows of three weights. */
  predicate Is3x3(k: seq<seq<real>>) {
    |k| == 3 && forall row | 0 <= row < 3 :: |k[row]| == 3
  }

  lemma PresetsAre3x3(p: Preset)
    ensures Is3x3(PresetValues(p)) && IsSquare(PresetValues(p))
  {
    var k := PresetValues(p);
    assert k[0] in k && k[1] in k && k[2] in k;
  }

  /** The identity preset is the centred impulse, so applying it changes no
      colour channel. */
  lemma IdentityIsImpulse()
    ensures IsCentredImpulse(PresetValues(Identity))
  {
  }

  /** Identity, sharpen and the two blurs have weights summing to 1 and keep a
      flat colour; the Prewitt operators sum to 0 and send it to 0. */
  lemma PresetWeights()
    ensures TotalWeight(PresetValues(Identity), 3) == 1.0
    ensures TotalWeight(PresetValues(Sharpen), 3) == 1.0
    ensures TotalWeight(PresetValues(GaussianBlur), 3) == 1.0
    ensures TotalWeight(PresetValues(BoxBlur), 3) == 1.0
    ensures TotalWeight(PresetValues(PrewittX), 3) == 0.0
    ensures TotalWeight(PresetValues(PrewittY), 3) == 0.0
  {
    PresetsAre3x3(Identity);
    PresetsAre3x3(Sharpen);
    PresetsAre3x3(GaussianBlur);
    PresetsAre3x3(BoxBlur);
    PresetsAre3x3(PrewittX);
    PresetsAre3x3(PrewittY);
  }

  /** The vertical Prewitt operator is the transpose of the horizontal one. */
  lemma PrewittTranspose()
    ensures forall i, j | 0 <= i < 3 && 0 <= j < 3 ::
              PresetValues(PrewittY)[i][j] == PresetValues(PrewittX)[j][i]
  {
  }

  /** `parseFloat(text) || 0`: an unparsable entry, and an entry of 0, become 0. */
  function CellValue(parsed: Num): real {
    OrZero(parsed)
  }

  /** `k` with weight `(row, col)` replaced by `v`. */
  function SetCell(k: seq<seq<real>>, row: nat, col: nat, v: real): (r: seq<seq<real>>)
    requires row < |k| && col < |k[row]|
    ensures |r| == |k| && forall i | 0 <= i < |k| :: |r[i]| == |k[i]|
    ensures r[row][col] == v
    ensures forall i, j | 0 <= i < |k| && 0 <= j < |k[i]| && (i != row || j != col) :: r[i][j] == k[i][j]
  {
    k[row := k[row][col := v]]
  }

  // ---------------------------------------------------------------------------
  // The dialog as written: the grid shares the rows of a preset

  /** `table` holds the preset weights as they currently are (edits write into
      them), `source` the preset whose rows the grid shares, `selected` the
      selector's value. */
  datatype Shared = Shared(table: Preset -> seq<seq<real>>, source: Preset, selected: Preset, preview: bool)

  predicate SharedOk(s: Shared) {
    forall p: Preset :: Is3x3(s.table(p))
  }

  /** The state on first render: pristine presets, identity selected, no preview. */
  function SharedInitial(): (s: Shared)
    ensures SharedOk(s)
    ensures s.table == PresetValues && s.source == Identity && s.selected == Identity && !s.preview
  {
    PresetsAllAre3x3();
    Shared(PresetValues, Identity, Identity, false)
  }

  lemma PresetsAllAre3x3()
    ensures forall p: Preset :: Is3x3(PresetValues(p))
  {
    forall p: Preset
      ensures Is3x3(PresetValues(p))
    {
      PresetsAre3x3(p);
    }
  }

  /** The weights the grid shows. */
  function SharedKernel(s: Shared): seq<seq<real>> {
    s.table(s.source)
  }

  /** Opening the dialog, and the reset button, point the grid at the identity
      preset's rows. */
  function SharedReset(s: Shared): (r: Shared)
    ensures r.source == Identity && r.selected == Identity
    ensures r.table == s.table && r.preview == s.preview
  {
    s.(source := Identity, selected := Identity)
  }

  function SharedSelect(s: Shared, p: Preset): (r: Shared)
    ensures r.source == p && r.selected == p
    ensures r.table == s.table && r.preview == s.preview
  {
    s.(source := p, selected := p)
  }

  /** Editing a cell writes into the shared rows, that is, into the preset. */
  function SharedEdit(s: Shared, row: nat, col: nat, parsed: Num): (r: Shared)
    requires SharedOk(s) && row < 3 && col < 3
    ensures SharedOk(r)
    ensures r.source == s.source && r.selected == s.selected && r.preview == s.preview
    ensures SharedKernel(r) == SetCell(SharedKernel(s), row, col, CellValue(parsed))
    ensures forall p: Preset | p != s.source :: r.table(p) == s.table(p)
  {
    var edited := SetCell(s.table(s.source), row, col, CellValue(parsed));
    s.(table := (p: Preset) => if p == s.source then edited else s.table(p))
  }

  /** After a cell of the identity grid is edited, reset brings back the
      edited weights, not the identity kernel. */
  lemma SharedResetKeepsEdit(s: Shared, row: nat, col: nat, parsed: Num)
    requires SharedOk(s) && row < 3 && col < 3
    requires s.source == Identity
    ensures SharedKernel(SharedReset(SharedEdit(s, row, col, parsed)))[row][col] == CellValue(parsed)
  {
  }

  /** Concretely: open, type 3 into the centre cell, press reset, and the grid
      still holds 3 in the centre; the identity preset is gone for the rest of
      the session. */
  lemma SharedResetFails()
    ensures var s := SharedReset(SharedEdit(SharedReset(SharedInitial()), 1, 1, Finite(3.0)));
      && SharedKernel(s) != PresetValues(Identity)
      && SharedKernel(SharedSelect(s, Identity)) != PresetValues(Identity)
  {
    var s := SharedReset(SharedEdit(SharedReset(SharedInitial()), 1, 1, Finite(3.0)));
    assert SharedKernel(s)[1][1] == 3.0;
  }

  // ---------------------------------------------------------------------------
  // The dialog with its own copy of the weights

  datatype Copied = Copied(kernel: seq<seq<real>>, selected: Preset, preview: bool)

  function CopiedInitial(): (s: Copied)
    ensures s.kernel == PresetValues(Identity) && s.selected == Identity && !s.preview
  {
    Copied(PresetValues(Identity), Identity, false)
  }

  function CopiedReset(s: Copied): (r: Copied)
    ensures r.kernel == PresetValues(Identity) && r.selected == Identity && r.preview == s.preview
  {
    s.(kernel := PresetValues(Identity), selected := Identity)
  }

  function CopiedSelect(s: Copied, p: Preset): (r: Copied)
    ensures r.kernel == PresetValues(p) && r.selected == p && r.preview == s.preview
  {
    s.(kernel := PresetValues(p), selected := p)
  }

  function CopiedEdit(s: Copied, row: nat, col: nat, parsed: Num): (r: Copied)
    requires Is3x3(s.kernel) && row < 3 && col < 3
    ensures Is3x3(r.kernel)
    ensures r.kernel == SetCell(s.kernel, row, col, CellValue(parsed))
    ensures r.selected == s.selected && r.preview == s.preview
  {
    s.(kernel := SetCell(s.kernel, row, col, CellValue(parsed)))
  }

  /** Whatever was edited before, reset gives the identity filter back: with
      each pixel keeping its alpha, applying the grid then leaves every image
      unchanged. */
  lemma CopiedResetIsIdentity(s: Copied, img: Image)
    requires Valid(img)
    ensures IsSquare(CopiedReset(s).kernel)
    ensures ApplyKernelKeepingAlpha(img, CopiedReset(s).kernel) == img
  {
    IdentityIsImpulse();
    ImpulseKeepsImage(img, PresetValues(Identity));
  }

  /** Both models agree until the first edit: selecting and resetting on
      pristine presets shows the same weights. */
  lemma ModelsAgreeOnPristinePresets(s: Shared, c: Copied)
    requires s.table == PresetValues && SharedKernel(s) == c.kernel
    ensures forall p: Preset :: SharedKernel(SharedSelect(s, p)) == CopiedSelect(c, p).kernel
    ensures SharedKernel(SharedReset(s)) == CopiedReset(c).kernel
  {
  }

  // ---------------------------------------------------------------------------
  // Actions shared by both models

  /** `handleApply`: without pixel data on the active layer nothing happens;
      otherwise the caller receives the pixels and the kernel, and the dialog
      closes. */
  function Apply(layerPixels: Option<Image>, kernel: seq<seq<real>>): (r: Option<(Image, seq<seq<real>>)>)
    ensures r.None? <==> layerPixels.None?
    ensures r.Some? ==> r.value.0 == layerPixels.value && r.value.1 == kernel
  {
    match layerPixels
    case None => None
    case Some(img) => Some((img, kernel))
  }

  function SetPreview(s: Copied, checked: bool): (r: Copied)
    ensures r.preview == checked && r.kernel == s.kernel && r.selected == s.selected
  {
    s.(preview := checked)
  }

}
