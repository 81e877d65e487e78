/** Edge padding and convolution with a square kernel of real weights. The
    colour channels are the weighted sum of the window under the kernel,
    clamped to [0, 255] and stored into a `Uint8ClampedArray`; the alpha
    channel is copied from one tap of the window. */
module Convolution {
  import opened JsNumber
  import opened Raster

  // ---------------------------------------------------------------------------
  // Edge padding

  /** A border of `p` pixels on every side, each border pixel repeating the
      nearest edge pixel of `img`. */
  function EdgePadding(img: Image, p: nat): (out: Image)
    requires Valid(img)
    ensures Valid(out)
    ensures out.width == img.width + 2 * p && out.height == img.height + 2 * p
    ensures forall x: nat, y: nat, c: nat | x < out.width && y < out.height && c < 4 ::
              Sample(out, x, y, c) == PaddedSample(img, p, x, y, c)
  {
    var w, h := img.width + 2 * p, img.height + 2 * p;
    Generate(w, h, (x: nat, y: nat, c: nat) requires x < w && y < h && c < 4 => PaddedSample(img, p, x, y, c))
  }

  /** The source pixel that padded pixel `(x, y)` repeats. */
  function PaddedSample(img: Image, p: nat, x: nat, y: nat, c: nat): (v: int)
    requires Valid(img) && c < 4
    ensures IsByte(v)
  {
    Sample(img, ClampCoord(x - p, img.width), ClampCoord(y - p, img.height), c)
  }

  /** `padded` has the size of `img` padded by `p` and each of its pixels
      repeats `PaddedSample`: what the lemmas use of `EdgePadding`. */
  predicate IsPaddingOf(padded: Image, img: Image, p: nat)
    requires Valid(padded) && Valid(img)
  {
    && padded.width == img.width + 2 * p && padded.height == img.height + 2 * p
    && forall x: nat, y: nat, c: nat | x < padded.width && y < padded.height && c < 4 ::
         Sample(padded, x, y, c) == PaddedSample(img, p, x, y, c)
  }

  /** The original image sits unchanged in the middle of the padded one. */
  lemma PaddingKeepsInterior(img: Image, p: nat, x: nat, y: nat, c: nat)
    requires Valid(img)
    requires x < img.width && y < img.height && c < 4
    ensures Sample(EdgePadding(img, p), x + p, y + p, c) == Sample(img, x, y, c)
  {
  }

  /** Every border pixel equals the edge pixel it faces: left of the image
      repeats column `p`, right of it column `p + width - 1`, and likewise for
      rows. */
  lemma PaddingRepeatsEdges(img: Image, p: nat, x: nat, y: nat, c: nat)
    requires Valid(img)
    requires x < img.width + 2 * p && y < img.height + 2 * p && c < 4
    ensures var out := EdgePadding(img, p);
      && (x < p ==> Sample(out, x, y, c) == Sample(out, p, y, c))
      && (x >= p + img.width ==> Sample(out, x, y, c) == Sample(out, p + img.width - 1, y, c))
      && (y < p ==> Sample(out, x, y, c) == Sample(out, x, p, c))
      && (y >= p + img.height ==> Sample(out, x, y, c) == Sample(out, x, p + img.height - 1, c))
  {
  }

  /** Padding by zero pixels is the identity. */
  lemma PaddingByZero(img: Image)
    requires Valid(img)
    ensures EdgePadding(img, 0) == img
  {
    var out := EdgePadding(img, 0);
    forall x: nat, y: nat, c: nat | x < img.width && y < img.height && c < 4
      ensures Sample(out, x, y, c) == Sample(img, x, y, c)
    {
    }
    SamplesDetermineImage(out, img);
  }

  /** Padding twice is padding once by the sum. */
  lemma PaddingComposes(img: Image, a: nat, b: nat)
    requires Valid(img)
    ensures EdgePadding(EdgePadding(img, a), b) == EdgePadding(img, a + b)
  {
    var inner := EdgePadding(img, a);
    var twice := EdgePadding(inner, b);
    var once := EdgePadding(img, a + b);
    assert IsPaddingOf(inner, img, a);
    assert IsPaddingOf(twice, inner, b);
    assert IsPaddingOf(once, img, a + b);
    PaddingOfPadding(img, inner, twice, a, b);
    PaddingIsUnique(img, twice, once, a + b);
  }

  lemma PaddingOfPadding(img: Image, inner: Image, twice: Image, a: nat, b: nat)
    requires Valid(img) && Valid(inner) && Valid(twice)
    requires IsPaddingOf(inner, img, a) && IsPaddingOf(twice, inner, b)
    ensures IsPaddingOf(twice, img, a + b)
  {
    forall x: nat, y: nat, c: nat | x < twice.width && y < twice.height && c < 4
      ensures Sample(twice, x, y, c) == PaddedSample(img, a + b, x, y, c)
    {
      var x', y' := ClampCoord(x - b, inner.width), ClampCoord(y - b, inner.height);
      assert Sample(twice, x, y, c) == Sample(inner, x', y', c);
      assert Sample(inner, x', y', c) == PaddedSample(img, a, x', y', c);
      ClampTwice(x, img.width, a, b);
      ClampTwice(y, img.height, a, b);
    }
  }

  lemma PaddingIsUnique(img: Image, one: Image, other: Image, p: nat)
    requires Valid(img) && Valid(one) && Valid(other)
    requires IsPaddingOf(one, img, p) && IsPaddingOf(other, img, p)
    ensures one == other
  {
    SamplesDetermineImage(one, other);
  }

  lemma ClampTwice(v: nat, dim: nat, a: nat, b: nat)
    requires dim >= 1
    ensures ClampCoord(ClampCoord(v - b, dim + 2 * a) - a, dim) == ClampCoord(v - (a + b), dim)
  {
  }

  // ---------------------------------------------------------------------------
  // Kernel sums

  /** Every row holds at least as many weights as there are rows, so each tap
      `kernel[ky][kx]` with `ky, kx < |kernel|` exists. */
  predicate IsSquare(kernel: seq<seq<real>>) {
    forall ky | 0 <= ky < |kernel| :: |kernel[ky]| >= |kernel|
  }

  /** One tap's contribution: the sample times the kernel weight. */
  function Weighted(v: int, weight: real): real {
    v as real * weight
  }

  /** `kernel[ky][0] * window(0) + ... + kernel[ky][n - 1] * window(n - 1)`
      along row `ky` of the window whose top-left corner is `(x, y)` in the
      padded image. */
  function RowSum(padded: Image, kernel: seq<seq<real>>, x: nat, y: nat, c: nat, ky: nat, n: nat): real
    requires Valid(padded) && IsSquare(kernel) && c < 4
    requires ky < |kernel| && n <= |kernel|
    requires x + n <= padded.width && y + ky < padded.height
    decreases n
  {
    if n == 0 then 0.0
    else RowSum(padded, kernel, x, y, c, ky, n - 1)
         + Weighted(Sample(padded, x + n - 1, y + ky, c), kernel[ky][n - 1])
  }

  /** The sum of the first `m` rows of the window: the running `r`, `g` or `b`
      of the convolution loop once `m` kernel rows have been visited. */
  function WindowSum(padded: Image, kernel: seq<seq<real>>, x: nat, y: nat, c: nat, m: nat): real
    requires Valid(padded) && IsSquare(kernel) && c < 4
    requires m <= |kernel|
    requires x + |kernel| <= padded.width && y + m <= padded.height
    decreases m
  {
    if m == 0 then 0.0
    else WindowSum(padded, kernel, x, y, c, m - 1) + RowSum(padded, kernel, x, y, c, m - 1, |kernel|)
  }

  /** The source pixel under tap `(kx, ky)` when the kernel is centred on
      `(x, y)` and reads past the border are clamped to the edge. */
  function EdgeTap(img: Image, h: nat, x: nat, y: nat, kx: nat, ky: nat, c: nat): (v: int)
    requires Valid(img) && c < 4
    ensures IsByte(v)
  {
    Sample(img, ClampCoord(x + kx - h, img.width), ClampCoord(y + ky - h, img.height), c)
  }

  /** Row `ky` of the centred, edge-clamped window, read from the unpadded image. */
  function CentredRowSum(img: Image, kernel: seq<seq<real>>, x: nat, y: nat, c: nat, ky: nat, n: nat): real
    requires Valid(img) && IsSquare(kernel) && c < 4
    requires ky < |kernel| && n <= |kernel|
    decreases n
  {
    if n == 0 then 0.0
    else CentredRowSum(img, kernel, x, y, c, ky, n - 1)
         + Weighted(EdgeTap(img, |kernel| / 2, x, y, n - 1, ky, c), kernel[ky][n - 1])
  }

  /** The weighted sum of the centred, edge-clamped window: the textbook
      definition of a convolution with clamp-to-edge borders. */
  function CentredSum(img: Image, kernel: seq<seq<real>>, x: nat, y: nat, c: nat, m: nat): real
    requires Valid(img) && IsSquare(kernel) && c < 4
    requires m <= |kernel|
    decreases m
  {
    if m == 0 then 0.0
    else CentredSum(img, kernel, x, y, c, m - 1) + CentredRowSum(img, kernel, x, y, c, m - 1, |kernel|)
  }

  /** Padding by `|kernel| / 2` is what makes the window whose top-left corner
      is `(x, y)` in the padded image the window centred on `(x, y)` in the
      original one. */
  lemma {:induction false} RowSumIsCentred(img: Image, kernel: seq<seq<real>>, x: nat, y: nat, c: nat, ky: nat, n: nat)
    requires Valid(img) && IsSquare(kernel) && c < 4
    requires ky < |kernel| && n <= |kernel|
    requires x < img.width && y < img.height
    ensures var padded := EdgePadding(img, |kernel| / 2);
      WindowFits(img, kernel, x, y) &&
      RowSum(padded, kernel, x, y, c, ky, n) == CentredRowSum(img, kernel, x, y, c, ky, n)
  {
    var padded := EdgePadding(img, |kernel| / 2);
    WindowFitsInPadding(img, kernel, x, y);
    PaddedRowSum(img, padded, kernel, x, y, c, ky, n);
  }

  lemma {:induction false} WindowSumIsCentred(img: Image, kernel: seq<seq<real>>, x: nat, y: nat, c: nat, m: nat)
    requires Valid(img) && IsSquare(kernel) && c < 4
    requires m <= |kernel|
    requires x < img.width && y < img.height
    ensures var padded := EdgePadding(img, |kernel| / 2);
      WindowFits(img, kernel, x, y) &&
      WindowSum(padded, kernel, x, y, c, m) == CentredSum(img, kernel, x, y, c, m)
  {
    var padded := EdgePadding(img, |kernel| / 2);
    WindowFitsInPadding(img, kernel, x, y);
    PaddedWindowSum(img, padded, kernel, x, y, c, m);
  }

  lemma {:induction false} PaddedRowSum(img: Image, padded: Image, kernel: seq<seq<real>>, x: nat, y: nat, c: nat, ky: nat, n: nat)
    requires Valid(img) && Valid(padded) && IsSquare(kernel) && c < 4
    requires IsPaddingOf(padded, img, |kernel| / 2)
    requires ky < |kernel| && n <= |kernel|
    requires WindowFits(img, kernel, x, y)
    ensures RowSum(padded, kernel, x, y, c, ky, n) == CentredRowSum(img, kernel, x, y, c, ky, n)
  {
    if n > 0 {
      PaddedRowSum(img, padded, kernel, x, y, c, ky, n - 1);
      var kx: nat := n - 1;
      TapOfPadding(img, padded, |kernel| / 2, x, y, kx, ky, c);
    }
  }

  lemma TapOfPadding(img: Image, padded: Image, p: nat, x: nat, y: nat, kx: nat, ky: nat, c: nat)
    requires Valid(img) && Valid(padded) && c < 4
    requires IsPaddingOf(padded, img, p)
    requires x + kx < padded.width && y + ky < padded.height
    ensures Sample(padded, x + kx, y + ky, c) == EdgeTap(img, p, x, y, kx, ky, c)
  {
    assert Sample(padded, x + kx, y + ky, c) == PaddedSample(img, p, x + kx, y + ky, c);
  }

  lemma {:induction false} PaddedWindowSum(img: Image, padded: Image, kernel: seq<seq<real>>, x: nat, y: nat, c: nat, m: nat)
    requires Valid(img) && Valid(padded) && IsSquare(kernel) && c < 4
    requires IsPaddingOf(padded, img, |kernel| / 2)
    requires m <= |kernel|
    requires WindowFits(img, kernel, x, y)
    ensures WindowSum(padded, kernel, x, y, c, m) == CentredSum(img, kernel, x, y, c, m)
  {
    if m > 0 {
      PaddedWindowSum(img, padded, kernel, x, y, c, m - 1);
      PaddedRowSum(img, padded, kernel, x, y, c, m - 1, |kernel|);
    }
  }

  /** The window whose top-left corner is `(x, y)` lies inside the image padded
      by `|kernel| / 2`. */
  predicate WindowFits(img: Image, kernel: seq<seq<real>>, x: nat, y: nat) {
    && x + |kernel| <= img.width + 2 * (|kernel| / 2)
    && y + |kernel| <= img.height + 2 * (|kernel| / 2)
  }

  lemma WindowFitsInPadding(img: Image, kernel: seq<seq<real>>, x: nat, y: nat)
    requires x < img.width && y < img.height
    ensures WindowFits(img, kernel, x, y)
  {
    var k := |kernel|;
    assert k <= 2 * (k / 2) + 1;
  }

  // ---------------------------------------------------------------------------
  // Applying a kernel

  /** `Math.min(255, Math.max(0, s))` stored into a `Uint8ClampedArray`. */
  function StoreSum(s: real): (v: int)
    ensures IsByte(v)
    ensures 0.0 <= s <= 255.0 ==> v as real - 0.5 <= s <= v as real + 0.5
    ensures 0.0 < s < 255.0 && (s == v as real - 0.5 || s == v as real + 0.5) ==> v % 2 == 0
    ensures s <= 0.0 ==> v == 0
    ensures s >= 255.0 ==> v == 255
  {
    ToUint8Clamp(Finite(ClampReal(0.0, 255.0, s)))
  }

  /** Colour channel `c < 3` of output pixel `(x, y)`: the weighted window sum
      read from the image padded by `|kernel| / 2`. */
  function ColourSample(img: Image, kernel: seq<seq<real>>, x: nat, y: nat, c: nat): (v: int)
    requires Valid(img) && IsSquare(kernel)
    requires x < img.width && y < img.height && c < 3
    ensures IsByte(v)
  {
    var padded := EdgePadding(img, |kernel| / 2);
    StoreSum(WindowSum(padded, kernel, x, y, c, |kernel|))
  }

  /** The alpha the loop leaves in `a`: that of the last tap it visits, the
      bottom-right corner of the window, or 0 for an empty kernel. */
  function LastTapAlpha(img: Image, kernel: seq<seq<real>>, x: nat, y: nat): (v: int)
    requires Valid(img)
    requires x < img.width && y < img.height
    ensures IsByte(v)
  {
    var k := |kernel|;
    var padded := EdgePadding(img, k / 2);
    if k == 0 then 0 else Sample(padded, x + k - 1, y + k - 1, 3)
  }

  /** The convolution as the filter computes it. */
  function ApplyKernel(img: Image, kernel: seq<seq<real>>): (out: Image)
    requires Valid(img) && IsSquare(kernel)
    ensures Valid(out) && out.width == img.width && out.height == img.height
    ensures forall x: nat, y: nat, c: nat | x < img.width && y < img.height && c < 3 ::
              Sample(out, x, y, c) == ColourSample(img, kernel, x, y, c)
    ensures forall x: nat, y: nat | x < img.width && y < img.height ::
              Sample(out, x, y, 3) == LastTapAlpha(img, kernel, x, y)
  {
    var w, h := img.width, img.height;
    Generate(w, h, (x: nat, y: nat, c: nat) requires x < w && y < h && c < 4 => KernelSample(img, kernel, x, y, c))
  }

  function KernelSample(img: Image, kernel: seq<seq<real>>, x: nat, y: nat, c: nat): (v: int)
    requires Valid(img) && IsSquare(kernel)
    requires x < img.width && y < img.height && c < 4
    ensures IsByte(v)
  {
    if c < 3 then ColourSample(img, kernel, x, y, c) else LastTapAlpha(img, kernel, x, y)
  }

  /** Each colour channel is the clamp-to-edge convolution centred on the
      pixel, clamped to [0, 255] and rounded. */
  lemma ApplyKernelIsCentredConvolution(img: Image, kernel: seq<seq<real>>, x: nat, y: nat, c: nat)
    requires Valid(img) && IsSquare(kernel)
    requires x < img.width && y < img.height && c < 3
    ensures Sample(ApplyKernel(img, kernel), x, y, c) == StoreSum(CentredSum(img, kernel, x, y, c, |kernel|))
  {
    WindowSumIsCentred(img, kernel, x, y, c, |kernel|);
  }

  /** The alpha written for an odd kernel of half-size `h` is the alpha of the
      pixel `h` to the right and `h` below (clamped to the image), not that of
      the pixel itself; an empty kernel writes 0. */
  lemma ApplyKernelAlphaIsShifted(img: Image, kernel: seq<seq<real>>, x: nat, y: nat)
    requires Valid(img) && IsSquare(kernel)
    requires x < img.width && y < img.height
    ensures |kernel| == 0 ==> Sample(ApplyKernel(img, kernel), x, y, 3) == 0
    ensures |kernel| % 2 == 1 ==>
              Sample(ApplyKernel(img, kernel), x, y, 3)
              == Sample(img, ClampCoord(x + |kernel| / 2, img.width), ClampCoord(y + |kernel| / 2, img.height), 3)
  {
  }

  /** A two-pixel image, transparent on the left and opaque on the right. */
  function HalfTransparent(): (img: Image)
    ensures Valid(img)
  {
    Image(2, 1, [0, 0, 0, 0, 0, 0, 0, 255])
  }

  /** The 3x3 kernel whose only weight is a 1 in the centre. */
  function Impulse3(): (kernel: seq<seq<real>>)
    ensures IsSquare(kernel) && |kernel| == 3
  {
    [[0.0, 0.0, 0.0], [0.0, 1.0, 0.0], [0.0, 0.0, 0.0]]
  }

  /** With the identity kernel the transparent left pixel comes out opaque:
      it takes the alpha of its right-hand neighbour. */
  lemma IdentityKernelMovesAlpha()
    ensures Sample(HalfTransparent(), 0, 0, 3) == 0
    ensures Sample(ApplyKernel(HalfTransparent(), Impulse3()), 0, 0, 3) == 255
    ensures ApplyKernel(HalfTransparent(), Impulse3()) != HalfTransparent()
  {
    var img, kernel := HalfTransparent(), Impulse3();
    var out := ApplyKernel(img, kernel);
    var padded := EdgePadding(img, 1);
    assert IsPaddingOf(padded, img, 1);
    assert Sample(out, 0, 0, 3) == Sample(padded, 2, 2, 3);
    assert Sample(padded, 2, 2, 3) == PaddedSample(img, 1, 2, 2, 3);
    HalfTransparentAlpha();
  }

  lemma HalfTransparentAlpha()
    ensures Sample(HalfTransparent(), 0, 0, 3) == 0
    ensures Sample(HalfTransparent(), 1, 0, 3) == 255
  {
    assert Offset(2, 1, 0, 3) == 7;
    assert Offset(2, 0, 0, 3) == 3;
  }

  /** The convolution with each pixel keeping its own alpha. */
  function ApplyKernelKeepingAlpha(img: Image, kernel: seq<seq<real>>): (out: Image)
    requires Valid(img) && IsSquare(kernel)
    ensures Valid(out) && out.width == img.width && out.height == img.height
    ensures forall x: nat, y: nat, c: nat | x < img.width && y < img.height && c < 3 ::
              Sample(out, x, y, c) == ColourSample(img, kernel, x, y, c)
    ensures forall x: nat, y: nat | x < img.width && y < img.height ::
              Sample(out, x, y, 3) == Sample(img, x, y, 3)
  {
    var w, h := img.width, img.height;
    Generate(w, h, (x: nat, y: nat, c: nat) requires x < w && y < h && c < 4 => KeptAlphaSample(img, kernel, x, y, c))
  }

  function KeptAlphaSample(img: Image, kernel: seq<seq<real>>, x: nat, y: nat, c: nat): (v: int)
    requires Valid(img) && IsSquare(kernel)
    requires x < img.width && y < img.height && c < 4
    ensures IsByte(v)
  {
    if c < 3 then ColourSample(img, kernel, x, y, c) else Sample(img, x, y, 3)
  }

  // ---------------------------------------------------------------------------
  // Kernel weights

  /** `kernel[ky][0] + ... + kernel[ky][n - 1]`. */
  function RowWeight(kernel: seq<seq<real>>, ky: nat, n: nat): real
    requires IsSquare(kernel) && ky < |kernel| && n <= |kernel|
  {
    if n == 0 then 0.0 else RowWeight(kernel, ky, n - 1) + kernel[ky][n - 1]
  }

  /** The sum of all weights in the first `m` rows. */
  function TotalWeight(kernel: seq<seq<real>>, m: nat): real
    requires IsSquare(kernel) && m <= |kernel|
  {
    if m == 0 then 0.0 else TotalWeight(kernel, m - 1) + RowWeight(kernel, m - 1, |kernel|)
  }

  /** Channel `c` of `img` is `v` at every pixel. */
  predicate IsFlat(img: Image, c: nat, v: int)
    requires Valid(img) && c < 4
  {
    forall i: nat, j: nat | i < img.width && j < img.height :: Sample(img, i, j, c) == v
  }

  /** A flat channel gives `v` times the total weight. */
  lemma {:induction false} FlatRowSum(img: Image, kernel: seq<seq<real>>, x: nat, y: nat, c: nat, ky: nat, n: nat, v: int)
    requires Valid(img) && IsSquare(kernel) && c < 4
    requires ky < |kernel| && n <= |kernel|
    requires IsFlat(img, c, v)
    ensures CentredRowSum(img, kernel, x, y, c, ky, n) == Weighted(v, RowWeight(kernel, ky, n))
  {
    if n > 0 {
      FlatRowSum(img, kernel, x, y, c, ky, n - 1, v);
      var w, rw := kernel[ky][n - 1], RowWeight(kernel, ky, n - 1);
      var tap := EdgeTap(img, |kernel| / 2, x, y, n - 1, ky, c);
      assert tap == v;
      CentredRowSumStep(img, kernel, x, y, c, ky, n);
      WeightedAdds(v, rw, w);
    }
  }

  lemma CentredRowSumStep(img: Image, kernel: seq<seq<real>>, x: nat, y: nat, c: nat, ky: nat, n: nat)
    requires Valid(img) && IsSquare(kernel) && c < 4
    requires ky < |kernel| && 0 < n <= |kernel|
    ensures CentredRowSum(img, kernel, x, y, c, ky, n)
            == CentredRowSum(img, kernel, x, y, c, ky, n - 1)
               + Weighted(EdgeTap(img, |kernel| / 2, x, y, n - 1, ky, c), kernel[ky][n - 1])
    ensures RowWeight(kernel, ky, n) == RowWeight(kernel, ky, n - 1) + kernel[ky][n - 1]
  {
  }

  lemma {:induction false} FlatSum(img: Image, kernel: seq<seq<real>>, x: nat, y: nat, c: nat, m: nat, v: int)
    requires Valid(img) && IsSquare(kernel) && c < 4
    requires m <= |kernel|
    requires IsFlat(img, c, v)
    ensures CentredSum(img, kernel, x, y, c, m) == Weighted(v, TotalWeight(kernel, m))
  {
    if m > 0 {
      FlatSum(img, kernel, x, y, c, m - 1, v);
      FlatRowSum(img, kernel, x, y, c, m - 1, |kernel|, v);
      WeightedAdds(v, TotalWeight(kernel, m - 1), RowWeight(kernel, m - 1, |kernel|));
    }
  }

  lemma WeightedAdds(v: int, a: real, b: real)
    ensures Weighted(v, a) + Weighted(v, b) == Weighted(v, a + b)
  {
  }

  /** A kernel whose weights sum to 1 (a blur, a sharpen) leaves a flat colour
      channel unchanged; one whose weights sum to 0 (an edge detector) turns it
      to 0. */
  lemma FlatChannel(img: Image, kernel: seq<seq<real>>, c: nat, v: int, x: nat, y: nat)
    requires Valid(img) && IsSquare(kernel) && c < 3
    requires x < img.width && y < img.height
    requires IsFlat(img, c, v)
    ensures TotalWeight(kernel, |kernel|) == 1.0 ==> Sample(ApplyKernel(img, kernel), x, y, c) == v
    ensures TotalWeight(kernel, |kernel|) == 0.0 ==> Sample(ApplyKernel(img, kernel), x, y, c) == 0
  {
    ApplyKernelIsCentredConvolution(img, kernel, x, y, c);
    FlatSum(img, kernel, x, y, c, |kernel|, v);
    assert Sample(img, x, y, c) == v;
    if TotalWeight(kernel, |kernel|) == 1.0 {
      StoreKeepsByte(v);
    }
  }

  /** Weights of a row that are all zero contribute nothing. */
  lemma {:induction false} ZeroRowSum(img: Image, kernel: seq<seq<real>>, x: nat, y: nat, c: nat, ky: nat, n: nat)
    requires Valid(img) && IsSquare(kernel) && c < 4
    requires ky < |kernel| && n <= |kernel|
    requires forall kx | 0 <= kx < n :: kernel[ky][kx] == 0.0
    ensures CentredRowSum(img, kernel, x, y, c, ky, n) == 0.0
  {
    if n > 0 {
      ZeroRowSum(img, kernel, x, y, c, ky, n - 1);
    }
  }

  /** A row whose only non-zero weight is a 1 at column `j` picks that tap. */
  lemma {:induction false} ImpulseRowSum(img: Image, kernel: seq<seq<real>>, x: nat, y: nat, c: nat, ky: nat, n: nat, j: nat)
    requires Valid(img) && IsSquare(kernel) && c < 4
    requires ky < |kernel| && n <= |kernel| && j < |kernel|
    requires forall kx | 0 <= kx < |kernel| :: kernel[ky][kx] == if kx == j then 1.0 else 0.0
    ensures CentredRowSum(img, kernel, x, y, c, ky, n)
            == if j < n then EdgeTap(img, |kernel| / 2, x, y, j, ky, c) as real else 0.0
  {
    if n > 0 {
      ImpulseRowSum(img, kernel, x, y, c, ky, n - 1, j);
    }
  }

  /** The kernel of odd size whose only non-zero weight is a 1 in the centre. */
  predicate IsCentredImpulse(kernel: seq<seq<real>>) {
    && IsSquare(kernel)
    && |kernel| % 2 == 1
    && forall ky, kx | 0 <= ky < |kernel| && 0 <= kx < |kernel| ::
         kernel[ky][kx] == if ky == |kernel| / 2 && kx == |kernel| / 2 then 1.0 else 0.0
  }

  lemma {:induction false} ImpulseSum(img: Image, kernel: seq<seq<real>>, x: nat, y: nat, c: nat, m: nat)
    requires Valid(img) && IsCentredImpulse(kernel) && c < 4
    requires m <= |kernel|
    ensures CentredSum(img, kernel, x, y, c, m)
            == if |kernel| / 2 < m then EdgeTap(img, |kernel| / 2, x, y, |kernel| / 2, |kernel| / 2, c) as real
               else 0.0
  {
    var h := |kernel| / 2;
    if m > 0 {
      ImpulseSum(img, kernel, x, y, c, m - 1);
      if m - 1 == h {
        ImpulseRowSum(img, kernel, x, y, c, m - 1, |kernel|, h);
      } else {
        ZeroRowSum(img, kernel, x, y, c, m - 1, |kernel|);
      }
    }
  }

  /** The centred impulse reproduces every colour channel. */
  lemma ImpulseKeepsColour(img: Image, kernel: seq<seq<real>>, x: nat, y: nat, c: nat)
    requires Valid(img) && IsCentredImpulse(kernel)
    requires x < img.width && y < img.height && c < 3
    ensures ColourSample(img, kernel, x, y, c) == Sample(img, x, y, c)
  {
    WindowSumIsCentred(img, kernel, x, y, c, |kernel|);
    ImpulseSum(img, kernel, x, y, c, |kernel|);
    StoreKeepsByte(Sample(img, x, y, c));
  }

  /** Once alpha is kept, the centred impulse is the identity filter. */
  lemma ImpulseKeepsImage(img: Image, kernel: seq<seq<real>>)
    requires Valid(img) && IsCentredImpulse(kernel)
    ensures ApplyKernelKeepingAlpha(img, kernel) == img
  {
    var out := ApplyKernelKeepingAlpha(img, kernel);
    forall x: nat, y: nat, c: nat | x < img.width && y < img.height && c < 4
      ensures Sample(out, x, y, c) == Sample(img, x, y, c)
    {
      if c < 3 {
        ImpulseKeepsColour(img, kernel, x, y, c);
      }
    }
    SamplesDetermineImage(out, img);
  }

}
