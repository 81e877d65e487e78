/** Pixel buffers as the browser's `ImageData` holds them: a width, a height
    and the RGBA samples of every pixel interleaved row by row, so that channel
    `c` of pixel `(x, y)` sits at `(y * width + x) * 4 + c`. */
module Raster {

  datatype Image = Image(width: nat, height: nat, data: seq<int>)

  predicate IsByte(v: int) {
    0 <= v <= 255
  }

  /** An `ImageData` as the browser guarantees it: both dimensions at least 1
      (its constructors reject a zero dimension), four samples per pixel, and
      every sample a byte (the buffer is a `Uint8ClampedArray`). */
  predicate Valid(img: Image) {
    && img.width >= 1
    && img.height >= 1
    && |img.data| == 4 * (img.width * img.height)
    && forall k | 0 <= k < |img.data| :: IsByte(img.data[k])
  }

  /** Position of channel `c` of pixel `(x, y)` in a buffer `w` pixels wide. */
  function Offset(w: nat, x: nat, y: nat, c: nat): nat {
    (y * w + x) * 4 + c
  }

  /** Channel `c` of pixel `(x, y)`. */
  function Sample(img: Image, x: nat, y: nat, c: nat): (v: int)
    requires Valid(img)
    requires x < img.width && y < img.height && c < 4
    ensures IsByte(v)
  {
    OffsetBound(img.width, img.height, x, y, c);
    img.data[Offset(img.width, x, y, c)]
  }

  /** Channel `c` of the `i`-th pixel in row-major order. */
  function At(img: Image, i: nat, c: nat): (v: int)
    requires Valid(img)
    requires i < img.width * img.height && c < 4
    ensures IsByte(v)
  {
    img.data[4 * i + c]
  }

  /** A coordinate clamped to `[0, dim - 1]`: `Math.max(0, Math.min(dim - 1, v))`
      in the bilinear resampler, a pair of `if`s in the edge padding. */
  function ClampCoord(v: int, dim: nat): (r: nat)
    requires dim >= 1
    ensures r < dim
    ensures 0 <= v < dim ==> r == v
    ensures v < 0 ==> r == 0
    ensures v >= dim ==> r == dim - 1
  {
    if v < 0 then 0 else if v >= dim then dim - 1 else v
  }

  // ---------------------------------------------------------------------------
  // Index arithmetic

  lemma MulMono(a: int, b: int, m: nat)
    requires a <= b
    ensures a * m <= b * m
  {
    var d := b - a;
    assert d * m >= 0;
    assert b * m == a * m + d * m;
  }

  /** Floor division is characterised by its bracketing. */
  lemma DivUnique(a: int, b: int, q: int)
    requires b > 0
    requires q * b <= a < (q + 1) * b
    ensures a / b == q
    ensures a % b == a - q * b
  {
    var q' := a / b;
    assert a == q' * b + a % b;
    if q' > q {
      MulMono(q + 1, q', b);
      assert false;
    } else if q' < q {
      MulMono(q' + 1, q, b);
      assert false;
    }
  }

  lemma OffsetBound(w: nat, h: nat, x: nat, y: nat, c: nat)
    requires x < w && y < h && c < 4
    ensures Offset(w, x, y, c) < 4 * (w * h)
  {
    MulMono(y + 1, h, w);
    assert (y + 1) * w == y * w + w;
  }

  /** An offset determines its pixel and channel. */
  lemma OffsetInverse(w: nat, x: nat, y: nat, c: nat)
    requires x < w && c < 4
    ensures Offset(w, x, y, c) / 4 == y * w + x
    ensures Offset(w, x, y, c) % 4 == c
    ensures (y * w + x) / w == y
    ensures (y * w + x) % w == x
  {
    DivUnique(Offset(w, x, y, c), 4, y * w + x);
    assert (y + 1) * w == y * w + w;
    DivUnique(y * w + x, w, y);
  }

  /** Every position in a `w` by `h` buffer is the offset of one pixel channel. */
  lemma OffsetDecompose(w: nat, h: nat, k: nat)
    requires w >= 1 && k < 4 * (w * h)
    ensures k / 4 % w < w && k / 4 / w < h && k % 4 < 4
    ensures k == Offset(w, k / 4 % w, k / 4 / w, k % 4)
  {
    var p := k / 4;
    assert p < w * h;
    assert p == (p / w) * w + p % w;
    if p / w >= h {
      MulMono(h, p / w, w);
      assert false;
    }
  }

  /** Two buffers of the same size that agree on every sample are equal. */
  lemma SamplesDetermineImage(a: Image, b: Image)
    requires Valid(a) && Valid(b)
    requires a.width == b.width && a.height == b.height
    requires forall x: nat, y: nat, c: nat | x < a.width && y < a.height && c < 4 ::
               Sample(a, x, y, c) == Sample(b, x, y, c)
    ensures a == b
  {
    forall k | 0 <= k < |a.data|
      ensures a.data[k] == b.data[k]
    {
      DataIsSample(a, k);
      DataIsSample(b, k);
    }
  }

  /** Every sample of a buffer is read by `Sample` at its own pixel. */
  lemma DataIsSample(img: Image, k: nat)
    requires Valid(img) && k < |img.data|
    ensures k / 4 % img.width < img.width && k / 4 / img.width < img.height
    ensures img.data[k] == Sample(img, k / 4 % img.width, k / 4 / img.width, k % 4)
  {
    OffsetDecompose(img.width, img.height, k);
  }

  // ---------------------------------------------------------------------------
  // Building a buffer pixel by pixel

  /** The `w` by `h` buffer whose channel `c` at `(x, y)` is `f(x, y, c)`: what
      the nested `for y / for x` loops of the image code fill in. */
  function Generate(w: nat, h: nat, f: (nat, nat, nat) --> int): (img: Image)
    requires w >= 1 && h >= 1
    requires forall x: nat, y: nat, c: nat | x < w && y < h && c < 4 ::
               f.requires(x, y, c) && IsByte(f(x, y, c))
    ensures Valid(img) && img.width == w && img.height == h
    ensures forall x: nat, y: nat, c: nat | x < w && y < h && c < 4 ::
              Sample(img, x, y, c) == f(x, y, c)
  {
    var data := Fill(w, h, f);
    GenerateSamples(w, h, f, data);
    Image(w, h, data)
  }

  /** The samples of `Generate`, in buffer order. */
  function Fill(w: nat, h: nat, f: (nat, nat, nat) --> int): (data: seq<int>)
    requires w >= 1 && h >= 1
    requires forall x: nat, y: nat, c: nat | x < w && y < h && c < 4 ::
               f.requires(x, y, c) && IsByte(f(x, y, c))
    ensures |data| == 4 * (w * h)
    ensures forall k | 0 <= k < |data| :: data[k] == Cell(w, h, f, k)
  {
    seq(4 * (w * h), k requires 0 <= k < 4 * (w * h) => Cell(w, h, f, k))
  }

  /** Sample `k` of `Fill`: channel `k % 4` of pixel `k / 4`. */
  function Cell(w: nat, h: nat, f: (nat, nat, nat) --> int, k: nat): (v: int)
    requires w >= 1 && h >= 1 && k < 4 * (w * h)
    requires forall x: nat, y: nat, c: nat | x < w && y < h && c < 4 ::
               f.requires(x, y, c) && IsByte(f(x, y, c))
    ensures k / 4 % w < w && k / 4 / w < h
    ensures v == f(k / 4 % w, k / 4 / w, k % 4)
  {
    OffsetDecompose(w, h, k);
    f(k / 4 % w, k / 4 / w, k % 4)
  }

  lemma GenerateSamples(w: nat, h: nat, f: (nat, nat, nat) --> int, data: seq<int>)
    requires w >= 1 && h >= 1
    requires forall x: nat, y: nat, c: nat | x < w && y < h && c < 4 ::
               f.requires(x, y, c) && IsByte(f(x, y, c))
    requires |data| == 4 * (w * h)
    requires forall k | 0 <= k < |data| :: data[k] == Cell(w, h, f, k)
    ensures forall k | 0 <= k < |data| :: IsByte(data[k])
    ensures forall x: nat, y: nat, c: nat | x < w && y < h && c < 4 ::
              Offset(w, x, y, c) < |data| && data[Offset(w, x, y, c)] == f(x, y, c)
  {
    forall k | 0 <= k < |data|
      ensures IsByte(data[k])
    {
      var x: nat, y: nat, c: nat := k / 4 % w, k / 4 / w, k % 4;
      assert data[k] == f(x, y, c);
    }
    forall x: nat, y: nat, c: nat | x < w && y < h && c < 4
      ensures Offset(w, x, y, c) < |data| && data[Offset(w, x, y, c)] == f(x, y, c)
    {
      var k := Offset(w, x, y, c);
      OffsetBound(w, h, x, y, c);
      OffsetInverse(w, x, y, c);
      var p := k / 4;
      assert p == y * w + x;
      assert p % w == x && p / w == y && k % 4 == c;
      assert data[k] == f(p % w, p / w, k % 4);
    }
  }

}
