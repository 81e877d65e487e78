/** Tone curves: the 256-bin histogram shown behind the curve, the lookup
    table of a curve through two control points, and the remapping of one
    channel (or of red, green and blue together) through that table. */
module ToneCurve {
  import opened Options
  import opened JsNumber
  import opened Raster

  /** The channel a curve acts on. */
  datatype Channel = Red | Green | Blue | Alpha | Rgb

  /** Position of a named channel inside a pixel; `Rgb` has none of its own. */
  function ChannelOffset(ch: Channel): (c: nat)
    requires ch != Rgb
    ensures c < 4
  {
    match ch
    case Red => 0
    case Green => 1
    case Blue => 2
    case Alpha => 3
  }

  /** Whether a curve on `ch` rewrites channel `c` of each pixel. */
  predicate Affects(ch: Channel, c: nat) {
    if ch == Rgb then c < 3 else c == ChannelOffset(ch)
  }

  // ---------------------------------------------------------------------------
  // Histogram

  function Zeros(n: nat): (s: seq<int>)
    ensures |s| == n && forall v | 0 <= v < n :: s[v] == 0
  {
    seq(n, v => 0)
  }

  /** `bins` with one more count in bin `v`. */
  function Bump(bins: seq<int>, v: int): (r: seq<int>)
    requires 0 <= v < |bins|
    ensures |r| == |bins| && r[v] == bins[v] + 1
    ensures forall u | 0 <= u < |bins| && u != v :: r[u] == bins[u]
  {
    bins[v := bins[v] + 1]
  }

  /** The bins after the first `n` pixels have each added their channel `c`. */
  function Tally(img: Image, c: nat, n: nat): (bins: seq<int>)
    requires Valid(img) && c < 4 && n <= img.width * img.height
    ensures |bins| == 256
    decreases n
  {
    if n == 0 then Zeros(256) else Bump(Tally(img, c, n - 1), At(img, n - 1, c))
  }

  /** The bins after the first `n` pixels have each added red, green and blue. */
  function RgbTally(img: Image, n: nat): (bins: seq<int>)
    requires Valid(img) && n <= img.width * img.height
    ensures |bins| == 256
    decreases n
  {
    if n == 0 then Zeros(256)
    else
      var i := n - 1;
      Bump(Bump(Bump(RgbTally(img, i), At(img, i, 0)), At(img, i, 1)), At(img, i, 2))
  }

  /** The histogram of `calculateHistogram`. */
  function Histogram(img: Image, ch: Channel): (bins: seq<int>)
    requires Valid(img)
    ensures |bins| == 256
  {
    var n := img.width * img.height;
    if ch == Rgb then RgbTally(img, n) else Tally(img, ChannelOffset(ch), n)
  }

  /** `calculateHistogram`: one pass over the pixels, counting into 256 bins. */
  method CalculateHistogram(img: Image, ch: Channel) returns (bins: seq<int>)
    requires Valid(img)
    ensures bins == Histogram(img, ch)
  {
    var n := img.width * img.height;
    bins := Zeros(256);
    var i := 0;
    if ch == Rgb {
      while i < n
        invariant 0 <= i <= n
        invariant bins == RgbTally(img, i)
      {
        bins := Bump(bins, At(img, i, 0));
        bins := Bump(bins, At(img, i, 1));
        bins := Bump(bins, At(img, i, 2));
        i := i + 1;
      }
    } else {
      var offset := ChannelOffset(ch);
      while i < n
        invariant 0 <= i <= n
        invariant bins == Tally(img, offset, i)
      {
        bins := Bump(bins, At(img, i, offset));
        i := i + 1;
      }
    }
  }

  /** How many of the first `n` pixels have value `v` in channel `c`. */
  function Count(img: Image, c: nat, v: int, n: nat): (k: nat)
    requires Valid(img) && c < 4 && n <= img.width * img.height
    ensures k <= n
  {
    if n == 0 then 0 else Count(img, c, v, n - 1) + (if At(img, n - 1, c) == v then 1 else 0)
  }

  /** Bin `v` of a single-channel histogram counts the pixels whose channel
      holds `v`. */
  lemma {:induction false} TallyCounts(img: Image, c: nat, n: nat, v: nat)
    requires Valid(img) && c < 4 && n <= img.width * img.height && v < 256
    ensures Tally(img, c, n)[v] == Count(img, c, v, n)
  {
    if n > 0 {
      TallyCounts(img, c, n - 1, v);
    }
  }

  /** The `rgb` histogram is the bin-by-bin sum of the red, green and blue
      histograms. */
  lemma {:induction false} RgbTallyIsSum(img: Image, n: nat, v: nat)
    requires Valid(img) && n <= img.width * img.height && v < 256
    ensures RgbTally(img, n)[v] == Tally(img, 0, n)[v] + Tally(img, 1, n)[v] + Tally(img, 2, n)[v]
  {
    if n > 0 {
      RgbTallyIsSum(img, n - 1, v);
    }
  }

  function Sum(s: seq<int>): int {
    if |s| == 0 then 0 else Sum(s[..|s| - 1]) + s[|s| - 1]
  }

  lemma {:induction false} SumZeros(n: nat)
    ensures Sum(Zeros(n)) == 0
  {
    if n > 0 {
      assert Zeros(n)[..n - 1] == Zeros(n - 1);
      SumZeros(n - 1);
    }
  }

  lemma {:induction false} SumBump(s: seq<int>, v: int)
    requires 0 <= v < |s|
    ensures Sum(Bump(s, v)) == Sum(s) + 1
    decreases |s|
  {
    var r := Bump(s, v);
    var last := |s| - 1;
    if v == last {
      assert r[..last] == s[..last];
    } else {
      assert r[..last] == Bump(s[..last], v);
      SumBump(s[..last], v);
    }
  }

  /** A single-channel histogram counts every pixel once... */
  lemma {:induction false} TallyTotal(img: Image, c: nat, n: nat)
    requires Valid(img) && c < 4 && n <= img.width * img.height
    ensures Sum(Tally(img, c, n)) == n
  {
    if n == 0 {
      SumZeros(256);
    } else {
      TallyTotal(img, c, n - 1);
      SumBump(Tally(img, c, n - 1), At(img, n - 1, c));
    }
  }

  /** ...and the `rgb` histogram three times. */
  lemma {:induction false} RgbTallyTotal(img: Image, n: nat)
    requires Valid(img) && n <= img.width * img.height
    ensures Sum(RgbTally(img, n)) == 3 * n
  {
    if n == 0 {
      SumZeros(256);
    } else {
      var i := n - 1;
      RgbTallyTotal(img, i);
      var b0 := RgbTally(img, i);
      var b1 := Bump(b0, At(img, i, 0));
      var b2 := Bump(b1, At(img, i, 1));
      SumBump(b0, At(img, i, 0));
      SumBump(b1, At(img, i, 1));
      SumBump(b2, At(img, i, 2));
    }
  }

  lemma HistogramTotal(img: Image, ch: Channel)
    requires Valid(img)
    ensures Sum(Histogram(img, ch)) == (if ch == Rgb then 3 else 1) * (img.width * img.height)
  {
    if ch == Rgb {
      RgbTallyTotal(img, img.width * img.height);
    } else {
      TallyTotal(img, ChannelOffset(ch), img.width * img.height);
    }
  }

  /** The histograms drawn behind the curve: none without pixel data, the
      red, green and blue ones for `rgb`, otherwise the channel's own. */
  function Histograms(pixels: Option<Image>, ch: Channel): (hs: seq<seq<int>>)
    requires pixels.Some? ==> Valid(pixels.value)
    ensures pixels.None? ==> hs == []
    ensures pixels.Some? && ch == Rgb ==>
              hs == [Histogram(pixels.value, Red), Histogram(pixels.value, Green), Histogram(pixels.value, Blue)]
    ensures pixels.Some? && ch != Rgb ==> hs == [Histogram(pixels.value, ch)]
  {
    match pixels
    case None => []
    case Some(img) =>
      if ch == Rgb then [Histogram(img, Red), Histogram(img, Green), Histogram(img, Blue)]
      else [Histogram(img, ch)]
  }

  // ---------------------------------------------------------------------------
  // Lookup table

  /** The two control points `(x0, y0)` and `(x1, y1)`. */
  datatype Curves = Curves(x0: real, y0: real, x1: real, y1: real)

  /** The number inputs clamp every coordinate to [0, 255]. */
  predicate InRange(p: Curves) {
    0.0 <= p.x0 <= 255.0 && 0.0 <= p.y0 <= 255.0 && 0.0 <= p.x1 <= 255.0 && 0.0 <= p.y1 <= 255.0
  }

  /** `Math.min(255, Math.max(0, Number(text)))` for a numeric entry. */
  function ControlInput(v: real): (r: real)
    ensures 0.0 <= r <= 255.0
    ensures 0.0 <= v <= 255.0 ==> r == v
  {
    ClampReal(0.0, 255.0, v)
  }

  /** The curve the dialog starts from, and that reset restores: the diagonal. */
  function Neutral(): (p: Curves)
    ensures InRange(p)
  {
    Curves(0.0, 0.0, 255.0, 255.0)
  }

  /** The control points on opening: the layer's saved curve, or the diagonal. */
  function OpeningCurves(saved: Option<Curves>): (p: Curves)
    ensures saved.None? ==> p == Neutral()
    ensures saved.Some? ==> p == saved.value
  {
    match saved
    case None => Neutral()
    case Some(q) => q
  }

  /** The curve at input `i` before rounding: a line from `(0, 0)` to
      `(x0, y0)`, from `(x0, y0)` to `(x1, y1)`, and from `(x1, y1)` to
      `(255, 255)`. The first piece divides 0 by 0 when `x0 = 0`. */
  function Segment(p: Curves, i: nat): (v: Num)
    requires InRange(p) && i <= 255
    ensures v.NaN? <==> p.x0 == 0.0 && i == 0
  {
    var t := i as real;
    if t <= p.x0 then Times(Div(t, p.x0), p.y0)
    else if t <= p.x1 then Finite(Line(t, p.x0, p.y0, p.x1, p.y1))
    else Finite(Line(t, p.x1, p.y1, 255.0, 255.0))
  }

  /** `ya + ((t - xa) * (yb - ya)) / (xb - xa)`: the line through `(xa, ya)`
      and `(xb, yb)` at `t`. */
  function Line(t: real, xa: real, ya: real, xb: real, yb: real): real
    requires xa < xb
  {
    ya + ((t - xa) * (yb - ya)) / (xb - xa)
  }

  lemma LineEnds(xa: real, ya: real, xb: real, yb: real)
    requires xa < xb
    ensures Line(xa, xa, ya, xb, yb) == ya
    ensures Line(xb, xa, ya, xb, yb) == yb
  {
    var d := xb - xa;
    CancelFactor(d, yb - ya);
  }

  lemma CancelFactor(d: real, c: real)
    requires d != 0.0
    ensures (d * c) / d == c
  {
  }

  /** Between its ends a rising line stays between their heights, and it
      rises with `t`. */
  lemma LineBetween(t: real, u: real, xa: real, ya: real, xb: real, yb: real)
    requires xa < xb && ya <= yb
    requires xa <= t <= u <= xb
    ensures ya <= Line(t, xa, ya, xb, yb) <= Line(u, xa, ya, xb, yb) <= yb
  {
    var d, h := xb - xa, yb - ya;
    ScaledMono(0.0, t - xa, h, d);
    ScaledMono(t - xa, u - xa, h, d);
    ScaledMono(u - xa, d, h, d);
    CancelFactor(d, h);
    assert 0.0 * h / d == 0.0;
    assert Line(t, xa, ya, xb, yb) == ya + (t - xa) * h / d;
    assert Line(u, xa, ya, xb, yb) == ya + (u - xa) * h / d;
  }

  /** The first piece, `(t / x0) * y0` for `0 < t <= x0`, in the same terms. */
  lemma FirstPiece(t: real, x0: real, y0: real)
    requires 0.0 < x0 && 0.0 <= t <= x0 && 0.0 <= y0
    ensures (t / x0) * y0 == Line(t, 0.0, 0.0, x0, y0)
  {
  }

  /** Entry `i` of the table: `Math.round` of the curve stored into a
      `Uint8ClampedArray`, then `Math.min(255, Math.max(0, ...))`. */
  function LutEntry(p: Curves, i: nat): (r: int)
    requires InRange(p) && i <= 255
    ensures IsByte(r)
    ensures Segment(p, i).NaN? ==> r == 0
    ensures Segment(p, i).Finite? ==> r == ClampInt(0, 255, RoundHalfUp(Segment(p, i).value))
  {
    var n := Round(Segment(p, i));
    ClampInt(0, 255, ToUint8Clamp(n))
  }

  /** `buildLUT`. */
  function BuildLut(p: Curves): (lut: seq<int>)
    requires InRange(p)
    ensures IsLut(lut)
    ensures forall i | 0 <= i < 256 :: lut[i] == LutEntry(p, i)
  {
    seq(256, i requires 0 <= i < 256 => LutEntry(p, i))
  }

  /** A table of 256 byte values, as a `Uint8ClampedArray(256)` holds. */
  predicate IsLut(lut: seq<int>) {
    |lut| == 256 && forall v | 0 <= v < 256 :: IsByte(lut[v])
  }

  /** The diagonal curve gives the identity table. */
  lemma NeutralLutIsIdentity()
    ensures forall i | 0 <= i < 256 :: BuildLut(Neutral())[i] == i
  {
    var p := Neutral();
    forall i | 0 <= i < 256
      ensures LutEntry(p, i) == i
    {
      if i > 0 {
        assert Segment(p, i).value == i as real;
      }
    }
  }

  /** With `x0 = 0` the first entry is the stored NaN, that is 0. */
  lemma FirstEntryWithZeroX0(p: Curves)
    requires InRange(p) && p.x0 == 0.0
    ensures BuildLut(p)[0] == 0
  {
  }

  /** With whole-number control points the table passes through them, and
      through `(255, 255)` once both points lie left of 255. */
  lemma LutThroughControlPoints(x0: nat, y0: nat, x1: nat, y1: nat)
    requires x0 <= 255 && y0 <= 255 && x1 <= 255 && y1 <= 255
    ensures var p := Curves(x0 as real, y0 as real, x1 as real, y1 as real);
      && (x0 > 0 ==> BuildLut(p)[x0] == y0)
      && (x1 > x0 ==> BuildLut(p)[x1] == y1)
      && (x0 < 255 && x1 < 255 ==> BuildLut(p)[255] == 255)
  {
    var p := Curves(x0 as real, y0 as real, x1 as real, y1 as real);
    if x0 > 0 {
      FirstPiece(x0 as real, x0 as real, y0 as real);
      LineEnds(0.0, 0.0, x0 as real, y0 as real);
      assert Segment(p, x0).value == y0 as real;
    }
    if x1 > x0 {
      LineEnds(p.x0, p.y0, p.x1, p.y1);
      assert Segment(p, x1).value == y1 as real;
    }
    if x0 < 255 && x1 < 255 {
      LineEnds(p.x1, p.y1, 255.0, 255.0);
      assert Segment(p, 255).value == 255.0;
    }
  }

  /** The curve with the NaN read as 0, as the store into the table reads it. */
  function CurveValue(p: Curves, i: nat): real
    requires InRange(p) && i <= 255
  {
    OrZero(Segment(p, i))
  }

  lemma LutEntryOfCurveValue(p: Curves, i: nat)
    requires InRange(p) && i <= 255
    ensures LutEntry(p, i) == ClampInt(0, 255, RoundHalfUp(CurveValue(p, i)))
  {
  }

  /** `a * c / d` grows with `a` when `c >= 0` and `d > 0`. */
  lemma ScaledMono(a: real, b: real, c: real, d: real)
    requires a <= b && c >= 0.0 && d > 0.0
    ensures a * c / d <= b * c / d
  {
    assert (b - a) * c >= 0.0;
    assert b * c - a * c == (b - a) * c;
    assert b * c / d - a * c / d == (b * c - a * c) / d;
  }

  /** Where each piece of a rising curve lies: the first below `y0`, the
      middle between `y0` and `y1`, the last above `y1`; and each piece rises. */
  lemma CurveValueBounds(p: Curves, i: nat)
    requires InRange(p) && i <= 255
    requires p.y0 <= p.y1
    ensures var t, v := i as real, CurveValue(p, i);
      && (t <= p.x0 ==> 0.0 <= v <= p.y0)
      && (p.x0 < t <= p.x1 ==> p.y0 <= v <= p.y1)
      && (p.x1 < t && p.x0 < t ==> p.y1 <= v <= 255.0)
  {
    var t := i as real;
    if t <= p.x0 {
      if p.x0 > 0.0 {
        FirstPiece(t, p.x0, p.y0);
        LineBetween(t, t, 0.0, 0.0, p.x0, p.y0);
      }
    } else if t <= p.x1 {
      LineBetween(t, t, p.x0, p.y0, p.x1, p.y1);
    } else {
      LineBetween(t, t, p.x1, p.y1, 255.0, 255.0);
    }
  }

  /** A curve whose control points rise from left to right gives a
      non-decreasing table. */
  lemma CurveValueMono(p: Curves, i: nat, j: nat)
    requires InRange(p) && i <= j <= 255
    requires p.x0 <= p.x1 && p.y0 <= p.y1
    ensures CurveValue(p, i) <= CurveValue(p, j)
  {
    var s, t := i as real, j as real;
    CurveValueBounds(p, i);
    CurveValueBounds(p, j);
    if t <= p.x0 {
      if p.x0 > 0.0 {
        FirstPiece(s, p.x0, p.y0);
        FirstPiece(t, p.x0, p.y0);
        LineBetween(s, t, 0.0, 0.0, p.x0, p.y0);
      }
    } else if s > p.x0 && t <= p.x1 {
      LineBetween(s, t, p.x0, p.y0, p.x1, p.y1);
    } else if s > p.x1 {
      LineBetween(s, t, p.x1, p.y1, 255.0, 255.0);
    }
  }

  lemma RoundMono(a: real, b: real)
    requires a <= b
    ensures RoundHalfUp(a) <= RoundHalfUp(b)
  {
  }

  lemma LutMonotone(p: Curves, i: nat, j: nat)
    requires InRange(p) && i <= j <= 255
    requires p.x0 <= p.x1 && p.y0 <= p.y1
    ensures BuildLut(p)[i] <= BuildLut(p)[j]
  {
    CurveValueMono(p, i, j);
    LutEntryOfCurveValue(p, i);
    LutEntryOfCurveValue(p, j);
    RoundMono(CurveValue(p, i), CurveValue(p, j));
  }

  // ---------------------------------------------------------------------------
  // Applying a table

  /** The buffer with every affected channel `v` replaced by `lut[v]`. */
  function Remap(img: Image, lut: seq<int>, ch: Channel): (out: Image)
    requires Valid(img) && IsLut(lut)
    ensures Valid(out) && out.width == img.width && out.height == img.height
    ensures forall k | 0 <= k < |img.data| ::
              out.data[k] == if Affects(ch, k % 4) then lut[img.data[k]] else img.data[k]
  {
    img.(data := seq(|img.data|, k requires 0 <= k < |img.data| =>
                       if Affects(ch, k % 4) then lut[img.data[k]] else img.data[k]))
  }

  /** The buffer once the first `i` samples have been visited. */
  function Partial(img: Image, lut: seq<int>, ch: Channel, i: nat): (data: seq<int>)
    requires Valid(img) && IsLut(lut)
    ensures |data| == |img.data|
  {
    seq(|img.data|, k requires 0 <= k < |img.data| =>
          if k < i && Affects(ch, k % 4) then lut[img.data[k]] else img.data[k])
  }

  /** One turn of the loop for `Rgb`: the red, green and blue samples of the
      pixel at `i` go through the table. */
  lemma PartialStepRgb(img: Image, lut: seq<int>, i: nat)
    requires Valid(img) && IsLut(lut)
    requires i % 4 == 0 && i + 4 <= |img.data|
    ensures var d := Partial(img, lut, Rgb, i);
      Partial(img, lut, Rgb, i + 4)
      == d[i := lut[img.data[i]]][i + 1 := lut[img.data[i + 1]]][i + 2 := lut[img.data[i + 2]]]
  {
    var d, e := Partial(img, lut, Rgb, i), Partial(img, lut, Rgb, i + 4);
    var f := d[i := lut[img.data[i]]][i + 1 := lut[img.data[i + 1]]][i + 2 := lut[img.data[i + 2]]];
    forall k | 0 <= k < |e|
      ensures e[k] == f[k]
    {
      if i <= k < i + 4 {
        assert k % 4 == k - i;
      }
    }
  }

  /** One turn of the loop for a single channel: only its sample of the pixel
      at `i` goes through the table. */
  lemma PartialStepOne(img: Image, lut: seq<int>, ch: Channel, i: nat)
    requires Valid(img) && IsLut(lut) && ch != Rgb
    requires i % 4 == 0 && i + 4 <= |img.data|
    ensures var d := Partial(img, lut, ch, i);
      Partial(img, lut, ch, i + 4) == d[i + ChannelOffset(ch) := lut[img.data[i + ChannelOffset(ch)]]]
  {
    var o := ChannelOffset(ch);
    var d, e := Partial(img, lut, ch, i), Partial(img, lut, ch, i + 4);
    forall k | 0 <= k < |e|
      ensures e[k] == d[i + o := lut[img.data[i + o]]][k]
    {
      if i <= k < i + 4 {
        assert k % 4 == k - i;
      }
    }
  }

  /** Once every sample has been visited the buffer is the remapped one. */
  lemma PartialDone(img: Image, lut: seq<int>, ch: Channel)
    requires Valid(img) && IsLut(lut)
    ensures Partial(img, lut, ch, |img.data|) == Remap(img, lut, ch).data
  {
  }

  /** `applyLUT`: a pass over the buffer four samples at a time. */
  method ApplyLut(img: Image, lut: seq<int>, ch: Channel) returns (out: Image)
    requires Valid(img) && IsLut(lut)
    ensures out == Remap(img, lut, ch)
  {
    var data := img.data;
    var i := 0;
    assert data == Partial(img, lut, ch, 0);
    while i < |data|
      invariant |data| == |img.data| && i % 4 == 0 && 0 <= i <= |data|
      invariant data == Partial(img, lut, ch, i)
    {
      if ch == Rgb {
        PartialStepRgb(img, lut, i);
        data := data[i := lut[data[i]]];
        data := data[i + 1 := lut[data[i + 1]]];
        data := data[i + 2 := lut[data[i + 2]]];
      } else {
        PartialStepOne(img, lut, ch, i);
        var offset := ChannelOffset(ch);
        data := data[i + offset := lut[data[i + offset]]];
      }
      i := i + 4;
    }
    PartialDone(img, lut, ch);
    out := img.(data := data);
  }

  /** Per pixel: affected channels go through the table, the others stay. */
  lemma RemapSample(img: Image, lut: seq<int>, ch: Channel, x: nat, y: nat, c: nat)
    requires Valid(img) && IsLut(lut)
    requires x < img.width && y < img.height && c < 4
    ensures Affects(ch, c) ==> Sample(Remap(img, lut, ch), x, y, c) == lut[Sample(img, x, y, c)]
    ensures !Affects(ch, c) ==> Sample(Remap(img, lut, ch), x, y, c) == Sample(img, x, y, c)
  {
    OffsetBound(img.width, img.height, x, y, c);
    OffsetInverse(img.width, x, y, c);
  }

  /** The identity table leaves the buffer unchanged. */
  lemma RemapIdentity(img: Image, lut: seq<int>, ch: Channel)
    requires Valid(img) && IsLut(lut)
    requires forall v | 0 <= v < 256 :: lut[v] == v
    ensures Remap(img, lut, ch) == img
  {
    var out := Remap(img, lut, ch);
    assert out.data == img.data;
  }

  /** Remapping twice is remapping once through the composed table. */
  lemma RemapCompose(img: Image, first: seq<int>, second: seq<int>, ch: Channel)
    requires Valid(img) && IsLut(first) && IsLut(second)
    ensures var composed := seq(256, v requires 0 <= v < 256 => second[first[v]]);
      IsLut(composed) && Remap(Remap(img, first, ch), second, ch) == Remap(img, composed, ch)
  {
    var composed := seq(256, v requires 0 <= v < 256 => second[first[v]]);
    assert Remap(Remap(img, first, ch), second, ch).data == Remap(img, composed, ch).data;
  }

  /** The diagonal curve changes nothing, on any channel. */
  lemma NeutralCurveChangesNothing(img: Image, ch: Channel)
    requires Valid(img)
    ensures Remap(img, BuildLut(Neutral()), ch) == img
  {
    NeutralLutIsIdentity();
    RemapIdentity(img, BuildLut(Neutral()), ch);
  }

  // ---------------------------------------------------------------------------
  // Preview and apply

  /** The preview effect: nothing unless the preview box is ticked and the
      layer has pixel data; otherwise a remapped copy of those pixels. */
  function Preview(preview: bool, pixels: Option<Image>, p: Curves, ch: Channel): (r: Option<Image>)
    requires InRange(p) && (pixels.Some? ==> Valid(pixels.value))
    ensures r.Some? <==> preview && pixels.Some?
    ensures r.Some? ==> r.value == Remap(pixels.value, BuildLut(p), ch)
  {
    if preview && pixels.Some? then Some(Remap(pixels.value, BuildLut(p), ch)) else None
  }

  /** `handleApply`: without pixel data only the alert is shown; otherwise the
      caller receives a remapped copy of the pixels and the control points. */
  function ApplyCurves(pixels: Option<Image>, p: Curves, ch: Channel): (r: Option<(Image, Curves)>)
    requires InRange(p) && (pixels.Some? ==> Valid(pixels.value))
    ensures r.None? <==> pixels.None?
    ensures r.Some? ==> r.value.0 == Remap(pixels.value, BuildLut(p), ch) && r.value.1 == p
  {
    match pixels
    case None => None
    case Some(img) => Some((Remap(img, BuildLut(p), ch), p))
  }

  /** Applying the diagonal hands back the layer's pixels exactly. */
  lemma ApplyNeutral(img: Image, ch: Channel)
    requires Valid(img)
    ensures ApplyCurves(Some(img), Neutral(), ch) == Some((img, Neutral()))
  {
    NeutralCurveChangesNothing(img, ch);
  }

}
