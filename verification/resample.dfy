/** Resizing a pixel buffer to `dstW` by `dstH`: nearest-neighbour with
    integer index arithmetic, and bilinear with real-valued weights and
    neighbour reads clamped to the source. */
module Resample {
  import opened JsNumber
  import opened Raster

  // ---------------------------------------------------------------------------
  // Nearest neighbour

  /** `Math.floor((d * srcDim) / dstDim)`: the source row or column that
      destination row or column `d` copies. */
  function NearestIndex(d: nat, srcDim: nat, dstDim: nat): (s: nat)
    requires srcDim >= 1 && d < dstDim
    ensures s < srcDim
    ensures s * dstDim <= d * srcDim < (s + 1) * dstDim
  {
    FloorBracket(d * srcDim, dstDim);
    NearestIndexInRange(d, srcDim, dstDim);
    (d * srcDim) / dstDim
  }

  lemma FloorBracket(a: nat, b: nat)
    requires b >= 1
    ensures (a / b) * b <= a < (a / b + 1) * b
  {
    assert a == (a / b) * b + a % b;
  }

  lemma NearestIndexInRange(d: nat, srcDim: nat, dstDim: nat)
    requires srcDim >= 1 && d < dstDim
    ensures (d * srcDim) / dstDim < srcDim
  {
    var s := (d * srcDim) / dstDim;
    FloorBracket(d * srcDim, dstDim);
    if s >= srcDim {
      MulMono(srcDim, s, dstDim);
      MulMono(d, dstDim, srcDim);
      assert false;
    }
  }

  /** Every destination pixel copies all four channels of one source pixel. */
  function NearestNeighbor(src: Image, dstW: nat, dstH: nat): (dst: Image)
    requires Valid(src)
    requires dstW >= 1 && dstH >= 1
    ensures Valid(dst) && dst.width == dstW && dst.height == dstH
    ensures forall x: nat, y: nat, c: nat | x < dstW && y < dstH && c < 4 ::
              Sample(dst, x, y, c)
              == Sample(src, NearestIndex(x, src.width, dstW), NearestIndex(y, src.height, dstH), c)
  {
    Generate(dstW, dstH, (x: nat, y: nat, c: nat) requires x < dstW && y < dstH && c < 4 =>
      Sample(src, NearestIndex(x, src.width, dstW), NearestIndex(y, src.height, dstH), c))
  }

  /** With the source's own dimensions the index map is the identity. */
  lemma NearestIndexSameSize(d: nat, n: nat)
    requires d < n
    ensures NearestIndex(d, n, n) == d
  {
    DivUnique(d * n, n, d);
  }

  /** Doubling a dimension maps `d` to `d / 2`. */
  lemma NearestIndexDouble(d: nat, n: nat)
    requires n >= 1 && d < 2 * n
    ensures NearestIndex(d, n, 2 * n) == d / 2
  {
    var q := d / 2;
    assert 2 * q <= d < 2 * q + 2;
    MulMono(2 * q, d, n);
    MulMono(d + 1, 2 * q + 2, n);
    assert q * (2 * n) == (2 * q) * n;
    assert (q + 1) * (2 * n) == (2 * q + 2) * n;
    DivUnique(d * n, 2 * n, q);
  }

  /** Resampling to the source's own size changes nothing. */
  lemma NearestNeighborIdentity(src: Image)
    requires Valid(src)
    ensures NearestNeighbor(src, src.width, src.height) == src
  {
    var dst := NearestNeighbor(src, src.width, src.height);
    forall x: nat, y: nat, c: nat | x < src.width && y < src.height && c < 4
      ensures Sample(dst, x, y, c) == Sample(src, x, y, c)
    {
      NearestIndexSameSize(x, src.width);
      NearestIndexSameSize(y, src.height);
    }
    SamplesDetermineImage(dst, src);
  }

  /** A 2x upscale replicates every source pixel into a 2x2 block. */
  lemma NearestNeighborDouble(src: Image)
    requires Valid(src)
    ensures var dst := NearestNeighbor(src, 2 * src.width, 2 * src.height);
      forall x: nat, y: nat, c: nat | x < 2 * src.width && y < 2 * src.height && c < 4 ::
        Sample(dst, x, y, c) == Sample(src, x / 2, y / 2, c)
  {
    var dst := NearestNeighbor(src, 2 * src.width, 2 * src.height);
    forall x: nat, y: nat, c: nat | x < 2 * src.width && y < 2 * src.height && c < 4
      ensures Sample(dst, x, y, c) == Sample(src, x / 2, y / 2, c)
    {
      NearestIndexDouble(x, src.width);
      NearestIndexDouble(y, src.height);
    }
  }

  // ---------------------------------------------------------------------------
  // Bilinear

  /** `((d * (srcDim - 1)) / (dstDim - 1)) || 0`: the continuous source
      coordinate of destination row or column `d`; a destination dimension of
      1 divides 0 by 0 and the NaN falls back to 0. */
  function SourceCoord(d: nat, srcDim: nat, dstDim: nat): (f: real)
    requires srcDim >= 1 && d < dstDim
    ensures 0.0 <= f <= (srcDim - 1) as real
    ensures dstDim == 1 ==> f == 0.0
    ensures d == 0 ==> f == 0.0
    ensures dstDim > 1 ==> f * (dstDim - 1) as real == (d * (srcDim - 1)) as real
  {
    var f := OrZero(Div((d * (srcDim - 1)) as real, (dstDim - 1) as real));
    SourceCoordInRange(d, srcDim, dstDim, f);
    f
  }

  lemma SourceCoordInRange(d: nat, srcDim: nat, dstDim: nat, f: real)
    requires srcDim >= 1 && d < dstDim
    requires f == OrZero(Div((d * (srcDim - 1)) as real, (dstDim - 1) as real))
    ensures 0.0 <= f <= (srcDim - 1) as real
  {
    if dstDim > 1 {
      MulMono(d, dstDim - 1, srcDim - 1);
      assert f * (dstDim - 1) as real == (d * (srcDim - 1)) as real;
      assert (d * (srcDim - 1)) as real <= ((dstDim - 1) * (srcDim - 1)) as real;
      var n := (dstDim - 1) as real;
      if f > (srcDim - 1) as real {
        ScaleStrict(f - (srcDim - 1) as real, n);
        assert false;
      }
      if f < 0.0 {
        ScaleStrict(-f, n);
        assert false;
      }
    }
  }

  /** `a * (1 - t) + b * t`. */
  function Lerp(a: real, b: real, t: real): (v: real)
    requires 0.0 <= t <= 1.0
    ensures (if a <= b then a else b) <= v <= (if a <= b then b else a)
    ensures t == 0.0 ==> v == a
    ensures a == b ==> v == a
  {
    LerpBetween(a, b, t);
    a * (1.0 - t) + b * t
  }

  lemma LerpBetween(a: real, b: real, t: real)
    requires 0.0 <= t <= 1.0
    ensures (if a <= b then a else b) <= a * (1.0 - t) + b * t <= (if a <= b then b else a)
  {
    var v := a * (1.0 - t) + b * t;
    if a <= b {
      ScaleFraction(b - a, t);
      assert v == a + (b - a) * t;
      ScaleFraction(b - a, 1.0 - t);
      assert v == b - (b - a) * (1.0 - t);
    } else {
      ScaleFraction(a - b, t);
      assert v == a - (a - b) * t;
      ScaleFraction(a - b, 1.0 - t);
      assert v == b + (a - b) * (1.0 - t);
    }
  }

  lemma ScaleFraction(d: real, t: real)
    requires d >= 0.0 && 0.0 <= t <= 1.0
    ensures 0.0 <= d * t <= d
  {
    assert d * (1.0 - t) >= 0.0;
  }

  lemma ScaleStrict(d: real, n: real)
    requires d > 0.0 && n > 0.0
    ensures d * n > 0.0
  {
  }

  /** The inner `getPixel`: channel `c` at `(x, y)` with both coordinates
      clamped into the source. */
  function GetPixel(src: Image, x: int, y: int, c: nat): (v: int)
    requires Valid(src) && c < 4
    ensures IsByte(v)
    ensures 0 <= x < src.width && 0 <= y < src.height ==> v == Sample(src, x, y, c)
  {
    Sample(src, ClampCoord(x, src.width), ClampCoord(y, src.height), c)
  }

  function Min4(a: int, b: int, c: int, d: int): int {
    var m := if a <= b then a else b;
    var n := if c <= d then c else d;
    if m <= n then m else n
  }

  function Max4(a: int, b: int, c: int, d: int): int {
    var m := if a <= b then b else a;
    var n := if c <= d then d else c;
    if m <= n then n else m
  }

  /** The blend of the four neighbours of `(fx, fy)` before it is stored. */
  function Blend(src: Image, fx: real, fy: real, c: nat): (v: real)
    requires Valid(src) && c < 4
    requires 0.0 <= fx && 0.0 <= fy
    ensures var sx, sy := fx.Floor, fy.Floor;
      var p00, p10 := GetPixel(src, sx, sy, c), GetPixel(src, sx + 1, sy, c);
      var p01, p11 := GetPixel(src, sx, sy + 1, c), GetPixel(src, sx + 1, sy + 1, c);
      Min4(p00, p10, p01, p11) as real <= v <= Max4(p00, p10, p01, p11) as real
  {
    var sx, sy := fx.Floor, fy.Floor;
    var dx, dy := fx - sx as real, fy - sy as real;
    var top := Lerp(GetPixel(src, sx, sy, c) as real, GetPixel(src, sx + 1, sy, c) as real, dx);
    var bottom := Lerp(GetPixel(src, sx, sy + 1, c) as real, GetPixel(src, sx + 1, sy + 1, c) as real, dx);
    Lerp(top, bottom, dy)
  }

  /** The four clamped neighbours blended for destination pixel `(x, y)`. */
  function Neighbours(src: Image, dstW: nat, dstH: nat, x: nat, y: nat, c: nat): (n: (int, int, int, int))
    requires Valid(src)
    requires x < dstW && y < dstH && c < 4
  {
    var sx := SourceCoord(x, src.width, dstW).Floor;
    var sy := SourceCoord(y, src.height, dstH).Floor;
    (GetPixel(src, sx, sy, c), GetPixel(src, sx + 1, sy, c),
     GetPixel(src, sx, sy + 1, c), GetPixel(src, sx + 1, sy + 1, c))
  }

  /** Channel `c` of bilinear output pixel `(x, y)`, as the `Uint8ClampedArray`
      stores the blend: it lies between the smallest and the largest of the
      four neighbours. */
  function BilinearSample(src: Image, dstW: nat, dstH: nat, x: nat, y: nat, c: nat): (v: int)
    requires Valid(src)
    requires x < dstW && y < dstH && c < 4
    ensures IsByte(v)
    ensures var n := Neighbours(src, dstW, dstH, x, y, c);
      Min4(n.0, n.1, n.2, n.3) <= v <= Max4(n.0, n.1, n.2, n.3)
  {
    var fx, fy := SourceCoord(x, src.width, dstW), SourceCoord(y, src.height, dstH);
    var n := Neighbours(src, dstW, dstH, x, y, c);
    StoreBetween(Blend(src, fx, fy, c), Min4(n.0, n.1, n.2, n.3), Max4(n.0, n.1, n.2, n.3));
    ToUint8Clamp(Finite(Blend(src, fx, fy, c)))
  }

  function Bilinear(src: Image, dstW: nat, dstH: nat): (dst: Image)
    requires Valid(src)
    requires dstW >= 1 && dstH >= 1
    ensures Valid(dst) && dst.width == dstW && dst.height == dstH
    ensures forall x: nat, y: nat, c: nat | x < dstW && y < dstH && c < 4 ::
              Sample(dst, x, y, c) == BilinearSample(src, dstW, dstH, x, y, c)
  {
    Generate(dstW, dstH, (x: nat, y: nat, c: nat) requires x < dstW && y < dstH && c < 4 =>
      BilinearSample(src, dstW, dstH, x, y, c))
  }

  /** Every bilinear output channel lies between the smallest and the largest
      of the four clamped neighbours it blends, so no sample overshoots. */
  lemma BilinearBetweenNeighbours(src: Image, dstW: nat, dstH: nat, x: nat, y: nat, c: nat)
    requires Valid(src)
    requires dstW >= 1 && dstH >= 1 && x < dstW && y < dstH && c < 4
    ensures var n := Neighbours(src, dstW, dstH, x, y, c);
      Min4(n.0, n.1, n.2, n.3) <= Sample(Bilinear(src, dstW, dstH), x, y, c) <= Max4(n.0, n.1, n.2, n.3)
  {
  }

  /** With equal source and destination dimensions every destination
      coordinate maps exactly onto its own source coordinate. */
  lemma SourceCoordSameSize(d: nat, n: nat)
    requires d < n
    ensures SourceCoord(d, n, n) == d as real
  {
    var f := SourceCoord(d, n, n);
    if n > 1 {
      var m := (n - 1) as real;
      assert f * m == d as real * m;
      if f != d as real {
        if f > d as real {
          ScaleStrict(f - d as real, m);
        } else {
          ScaleStrict(d as real - f, m);
        }
        assert false;
      }
    }
  }

  /** The last destination row or column maps onto the last source one. */
  lemma SourceCoordLast(srcDim: nat, dstDim: nat)
    requires srcDim >= 1 && dstDim > 1
    ensures SourceCoord(dstDim - 1, srcDim, dstDim) == (srcDim - 1) as real
  {
    var f := SourceCoord(dstDim - 1, srcDim, dstDim);
    var m := (dstDim - 1) as real;
    assert f * m == (srcDim - 1) as real * m;
    if f != (srcDim - 1) as real {
      if f > (srcDim - 1) as real {
        ScaleStrict(f - (srcDim - 1) as real, m);
      } else {
        ScaleStrict((srcDim - 1) as real - f, m);
      }
      assert false;
    }
  }

  /** A destination pixel whose source coordinates are whole numbers copies
      that source pixel: the fractional weights are zero. */
  lemma BilinearOnGrid(src: Image, dstW: nat, dstH: nat, x: nat, y: nat, c: nat, sx: nat, sy: nat)
    requires Valid(src)
    requires x < dstW && y < dstH && c < 4
    requires sx < src.width && sy < src.height
    requires SourceCoord(x, src.width, dstW) == sx as real
    requires SourceCoord(y, src.height, dstH) == sy as real
    ensures BilinearSample(src, dstW, dstH, x, y, c) == Sample(src, sx, sy, c)
  {
    var fx, fy := sx as real, sy as real;
    assert fx.Floor == sx && fy.Floor == sy;
    var top := Lerp(GetPixel(src, sx, sy, c) as real, GetPixel(src, sx + 1, sy, c) as real, 0.0);
    assert top == Sample(src, sx, sy, c) as real;
    assert Blend(src, fx, fy, c) == Sample(src, sx, sy, c) as real;
    StoreKeepsByte(Sample(src, sx, sy, c));
  }

  /** Bilinear resampling to the source's own size changes nothing. */
  lemma BilinearIdentity(src: Image)
    requires Valid(src)
    ensures Bilinear(src, src.width, src.height) == src
  {
    var dst := Bilinear(src, src.width, src.height);
    forall x: nat, y: nat, c: nat | x < src.width && y < src.height && c < 4
      ensures Sample(dst, x, y, c) == Sample(src, x, y, c)
    {
      SourceCoordSameSize(x, src.width);
      SourceCoordSameSize(y, src.height);
      BilinearOnGrid(src, src.width, src.height, x, y, c, x, y);
    }
    SamplesDetermineImage(dst, src);
  }

  /** The four corners of the destination reproduce the four corners of the
      source (a destination dimension of 1 keeps only the first row or column). */
  lemma BilinearCorners(src: Image, dstW: nat, dstH: nat, c: nat)
    requires Valid(src)
    requires dstW >= 1 && dstH >= 1 && c < 4
    ensures var dst := Bilinear(src, dstW, dstH);
      && Sample(dst, 0, 0, c) == Sample(src, 0, 0, c)
      && (dstW > 1 ==> Sample(dst, dstW - 1, 0, c) == Sample(src, src.width - 1, 0, c))
      && (dstH > 1 ==> Sample(dst, 0, dstH - 1, c) == Sample(src, 0, src.height - 1, c))
      && (dstW > 1 && dstH > 1 ==>
            Sample(dst, dstW - 1, dstH - 1, c) == Sample(src, src.width - 1, src.height - 1, c))
  {
    if dstW > 1 {
      SourceCoordLast(src.width, dstW);
    }
    if dstH > 1 {
      SourceCoordLast(src.height, dstH);
    }
    BilinearCorner(src, dstW, dstH, c, 0, 0, 0, 0);
    if dstW > 1 {
      BilinearCorner(src, dstW, dstH, c, dstW - 1, 0, src.width - 1, 0);
    }
    if dstH > 1 {
      BilinearCorner(src, dstW, dstH, c, 0, dstH - 1, 0, src.height - 1);
    }
    if dstW > 1 && dstH > 1 {
      BilinearCorner(src, dstW, dstH, c, dstW - 1, dstH - 1, src.width - 1, src.height - 1);
    }
  }

  /** A destination pixel on the source grid, read back through `Sample`. */
  lemma BilinearCorner(src: Image, dstW: nat, dstH: nat, c: nat, x: nat, y: nat, sx: nat, sy: nat)
    requires Valid(src)
    requires x < dstW && y < dstH && c < 4
    requires sx < src.width && sy < src.height
    requires SourceCoord(x, src.width, dstW) == sx as real
    requires SourceCoord(y, src.height, dstH) == sy as real
    ensures Sample(Bilinear(src, dstW, dstH), x, y, c) == Sample(src, sx, sy, c)
  {
    BilinearOnGrid(src, dstW, dstH, x, y, c, sx, sy);
  }

  /** An image whose channel `c` has the same value everywhere keeps that value
      under both resamplers, at any size. */
  lemma UniformChannelSurvives(src: Image, dstW: nat, dstH: nat, c: nat, v: int)
    requires Valid(src) && c < 4
    requires dstW >= 1 && dstH >= 1
    requires forall x: nat, y: nat | x < src.width && y < src.height :: Sample(src, x, y, c) == v
    ensures forall x: nat, y: nat | x < dstW && y < dstH ::
              Sample(Bilinear(src, dstW, dstH), x, y, c) == v
    ensures forall x: nat, y: nat | x < dstW && y < dstH ::
              Sample(NearestNeighbor(src, dstW, dstH), x, y, c) == v
  {
    forall x: nat, y: nat | x < dstW && y < dstH
      ensures Sample(Bilinear(src, dstW, dstH), x, y, c) == v
    {
      var n := Neighbours(src, dstW, dstH, x, y, c);
      assert n.0 == v && n.1 == v && n.2 == v && n.3 == v;
    }
  }

}
