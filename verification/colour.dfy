/** Colour conversions for the colour-info panel: sRGB to CIE XYZ (D65) and on
    to CIELAB and LCh, and the WCAG 2.1 relative luminance and contrast ratio
    with the 4.5:1 threshold of success criterion 1.4.3.

    `Math.pow`, `Math.cbrt`, `Math.sqrt` and `Math.atan2` are parameters
    (`MathLib`); each lemma assumes only the facts about them that it needs. */
module Colour {

  datatype Rgb = Rgb(r: real, g: real, b: real)
  datatype Xyz = Xyz(x: real, y: real, z: real)
  datatype Lab = Lab(l: real, a: real, b: real)
  datatype Lch = Lch(l: real, c: real, h: real)

  /** The transcendental functions of `Math`. */
  datatype MathLib = MathLib(
    pow: (real, real) -> real,
    cbrt: real -> real,
    sqrt: real -> real,
    atan2: (real, real) -> real)

  /** `Math.PI`. */
  const Pi: real := 3.141592653589793

  /** The D65 reference white, scaled so that its Y is 100. */
  const WhiteX: real := 95.047
  const WhiteY: real := 100.0
  const WhiteZ: real := 108.883

  /** `x^2.4` maps [0, 1] into [0, 1] and fixes 1. */
  ghost predicate PowSound(m: MathLib) {
    && m.pow(1.0, 2.4) == 1.0
    && forall x: real :: 0.0 <= x <= 1.0 ==> 0.0 <= m.pow(x, 2.4) <= 1.0
  }

  /** The cube root fixes 1, never decreases, and at the companding threshold
      it is not below the linear piece (the true cube root of 0.008856 is
      about 0.2068931, the linear piece about 0.2068927). */
  ghost predicate CbrtSound(m: MathLib) {
    && m.cbrt(1.0) == 1.0
    && m.cbrt(0.008856) >= 0.008856 * 7.787 + 16.0 / 116.0
    && forall t: real, u: real :: t <= u ==> m.cbrt(t) <= m.cbrt(u)
  }

  ghost predicate SqrtSound(m: MathLib) {
    && m.sqrt(0.0) == 0.0
    && forall v: real :: 0.0 <= v ==> 0.0 <= m.sqrt(v)
  }

  ghost predicate Atan2Sound(m: MathLib) {
    forall y: real, x: real :: -Pi <= m.atan2(y, x) <= Pi
  }

  // ---------------------------------------------------------------------------
  // sRGB to XYZ to Lab

  /** `(v + 0.055) / 1.055`, the argument of the power law, stays in [0, 1]
      for a channel in [0, 1]. */
  lemma PowArgument(v: real)
    ensures 0.0 <= v <= 1.0 ==> 0.0 <= (v + 0.055) / 1.055 <= 1.0
  {
  }

  /** The sRGB transfer function of IEC 61966-2-1 on a channel scaled to
      [0, 1], with the 0.04045 threshold: it fixes 0 and 1 and keeps a
      channel in [0, 1]. */
  function Linearise(m: MathLib, v: real): (r: real)
    ensures v == 0.0 ==> r == 0.0
    ensures PowSound(m) && v == 1.0 ==> r == 1.0
    ensures PowSound(m) && 0.0 <= v <= 1.0 ==> 0.0 <= r <= 1.0
  {
    if v > 0.04045 then PowArgument(v); m.pow((v + 0.055) / 1.055, 2.4) else v / 12.92
  }

  /** `rgbToXyz`: the three 0-255 channels linearised and mixed by the sRGB
      primaries matrix, scaled to 100. Each component is bounded by the
      matrix row sum, which sRGB white attains: (95.05, 100, 108.9), close to
      but not exactly the D65 white used by `xyzToLab`. */
  function RgbToXyz(m: MathLib, c: Rgb): (xyz: Xyz)
    ensures c == Rgb(0.0, 0.0, 0.0) ==> xyz == Xyz(0.0, 0.0, 0.0)
    ensures PowSound(m) && c == Rgb(255.0, 255.0, 255.0) ==> xyz == Xyz(95.05, 100.0, 108.9)
    ensures PowSound(m) && ChannelsInRange(c) ==>
              && 0.0 <= xyz.x <= 95.05
              && 0.0 <= xyz.y <= 100.0
              && 0.0 <= xyz.z <= 108.9
  {
    var r, g, b := Linearise(m, c.r / 255.0), Linearise(m, c.g / 255.0), Linearise(m, c.b / 255.0);
    Xyz((r * 0.4124 + g * 0.3576 + b * 0.1805) * 100.0,
        (r * 0.2126 + g * 0.7152 + b * 0.0722) * 100.0,
        (r * 0.0193 + g * 0.1192 + b * 0.9505) * 100.0)
  }

  predicate ChannelsInRange(c: Rgb) {
    0.0 <= c.r <= 255.0 && 0.0 <= c.g <= 255.0 && 0.0 <= c.b <= 255.0
  }

  /** The CIELAB companding function with the 0.008856 threshold: 16/116 at
      0, 1 at 1, and within [16/116, 1] on [0, 1]. */
  function LabCompand(m: MathLib, t: real): (r: real)
    ensures t == 0.0 ==> r == 16.0 / 116.0
    ensures m.cbrt(1.0) == 1.0 && t == 1.0 ==> r == 1.0
    ensures CbrtSound(m) && 0.0 <= t <= 1.0 ==> 16.0 / 116.0 <= r <= 1.0
  {
    if t > 0.008856 then m.cbrt(t) else t * 7.787 + 16.0 / 116.0
  }

  /** The companding never decreases, across its threshold too. */
  lemma LabCompandMonotone(m: MathLib, t: real, u: real)
    requires CbrtSound(m) && t <= u
    ensures LabCompand(m, t) <= LabCompand(m, u)
  {
    if t <= 0.008856 < u {
      assert LabCompand(m, t) <= 0.008856 * 7.787 + 16.0 / 116.0;
      assert m.cbrt(0.008856) <= m.cbrt(u);
    }
  }

  /** `xyzToLab` against the D65 white. A colour in the white's proportions
      on X and Y has no red-green axis, and one in its proportions on Y and Z
      no yellow-blue axis; a Y in [0, 100] has a lightness in [0, 100]. */
  function XyzToLab(m: MathLib, c: Xyz): (lab: Lab)
    ensures c.x / WhiteX == c.y / WhiteY ==> lab.a == 0.0
    ensures c.y / WhiteY == c.z / WhiteZ ==> lab.b == 0.0
    ensures CbrtSound(m) && 0.0 <= c.y <= 100.0 ==> 0.0 <= lab.l <= 100.0
  {
    var fx := LabCompand(m, c.x / WhiteX);
    var fy := LabCompand(m, c.y / WhiteY);
    var fz := LabCompand(m, c.z / WhiteZ);
    Lab(116.0 * fy - 16.0, 500.0 * (fx - fy), 200.0 * (fy - fz))
  }

  /** Lightness rises with Y; `a` rises with X and `b` falls with Z when the
      other inputs are held. */
  lemma LabMonotone(m: MathLib, c: Xyz, d: Xyz)
    requires CbrtSound(m)
    ensures c.y <= d.y ==> XyzToLab(m, c).l <= XyzToLab(m, d).l
    ensures c.y == d.y && c.x <= d.x ==> XyzToLab(m, c).a <= XyzToLab(m, d).a
    ensures c.y == d.y && c.z <= d.z ==> XyzToLab(m, c).b >= XyzToLab(m, d).b
  {
    if c.y <= d.y {
      LabCompandMonotone(m, c.y / WhiteY, d.y / WhiteY);
    }
    if c.x <= d.x {
      LabCompandMonotone(m, c.x / WhiteX, d.x / WhiteX);
    }
    if c.z <= d.z {
      LabCompandMonotone(m, c.z / WhiteZ, d.z / WhiteZ);
    }
  }

  /** Black is the origin of Lab: the linear branch of the companding meets
      16/116 at 0. */
  lemma BlackLab(m: MathLib)
    ensures XyzToLab(m, Xyz(0.0, 0.0, 0.0)) == Lab(0.0, 0.0, 0.0)
  {
  }

  /** The reference white has lightness 100 and no chroma, given `cbrt(1) = 1`. */
  lemma WhitePointLab(m: MathLib)
    requires m.cbrt(1.0) == 1.0
    ensures XyzToLab(m, Xyz(WhiteX, WhiteY, WhiteZ)) == Lab(100.0, 0.0, 0.0)
  {
  }

  /** sRGB white, taken through both conversions, has lightness exactly 100:
      its Y is 100 even though its X and Z miss the D65 white slightly. */
  lemma WhiteRgbLightness(m: MathLib)
    requires PowSound(m) && m.cbrt(1.0) == 1.0
    ensures XyzToLab(m, RgbToXyz(m, Rgb(255.0, 255.0, 255.0))).l == 100.0
  {
  }

  /** Lightness depends on Y alone; `a` on X and Y; `b` on Y and Z. */
  lemma LabComponents(m: MathLib, c: Xyz, d: Xyz)
    ensures c.y == d.y ==> XyzToLab(m, c).l == XyzToLab(m, d).l
    ensures c.x == d.x && c.y == d.y ==> XyzToLab(m, c).a == XyzToLab(m, d).a
    ensures c.y == d.y && c.z == d.z ==> XyzToLab(m, c).b == XyzToLab(m, d).b
  {
  }

  // ---------------------------------------------------------------------------
  // Lab to LCh and OKLch

  /** `labToLch`: chroma is the length of `(a, b)`, hue its angle in degrees
      moved into [0, 360). */
  function LabToLch(m: MathLib, c: Lab): (r: Lch)
    ensures r.l == c.l
    ensures r.c == m.sqrt(c.a * c.a + c.b * c.b)
  {
    var h := m.atan2(c.b, c.a) * 180.0 / Pi;
    Lch(c.l, m.sqrt(c.a * c.a + c.b * c.b), if h < 0.0 then h + 360.0 else h)
  }

  /** Chroma is never negative and the hue is an angle in [0, 360). */
  lemma LchRanges(m: MathLib, c: Lab)
    requires SqrtSound(m) && Atan2Sound(m)
    ensures LabToLch(m, c).c >= 0.0
    ensures 0.0 <= LabToLch(m, c).h < 360.0
  {
    assert c.a * c.a >= 0.0 && c.b * c.b >= 0.0;
    var t := m.atan2(c.b, c.a);
    assert -Pi <= t <= Pi;
    HueBounds(t);
  }

  lemma HueBounds(t: real)
    requires -Pi <= t <= Pi
    ensures -180.0 <= t * 180.0 / Pi <= 180.0
  {
    assert t * 180.0 / Pi == t * (180.0 / Pi);
  }

  /** A neutral colour has chroma 0. */
  lemma NeutralHasNoChroma(m: MathLib, l: real)
    requires SqrtSound(m)
    ensures LabToLch(m, Lab(l, 0.0, 0.0)).c == 0.0
  {
  }

  /** `labToOklch`: a placeholder that keeps the lightness and reports no
      chroma and no hue, whatever `a` and `b` are. */
  function LabToOklch(c: Lab): (r: Lch)
    ensures r.l == c.l && r.c == 0.0 && r.h == 0.0
  {
    Lch(c.l, 0.0, 0.0)
  }

  /** The placeholder agrees with `labToLch` on lightness, and on chroma for
      neutral colours, whose chroma is 0 there too. */
  lemma OklchAgreesWithLch(m: MathLib, c: Lab)
    requires SqrtSound(m)
    ensures LabToOklch(c).l == LabToLch(m, c).l
    ensures c.a == 0.0 && c.b == 0.0 ==> LabToOklch(c).c == LabToLch(m, c).c
  {
  }

  // ---------------------------------------------------------------------------
  // WCAG contrast

  /** The WCAG 2.1 channel luminance on a 0-255 channel, with the older
      0.03928 threshold: 0 for 0, 1 for 255, and within [0, 1] between. */
  function ChannelLuminance(m: MathLib, c: real): (r: real)
    ensures c == 0.0 ==> r == 0.0
    ensures PowSound(m) && c == 255.0 ==> r == 1.0
    ensures PowSound(m) && 0.0 <= c <= 255.0 ==> 0.0 <= r <= 1.0
  {
    var v := c / 255.0;
    if v <= 0.03928 then v / 12.92 else PowArgument(v); m.pow((v + 0.055) / 1.055, 2.4)
  }

  /** `getLuminance`: 0 for black, 1 for white, and within [0, 1] for
      channels in [0, 255]. */
  function Luminance(m: MathLib, c: Rgb): (l: real)
    ensures c == Rgb(0.0, 0.0, 0.0) ==> l == 0.0
    ensures PowSound(m) && c == Rgb(255.0, 255.0, 255.0) ==> l == 1.0
    ensures PowSound(m) && ChannelsInRange(c) ==> 0.0 <= l <= 1.0
  {
    0.2126 * ChannelLuminance(m, c.r) + 0.7152 * ChannelLuminance(m, c.g) + 0.0722 * ChannelLuminance(m, c.b)
  }

  /** For a whole-number channel the two thresholds, 0.03928 and 0.04045,
      pick the same branch: no integer lies between 255 * 0.03928 and
      255 * 0.04045. */
  lemma ThresholdsAgree(m: MathLib, n: int)
    requires 0 <= n <= 255
    ensures ChannelLuminance(m, n as real) == Linearise(m, n as real / 255.0)
  {
    if n <= 10 {
      assert n as real / 255.0 <= 0.03928;
    } else {
      assert n as real / 255.0 > 0.04045;
    }
  }

  /** For whole-number channels the luminance is the Y of `rgbToXyz` over 100. */
  lemma LuminanceIsY(m: MathLib, r: int, g: int, b: int)
    requires 0 <= r <= 255 && 0 <= g <= 255 && 0 <= b <= 255
    ensures var c := Rgb(r as real, g as real, b as real);
      Luminance(m, c) == RgbToXyz(m, c).y / 100.0
  {
    ThresholdsAgree(m, r);
    ThresholdsAgree(m, g);
    ThresholdsAgree(m, b);
  }

  /** `getContrastRatio`: the lighter luminance plus 0.05 over the darker
      plus 0.05. It is at least 1, and exactly 1 when the two luminances are
      equal. */
  function ContrastRatio(m: MathLib, c1: Rgb, c2: Rgb): (r: real)
    requires Luminance(m, c1) > -0.05 && Luminance(m, c2) > -0.05
    ensures r >= 1.0
    ensures r == 1.0 <==> Luminance(m, c1) == Luminance(m, c2)
  {
    var l1 := Luminance(m, c1) + 0.05;
    var l2 := Luminance(m, c2) + 0.05;
    if l1 > l2 then RatioOfOrdered(l1, l2); l1 / l2
    else RatioOfOrdered(l2, l1); l2 / l1
  }

  /** The larger of two positive numbers over the smaller is at least 1, and
      is 1 only when they are equal. */
  lemma RatioOfOrdered(hi: real, lo: real)
    requires lo > 0.0 && hi >= lo
    ensures hi / lo >= 1.0
    ensures hi / lo == 1.0 <==> hi == lo
  {
    DivAtLeast(hi, lo, 1.0);
    DivAtMost(hi, lo, 1.0);
  }

  /** `isAccessible`: the 4.5:1 minimum for normal text. */
  predicate IsAccessible(ratio: real) {
    ratio >= 4.5
  }

  /** The ratio does not depend on the order of the two colours. */
  lemma ContrastSymmetric(m: MathLib, c1: Rgb, c2: Rgb)
    requires Luminance(m, c1) > -0.05 && Luminance(m, c2) > -0.05
    ensures ContrastRatio(m, c1, c2) == ContrastRatio(m, c2, c1)
  {
  }

  /** With luminances in [0, 1] the ratio is at most 21. */
  lemma ContrastAtMost21(m: MathLib, c1: Rgb, c2: Rgb)
    requires 0.0 <= Luminance(m, c1) <= 1.0 && 0.0 <= Luminance(m, c2) <= 1.0
    ensures ContrastRatio(m, c1, c2) <= 21.0
  {
    var l1 := Luminance(m, c1) + 0.05;
    var l2 := Luminance(m, c2) + 0.05;
    if l1 > l2 {
      DivAtLeast(l1, l2, 21.0);
      DivAtMost(l1, l2, 21.0);
    } else {
      DivAtMost(l2, l1, 21.0);
    }
  }

  /** A pair passes exactly when the lighter luminance plus 0.05 is at least
      4.5 times the darker plus 0.05. */
  lemma AccessibleIffLuminanceGap(m: MathLib, c1: Rgb, c2: Rgb)
    requires Luminance(m, c1) >= 0.0 && Luminance(m, c2) >= 0.0
    ensures var l1, l2 := Luminance(m, c1) + 0.05, Luminance(m, c2) + 0.05;
      var hi, lo := (if l1 > l2 then l1 else l2), (if l1 > l2 then l2 else l1);
      IsAccessible(ContrastRatio(m, c1, c2)) <==> hi >= 4.5 * lo
  {
    var l1, l2 := Luminance(m, c1) + 0.05, Luminance(m, c2) + 0.05;
    if l1 > l2 {
      DivAtLeast(l1, l2, 4.5);
    } else {
      DivAtLeast(l2, l1, 4.5);
    }
  }

  lemma DivAtLeast(a: real, b: real, k: real)
    requires b > 0.0
    ensures a / b >= k <==> a >= k * b
  {
    assert a / b * b == a;
    if a / b >= k {
      assert a / b * b >= k * b;
    } else {
      assert a / b * b < k * b;
    }
  }

  lemma DivAtMost(a: real, b: real, k: real)
    requires b > 0.0
    ensures a / b <= k <==> a <= k * b
  {
    assert a / b * b == a;
    if a / b <= k {
      assert a / b * b <= k * b;
    } else {
      assert a / b * b > k * b;
    }
  }

  /** White on black is the maximal 21:1 and passes. */
  lemma WhiteOnBlack(m: MathLib)
    requires PowSound(m)
    ensures ContrastRatio(m, Rgb(255.0, 255.0, 255.0), Rgb(0.0, 0.0, 0.0)) == 21.0
    ensures IsAccessible(ContrastRatio(m, Rgb(255.0, 255.0, 255.0), Rgb(0.0, 0.0, 0.0)))
  {
    assert ChannelLuminance(m, 255.0) == 1.0;
    assert Luminance(m, Rgb(255.0, 255.0, 255.0)) == 1.0;
    assert Luminance(m, Rgb(0.0, 0.0, 0.0)) == 0.0;
  }

  /** A colour against itself is 1:1 and fails. */
  lemma SameColourFails(m: MathLib, c: Rgb)
    requires Luminance(m, c) > -0.05
    ensures ContrastRatio(m, c, c) == 1.0
    ensures !IsAccessible(ContrastRatio(m, c, c))
  {
  }

}
