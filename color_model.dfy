/**
 * The colour model: conversion of an RGB pixel to HSL and the HSL-distance
 * similarity test between two pixels.
 *
 * Channel values are integers 0..255 and are divided by 255 before any other
 * arithmetic, so every intermediate value is an exact rational; the model
 * computes with `real` and rounds with `Math.round`. As in the source, a
 * negative hue is NOT brought back into [0, 360).
 */
module ColorModel {
  import opened JsNumbers

  /** One 8-bit channel: the only values an RGB vector may carry. */
  type Byte = x: int | 0 <= x <= 255

  datatype Rgb = Rgb(r: Byte, g: Byte, b: Byte)

  /** Hue in degrees, saturation and lightness in percent, each rounded. */
  datatype Hsl = Hsl(h: int, s: int, l: int)

  function Max3(a: real, b: real, c: real): real
  {
    if a >= b && a >= c then a else if b >= c then b else c
  }

  function Min3(a: real, b: real, c: real): real
  {
    if a <= b && a <= c then a else if b <= c then b else c
  }

  function IntMax3(a: int, b: int, c: int): int
  {
    if a >= b && a >= c then a else if b >= c then b else c
  }

  function IntMin3(a: int, b: int, c: int): int
  {
    if a <= b && a <= c then a else if b <= c then b else c
  }

  /** src/common/helpers.js:15-22, the hue step of the conversion: the hue in sixths of a turn, by dominant channel. */
  function HueSextant(r: real, g: real, b: real, mx: real, delta: real): real
    requires delta >= 0.0
  {
    if delta == 0.0 then 0.0
    else if mx == r then Rem((g - b) / delta, 6.0)
    else if mx == g then (b - r) / delta + 2.0
    else (r - g) / delta + 4.0
  }

  /** `rgbToHsl`: the conversion exactly as the source computes it. */
  function RgbToHsl(p: Rgb): Hsl
  {
    var r, g, b := p.r as real / 255.0, p.g as real / 255.0, p.b as real / 255.0;
    var mn, mx := Min3(r, g, b), Max3(r, g, b);
    var delta := mx - mn;
    var h := HueSextant(r, g, b, mx, delta);
    var l := (mx + mn) / 2.0;
    var s := if delta == 0.0 then 0.0 else delta / (1.0 - Abs(2.0 * l - 1.0));
    Hsl(Round(h * 60.0), Round(s * 100.0), Round(l * 100.0))
  }

  // ---------------------------------------------------------------------
  // An independent statement of the same conversion over the integer
  // channels: with M, m the largest and smallest channel and D = M - m,
  //   hue        = 60 (G - B) / D, 60 (B - R) / D + 120 or 60 (R - G) / D + 240
  //                by the dominant channel (red first, then green),
  //   saturation = 100 D / (255 - |M + m - 255|),
  //   lightness  = 100 (M + m) / 510.
  // ---------------------------------------------------------------------

  function HueDegrees(p: Rgb): real
  {
    var mx, mn := IntMax3(p.r, p.g, p.b), IntMin3(p.r, p.g, p.b);
    var d := (mx - mn) as real;
    if mx == mn then 0.0
    else if mx == p.r then 60.0 * ((p.g - p.b) as real / d)
    else if mx == p.g then 60.0 * ((p.b - p.r) as real / d) + 120.0
    else 60.0 * ((p.r - p.g) as real / d) + 240.0
  }

  function SaturationPercent(p: Rgb): real
  {
    var mx, mn := IntMax3(p.r, p.g, p.b), IntMin3(p.r, p.g, p.b);
    var sum := mx + mn;
    var spread := if sum <= 255 then sum else 510 - sum;
    if mx == mn then 0.0 else 100.0 * ((mx - mn) as real / spread as real)
  }

  function LightnessPercent(p: Rgb): real
  {
    100.0 * (IntMax3(p.r, p.g, p.b) + IntMin3(p.r, p.g, p.b)) as real / 510.0
  }

  lemma DivScaled(x: real, y: real)
    requires y != 0.0
    ensures (x / 255.0) / (y / 255.0) == x / y
  {
    var q := x / y;
    assert q * y == x;
    assert (q * (y / 255.0)) == x / 255.0;
  }

  lemma QuotientBounds(x: real, d: real, lo: real, hi: real)
    requires d > 0.0 && lo * d <= x <= hi * d
    ensures lo <= x / d <= hi
  {
    assert (x / d) * d == x;
  }

  /** Largest and smallest normalised channel are the integer ones, divided by 255. */
  lemma ScaledExtremes(p: Rgb)
    ensures Max3(p.r as real / 255.0, p.g as real / 255.0, p.b as real / 255.0) == IntMax3(p.r, p.g, p.b) as real / 255.0
    ensures Min3(p.r as real / 255.0, p.g as real / 255.0, p.b as real / 255.0) == IntMin3(p.r, p.g, p.b) as real / 255.0
  {
  }

  /** The hue sextant of the normalised channels, as a ratio of integer channel differences. */
  lemma HueSextantIntegerForm(p: Rgb)
    requires IntMax3(p.r, p.g, p.b) != IntMin3(p.r, p.g, p.b)
    ensures
      var R, G, B := p.r as real, p.g as real, p.b as real;
      var M, m := IntMax3(p.r, p.g, p.b), IntMin3(p.r, p.g, p.b);
      var D := (M - m) as real;
      HueSextant(R / 255.0, G / 255.0, B / 255.0, M as real / 255.0, D / 255.0)
        == if M == p.r then (G - B) / D else if M == p.g then (B - R) / D + 2.0 else (R - G) / D + 4.0
  {
    var R, G, B := p.r as real, p.g as real, p.b as real;
    var M, m := IntMax3(p.r, p.g, p.b), IntMin3(p.r, p.g, p.b);
    var D := (M - m) as real;
    if M == p.r {
      DivScaled(G - B, D);
      QuotientBounds(G - B, D, -1.0, 1.0);
      RemSmall((G - B) / D, 6.0);
    } else if M == p.g {
      DivScaled(B - R, D);
    } else {
      DivScaled(R - G, D);
    }
  }

  lemma {:induction false} HueIntegerForm(p: Rgb)
    ensures RgbToHsl(p).h == Round(HueDegrees(p))
  {
    var R, G, B := p.r as real, p.g as real, p.b as real;
    var M, m := IntMax3(p.r, p.g, p.b), IntMin3(p.r, p.g, p.b);
    ScaledExtremes(p);
    var D := (M - m) as real;
    if M != m {
      HueSextantIntegerForm(p);
    }
  }

  /** The saturation quotient of the normalised extremes, as a ratio of integers. */
  lemma SaturationScaled(M: int, m: int)
    requires 0 <= m < M <= 255
    ensures var mx, mn := M as real / 255.0, m as real / 255.0;
      var spread := if M + m <= 255 then M + m else 510 - (M + m);
      spread > 0 && (mx - mn) / (1.0 - Abs(2.0 * ((mx + mn) / 2.0) - 1.0)) == (M - m) as real / spread as real
  {
    var mx, mn := M as real / 255.0, m as real / 255.0;
    var spread := if M + m <= 255 then M + m else 510 - (M + m);
    assert 1.0 - Abs(2.0 * ((mx + mn) / 2.0) - 1.0) == spread as real / 255.0;
    assert mx - mn == (M - m) as real / 255.0;
    DivScaled((M - m) as real, spread as real);
  }

  lemma {:induction false} SaturationIntegerForm(p: Rgb)
    ensures RgbToHsl(p).s == Round(SaturationPercent(p))
  {
    var M, m := IntMax3(p.r, p.g, p.b), IntMin3(p.r, p.g, p.b);
    ScaledExtremes(p);
    if M != m {
      SaturationScaled(M, m);
    }
  }

  lemma LightnessIntegerForm(p: Rgb)
    ensures RgbToHsl(p).l == Round(LightnessPercent(p))
  {
    ScaledExtremes(p);
  }

  /** The source's conversion agrees with the integer formulation, channel by channel. */
  lemma RgbToHslIntegerForm(p: Rgb)
    ensures RgbToHsl(p) == Hsl(Round(HueDegrees(p)), Round(SaturationPercent(p)), Round(LightnessPercent(p)))
  {
    HueIntegerForm(p);
    SaturationIntegerForm(p);
    LightnessIntegerForm(p);
  }

  // ---------------------------------------------------------------------
  // Properties of the conversion
  // ---------------------------------------------------------------------

  /** A grey pixel has hue 0, saturation 0 and lightness round(100 v / 255). */
  lemma GreyIsAchromatic(p: Rgb)
    requires p.r == p.g == p.b
    ensures RgbToHsl(p) == Hsl(0, 0, Round(100.0 * p.r as real / 255.0))
  {
    RgbToHslIntegerForm(p);
    assert LightnessPercent(p) == 100.0 * p.r as real / 255.0;
  }

  /** Bounds of the integer formulation, before rounding. */
  lemma PercentBounds(p: Rgb)
    ensures 0.0 <= SaturationPercent(p) <= 100.0
    ensures 0.0 <= LightnessPercent(p) <= 100.0
    ensures -60.0 <= HueDegrees(p) <= 300.0
    ensures p.r >= p.g && p.r >= p.b ==> -60.0 <= HueDegrees(p) <= 60.0
    ensures p.g > p.r && p.g >= p.b ==> 60.0 <= HueDegrees(p) <= 180.0
    ensures p.b > p.r && p.b > p.g ==> 180.0 <= HueDegrees(p) <= 300.0
  {
    var M, m := IntMax3(p.r, p.g, p.b), IntMin3(p.r, p.g, p.b);
    if M != m {
      var D := (M - m) as real;
      var sum := M + m;
      var spread := if sum <= 255 then sum else 510 - sum;
      QuotientBounds(D, spread as real, 0.0, 1.0);
      if M == p.r {
        QuotientBounds((p.g - p.b) as real, D, -1.0, 1.0);
      } else if M == p.g {
        QuotientBounds((p.b - p.r) as real, D, -1.0, 1.0);
      } else {
        QuotientBounds((p.r - p.g) as real, D, -1.0, 1.0);
      }
    }
  }

  /** Saturation and lightness lie in [0, 100]; the hue, never wrapped, in [-60, 300]. */
  lemma HslRanges(p: Rgb)
    ensures 0 <= RgbToHsl(p).s <= 100
    ensures 0 <= RgbToHsl(p).l <= 100
    ensures -60 <= RgbToHsl(p).h <= 300
  {
    RgbToHslIntegerForm(p);
    PercentBounds(p);
  }

  /**
   * The hue sector follows the dominant channel: red (ties go to red) gives
   * [-60, 60], green (ties with blue go to green) [60, 180], blue [180, 300].
   */
  lemma HueByDominantChannel(p: Rgb)
    ensures p.r >= p.g && p.r >= p.b ==> -60 <= RgbToHsl(p).h <= 60
    ensures p.g > p.r && p.g >= p.b ==> 60 <= RgbToHsl(p).h <= 180
    ensures p.b > p.r && p.b > p.g ==> 180 <= RgbToHsl(p).h <= 300
  {
    HueIntegerForm(p);
    PercentBounds(p);
  }

  lemma RoundedNegative(x: real, d: real)
    requires d > 0.0
    ensures Round(60.0 * (x / d)) < 0 <==> -120.0 * x > d
  {
    assert (x / d) * d == x;
    if 60.0 * (x / d) < -0.5 {
      assert 60.0 * (x / d) * d < -0.5 * d;
    } else {
      assert 60.0 * (x / d) * d >= -0.5 * d;
    }
  }

  /**
   * With red dominant, the rounded hue is negative exactly when blue exceeds
   * green by more than 1/120 of the channel spread: nothing adds 360.
   */
  lemma RedHueNegative(p: Rgb)
    requires p.r >= p.g && p.r >= p.b
    ensures RgbToHsl(p).h < 0 <==> 120 * (p.b - p.g) > p.r - IntMin3(p.r, p.g, p.b)
  {
    if p.r == IntMin3(p.r, p.g, p.b) {
      GreyIsAchromatic(p);
    } else {
      HueIntegerForm(p);
      RoundedNegative((p.g - p.b) as real, (p.r - IntMin3(p.r, p.g, p.b)) as real);
    }
  }

  /** A conversion result follows from the three values of the integer formulation. */
  lemma ConversionFrom(p: Rgb, hue: real, sat: real, light: real)
    requires HueDegrees(p) == hue && SaturationPercent(p) == sat && LightnessPercent(p) == light
    ensures RgbToHsl(p) == Hsl(Round(hue), Round(sat), Round(light))
  {
    RgbToHslIntegerForm(p);
  }

  /** The expected values of the conversion for black, grey and white. */
  lemma GreyVectors()
    ensures RgbToHsl(Rgb(0, 0, 0)) == Hsl(0, 0, 0)
    ensures RgbToHsl(Rgb(127, 127, 127)) == Hsl(0, 0, 50)
    ensures RgbToHsl(Rgb(255, 255, 255)) == Hsl(0, 0, 100)
  {
    ConversionFrom(Rgb(0, 0, 0), 0.0, 0.0, 0.0);
    ConversionFrom(Rgb(127, 127, 127), 0.0, 0.0, 25400.0 / 510.0);
    ConversionFrom(Rgb(255, 255, 255), 0.0, 0.0, 100.0);
  }

  /** The expected values of the conversion for the three primaries. */
  lemma PrimaryVectors()
    ensures RgbToHsl(Rgb(255, 0, 0)) == Hsl(0, 100, 50)
    ensures RgbToHsl(Rgb(0, 255, 0)) == Hsl(120, 100, 50)
    ensures RgbToHsl(Rgb(0, 0, 255)) == Hsl(240, 100, 50)
  {
    ConversionFrom(Rgb(255, 0, 0), 0.0, 100.0, 50.0);
    ConversionFrom(Rgb(0, 255, 0), 120.0, 100.0, 50.0);
    ConversionFrom(Rgb(0, 0, 255), 240.0, 100.0, 50.0);
  }

  /** The expected values of the conversion for firebrick, dark olive green and cornflower blue. */
  lemma NamedColourVectors()
    ensures RgbToHsl(Rgb(178, 34, 34)) == Hsl(0, 68, 42)
    ensures RgbToHsl(Rgb(85, 107, 47)) == Hsl(82, 39, 30)
    ensures RgbToHsl(Rgb(100, 149, 237)) == Hsl(219, 79, 66)
  {
    ConversionFrom(Rgb(178, 34, 34), 0.0, 14400.0 / 212.0, 21200.0 / 510.0);
    ConversionFrom(Rgb(85, 107, 47), 60.0 * (-38.0 / 60.0) + 120.0, 6000.0 / 154.0, 15400.0 / 510.0);
    ConversionFrom(Rgb(100, 149, 237), 60.0 * (-49.0 / 137.0) + 240.0, 13700.0 / 173.0, 33700.0 / 510.0);
  }

  /** Hues the source leaves negative: magenta is -60 and [243, 114, 200] is -40, not 300 and 320. */
  lemma NegativeHueVectors()
    ensures RgbToHsl(Rgb(255, 0, 255)) == Hsl(-60, 100, 50)
    ensures RgbToHsl(Rgb(243, 114, 200)) == Hsl(-40, 84, 70)
  {
    ConversionFrom(Rgb(255, 0, 255), -60.0, 100.0, 50.0);
    ConversionFrom(Rgb(243, 114, 200), 60.0 * (-86.0 / 129.0), 12900.0 / 153.0, 35700.0 / 510.0);
  }

  // ---------------------------------------------------------------------
  // Similarity of two pixels
  // ---------------------------------------------------------------------

  /**
   * `arePixelsEqual`: every HSL channel distance is within the threshold's
   * share of that channel's range (360 for hue, 100 otherwise).
   */
  predicate ArePixelsEqual(p1: Rgb, p2: Rgb, threshold: real)
  {
    var a, b := RgbToHsl(p1), RgbToHsl(p2);
    && Abs((a.h - b.h) as real) <= threshold * 360.0
    && Abs((a.s - b.s) as real) <= threshold * 100.0
    && Abs((a.l - b.l) as real) <= threshold * 100.0
  }

  /** Every pixel is similar to itself under a non-negative threshold. */
  lemma SimilarityReflexive(p: Rgb, threshold: real)
    requires threshold >= 0.0
    ensures ArePixelsEqual(p, p, threshold)
  {
  }

  lemma SimilaritySymmetric(p1: Rgb, p2: Rgb, threshold: real)
    ensures ArePixelsEqual(p1, p2, threshold) == ArePixelsEqual(p2, p1, threshold)
  {
  }

  /** Raising the threshold never turns similar pixels into different ones. */
  lemma SimilarityMonotone(p1: Rgb, p2: Rgb, t: real, t': real)
    requires t <= t' && ArePixelsEqual(p1, p2, t)
    ensures ArePixelsEqual(p1, p2, t')
  {
  }

  /**
   * Because the hue stays within [-60, 300], a threshold of 1 already
   * accepts every pair: only thresholds below 1 can tell pixels apart.
   */
  lemma WholeRangeThreshold(p1: Rgb, p2: Rgb, threshold: real)
    requires threshold >= 1.0
    ensures ArePixelsEqual(p1, p2, threshold)
  {
    HslRanges(p1);
    HslRanges(p2);
  }

  /**
   * Pure blue against [243, 114, 200] at threshold 0.25: the hues are 240 and
   * -40, 280 degrees apart, so the pixels differ, although on the colour
   * wheel (-40 is 320) they are 80 degrees apart, within the 90 allowed.
   */
  lemma UnwrappedHueSeparates()
    ensures !ArePixelsEqual(Rgb(0, 0, 255), Rgb(243, 114, 200), 0.25)
  {
    PrimaryVectors();
    NegativeHueVectors();
  }

  /** Red against [188, 238, 119] (HSL 85, 78, 70) is similar at 0.25, and against [211, 244, 164] (HSL 85, 78, 80) is not. */
  lemma SimilarityExamples()
    ensures ArePixelsEqual(Rgb(255, 0, 0), Rgb(188, 238, 119), 0.25)
    ensures !ArePixelsEqual(Rgb(255, 0, 0), Rgb(211, 244, 164), 0.25)
  {
    PrimaryVectors();
    ConversionFrom(Rgb(188, 238, 119), 60.0 * (-69.0 / 119.0) + 120.0, 11900.0 / 153.0, 35700.0 / 510.0);
    ConversionFrom(Rgb(211, 244, 164), 60.0 * (-47.0 / 80.0) + 120.0, 8000.0 / 102.0, 40800.0 / 510.0);
  }
}
