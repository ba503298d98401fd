/** Python's `colorsys.hls_to_rgb`, the conversion every colour-mapper variant
    calls with saturation 1, over exact reals. */
module Colorsys {
  import opened PySemantics
  import Arith

  const OneThird: real := 1.0 / 3.0
  const OneSixth: real := 1.0 / 6.0
  const TwoThird: real := 2.0 / 3.0

  /** An (r, g, b) triple with channels as fractions. */
  datatype Triple = Triple(r: real, g: real, b: real)

  /** `colorsys._v`: the channel value at one hue, on the piecewise-linear
      ramp between m1 and m2. */
  function V(m1: real, m2: real, hue: real): real {
    var h := Frac(hue);
    if h < OneSixth then m1 + (m2 - m1) * h * 6.0
    else if h < 0.5 then m2
    else if h < TwoThird then m1 + (m2 - m1) * (TwoThird - h) * 6.0
    else m1
  }

  /** `colorsys.hls_to_rgb(h, l, s)`. */
  function HlsToRgb(h: real, l: real, s: real): Triple {
    if s == 0.0 then Triple(l, l, l)
    else
      var m2 := if l <= 0.5 then l * (1.0 + s) else l + s - (l * s);
      var m1 := 2.0 * l - m2;
      Triple(V(m1, m2, h + OneThird), V(m1, m2, h), V(m1, m2, h - OneThird))
  }

  function Max3(t: Triple): real {
    if t.r >= t.g && t.r >= t.b then t.r else if t.g >= t.b then t.g else t.b
  }

  function Min3(t: Triple): real {
    if t.r <= t.g && t.r <= t.b then t.r else if t.g <= t.b then t.g else t.b
  }

  lemma ScaleBetween(m1: real, m2: real, t: real)
    requires m1 <= m2 && 0.0 <= t <= 1.0
    ensures m1 <= m1 + (m2 - m1) * t <= m2
  {
    Arith.MulNonneg(m2 - m1, t);
    Arith.MulNonneg(m2 - m1, 1.0 - t);
  }

  /** Every channel lies between m1 and m2. */
  lemma VBetween(m1: real, m2: real, hue: real)
    requires m1 <= m2
    ensures m1 <= V(m1, m2, hue) <= m2
  {
    var h := Frac(hue);
    var d := m2 - m1;
    if h < OneSixth {
      var t := h * 6.0;
      ScaleBetween(m1, m2, t);
      Arith.MulAssoc(d, h, 6.0);
      assert V(m1, m2, hue) == m1 + d * t;
    } else if 0.5 <= h < TwoThird {
      var t := (TwoThird - h) * 6.0;
      ScaleBetween(m1, m2, t);
      Arith.MulAssoc(d, TwoThird - h, 6.0);
      assert V(m1, m2, hue) == m1 + d * t;
    }
  }

  /** The two ramp ends of hls_to_rgb for lightness and saturation in [0, 1]. */
  lemma RampEnds(l: real, s: real)
    requires 0.0 <= l <= 1.0 && 0.0 <= s <= 1.0
    ensures var m2 := if l <= 0.5 then l * (1.0 + s) else l + s - (l * s);
      0.0 <= 2.0 * l - m2 <= m2 <= 1.0
  {
    if l <= 0.5 {
      Arith.MulNonneg(l, 1.0 - s);
      Arith.MulNonneg(l, s);
    } else {
      Arith.MulNonneg(s, 1.0 - l);
      Arith.MulNonneg(1.0 - s, 1.0 - l);
    }
  }

  /** For lightness and saturation in [0, 1], every channel lies in [0, 1]. */
  lemma HlsToRgbInUnit(h: real, l: real, s: real)
    requires 0.0 <= l <= 1.0 && 0.0 <= s <= 1.0
    ensures var t := HlsToRgb(h, l, s);
      0.0 <= t.r <= 1.0 && 0.0 <= t.g <= 1.0 && 0.0 <= t.b <= 1.0
  {
    if s != 0.0 {
      RampEnds(l, s);
      var m2 := if l <= 0.5 then l * (1.0 + s) else l + s - (l * s);
      var m1 := 2.0 * l - m2;
      VBetween(m1, m2, h + OneThird);
      VBetween(m1, m2, h);
      VBetween(m1, m2, h - OneThird);
    }
  }

  /** Channels depend on the hue only through `hue % 1.0`: hls_to_rgb needs
      no wrapped hue, and a whole turn of hue changes nothing. */
  lemma {:induction false} HlsToRgbHueWraps(h: real, l: real, s: real)
    ensures HlsToRgb(Frac(h), l, s) == HlsToRgb(h, l, s)
  {
    if s != 0.0 {
      var m2 := if l <= 0.5 then l * (1.0 + s) else l + s - (l * s);
      var m1 := 2.0 * l - m2;
      FracOfFrac(h, OneThird);
      FracOfFrac(h, 0.0);
      FracOfFrac(h, -OneThird);
      VSameFrac(m1, m2, Frac(h) + OneThird, h + OneThird);
      VSameFrac(m1, m2, Frac(h) + 0.0, h + 0.0);
      VSameFrac(m1, m2, Frac(h) - OneThird, h - OneThird);
    }
  }

  /** Equal ramp ends give a flat ramp. */
  lemma VFlat(m: real, hue: real)
    ensures V(m, m, hue) == m
  {
  }

  /** V reads its hue only through `% 1.0`. */
  lemma VSameFrac(m1: real, m2: real, a: real, b: real)
    requires Frac(a) == Frac(b)
    ensures V(m1, m2, a) == V(m1, m2, b)
  {
  }

  lemma {:induction false} HlsToRgbHuePeriod(h: real, l: real, s: real, k: int)
    ensures HlsToRgb(h + k as real, l, s) == HlsToRgb(h, l, s)
  {
    FracShift(h, k);
    HlsToRgbHueWraps(h + k as real, l, s);
    HlsToRgbHueWraps(h, l, s);
  }

  /** The defining property of the HLS model: the mean of the largest and the
      smallest channel is the lightness. One of the three hues, a third of a
      turn apart, always falls on the m2 plateau and one on the m1 plateau. */
  lemma {:induction false} HlsToRgbLightnessRecovered(h: real, l: real, s: real)
    requires 0.0 <= l <= 1.0 && 0.0 <= s <= 1.0
    ensures var t := HlsToRgb(h, l, s); (Max3(t) + Min3(t)) / 2.0 == l
  {
    if s != 0.0 {
      RampEnds(l, s);
      var m2 := if l <= 0.5 then l * (1.0 + s) else l + s - (l * s);
      var m1 := 2.0 * l - m2;
      var t := HlsToRgb(h, l, s);
      VBetween(m1, m2, h + OneThird);
      VBetween(m1, m2, h);
      VBetween(m1, m2, h - OneThird);
      var h0 := Frac(h);
      FracOfFrac(h, OneThird);
      FracOfFrac(h, -OneThird);
      if h0 < TwoThird {
        FracUnique(h0 + OneThird, h0 + OneThird, 0);
      } else {
        FracUnique(h0 + OneThird, h0 - TwoThird, 1);
      }
      if h0 >= OneThird {
        FracUnique(h0 - OneThird, h0 - OneThird, 0);
      } else {
        FracUnique(h0 - OneThird, h0 + TwoThird, -1);
      }
      assert (t.r == m2 || t.g == m2 || t.b == m2) && (t.r == m1 || t.g == m1 || t.b == m1);
      assert Max3(t) == m2 && Min3(t) == m1;
    }
  }

  /** With saturation 0 the colour is the grey of the given lightness. */
  lemma HlsToRgbGrey(h: real, l: real)
    ensures HlsToRgb(h, l, 0.0) == Triple(l, l, l)
  {
  }
}
