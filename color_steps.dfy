/** The steps every colour-mapper variant shares: scale the altitude to
    [-1, 1], squash it by (1 - sunrise_jump), push it away from zero by
    sunrise_jump (the "squash-and-jump"), turn it into a lightness, turn the
    azimuth into a hue, and convert HLS with saturation 1 into rounded
    channels.

    The variants differ in one place: dev_shams_class.py picks the sign of the
    jump from the already squashed value (ScaledSignJump), helper.py and both
    files under python/ pick it from the raw altitude (RawSignJump). */
module ColorSteps {
  import opened PySemantics
  import Colorsys
  import Arith

  /** What the ephemeris returns for one instant. */
  datatype SunPosition = SunPosition(azimuth: real, altitude: real)

  /** A colour as three integer channels. */
  datatype Rgb = Rgb(r: int, g: int, b: int)

  predicate IsByteRgb(c: Rgb) {
    0 <= c.r < 256 && 0 <= c.g < 256 && 0 <= c.b < 256
  }

  /** The altitudes an ephemeris can return. */
  predicate InAltitudeRange(altitude: real) {
    -Pi / 2.0 <= altitude <= Pi / 2.0
  }

  /** The range every variant asserts for sunrise_jump. */
  predicate ValidJump(jump: real) {
    0.0 <= jump <= 1.0
  }

  const JumpMessage := "sunrise_jump must be between 0 and 1 inclusive"
  const HueShiftMessage := "hue_shift must be a float"

  /** `(altitude / pi) * 2`, meant to lie in [-1, 1]. */
  function ScaledAltitude(altitude: real): (x: real)
    ensures InAltitudeRange(altitude) ==> -1.0 <= x <= 1.0
    ensures x >= 0.0 <==> altitude >= 0.0
  {
    (altitude / Pi) * 2.0
  }

  /** The scaled altitude after `*= 1 - sunrise_jump`. */
  function Squashed(altitude: real, jump: real): real {
    ScaledAltitude(altitude) * (1.0 - jump)
  }

  /** dev_shams_class.py: the jump's sign is read off the squashed value. */
  function ScaledSignJump(altitude: real, jump: real): (x': real)
    ensures jump >= 0.0 ==> (x' >= 0.0 <==> Squashed(altitude, jump) >= 0.0)
  {
    var x := Squashed(altitude, jump);
    if x >= 0.0 then x + jump else x - jump
  }

  /** Squashing by a factor in (0, 1] keeps the altitude's sign. */
  lemma SquashedSign(altitude: real, jump: real)
    ensures ValidJump(jump) && jump < 1.0 ==> (Squashed(altitude, jump) >= 0.0 <==> altitude >= 0.0)
  {
    if ValidJump(jump) && jump < 1.0 {
      Arith.MulSign(ScaledAltitude(altitude), 1.0 - jump);
    }
  }

  /** helper.py and python/: the jump's sign is read off the raw altitude. */
  function RawSignJump(altitude: real, jump: real): (x: real)
    ensures ValidJump(jump) ==> (x >= 0.0 <==> altitude >= 0.0)
  {
    SquashedSign(altitude, jump);
    Squashed(altitude, jump) + jump * (if altitude >= 0.0 then 1.0 else -1.0)
  }

  /** `altitude_scaled / 2 + 0.5`. */
  function Lightness(x: real): (l: real)
    ensures -1.0 <= x <= 1.0 ==> 0.0 <= l <= 1.0
  {
    x / 2.0 + 0.5
  }

  function ScaledSignLightness(altitude: real, jump: real): real {
    Lightness(ScaledSignJump(altitude, jump))
  }

  function RawSignLightness(altitude: real, jump: real): real {
    Lightness(RawSignJump(altitude, jump))
  }

  /** `((azimuth / tau) + 0.5 + hue_shift) % 1`. */
  function Hue(azimuth: real, hueShift: real): (h: real)
    ensures 0.0 <= h < 1.0
  {
    Frac((azimuth / Tau) + 0.5 + hueShift)
  }

  /** `hls_to_rgb(hue, lightness, 1)` followed by `round(255 * x)` per channel. */
  function RgbOf(hue: real, lightness: real): Rgb {
    var t := Colorsys.HlsToRgb(hue, lightness, 1.0);
    Rgb(RoundHalfEven(255.0 * t.r), RoundHalfEven(255.0 * t.g), RoundHalfEven(255.0 * t.b))
  }

  // ---------------------------------------------------------------------
  // Hue

  /** The hue lies in [0, 1) and a whole turn of hue shift changes nothing. */
  lemma {:induction false} HueShiftPeriod(azimuth: real, hueShift: real, k: int)
    ensures 0.0 <= Hue(azimuth, hueShift) < 1.0
    ensures Hue(azimuth, hueShift + k as real) == Hue(azimuth, hueShift)
  {
    assert (azimuth / Tau) + 0.5 + (hueShift + k as real) == ((azimuth / Tau) + 0.5 + hueShift) + k as real;
    FracShift((azimuth / Tau) + 0.5 + hueShift, k);
  }

  // ---------------------------------------------------------------------
  // Channels

  /** For a lightness in [0, 1] every channel is a uint8 value. */
  lemma RgbOfIsByte(hue: real, lightness: real)
    requires 0.0 <= lightness <= 1.0
    ensures IsByteRgb(RgbOf(hue, lightness))
  {
    Colorsys.HlsToRgbInUnit(hue, lightness, 1.0);
    var t := Colorsys.HlsToRgb(hue, lightness, 1.0);
    RoundInByteRange(255.0 * t.r);
    RoundInByteRange(255.0 * t.g);
    RoundInByteRange(255.0 * t.b);
  }

  /** Channels depend on the hue only modulo 1, so an unwrapped hue gives
      the same colour as the wrapped one. */
  lemma {:induction false} RgbOfHueWraps(hue: real, lightness: real)
    ensures RgbOf(Frac(hue), lightness) == RgbOf(hue, lightness)
  {
    Colorsys.HlsToRgbHueWraps(hue, lightness, 1.0);
  }

  /** Lightness 1 is white and lightness 0 is black, whatever the hue. */
  lemma WhiteAndBlack(hue: real)
    ensures RgbOf(hue, 1.0) == Rgb(255, 255, 255)
    ensures RgbOf(hue, 0.0) == Rgb(0, 0, 0)
  {
    Colorsys.VFlat(1.0, hue + Colorsys.OneThird);
    Colorsys.VFlat(1.0, hue);
    Colorsys.VFlat(1.0, hue - Colorsys.OneThird);
    Colorsys.VFlat(0.0, hue + Colorsys.OneThird);
    Colorsys.VFlat(0.0, hue);
    Colorsys.VFlat(0.0, hue - Colorsys.OneThird);
    assert Colorsys.HlsToRgb(hue, 1.0, 1.0) == Colorsys.Triple(1.0, 1.0, 1.0);
    assert Colorsys.HlsToRgb(hue, 0.0, 1.0) == Colorsys.Triple(0.0, 0.0, 0.0);
  }

  // ---------------------------------------------------------------------
  // Raw-sign squash-and-jump (helper.py, python/helper.py, python/helper_new.py)

  /** Lightness stays in [0, 1]: above the horizon in [(1 + jump)/2, 1],
      below it in [0, (1 - jump)/2]. */
  lemma {:induction false} RawSignLightnessBounds(altitude: real, jump: real)
    requires InAltitudeRange(altitude) && ValidJump(jump)
    ensures 0.0 <= RawSignLightness(altitude, jump) <= 1.0
    ensures altitude >= 0.0 ==> (1.0 + jump) / 2.0 <= RawSignLightness(altitude, jump)
    ensures altitude < 0.0 ==> RawSignLightness(altitude, jump) <= (1.0 - jump) / 2.0
  {
    var s := ScaledAltitude(altitude);
    Arith.SquashFacts(s, jump);
    var x := s * (1.0 - jump);
    assert RawSignLightness(altitude, jump) == (x + (if altitude >= 0.0 then jump else -jump)) / 2.0 + 0.5;
  }

  /** Lightness never decreases as the altitude rises, for any altitudes. */
  lemma {:induction false} RawSignLightnessMonotone(a1: real, a2: real, jump: real)
    requires ValidJump(jump) && a1 <= a2
    ensures RawSignLightness(a1, jump) <= RawSignLightness(a2, jump)
  {
    var s1, s2 := ScaledAltitude(a1), ScaledAltitude(a2);
    Arith.DivMono(a1, a2, Pi);
    assert s1 <= s2;
    Arith.MulMono(s1, s2, 1.0 - jump);
    var x1, x2 := Squashed(a1, jump), Squashed(a2, jump);
    assert x1 <= x2;
    var j1 := if a1 >= 0.0 then jump else -jump;
    var j2 := if a2 >= 0.0 then jump else -jump;
    assert j1 <= j2;
    assert RawSignJump(a1, jump) == x1 + j1 && RawSignJump(a2, jump) == x2 + j2;
  }

  /** With no jump the lightness is the altitude mapped linearly onto [0, 1]. */
  lemma RawSignNoJump(altitude: real)
    ensures RawSignLightness(altitude, 0.0) == altitude / Pi + 0.5
  {
  }

  /** With the full jump, day is white and night is black. */
  lemma RawSignFullJump(altitude: real)
    ensures RawSignLightness(altitude, 1.0) == if altitude >= 0.0 then 1.0 else 0.0
  {
  }

  // ---------------------------------------------------------------------
  // Scaled-sign squash-and-jump (dev_shams_class.py)

  /** The two sign tests agree except at the full jump below the horizon. */
  lemma {:induction false} SignTestsAgree(altitude: real, jump: real)
    requires ValidJump(jump)
    ensures ScaledSignJump(altitude, jump) == RawSignJump(altitude, jump)
            <==> !(jump == 1.0 && altitude < 0.0)
  {
    var s := ScaledAltitude(altitude);
    if jump < 1.0 {
      Arith.MulSign(s, 1.0 - jump);
    } else {
      assert Squashed(altitude, jump) == 0.0;
    }
  }

  /** With the full jump every sample is white, night included: the squashed
      value is 0, which passes the `>= 0` test. */
  lemma ScaledSignFullJump(altitude: real)
    ensures ScaledSignLightness(altitude, 1.0) == 1.0
  {
    assert Squashed(altitude, 1.0) == 0.0;
  }

  /** With no jump the lightness is the altitude mapped linearly onto [0, 1]. */
  lemma ScaledSignNoJump(altitude: real)
    ensures ScaledSignLightness(altitude, 0.0) == altitude / Pi + 0.5
  {
  }

  /** Lightness stays in [0, 1] for every valid jump. */
  lemma {:induction false} ScaledSignLightnessBounds(altitude: real, jump: real)
    requires InAltitudeRange(altitude) && ValidJump(jump)
    ensures 0.0 <= ScaledSignLightness(altitude, jump) <= 1.0
  {
    SignTestsAgree(altitude, jump);
    if jump == 1.0 {
      ScaledSignFullJump(altitude);
    } else {
      RawSignLightnessBounds(altitude, jump);
    }
  }

  /** Lightness never decreases as the altitude rises. */
  lemma {:induction false} ScaledSignLightnessMonotone(a1: real, a2: real, jump: real)
    requires ValidJump(jump) && a1 <= a2
    ensures ScaledSignLightness(a1, jump) <= ScaledSignLightness(a2, jump)
  {
    if jump == 1.0 {
      ScaledSignFullJump(a1);
      ScaledSignFullJump(a2);
    } else {
      SignTestsAgree(a1, jump);
      SignTestsAgree(a2, jump);
      RawSignLightnessMonotone(a1, a2, jump);
    }
  }
}
