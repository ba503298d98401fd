/** python/helper_new.py: the fixed-parameter colour mapper, with a jump of
    0.3, no hue shift, no modulo on the hue and hex output. */
module PyHelperNew {
  import opened PySemantics
  import opened ColorSteps
  import Arith
  import Helper

  const SunriseJump: real := 0.3

  /** `(azimuth / tau) + 0.5`, taken as the hue without `% 1`. */
  function AzimuthHue(azimuth: real): real {
    (azimuth / Tau) + 0.5
  }

  /** get_color of python/helper_new.py. The range assertion on the fixed
      jump holds, so the call never raises. */
  function GetColor(azimuth: real, altitude: real): (s: string)
    ensures |s| >= 6
  {
    assert ValidJump(SunriseJump);
    var c := RgbOf(AzimuthHue(azimuth), RawSignLightness(altitude, SunriseJump));
    FormatHexColor(c.r, c.g, c.b)
  }

  /** A visible gap at the horizon: above it the lightness is at least
      0.65, below it strictly under 0.35. */
  lemma {:induction false} HorizonGap(altitude: real)
    requires InAltitudeRange(altitude)
    ensures altitude >= 0.0 ==> 0.65 <= RawSignLightness(altitude, SunriseJump) <= 1.0
    ensures altitude < 0.0 ==> 0.0 <= RawSignLightness(altitude, SunriseJump) < 0.35
  {
    RawSignLightnessBounds(altitude, SunriseJump);
    var s := ScaledAltitude(altitude);
    Arith.MulSign(s, 1.0 - SunriseJump);
  }

  /** The lightness never decreases as the altitude rises. */
  lemma {:induction false} LightnessMonotone(a1: real, a2: real)
    requires a1 <= a2
    ensures RawSignLightness(a1, SunriseJump) <= RawSignLightness(a2, SunriseJump)
  {
    RawSignLightnessMonotone(a1, a2, SunriseJump);
  }

  /** For azimuths in [-pi, pi] the hue without modulo lies in [0, 1], and
      for any azimuth it gives the colour the wrapped hue would. */
  lemma {:induction false} HueWithoutModulo(azimuth: real, lightness: real)
    ensures -Pi <= azimuth <= Pi ==> 0.0 <= AzimuthHue(azimuth) <= 1.0
    ensures RgbOf(AzimuthHue(azimuth), lightness) == RgbOf(Frac(AzimuthHue(azimuth)), lightness)
  {
    if -Pi <= azimuth <= Pi {
      Arith.DivMono(-Pi, azimuth, Tau);
      Arith.DivMono(azimuth, Pi, Tau);
      assert Pi / Tau == 0.5 && -Pi / Tau == -0.5;
    }
    RgbOfHueWraps(AzimuthHue(azimuth), lightness);
  }

  /** For altitudes an ephemeris can return the result is six upper-case
      hex digits that read back as the three channels, each in [0, 255]. */
  lemma {:induction false} GetColorHex(azimuth: real, altitude: real)
    requires InAltitudeRange(altitude)
    ensures var s := GetColor(azimuth, altitude);
      var c := RgbOf(AzimuthHue(azimuth), RawSignLightness(altitude, SunriseJump));
      && IsByteRgb(c)
      && |s| == 6
      && (forall i :: 0 <= i < 6 ==> IsUpperHexDigit(s[i]))
      && ParseHexColor(s) == (c.r, c.g, c.b)
  {
    RawSignLightnessBounds(altitude, SunriseJump);
    var c := RgbOf(AzimuthHue(azimuth), RawSignLightness(altitude, SunriseJump));
    RgbOfIsByte(AzimuthHue(azimuth), RawSignLightness(altitude, SunriseJump));
    HexColorRoundTrip(c.r, c.g, c.b);
  }

  /** The fixed mapper is helper.py's with a jump of 0.3 and no shift: the
      missing modulo makes no difference to the colour. */
  lemma {:induction false} AgreesWithHelper(azimuth: real, altitude: real)
    ensures var h := Helper.GetColor(azimuth, altitude, SunriseJump, PyFloat(0.0), true);
      h.Success? && h.value.first == Helper.HexText(GetColor(azimuth, altitude))
  {
    assert Hue(azimuth, 0.0) == Frac(AzimuthHue(azimuth));
    RgbOfHueWraps(AzimuthHue(azimuth), RawSignLightness(altitude, SunriseJump));
  }
}
