/** python/helper.py: the same colour mapper as helper.py (raw-altitude jump
    sign, 3-tuple result), except that the default hue_shift is the int 0. */
module PyHelper {
  import opened PySemantics
  import opened ColorSteps
  import Helper

  /** get_color of python/helper.py. */
  function GetColor(azimuth: real, altitude: real, sunriseJump: real := 0.2,
                    hueShift: PyNum := PyInt(0), asHex: bool := true): (r: Result<Helper.ColorTuple>)
    ensures r.Success? <==> ValidJump(sunriseJump) && hueShift.PyFloat?
    ensures !ValidJump(sunriseJump) ==> r == Failure(AssertionError(JumpMessage))
    ensures ValidJump(sunriseJump) && !hueShift.PyFloat? ==> r == Failure(AssertionError(HueShiftMessage))
    ensures r.Success? ==> (r.value.first.HexText? <==> asHex)
  {
    Helper.GetColor(azimuth, altitude, sunriseJump, hueShift, asHex)
  }

  /** The default hue_shift is an int, so a call that relies on it fails the
      float check, for every valid jump and either output form. */
  lemma {:induction false} DefaultHueShiftFails(azimuth: real, altitude: real, sunriseJump: real, asHex: bool)
    requires ValidJump(sunriseJump)
    ensures GetColor(azimuth, altitude) == Failure(AssertionError(HueShiftMessage))
    ensures GetColor(azimuth, altitude, sunriseJump, asHex := asHex) == Failure(AssertionError(HueShiftMessage))
  {
  }

  /** With a float shift the call succeeds, returns (r, g, b) in [0, 255]
      without as_hex and (hex string, g, b) with it. */
  lemma {:induction false} GetColorTuple(azimuth: real, altitude: real, sunriseJump: real, hueShift: real)
    requires InAltitudeRange(altitude) && ValidJump(sunriseJump)
    ensures var c := Helper.SampleRgb(azimuth, altitude, sunriseJump, hueShift);
      && IsByteRgb(c)
      && GetColor(azimuth, altitude, sunriseJump, PyFloat(hueShift), false)
         == Success(Helper.ColorTuple(Helper.Red(c.r), c.g, c.b))
      && GetColor(azimuth, altitude, sunriseJump, PyFloat(hueShift), true)
         == Success(Helper.ColorTuple(Helper.HexText(FormatHexColor(c.r, c.g, c.b)), c.g, c.b))
  {
    Helper.GetColorChannels(azimuth, altitude, sunriseJump, hueShift, false);
  }

  /** With no jump the lightness is linear in the altitude. */
  lemma {:induction false} NoJumpIsLinear(azimuth: real, altitude: real, hueShift: real)
    ensures var c := RgbOf(Hue(azimuth, hueShift), altitude / Pi + 0.5);
      GetColor(azimuth, altitude, 0.0, PyFloat(hueShift), false) == Success(Helper.ColorTuple(Helper.Red(c.r), c.g, c.b))
  {
    RawSignNoJump(altitude);
  }

  /** With the full jump, day is white and night is black. */
  lemma {:induction false} FullJumpDayWhiteNightBlack(azimuth: real, altitude: real, hueShift: real)
    ensures GetColor(azimuth, altitude, 1.0, PyFloat(hueShift), false)
         == if altitude >= 0.0 then Success(Helper.ColorTuple(Helper.Red(255), 255, 255))
            else Success(Helper.ColorTuple(Helper.Red(0), 0, 0))
  {
    RawSignFullJump(altitude);
    WhiteAndBlack(Hue(azimuth, hueShift));
  }

  /** A whole turn of hue shift gives the same result. */
  lemma {:induction false} HueShiftPeriodic(azimuth: real, altitude: real, sunriseJump: real,
                                            hueShift: real, k: int, asHex: bool)
    ensures GetColor(azimuth, altitude, sunriseJump, PyFloat(hueShift + k as real), asHex)
         == GetColor(azimuth, altitude, sunriseJump, PyFloat(hueShift), asHex)
  {
    HueShiftPeriod(azimuth, hueShift, k);
  }
}
