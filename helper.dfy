/** helper.py: the colour mapper with the raw-altitude jump sign, the UTC
    minute grid of one year shifted by a whole-hour timezone, and the
    pixel-array fill loop behind the PNG output. */
module Helper {
  import opened PySemantics
  import opened ColorSteps
  import Grid
  import Calendar

  /** First element of get_color's result: the hex string or the red channel. */
  datatype First = HexText(text: string) | Red(r: int)

  /** What get_color returns: because of how the conditional expression on
      helper.py:30 groups, always a 3-tuple. */
  datatype ColorTuple = ColorTuple(first: First, g: int, b: int)

  /** A colour as the corrected get_color returns it. */
  datatype Color = HexColor(text: string) | RgbColor(rgb: Rgb)

  /** The channels an accepted get_color call computes. */
  function SampleRgb(azimuth: real, altitude: real, jump: real, hueShift: real): Rgb {
    RgbOf(Hue(azimuth, hueShift), RawSignLightness(altitude, jump))
  }

  /** The two assertions get_color starts with; None when both pass. */
  function CheckArguments(sunriseJump: real, hueShift: PyNum): (e: Option<PyError>)
    ensures e.None? <==> ValidJump(sunriseJump) && hueShift.PyFloat?
    ensures !ValidJump(sunriseJump) ==> e == Some(AssertionError(JumpMessage))
    ensures ValidJump(sunriseJump) && !hueShift.PyFloat? ==> e == Some(AssertionError(HueShiftMessage))
  {
    if !ValidJump(sunriseJump) then Some(AssertionError(JumpMessage))
    else if !hueShift.PyFloat? then Some(AssertionError(HueShiftMessage))
    else None
  }

  /** get_color as written. */
  function GetColor(azimuth: real, altitude: real, sunriseJump: real := 0.2,
                    hueShift: PyNum := PyFloat(0.0), asHex: bool := true): (r: Result<ColorTuple>)
    ensures r.Failure? <==> CheckArguments(sunriseJump, hueShift).Some?
    ensures r.Failure? ==> r.error == CheckArguments(sunriseJump, hueShift).value
    ensures r.Success? ==> (r.value.first.HexText? <==> asHex)
  {
    var problem := CheckArguments(sunriseJump, hueShift);
    if problem.Some? then Failure(problem.value)
    else
      var c := SampleRgb(azimuth, altitude, sunriseJump, hueShift.f);
      Success(ColorTuple(if asHex then HexText(FormatHexColor(c.r, c.g, c.b)) else Red(c.r), c.g, c.b))
  }

  /** Called with its defaults (a float hue shift of 0.0 and a jump of
      0.2), get_color is accepted. */
  lemma DefaultCallSucceeds(azimuth: real, altitude: real)
    ensures GetColor(azimuth, altitude).Success?
    ensures GetColor(azimuth, altitude).value.first.HexText?
  {
  }

  /** For an altitude the ephemeris can return, an accepted call yields
      channels in [0, 255] — the ones SampleRgb computes — and, with as_hex,
      a six-digit upper-case hex string that reads back as those channels. */
  lemma {:induction false} GetColorChannels(azimuth: real, altitude: real, sunriseJump: real,
                                            hueShift: real, asHex: bool)
    requires InAltitudeRange(altitude) && ValidJump(sunriseJump)
    ensures var r := GetColor(azimuth, altitude, sunriseJump, PyFloat(hueShift), asHex);
      var c := SampleRgb(azimuth, altitude, sunriseJump, hueShift);
      && r.Success?
      && IsByteRgb(c)
      && r.value.g == c.g && r.value.b == c.b
      && (!asHex ==> r.value.first == Red(c.r))
      && (asHex ==> var s := r.value.first.text;
            && |s| == 6
            && (forall i :: 0 <= i < 6 ==> IsUpperHexDigit(s[i]))
            && ParseHexColor(s) == (c.r, c.g, c.b))
  {
    RawSignLightnessBounds(altitude, sunriseJump);
    var c := SampleRgb(azimuth, altitude, sunriseJump, hueShift);
    RgbOfIsByte(Hue(azimuth, hueShift), RawSignLightness(altitude, sunriseJump));
    HexColorRoundTrip(c.r, c.g, c.b);
  }

  /** get_color as the as_hex flag asks for it: the hex string alone when
      the flag is set, the (r, g, b) triple otherwise. */
  function GetColorIntended(azimuth: real, altitude: real, sunriseJump: real := 0.2,
                            hueShift: PyNum := PyFloat(0.0), asHex: bool := true): (r: Result<Color>)
    ensures r.Failure? <==> CheckArguments(sunriseJump, hueShift).Some?
    ensures r.Success? ==> (r.value.HexColor? <==> asHex)
  {
    var problem := CheckArguments(sunriseJump, hueShift);
    if problem.Some? then Failure(problem.value)
    else
      var c := SampleRgb(azimuth, altitude, sunriseJump, hueShift.f);
      Success(if asHex then HexColor(FormatHexColor(c.r, c.g, c.b)) else RgbColor(c))
  }

  /** The corrected mapper returns one hex string that encodes all three
      channels, and agrees with the one as written when as_hex is off. */
  lemma {:induction false} GetColorIntendedCorrect(azimuth: real, altitude: real, sunriseJump: real,
                                                   hueShift: real, asHex: bool)
    requires InAltitudeRange(altitude) && ValidJump(sunriseJump)
    ensures var r := GetColorIntended(azimuth, altitude, sunriseJump, PyFloat(hueShift), asHex);
      var c := SampleRgb(azimuth, altitude, sunriseJump, hueShift);
      && r.Success?
      && (asHex ==> var s := r.value.text;
            && |s| == 6
            && (forall i :: 0 <= i < 6 ==> IsUpperHexDigit(s[i]))
            && ParseHexColor(s) == (c.r, c.g, c.b))
      && (!asHex ==> var t := GetColor(azimuth, altitude, sunriseJump, PyFloat(hueShift), false).value;
            r.value.rgb == Rgb(t.first.r, t.g, t.b))
  {
    GetColorChannels(azimuth, altitude, sunriseJump, hueShift, asHex);
    GetColorChannels(azimuth, altitude, sunriseJump, hueShift, false);
  }

  /** With as_hex set the hex string the flag asks for comes back
      as only the first element of a 3-tuple, beside the bare green and blue
      channels. */
  lemma HexFlagBindsFirstOnly(azimuth: real, altitude: real, sunriseJump: real, hueShift: real)
    requires ValidJump(sunriseJump)
    ensures var asWritten := GetColor(azimuth, altitude, sunriseJump, PyFloat(hueShift), true);
      var intended := GetColorIntended(azimuth, altitude, sunriseJump, PyFloat(hueShift), true);
      var c := SampleRgb(azimuth, altitude, sunriseJump, hueShift);
      && intended.Success? && intended.value.HexColor?
      && asWritten == Success(ColorTuple(HexText(intended.value.text), c.g, c.b))
  {
  }

  // ---------------------------------------------------------------------
  // base_date_arr

  function TimezoneMessage(timezone: int): string {
    DecimalString(timezone) + " is not a valid timezone shift"
  }

  /** The first minute of the grid: January 1, 00:00 UTC, minus the shift. */
  function StartMinute(year: int, timezone: int): int {
    Calendar.YearStartMinute(year) - Calendar.MinutesPerHour * timezone
  }

  /** base_date_arr: the minutes of the (shifted) year as a 1440-row grid,
      one column per day, optionally with the rows flipped. */
  function BaseDateArr(year: int, flip: bool, timezone: int := 0): (r: Result<seq<seq<int>>>)
    ensures r.Success? <==> -12 <= timezone <= 12
    ensures r.Failure? ==> r.error == AssertionError(TimezoneMessage(timezone))
    ensures r.Success? ==> Grid.IsMatrix(r.value, Calendar.MinutesPerDay, Calendar.DaysInYear(year))
  {
    if !(-12 <= timezone <= 12) then Failure(AssertionError(TimezoneMessage(timezone)))
    else
      var start := StartMinute(year, timezone);
      var end := StartMinute(year + 1, timezone);
      var flat := Grid.Arange(start, end);
      Calendar.MinutesInYear(year);
      match Grid.Reshape(flat, Calendar.MinutesPerDay)
      case Failure(e) => Failure(e)
      case Success(days) =>
        var grid := Grid.Transpose(days, |flat| / Calendar.MinutesPerDay, Calendar.MinutesPerDay);
        Success(if flip then Grid.FlipRows(grid) else grid)
  }

  /** Entry [m][d] is minute m of day d after the shifted start, the rows
      counted from the bottom when flipped. */
  lemma {:induction false} BaseDateArrEntry(year: int, flip: bool, timezone: int, m: int, d: int)
    requires -12 <= timezone <= 12
    requires 0 <= m < Calendar.MinutesPerDay && 0 <= d < Calendar.DaysInYear(year)
    ensures BaseDateArr(year, flip, timezone).value[m][d]
         == StartMinute(year, timezone) + Calendar.MinutesPerDay * d + (if flip then 1439 - m else m)
  {
    var start := StartMinute(year, timezone);
    var flat := Grid.Arange(start, StartMinute(year + 1, timezone));
    Calendar.MinutesInYear(year);
    var days := Grid.Reshape(flat, Calendar.MinutesPerDay).value;
    var grid := Grid.Transpose(days, |flat| / Calendar.MinutesPerDay, Calendar.MinutesPerDay);
    var m' := if flip then 1439 - m else m;
    Grid.ReshapeCell(flat, Calendar.MinutesPerDay, d, m');
    assert grid[m'][d] == flat[d * 1440 + m'];
    if flip {
      Grid.FlipRowsCell(grid, Calendar.MinutesPerDay, Calendar.DaysInYear(year));
    }
  }

  /** The grid holds the year's 525,600 minutes, or 527,040 in a leap year. */
  lemma {:induction false} BaseDateArrSize(year: int, flip: bool, timezone: int)
    requires -12 <= timezone <= 12
    ensures var g := BaseDateArr(year, flip, timezone).value;
      |g| * |g[0]| == if Calendar.IsLeapYear(year) then 527040 else 525600
  {
    Calendar.MinutesInYear(year);
  }

  /** Flipping reverses the row order and nothing else. */
  lemma {:induction false} BaseDateArrFlip(year: int, timezone: int, m: int, d: int)
    requires -12 <= timezone <= 12
    requires 0 <= m < Calendar.MinutesPerDay && 0 <= d < Calendar.DaysInYear(year)
    ensures BaseDateArr(year, true, timezone).value[m][d] == BaseDateArr(year, false, timezone).value[1439 - m][d]
  {
    BaseDateArrEntry(year, true, timezone, m, d);
    BaseDateArrEntry(year, false, timezone, 1439 - m, d);
  }

  // ---------------------------------------------------------------------
  // pos_png

  /** The pixel pos_png computes for one instant, given the ephemeris. */
  function PixelAt(instant: int, lon: real, lat: real, sunPosition: (int, real, real) -> SunPosition,
                   sunriseJump: real, hueShift: real): Rgb {
    var p := sunPosition(instant, lon, lat);
    SampleRgb(p.azimuth, p.altitude, sunriseJump, hueShift)
  }

  /** pos_png: one uint8 pixel per grid cell, filled row by row. The first
      cell raises if the arguments are invalid; an empty grid raises
      nothing. */
  method PosPng(arrDt: seq<seq<int>>, rows: nat, cols: nat, lon: real, lat: real,
                sunPosition: (int, real, real) -> SunPosition,
                sunriseJump: real := 0.0, hueShift: PyNum := PyFloat(0.0))
    returns (res: Result<array3<Byte>>)
    requires Grid.IsMatrix(arrDt, rows, cols)
    requires forall i, j :: 0 <= i < rows && 0 <= j < cols ==>
      InAltitudeRange(sunPosition(arrDt[i][j], lon, lat).altitude)
    ensures res.Failure? <==> rows > 0 && cols > 0 && CheckArguments(sunriseJump, hueShift).Some?
    ensures res.Failure? ==> res.error == CheckArguments(sunriseJump, hueShift).value
    ensures res.Success? ==> fresh(res.value)
    ensures res.Success? ==> var a := res.value;
      && a.Length0 == rows && a.Length1 == cols && a.Length2 == 3
      && forall i, j :: 0 <= i < rows && 0 <= j < cols ==>
           var c := PixelAt(arrDt[i][j], lon, lat, sunPosition, sunriseJump, hueShift.AsReal());
           a[i, j, 0] == c.r && a[i, j, 1] == c.g && a[i, j, 2] == c.b
  {
    var a := new Byte[rows, cols, 3];
    var i := 0;
    while i < rows
      invariant 0 <= i <= rows
      invariant i > 0 && cols > 0 ==> CheckArguments(sunriseJump, hueShift).None?
      invariant forall i', j' :: 0 <= i' < i && 0 <= j' < cols ==>
        var c := PixelAt(arrDt[i'][j'], lon, lat, sunPosition, sunriseJump, hueShift.AsReal());
        a[i', j', 0] == c.r && a[i', j', 1] == c.g && a[i', j', 2] == c.b
    {
      var err := FillRow(a, arrDt[i], i, lon, lat, sunPosition, sunriseJump, hueShift);
      if err.Some? {
        return Failure(err.value);
      }
      i := i + 1;
    }
    return Success(a);
  }

  /** The inner loop of pos_png: fills row i of the pixel array from the
      instants of one grid row, leaving every other row as it was. The
      first get_color call raises if the arguments are invalid. */
  method FillRow(a: array3<Byte>, instants: seq<int>, i: nat, lon: real, lat: real,
                 sunPosition: (int, real, real) -> SunPosition,
                 sunriseJump: real, hueShift: PyNum)
    returns (err: Option<PyError>)
    requires i < a.Length0 && a.Length1 == |instants| && a.Length2 == 3
    requires forall j :: 0 <= j < |instants| ==> InAltitudeRange(sunPosition(instants[j], lon, lat).altitude)
    modifies a
    ensures err.Some? <==> |instants| > 0 && CheckArguments(sunriseJump, hueShift).Some?
    ensures err.Some? ==> err.value == CheckArguments(sunriseJump, hueShift).value
    ensures err.None? ==> forall j :: 0 <= j < |instants| ==>
      var c := PixelAt(instants[j], lon, lat, sunPosition, sunriseJump, hueShift.AsReal());
      a[i, j, 0] == c.r && a[i, j, 1] == c.g && a[i, j, 2] == c.b
    ensures forall i', j, k :: 0 <= i' < a.Length0 && i' != i && 0 <= j < a.Length1 && 0 <= k < 3 ==>
      a[i', j, k] == old(a[i', j, k])
  {
    var j := 0;
    while j < |instants|
      invariant 0 <= j <= |instants|
      invariant j > 0 ==> CheckArguments(sunriseJump, hueShift).None?
      invariant forall j' :: 0 <= j' < j ==>
        var c := PixelAt(instants[j'], lon, lat, sunPosition, sunriseJump, hueShift.AsReal());
        a[i, j', 0] == c.r && a[i, j', 1] == c.g && a[i, j', 2] == c.b
      invariant forall i', j', k :: 0 <= i' < a.Length0 && i' != i && 0 <= j' < a.Length1 && 0 <= k < 3 ==>
        a[i', j', k] == old(a[i', j', k])
    {
      var p := sunPosition(instants[j], lon, lat);
      var color := GetColor(p.azimuth, p.altitude, sunriseJump, hueShift, false);
      if color.Failure? {
        return Some(color.error);
      }
      GetColorChannels(p.azimuth, p.altitude, sunriseJump, hueShift.f, false);
      a[i, j, 0] := color.value.first.r;
      a[i, j, 1] := color.value.g;
      a[i, j, 2] := color.value.b;
      j := j + 1;
    }
    return None;
  }
}
