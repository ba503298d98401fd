/** dev_shams_class.py: the Shams renderer object. Its settings are fields
    with validating setters; _get_colors turns per-minute sun positions into
    rounded channels, testing the jump sign on the squashed altitude;
    _stack_rgb lays the channels out as a 1440-row, one-column-per-day
    uint8 pixel array. */
module ShamsClass {
  import opened PySemantics
  import opened ColorSteps
  import Colorsys
  import Grid
  import Arith

  const LonMessage := "lon must be between -180 and 180"
  const LatMessage := "lat must be between -90 and 90"
  const SetterJumpMessage := "sunrise_jump must be between 0 and 1"
  /** NumPy's error when a vectorized function without `otypes` is called
      on empty arrays. */
  const VectorizeMessage := "cannot call `vectorize` on size 0 inputs unless `otypes` is set"

  /** The red, green and blue channel arrays _get_colors returns. */
  datatype Channels = Channels(r: seq<int>, g: seq<int>, b: seq<int>)

  /** The values of all fields of a Shams object. */
  datatype Settings = Settings(lon: real, lat: real, year: int, title: string, useDst: bool,
                               sunriseJump: real, hueShift: PyNum)

  /** The channels _get_colors computes for one sample. */
  function SampleColor(azimuth: real, altitude: real, jump: real, hueShift: real): Rgb {
    RgbOf(Hue(azimuth, hueShift), ScaledSignLightness(altitude, jump))
  }

  /** `file_name[-4:]`. */
  function LastFour(s: string): (r: string)
    ensures |r| == (if |s| <= 4 then |s| else 4)
    ensures r == s[|s| - |r|..]
  {
    if |s| <= 4 then s else s[|s| - 4..]
  }

  /** The file name gen_png writes to: the title when none is given, with
      ".png" appended unless it already ends so. */
  function PngFileName(fileName: Option<string>, title: string): (name: string)
    ensures |name| >= 4 && name[|name| - 4..] == ".png"
    ensures var f := if fileName.Some? then fileName.value else title;
      (name == f || name == f + ".png") && (LastFour(f) == ".png" ==> name == f)
  {
    var f := if fileName.Some? then fileName.value else title;
    if LastFour(f) != ".png" then f + ".png" else f
  }

  /** A name that already ends in ".png" is kept, so the rule is idempotent. */
  lemma PngFileNameIdempotent(fileName: Option<string>, title: string)
    ensures PngFileName(Some(PngFileName(fileName, title)), title) == PngFileName(fileName, title)
  {
    var name := PngFileName(fileName, title);
    assert LastFour(name) == ".png";
  }

  class Shams {
    var lon: real
    var lat: real
    var year: int
    var title: string
    var useDst: bool
    var sunriseJump: real
    var hueShift: PyNum

    function Snapshot(): Settings
      reads this
    {
      Settings(lon, lat, year, title, useDst, sunriseJump, hueShift)
    }

    /** Stores the arguments as given; nothing is validated here. */
    constructor (lon: real, lat: real, year: int, title: string := "shams", useDst: bool := false,
                 sunriseJump: real := 0.3, hueShift: PyNum := PyFloat(0.0))
      ensures Snapshot() == Settings(lon, lat, year, title, useDst, sunriseJump, hueShift)
    {
      this.lon := lon;
      this.lat := lat;
      this.year := year;
      this.title := title;
      this.useDst := useDst;
      this.sunriseJump := sunriseJump;
      this.hueShift := hueShift;
    }

    /** The lon setter: rejects values outside [-180, 180] and otherwise
        changes lon and nothing else. */
    method SetLon(lon: real) returns (out: Outcome)
      modifies this
      ensures out == if -180.0 <= lon <= 180.0 then Pass else Fail(AssertionError(LonMessage))
      ensures Snapshot() == if out.Pass? then old(Snapshot()).(lon := lon) else old(Snapshot())
    {
      if !(-180.0 <= lon <= 180.0) {
        return Fail(AssertionError(LonMessage));
      }
      this.lon := lon;
      return Pass;
    }

    /** The lat setter as written: it validates the latitude and then
        stores it in lon, so lat never changes. */
    method SetLat(lat: real) returns (out: Outcome)
      modifies this
      ensures out == if -90.0 <= lat <= 90.0 then Pass else Fail(AssertionError(LatMessage))
      ensures Snapshot() == if out.Pass? then old(Snapshot()).(lon := lat) else old(Snapshot())
      ensures this.lat == old(this.lat)
    {
      if !(-90.0 <= lat <= 90.0) {
        return Fail(AssertionError(LatMessage));
      }
      this.lon := lat;
      return Pass;
    }

    /** The lat setter as intended: stores the latitude in lat and changes
        nothing else. */
    method SetLatIntended(lat: real) returns (out: Outcome)
      modifies this
      ensures out == if -90.0 <= lat <= 90.0 then Pass else Fail(AssertionError(LatMessage))
      ensures Snapshot() == if out.Pass? then old(Snapshot()).(lat := lat) else old(Snapshot())
    {
      if !(-90.0 <= lat <= 90.0) {
        return Fail(AssertionError(LatMessage));
      }
      this.lat := lat;
      return Pass;
    }

    /** The year setter; its int check always holds of an int. */
    method SetYear(year: int) returns (out: Outcome)
      modifies this
      ensures out == Pass && Snapshot() == old(Snapshot()).(year := year)
    {
      this.year := year;
      return Pass;
    }

    /** The title setter; its str check always holds of a string. */
    method SetTitle(title: string) returns (out: Outcome)
      modifies this
      ensures out == Pass && Snapshot() == old(Snapshot()).(title := title)
    {
      this.title := title;
      return Pass;
    }

    /** The use_dst setter; its bool check always holds of a bool. */
    method SetUseDst(useDst: bool) returns (out: Outcome)
      modifies this
      ensures out == Pass && Snapshot() == old(Snapshot()).(useDst := useDst)
    {
      this.useDst := useDst;
      return Pass;
    }

    /** The sunrise_jump setter: rejects values outside [0, 1]. */
    method SetSunriseJump(sunriseJump: real) returns (out: Outcome)
      modifies this
      ensures out == if ValidJump(sunriseJump) then Pass else Fail(AssertionError(SetterJumpMessage))
      ensures Snapshot() == if out.Pass? then old(Snapshot()).(sunriseJump := sunriseJump) else old(Snapshot())
    {
      if !ValidJump(sunriseJump) {
        return Fail(AssertionError(SetterJumpMessage));
      }
      this.sunriseJump := sunriseJump;
      return Pass;
    }

    /** The hue_shift setter: rejects anything but a float. */
    method SetHueShift(hueShift: PyNum) returns (out: Outcome)
      modifies this
      ensures out == if hueShift.PyFloat? then Pass else Fail(AssertionError(HueShiftMessage))
      ensures Snapshot() == if out.Pass? then old(Snapshot()).(hueShift := hueShift) else old(Snapshot())
    {
      if !hueShift.PyFloat? {
        return Fail(AssertionError(HueShiftMessage));
      }
      this.hueShift := hueShift;
      return Pass;
    }

    /** _get_colors: both settings are checked before anything is computed;
        `np.vectorize(hls_to_rgb)`, having no `otypes`, raises on zero
        samples; otherwise every sample gets the colour SampleColor gives it,
        and for altitudes an ephemeris can return every channel fits a
        uint8. */
    method GetColors(azimuths: seq<real>, altitudes: seq<real>) returns (res: Result<Channels>)
      requires |azimuths| == |altitudes|
      ensures res.Failure? <==> !ValidJump(sunriseJump) || !hueShift.PyFloat? || |altitudes| == 0
      ensures !ValidJump(sunriseJump) ==> res == Failure(AssertionError(JumpMessage))
      ensures ValidJump(sunriseJump) && !hueShift.PyFloat? ==> res == Failure(AssertionError(HueShiftMessage))
      ensures ValidJump(sunriseJump) && hueShift.PyFloat? && |altitudes| == 0 ==>
        res == Failure(ValueError(VectorizeMessage))
      ensures res.Success? ==> var ch := res.value;
        && |ch.r| == |altitudes| && |ch.g| == |altitudes| && |ch.b| == |altitudes|
        && forall i :: 0 <= i < |altitudes| ==>
             Rgb(ch.r[i], ch.g[i], ch.b[i]) == SampleColor(azimuths[i], altitudes[i], sunriseJump, hueShift.f)
      ensures res.Success? && (forall i :: 0 <= i < |altitudes| ==> InAltitudeRange(altitudes[i])) ==>
        forall i :: 0 <= i < |altitudes| ==> IsByteRgb(Rgb(res.value.r[i], res.value.g[i], res.value.b[i]))
    {
      if !ValidJump(sunriseJump) {
        return Failure(AssertionError(JumpMessage));
      }
      if !hueShift.PyFloat? {
        return Failure(AssertionError(HueShiftMessage));
      }
      var jump := sunriseJump;
      var n := |altitudes|;
      var scaled := SquashAndJump(altitudes, jump);
      if n == 0 {
        return Failure(ValueError(VectorizeMessage));
      }
      var r, g, b := [], [], [];
      var k := 0;
      while k < n
        invariant 0 <= k <= n
        invariant |r| == k && |g| == k && |b| == k
        invariant forall i :: 0 <= i < k ==>
          Rgb(r[i], g[i], b[i]) == SampleColor(azimuths[i], altitudes[i], jump, hueShift.f)
      {
        var hue := Frac((azimuths[k] / Tau) + 0.5 + hueShift.f);
        var lightness := scaled[k] / 2.0 + 0.5;
        var t := Colorsys.HlsToRgb(hue, lightness, 1.0);
        r := r + [RoundHalfEven(255.0 * t.r)];
        g := g + [RoundHalfEven(255.0 * t.g)];
        b := b + [RoundHalfEven(255.0 * t.b)];
        k := k + 1;
      }
      if forall i :: 0 <= i < n ==> InAltitudeRange(altitudes[i]) {
        forall i | 0 <= i < n
          ensures IsByteRgb(Rgb(r[i], g[i], b[i]))
        {
          SampleColorIsByte(azimuths[i], altitudes[i], jump, hueShift.f);
        }
      }
      return Success(Channels(r, g, b));
    }

    /** _stack_rgb: a [1440][len / 1440][3] uint8 array whose cell [m][d][c]
        is minute m of day d of channel c; reading a channel back column
        after column gives the input. Raises ValueError, from the reshape,
        when the length is not a whole number of days. */
    static method StackRgb(r: seq<int>, g: seq<int>, b: seq<int>) returns (res: Result<array3<Byte>>)
      requires |g| == |r| && |b| == |r|
      requires forall i :: 0 <= i < |r| ==> 0 <= r[i] < 256 && 0 <= g[i] < 256 && 0 <= b[i] < 256
      ensures res.Success? <==> |r| % 1440 == 0
      ensures res.Success? ==> fresh(res.value)
      ensures res.Failure? ==> res.error == ValueError(Grid.ReshapeMessage)
      ensures res.Success? ==> var a := res.value;
        && a.Length0 == 1440 && a.Length1 == |r| / 1440 && a.Length2 == 3
        && (forall m, d :: 0 <= m < 1440 && 0 <= d < |r| / 1440 ==>
              0 <= d * 1440 + m < |r| &&
              a[m, d, 0] == r[d * 1440 + m] && a[m, d, 1] == g[d * 1440 + m] && a[m, d, 2] == b[d * 1440 + m])
        && (forall k :: 0 <= k < |r| ==>
              a[k % 1440, k / 1440, 0] == r[k] && a[k % 1440, k / 1440, 1] == g[k] && a[k % 1440, k / 1440, 2] == b[k])
    {
      var width := |r| / 1440;
      var a := new Byte[1440, width, 3];
      if |r| % 1440 != 0 {
        return Failure(ValueError(Grid.ReshapeMessage));
      }
      var tr := Grid.Transpose(Grid.Reshape(r, 1440).value, width, 1440);
      var tg := Grid.Transpose(Grid.Reshape(g, 1440).value, width, 1440);
      var tb := Grid.Transpose(Grid.Reshape(b, 1440).value, width, 1440);
      ChannelCells(r, 0, tr);
      ChannelCells(g, 1, tg);
      ChannelCells(b, 2, tb);
      FillChannel(a, 0, tr);
      FillChannel(a, 1, tg);
      FillChannel(a, 2, tb);
      assert forall m, d :: 0 <= m < 1440 && 0 <= d < width ==>
        0 <= d * 1440 + m < |r| && a[m, d, 0] == r[d * 1440 + m] && a[m, d, 1] == g[d * 1440 + m] && a[m, d, 2] == b[d * 1440 + m];
      ColumnMajorCells(a, r, g, b);
      return Success(a);
    }
  }

  /** Cell [m][d] holding sample d * 1440 + m means that sample k sits at
      [k % 1440][k / 1440]. */
  lemma ColumnMajorCells(a: array3<Byte>, r: seq<int>, g: seq<int>, b: seq<int>)
    requires |g| == |r| && |b| == |r| && |r| % 1440 == 0
    requires a.Length0 == 1440 && a.Length1 == |r| / 1440 && a.Length2 == 3
    requires forall m, d :: 0 <= m < 1440 && 0 <= d < |r| / 1440 ==>
      a[m, d, 0] == r[d * 1440 + m] && a[m, d, 1] == g[d * 1440 + m] && a[m, d, 2] == b[d * 1440 + m]
    ensures forall k :: 0 <= k < |r| ==>
      a[k % 1440, k / 1440, 0] == r[k] && a[k % 1440, k / 1440, 1] == g[k] && a[k % 1440, k / 1440, 2] == b[k]
  {
    forall k | 0 <= k < |r|
      ensures a[k % 1440, k / 1440, 0] == r[k] && a[k % 1440, k / 1440, 1] == g[k] && a[k % 1440, k / 1440, 2] == b[k]
    {
      Arith.FlatIndex(k, |r| / 1440, 1440);
    }
  }

  /** For altitudes an ephemeris can return and a valid jump, every channel
      of a sample fits a uint8. */
  lemma SampleColorIsByte(azimuth: real, altitude: real, jump: real, hueShift: real)
    requires InAltitudeRange(altitude) && ValidJump(jump)
    ensures IsByteRgb(SampleColor(azimuth, altitude, jump, hueShift))
  {
    ScaledSignLightnessBounds(altitude, jump);
    RgbOfIsByte(Hue(azimuth, hueShift), ScaledSignLightness(altitude, jump));
  }

  /** With sunrise_jump = 1 every sample comes out white, night included,
      where the comment on dev_shams_class.py:70 promises black nights. */
  lemma {:induction false} FullJumpAllWhite(azimuth: real, altitude: real, hueShift: real)
    ensures SampleColor(azimuth, altitude, 1.0, hueShift) == Rgb(255, 255, 255)
  {
    ScaledSignFullJump(altitude);
    WhiteAndBlack(Hue(azimuth, hueShift));
  }

  /** The in-place steps of _get_colors (dev_shams_class.py:78-83): scale the altitudes, squash them, take both
      sign masks of the squashed values, then add the jump where the mask is
      non-negative and subtract it where it is negative. */
  method SquashAndJump(altitudes: seq<real>, jump: real) returns (scaled: array<real>)
    ensures fresh(scaled)
    ensures scaled.Length == |altitudes|
    ensures forall i :: 0 <= i < |altitudes| ==> scaled[i] == ScaledSignJump(altitudes[i], jump)
  {
    var n := |altitudes|;
    scaled := new real[n];
    var k := 0;
    while k < n
      invariant 0 <= k <= n
      invariant forall i :: 0 <= i < k ==> scaled[i] == ScaledAltitude(altitudes[i])
    {
      scaled[k] := (altitudes[k] / Pi) * 2.0;
      k := k + 1;
    }
    ScaleBy(scaled, 1.0 - jump);
    // both masks are taken before either update
    var squashed := scaled[..];
    var idxPos := seq(n, i requires 0 <= i < n => squashed[i] >= 0.0);
    var idxNeg := seq(n, i requires 0 <= i < n => squashed[i] < 0.0);
    AddWhere(scaled, idxPos, jump);
    ghost var jumped := scaled[..];
    AddWhere(scaled, idxNeg, -jump);
    forall i | 0 <= i < n
      ensures scaled[i] == ScaledSignJump(altitudes[i], jump)
    {
      assert squashed[i] == Squashed(altitudes[i], jump);
      assert jumped[i] == if idxPos[i] then squashed[i] + jump else squashed[i];
    }
  }

  /** `a *= factor` on a float array. */
  method ScaleBy(a: array<real>, factor: real)
    modifies a
    ensures forall i :: 0 <= i < a.Length ==> a[i] == old(a[i]) * factor
  {
    var k := 0;
    while k < a.Length
      invariant 0 <= k <= a.Length
      invariant forall i :: 0 <= i < k ==> a[i] == old(a[i]) * factor
      invariant forall i :: k <= i < a.Length ==> a[i] == old(a[i])
    {
      a[k] := a[k] * factor;
      k := k + 1;
    }
  }

  /** `a[mask] += delta`: only the elements the boolean mask selects change. */
  method AddWhere(a: array<real>, mask: seq<bool>, delta: real)
    requires |mask| == a.Length
    modifies a
    ensures forall i :: 0 <= i < a.Length ==> a[i] == (if mask[i] then old(a[i]) + delta else old(a[i]))
  {
    var k := 0;
    while k < a.Length
      invariant 0 <= k <= a.Length
      invariant forall i :: 0 <= i < k ==> a[i] == (if mask[i] then old(a[i]) + delta else old(a[i]))
      invariant forall i :: k <= i < a.Length ==> a[i] == old(a[i])
    {
      if mask[k] {
        a[k] := a[k] + delta;
      }
      k := k + 1;
    }
  }

  /** Cell [m][d] of `ch.reshape((-1, 1440)).T` is ch[d * 1440 + m], a uint8. */
  lemma ChannelCells(ch: seq<int>, c: nat, t: seq<seq<int>>)
    requires |ch| % 1440 == 0
    requires forall i :: 0 <= i < |ch| ==> 0 <= ch[i] < 256
    requires t == Grid.Transpose(Grid.Reshape(ch, 1440).value, |ch| / 1440, 1440)
    ensures Grid.IsMatrix(t, 1440, |ch| / 1440)
    ensures forall m, d :: 0 <= m < 1440 && 0 <= d < |ch| / 1440 ==>
      0 <= d * 1440 + m < |ch| && t[m][d] == ch[d * 1440 + m] && 0 <= t[m][d] < 256
  {
    forall m, d | 0 <= m < 1440 && 0 <= d < |ch| / 1440
      ensures 0 <= d * 1440 + m < |ch| && t[m][d] == ch[d * 1440 + m]
    {
      Grid.ReshapeCell(ch, 1440, d, m);
    }
  }

  /** `new[:, :, c] = t`: copies a 1440-row grid into layer c of the
      pixel array, leaving the other layers as they were. */
  method FillChannel(a: array3<Byte>, c: nat, t: seq<seq<int>>)
    requires a.Length0 == 1440 && a.Length2 == 3 && c < 3
    requires Grid.IsMatrix(t, 1440, a.Length1)
    requires forall m, d :: 0 <= m < 1440 && 0 <= d < a.Length1 ==> 0 <= t[m][d] < 256
    modifies a
    ensures forall m, d :: 0 <= m < 1440 && 0 <= d < a.Length1 ==> a[m, d, c] == t[m][d]
    ensures forall m, d, c' :: 0 <= m < 1440 && 0 <= d < a.Length1 && 0 <= c' < 3 && c' != c ==>
      a[m, d, c'] == old(a[m, d, c'])
  {
    var m := 0;
    while m < 1440
      invariant 0 <= m <= 1440
      invariant forall m', d :: 0 <= m' < m && 0 <= d < a.Length1 ==> a[m', d, c] == t[m'][d]
      invariant forall m', d, c' :: 0 <= m' < 1440 && 0 <= d < a.Length1 && 0 <= c' < 3 && c' != c ==>
        a[m', d, c'] == old(a[m', d, c'])
    {
      var d := 0;
      while d < a.Length1
        invariant 0 <= d <= a.Length1
        invariant forall m', d' :: 0 <= m' < m && 0 <= d' < a.Length1 ==> a[m', d', c] == t[m'][d']
        invariant forall d' :: 0 <= d' < d ==> a[m, d', c] == t[m][d']
        invariant forall m', d', c' :: 0 <= m' < 1440 && 0 <= d' < a.Length1 && 0 <= c' < 3 && c' != c ==>
          a[m', d', c'] == old(a[m', d', c'])
      {
        a[m, d, c] := t[m][d];
        d := d + 1;
      }
      m := m + 1;
    }
  }

  /** The lat setter leaves lat as it was and overwrites lon: the object
      placed at (20, 10) reports (45, 10) after `lat = 45`. */
  method LatSetterOverwritesLon() returns (lonAfter: real, latAfter: real)
    ensures lonAfter == 45.0 && latAfter == 10.0
  {
    var s := new Shams(20.0, 10.0, 2021);
    var out := s.SetLat(45.0);
    lonAfter, latAfter := s.lon, s.lat;
  }

  /** The corrected setter moves the object to (20, 45). */
  method LatSetterIntendedMovesLat() returns (lonAfter: real, latAfter: real)
    ensures lonAfter == 20.0 && latAfter == 45.0
  {
    var s := new Shams(20.0, 10.0, 2021);
    var out := s.SetLatIntended(45.0);
    lonAfter, latAfter := s.lon, s.lat;
  }

  /** gen_png without the ephemeris, timezone and file steps: the colours of
      the given sun positions stacked into pixels. Pixel [m][d] shows sample
      d * 1440 + m. */
  method GenPixels(shams: Shams, azimuths: seq<real>, altitudes: seq<real>) returns (res: Result<array3<Byte>>)
    requires |azimuths| == |altitudes|
    requires forall i :: 0 <= i < |altitudes| ==> InAltitudeRange(altitudes[i])
    ensures res.Success? <==>
      (ValidJump(shams.sunriseJump) && shams.hueShift.PyFloat? && |altitudes| > 0 && |altitudes| % 1440 == 0)
    ensures res.Success? ==> fresh(res.value)
    ensures res.Success? ==> var a := res.value;
      && a.Length0 == 1440 && a.Length1 == |altitudes| / 1440 && a.Length2 == 3
      && forall m, d :: 0 <= m < 1440 && 0 <= d < |altitudes| / 1440 ==>
           0 <= d * 1440 + m < |altitudes| &&
           var c := SampleColor(azimuths[d * 1440 + m], altitudes[d * 1440 + m], shams.sunriseJump, shams.hueShift.f);
           a[m, d, 0] == c.r && a[m, d, 1] == c.g && a[m, d, 2] == c.b
  {
    var colors := shams.GetColors(azimuths, altitudes);
    if colors.Failure? {
      return Failure(colors.error);
    }
    var ch := colors.value;
    assert forall i :: 0 <= i < |ch.r| ==> 0 <= ch.r[i] < 256 && 0 <= ch.g[i] < 256 && 0 <= ch.b[i] < 256 by {
      forall i | 0 <= i < |ch.r| ensures 0 <= ch.r[i] < 256 && 0 <= ch.g[i] < 256 && 0 <= ch.b[i] < 256 {
        assert IsByteRgb(Rgb(ch.r[i], ch.g[i], ch.b[i]));
      }
    }
    res := Shams.StackRgb(ch.r, ch.g, ch.b);
  }
}
