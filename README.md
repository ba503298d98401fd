# shams: a verified model of the sun-path colour renderer

The program turns a year of per-minute sun positions for one place into an
image 1440 pixels tall, with one column per day. Each instant's azimuth
becomes a hue. Its altitude becomes a lightness, after the "squash-and-jump"
that separates day from night. The HLS colour is converted to 8-bit RGB.

This Dafny project models the three self-contained parts of that pipeline:

- **The colour mapper.** There are four variants:
  - `Shams._get_colors` in `dev_shams_class.py`;
  - `get_color` in `helper.py`;
  - `get_color` in `python/helper.py`;
  - the fixed-parameter `get_color` in `python/helper_new.py`.

  All four are built on one model of `colorsys.hls_to_rgb`, Python's `% 1`,
  and round-half-to-even (`round` and `np.round`).
- **The minute grids.** These are `base_date_arr` in `helper.py` (with a
  whole-hour timezone shift and an optional flip) and in `python/shams.py`
  (day by day, always flipped). Instants are whole minutes since
  1970-01-01T00:00 UTC, on the proleptic Gregorian calendar.
- **The pixel assemblers.** These are `Shams._stack_rgb` and the `pos_png`
  fill loop. Both are modelled as methods that fill a `uint8` array.

It also models the `Shams` object: its fields, its constructor, and its
validating property setters.

The modules are:

- `PySemantics`: exceptions as `Result`, Python numbers, `% 1.0`, rounding,
  hex formatting.
- `Colorsys`.
- `ColorSteps`: the steps the mapper variants share.
- `Grid`: NumPy `arange`, `reshape`, `.T`, `flipud` and elementwise maps.
- `Calendar`.
- One module per source file: `ShamsClass`, `Helper`, `PyShams`, `PyHelper`,
  `PyHelperNew`.

Python exceptions are `Failure(AssertionError(msg))` or
`Failure(ValueError(msg))` results, carrying the source's own messages.
Altitudes are said to be "in range" when they lie in [-pi/2, pi/2], which is
what the ephemeris returns. The bounds on channels and lightness are proved
under that assumption.

The constructor (dev_shams_class.py:16-24) validates nothing: it stores its
arguments unchecked. Validation happens in the setters and again when
colours are computed, and the model does the same.

## Model

| member | source | states |
|---|---|---|
| PySemantics.Frac | helper.py:24 | `x % 1.0` lies in [0, 1) and differs from x by a whole number |
| PySemantics.FracShift | helper.py:24 | adding a whole number leaves `% 1.0` unchanged |
| PySemantics.RoundHalfEven | helper.py:27-29 | `round` gives the nearest integer, within 0.5, and an even one on a tie |
| PySemantics.RoundInByteRange | dev_shams_class.py:91-93 | a value in [0, 255] rounds into [0, 255] |
| PySemantics.FormatHexColor | helper.py:30 | the colour string has at least six characters; for uint8 channels exactly six that parse back (HexColorRoundTrip) |
| PySemantics.Format02x | helper.py:30 | `"{:02x}"` of any int: at least two characters; for uint8 values exactly the two digits (Format02xByte) |
| PySemantics.Format02xByte | helper.py:30 | `"{:02x}"` of a uint8 value is exactly its two hex digits, high digit first |
| PySemantics.HexColorRoundTrip | helper.py:30 | for three uint8 channels the upper-cased colour string is six hex digits that parse back to the same channels |
| Colorsys.V | helper.py:26 | `colorsys._v`: the piecewise-linear ramp, rising from m1 to m2 on [0, 1/6), m2 up to 1/2, falling back to m1 by 2/3, m1 beyond, read through `hue % 1.0`; its properties are VBetween and VSameFrac |
| Colorsys.HlsToRgb | helper.py:26 | `colorsys.hls_to_rgb`: grey when s is 0, otherwise the ramp ends m2 and m1 = 2l - m2 sampled at hue + 1/3, hue, hue - 1/3; its properties are the HlsToRgb lemmas below |
| Colorsys.VBetween | helper.py:26 | every channel of `hls_to_rgb` lies between the two ramp ends m1 and m2 |
| Colorsys.HlsToRgbInUnit | helper.py:26 | for lightness and saturation in [0, 1], all three channels lie in [0, 1] |
| Colorsys.HlsToRgbHueWraps | helper.py:24-26 | `hls_to_rgb` depends on the hue only modulo 1 |
| Colorsys.HlsToRgbHuePeriod | helper.py:24-26 | adding a whole turn to the hue leaves the colour unchanged |
| Colorsys.HlsToRgbLightnessRecovered | helper.py:26 | (max + min) / 2 of the channels is the requested lightness, for any hue |
| Colorsys.HlsToRgbGrey | helper.py:26 | saturation 0 gives the grey of the lightness |
| ColorSteps.ScaledAltitude | dev_shams_class.py:78 | an in-range altitude scales into [-1, 1], and the scaled value has the altitude's sign |
| ColorSteps.Squashed | dev_shams_class.py:79 | `altitude_scaled *= 1 - sunrise_jump` (also helper.py:20); its range and sign facts are used by RawSignLightnessBounds, SquashedSign and SignTestsAgree |
| ColorSteps.SquashedSign | helper.py:19-20 | squashing by a factor in (0, 1] keeps the altitude's sign |
| ColorSteps.ScaledSignJump | dev_shams_class.py:79-83 | for a non-negative jump the jumped value is non-negative exactly where the squashed value is, so the two masks select complementary samples |
| ColorSteps.RawSignJump | helper.py:20-21 | for a valid jump the jumped value is non-negative exactly when the altitude is |
| ColorSteps.Lightness | helper.py:22 | a scaled value in [-1, 1] gives a lightness in [0, 1] |
| ColorSteps.Hue | helper.py:24 | the hue always lies in [0, 1) |
| ColorSteps.RgbOf | helper.py:26-29 | `hls_to_rgb(hue, lightness, 1)` rounded to 255 per channel; its range and hue-wrap properties are RgbOfIsByte, RgbOfHueWraps and WhiteAndBlack |
| ColorSteps.HueShiftPeriod | dev_shams_class.py:85 | the hue lies in [0, 1), and raising hue_shift by a whole number leaves it unchanged |
| ColorSteps.RgbOfIsByte | dev_shams_class.py:89-93 | a lightness in [0, 1] gives three channels in [0, 255] |
| ColorSteps.RgbOfHueWraps | helper.py:24-29 | the rounded channels depend on the hue only modulo 1 |
| ColorSteps.WhiteAndBlack | helper.py:26-29 | lightness 1 gives (255, 255, 255) and lightness 0 gives (0, 0, 0), at any hue |
| ColorSteps.ScaledSignLightness | dev_shams_class.py:78-86 | the lightness _get_colors computes, with the jump sign tested on the squashed value; its bounds and monotonicity are ScaledSignLightnessBounds and ScaledSignLightnessMonotone |
| ColorSteps.RawSignLightness | helper.py:19-22 | the lightness of the get_color variants (also python/helper.py:15-18 and python/helper_new.py:11-15), jump sign from the raw altitude; its bounds and monotonicity are RawSignLightnessBounds and RawSignLightnessMonotone |
| ColorSteps.RawSignLightnessBounds | helper.py:19-22 | jump sign taken from the raw altitude: the lightness lies in [0, 1]; it is at least (1 + jump)/2 for altitude >= 0 and at most (1 - jump)/2 below the horizon |
| ColorSteps.RawSignLightnessMonotone | helper.py:19-22 | for a valid jump, the lightness never decreases as the altitude rises |
| ColorSteps.RawSignNoJump | helper.py:19-22 | with jump 0 the lightness is altitude/pi + 0.5 |
| ColorSteps.RawSignFullJump | helper.py:11-22 | with jump 1 the lightness is 1 by day and 0 by night |
| ColorSteps.SignTestsAgree | dev_shams_class.py:79-83 | testing the sign on the squashed value and testing it on the raw altitude agree exactly when not (jump = 1 and altitude < 0) |
| ColorSteps.ScaledSignFullJump | dev_shams_class.py:79-83 | with the sign tested on the squashed value, jump 1 gives lightness 1 for every altitude |
| ColorSteps.ScaledSignNoJump | dev_shams_class.py:78-86 | with jump 0 the lightness is altitude/pi + 0.5 |
| ColorSteps.ScaledSignLightnessBounds | dev_shams_class.py:78-86 | for an in-range altitude and a valid jump, the lightness lies in [0, 1] |
| ColorSteps.ScaledSignLightnessMonotone | dev_shams_class.py:78-86 | for a valid jump, the lightness never decreases as the altitude rises |
| Grid.Arange | helper.py:40 | `np.arange(start, end)`: end - start consecutive instants from start, or none |
| Grid.Transpose | helper.py:41 | `.T` turns a rows x cols grid into cols x rows, with cell (i, j) taken from (j, i) |
| Grid.FlipRows | helper.py:44 | `flipud` keeps the number of rows (its cell map is FlipRowsCell) |
| Grid.Reshape | helper.py:41 | `reshape(-1, cols)` succeeds exactly when the length is a multiple of cols, else ValueError; the result has length/cols rows of cols |
| Grid.ReshapeCell | helper.py:41 | cell (i, j) of the reshape is element i*cols + j |
| Grid.TransposeInvolution | helper.py:41 | transposing twice gives the array back |
| Grid.FlipRowsCell | helper.py:44 | `flipud` keeps the shape; cell (i, j) moves to (rows-1-i, j) and the columns keep their order |
| Grid.FlipRowsInvolution | helper.py:44 | flipping twice gives the array back |
| Grid.MapGridCell | python/shams.py:55-56 | an elementwise map keeps the shape and applies f at every cell |
| Grid.ColumnMajorOfTransposedReshape | dev_shams_class.py:102-104 | reading `flat.reshape(-1, cols).T` column by column gives flat back |
| Calendar.IsLeapYear | helper.py:37-38 | the Gregorian rule: divisible by 4, and not by 100 unless by 400; LeapCountStep ties it to the day count |
| Calendar.DaysInYear | helper.py:37-40 | 366 days in a leap year and 365 otherwise; YearLength ties it to consecutive year starts |
| Calendar.YearStartMinute | helper.py:37 | the minute number of January 1 00:00 UTC; MinutesInYear gives the year's span |
| Calendar.YearStartDay | helper.py:37 | the day number of January 1 of the year; its year lengths and known values are YearLength, YearStartKnownValues and FourHundredYearCycle |
| Calendar.LeapCountStep | helper.py:37-38 | the leap count rises by one exactly at a Gregorian leap year |
| Calendar.YearLength | helper.py:37-40 | January 1 of the next year is a year's length, 365 or 366 days, after this one's |
| Calendar.MinutesInYear | helper.py:40-41 | a year holds 1440 x days minutes: 527,040 in a leap year, 525,600 otherwise |
| Calendar.YearStartKnownValues | python/shams.py:9 | January 1 of 1970, 2000 and 2021 are days 0, 10957 and 18628 |
| Calendar.FourHundredYearCycle | helper.py:37-38 | every 400 years are 146,097 days |
| ShamsClass.SampleColor | dev_shams_class.py:85-93 | one sample's colour: wrapped hue and scaled-sign lightness through hls_to_rgb and rounding; its range is SampleColorIsByte |
| ShamsClass.LastFour | dev_shams_class.py:29 | `file_name[-4:]`: the whole name when it has at most four characters, else its last four; used by PngFileName's contract |
| ShamsClass.PngFileName | dev_shams_class.py:26-30 | the output name is the given name, or the title when none is given, with ".png" appended when it does not already end so; it always ends in ".png" |
| ShamsClass.PngFileNameIdempotent | dev_shams_class.py:29-30 | a name that already ends in ".png" is kept unchanged |
| ShamsClass.Shams.constructor | dev_shams_class.py:16-24 | stores every argument unchecked, with defaults: title "shams", no DST, jump 0.3, hue shift 0.0 |
| ShamsClass.Shams.SetLon | dev_shams_class.py:119-122 | rejects lon outside [-180, 180] with the source's message; otherwise changes lon and nothing else |
| ShamsClass.Shams.SetLat | dev_shams_class.py:128-131 | as written: rejects lat outside [-90, 90]; otherwise writes the value into lon, so lat never changes |
| ShamsClass.Shams.SetLatIntended | dev_shams_class.py:128-131 | corrected: after the same check, changes lat and nothing else |
| ShamsClass.Shams.SetYear | dev_shams_class.py:137-140 | changes year and nothing else |
| ShamsClass.Shams.SetTitle | dev_shams_class.py:146-149 | changes title and nothing else |
| ShamsClass.Shams.SetUseDst | dev_shams_class.py:155-158 | changes use_dst and nothing else |
| ShamsClass.Shams.SetSunriseJump | dev_shams_class.py:164-167 | rejects a jump outside [0, 1]; otherwise changes sunrise_jump and nothing else |
| ShamsClass.Shams.SetHueShift | dev_shams_class.py:173-176 | rejects a non-float; otherwise changes hue_shift and nothing else |
| ShamsClass.Shams.GetColors | dev_shams_class.py:68-95 | fails on an invalid jump (checked first) or a non-float shift before computing anything, and with NumPy's ValueError when there are no samples (`np.vectorize` without `otypes`); otherwise returns three channel arrays of the input's length, each sample's colour is its hue and scaled-sign lightness, and all channels are uint8 for in-range altitudes |
| ShamsClass.SquashAndJump | dev_shams_class.py:78-83 | on a freshly allocated array, the in-place scale, squash and masked jump steps leave every element equal to the scaled-sign jump of its altitude |
| ShamsClass.ScaleBy | dev_shams_class.py:79 | `altitude_scaled *= factor` multiplies every element in place |
| ShamsClass.AddWhere | dev_shams_class.py:82-83 | a masked `+=` changes exactly the elements the mask selects, by delta |
| ShamsClass.SampleColorIsByte | dev_shams_class.py:78-93 | an in-range altitude and a valid jump give three channels in [0, 255] |
| ShamsClass.FullJumpAllWhite | dev_shams_class.py:70-86 | with sunrise_jump = 1 every sample is white, night included |
| ShamsClass.Shams.StackRgb | dev_shams_class.py:98-105 | ValueError unless the length is a whole number of days; otherwise a freshly allocated 1440 x len/1440 x 3 array with cell [m, d, c] equal to channel c at d*1440 + m, so reading each channel column by column gives it back |
| ShamsClass.ChannelCells | dev_shams_class.py:102-104 | cell [m][d] of `ch.reshape((-1, 1440)).T` is ch[d*1440 + m] |
| ShamsClass.FillChannel | dev_shams_class.py:101-104 | assigning one channel layer sets exactly that layer and leaves the other two as they were |
| ShamsClass.ColumnMajorCells | dev_shams_class.py:100-104 | sample k of each channel sits at pixel [k % 1440, k / 1440] |
| ShamsClass.LatSetterOverwritesLon | dev_shams_class.py:128-131 | an object at (20, 10) given `lat = 45` reports lon 45 and lat 10 |
| ShamsClass.LatSetterIntendedMovesLat | dev_shams_class.py:128-131 | with the corrected setter the same object reports lon 20 and lat 45 |
| ShamsClass.GenPixels | dev_shams_class.py:31-35 | colours then stacking into a freshly allocated array: succeeds exactly when both settings are valid and the samples fill one or more whole days; pixel [m, d] is the colour of sample d*1440 + m |
| Helper.CheckArguments | helper.py:12-16 | the jump range is checked before the float type of the hue shift; with the source's messages |
| Helper.SampleRgb | helper.py:19-29 | the three channels get_color builds: wrapped hue and raw-sign lightness through hls_to_rgb and rounding; GetColorChannels proves them uint8 |
| Helper.GetColor | helper.py:10-30 | fails exactly when one of the two assertions fails; on success the first element is the hex string exactly when as_hex is set |
| Helper.DefaultCallSucceeds | helper.py:10 | a call relying on the defaults is accepted and returns the hex form |
| Helper.GetColorChannels | helper.py:19-30 | for an in-range altitude: channels (raw-sign lightness, wrapped hue) are uint8; without as_hex the result is (r, g, b); with it, the hex string parses back to (r, g, b) |
| Helper.GetColorIntended | helper.py:10-30 | corrected: the same checks; returns only the hex string when as_hex is set |
| Helper.GetColorIntendedCorrect | helper.py:30 | the corrected hex string encodes all three channels; the corrected triple equals the as-written result without as_hex |
| Helper.HexFlagBindsFirstOnly | helper.py:30 | as written, as_hex = True returns (hex string, g, b), not the hex string |
| Helper.TimezoneMessage | helper.py:35 | the f-string message: the timezone in decimal followed by " is not a valid timezone shift"; BaseDateArr's failure carries it |
| Helper.BaseDateArr | helper.py:34-44 | fails with the source's message unless the timezone is in [-12, 12]; otherwise a grid of 1440 rows by the year's days |
| Helper.BaseDateArrEntry | helper.py:37-44 | entry [m][d] is (Jan 1 00:00 - tz hours) + 1440*d + m, and +1439 - m when flipped |
| Helper.BaseDateArrSize | helper.py:37-41 | the grid holds 527,040 entries in a leap year and 525,600 otherwise |
| Helper.BaseDateArrFlip | helper.py:44 | the flipped grid at [m][d] is the unflipped grid at [1439 - m][d] |
| Helper.StartMinute | helper.py:37-38 | the first grid minute: January 1 00:00 UTC moved back by the timezone's hours |
| Helper.PixelAt | helper.py:86-88 | the pixel of one instant: its sun position coloured by get_color without as_hex |
| Helper.PosPng | helper.py:78-93 | fails at the first cell iff the grid is non-empty and an argument is invalid; otherwise a freshly allocated array of the input's shape by 3 whose every cell holds the colour of its instant's sun position |
| Helper.FillRow | helper.py:85-91 | the inner loop fills row i with the colours of that row's instants and leaves the other rows unchanged; the first call raises when the arguments are invalid |
| PyShams.Days | python/shams.py:9 | the year's day numbers: one per day, consecutive from January 1 |
| PyShams.MinutesOfDay | python/shams.py:14 | the 1440 minutes of one day, consecutive from its midnight |
| PyShams.DateGrid | python/shams.py:8-23 | the reference grid: 1440 rows by the year's days |
| PyShams.BaseDateArr | python/shams.py:8-23 | the day loop, transpose and flip build exactly DateGrid |
| PyShams.DateGridRowEnds | python/shams.py:19-21 | row 0 holds 23:59 and row 1439 holds 00:00 of each day |
| PyShams.DateGridColumnStep | python/shams.py:14-21 | going down a column, instants decrease by exactly one minute |
| PyShams.DateGridRowStep | python/shams.py:9-21 | along a row, instants increase by one day per column, so days stay in order |
| PyShams.DateGridCoversYear | python/shams.py:9-14 | every minute of the year appears, at the row and column given by its offset from January 1 |
| PyShams.SameAsHelperFlipped | python/shams.py:8-23 | the grid equals helper.py's base_date_arr with flip set and no timezone shift |
| PyShams.UtcFromTimestamp | python/shams.py:29 | the datetime has a second-of-day in [0, 86400) and stands for the given timestamp |
| PyShams.Dt64ToDtUtc | python/shams.py:26-29 | the datetime stands for 60 seconds per minute since the epoch, with a second of the day in [0, 86400) |
| PyShams.Dt64ToDtUtcSameInstant | python/shams.py:26-29 | the conversion keeps the instant: 60 seconds per minute since the epoch, on day minute/1440 |
| PyShams.Dt64ToDtUtcInjective | python/shams.py:26-29 | distinct minutes become distinct datetimes |
| PyShams.LetThereBeLight | python/shams.py:53-56 | the coloured grid keeps the 1440 x days shape, and cell [r][d] is the colour of the instant at DateGrid [r][d] |
| PyHelper.GetColor | python/helper.py:6-26 | succeeds exactly when both assertions pass; fails on an invalid jump, then on a non-float shift; on success the first element is the hex string exactly when as_hex is set |
| PyHelper.DefaultHueShiftFails | python/helper.py:6-12 | the default hue_shift is an int, so every call relying on it fails the float assertion |
| PyHelper.GetColorTuple | python/helper.py:22-26 | with a float shift: (r, g, b) in [0, 255] without as_hex, and (hex string, g, b) with it |
| PyHelper.NoJumpIsLinear | python/helper.py:15-18 | with jump 0 the colour is that of lightness altitude/pi + 0.5 |
| PyHelper.FullJumpDayWhiteNightBlack | python/helper.py:7-18 | with jump 1 a day sample is (255, 255, 255) and a night sample (0, 0, 0) |
| PyHelper.HueShiftPeriodic | python/helper.py:20 | a whole turn of hue shift gives the same result |
| PyHelperNew.GetColor | python/helper_new.py:5-23 | the fixed jump satisfies its assertion, so the call never raises, and it returns at least six characters |
| PyHelperNew.AzimuthHue | python/helper_new.py:17 | `(azimuth / tau) + 0.5`, the hue without `% 1`; its range and colour are HueWithoutModulo |
| PyHelperNew.HorizonGap | python/helper_new.py:11-15 | lightness lies in [0.65, 1] at or above the horizon and in [0, 0.35) below it |
| PyHelperNew.LightnessMonotone | python/helper_new.py:11-15 | lightness never decreases as the altitude rises |
| PyHelperNew.HueWithoutModulo | python/helper_new.py:17-19 | for azimuths in [-pi, pi] the unwrapped hue lies in [0, 1], and it gives the colour of the wrapped hue |
| PyHelperNew.GetColorHex | python/helper_new.py:19-23 | for in-range altitudes the result is six upper-case hex digits that parse back to three channels in [0, 255] |
| PyHelperNew.AgreesWithHelper | python/helper_new.py:5-23 | the result equals helper.py's hex output with jump 0.3 and hue shift 0.0 |

## Left out

- The ephemeris (`suncalc.get_position`) is not modelled. `Helper.PosPng`
  takes it as a function parameter. `ShamsClass.GenPixels` takes its
  output, the azimuth and altitude sequences, as inputs. In
  `PyShams.LetThereBeLight` it sits inside the colouring parameter `pos`.
- `Shams._time_arr` is not modelled. It depends on time-zone lookup, pytz
  localisation and DST rules, which have no visible source. `GenPixels`
  therefore starts from the sun positions.
- PNG writing and resizing (`_write_png`, `gen_png` in helper.py), SVG
  drawing (`gen_svg`), pixel-size tick arithmetic, and the `__main__`
  blocks are left out. These are image and file I/O.
  - In passing: the `__main__` block of python/shams.py passes the year as
    the string '2021', and `str(year+1)` would then raise TypeError.
- `pos_noVec`, its vectorised wrapper, and python/shams.py's `dan_color` are
  left out. `dan_color` is not defined anywhere in the repository. The
  colouring step is a parameter of `PyShams.LetThereBeLight` instead.
- IEEE-754 effects are not modelled: rounding of intermediate values, -0.0,
  and the `%` edge cases. Numbers are exact reals. math.pi is its decimal
  literal, but the proofs use only that pi is positive; the monotonicity
  steps go through `Arith.DivMono`.
- NumPy broadcasting is not modelled:
  - `ShamsClass.Shams.GetColors` requires the azimuth and altitude arrays to
    have equal lengths.
  - `ShamsClass.Shams.StackRgb` requires the three channels to have equal
    lengths.
- `ShamsClass.Shams.StackRgb` requires channels already in [0, 255]. The
  unchecked float-to-uint8 cast of out-of-range values is platform-dependent
  and is not modelled. `GetColors` proves the channels are in range for
  in-range altitudes.
- Message text: only the exception type of NumPy's reshape error is kept.
  Its text is a fixed string, not NumPy's which includes the array size.
- `np.datetime64(str(year))` is modelled for every integer year. Parsing
  years written with other than four digits, or years outside NumPy's
  range, is not modelled.
- Python datetimes are modelled only as a day number and a second of the
  day. Their civil fields (month, day of month, hour) are not modelled.
- The type checks of the year, title and use_dst setters always pass,
  because their Dafny parameters already have the checked type. Only
  `hue_shift` is a Python number that can be int or float.
- The property getters are plain field reads and have no members of their
  own.

## Findings

| source | as written | input that shows it | evidently intended | confidence | as-written member | corrected member |
|---|---|---|---|---|---|---|
| dev_shams_class.py:128-131 | the lat setter checks the latitude range, then assigns `self._lon` | `Shams(20, 10, 2021)` then `lat = 45`: lon becomes 45 and lat stays 10 | assign `self._lat` | not executed | ShamsClass.LatSetterOverwritesLon | ShamsClass.Shams.SetLatIntended |
| dev_shams_class.py:79-83 | the jump sign is tested on the altitude after squashing by 1 - sunrise_jump | sunrise_jump = 1: the squashed altitude is 0 for every sample, so night gets lightness 1 and is white | night all black (the comment on line 70), i.e. the sign of the raw altitude as in helper.py | not executed | ShamsClass.FullJumpAllWhite | ColorSteps.RawSignFullJump |
| helper.py:30 | `A if as_hex else r, g, b` groups as `(A if as_hex else r), g, b` | `get_color(0.0, 0.0)` returns the tuple (hex string, g, b) | return the hex string alone when as_hex is set | not executed | Helper.HexFlagBindsFirstOnly | Helper.GetColorIntended |
| python/helper.py:6-12 | the default `hue_shift=0` is an int, and the function asserts it is a float | `get_color(0.0, 0.0)` raises AssertionError "hue_shift must be a float" | default `hue_shift=0.0`, as in helper.py | not executed | PyHelper.DefaultHueShiftFails | Helper.GetColor |
