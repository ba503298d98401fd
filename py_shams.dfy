/** python/shams.py: the earlier renderer. Its base_date_arr builds the
    minute grid of a UTC year day by day and always flips it; each instant
    becomes a naive UTC datetime before it is coloured. */
module PyShams {
  import Grid
  import Calendar
  import Helper
  import PySemantics

  /** `np.arange(str(year), str(year + 1), dtype='datetime64[D]')`: the day
      numbers of the year. */
  function Days(year: int): (days: seq<int>)
    ensures |days| == Calendar.DaysInYear(year)
    ensures forall d :: 0 <= d < |days| ==> days[d] == Calendar.YearStartDay(year) + d
  {
    Calendar.YearLength(year);
    Grid.Arange(Calendar.YearStartDay(year), Calendar.YearStartDay(year + 1))
  }

  /** `np.arange(day, day + 1, dtype='datetime64[m]')`: the minutes of one day. */
  function MinutesOfDay(day: int): (minutes: seq<int>)
    ensures |minutes| == Calendar.MinutesPerDay
    ensures forall k :: 0 <= k < |minutes| ==> minutes[k] == day * Calendar.MinutesPerDay + k
  {
    Grid.Arange(day * Calendar.MinutesPerDay, (day + 1) * Calendar.MinutesPerDay)
  }

  /** The grid of the year with row r holding minute 1439 - r of every day:
      the reference base_date_arr is proved against. */
  function DateGrid(year: int): (g: seq<seq<int>>)
    ensures Grid.IsMatrix(g, Calendar.MinutesPerDay, Calendar.DaysInYear(year))
  {
    var n := Calendar.DaysInYear(year);
    seq(Calendar.MinutesPerDay, r requires 0 <= r < Calendar.MinutesPerDay =>
      seq(n, d requires 0 <= d < n => (Calendar.YearStartDay(year) + d) * Calendar.MinutesPerDay + 1439 - r))
  }

  /** base_date_arr: one row of minutes per day, transposed so that days
      are columns, then flipped along axis 0. */
  method BaseDateArr(year: int) returns (arr: seq<seq<int>>)
    ensures arr == DateGrid(year)
  {
    var days := Days(year);
    var lst: seq<seq<int>> := [];
    var i := 0;
    while i < |days|
      invariant 0 <= i <= |days|
      invariant |lst| == i
      invariant forall k :: 0 <= k < i ==> lst[k] == MinutesOfDay(days[k])
    {
      lst := lst + [MinutesOfDay(days[i])];
      i := i + 1;
    }
    var noflip := Grid.Transpose(lst, |days|, Calendar.MinutesPerDay);
    arr := Grid.FlipRows(noflip);
    assert Grid.IsMatrix(arr, Calendar.MinutesPerDay, |days|);
    var g := DateGrid(year);
    forall r | 0 <= r < Calendar.MinutesPerDay
      ensures arr[r] == g[r]
    {
      forall d | 0 <= d < |days|
        ensures arr[r][d] == g[r][d]
      {
        assert arr[r][d] == lst[d][1439 - r];
      }
    }
  }

  /** Row 0 holds 23:59 and row 1439 holds 00:00 of each day. */
  lemma DateGridRowEnds(year: int, d: int)
    requires 0 <= d < Calendar.DaysInYear(year)
    ensures DateGrid(year)[0][d] == (Calendar.YearStartDay(year) + d) * Calendar.MinutesPerDay + 23 * 60 + 59
    ensures DateGrid(year)[1439][d] == (Calendar.YearStartDay(year) + d) * Calendar.MinutesPerDay
  {
  }

  /** Going down a column the instants decrease by exactly one minute. */
  lemma DateGridColumnStep(year: int, r: int, d: int)
    requires 0 <= r < 1439 && 0 <= d < Calendar.DaysInYear(year)
    ensures DateGrid(year)[r][d] - DateGrid(year)[r + 1][d] == 1
  {
  }

  /** Going along a row the instants increase by one day per column, so the
      flip leaves the days in chronological order from left to right. */
  lemma DateGridRowStep(year: int, r: int, d: int)
    requires 0 <= r < 1440 && 0 <= d < Calendar.DaysInYear(year) - 1
    ensures DateGrid(year)[r][d + 1] - DateGrid(year)[r][d] == Calendar.MinutesPerDay
  {
  }

  /** Every minute of the year appears in the grid, at the row and column
      its offset from January 1 determines. */
  lemma {:induction false} DateGridCoversYear(year: int, t: int)
    requires Calendar.YearStartMinute(year) <= t < Calendar.YearStartMinute(year + 1)
    ensures var k := t - Calendar.YearStartMinute(year);
      && 0 <= k / 1440 < Calendar.DaysInYear(year)
      && DateGrid(year)[1439 - k % 1440][k / 1440] == t
  {
    Calendar.MinutesInYear(year);
  }

  /** With no timezone shift, the flipped grid of helper.py is this grid. */
  lemma {:induction false} SameAsHelperFlipped(year: int)
    ensures Helper.BaseDateArr(year, true, 0) == PySemantics.Success(DateGrid(year))
  {
    var h := Helper.BaseDateArr(year, true, 0).value;
    var g := DateGrid(year);
    assert Grid.IsMatrix(h, 1440, Calendar.DaysInYear(year));
    forall r | 0 <= r < 1440
      ensures h[r] == g[r]
    {
      forall d | 0 <= d < Calendar.DaysInYear(year)
        ensures h[r][d] == g[r][d]
      {
        Helper.BaseDateArrEntry(year, true, 0, r, d);
        assert h[r][d] == Helper.StartMinute(year, 0) + 1440 * d + 1439 - r;
      }
    }
    assert h == g;
  }

  // ---------------------------------------------------------------------
  // dt64_to_dtUTC_noVec

  const SecondsPerDay: int := 86400

  /** A naive datetime read as UTC: a day number and the second within it. */
  datatype DateTime = DateTime(day: int, secondOfDay: int)

  /** The seconds since the epoch a naive UTC datetime stands for. */
  function Timestamp(dt: DateTime): int {
    dt.day * SecondsPerDay + dt.secondOfDay
  }

  /** `datetime.utcfromtimestamp(ts)` on a whole number of seconds. */
  function UtcFromTimestamp(ts: int): (dt: DateTime)
    ensures 0 <= dt.secondOfDay < SecondsPerDay
    ensures Timestamp(dt) == ts
  {
    DateTime(ts / SecondsPerDay, ts % SecondsPerDay)
  }

  /** dt64_to_dtUTC_noVec: `(dt64 - 1970-01-01T00:00Z) / 1 s`, then
      utcfromtimestamp. */
  function Dt64ToDtUtc(minute: int): (dt: DateTime)
    ensures Timestamp(dt) == 60 * minute
    ensures 0 <= dt.secondOfDay < SecondsPerDay
  {
    var epoch := 0;
    var ts := (minute - epoch) * 60;
    UtcFromTimestamp(ts)
  }

  /** The conversion keeps the instant: the datetime stands for 60 seconds
      per minute since the epoch, on day minute / 1440 at minute
      minute % 1440 of that day. */
  lemma {:induction false} Dt64ToDtUtcSameInstant(minute: int)
    ensures Timestamp(Dt64ToDtUtc(minute)) == 60 * minute
    ensures Dt64ToDtUtc(minute).day == minute / Calendar.MinutesPerDay
    ensures Dt64ToDtUtc(minute).secondOfDay == 60 * (minute % Calendar.MinutesPerDay)
  {
    var q, r := minute / 1440, minute % 1440;
    assert minute * 60 == q * SecondsPerDay + 60 * r;
    assert 0 <= 60 * r < SecondsPerDay;
  }

  /** Distinct minutes give distinct datetimes. */
  lemma Dt64ToDtUtcInjective(m1: int, m2: int)
    requires Dt64ToDtUtc(m1) == Dt64ToDtUtc(m2)
    ensures m1 == m2
  {
    Dt64ToDtUtcSameInstant(m1);
    Dt64ToDtUtcSameInstant(m2);
  }

  // ---------------------------------------------------------------------
  // let_there_be_light

  /** let_there_be_light up to the drawing: the grid of the year, converted
      and coloured element by element. pos is the colouring function, with
      the ephemeris inside it; the grid keeps its 1440 x days shape and
      cell [r][d] is the colour of the instant in cell [r][d]. */
  method LetThereBeLight<C>(year: int, lon: real, lat: real, pos: (DateTime, real, real) -> C)
    returns (colored: seq<seq<C>>)
    ensures Grid.IsMatrix(colored, Calendar.MinutesPerDay, Calendar.DaysInYear(year))
    ensures forall r, d :: 0 <= r < Calendar.MinutesPerDay && 0 <= d < Calendar.DaysInYear(year) ==>
      colored[r][d] == pos(Dt64ToDtUtc(DateGrid(year)[r][d]), lon, lat)
  {
    var arrDt64 := BaseDateArr(year);
    var arrDtUtc := Grid.MapGrid(arrDt64, Dt64ToDtUtc);
    colored := Grid.MapGrid(arrDtUtc, t => pos(t, lon, lat));
    Grid.MapGridCell(arrDt64, Dt64ToDtUtc, Calendar.MinutesPerDay, Calendar.DaysInYear(year));
    Grid.MapGridCell(arrDtUtc, t => pos(t, lon, lat), Calendar.MinutesPerDay, Calendar.DaysInYear(year));
  }
}
