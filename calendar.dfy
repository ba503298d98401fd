/** Instants as whole minutes since 1970-01-01T00:00 UTC, NumPy's
    `datetime64[m]`, on the proleptic Gregorian calendar NumPy uses. */
module Calendar {

  const MinutesPerDay: nat := 1440
  const MinutesPerHour: nat := 60

  /** The Gregorian leap-year rule. */
  predicate IsLeapYear(year: int) {
    year % 4 == 0 && (year % 100 != 0 || year % 400 == 0)
  }

  function DaysInYear(year: int): nat {
    if IsLeapYear(year) then 366 else 365
  }

  /** The number of multiples of 4, minus those of 100, plus those of 400,
      in (0, n] (negative for negative n): the leap years counted up to n. */
  function LeapCount(n: int): int {
    n / 4 - n / 100 + n / 400
  }

  /** The day number of January 1 of the year, `np.datetime64(str(year), 'D')`. */
  function YearStartDay(year: int): int {
    365 * (year - 1970) + LeapCount(year - 1) - LeapCount(1969)
  }

  /** The minute number of January 1, 00:00 UTC of the year. */
  function YearStartMinute(year: int): int {
    YearStartDay(year) * MinutesPerDay
  }

  lemma StepBy4(n: int)
    ensures n / 4 - (n - 1) / 4 == if n % 4 == 0 then 1 else 0
  {
  }

  lemma StepBy100(n: int)
    ensures n / 100 - (n - 1) / 100 == if n % 100 == 0 then 1 else 0
  {
  }

  lemma StepBy400(n: int)
    ensures n / 400 - (n - 1) / 400 == if n % 400 == 0 then 1 else 0
  {
  }

  lemma Divides(n: int)
    ensures n % 100 == 0 ==> n % 4 == 0
    ensures n % 400 == 0 ==> n % 100 == 0
  {
  }

  /** One step of the leap count adds one exactly at a leap year. */
  lemma {:induction false} LeapCountStep(year: int)
    ensures LeapCount(year) - LeapCount(year - 1) == if IsLeapYear(year) then 1 else 0
  {
    StepBy4(year);
    StepBy100(year);
    StepBy400(year);
    Divides(year);
  }

  /** The closed formula for January 1 advances by the length of the year
      under the leap-year rule. */
  lemma {:induction false} YearLength(year: int)
    ensures YearStartDay(year + 1) - YearStartDay(year) == DaysInYear(year)
  {
    LeapCountStep(year);
  }

  /** A year holds 525,600 minutes, a leap year 527,040. */
  lemma {:induction false} MinutesInYear(year: int)
    ensures YearStartMinute(year + 1) - YearStartMinute(year) == MinutesPerDay * DaysInYear(year)
    ensures MinutesPerDay * DaysInYear(year) == if IsLeapYear(year) then 527040 else 525600
  {
    YearLength(year);
  }

  /** The epoch and two known day numbers. */
  lemma YearStartKnownValues()
    ensures YearStartDay(1970) == 0
    ensures YearStartDay(2000) == 10957
    ensures YearStartDay(2021) == 18628
  {
  }

  /** The Gregorian calendar repeats every 400 years of 146,097 days. */
  lemma {:induction false} FourHundredYearCycle(year: int)
    ensures YearStartDay(year + 400) - YearStartDay(year) == 146097
  {
    assert (year + 399) / 4 == (year - 1) / 4 + 100;
    assert (year + 399) / 100 == (year - 1) / 100 + 4;
    assert (year + 399) / 400 == (year - 1) / 400 + 1;
  }
}
