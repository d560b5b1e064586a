/** Whole seconds since 1970 and the calendar: the two conversions that the gRPC messages use,
    and the proof that they undo each other. */
module Calendar {
  import opened Text
  import opened Timestamps

  /** Days from 1 January of year 0 to 1 January of `year`, in the proleptic Gregorian calendar. */
  function DaysBeforeYear(year: int): int {
    365 * year + (year + 3) / 4 - (year + 99) / 100 + (year + 399) / 400
  }

  function DaysBeforeMonth(year: int, month: nat): (n: nat)
    requires month >= 1
  {
    if month == 1 then 0 else DaysBeforeMonth(year, month - 1) + DaysInMonth(year, month - 1)
  }

  function DayNumber(t: DateTime): int
    requires t.month >= 1
  {
    DaysBeforeYear(t.year) + DaysBeforeMonth(t.year, t.month) + t.day - 1
  }

  const EPOCH_DAY := 719528

  /** `timestamp()`. */
  function EpochSeconds(t: DateTime): int
    requires t.month >= 1
  {
    (DayNumber(t) - EPOCH_DAY) * 86400 + t.secs
  }

  lemma YearLength(year: int)
    ensures DaysBeforeYear(year + 1) - DaysBeforeYear(year) == DaysBeforeMonth(year, 13)
    ensures 365 <= DaysBeforeMonth(year, 13)
  {
    MonthSum(year);
    FloorStep(year, 4);
    FloorStep(year, 100);
    FloorStep(year, 400);
    if year % 400 == 0 { HundredTimes(4 * (year / 400)); }
    if year % 100 == 0 { FourTimes(25 * (year / 100)); }
  }

  lemma HundredTimes(n: int)
    ensures 100 * n % 100 == 0
  {
  }

  lemma FourTimes(n: int)
    ensures 4 * n % 4 == 0
  {
  }

  lemma MonthSum(year: int)
    ensures DaysBeforeMonth(year, 13) == if IsLeapYear(year) then 366 else 365
  {
    assert DaysBeforeMonth(year, 2) == 31;
    assert DaysBeforeMonth(year, 3) == 31 + DaysInMonth(year, 2);
    assert DaysBeforeMonth(year, 5) == DaysBeforeMonth(year, 3) + 61;
    assert DaysBeforeMonth(year, 7) == DaysBeforeMonth(year, 5) + 61;
    assert DaysBeforeMonth(year, 9) == DaysBeforeMonth(year, 7) + 62;
    assert DaysBeforeMonth(year, 11) == DaysBeforeMonth(year, 9) + 61;
  }

  lemma FloorStep(n: int, d: int)
    requires d == 4 || d == 100 || d == 400
    ensures (n + d) / d == (n + d - 1) / d + (if n % d == 0 then 1 else 0)
  {
  }

  lemma {:induction false} YearsAscend(a: int, b: int)
    requires a <= b
    ensures DaysBeforeYear(a) + 365 * (b - a) <= DaysBeforeYear(b)
    decreases b - a
  {
    if a < b {
      YearLength(a);
      YearsAscend(a + 1, b);
    }
  }

  lemma {:induction false} MonthsAscend(year: int, a: nat, b: nat)
    requires 1 <= a <= b
    ensures DaysBeforeMonth(year, a) <= DaysBeforeMonth(year, b)
    ensures a < b ==> DaysBeforeMonth(year, a) + DaysInMonth(year, a) <= DaysBeforeMonth(year, b)
    decreases b - a
  {
    if a < b {
      MonthsAscend(year, a, b - 1);
      if a < b - 1 { assert DaysInMonth(year, b - 1) >= 0; }
    }
  }

  lemma DayInYear(t: DateTime)
    requires Valid(t)
    ensures DaysBeforeYear(t.year) <= DayNumber(t) < DaysBeforeYear(t.year + 1)
  {
    YearLength(t.year);
    MonthsAscend(t.year, t.month, 13);
  }

  /** An earlier calendar day has a smaller number. */
  lemma DaysAscend(a: DateTime, b: DateTime)
    requires Valid(a) && Valid(b)
    requires Before(a.(secs := 0, frac := 0), b.(secs := 0, frac := 0))
    ensures DayNumber(a) < DayNumber(b)
  {
    if a.year < b.year {
      DayInYear(a);
      DayInYear(b);
      YearsAscend(a.year + 1, b.year);
    } else if a.month < b.month {
      MonthsAscend(a.year, a.month, b.month);
    }
  }

  /** Fewer seconds is an earlier time. */
  lemma EpochOrder(a: DateTime, b: DateTime)
    requires Valid(a) && Valid(b) && EpochSeconds(a) < EpochSeconds(b)
    ensures Before(a, b)
  {
    var x, y := a.(secs := 0, frac := 0), b.(secs := 0, frac := 0);
    BeforeTotal(x, y);
    if Before(y, x) { DaysAscend(b, a); }
  }

  // ----- what a day number is -----

  /** The calendar day after. */
  function DayAfter(t: DateTime): DateTime {
    if t.day < DaysInMonth(t.year, t.month) then t.(day := t.day + 1)
    else if t.month < 12 then t.(month := t.month + 1, day := 1)
    else t.(year := t.year + 1, month := 1, day := 1)
  }

  /** 1 January 1970 begins at second 0, and each day 86400 seconds after the day before. */
  lemma EpochMeaning(t: DateTime)
    requires Valid(t)
    ensures EpochSeconds(DateTime(1970, 1, 1, 0, 0)) == 0
    ensures EpochSeconds(DayAfter(t)) == EpochSeconds(t) + 86400
    ensures EpochSeconds(t) == EpochSeconds(t.(secs := 0, frac := 0)) + t.secs
  {
    if t.day == DaysInMonth(t.year, t.month) {
      assert DaysBeforeMonth(t.year, t.month + 1) == DaysBeforeMonth(t.year, t.month) + DaysInMonth(t.year, t.month);
      if t.month == 12 { YearLength(t.year); }
    }
  }

  /** Months have 31 or 30 days, February 28 or, every fourth year but three of four centuries, 29. */
  lemma MonthLengths(year: int, m: int)
    ensures m in {1, 3, 5, 7, 8, 10, 12} ==> DaysInMonth(year, m) == 31
    ensures m in {4, 6, 9, 11} ==> DaysInMonth(year, m) == 30
    ensures year % 4 != 0 ==> DaysInMonth(year, 2) == 28
    ensures DaysInMonth(4 * year, 2) == if year % 25 == 0 && year % 100 != 0 then 28 else 29
  {
    FourTimesAny(year);
  }

  lemma FourTimesAny(n: int)
    ensures 4 * n % 4 == 0 && (4 * n % 100 == 0 <==> n % 25 == 0) && (4 * n % 400 == 0 <==> n % 100 == 0)
  {
    assert 4 * n == 100 * (n / 25) + 4 * (n % 25) && 0 <= 4 * (n % 25) < 100;
    assert 4 * n == 400 * (n / 100) + 4 * (n % 100) && 0 <= 4 * (n % 100) < 400;
  }

  // ----- seconds to calendar -----

  function YearFrom(day: int, year: int): (y: int)
    requires DaysBeforeYear(year) <= day
    ensures year <= y && DaysBeforeYear(y) <= day < DaysBeforeYear(y + 1)
    decreases day - DaysBeforeYear(year)
  {
    YearLength(year);
    if day < DaysBeforeYear(year + 1) then year else YearFrom(day, year + 1)
  }

  function MonthFrom(year: int, rest: nat, month: nat): (m: nat)
    requires 1 <= month <= 12
    requires DaysBeforeMonth(year, month) <= rest < DaysBeforeMonth(year, 13)
    ensures month <= m <= 12
    ensures DaysBeforeMonth(year, m) <= rest < DaysBeforeMonth(year, m) + DaysInMonth(year, m)
    decreases 12 - month
  {
    if rest < DaysBeforeMonth(year, month) + DaysInMonth(year, month) then month
    else
      assert DaysBeforeMonth(year, month + 1) == DaysBeforeMonth(year, month) + DaysInMonth(year, month);
      MonthFrom(year, rest, month + 1)
  }

  /** The calendar day of a day number, if its year is supported. */
  function DayOf(day: int): (r: Option<DateTime>)
    ensures r.Some? ==> Valid(r.value) && r.value.secs == 0 && r.value.frac == 0 && DayNumber(r.value) == day
  {
    if day < DaysBeforeYear(MIN_YEAR) then None
    else
      var year := YearFrom(day, MIN_YEAR);
      if year > MAX_YEAR then None
      else
        var rest := day - DaysBeforeYear(year);
        YearLength(year);
        var month := MonthFrom(year, rest, 1);
        Some(DateTime(year, month, rest - DaysBeforeMonth(year, month) + 1, 0, 0))
  }

  /** `timestamp_opt(seconds, 0)`: none outside the supported years. */
  function FromEpoch(seconds: int): (r: Option<DateTime>)
    ensures r.Some? ==> Valid(r.value) && r.value.frac == 0 && EpochSeconds(r.value) == seconds
  {
    var r := DayOf(seconds / 86400 + EPOCH_DAY);
    if r.None? then None else Some(r.value.(secs := seconds % 86400))
  }

  /** The seconds that have a date: from the first of year -262143 to the last of year 262142. */
  lemma EpochRange(seconds: int)
    ensures FromEpoch(seconds).Some? <==> -8334601228800 <= seconds <= 8210266876799
  {
    var day := seconds / 86400 + EPOCH_DAY;
    assert DaysBeforeYear(MIN_YEAR) == -95745764 && DaysBeforeYear(MAX_YEAR + 1) == 95745765;
    if DaysBeforeYear(MIN_YEAR) <= day {
      var year := YearFrom(day, MIN_YEAR);
      if year <= MAX_YEAR { YearsAscend(year + 1, MAX_YEAR + 1); } else { YearsAscend(MAX_YEAR + 1, year); }
    }
  }

  function Truncated(t: DateTime): DateTime {
    t.(frac := 0)
  }

  lemma YearOfDay(t: DateTime)
    requires Valid(t)
    ensures DaysBeforeYear(MIN_YEAR) <= DayNumber(t) && YearFrom(DayNumber(t), MIN_YEAR) == t.year
  {
    DayInYear(t);
    YearsAscend(MIN_YEAR, t.year);
    var year := YearFrom(DayNumber(t), MIN_YEAR);
    if year < t.year { YearsAscend(year + 1, t.year); }
    if t.year < year { YearsAscend(t.year + 1, year); }
  }

  lemma MonthOfDay(t: DateTime)
    requires Valid(t)
    ensures var rest := DayNumber(t) - DaysBeforeYear(t.year);
            0 <= rest < DaysBeforeMonth(t.year, 13) && MonthFrom(t.year, rest, 1) == t.month
  {
    YearLength(t.year);
    DayInYear(t);
    var month := MonthFrom(t.year, DayNumber(t) - DaysBeforeYear(t.year), 1);
    if month < t.month { MonthsAscend(t.year, month, t.month); }
    if t.month < month { MonthsAscend(t.year, t.month, month); }
  }

  lemma DayRoundTrip(t: DateTime)
    requires Valid(t)
    ensures DayOf(DayNumber(t)) == Some(t.(secs := 0, frac := 0))
  {
    YearOfDay(t);
    MonthOfDay(t);
  }

  /** Going to seconds and back keeps everything but the fraction. */
  lemma EpochRoundTrip(t: DateTime)
    requires Valid(t)
    ensures FromEpoch(EpochSeconds(t)) == Some(Truncated(t))
  {
    var n := EpochSeconds(t);
    assert n / 86400 + EPOCH_DAY == DayNumber(t) && n % 86400 == t.secs;
    DayRoundTrip(t);
  }

  /** One second before a whole second; none before the first supported year. */
  function MinusSecond(t: DateTime): (r: Option<DateTime>)
    requires Valid(t) && t.frac == 0
    ensures r.Some? ==> Valid(r.value) && Before(r.value, t) && EpochSeconds(r.value) == EpochSeconds(t) - 1
  {
    var r := FromEpoch(EpochSeconds(t) - 1);
    if r.Some? then EpochOrder(r.value, t); r else r
  }

  /** Every second of years 0 to 9999 has a second before it. */
  lemma FourDigitHasEarlier(t: DateTime)
    requires Valid(t) && t.frac == 0 && FourDigitYear(t)
    ensures MinusSecond(t).Some?
  {
    var n := EpochSeconds(t) - 1;
    var day := n / 86400 + EPOCH_DAY;
    assert DayNumber(t) - 1 <= day <= DayNumber(t);
    DayInYear(t);
    YearsAscend(MIN_YEAR, t.year);
    var year := YearFrom(day, MIN_YEAR);
    if year > t.year { YearsAscend(t.year + 1, year); }
  }

  /** The same time of day a number of days before; none outside the supported years. */
  function MinusDays(t: DateTime, days: int): (r: Option<DateTime>)
    requires Valid(t)
    ensures r.Some? ==>
              Valid(r.value) && EpochSeconds(r.value) == EpochSeconds(t) - 86400 * days && r.value.frac == t.frac
  {
    var r := DayOf(DayNumber(t) - days);
    if r.None? then None else Some(r.value.(secs := t.secs, frac := t.frac))
  }
}
