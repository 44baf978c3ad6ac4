/** Seconds since the epoch and calendar dates (section 4.16 of POSIX.1-2017, Base Definitions). */
module Calendar {

  const EPOCH_YEAR := 1970
  const SECONDS_PER_DAY := 86400
  const U32 := 0x1_0000_0000
  const U64 := 0x1_0000_0000_0000_0000

  /** Day is one-based and month zero-based, as `secondsToDate` writes them. */
  datatype Date = Date(seconds: int, minutes: int, hours: int, day: int, month: int, year: int)

  predicate IsLeap(year: int) {
    year % 400 == 0 || (year % 100 != 0 && year % 4 == 0)
  }

  function DaysInYear(year: int): int { if IsLeap(year) then 366 else 365 }

  function MonthDays(year: int, month: int): int
    requires 0 <= month < 12
  {
    if month == 1 then (if IsLeap(year) then 29 else 28)
    else if month == 3 || month == 5 || month == 8 || month == 10 then 30
    else 31
  }

  function DaysBeforeMonth(year: int, month: int): int
    requires 0 <= month <= 12
    decreases month
  {
    if month == 0 then 0 else DaysBeforeMonth(year, month - 1) + MonthDays(year, month - 1)
  }

  /** A real date of the Gregorian calendar, from the epoch on. */
  predicate Valid(d: Date) {
    && 0 <= d.seconds < 60 && 0 <= d.minutes < 60 && 0 <= d.hours < 24
    && EPOCH_YEAR <= d.year && 0 <= d.month < 12 && 1 <= d.day <= MonthDays(d.year, d.month)
  }

  // ----- the standard's formula

  /** Days from the epoch to the first day of a year: every fourth year, less every hundredth, plus every four-hundredth. */
  function DaysBeforeYear(year: int): int {
    365 * (year - 1970) + (year - 1969) / 4 - (year - 1901) / 100 + (year - 1601) / 400
  }

  function YearDay(d: Date): int
    requires 0 <= d.month <= 12
  {
    DaysBeforeMonth(d.year, d.month) + d.day - 1
  }

  function EpochSeconds(d: Date): int
    requires 0 <= d.month <= 12
  {
    d.seconds + d.minutes * 60 + d.hours * 3600 + (DaysBeforeYear(d.year) + YearDay(d)) * SECONDS_PER_DAY
  }

  /** The formula counts each year's days. */
  lemma YearStep(year: int)
    ensures DaysBeforeYear(year + 1) == DaysBeforeYear(year) + DaysInYear(year)
  {
    FourYears(year);
    Centuries(year);
    FourCenturies(year);
  }

  lemma FourYears(year: int)
    ensures (year + 1 - 1969) / 4 == (year - 1969) / 4 + (if year % 4 == 0 then 1 else 0)
  {
    assert year == 4 * (year / 4) + year % 4;
  }

  lemma Centuries(year: int)
    ensures (year + 1 - 1901) / 100 == (year - 1901) / 100 + (if year % 100 == 0 then 1 else 0)
    ensures year % 100 == 0 ==> year % 4 == 0
  {
    assert year == 100 * (year / 100) + year % 100;
  }

  lemma FourCenturies(year: int)
    ensures (year + 1 - 1601) / 400 == (year - 1601) / 400 + (if year % 400 == 0 then 1 else 0)
    ensures year % 400 == 0 ==> year % 100 == 0
  {
    assert year == 400 * (year / 400) + year % 400;
  }

  lemma {:induction false} YearsApart(y: int, z: int)
    requires y < z
    ensures DaysBeforeYear(y) + DaysInYear(y) <= DaysBeforeYear(z)
    decreases z - y
  {
    YearStep(y);
    if y + 1 < z {
      YearsApart(y + 1, z);
    }
  }

  lemma MonthsFillYear(year: int)
    ensures DaysBeforeMonth(year, 12) == DaysInYear(year)
  {
    assert DaysBeforeMonth(year, 3) == MonthDays(year, 0) + MonthDays(year, 1) + MonthDays(year, 2);
    assert DaysBeforeMonth(year, 6) == DaysBeforeMonth(year, 3) + 91;
    assert DaysBeforeMonth(year, 9) == DaysBeforeMonth(year, 6) + 92;
  }

  /** The days before a month by the rule of five: from March on, each five months have 153 days. */
  lemma {:induction false} MonthsByRule(year: int, m: int)
    requires 1 <= m <= 12
    ensures DaysBeforeMonth(year, 1) == 31 && DaysBeforeMonth(year, 2) == 59 + (if IsLeap(year) then 1 else 0)
    ensures m >= 2 ==> DaysBeforeMonth(year, m) == DaysBeforeMonth(year, 2) + (153 * (m - 2) + 2) / 5
    decreases m
  {
    if m > 2 {
      MonthsByRule(year, m - 1);
      FiveMonths(m);
    } else {
      assert DaysBeforeMonth(year, 1) == DaysBeforeMonth(year, 0) + MonthDays(year, 0);
    }
  }

  /** The seconds of a date in one formula, without the calendar's tables. */
  lemma EpochByRule(d: Date)
    requires 0 <= d.month < 12
    ensures var y := d.year; var leap := if y % 400 == 0 || (y % 100 != 0 && y % 4 == 0) then 1 else 0;
      var before := if d.month < 2 then 31 * d.month else 59 + leap + (153 * (d.month - 2) + 2) / 5;
      EpochSeconds(d) == d.seconds + 60 * (d.minutes + 60 * (d.hours + 24 *
        (365 * (y - 1970) + (y - 1969) / 4 - (y - 1901) / 100 + (y - 1601) / 400 + before + d.day - 1)))
  {
    if d.month > 0 { MonthsByRule(d.year, d.month); }
  }

  lemma FiveMonths(m: int)
    requires 3 <= m <= 12
    ensures (153 * (m - 2) + 2) / 5 == (153 * (m - 3) + 2) / 5 + (if m == 4 || m == 6 || m == 9 || m == 11 then 30 else 31)
  {
  }

  lemma {:induction false} MonthsApart(year: int, m: int, n: int)
    requires 0 <= m < n <= 12
    ensures DaysBeforeMonth(year, m) + MonthDays(year, m) <= DaysBeforeMonth(year, n)
    decreases n - m
  {
    if m + 1 < n {
      MonthsApart(year, m + 1, n);
      assert DaysBeforeMonth(year, m + 1) == DaysBeforeMonth(year, m) + MonthDays(year, m);
    }
  }

  lemma YearDayInYear(d: Date)
    requires Valid(d)
    ensures 0 <= YearDay(d) < DaysInYear(d.year)
  {
    MonthsFillYear(d.year);
    MonthsApart(d.year, d.month, 12);
    if d.month > 0 { MonthsApart(d.year, 0, d.month); }
  }

  // ----- dates in order

  predicate Earlier(d: Date, e: Date) {
    || d.year < e.year
    || (d.year == e.year && d.month < e.month)
    || (d.year == e.year && d.month == e.month && d.day < e.day)
    || (d.year == e.year && d.month == e.month && d.day == e.day && DaySeconds(d) < DaySeconds(e))
  }

  function DaySeconds(d: Date): int { d.seconds + d.minutes * 60 + d.hours * 3600 }

  lemma EarlierHasLess(d: Date, e: Date)
    requires Valid(d) && Valid(e) && Earlier(d, e)
    ensures EpochSeconds(d) < EpochSeconds(e)
  {
    YearDayInYear(d);
    YearDayInYear(e);
    if d.year < e.year {
      YearsApart(d.year, e.year);
    } else if d.month < e.month {
      MonthsApart(d.year, d.month, e.month);
    }
  }

  /** Dates and their seconds are in the same order; equal seconds mean the same date. */
  lemma OrderKept(d: Date, e: Date)
    requires Valid(d) && Valid(e)
    ensures Earlier(d, e) <==> EpochSeconds(d) < EpochSeconds(e)
    ensures EpochSeconds(d) == EpochSeconds(e) <==> d == e
  {
    if Earlier(d, e) {
      EarlierHasLess(d, e);
    } else if Earlier(e, d) {
      EarlierHasLess(e, d);
    } else {
      SameDaySeconds(d, e);
    }
  }

  lemma SameDaySeconds(d: Date, e: Date)
    requires Valid(d) && Valid(e) && DaySeconds(d) == DaySeconds(e)
    ensures d.seconds == e.seconds && d.minutes == e.minutes && d.hours == e.hours
  {
    assert DaySeconds(d) / 3600 == d.hours && DaySeconds(e) / 3600 == e.hours;
    assert DaySeconds(d) % 3600 / 60 == d.minutes && DaySeconds(e) % 3600 / 60 == e.minutes;
  }

  // ----- the conversions

  /** The calendar date of a time; the day count is kept in 32 bits. */
  method SecondsToDate(seconds: int) returns (date: Date)
    requires 0 <= seconds
    ensures Valid(date)
    ensures EpochSeconds(date) == seconds % SECONDS_PER_DAY + seconds / SECONDS_PER_DAY % U32 * SECONDS_PER_DAY
    ensures EpochSeconds(date) == seconds <==> seconds / SECONDS_PER_DAY < U32
  {
    hide DaysBeforeYear, IsLeap;
    var daySeconds := seconds % SECONDS_PER_DAY;
    var days := seconds / SECONDS_PER_DAY % U32;
    ghost var total := days;
    var year := EPOCH_YEAR;
    EpochIsZero();
    while days >= DaysInYear(year)
      invariant EPOCH_YEAR <= year && 0 <= days && DaysBeforeYear(year) + days == total
    {
      YearStep(year);
      days := days - DaysInYear(year);
      year := year + 1;
    }
    var month := 0;
    MonthsFillYear(year);
    while days >= MonthDays(year, month)
      invariant 0 <= month < 12 && 0 <= days
      invariant DaysBeforeYear(year) + DaysBeforeMonth(year, month) + days == total
      invariant DaysBeforeMonth(year, month) + days < DaysInYear(year)
      decreases 12 - month
    {
      days := days - MonthDays(year, month);
      month := month + 1;
      assert DaysBeforeMonth(year, month) == DaysBeforeMonth(year, month - 1) + MonthDays(year, month - 1);
    }
    TimeOfDay(daySeconds);
    date := Date(daySeconds % 60, daySeconds % 3600 / 60, daySeconds / 3600, days + 1, month, year);
  }

  lemma EpochIsZero()
    ensures DaysBeforeYear(EPOCH_YEAR) == 0
  {
  }

  lemma TimeOfDay(s: int)
    requires 0 <= s < SECONDS_PER_DAY
    ensures s % 60 + s % 3600 / 60 * 60 + s / 3600 * 3600 == s
    ensures 0 <= s % 3600 / 60 < 60 && 0 <= s / 3600 < 24
  {
    var h, r := s / 3600, s % 3600;
    assert s == h * 3600 + r;
    assert s % 60 == r % 60;
  }

  /** The days the conversion adds for the year: those of the years after 1970 up to the year itself, or of the years from it up to 1969. */
  function YearsCounted(year: int): int {
    if year >= EPOCH_YEAR then DaysBeforeYear(year + 1) - DaysBeforeYear(EPOCH_YEAR + 1)
    else DaysBeforeYear(EPOCH_YEAR) - DaysBeforeYear(year)
  }

  /** The days of the months before this one; no month comes before one that is not positive. */
  function MonthsCounted(year: int, month: int): int
    requires month <= 12
  {
    if month <= 0 then 0 else DaysBeforeMonth(year, month)
  }

  /** What the conversion adds up, before it wraps. */
  function Total(d: Date): int
    requires d.month <= 12
  {
    DaySeconds(d) + (d.day + MonthsCounted(d.year, d.month) + YearsCounted(d.year)) * SECONDS_PER_DAY
  }

  predicate IsInt(x: int) { -0x8000_0000 <= x < 0x8000_0000 }

  /** The products and sums of fields that are formed in `int` do not overflow it. */
  predicate FitsInt(d: Date) {
    && IsInt(d.minutes * 60) && IsInt(d.seconds + d.minutes * 60)
    && IsInt(d.hours * 3600) && IsInt(DaySeconds(d)) && IsInt(d.day * SECONDS_PER_DAY)
  }

  /** Adding to a wrapped sum. */
  lemma WrappedSum(total: int, x: int)
    ensures (total % U64 + x) % U64 == (total + x) % U64
  {
    var q := total / U64;
    assert total == q * U64 + total % U64;
    SameRemainder(total % U64 + x, q);
  }

  lemma {:induction false} SameRemainder(a: int, q: int)
    ensures (a + q * U64) % U64 == a % U64
    decreases if q < 0 then -q else q
  {
    if q > 0 {
      SameRemainder(a, q - 1);
      assert (a + (q - 1) * U64 + U64) % U64 == (a + (q - 1) * U64) % U64;
    } else if q < 0 {
      SameRemainder(a, q + 1);
      assert (a + (q + 1) * U64 - U64) % U64 == (a + (q + 1) * U64) % U64;
    }
  }

  /** The seconds of a date, wrapping in 64 bits. */
  method DateToSeconds(date: Date) returns (seconds: int)
    requires date.month <= 12 && FitsInt(date)
    ensures seconds == Total(date) % U64
  {
    hide DaysBeforeYear, IsLeap;
    seconds := (date.seconds + date.minutes * 60 + date.hours * 3600) % U64;
    ghost var sum := DaySeconds(date) + date.day * SECONDS_PER_DAY;
    WrappedSum(DaySeconds(date), date.day * SECONDS_PER_DAY);
    seconds := (seconds + date.day * SECONDS_PER_DAY) % U64;
    var i := 0;
    while i < date.month
      invariant 0 <= i && (i <= date.month || i == 0)
      invariant seconds == sum % U64 && sum == DaySeconds(date) + (date.day + MonthsCounted(date.year, i)) * SECONDS_PER_DAY
      decreases date.month - i
    {
      assert DaysBeforeMonth(date.year, i + 1) == DaysBeforeMonth(date.year, i) + MonthDays(date.year, i);
      WrappedSum(sum, MonthDays(date.year, i) * SECONDS_PER_DAY);
      seconds := (seconds + MonthDays(date.year, i) * SECONDS_PER_DAY) % U64;
      sum := sum + MonthDays(date.year, i) * SECONDS_PER_DAY;
      i := i + 1;
    }
    seconds := AddYears(date.year, seconds, sum);
  }

  /** The years after 1970 up to this one, or those from this one up to 1969. */
  method AddYears(from: int, seconds0: int, ghost sum0: int) returns (seconds: int)
    requires seconds0 == sum0 % U64
    ensures seconds == (sum0 + YearsCounted(from) * SECONDS_PER_DAY) % U64
  {
    hide DaysBeforeYear, IsLeap;
    seconds := seconds0;
    ghost var sum := sum0;
    var year := from;
    while year > EPOCH_YEAR
      invariant from >= EPOCH_YEAR ==> EPOCH_YEAR <= year <= from
      invariant from < EPOCH_YEAR ==> year == from
      invariant seconds == sum % U64 && sum == sum0 + (DaysBeforeYear(from + 1) - DaysBeforeYear(year + 1)) * SECONDS_PER_DAY
    {
      YearStep(year);
      WrappedSum(sum, DaysInYear(year) * SECONDS_PER_DAY);
      seconds := (seconds + DaysInYear(year) * SECONDS_PER_DAY) % U64;
      sum := sum + DaysInYear(year) * SECONDS_PER_DAY;
      year := year - 1;
    }
    ghost var sum1 := sum;
    ghost var year1 := year;
    while year < EPOCH_YEAR
      invariant year1 <= year && (year1 < EPOCH_YEAR ==> year <= EPOCH_YEAR) && (year1 >= EPOCH_YEAR ==> year == year1)
      invariant seconds == sum % U64 && sum == sum1 + (DaysBeforeYear(year) - DaysBeforeYear(year1)) * SECONDS_PER_DAY
    {
      YearStep(year);
      WrappedSum(sum, DaysInYear(year) * SECONDS_PER_DAY);
      seconds := (seconds + DaysInYear(year) * SECONDS_PER_DAY) % U64;
      sum := sum + DaysInYear(year) * SECONDS_PER_DAY;
      year := year + 1;
    }
  }

  /** With the day one-based again, a date the driver passes. */
  function OneBased(d: Date): Date { d.(day := d.day + 1) }

  /**
   * How far the conversion is from the true time: a day too much in every leap year,
   * and twice the distance to the epoch before 1970.
   */
  lemma ConversionError(d: Date)
    requires 0 <= d.month <= 12
    ensures Total(d) - EpochSeconds(OneBased(d)) ==
            (if d.year >= EPOCH_YEAR then (if IsLeap(d.year) then 1 else 0) else -2 * DaysBeforeYear(d.year)) * SECONDS_PER_DAY
    ensures Total(d) == EpochSeconds(OneBased(d)) <==> d.year >= EPOCH_YEAR && !IsLeap(d.year)
  {
    YearStep(d.year);
    YearStep(EPOCH_YEAR);
    EpochIsZero();
    if d.year < EPOCH_YEAR { YearsApart(d.year, EPOCH_YEAR); }
  }

  /** Converting to a date and back, as the clock devices do, is exact outside leap years and a day ahead in them. */
  method ThereAndBack(seconds: int) returns (date: Date, back: int)
    requires 0 <= seconds && seconds / SECONDS_PER_DAY < U32
    ensures Valid(date) && EpochSeconds(date) == seconds
    ensures back == if IsLeap(date.year) then seconds + SECONDS_PER_DAY else seconds
  {
    date := SecondsToDate(seconds);
    BackAgain(date, seconds);
    hide Valid, EpochSeconds, Total, FitsInt, IsLeap;
    back := DateToSeconds(date.(day := date.day - 1));
  }

  lemma BackAgain(date: Date, seconds: int)
    requires Valid(date) && EpochSeconds(date) == seconds && seconds < U32 * SECONDS_PER_DAY
    ensures var d := date.(day := date.day - 1);
      d.month <= 12 && FitsInt(d) && Total(d) % U64 == if IsLeap(date.year) then seconds + SECONDS_PER_DAY else seconds
  {
    var d := date.(day := date.day - 1);
    assert OneBased(d) == date;
    ConversionError(d);
    EpochNotNegative(date);
    ValidFits(date);
    hide FitsInt, EpochSeconds, Total, IsLeap, Valid, OneBased;
    Unwrapped(Total(d));
  }

  lemma Unwrapped(x: int)
    requires 0 <= x < U64
    ensures x % U64 == x
  {
  }

  lemma ValidFits(date: Date)
    requires Valid(date)
    ensures FitsInt(date.(day := date.day - 1))
  {
  }

  lemma EpochNotNegative(date: Date)
    requires Valid(date)
    ensures 0 <= EpochSeconds(date)
  {
    if date.year > EPOCH_YEAR { YearsApart(EPOCH_YEAR, date.year); }
    EpochIsZero();
    YearDayInYear(date);
  }
}
