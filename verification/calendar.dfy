/**
 * Python's `datetime` as the scripts use it: a naive civil date and time in the proleptic
 * Gregorian calendar, years 1 to 9999, built by the range-checking constructor and moved by
 * adding a `timedelta`. Day arithmetic goes through CPython's ordinal day numbers
 * (0001-01-01 is day 1).
 */
module Calendar {
  import opened Wrappers

  const MinYear := 1
  const MaxYear := 9999
  /** Ordinal of 9999-12-31, the last day a `datetime` can hold. */
  const MaxOrdinal := 3652059
  const SecondsPerDay := 86400

  datatype Date = Date(year: int, month: int, day: int)

  /** A naive `datetime`; `micro` is the microsecond field. */
  datatype DateTime = DateTime(year: int, month: int, day: int, hour: int, minute: int, second: int, micro: int)

  function DateOf(t: DateTime): Date {
    Date(t.year, t.month, t.day)
  }

  predicate IsLeap(year: int) {
    year % 4 == 0 && (year % 100 != 0 || year % 400 == 0)
  }

  function DaysInMonth(year: int, month: int): int
    requires 1 <= month <= 12
  {
    if month == 2 then (if IsLeap(year) then 29 else 28)
    else if month == 4 || month == 6 || month == 9 || month == 11 then 30
    else 31
  }

  function DaysInYear(year: int): int {
    if IsLeap(year) then 366 else 365
  }

  /** Days in the months of `year` before `month`. */
  function DaysBeforeMonth(year: int, month: int): nat
    requires 1 <= month <= 12
  {
    [0, 31, 59, 90, 120, 151, 181, 212, 243, 273, 304, 334][month - 1]
      + (if month > 2 && IsLeap(year) then 1 else 0)
  }

  /** Days in the years before `year`, counted from year 1. */
  function DaysBeforeYear(year: int): int
    requires year >= 1
  {
    if year == 1 then 0 else DaysBeforeYear(year - 1) + DaysInYear(year - 1)
  }

  predicate ValidDate(d: Date) {
    && MinYear <= d.year <= MaxYear
    && 1 <= d.month <= 12
    && 1 <= d.day <= DaysInMonth(d.year, d.month)
  }

  /** What the `datetime` constructor accepts. */
  predicate Valid(t: DateTime) {
    && ValidDate(DateOf(t))
    && 0 <= t.hour < 24
    && 0 <= t.minute < 60
    && 0 <= t.second < 60
    && 0 <= t.micro < 1000000
  }

  /** `datetime(year, month, day, hour, minute, second, micro)`: `None` where it raises `ValueError`. */
  function MakeDateTime(year: int, month: int, day: int, hour: int, minute: int, second: int, micro: int): Option<DateTime> {
    var t := DateTime(year, month, day, hour, minute, second, micro);
    if Valid(t) then Some(t) else None
  }

  /** One more year adds that year's length. */
  lemma DaysBeforeYearStep(year: int)
    requires year >= 1
    ensures DaysBeforeYear(year + 1) == DaysBeforeYear(year) + DaysInYear(year)
  {
  }

  /**
   * The closed form CPython computes (`_days_before_year`): 365 days a year plus one for
   * every fourth year, less one for every hundredth, plus one for every four-hundredth.
   */
  lemma {:induction false} DaysBeforeYearClosedForm(year: int)
    requires year >= 1
    ensures var y := year - 1; DaysBeforeYear(year) == y * 365 + y / 4 - y / 100 + y / 400
    decreases year
  {
    if year > 1 {
      DaysBeforeYearClosedForm(year - 1);
      LeapCountStep(year - 1);
    }
  }

  /** The count of leap days up to year `y` grows by one exactly at a leap year. */
  lemma LeapCountStep(y: int)
    requires y >= 1
    ensures y / 4 - y / 100 + y / 400 == (y - 1) / 4 - (y - 1) / 100 + (y - 1) / 400 + (if IsLeap(y) then 1 else 0)
  {
    DivStep(y - 1, 4);
    DivStep(y - 1, 100);
    DivStep(y - 1, 400);
    if y % 400 == 0 {
      assert y % 100 == 0 && y % 4 == 0 by {
        DivUnique(y, 100, y / 400 * 4, 0);
        DivUnique(y, 4, y / 400 * 100, 0);
      }
    } else if y % 100 == 0 {
      assert y % 4 == 0 by {
        DivUnique(y, 4, y / 100 * 25, 0);
      }
    }
  }

  lemma {:induction false} MulAtLeast(a: int, d: int)
    requires a >= 1 && d >= 1
    ensures a * d >= d
    decreases a
  {
    if a > 1 {
      MulAtLeast(a - 1, d);
      assert a * d == (a - 1) * d + d;
    }
  }

  /** Quotient and remainder are the only ones that put `n` back together. */
  lemma DivUnique(n: int, d: int, q: int, r: int)
    requires d > 0 && 0 <= r < d && n == q * d + r
    ensures n / d == q && n % d == r
  {
    var q', r' := n / d, n % d;
    assert n == q' * d + r';
    if q > q' {
      MulAtLeast(q - q', d);
    } else if q < q' {
      MulAtLeast(q' - q, d);
    }
  }

  /** The quotient grows by one exactly when the next number is a multiple. */
  lemma DivStep(n: int, d: int)
    requires n >= 0 && d > 0
    ensures (n + 1) / d == n / d + (if (n + 1) % d == 0 then 1 else 0)
  {
    var q, r := n / d, n % d;
    if r + 1 < d {
      DivUnique(n + 1, d, q, r + 1);
    } else {
      assert n + 1 == (q + 1) * d;
      DivUnique(n + 1, d, q + 1, 0);
    }
  }

  /** Every year has between 365 and 366 days. */
  lemma {:induction false} DaysBeforeYearGrowth(a: int, b: int)
    requires 1 <= a <= b
    ensures DaysBeforeYear(a) + 365 * (b - a) <= DaysBeforeYear(b) <= DaysBeforeYear(a) + 366 * (b - a)
    decreases b - a
  {
    if a < b {
      DaysBeforeYearStep(b - 1);
      DaysBeforeYearGrowth(a, b - 1);
    }
  }

  /** Consecutive months tile the year. */
  lemma DaysBeforeMonthStep(year: int, month: int)
    requires 1 <= month <= 12
    ensures DaysBeforeMonth(year, month) + DaysInMonth(year, month)
      == if month < 12 then DaysBeforeMonth(year, month + 1) else DaysInYear(year)
  {
  }

  lemma DaysBeforeMonthOrdered(year: int, m1: int, m2: int)
    requires 1 <= m1 < m2 <= 12
    ensures DaysBeforeMonth(year, m1) + DaysInMonth(year, m1) <= DaysBeforeMonth(year, m2)
  {
  }

  /** Day numbers run out exactly at the end of year 9999. */
  lemma EndOfYear9999()
    ensures DaysBeforeYear(MaxYear + 1) == MaxOrdinal
    ensures DaysBeforeYear(MaxYear) + DaysInYear(MaxYear) == MaxOrdinal
  {
    DaysBeforeYearClosedForm(MaxYear + 1);
  }

  lemma MonthWithinYear(year: int, month: int)
    requires 1 <= month <= 12
    ensures DaysBeforeMonth(year, month) + DaysInMonth(year, month) <= DaysInYear(year)
  {
  }

  /** No day number up to MaxOrdinal lies beyond year 9999. */
  lemma LastYearEndsAtMaxOrdinal(year: int)
    requires year >= 1
    ensures year > MaxYear ==> DaysBeforeYear(year) >= MaxOrdinal
  {
    if year > MaxYear {
      EndOfYear9999();
      DaysBeforeYearGrowth(MaxYear + 1, year);
    }
  }

  /** `date.toordinal()`: the day number of a valid date, 0001-01-01 being day 1. */
  function Ordinal(d: Date): (n: int)
    requires ValidDate(d)
    ensures 1 <= n <= MaxOrdinal
    ensures DaysBeforeYear(d.year) < n <= DaysBeforeYear(d.year) + DaysInYear(d.year)
  {
    MonthWithinYear(d.year, d.month);
    DaysBeforeYearStep(d.year);
    DaysBeforeYearGrowth(1, d.year);
    DaysBeforeYearGrowth(d.year + 1, MaxYear + 1);
    EndOfYear9999();
    DaysBeforeYear(d.year) + DaysBeforeMonth(d.year, d.month) + d.day
  }

  /** The year that holds day number `n`, searching upward from `year`. */
  function YearHolding(n: int, year: int): (y: int)
    requires 1 <= year && DaysBeforeYear(year) < n
    ensures year <= y && DaysBeforeYear(y) < n <= DaysBeforeYear(y) + DaysInYear(y)
    decreases n - DaysBeforeYear(year)
  {
    DaysBeforeYearStep(year);
    if n <= DaysBeforeYear(year) + DaysInYear(year) then year
    else YearHolding(n, year + 1)
  }

  /** The month of `year` that holds its `k`-th day, searching upward from `month`. */
  function MonthHolding(year: int, k: int, month: int): (m: int)
    requires 1 <= month <= 12 && DaysBeforeMonth(year, month) < k <= DaysInYear(year)
    ensures month <= m <= 12
    ensures DaysBeforeMonth(year, m) < k <= DaysBeforeMonth(year, m) + DaysInMonth(year, m)
    decreases 12 - month
  {
    DaysBeforeMonthStep(year, month);
    if month == 12 || k <= DaysBeforeMonth(year, month) + DaysInMonth(year, month) then month
    else MonthHolding(year, k, month + 1)
  }

  /** `date.fromordinal(n)`. */
  function FromOrdinal(n: int): (d: Date)
    requires 1 <= n <= MaxOrdinal
    ensures ValidDate(d) && Ordinal(d) == n
  {
    var y := YearHolding(n, 1);
    LastYearEndsAtMaxOrdinal(y);
    var k := n - DaysBeforeYear(y);
    var m := MonthHolding(y, k, 1);
    Date(y, m, k - DaysBeforeMonth(y, m))
  }

  /** Distinct valid dates have distinct day numbers. */
  lemma OrdinalInjective(a: Date, b: Date)
    requires ValidDate(a) && ValidDate(b) && Ordinal(a) == Ordinal(b)
    ensures a == b
  {
    if a.year < b.year {
      DaysBeforeYearStep(a.year);
      DaysBeforeYearGrowth(a.year + 1, b.year);
    } else if b.year < a.year {
      DaysBeforeYearStep(b.year);
      DaysBeforeYearGrowth(b.year + 1, a.year);
    } else if a.month < b.month {
      DaysBeforeMonthOrdered(a.year, a.month, b.month);
    } else if b.month < a.month {
      DaysBeforeMonthOrdered(a.year, b.month, a.month);
    }
  }

  /** `fromordinal` undoes `toordinal`. */
  lemma FromOrdinalOfOrdinal(d: Date)
    requires ValidDate(d)
    ensures FromOrdinal(Ordinal(d)) == d
  {
    OrdinalInjective(FromOrdinal(Ordinal(d)), d);
  }

  /**
   * The constructor accepts exactly the calendar's days, day numbers 1 to `MaxOrdinal` read
   * back by `fromordinal`, at a time of day on the clock, and keeps the fields it is given.
   */
  lemma MakeDateTimeAccepts(year: int, month: int, day: int, hour: int, minute: int, second: int, micro: int)
    ensures var r := MakeDateTime(year, month, day, hour, minute, second, micro);
      && (r.Some? <==>
           && (exists n :: 1 <= n <= MaxOrdinal && FromOrdinal(n) == Date(year, month, day))
           && 0 <= hour < 24 && 0 <= minute < 60 && 0 <= second < 60 && 0 <= micro < 1000000)
      && (r.Some? ==>
           && Valid(r.value) && FromOrdinal(Ordinal(DateOf(r.value))) == Date(year, month, day)
           && r.value.hour == hour && r.value.minute == minute && r.value.second == second
           && r.value.micro == micro)
  {
    var d := Date(year, month, day);
    if ValidDate(d) {
      FromOrdinalOfOrdinal(d);
      assert 1 <= Ordinal(d) <= MaxOrdinal && FromOrdinal(Ordinal(d)) == d;
    }
  }

  /** The day after `d`, by carrying the day into the month and the month into the year. */
  function NextDay(d: Date): (e: Date)
    requires ValidDate(d) && d != Date(MaxYear, 12, 31)
    ensures ValidDate(e) && Ordinal(e) == Ordinal(d) + 1
  {
    DaysBeforeMonthStep(d.year, d.month);
    if d.day < DaysInMonth(d.year, d.month) then Date(d.year, d.month, d.day + 1)
    else if d.month < 12 then Date(d.year, d.month + 1, 1)
    else
      DaysBeforeYearStep(d.year);
      Date(d.year + 1, 1, 1)
  }

  lemma LastDayOrdinal()
    ensures ValidDate(Date(MaxYear, 12, 31)) && Ordinal(Date(MaxYear, 12, 31)) == MaxOrdinal
  {
    EndOfYear9999();
  }

  /** `k` successive next days. */
  function AdvanceDays(d: Date, k: nat): (e: Date)
    requires ValidDate(d) && Ordinal(d) + k <= MaxOrdinal
    ensures ValidDate(e) && Ordinal(e) == Ordinal(d) + k
  {
    if k == 0 then d
    else
      var e := AdvanceDays(d, k - 1);
      LastDayOrdinal();
      NextDay(e)
  }

  /** Seconds from 0001-01-01 00:00:00 to `t`, ignoring the microseconds. */
  function Timestamp(t: DateTime): (s: int)
    requires Valid(t)
    ensures 0 <= s < MaxOrdinal * 86400
  {
    (Ordinal(DateOf(t)) - 1) * 86400 + t.hour * 3600 + t.minute * 60 + t.second
  }

  /** A valid `datetime` is fixed by its timestamp and its microseconds. */
  lemma TimestampInjective(a: DateTime, b: DateTime)
    requires Valid(a) && Valid(b) && Timestamp(a) == Timestamp(b) && a.micro == b.micro
    ensures a == b
  {
    OrdinalInjective(DateOf(a), DateOf(b));
  }

  /** Seconds of the day as hours, minutes and seconds. */
  lemma SplitSecondsOfDay(secs: int)
    requires 0 <= secs < 86400
    ensures 0 <= secs / 3600 < 24 && 0 <= secs % 3600 / 60 < 60 && 0 <= secs % 60 < 60
    ensures secs / 3600 * 3600 + secs % 3600 / 60 * 60 + secs % 60 == secs
  {
  }

  /**
   * `t + timedelta(seconds=delta)`: the sum of the day number and the seconds is normalised
   * into a day number and seconds of the day by floor division, and a day number outside
   * 1..MaxOrdinal raises `OverflowError`, here `None`.
   */
  function AddSeconds(t: DateTime, delta: int): (r: Option<DateTime>)
    requires Valid(t)
    ensures r.Some? <==> 0 <= Timestamp(t) + delta < MaxOrdinal * 86400
    ensures r.Some? ==>
      && Valid(r.value)
      && Timestamp(r.value) == Timestamp(t) + delta
      && r.value.micro == t.micro
  {
    var total := Timestamp(t) + delta;
    var days := total / 86400 + 1;
    var secs := total % 86400;
    if 0 < days <= MaxOrdinal then
      var d := FromOrdinal(days);
      SplitSecondsOfDay(secs);
      Some(DateTime(d.year, d.month, d.day, secs / 3600, secs % 3600 / 60, secs % 60, t.micro))
    else
      None
  }

  /** The sum is the one valid `datetime` at the right distance. */
  lemma AddSecondsExact(t: DateTime, delta: int, r: DateTime)
    requires Valid(t) && Valid(r) && r.micro == t.micro
    requires Timestamp(r) == Timestamp(t) + delta
    ensures AddSeconds(t, delta) == Some(r)
  {
    TimestampInjective(AddSeconds(t, delta).value, r);
  }

  /** Subtracting what was added gives the original back. */
  lemma {:induction false} AddSecondsInverse(t: DateTime, delta: int, u: DateTime)
    requires Valid(t) && AddSeconds(t, delta) == Some(u)
    ensures AddSeconds(u, -delta) == Some(t)
  {
    AddSecondsResult(t, delta, u);
    AddSecondsExact(u, -delta, t);
  }

  lemma AddSecondsResult(t: DateTime, delta: int, u: DateTime)
    requires Valid(t) && AddSeconds(t, delta) == Some(u)
    ensures Valid(u) && u.micro == t.micro && Timestamp(t) == Timestamp(u) + -delta
  {
  }

  /**
   * Adding `days` days and `hours` hours by hand: step the date forward day by day, then add
   * the hours to the clock and carry past midnight into one more day.
   */
  function AddByCarries(t: DateTime, days: nat, hours: nat): Option<DateTime>
    requires Valid(t) && hours < 24
  {
    var d := DateOf(t);
    if Ordinal(d) + days > MaxOrdinal then None
    else
      var e := AdvanceDays(d, days);
      if t.hour + hours < 24 then
        Some(DateTime(e.year, e.month, e.day, t.hour + hours, t.minute, t.second, t.micro))
      else if e == Date(MaxYear, 12, 31) then None
      else
        var f := NextDay(e);
        Some(DateTime(f.year, f.month, f.day, t.hour + hours - 24, t.minute, t.second, t.micro))
  }

  /**
   * `timedelta(days=days, hours=hours)` addition agrees with the Gregorian carries of day into
   * month, month into year and February's leap day, and overflows exactly when they run past
   * 9999-12-31.
   */
  lemma AddSecondsAgreesWithCarries(t: DateTime, days: nat, hours: nat)
    requires Valid(t) && hours < 24
    ensures AddSeconds(t, days * 86400 + hours * 3600) == AddByCarries(t, days, hours)
  {
    var delta := days * 86400 + hours * 3600;
    var d := DateOf(t);
    if Ordinal(d) + days <= MaxOrdinal {
      var e := AdvanceDays(d, days);
      if t.hour + hours < 24 {
        SameDayCarry(t, days, hours, e);
      } else if e != Date(MaxYear, 12, 31) {
        NextDayCarry(t, days, hours, NextDay(e));
      } else {
        LastDayOrdinal();
        assert Timestamp(t) + delta >= MaxOrdinal * 86400;
      }
    } else {
      assert Timestamp(t) + delta >= MaxOrdinal * 86400;
    }
  }

  lemma SameDayCarry(t: DateTime, days: nat, hours: nat, e: Date)
    requires Valid(t) && ValidDate(e) && Ordinal(e) == Ordinal(DateOf(t)) + days && t.hour + hours < 24
    ensures AddSeconds(t, days * 86400 + hours * 3600)
      == Some(DateTime(e.year, e.month, e.day, t.hour + hours, t.minute, t.second, t.micro))
  {
    var r := DateTime(e.year, e.month, e.day, t.hour + hours, t.minute, t.second, t.micro);
    assert Timestamp(r) == Timestamp(t) + days * 86400 + hours * 3600;
    AddSecondsExact(t, days * 86400 + hours * 3600, r);
  }

  lemma NextDayCarry(t: DateTime, days: nat, hours: nat, f: Date)
    requires Valid(t) && ValidDate(f) && Ordinal(f) == Ordinal(DateOf(t)) + days + 1
    requires 24 <= t.hour + hours < 48
    ensures AddSeconds(t, days * 86400 + hours * 3600)
      == Some(DateTime(f.year, f.month, f.day, t.hour + hours - 24, t.minute, t.second, t.micro))
  {
    var r := DateTime(f.year, f.month, f.day, t.hour + hours - 24, t.minute, t.second, t.micro);
    assert Timestamp(r) == Timestamp(t) + days * 86400 + hours * 3600;
    AddSecondsExact(t, days * 86400 + hours * 3600, r);
  }
}
