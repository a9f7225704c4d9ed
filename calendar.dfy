/**
 * Proleptic Gregorian calendar arithmetic in UTC, on plain integers: day
 * numbers, weekdays and the ISO 8601 week date (weeks start on Monday, and
 * week 1 of a year is the week holding that year's first Thursday).
 */
module Calendar {

  /** An event time in UTC, to the hour (the finest unit an index name prints). */
  datatype Instant = Instant(year: nat, month: nat, day: nat, hour: nat)

  predicate IsLeapYear(y: int) {
    y % 4 == 0 && (y % 100 != 0 || y % 400 == 0)
  }

  function DaysInYear(y: int): nat {
    if IsLeapYear(y) then 366 else 365
  }

  function DaysInMonth(y: int, m: nat): nat
    requires 1 <= m <= 12
  {
    if m == 2 then (if IsLeapYear(y) then 29 else 28)
    else if m == 4 || m == 6 || m == 9 || m == 11 then 30
    else 31
  }

  predicate ValidInstant(t: Instant) {
    && 1 <= t.month <= 12
    && 1 <= t.day <= DaysInMonth(t.year, t.month)
    && t.hour < 24
  }

  /** The instants a clock can show. */
  type UtcTime = t: Instant | ValidInstant(t) witness Instant(1970, 1, 1, 0)

  /** Days of year y that come before the first day of month m. */
  function DaysBeforeMonth(y: int, m: nat): (r: nat)
    requires 1 <= m <= 12
    ensures m == 1 ==> r == 0
    ensures m < 12 ==> DaysBeforeMonth(y, m + 1) == r + DaysInMonth(y, m)
    ensures m == 12 ==> r + DaysInMonth(y, 12) == DaysInYear(y)
    ensures r + DaysInMonth(y, m) <= DaysInYear(y)
    decreases 12 - m
  {
    var leap := if IsLeapYear(y) then 1 else 0;
    match m
    case 1 => 0
    case 2 => 31
    case 3 => 59 + leap
    case 4 => 90 + leap
    case 5 => 120 + leap
    case 6 => 151 + leap
    case 7 => 181 + leap
    case 8 => 212 + leap
    case 9 => 243 + leap
    case 10 => 273 + leap
    case 11 => 304 + leap
    case 12 => 334 + leap
  }

  /** The ordinal date: 1 for January 1st, up to 365 or 366. */
  function DayOfYear(t: UtcTime): (r: nat)
    ensures 1 <= r <= DaysInYear(t.year)
  {
    DaysBeforeMonth(t.year, t.month) + t.day
  }

  /** Days from 0001-01-01 to January 1st of year y (negative before year 1). */
  function DaysBeforeYear(y: int): (r: int) {
    365 * (y - 1) + (y - 1) / 4 - (y - 1) / 100 + (y - 1) / 400
  }

  /** Days since 0001-01-01, which was a Monday; it lies in the span of the calendar year of t. */
  function DayNumber(t: UtcTime): (r: int)
    ensures DaysBeforeYear(t.year) <= r < DaysBeforeYear(t.year + 1)
  {
    DaysBeforeNextYear(t.year);
    DaysBeforeYear(t.year) + DayOfYear(t) - 1
  }

  /** ISO weekday of a day number: 1 is Monday, 7 is Sunday. */
  function Weekday(n: int): (w: nat)
    ensures 1 <= w <= 7
  {
    n % 7 + 1
  }

  /** The Monday of the Monday-to-Sunday week that holds day n. */
  function MondayOf(n: int): (r: int)
    ensures Weekday(r) == 1 && Weekday(r + 3) == 4 && r <= n < r + 7
  {
    var q := n / 7;
    assert n - (n % 7) == 7 * q;
    7 * q
  }

  lemma DivStep4(y: int)
    ensures y / 4 - (y - 1) / 4 == if y % 4 == 0 then 1 else 0
  {
    var q, r := (y - 1) / 4, (y - 1) % 4;
    if r == 3 {
      assert y == 4 * (q + 1);
    } else {
      assert y == 4 * q + (r + 1);
    }
  }

  lemma DivStep100(y: int)
    ensures y / 100 - (y - 1) / 100 == if y % 100 == 0 then 1 else 0
  {
    var q, r := (y - 1) / 100, (y - 1) % 100;
    if r == 99 {
      assert y == 100 * (q + 1);
    } else {
      assert y == 100 * q + (r + 1);
    }
  }

  lemma DivStep400(y: int)
    ensures y / 400 - (y - 1) / 400 == if y % 400 == 0 then 1 else 0
  {
    var q, r := (y - 1) / 400, (y - 1) % 400;
    if r == 399 {
      assert y == 400 * (q + 1);
    } else {
      assert y == 400 * q + (r + 1);
    }
  }

  /** A multiple of 400 is a multiple of 100, and a multiple of 100 is a multiple of 4. */
  lemma DivisibilityChain(y: int)
    ensures y % 400 == 0 ==> y % 100 == 0
    ensures y % 100 == 0 ==> y % 4 == 0
  {
    if y % 400 == 0 {
      var q := y / 400;
      assert y == 100 * (4 * q);
    }
    if y % 100 == 0 {
      var q := y / 100;
      assert y == 4 * (25 * q);
    }
  }

  /** Consecutive New Year's days lie a year's length apart. */
  lemma DaysBeforeNextYear(y: int)
    ensures DaysBeforeYear(y + 1) == DaysBeforeYear(y) + DaysInYear(y)
  {
    DivStep4(y);
    DivStep100(y);
    DivStep400(y);
    DivisibilityChain(y);
    assert DaysBeforeYear(y + 1) - DaysBeforeYear(y)
        == 365 + (y / 4 - (y - 1) / 4) - (y / 100 - (y - 1) / 100) + (y / 400 - (y - 1) / 400);
  }

  /** Day numbers count from 0001-01-01, which is day 0. */
  lemma FirstDayNumber(t: UtcTime)
    requires t.year == 1 && t.month == 1 && t.day == 1
    ensures DayNumber(t) == 0
  {
    assert DaysBeforeYear(1) == 0;
  }

  /**
   * The day after t, whether within a month, across a month's end or across
   * the year's end, has the next day number.
   */
  lemma NextDayNumber(t: UtcTime, u: UtcTime)
    requires || (u.year == t.year && u.month == t.month && u.day == t.day + 1)
             || (u.year == t.year && u.month == t.month + 1 && u.day == 1
                 && t.day == DaysInMonth(t.year, t.month))
             || (u.year == t.year + 1 && u.month == 1 && u.day == 1 && t.month == 12 && t.day == 31)
    ensures DayNumber(u) == DayNumber(t) + 1
  {
    if u.year != t.year {
      DaysBeforeNextYear(t.year);
    }
  }

  /**
   * Day number of the Monday that starts week 1 of ISO year y: the Thursday
   * of that week falls within the first seven days of January, so it is the
   * year's first Thursday.
   */
  function Week1Monday(y: int): (r: int)
    ensures Weekday(r) == 1 && Weekday(r + 3) == 4
    ensures DaysBeforeYear(y) <= r + 3 < DaysBeforeYear(y) + 7
  {
    MondayOf(DaysBeforeYear(y) + 3)
  }

  /**
   * From the Monday of the week holding January 4th of one year to that of
   * the next: 53 weeks when the year starts on a Thursday, or on a Wednesday
   * in a leap year, and 52 weeks otherwise.
   */
  lemma WeekSpan(b: int, leap: bool)
    ensures var next := b + (if leap then 366 else 365);
      MondayOf(next + 3) - MondayOf(b + 3)
        == 7 * (if Weekday(b) == 4 || (leap && Weekday(b) == 3) then 53 else 52)
  {
    var q, r := (b + 3) / 7, (b + 3) % 7;
    assert b == 7 * (q - 1) + (r + 4);
    var next := b + (if leap then 366 else 365);
    if leap {
      assert next + 3 == 7 * (q + 52) + (r + 2);
      if r < 5 {
        assert MondayOf(next + 3) == 7 * (q + 52);
      } else {
        assert MondayOf(next + 3) == 7 * (q + 53);
      }
    } else {
      assert next + 3 == 7 * (q + 52) + (r + 1);
      if r < 6 {
        assert MondayOf(next + 3) == 7 * (q + 52);
      } else {
        assert MondayOf(next + 3) == 7 * (q + 53);
      }
    }
  }

  /**
   * Number of ISO weeks in year y: 53 when January 1st is a Thursday, or a
   * Wednesday in a leap year, and 52 otherwise; it is the distance, in weeks,
   * from week 1 of y to week 1 of y + 1.
   */
  function WeeksInYear(y: int): (k: nat)
    ensures k == 52 || k == 53
    ensures Week1Monday(y + 1) - Week1Monday(y) == 7 * k
  {
    var jan1 := Weekday(DaysBeforeYear(y));
    DaysBeforeNextYear(y);
    WeekSpan(DaysBeforeYear(y), IsLeapYear(y));
    if jan1 == 4 || (IsLeapYear(y) && jan1 == 3) then 53 else 52
  }

  /** Day n lies in ISO year y: from the Monday of its week 1 up to that of the next year. */
  predicate InIsoYear(n: int, y: int) {
    Week1Monday(y) <= n < Week1Monday(y + 1)
  }

  /** Day n lies in week w of ISO year y. */
  predicate InIsoWeek(n: int, y: int, w: int) {
    && InIsoYear(n, y)
    && Week1Monday(y) + 7 * (w - 1) <= n < Week1Monday(y) + 7 * w
  }

  /** Week 1 of a later year starts no earlier than week 1 of the year after an earlier one. */
  lemma {:induction false} Week1MondayIncreasing(a: int, b: int)
    requires a < b
    ensures Week1Monday(a + 1) <= Week1Monday(b)
    decreases b - a
  {
    if b > a + 1 {
      Week1MondayIncreasing(a, b - 1);
      assert WeeksInYear(b - 1) >= 52;
    }
  }

  /** Every day lies in at most one ISO week: the week date is unique. */
  lemma IsoWeekUnique(n: int, y1: int, w1: int, y2: int, w2: int)
    requires InIsoWeek(n, y1, w1) && InIsoWeek(n, y2, w2)
    ensures y1 == y2 && w1 == w2
  {
    if y1 < y2 {
      Week1MondayIncreasing(y1, y2);
    } else if y2 < y1 {
      Week1MondayIncreasing(y2, y1);
    }
  }

  datatype WeekDate = WeekDate(isoYear: int, week: nat)

  /**
   * The week count taken from the ordinal date and the weekday equals the
   * number of whole weeks since the Monday of the week holding January 4th,
   * plus one.
   */
  lemma OrdinalWeek(b: int, doy: int)
    requires 1 <= doy
    ensures (doy - Weekday(b + doy - 1) + 10) / 7 == (b + doy - 1 - MondayOf(b + 3)) / 7 + 1
  {
    var q, r := (b + 3) / 7, (b + 3) % 7;
    var t := r + doy - 4;
    var n := b + doy - 1;
    assert n == 7 * q + t;
    assert MondayOf(b + 3) == 7 * q;
    assert n - MondayOf(b + 3) == t;
    SameRemainder(q, t);
    assert Weekday(n) == t % 7 + 1;
    assert t == 7 * (t / 7) + t % 7;
    assert doy - Weekday(n) + 10 == 7 * (t / 7 + 1) + (6 - r);
    WholeWeeks(t / 7 + 1, 6 - r);
  }

  /** Adding whole weeks does not change the remainder. */
  lemma SameRemainder(q: int, t: int)
    ensures (7 * q + t) % 7 == t % 7
  {
  }

  /** Whole weeks plus fewer than seven days divide back to the whole weeks. */
  lemma WholeWeeks(k: int, e: int)
    requires 0 <= e < 7
    ensures (7 * k + e) / 7 == k
  {
  }

  /** A day of year y before its week 1 lies in the last week of year y - 1. */
  lemma BeforeWeek1(y: int, n: int)
    requires DaysBeforeYear(y) <= n < Week1Monday(y)
    ensures InIsoWeek(n, y - 1, WeeksInYear(y - 1))
  {
  }

  /** A day of year y on or after week 1 of y + 1 lies in week 1 of y + 1. */
  lemma AfterLastWeek(y: int, n: int)
    requires Week1Monday(y + 1) <= n < DaysBeforeYear(y + 1)
    ensures InIsoWeek(n, y + 1, 1)
  {
    assert WeeksInYear(y + 1) >= 52;
  }

  /** A day between week 1 of y and week 1 of y + 1 lies in the week its distance gives. */
  lemma WithinIsoYear(y: int, n: int)
    requires InIsoYear(n, y)
    ensures var w := (n - Week1Monday(y)) / 7 + 1; 1 <= w <= WeeksInYear(y) && InIsoWeek(n, y, w)
  {
  }

  /**
   * The ISO year of day n of calendar year y: y - 1 for a day before the
   * Monday of week 1 of y, y + 1 for a day on or after the Monday of week 1
   * of y + 1, and y otherwise.
   */
  function IsoYearOfDay(y: int, n: int): (r: int)
    requires DaysBeforeYear(y) <= n < DaysBeforeYear(y + 1)
    ensures InIsoYear(n, r)
    ensures y - 1 <= r <= y + 1
  {
    if n < Week1Monday(y) then
      BeforeWeek1(y, n);
      y - 1
    else if Week1Monday(y + 1) <= n then
      AfterLastWeek(y, n);
      y + 1
    else y
  }

  /** The week of ISO year y that holds day n: whole weeks since its week 1 Monday, plus one. */
  function WeekOfIsoYear(y: int, n: int): (w: nat)
    requires InIsoYear(n, y)
    ensures 1 <= w <= 53
    ensures InIsoWeek(n, y, w)
  {
    WithinIsoYear(y, n);
    (n - Week1Monday(y)) / 7 + 1
  }

  /** ISO 8601 week date of day n of year y: its ISO year and its week in that year. */
  function WeekDateOfDay(y: int, n: int): (r: WeekDate)
    requires DaysBeforeYear(y) <= n < DaysBeforeYear(y + 1)
    ensures 1 <= r.week <= 53
    ensures InIsoWeek(n, r.isoYear, r.week)
  {
    var iy := IsoYearOfDay(y, n);
    WeekDate(iy, WeekOfIsoYear(iy, n))
  }

  function IsoWeekDate(t: UtcTime): (r: WeekDate)
    ensures 1 <= r.week <= 53
    ensures InIsoWeek(DayNumber(t), r.isoYear, r.week)
  {
    WeekDateOfDay(t.year, DayNumber(t))
  }

  /**
   * The usual shortcut from the ordinal date, (day of year - weekday + 10) / 7,
   * counts the same weeks as the distance from the Monday of week 1.
   */
  lemma OrdinalWeekAgrees(t: UtcTime)
    ensures (DayOfYear(t) - Weekday(DayNumber(t)) + 10) / 7 == (DayNumber(t) - Week1Monday(t.year)) / 7 + 1
  {
    var b, doy := DaysBeforeYear(t.year), DayOfYear(t);
    assert DayNumber(t) == b + doy - 1 && Week1Monday(t.year) == MondayOf(b + 3);
    OrdinalWeek(b, doy);
  }
}
