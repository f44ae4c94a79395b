/**
 * Calendar arithmetic shared by the backend and the client.
 *
 * A date is an integer day number: day 0 is 1970-01-01, a Thursday. A
 * timestamp is a count of minutes since that day's midnight; its date is the
 * timestamp divided by the minutes of a day.
 *
 * The two sides index weekdays differently, and both mappings are written
 * out here: Python's `date.weekday()` puts Monday at 0, JavaScript's
 * `Date.prototype.getDay()` puts Sunday at 0.
 */
module Calendar {

  const MinutesPerDay: int := 1440
  const DaysPerWeek: int := 7

  /** A clock time of day, in minutes after midnight. */
  type TimeOfDay = t: int | 0 <= t < 1440

  /** Python `date.weekday()`: Monday is 0, Sunday is 6. */
  function PyWeekday(d: int): (w: int)
    ensures 0 <= w < 7
  {
    (d + 3) % 7
  }

  /** JavaScript `getDay()` on a local date: Sunday is 0, Saturday is 6. */
  function JsDay(d: int): (w: int)
    ensures 0 <= w < 7
  {
    (d + 4) % 7
  }

  /** The two weekday numberings differ by one place, Sunday wrapping around. */
  lemma JsDayIsPyWeekdayShifted(d: int)
    ensures JsDay(d) == (PyWeekday(d) + 1) % 7
    ensures PyWeekday(d) == (JsDay(d) + 6) % 7
  {
  }

  /** The weekday advances by one, cyclically, from one day to the next. */
  lemma NextDayWeekday(d: int)
    ensures PyWeekday(d + 1) == (PyWeekday(d) + 1) % 7
    ensures JsDay(d + 1) == (JsDay(d) + 1) % 7
  {
  }

  /** Combine a date and a clock time into a timestamp (Python `datetime.combine`). */
  function Combine(d: int, t: TimeOfDay): (ts: int)
    ensures ts / MinutesPerDay == d && ts % MinutesPerDay == t
  {
    d * MinutesPerDay + t
  }

  /** The date part of a timestamp (Django's `__date` lookup). */
  function DateOf(ts: int): int
  {
    ts / MinutesPerDay
  }

  /** Two (date, time) pairs combine to the same timestamp only when they are equal. */
  lemma CombineInjective(d1: int, t1: TimeOfDay, d2: int, t2: TimeOfDay)
    requires Combine(d1, t1) == Combine(d2, t2)
    ensures d1 == d2 && t1 == t2
  {
  }

  /**
   * Day number of the proleptic Gregorian date (y, m, d), with m in 1..12
   * (days-from-civil: years counted from March so that the leap day is last).
   */
  function DaysFromCivil(y: int, m: int, d: int): int
    requires 1 <= m <= 12
  {
    var y' := if m <= 2 then y - 1 else y;
    var era := y' / 400;
    var yoe := y' % 400;
    var mp := (m + 9) % 12;
    var doy := (153 * mp + 2) / 5 + d - 1;
    var doe := yoe * 365 + yoe / 4 - yoe / 100 + doy;
    era * 146097 + doe - 719468
  }

  /**
   * The local date built by JavaScript's `new Date(year, monthIndex, day)`:
   * a year from 0 to 99 means 1900 + year; the month index is zero-based and
   * out-of-range months and days carry over into the next year or month
   * (the MakeDay operation of ECMA-262).
   */
  function JsDateDay(year: int, monthIndex: int, day: int): int
  {
    var y := if 0 <= year <= 99 then 1900 + year else year;
    var ym := y + monthIndex / 12;
    var mn := monthIndex % 12;
    DaysFromCivil(ym, mn + 1, 1) + day - 1
  }

  /**
   * The furthest day from the epoch a JavaScript `Date` can hold: the TimeClip
   * operation of ECMA-262 turns a time value beyond 8.64e15 milliseconds
   * either side of the epoch, that is 100,000,000 days, into NaN.
   */
  const MaxDateDay: int := 100_000_000

  predicate InDateRange(d: int)
  {
    -MaxDateDay <= d <= MaxDateDay
  }

  /** Every date with a year of at most four digits, and month and day of at most two, is in range. */
  lemma JsDateDayInRange(year: int, monthIndex: int, day: int)
    requires 0 <= year <= 9999 && -1 <= monthIndex <= 98 && 0 <= day <= 99
    ensures InDateRange(JsDateDay(year, monthIndex, day))
  {
    var y := if 0 <= year <= 99 then 1900 + year else year;
    var ym := y + monthIndex / 12;
    assert -1 <= monthIndex / 12 <= 8;
    var m := monthIndex % 12 + 1;
    var y' := if m <= 2 then ym - 1 else ym;
    assert -2 <= y' <= 10007;
    var era := y' / 400;
    assert -1 <= era <= 25;
    assert -146097 <= era * 146097 <= 25 * 146097;
  }

  /** 300000-01-01 lies beyond the range of a `Date`. */
  lemma JsDateDayBeyondRange()
    ensures !InDateRange(JsDateDay(300000, 0, 1))
  {
    assert DaysFromCivil(300000, 1, 1) == 108853222 by {
      assert 299999 / 400 == 749 && 299999 % 400 == 399;
      assert (1 + 9) % 12 == 10 && (153 * 10 + 2) / 5 == 306;
      assert 399 / 4 == 99 && 399 / 100 == 3;
    }
  }

  /** Anchors: the epoch is 1970-01-01, a Thursday; 2025-08-13 is a Wednesday. */
  lemma JsDateDayAnchors()
    ensures JsDateDay(1970, 0, 1) == 0 && JsDay(0) == 4 && PyWeekday(0) == 3
    ensures JsDateDay(70, 0, 1) == 0
    ensures JsDay(JsDateDay(2025, 7, 13)) == 3 && PyWeekday(JsDateDay(2025, 7, 13)) == 2
  {
    assert DaysFromCivil(1970, 1, 1) == 0 by {
      assert 1969 / 400 == 4 && 1969 % 400 == 369;
      assert (1 + 9) % 12 == 10 && (153 * 10 + 2) / 5 == 306;
      assert 369 / 4 == 92 && 369 / 100 == 3;
    }
    assert DaysFromCivil(2025, 8, 1) == 20301 by {
      assert 2025 / 400 == 5 && 2025 % 400 == 25;
      assert (8 + 9) % 12 == 5 && (153 * 5 + 2) / 5 == 153;
      assert 25 / 4 == 6 && 25 / 100 == 0;
    }
    assert JsDateDay(2025, 7, 13) == 20313;
    assert (20313 + 4) % 7 == 3 && (20313 + 3) % 7 == 2;
  }

  /**
   * Day overflow carries into the next day, month overflow into the next
   * year (for years the 0..99 rule leaves alone).
   */
  lemma JsDateDayCarries(year: int, monthIndex: int, day: int)
    requires year >= 100
    ensures JsDateDay(year, monthIndex, day + 1) == JsDateDay(year, monthIndex, day) + 1
    ensures JsDateDay(year, monthIndex + 12, day) == JsDateDay(year + 1, monthIndex, day)
  {
    assert (monthIndex + 12) / 12 == monthIndex / 12 + 1 && (monthIndex + 12) % 12 == monthIndex % 12;
  }

  /** The first day (Sunday) of the week holding `d` (date-fns `startOfWeek`). */
  function StartOfWeek(d: int): (s: int)
    ensures s <= d < s + DaysPerWeek
    ensures JsDay(s) == 0
  {
    d - JsDay(d)
  }

  /** Moving `k` whole weeks moves the start of the week by exactly `k` weeks. */
  lemma StartOfWeekShift(d: int, k: int)
    ensures StartOfWeek(d + DaysPerWeek * k) == StartOfWeek(d) + DaysPerWeek * k
  {
    assert JsDay(d + 7 * k) == JsDay(d) by {
      assert (d + 7 * k + 4) == (d + 4) + 7 * k;
    }
  }
}
