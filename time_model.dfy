/** Instants, local dates and the calendar, as the step-log code uses them.

    An instant is a count of milliseconds since the epoch (`toEpochMilli()`).
    A local date is its epoch-day number (`LocalDate.toEpochDay()`), so
    `plusDays(n)` and `minusDays(n)` are `+ n` and `- n`. The device's time
    zone and the month structure of the calendar are not computed here: they
    are parameters, each described by the facts the code relies on. */
module TimeModel {
  import opened Options
  import opened Decimal

  /** The device's time zone (`ZoneId.systemDefault()`). */
  datatype Zone = Zone(
    dateOf: int -> int,       // instant -> the local date it falls on
    startOfDay: int -> int,   // local date -> instant of its local midnight
    minuteOfDay: int -> int)  // instant -> local `hour * 60 + minute`

  /** Every local day has positive length: midnights strictly increase. */
  ghost predicate MidnightsAscend(z: Zone) {
    forall d :: z.startOfDay(d) < z.startOfDay(d + 1)
  }

  /** The instant lies inside the local day it is said to fall on. */
  predicate InsideOwnDay(z: Zone, t: int) {
    z.startOfDay(z.dateOf(t)) <= t < z.startOfDay(z.dateOf(t) + 1)
  }

  /** Later local dates start strictly later. */
  lemma {:induction false} MidnightsMonotone(z: Zone, a: int, b: int)
    requires MidnightsAscend(z)
    requires a < b
    ensures z.startOfDay(a) < z.startOfDay(b)
    decreases b - a
  {
    if a + 1 < b {
      MidnightsMonotone(z, a, b - 1);
    }
    assert z.startOfDay(b - 1) < z.startOfDay(b);
  }

  /** The calendar's months. A month is numbered `year * 12 + (month - 1)`. */
  datatype Calendar = Calendar(
    monthOf: int -> int,      // local date -> the month it belongs to
    firstDayOf: int -> int)   // month -> its first day (`withDayOfMonth(1)`)

  /** A date lies between its month's first day and the next month's. */
  predicate InOwnMonth(cal: Calendar, d: int) {
    cal.firstDayOf(cal.monthOf(d)) <= d < cal.firstDayOf(cal.monthOf(d) + 1)
  }

  /** `date.dayOfMonth`: 1 on the first day of the date's month. */
  function DayOfMonth(cal: Calendar, d: int): int {
    d - cal.firstDayOf(cal.monthOf(d)) + 1
  }

  /** `date.dayOfWeek.ordinal`: 0 is Monday. Epoch day 0, 1970-01-01, was a
      Thursday. */
  function DayOfWeek(d: int): (w: int)
    ensures 0 <= w < 7
  {
    (d + 3) % 7
  }

  /** The name of `java.time.DayOfWeek` with the given ordinal. */
  function DayOfWeekName(w: int): string {
    if w == 0 then "MONDAY"
    else if w == 1 then "TUESDAY"
    else if w == 2 then "WEDNESDAY"
    else if w == 3 then "THURSDAY"
    else if w == 4 then "FRIDAY"
    else if w == 5 then "SATURDAY"
    else "SUNDAY"
  }

  /** The name of `java.time.Month` with the given ordinal (0 is January). */
  function MonthName(m: int): string {
    if m == 0 then "JANUARY"
    else if m == 1 then "FEBRUARY"
    else if m == 2 then "MARCH"
    else if m == 3 then "APRIL"
    else if m == 4 then "MAY"
    else if m == 5 then "JUNE"
    else if m == 6 then "JULY"
    else if m == 7 then "AUGUST"
    else if m == 8 then "SEPTEMBER"
    else if m == 9 then "OCTOBER"
    else if m == 10 then "NOVEMBER"
    else "DECEMBER"
  }

  /** Kotlin's `take(n)`: the first `n` characters, or all of a shorter string. */
  function Take(s: string, n: nat): (r: string)
    ensures |r| == if |s| < n then |s| else n
    ensures r == s[..|r|]
  {
    if |s| <= n then s else s[..n]
  }

  /** `date.dayOfWeek.name.take(3)`. */
  function WeekdayLabel(d: int): string {
    Take(DayOfWeekName(DayOfWeek(d)), 3)
  }

  /** `month.name.take(3)` for the month numbered `m`. */
  function MonthLabel(m: int): string {
    Take(MonthName(m % 12), 3)
  }

  /** `date.dayOfMonth.toString()`. */
  function DayOfMonthLabel(cal: Calendar, d: int): string {
    LongToString(DayOfMonth(cal, d))
  }

  /** Epoch day 0 (1970-01-01) is a Thursday, and each next day has the
      next weekday ordinal, Sunday wrapping round to Monday. */
  lemma WeekdayOrdinals(d: int)
    ensures DayOfWeek(0) == 3 && DayOfWeekName(DayOfWeek(0)) == "THURSDAY"
    ensures DayOfWeek(d + 1) == (DayOfWeek(d) + 1) % 7
  {
  }

  /** A date inside its own month is numbered from 1 on the month's first
      day, one more on each next day of the same month, and its label is
      that number's decimal text. */
  lemma DayOfMonthNumbers(cal: Calendar, d: int)
    requires InOwnMonth(cal, d)
    ensures 1 <= DayOfMonth(cal, d)
    ensures DayOfMonth(cal, d) == 1 <==> d == cal.firstDayOf(cal.monthOf(d))
    ensures cal.monthOf(d + 1) == cal.monthOf(d) ==> DayOfMonth(cal, d + 1) == DayOfMonth(cal, d) + 1
    ensures DayOfMonthLabel(cal, d)[0] != '-'
    ensures ParseLong(DayOfMonthLabel(cal, d)) == Some(DayOfMonth(cal, d))
  {
    ParseLongToString(DayOfMonth(cal, d));
  }

  /** Weekday labels are three letters, repeat every seven days and differ
      between any two days less than a week apart. */
  lemma WeekdayLabels(d: int, e: int)
    ensures |WeekdayLabel(d)| == 3
    ensures WeekdayLabel(d + 7) == WeekdayLabel(d)
    ensures d < e < d + 7 ==> WeekdayLabel(d) != WeekdayLabel(e)
  {
    assert DayOfWeek(d + 7) == DayOfWeek(d);
    if d < e < d + 7 {
      assert DayOfWeek(d) != DayOfWeek(e);
      var a, b := DayOfWeekName(DayOfWeek(d)), DayOfWeekName(DayOfWeek(e));
      assert a[..3] != b[..3] by {
        assert a[1] != b[1] || a[0] != b[0];
      }
    }
  }

  /** Month labels are three letters, repeat every twelve months and differ
      between any two months less than a year apart. */
  lemma MonthLabels(m: int, n: int)
    ensures |MonthLabel(m)| == 3
    ensures MonthLabel(m + 12) == MonthLabel(m)
    ensures m < n < m + 12 ==> MonthLabel(m) != MonthLabel(n)
  {
    assert (m + 12) % 12 == m % 12;
    if m < n < m + 12 {
      assert m % 12 != n % 12;
      var a, b := MonthName(m % 12), MonthName(n % 12);
      assert a[..3] != b[..3] by {
        assert a[0] != b[0] || a[1] != b[1] || a[2] != b[2];
      }
    }
  }
}
