/**
 * Local wall-clock time in Asia/Jerusalem, as integers.
 *
 * An instant is the number of microseconds since 1970-01-01 00:00 local time; a date is the
 * number of days since 1970-01-01; a time of day is the number of microseconds since midnight.
 * Conversion to and from UTC is taken to be exact, so daylight-saving gaps and folds are not
 * represented.
 */
module Clock {
  import opened Text

  const SECOND: int := 1_000_000
  const MINUTE: int := 60_000_000
  const HOUR: int := 3_600_000_000
  const DAY: int := 86_400_000_000

  /** Python's `datetime.time`: microseconds since midnight. */
  type TimeOfDay = t: int | 0 <= t < 86_400_000_000

  /** `time(h, m, s)` */
  function Time(h: int, m: int, s: int): (t: TimeOfDay)
    requires 0 <= h < 24 && 0 <= m < 60 && 0 <= s < 60
    ensures t / HOUR == h && (t % HOUR) / MINUTE == m && t % MINUTE == s * SECOND
  {
    h * 3_600_000_000 + m * 60_000_000 + s * 1_000_000
  }

  /** `time(h, m)` */
  function HourMinute(h: int, m: int): (t: TimeOfDay)
    requires 0 <= h < 24 && 0 <= m < 60
    ensures t / HOUR == h && (t % HOUR) / MINUTE == m && t % MINUTE == 0
  {
    Time(h, m, 0)
  }

  /** The local date of an instant (`.date()`). */
  function DateOf(x: int): int {
    x / DAY
  }

  /** The local time of day of an instant (`.time()`). */
  function TimeOf(x: int): TimeOfDay {
    x % DAY
  }

  /** The hour field of an instant (`.hour`). */
  function HourOf(x: int): (h: int)
    ensures 0 <= h < 24
  {
    TimeOf(x) / HOUR
  }

  /** `datetime.combine(d, t)` */
  function At(d: int, t: TimeOfDay): (x: int)
    ensures DateOf(x) == d && TimeOf(x) == t
  {
    d * DAY + t
  }

  /** An instant is its date combined with its time of day. */
  lemma AtDateTime(x: int)
    ensures At(DateOf(x), TimeOf(x)) == x
  {
  }

  /** Python's `date.weekday()`: Monday is 0 and Sunday is 6 (1970-01-01 was a Thursday). */
  function Weekday(d: int): (w: int)
    ensures 0 <= w < 7
  {
    (d + 3) % 7
  }

  const FRIDAY: int := 4
  const SATURDAY: int := 5

  /** Weekdays repeat every seven days. */
  lemma WeekdayShift(d: int, k: int)
    ensures Weekday(d + k) == (Weekday(d) + k) % 7
  {
  }

  predicate IsLeapYear(y: int) {
    y % 4 == 0 && (y % 100 != 0 || y % 400 == 0)
  }

  function DaysInMonth(y: int, m: int): (n: int)
    requires 1 <= m <= 12
    ensures 28 <= n <= 31
  {
    if m == 2 then (if IsLeapYear(y) then 29 else 28)
    else if m == 4 || m == 6 || m == 9 || m == 11 then 30
    else 31
  }

  /** A day that exists in the proleptic Gregorian calendar of Python's `date` (years 1 to 9999). */
  predicate ValidDate(y: int, m: int, d: int) {
    1 <= y <= 9999 && 1 <= m <= 12 && 1 <= d <= DaysInMonth(y, m)
  }

  /** The day number of a civil date (days since 1970-01-01), by the era/day-of-era method. */
  function DayNumber(y: int, m: int, d: int): int
    requires 1 <= m <= 12
  {
    var y1 := if m <= 2 then y - 1 else y;
    var era := y1 / 400;
    var yoe := y1 - era * 400;
    var mp := if m > 2 then m - 3 else m + 9;
    var doy := (153 * mp + 2) / 5 + d - 1;
    var doe := yoe * 365 + yoe / 4 - yoe / 100 + doy;
    era * 146097 + doe - 719468
  }

  /** Within a month, consecutive days of the month have consecutive day numbers. */
  lemma DayNumberInMonth(y: int, m: int, d: int)
    requires 1 <= m <= 12
    ensures DayNumber(y, m, d) == DayNumber(y, m, 1) + d - 1
  {
  }

  /** The month after (y, m). */
  function NextMonth(y: int, m: int): (int, int)
    requires 1 <= m <= 12
  {
    if m == 12 then (y + 1, 1) else (y, m + 1)
  }

  /** Days from the era start to March 1 of year `yoe` of that 400-year era. */
  function YearDays(era: int, yoe: int): int {
    era * 146097 + yoe * 365 + yoe / 4 - yoe / 100
  }

  lemma CycleStep(era: int, yoe: int)
    requires 0 < yoe < 400
    ensures YearDays(era, yoe) - YearDays(era, yoe - 1) == 365 + (if yoe % 4 == 0 && yoe % 100 != 0 then 1 else 0)
  {
  }

  lemma LeapInCycle(y: int, era: int, yoe: int)
    requires y == 400 * era + yoe && 0 <= yoe < 400
    ensures IsLeapYear(y) <==> yoe % 4 == 0 && (yoe % 100 != 0 || yoe == 0)
  {
    assert y == 4 * (100 * era + yoe / 4) + yoe % 4;
    assert y == 100 * (4 * era + yoe / 100) + yoe % 100;
  }

  lemma MarchFirst(y: int)
    ensures DayNumber(y, 3, 1) == YearDays(y / 400, y % 400) - 719468
  {
  }

  lemma FebFirst(y: int)
    ensures DayNumber(y, 2, 1) == YearDays((y - 1) / 400, (y - 1) % 400) + 337 - 719468
  {
  }

  lemma FebToMarch(y: int)
    ensures DayNumber(y, 3, 1) == DayNumber(y, 2, 1) + DaysInMonth(y, 2)
  {
    MarchFirst(y);
    FebFirst(y);
    var era := y / 400;
    var yoe := y % 400;
    LeapInCycle(y, era, yoe);
    if yoe == 0 {
      assert (y - 1) / 400 == era - 1 && (y - 1) % 400 == 399;
    } else {
      assert (y - 1) / 400 == era && (y - 1) % 400 == yoe - 1;
      CycleStep(era, yoe);
    }
  }

  /** A month starts the day after the previous month's last day. */
  lemma NextMonthStart(y: int, m: int)
    requires 1 <= m <= 12
    ensures DayNumber(NextMonth(y, m).0, NextMonth(y, m).1, 1) == DayNumber(y, m, 1) + DaysInMonth(y, m)
  {
    if m == 2 {
      FebToMarch(y);
    }
  }

  /** Calendar anchors: the epoch is day 0, a Thursday, and 2024-07-19 is a Friday. */
  lemma KnownDays()
    ensures DayNumber(1970, 1, 1) == 0 && Weekday(0) == 3
    ensures Weekday(DayNumber(2024, 7, 19)) == FRIDAY
  {
  }

  /** "HH:MM" for a time of day, as `strftime("%H:%M")` renders it. */
  function HHMM(t: TimeOfDay): (s: string)
    ensures |s| == 5 && s[2] == ':'
    ensures AllDigits(s[..2]) && AllDigits(s[3..])
    ensures DecimalValue(s[..2]) == t / HOUR && DecimalValue(s[3..]) == (t % HOUR) / MINUTE
  {
    var s := TwoDigits(t / HOUR) + ":" + TwoDigits((t % HOUR) / MINUTE);
    assert s[..2] == TwoDigits(t / HOUR);
    assert s[3..] == TwoDigits((t % HOUR) / MINUTE);
    s
  }
}
