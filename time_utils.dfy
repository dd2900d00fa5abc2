/**
 * Time parsing and send-time computation (app/time_utils.py).
 *
 * `compute_send_at` schedules a message `days_before` days ahead of a date at a fixed local
 * time of day, moves a time already in the past to tomorrow, and (for INIT messages only)
 * moves a Friday or Saturday to the following Sunday.
 */
module TimeUtils {
  import opened Wrappers
  import opened Text
  import opened Clock

  /** The values `parse_time` is given: None, a time, a string, a datetime, or something else. */
  datatype TimeInput =
    | NoValue
    | TimeValue(time: TimeOfDay)
    | TextValue(text: string)
    | DateTimeValue(instant: int)
    | OtherValue

  /** `ValueError` for a malformed string, `TypeError` for a value of another type. */
  datatype TimeError = InvalidFormat | WrongType

  /**
   * One numeric field of `strptime`'s "%H", "%M" or "%S": a single digit, or two digits whose
   * value is below `limit`. (The regular expression also admits seconds 60 and 61, which the
   * `datetime` constructor then rejects.)
   */
  function ClockField(tok: string, limit: nat): (r: Option<nat>)
    ensures r.Some? ==> r.value < limit || (|tok| == 1 && r.value < 10)
  {
    if |tok| == 1 && IsDigit(tok[0]) then Some(DigitValue(tok[0]))
    else if |tok| == 2 && AllDigits(tok) && DecimalValue(tok) < limit then Some(DecimalValue(tok))
    else None
  }

  /** `datetime.strptime(s, "%H:%M:%S").time()`, or None when it raises. */
  function ParseHMS(s: string): (r: Option<TimeOfDay>)
    ensures r.Some? ==> r.value % SECOND == 0
  {
    var parts := Split(s, ':');
    if |parts| != 3 then None
    else match (ClockField(parts[0], 24), ClockField(parts[1], 60), ClockField(parts[2], 60))
      case (Some(h), Some(m), Some(sec)) => Some(Time(h, m, sec))
      case _ => None
  }

  /** `datetime.strptime(s, "%H:%M").time()`, or None when it raises. */
  function ParseHM(s: string): (r: Option<TimeOfDay>)
    ensures r.Some? ==> r.value % MINUTE == 0
  {
    var parts := Split(s, ':');
    if |parts| != 2 then None
    else match (ClockField(parts[0], 24), ClockField(parts[1], 60))
      case (Some(h), Some(m)) => Some(HourMinute(h, m))
      case _ => None
  }

  /** A stripped, non-blank string: "HH:MM:SS" first, then "HH:MM". */
  function ParseClock(t: string): (r: Option<TimeOfDay>)
    ensures r.Some? ==> r.value % SECOND == 0
  {
    if ParseHMS(t).Some? then ParseHMS(t) else ParseHM(t)
  }

  /**
   * `parse_time`: None and blank strings give None, a time is returned as is, a string is
   * read as "HH:MM:SS" and then as "HH:MM", a datetime gives its time of day.
   */
  function ParseTime(v: TimeInput): (r: Result<Option<TimeOfDay>, TimeError>)
    ensures v.NoValue? ==> r == Ok(None)
    ensures v.TimeValue? ==> r == Ok(Some(v.time))
    ensures v.DateTimeValue? ==> r == Ok(Some(TimeOf(v.instant)))
    ensures v.OtherValue? ==> r == Err(WrongType)
    ensures v.TextValue? ==> (r == Ok(None) <==> Strip(v.text) == [])
    ensures v.TextValue? ==> (r == Err(InvalidFormat) <==> Strip(v.text) != [] && ParseClock(Strip(v.text)).None?)
    ensures v.TextValue? && r.Ok? && r.value.Some? ==> r.value.value == ParseClock(Strip(v.text)).value
    ensures v.TextValue? && r.Ok? && r.value.Some? ==> r.value.value % SECOND == 0
    ensures r == Err(WrongType) ==> v.OtherValue?
  {
    match v
    case NoValue => Ok(None)
    case TimeValue(t) => Ok(Some(t))
    case TextValue(s) =>
      if Strip(s) == [] then Ok(None)
      else if ParseClock(Strip(s)).Some? then Ok(Some(ParseClock(Strip(s)).value))
      else Err(InvalidFormat)
    case DateTimeValue(x) => Ok(Some(TimeOf(x)))
    case OtherValue => Err(WrongType)
  }

  /** Two digits below the limit are one field. */
  lemma TwoDigitField(tok: string, limit: nat)
    requires |tok| == 2 && AllDigits(tok) && DecimalValue(tok) < limit
    ensures ClockField(tok, limit) == Some(DecimalValue(tok))
  {
  }

  /** Two valid fields separated by one ':' are read as hours and minutes. */
  lemma ParseHMParts(s: string, a: string, b: string, h: nat, m: nat)
    requires Split(s, ':') == [a, b] && ClockField(a, 24) == Some(h) && ClockField(b, 60) == Some(m)
    ensures h < 24 && m < 60 && ParseHM(s) == Some(HourMinute(h, m))
  {
  }

  /** Three valid fields separated by ':' are read as hours, minutes and seconds, before "HH:MM" is tried. */
  lemma ParseHMSParts(s: string, a: string, b: string, c: string, h: nat, m: nat, sec: nat)
    requires Split(s, ':') == [a, b, c]
    requires ClockField(a, 24) == Some(h) && ClockField(b, 60) == Some(m) && ClockField(c, 60) == Some(sec)
    ensures h < 24 && m < 60 && sec < 60
    ensures ParseHMS(s) == Some(Time(h, m, sec)) && ParseClock(s) == Some(Time(h, m, sec))
  {
  }

  /**
   * A non-blank string is malformed exactly when its ':'-separated pieces are neither three
   * fields (hour, minute, second) nor two (hour, minute) that `strptime` accepts.
   */
  lemma MalformedIff(s: string)
    requires Strip(s) != []
    ensures var p := Split(Strip(s), ':');
      ParseTime(TextValue(s)) == Err(InvalidFormat) <==>
        !(|p| == 3 && ClockField(p[0], 24).Some? && ClockField(p[1], 60).Some? && ClockField(p[2], 60).Some?)
        && !(|p| == 2 && ClockField(p[0], 24).Some? && ClockField(p[1], 60).Some?)
  {
  }

  /** Seconds 60 to 99 are refused: "HH:MM:SS" rejects them and "HH:MM" does not take three pieces. */
  lemma SecondsOutOfRange(h: nat, m: nat, sec: nat)
    requires h < 24 && m < 60 && 60 <= sec < 100
    ensures ParseTime(TextValue(TwoDigits(h) + ":" + TwoDigits(m) + ":" + TwoDigits(sec))) == Err(InvalidFormat)
  {
    var hh, mm, ss := TwoDigits(h), TwoDigits(m), TwoDigits(sec);
    var s := hh + ":" + mm + ":" + ss;
    SplitThree(hh, mm, ss);
    StripNoOp(s);
    MalformedIff(s);
  }

  /** Hours 24 to 99 are refused by both formats. */
  lemma HourOutOfRange(h: nat, m: nat)
    requires 24 <= h < 100 && m < 60
    ensures ParseTime(TextValue(TwoDigits(h) + ":" + TwoDigits(m))) == Err(InvalidFormat)
  {
    var hh, mm := TwoDigits(h), TwoDigits(m);
    var s := hh + ":" + mm;
    SplitTwo(hh, mm);
    StripNoOp(s);
    MalformedIff(s);
  }

  /** An hour of three or more digits is no field of either format. */
  lemma LongHourIsMalformed(hh: string, m: nat)
    requires |hh| >= 3 && AllDigits(hh) && m < 60
    ensures ParseTime(TextValue(hh + ":" + TwoDigits(m))) == Err(InvalidFormat)
  {
    var mm := TwoDigits(m);
    var s := hh + ":" + mm;
    SplitTwo(hh, mm);
    StripNoOp(s);
    MalformedIff(s);
  }

  /** Digits and one ':' between two digit runs split into those runs. */
  lemma SplitTwo(a: string, b: string)
    requires a != [] && b != [] && AllDigits(a) && AllDigits(b)
    ensures Split(a + ":" + b, ':') == [a, b]
    ensures var s := a + ":" + b; !IsSpace(s[0]) && !IsSpace(s[|s| - 1])
  {
    var s := a + ":" + b;
    assert s[..|a|] == a && s[|a| + 1..] == b;
    assert ':' !in a && ':' !in b;
    SplitOnce(s, |a|, ':');
  }

  /** Three digit runs joined by ':' split into those runs. */
  lemma SplitThree(a: string, b: string, c: string)
    requires a != [] && b != [] && c != [] && AllDigits(a) && AllDigits(b) && AllDigits(c)
    ensures Split(a + ":" + b + ":" + c, ':') == [a, b, c]
    ensures var s := a + ":" + b + ":" + c; !IsSpace(s[0]) && !IsSpace(s[|s| - 1])
  {
    var s := a + ":" + b + ":" + c;
    var rest := b + ":" + c;
    assert s[..|a|] == a && s[|a| + 1..] == rest;
    assert ':' !in a;
    SplitFirst(s, |a|, ':');
    SplitTwo(b, c);
  }

  /** The pieces of a string: the text before its first separator, then the pieces of the rest. */
  lemma SplitFirst(s: string, i: nat, sep: char)
    requires i < |s| && s[i] == sep && sep !in s[..i]
    ensures Split(s, sep) == [s[..i]] + Split(s[i + 1..], sep)
  {
    assert IndexOf(s, sep) == i;
  }

  /** A string with one separator splits into the pieces on either side of it. */
  lemma SplitOnce(s: string, i: nat, sep: char)
    requires i < |s| && s[i] == sep && sep !in s[..i] && sep !in s[i + 1..]
    ensures Split(s, sep) == [s[..i], s[i + 1..]]
  {
    SplitFirst(s, i, sep);
  }

  /** A time rendered as "HH:MM" parses back to that hour and minute. */
  lemma ParseTimeHHMM(t: TimeOfDay)
    ensures ParseTime(TextValue(HHMM(t))) == Ok(Some(HourMinute(t / HOUR, (t % HOUR) / MINUTE)))
  {
    var s := HHMM(t);
    var h, m := t / HOUR, (t % HOUR) / MINUTE;
    assert Split(s, ':') == [s[..2], s[3..]] by {
      assert ':' !in s[..2] by { assert AllDigits(s[..2]); }
      assert ':' !in s[3..] by { assert AllDigits(s[3..]); }
      SplitOnce(s, 2, ':');
    }
    assert ParseClock(s) == Some(HourMinute(h, m)) by {
      assert ClockField(s[..2], 24) == Some(h) by { TwoDigitField(s[..2], 24); }
      assert ClockField(s[3..], 60) == Some(m) by { TwoDigitField(s[3..], 60); }
      ParseHMParts(s, s[..2], s[3..], h, m);
    }
    ParseTimeClean(s, HourMinute(h, m));
  }

  /** "HH:MM:SS" of zero-padded fields parses back to that time, seconds included. */
  lemma ParseTimeHHMMSS(h: nat, m: nat, sec: nat)
    requires h < 24 && m < 60 && sec < 60
    ensures ParseTime(TextValue(TwoDigits(h) + ":" + TwoDigits(m) + ":" + TwoDigits(sec))) == Ok(Some(Time(h, m, sec)))
  {
    var hh, mm, ss := TwoDigits(h), TwoDigits(m), TwoDigits(sec);
    var s := hh + ":" + mm + ":" + ss;
    SplitThree(hh, mm, ss);
    TwoDigitField(hh, 24);
    TwoDigitField(mm, 60);
    TwoDigitField(ss, 60);
    ParseHMSParts(s, hh, mm, ss, h, m, sec);
    ParseTimeClean(s, Time(h, m, sec));
  }

  /** A non-blank string without surrounding whitespace is read by `ParseClock` alone. */
  lemma ParseTimeClean(s: string, x: TimeOfDay)
    requires s != [] && !IsSpace(s[0]) && !IsSpace(s[|s| - 1]) && ParseClock(s) == Some(x)
    ensures ParseTime(TextValue(s)) == Ok(Some(x))
  {
    StripNoOp(s);
  }

  /** The Israeli weekend of the rule: Friday or Saturday. */
  predicate IsWeekendDay(d: int) {
    Weekday(d) == FRIDAY || Weekday(d) == SATURDAY
  }

  /** The first candidate: `days_before` days ahead of the date, at the fixed time. */
  function FirstCandidate(baseDate: int, fixedTime: TimeOfDay, daysBefore: int): int {
    At(baseDate - daysBefore, fixedTime)
  }

  /**
   * `compute_send_at` on a parsed time: the first candidate, or tomorrow at the fixed time when
   * the candidate is already past, then (with the weekend rule) Friday or Saturday moved to
   * Sunday.
   */
  function SendAt(baseDate: int, fixedTime: TimeOfDay, daysBefore: int, now: int, weekendRule: bool): (r: int)
    ensures TimeOf(r) == fixedTime
    ensures r >= now
    ensures weekendRule ==> !IsWeekendDay(DateOf(r))
    ensures FirstCandidate(baseDate, fixedTime, daysBefore) >= now && !(weekendRule && IsWeekendDay(baseDate - daysBefore))
      ==> r == FirstCandidate(baseDate, fixedTime, daysBefore)
  {
    var first := FirstCandidate(baseDate, fixedTime, daysBefore);
    var candidate := if first < now then At(DateOf(now) + 1, fixedTime) else first;
    var day := DateOf(candidate);
    if weekendRule && Weekday(day) == FRIDAY then At(day + 2, fixedTime)
    else if weekendRule && Weekday(day) == SATURDAY then At(day + 1, fixedTime)
    else candidate
  }

  /** Without the weekend rule the result is the (possibly moved-to-tomorrow) candidate, any weekday. */
  lemma NoRuleKeepsWeekend(baseDate: int, fixedTime: TimeOfDay, daysBefore: int, now: int)
    requires FirstCandidate(baseDate, fixedTime, daysBefore) >= now
    ensures SendAt(baseDate, fixedTime, daysBefore, now, false) == FirstCandidate(baseDate, fixedTime, daysBefore)
  {
  }

  /** A past candidate is replaced by tomorrow (local) at the fixed time, before the weekend rule. */
  lemma PastMovesToTomorrow(baseDate: int, fixedTime: TimeOfDay, daysBefore: int, now: int)
    requires FirstCandidate(baseDate, fixedTime, daysBefore) < now
    ensures SendAt(baseDate, fixedTime, daysBefore, now, false) == At(DateOf(now) + 1, fixedTime)
  {
  }

  /** The weekend rule moves a Friday two days and a Saturday one day ahead, to Sunday. */
  lemma WeekendToSunday(baseDate: int, fixedTime: TimeOfDay, daysBefore: int, now: int)
    requires FirstCandidate(baseDate, fixedTime, daysBefore) >= now
    ensures var d := baseDate - daysBefore;
      && (Weekday(d) == FRIDAY ==> SendAt(baseDate, fixedTime, daysBefore, now, true) == At(d + 2, fixedTime))
      && (Weekday(d) == SATURDAY ==> SendAt(baseDate, fixedTime, daysBefore, now, true) == At(d + 1, fixedTime))
      && Weekday(DateOf(SendAt(baseDate, fixedTime, daysBefore, now, true))) != FRIDAY
  {
  }

  /**
   * A past candidate under the weekend rule: tomorrow (local) at the fixed time, moved on two days
   * when tomorrow is a Friday and one day when it is a Saturday.
   */
  lemma PastWithWeekendRule(baseDate: int, fixedTime: TimeOfDay, daysBefore: int, now: int)
    requires FirstCandidate(baseDate, fixedTime, daysBefore) < now
    ensures var d := DateOf(now) + 1;
      SendAt(baseDate, fixedTime, daysBefore, now, true)
        == At(d + (if Weekday(d) == FRIDAY then 2 else if Weekday(d) == SATURDAY then 1 else 0), fixedTime)
  {
  }

  /** `compute_send_at` as called with a time value: the time must parse to a time of day. */
  function ComputeSendAt(baseDate: int, fixedTime: TimeInput, daysBefore: int, now: int, weekendRule: bool): (r: Result<int, TimeError>)
    ensures r.Ok? <==> ParseTime(fixedTime).Ok? && ParseTime(fixedTime).value.Some?
    ensures r.Ok? ==> r.value >= now && TimeOf(r.value) == ParseTime(fixedTime).value.value
    ensures r.Ok? ==> r.value == SendAt(baseDate, ParseTime(fixedTime).value.value, daysBefore, now, weekendRule)
    ensures r.Ok? && weekendRule ==> !IsWeekendDay(DateOf(r.value))
  {
    match ParseTime(fixedTime)
    case Err(e) => Err(e)
    case Ok(None) => Err(InvalidFormat)
    case Ok(Some(t)) => Ok(SendAt(baseDate, t, daysBefore, now, weekendRule))
  }

  /** A datetime's zone: UTC or Asia/Jerusalem. */
  datatype Zone = Utc | Israel

  /** A datetime: its wall-clock reading and, if aware, its zone. */
  datatype DateTime = DateTime(wall: int, zone: Option<Zone>)

  /**
   * `ensure_aware`: None stays None, an aware datetime is returned unchanged, a naive one gets
   * UTC (or Israel time when `assumeUtc` is false) with the same wall-clock reading.
   */
  function EnsureAware(dt: Option<DateTime>, assumeUtc: bool): (r: Option<DateTime>)
    ensures dt.None? <==> r.None?
    ensures r.Some? ==> r.value.zone.Some? && r.value.wall == dt.value.wall
    ensures dt.Some? && dt.value.zone.Some? ==> r == dt
    ensures dt.Some? && dt.value.zone.None? ==> r.value.zone == Some(if assumeUtc then Utc else Israel)
  {
    match dt
    case None => None
    case Some(d) =>
      if d.zone.Some? then dt
      else Some(d.(zone := Some(if assumeUtc then Utc else Israel)))
  }

  /** Making a datetime aware twice is the same as once, whatever zone the second call assumes. */
  lemma EnsureAwareIdempotent(dt: Option<DateTime>, first: bool, second: bool)
    ensures EnsureAware(EnsureAware(dt, first), second) == EnsureAware(dt, first)
  {
  }
}
