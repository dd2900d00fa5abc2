/**
 * Recurring unavailability (app/services/recurring_availability.py).
 *
 * A rule (weekly, biweekly or monthly) expands into dated occurrences within one month; manual
 * entries take precedence over rule occurrences on the same date; and an event conflicts with
 * the first entry that overlaps its working window. Dates are `Clock` day numbers and instants
 * `Clock` instants.
 */
module RecurringAvailability {
  import opened Wrappers
  import opened Clock

  /** A recurrence rule; `daysOfWeek` counts from Sunday = 0. */
  datatype Rule = Rule(
    ruleId: int,
    pattern: Option<string>,
    startDate: int,
    untilDate: Option<int>,
    allDay: bool,
    startTime: Option<TimeOfDay>,
    endTime: Option<TimeOfDay>,
    daysOfWeek: seq<int>,
    anchorDate: Option<int>,
    dayOfMonth: Option<nat>)

  /** One dated occurrence of a rule. */
  datatype Occurrence = Occurrence(date: int, startAt: int, endAt: int, ruleId: int)

  /**
   * Why an expansion raises: `date(year, month, 1)` rejects the month, or a walk steps past
   * year 9999 (the day after 9999-12-31, or the month after December 9999).
   */
  datatype ExpandError = InvalidMonth | YearOverflow

  /** The weekday counted from Sunday = 0, as the rules store it. */
  function SundayIndex(d: int): (w: int)
    ensures 0 <= w < 7
  {
    (Weekday(d) + 1) % 7
  }

  predicate Increasing(s: seq<int>) {
    forall i, j :: 0 <= i < j < |s| ==> s[i] < s[j]
  }

  /** Within the month, on or after the rule's start, and not after its end. */
  predicate InWindow(d: int, monthStart: int, monthEnd: int, startDate: int, untilDate: Option<int>) {
    monthStart <= d && startDate <= d && d <= monthEnd && (untilDate.None? || d <= untilDate.value)
  }

  /** A listed weekday that is not an exception. */
  predicate WeeklyDay(d: int, daysOfWeek: seq<int>, exceptions: seq<int>) {
    SundayIndex(d) in daysOfWeek && d !in exceptions
  }

  /** An "on" week: an even number of whole weeks since the anchor, counted with floor division. */
  predicate EvenWeek(d: int, anchor: int) {
    ((d - anchor) / 7) % 2 == 0
  }

  /** The day number of 9999-12-31, the last day Python's `date` can hold. */
  const LAST_DAY: int := DayNumber(9999, 12, 31)

  /**
   * A daily walk raises: it has weekdays to look for and reaches the last day, and moving on
   * to the next day leaves the calendar.
   */
  predicate WalkOverflow(daysOfWeek: seq<int>, monthStart: int, monthEnd: int, startDate: int, untilDate: Option<int>) {
    && daysOfWeek != []
    && monthStart <= LAST_DAY && startDate <= LAST_DAY && LAST_DAY <= monthEnd
    && (untilDate.None? || LAST_DAY <= untilDate.value)
  }

  /** `_expand_weekly` */
  method ExpandWeekly(daysOfWeek: seq<int>, monthStart: int, monthEnd: int, startDate: int, untilDate: Option<int>, exceptions: seq<int>)
    returns (r: Result<seq<int>, ExpandError>)
    ensures r.Err? <==> WalkOverflow(daysOfWeek, monthStart, monthEnd, startDate, untilDate)
    ensures r.Err? ==> r.error == YearOverflow
    ensures r.Ok? ==> Increasing(r.value)
    ensures r.Ok? ==> forall d :: d in r.value <==>
      InWindow(d, monthStart, monthEnd, startDate, untilDate) && WeeklyDay(d, daysOfWeek, exceptions)
  {
    if daysOfWeek == [] {
      return Ok([]);
    }
    var occ: seq<int> := [];
    var current := if monthStart >= startDate then monthStart else startDate;
    ghost var first := current;
    while current <= monthEnd && (untilDate.None? || current <= untilDate.value)
      invariant first <= current
      invariant first <= LAST_DAY ==> current <= LAST_DAY
      invariant Increasing(occ)
      invariant forall k :: 0 <= k < |occ| ==> occ[k] < current
      invariant forall d :: d in occ <==> first <= d < current && WeeklyDay(d, daysOfWeek, exceptions)
      invariant current == first || (current - 1 <= monthEnd && (untilDate.None? || current - 1 <= untilDate.value))
      decreases monthEnd - current
    {
      if SundayIndex(current) in daysOfWeek && current !in exceptions {
        occ := occ + [current];
      }
      if current == LAST_DAY {
        return Err(YearOverflow);
      }
      current := current + 1;
    }
    return Ok(occ);
  }

  /** `_expand_biweekly` */
  method ExpandBiweekly(daysOfWeek: seq<int>, anchor: int, monthStart: int, monthEnd: int, startDate: int, untilDate: Option<int>, exceptions: seq<int>)
    returns (r: Result<seq<int>, ExpandError>)
    ensures r.Err? <==> WalkOverflow(daysOfWeek, monthStart, monthEnd, startDate, untilDate)
    ensures r.Err? ==> r.error == YearOverflow
    ensures r.Ok? ==> Increasing(r.value)
    ensures r.Ok? ==> forall d :: d in r.value <==>
      InWindow(d, monthStart, monthEnd, startDate, untilDate) && EvenWeek(d, anchor) && WeeklyDay(d, daysOfWeek, exceptions)
  {
    if daysOfWeek == [] {
      return Ok([]);
    }
    var occ: seq<int> := [];
    var current := if monthStart >= startDate then monthStart else startDate;
    ghost var first := current;
    while current <= monthEnd && (untilDate.None? || current <= untilDate.value)
      invariant first <= current
      invariant first <= LAST_DAY ==> current <= LAST_DAY
      invariant Increasing(occ)
      invariant forall k :: 0 <= k < |occ| ==> occ[k] < current
      invariant forall d :: d in occ <==> first <= d < current && EvenWeek(d, anchor) && WeeklyDay(d, daysOfWeek, exceptions)
      invariant current == first || (current - 1 <= monthEnd && (untilDate.None? || current - 1 <= untilDate.value))
      decreases monthEnd - current
    {
      var weekNumber := (current - anchor) / 7;
      if weekNumber % 2 == 0 {
        if SundayIndex(current) in daysOfWeek && current !in exceptions {
          occ := occ + [current];
        }
      }
      if current == LAST_DAY {
        return Err(YearOverflow);
      }
      current := current + 1;
    }
    return Ok(occ);
  }

  /** The monthly date falls in (year, month), is within the rule's dates and is not an exception. */
  predicate MonthlyOccurs(d: int, dom: nat, year: int, month: int, startDate: int, untilDate: Option<int>, exceptions: seq<int>)
    requires 1 <= month <= 12
  {
    && 1 <= dom <= DaysInMonth(year, month)
    && d == DayNumber(year, month, dom)
    && d >= startDate
    && (untilDate.None? || d <= untilDate.value)
    && d !in exceptions
  }

  /** The monthly walk stops early: the date exists, is on or after the start, and is past the end. */
  predicate MonthlyStops(dom: nat, year: int, month: int, startDate: int, untilDate: Option<int>)
    requires 1 <= month <= 12
  {
    1 <= dom <= DaysInMonth(year, month) && DayNumber(year, month, dom) >= startDate
    && untilDate.Some? && DayNumber(year, month, dom) > untilDate.value
  }

  /**
   * `_expand_monthly`: the walk over months from the requested one; it yields at most the one
   * date of the requested month, and raises when the next month would be in year 10000.
   */
  method ExpandMonthly(dayOfMonth: Option<nat>, year: int, month: int, startDate: int, untilDate: Option<int>, exceptions: seq<int>)
    returns (r: Result<seq<int>, ExpandError>)
    requires ValidDate(year, month, 1)
    ensures dayOfMonth.None? || dayOfMonth.value == 0 ==> r == Ok([])
    ensures r.Err? <==>
      dayOfMonth.Some? && dayOfMonth.value != 0 && year == 9999 && month == 12
      && !MonthlyStops(dayOfMonth.value, year, month, startDate, untilDate)
    ensures r.Err? ==> r.error == YearOverflow
    ensures r.Ok? ==> |r.value| <= 1 && forall d :: d in r.value <==>
      dayOfMonth.Some? && MonthlyOccurs(d, dayOfMonth.value, year, month, startDate, untilDate, exceptions)
  {
    var monthStart := DayNumber(year, month, 1);
    var monthEnd := DayNumber(year, month, DaysInMonth(year, month));
    if dayOfMonth.None? || dayOfMonth.value == 0 {
      return Ok([]);
    }
    var dom := dayOfMonth.value;
    NextMonthStart(year, month);
    DayNumberInMonth(year, month, DaysInMonth(year, month));
    DayNumberInMonth(year, month, dom);
    var occ: seq<int> := [];
    var cy, cm := year, month;
    while true
      invariant (cy, cm) == (year, month) || (cy, cm) == NextMonth(year, month)
      invariant (cy, cm) == (year, month) ==> occ == []
      invariant (cy, cm) != (year, month) ==>
        !MonthlyStops(dom, year, month, startDate, untilDate)
        && |occ| <= 1 && forall d :: d in occ <==> MonthlyOccurs(d, dom, year, month, startDate, untilDate, exceptions)
      decreases if (cy, cm) == (year, month) then 1 else 0
    {
      if !ValidDate(cy, cm, 1) {
        return Err(YearOverflow);
      }
      if DayNumber(cy, cm, 1) > monthEnd {
        break;
      }
      var daysInMonth := DaysInMonth(cy, cm);
      if dom <= daysInMonth {
        var occurrence := DayNumber(cy, cm, dom);
        if occurrence >= startDate {
          if untilDate.Some? && occurrence > untilDate.value {
            break;
          }
          if occurrence !in exceptions && monthStart <= occurrence <= monthEnd {
            occ := occ + [occurrence];
          }
        }
      }
      if cm == 12 {
        cm := 1;
        cy := cy + 1;
      } else {
        cm := cm + 1;
      }
    }
    return Ok(occ);
  }

  /** The first date of the week count of a biweekly rule: its anchor, else its start. */
  function Anchor(rule: Rule): int {
    if rule.anchorDate.Some? then rule.anchorDate.value else rule.startDate
  }

  /** The dates a rule yields in the month [monthStart, monthEnd] of (year, month). */
  predicate PatternOccurs(rule: Rule, d: int, year: int, month: int, exceptions: seq<int>)
    requires ValidDate(year, month, 1)
  {
    var monthStart := DayNumber(year, month, 1);
    var monthEnd := DayNumber(year, month, DaysInMonth(year, month));
    if rule.pattern == Some("weekly") then
      InWindow(d, monthStart, monthEnd, rule.startDate, rule.untilDate) && WeeklyDay(d, rule.daysOfWeek, exceptions)
    else if rule.pattern == Some("biweekly") then
      InWindow(d, monthStart, monthEnd, rule.startDate, rule.untilDate)
      && EvenWeek(d, Anchor(rule)) && WeeklyDay(d, rule.daysOfWeek, exceptions)
    else if rule.pattern == Some("monthly") then
      rule.dayOfMonth.Some? && MonthlyOccurs(d, rule.dayOfMonth.value, year, month, rule.startDate, rule.untilDate, exceptions)
    else false
  }

  /** The rule has times for its occurrences: all day, or both a start and an end time. */
  predicate HasTimes(rule: Rule) {
    rule.allDay || (rule.startTime.Some? && rule.endTime.Some?)
  }

  /** The occurrence of a rule on date `d`: the whole local day, or the rule's times on that day. */
  function OccurrenceOn(rule: Rule, d: int): (o: Occurrence)
    requires HasTimes(rule)
    ensures o.date == d && o.ruleId == rule.ruleId
    ensures DateOf(o.startAt) == d && DateOf(o.endAt) == d
    ensures rule.allDay ==> TimeOf(o.startAt) == 0 && TimeOf(o.endAt) == DAY - 1
  {
    if rule.allDay then Occurrence(d, At(d, 0), At(d, DAY - 1), rule.ruleId)
    else Occurrence(d, At(d, rule.startTime.value), At(d, rule.endTime.value), rule.ruleId)
  }

  function Dates(occs: seq<Occurrence>): (r: seq<int>)
    ensures |r| == |occs|
  {
    seq(|occs|, i requires 0 <= i < |occs| => occs[i].date)
  }

  /** The conversion loop of `expand_rule_for_month`: timed rules without both times yield nothing. */
  method ToOccurrences(rule: Rule, dates: seq<int>) returns (result: seq<Occurrence>)
    ensures !HasTimes(rule) ==> result == []
    ensures HasTimes(rule) ==> |result| == |dates| && forall i :: 0 <= i < |dates| ==> result[i] == OccurrenceOn(rule, dates[i])
  {
    result := [];
    for i := 0 to |dates|
      invariant !HasTimes(rule) ==> result == []
      invariant HasTimes(rule) ==> |result| == i && forall k :: 0 <= k < i ==> result[k] == OccurrenceOn(rule, dates[k])
    {
      var occDate := dates[i];
      var startAt, endAt;
      if rule.allDay {
        startAt := At(occDate, 0);
        endAt := At(occDate, DAY - 1);
      } else {
        if rule.startTime.None? || rule.endTime.None? {
          continue;
        }
        startAt := At(occDate, rule.startTime.value);
        endAt := At(occDate, rule.endTime.value);
      }
      result := result + [Occurrence(occDate, startAt, endAt, rule.ruleId)];
    }
  }

  /** The monthly walk raises: a monthly rule for December 9999 that is active that month and does not stop early. */
  predicate MonthlyOverflow(rule: Rule, year: int, month: int) {
    && rule.pattern == Some("monthly")
    && year == 9999 && month == 12
    && rule.dayOfMonth.Some? && rule.dayOfMonth.value != 0
    && rule.startDate <= DayNumber(year, month, 31)
    && (rule.untilDate.None? || rule.untilDate.value >= DayNumber(year, month, 1))
    && !MonthlyStops(rule.dayOfMonth.value, year, month, rule.startDate, rule.untilDate)
  }

  /** The daily walk of a weekly or biweekly rule raises in (year, month). */
  predicate DailyOverflow(rule: Rule, year: int, month: int)
    requires 1 <= month <= 12
  {
    && (rule.pattern == Some("weekly") || rule.pattern == Some("biweekly"))
    && WalkOverflow(rule.daysOfWeek, DayNumber(year, month, 1), DayNumber(year, month, DaysInMonth(year, month)), rule.startDate, rule.untilDate)
  }

  /** Every month before December 9999 ends before the last day. */
  lemma {:induction false} MonthEndsBeforeLastDay(year: int, month: int)
    requires ValidDate(year, month, 1) && (year, month) != (9999, 12)
    ensures DayNumber(year, month, DaysInMonth(year, month)) < LAST_DAY
    decreases 12 * (9999 - year) + (12 - month)
  {
    NextMonthStart(year, month);
    DayNumberInMonth(year, month, DaysInMonth(year, month));
    var (ny, nm) := NextMonth(year, month);
    DayNumberInMonth(ny, nm, DaysInMonth(ny, nm));
    if (ny, nm) != (9999, 12) {
      MonthEndsBeforeLastDay(ny, nm);
    }
  }

  /** Only December 9999 can make the daily walk raise. */
  lemma DailyOverflowOnlyAtEnd(rule: Rule, year: int, month: int)
    requires ValidDate(year, month, 1)
    ensures DailyOverflow(rule, year, month) ==> year == 9999 && month == 12
  {
    if (year, month) != (9999, 12) {
      MonthEndsBeforeLastDay(year, month);
    }
  }

  /**
   * `expand_rule_for_month`: the rule's dates in the month, in ascending order, each turned into an
   * occurrence; a month `date()` rejects raises, and so does a walk past 9999-12-31.
   */
  method ExpandRuleForMonth(rule: Rule, year: int, month: int, exceptions: seq<int>)
    returns (r: Result<seq<Occurrence>, ExpandError>)
    ensures !ValidDate(year, month, 1) ==> r == Err(InvalidMonth)
    ensures ValidDate(year, month, 1) ==>
      (r.Err? <==> MonthlyOverflow(rule, year, month) || DailyOverflow(rule, year, month))
    ensures ValidDate(year, month, 1) && r.Err? ==> r.error == YearOverflow
    ensures r.Ok? ==> ValidDate(year, month, 1)
    ensures r.Ok? && !HasTimes(rule) ==> r.value == []
    ensures r.Ok? && HasTimes(rule) ==>
      && Increasing(Dates(r.value))
      && (forall d :: d in Dates(r.value) <==> PatternOccurs(rule, d, year, month, exceptions))
      && (forall o :: o in r.value ==> o == OccurrenceOn(rule, o.date))
  {
    if !ValidDate(year, month, 1) {
      return Err(InvalidMonth);
    }
    var monthStart := DayNumber(year, month, 1);
    var monthEnd := DayNumber(year, month, DaysInMonth(year, month));
    DayNumberInMonth(year, month, DaysInMonth(year, month));
    if rule.startDate > monthEnd || (rule.untilDate.Some? && rule.untilDate.value < monthStart) {
      EarlyNothing(rule, year, month, exceptions);
      return Ok([]);
    }
    var dates: seq<int>;
    if rule.pattern == Some("weekly") {
      var weekly := ExpandWeekly(rule.daysOfWeek, monthStart, monthEnd, rule.startDate, rule.untilDate, exceptions);
      if weekly.Err? {
        return Err(weekly.error);
      }
      dates := weekly.value;
    } else if rule.pattern == Some("biweekly") {
      var biweekly := ExpandBiweekly(rule.daysOfWeek, Anchor(rule), monthStart, monthEnd, rule.startDate, rule.untilDate, exceptions);
      if biweekly.Err? {
        return Err(biweekly.error);
      }
      dates := biweekly.value;
    } else if rule.pattern == Some("monthly") {
      var monthly := ExpandMonthly(rule.dayOfMonth, year, month, rule.startDate, rule.untilDate, exceptions);
      if monthly.Err? {
        return Err(monthly.error);
      }
      dates := monthly.value;
      if |dates| == 1 {
        assert Increasing(dates);
      }
    } else {
      return Ok([]);
    }
    var result := ToOccurrences(rule, dates);
    if HasTimes(rule) {
      OccurrenceDates(rule, dates, result);
    }
    return Ok(result);
  }

  /** Occurrences built date by date carry those dates, each with the rule's times. */
  lemma OccurrenceDates(rule: Rule, dates: seq<int>, result: seq<Occurrence>)
    requires HasTimes(rule)
    requires |result| == |dates| && forall i :: 0 <= i < |dates| ==> result[i] == OccurrenceOn(rule, dates[i])
    ensures Dates(result) == dates
    ensures forall o :: o in result ==> o == OccurrenceOn(rule, o.date)
  {
    forall o | o in result
      ensures o == OccurrenceOn(rule, o.date)
    {
      var i :| 0 <= i < |result| && result[i] == o;
    }
  }

  /** A rule that starts after the month or ends before it yields no date in the month. */
  lemma EarlyNothing(rule: Rule, year: int, month: int, exceptions: seq<int>)
    requires ValidDate(year, month, 1)
    requires rule.startDate > DayNumber(year, month, DaysInMonth(year, month))
      || (rule.untilDate.Some? && rule.untilDate.value < DayNumber(year, month, 1))
    ensures forall d :: !PatternOccurs(rule, d, year, month, exceptions)
  {
    if rule.pattern == Some("monthly") && rule.dayOfMonth.Some? && 1 <= rule.dayOfMonth.value <= DaysInMonth(year, month) {
      DayNumberInMonth(year, month, rule.dayOfMonth.value);
      DayNumberInMonth(year, month, DaysInMonth(year, month));
    }
  }

  // ---------------------------------------------------------------------------------------
  // Precedence of manual entries

  /** A manually entered unavailability block. */
  datatype ManualEntry = ManualEntry(startAt: int, endAt: int)

  /** An entry of the merged list. */
  datatype Entry = Manual(manual: ManualEntry) | FromRule(occ: Occurrence)

  function EntryStart(e: Entry): int {
    match e
    case Manual(m) => m.startAt
    case FromRule(o) => o.startAt
  }

  function EntryEnd(e: Entry): int {
    match e
    case Manual(m) => m.endAt
    case FromRule(o) => o.endAt
  }

  /** The dates on which some manual entry starts. */
  function ManualDates(manual: seq<ManualEntry>): set<int> {
    set m | m in manual :: DateOf(m.startAt)
  }

  /** The rule occurrences on dates without a manual entry, in order. */
  function Surviving(rules: seq<Occurrence>, dates: set<int>): seq<Entry> {
    if rules == [] then []
    else
      var n := |rules| - 1;
      Surviving(rules[..n], dates) + (if rules[n].date !in dates then [FromRule(rules[n])] else [])
  }

  /** A rule occurrence survives exactly when no manual entry starts on its date. */
  lemma {:induction false} SurvivingIff(rules: seq<Occurrence>, dates: set<int>)
    ensures forall x :: x in Surviving(rules, dates) <==> x.FromRule? && x.occ in rules && x.occ.date !in dates
  {
    if rules != [] {
      var n := |rules| - 1;
      SurvivingIff(rules[..n], dates);
      assert rules == rules[..n] + [rules[n]];
      assert forall o :: o in rules <==> o in rules[..n] || o == rules[n];
    }
  }

  /** `merge_unavailability`: every manual entry first, then the rule occurrences no manual entry overrides. */
  method MergeUnavailability(manual: seq<ManualEntry>, rules: seq<Occurrence>) returns (result: seq<Entry>)
    ensures |result| >= |manual|
    ensures forall i :: 0 <= i < |manual| ==> result[i] == Manual(manual[i])
    ensures result[|manual|..] == Surviving(rules, ManualDates(manual))
  {
    var manualByDate: map<int, seq<ManualEntry>> := map[];
    for i := 0 to |manual|
      invariant manualByDate.Keys == ManualDates(manual[..i])
    {
      var entryDate := DateOf(manual[i].startAt);
      if entryDate !in manualByDate {
        manualByDate := manualByDate[entryDate := []];
      }
      manualByDate := manualByDate[entryDate := manualByDate[entryDate] + [manual[i]]];
      assert manual[..i + 1] == manual[..i] + [manual[i]];
      assert ManualDates(manual[..i + 1]) == ManualDates(manual[..i]) + {entryDate};
    }
    assert manual[..|manual|] == manual;
    result := seq(|manual|, k requires 0 <= k < |manual| => Manual(manual[k]));
    for i := 0 to |rules|
      invariant |result| >= |manual|
      invariant forall k :: 0 <= k < |manual| ==> result[k] == Manual(manual[k])
      invariant result[|manual|..] == Surviving(rules[..i], ManualDates(manual))
    {
      assert rules[..i + 1][..i] == rules[..i];
      var entryDate := rules[i].date;
      if entryDate !in manualByDate {
        result := result + [FromRule(rules[i])];
      }
    }
    assert rules[..|rules|] == rules;
  }

  // ---------------------------------------------------------------------------------------
  // Event conflicts

  /** The event columns the conflict check reads. */
  datatype EventTimes = EventTimes(eventId: int, eventDate: int, loadIn: Option<TimeOfDay>, showTime: Option<TimeOfDay>, endTime: Option<TimeOfDay>)

  /**
   * The event window: from load-in, else the show, else midnight; to the end time on the event
   * date, else 4 hours after the start when there is a show time, else 8 hours after it.
   */
  function EventWindow(e: EventTimes): (w: (int, int))
    ensures DateOf(w.0) == e.eventDate
    ensures e.loadIn.Some? ==> TimeOf(w.0) == e.loadIn.value
    ensures e.loadIn.None? && e.showTime.Some? ==> TimeOf(w.0) == e.showTime.value
    ensures e.loadIn.None? && e.showTime.None? ==> TimeOf(w.0) == 0
    ensures e.endTime.Some? ==> w.1 == At(e.eventDate, e.endTime.value)
    ensures e.endTime.None? ==> w.1 - w.0 == (if e.showTime.Some? then 4 * HOUR else 8 * HOUR)
  {
    var start :=
      if e.loadIn.Some? then At(e.eventDate, e.loadIn.value)
      else if e.showTime.Some? then At(e.eventDate, e.showTime.value)
      else At(e.eventDate, 0);
    var end :=
      if e.endTime.Some? then At(e.eventDate, e.endTime.value)
      else if e.showTime.Some? then start + 4 * HOUR
      else start + 8 * HOUR;
    (start, end)
  }

  predicate OverlapsWindow(x: Entry, s: int, e: int) {
    EntryStart(x) < e && EntryEnd(x) > s
  }

  /** The index of the first entry from `k` on that overlaps [s, e). */
  function FirstOverlap(entries: seq<Entry>, s: int, e: int, k: nat): (r: Option<nat>)
    requires k <= |entries|
    ensures r.None? <==> forall j :: k <= j < |entries| ==> !OverlapsWindow(entries[j], s, e)
    ensures r.Some? ==>
      && k <= r.value < |entries|
      && OverlapsWindow(entries[r.value], s, e)
      && forall j :: k <= j < r.value ==> !OverlapsWindow(entries[j], s, e)
    decreases |entries| - k
  {
    if k == |entries| then None
    else if OverlapsWindow(entries[k], s, e) then Some(k)
    else FirstOverlap(entries, s, e, k + 1)
  }

  /** A reported conflict. */
  datatype Conflict = Conflict(employeeId: int, eventId: int, entry: Entry, eventStart: int, eventEnd: int)

  /** `check_event_conflicts`: the first entry that overlaps the event window, if any. */
  function CheckEventConflicts(event: EventTimes, employeeId: int, entries: seq<Entry>): (c: Option<Conflict>)
    ensures c.None? <==> forall x :: x in entries ==> !OverlapsWindow(x, EventWindow(event).0, EventWindow(event).1)
    ensures c.Some? ==>
      exists i :: 0 <= i < |entries| && c.value.entry == entries[i]
        && OverlapsWindow(entries[i], EventWindow(event).0, EventWindow(event).1)
        && forall j :: 0 <= j < i ==> !OverlapsWindow(entries[j], EventWindow(event).0, EventWindow(event).1)
    ensures c.Some? ==>
      && c.value.eventStart == EventWindow(event).0 && c.value.eventEnd == EventWindow(event).1
      && c.value.employeeId == employeeId && c.value.eventId == event.eventId
  {
    var (s, e) := EventWindow(event);
    match FirstOverlap(entries, s, e, 0)
    case None => None
    case Some(i) => Some(Conflict(employeeId, event.eventId, entries[i], s, e))
  }
}
