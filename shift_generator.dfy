/**
 * Automatic shift assignment (app/services/shift_generator.py).
 *
 * Each event becomes one or more shift slots covering load-in to five hours after the show; the
 * slots are then taken in start order and each goes to the eligible employee with the best
 * fairness score. Eligibility is a set of hard constraints: active, not unavailable, enough rest,
 * no night shift before a morning shift, no overlap with a shift already held. Instants are
 * `Clock` instants (local microseconds).
 */
module ShiftGenerator {
  import opened Wrappers
  import opened Clock
  import opened Sorting
  import opened Seqs

  const DEFAULT_SHIFT: int := 8 * HOUR
  const MAX_SHIFT: int := 12 * HOUR
  const MIN_REST: int := 10 * HOUR
  const EVENT_BUFFER: int := 5 * HOUR
  const NIGHT_START_HOUR: int := 22
  const NIGHT_END_HOUR: int := 6
  const MORNING_START_HOUR: int := 6
  const MORNING_END_HOUR: int := 12
  const WEEKEND_START_HOUR: int := 15
  const WEEKEND_END_HOUR: int := 23
  const WEEKEND_END_MINUTE: int := 59

  // ---------------------------------------------------------------------------------------
  // Slots of an event

  /** The event columns slot creation reads; `None` is a missing value. */
  datatype Event = Event(eventId: int, eventDate: Option<int>, loadIn: Option<TimeOfDay>, showTime: Option<TimeOfDay>)

  /** A shift slot to fill. */
  datatype Slot = Slot(start: int, end: int, eventId: int)

  function SlotStart(s: Slot): int {
    s.start
  }

  /**
   * The working window of an event: from load-in on the event date to five hours after the show,
   * moved to the next day when it would not end after it starts.
   */
  function Window(e: Event): (w: Option<(int, int)>)
    ensures w.None? <==> e.eventDate.None? || e.loadIn.None? || e.showTime.None?
    ensures w.Some? ==> w.value.0 == At(e.eventDate.value, e.loadIn.value)
    ensures w.Some? ==> w.value.0 < w.value.1 < w.value.0 + DAY + EVENT_BUFFER
    ensures w.Some? ==> (w.value.1 - EVENT_BUFFER) % DAY == e.showTime.value
  {
    if e.loadIn.None? || e.showTime.None? || e.eventDate.None? then None
    else
      var s := At(e.eventDate.value, e.loadIn.value);
      var t := At(e.eventDate.value, e.showTime.value) + EVENT_BUFFER;
      Some((s, if t <= s then t + DAY else t))
  }

  /** The split of a long window: 8-hour slots until at most 12 hours remain, then one last slot. */
  function SplitFrom(cur: int, end: int, id: int): seq<Slot>
    decreases end - cur
  {
    if cur >= end then []
    else if end - cur <= MAX_SHIFT then [Slot(cur, end, id)]
    else [Slot(cur, cur + DEFAULT_SHIFT, id)] + SplitFrom(cur + DEFAULT_SHIFT, end, id)
  }

  /**
   * The slots of an event: none without a window, one for a window of at most 12 hours, else the
   * split; an event with a window always has a slot, and every slot belongs to the event.
   */
  function EventSlots(e: Event): (r: seq<Slot>)
    ensures r == [] <==> Window(e).None?
    ensures forall x :: x in r ==> x.eventId == e.eventId
  {
    match Window(e)
    case None => []
    case Some((s, t)) =>
      if t - s <= MAX_SHIFT then [Slot(s, t, e.eventId)]
      else SplitShape(s, t, e.eventId); SplitFrom(s, t, e.eventId)
  }

  /**
   * `slots` cover [s, t) without gap or overlap: contiguous, every slot but the last exactly
   * 8 hours, the last non-empty and at most 12 hours.
   */
  predicate Tiles(slots: seq<Slot>, s: int, t: int) {
    && slots != []
    && slots[0].start == s
    && slots[|slots| - 1].end == t
    && (forall i :: 0 <= i < |slots| - 1 ==>
          slots[i].end == slots[i + 1].start && slots[i].end - slots[i].start == DEFAULT_SHIFT)
    && 0 < slots[|slots| - 1].end - slots[|slots| - 1].start <= MAX_SHIFT
  }

  function LastLength(slots: seq<Slot>): int
    requires slots != []
  {
    slots[|slots| - 1].end - slots[|slots| - 1].start
  }

  lemma {:induction false} SplitShape(cur: int, end: int, id: int)
    requires cur < end
    ensures Tiles(SplitFrom(cur, end, id), cur, end)
    ensures forall x :: x in SplitFrom(cur, end, id) ==> x.eventId == id
    ensures end - cur > MAX_SHIFT ==> LastLength(SplitFrom(cur, end, id)) > 4 * HOUR
    decreases end - cur
  {
    if end - cur > MAX_SHIFT {
      var rest := SplitFrom(cur + DEFAULT_SHIFT, end, id);
      SplitShape(cur + DEFAULT_SHIFT, end, id);
      var r := [Slot(cur, cur + DEFAULT_SHIFT, id)] + rest;
      assert SplitFrom(cur, end, id) == r;
      forall i | 0 <= i < |r| - 1
        ensures r[i].end == r[i + 1].start && r[i].end - r[i].start == DEFAULT_SHIFT
      {
        if i > 0 {
          assert r[i] == rest[i - 1] && r[i + 1] == rest[i];
        }
      }
      assert r[|r| - 1] == rest[|rest| - 1];
    }
  }

  /**
   * What an event's slots are: none when a time or the date is missing; exactly the window when
   * it is at most 12 hours; otherwise at least two contiguous slots from load-in to the window's
   * end, 8 hours each but the last, which is longer than 4 hours and at most 12.
   */
  lemma EventSlotsShape(e: Event)
    ensures Window(e).None? ==> EventSlots(e) == []
    ensures Window(e).Some? ==> Tiles(EventSlots(e), Window(e).value.0, Window(e).value.1)
    ensures forall x :: x in EventSlots(e) ==> x.eventId == e.eventId
    ensures Window(e).Some? && Window(e).value.1 - Window(e).value.0 <= MAX_SHIFT ==>
      EventSlots(e) == [Slot(Window(e).value.0, Window(e).value.1, e.eventId)]
    ensures Window(e).Some? && Window(e).value.1 - Window(e).value.0 > MAX_SHIFT ==>
      |EventSlots(e)| >= 2 && LastLength(EventSlots(e)) > 4 * HOUR
  {
    if Window(e).Some? {
      var (s, t) := Window(e).value;
      if t - s > MAX_SHIFT {
        SplitShape(s, t, e.eventId);
      }
    }
  }

  /** Every slot an event yields lasts more than nothing and at most 12 hours. */
  lemma EventSlotsFit(e: Event)
    ensures forall x :: x in EventSlots(e) ==> 0 < x.end - x.start <= MAX_SHIFT
  {
    EventSlotsShape(e);
    var r := EventSlots(e);
    forall x | x in r
      ensures 0 < x.end - x.start <= MAX_SHIFT
    {
      var i :| 0 <= i < |r| && r[i] == x;
      if i < |r| - 1 {
        assert r[i].end - r[i].start == DEFAULT_SHIFT;
      }
    }
  }

  /** `create_slots_for_event` */
  method CreateSlotsForEvent(e: Event) returns (slots: seq<Slot>)
    ensures slots == EventSlots(e)
  {
    slots := [];
    if e.loadIn.None? || e.showTime.None? || e.eventDate.None? {
      return;
    }
    var startAt := At(e.eventDate.value, e.loadIn.value);
    var endAt := At(e.eventDate.value, e.showTime.value) + EVENT_BUFFER;
    if endAt <= startAt {
      endAt := endAt + DAY;
    }
    assert Window(e) == Some((startAt, endAt));
    if endAt - startAt <= MAX_SHIFT {
      slots := [Slot(startAt, endAt, e.eventId)];
    } else {
      var cur := startAt;
      while cur < endAt
        invariant slots + SplitFrom(cur, endAt, e.eventId) == SplitFrom(startAt, endAt, e.eventId)
        decreases endAt - cur
      {
        var slotEnd := if endAt - cur <= MAX_SHIFT then endAt else cur + DEFAULT_SHIFT;
        assert SplitFrom(cur, endAt, e.eventId) == [Slot(cur, slotEnd, e.eventId)] + SplitFrom(slotEnd, endAt, e.eventId);
        slots := slots + [Slot(cur, slotEnd, e.eventId)];
        cur := slotEnd;
      }
      assert slots == slots + SplitFrom(cur, endAt, e.eventId);
    }
  }

  // ---------------------------------------------------------------------------------------
  // Time predicates

  /** The minute field of an instant (`.minute`). */
  function MinuteOf(x: int): (m: int)
    ensures 0 <= m < 60
  {
    (TimeOf(x) % HOUR) / MINUTE
  }

  /**
   * `is_weekend_shift`: Friday from 15:00, or Saturday up to 23:59. A start is a weekend start
   * exactly when it is on Friday at 15:00 or later, or on Saturday at any time.
   */
  predicate IsWeekendShift(x: int)
    ensures IsWeekendShift(x) <==>
      (Weekday(DateOf(x)) == FRIDAY && HourOf(x) >= 15) || Weekday(DateOf(x)) == SATURDAY
  {
    var weekday := Weekday(DateOf(x));
    if weekday == FRIDAY then HourOf(x) >= WEEKEND_START_HOUR
    else if weekday == SATURDAY then
      HourOf(x) < WEEKEND_END_HOUR || (HourOf(x) == WEEKEND_END_HOUR && MinuteOf(x) <= WEEKEND_END_MINUTE)
    else false
  }

  predicate InNightHours(h: int) {
    h >= NIGHT_START_HOUR || h < NIGHT_END_HOUR
  }

  /**
   * `is_night_shift`: the start hour or the end hour is a night hour, or the shift runs past 22:00.
   * Only the hours of the two ends decide: a shift is a night shift exactly when it starts or ends
   * between 22:00 and 06:00 (the third test adds nothing to the second).
   */
  predicate IsNightShift(s: int, e: int)
    ensures IsNightShift(s, e) <==> InNightHours(HourOf(s)) || InNightHours(HourOf(e))
  {
    InNightHours(HourOf(s)) || InNightHours(HourOf(e)) || (HourOf(s) < NIGHT_START_HOUR && HourOf(e) >= NIGHT_START_HOUR)
  }

  /** `is_morning_shift`: a start hour from 06 to 11. */
  predicate IsMorningShift(x: int) {
    MORNING_START_HOUR <= HourOf(x) < MORNING_END_HOUR
  }

  // ---------------------------------------------------------------------------------------
  // Hard constraints

  /** A shift row: `start_at`, `end_at`, `call_time` (any may be missing) and its employee. */
  datatype EmpShift = EmpShift(employeeId: int, startAt: Option<int>, endAt: Option<int>, callTime: Option<int>)

  /** `start_at or call_time` */
  function ShiftStart(sh: EmpShift): (r: Option<int>)
    ensures r.None? <==> sh.startAt.None? && sh.callTime.None?
  {
    if sh.startAt.Some? then sh.startAt else sh.callTime
  }

  /** The end of a shift that starts at `start`; a missing end counts as 8 hours after the start. */
  function ShiftEnd(sh: EmpShift, start: int): int {
    if sh.endAt.Some? then sh.endAt.value else start + DEFAULT_SHIFT
  }

  /** An unavailability block. */
  datatype Block = Block(employeeId: int, start: int, end: int)

  function Overlaps(b: Block, s: int, e: int): bool {
    s < b.end && e > b.start
  }

  function OverlapsSlot(s: int, e: int): Block -> bool {
    b => Overlaps(b, s, e)
  }

  /**
   * `has_availability_conflict`: a conflict is exactly a block that starts before the slot ends
   * and ends after it starts.
   */
  predicate HasAvailabilityConflict(blocks: seq<Block>, s: int, e: int)
    ensures HasAvailabilityConflict(blocks, s, e) <==> exists b :: b in blocks && s < b.end && e > b.start
  {
    AnyIff(blocks, OverlapsSlot(s, e));
    Any(blocks, OverlapsSlot(s, e))
  }

  /** Rest from `sh` to a slot starting at `s` is less than 10 hours and more than -12 hours. */
  function RestTooShort(sh: EmpShift, s: int): bool {
    ShiftStart(sh).Some? &&
    var rest := s - ShiftEnd(sh, ShiftStart(sh).value);
    rest < MIN_REST && rest > -MAX_SHIFT
  }

  function RestTooShortBefore(s: int): EmpShift -> bool {
    sh => RestTooShort(sh, s)
  }

  /**
   * `has_sufficient_rest`: rest is insufficient exactly when some shift with a start ends strictly
   * between 10 hours before the slot and 12 hours after its start.
   */
  predicate HasSufficientRest(shifts: seq<EmpShift>, s: int)
    ensures !HasSufficientRest(shifts, s) <==>
      exists sh :: sh in shifts && ShiftStart(sh).Some? && s - MIN_REST < ShiftEnd(sh, ShiftStart(sh).value) < s + MAX_SHIFT
  {
    AnyIff(shifts, RestTooShortBefore(s));
    !Any(shifts, RestTooShortBefore(s))
  }

  /** A shift on the day before `s` that touched the night (judged by its start hour when it has no end). */
  function NightBefore(sh: EmpShift, s: int): bool {
    ShiftStart(sh).Some? && DateOf(ShiftStart(sh).value) == DateOf(s) - 1 &&
    if sh.endAt.Some? then IsNightShift(ShiftStart(sh).value, sh.endAt.value)
    else InNightHours(HourOf(ShiftStart(sh).value))
  }

  function NightBeforeSlot(s: int): EmpShift -> bool {
    sh => NightBefore(sh, s)
  }

  /**
   * `violates_night_to_morning_rule`: the rule bites exactly for a morning slot after a night
   * shift on the previous day.
   */
  predicate ViolatesNightToMorning(shifts: seq<EmpShift>, s: int)
    ensures ViolatesNightToMorning(shifts, s) <==>
      IsMorningShift(s) && exists sh :: sh in shifts && NightBefore(sh, s)
    ensures !IsMorningShift(s) ==> !ViolatesNightToMorning(shifts, s)
  {
    AnyIff(shifts, NightBeforeSlot(s));
    IsMorningShift(s) && Any(shifts, NightBeforeSlot(s))
  }

  function StartedDayBefore(sh: EmpShift, s: int): bool {
    ShiftStart(sh).Some? && DateOf(ShiftStart(sh).value) == DateOf(s) - 1
  }

  function StartedDayBeforeSlot(s: int): EmpShift -> bool {
    sh => StartedDayBefore(sh, s)
  }

  /** `worked_yesterday`: some shift started on the date before the slot's. */
  predicate WorkedYesterday(shifts: seq<EmpShift>, s: int)
    ensures WorkedYesterday(shifts, s) <==>
      exists sh :: sh in shifts && ShiftStart(sh).Some? && DateOf(ShiftStart(sh).value) == DateOf(s) - 1
  {
    AnyIff(shifts, StartedDayBeforeSlot(s));
    Any(shifts, StartedDayBeforeSlot(s))
  }

  function OverlapsShift(sh: EmpShift, s: int, e: int): bool {
    ShiftStart(sh).Some? && s < ShiftEnd(sh, ShiftStart(sh).value) && e > ShiftStart(sh).value
  }

  function OverlapsShiftOf(s: int, e: int): EmpShift -> bool {
    sh => OverlapsShift(sh, s, e)
  }

  /** The inline overlap search over the employee's shifts. */
  predicate HasOverlap(shifts: seq<EmpShift>, s: int, e: int) {
    Any(shifts, OverlapsShiftOf(s, e))
  }

  lemma OverlapIff(shifts: seq<EmpShift>, s: int, e: int)
    ensures HasOverlap(shifts, s, e) <==>
      exists sh :: sh in shifts && ShiftStart(sh).Some? && s < ShiftEnd(sh, ShiftStart(sh).value) && e > ShiftStart(sh).value
  {
    AnyIff(shifts, OverlapsShiftOf(s, e));
  }

  function IsWeekendStart(sh: EmpShift): bool {
    ShiftStart(sh).Some? && IsWeekendShift(ShiftStart(sh).value)
  }

  /** The weekend shifts of an employee. */
  function WeekendCount(shifts: seq<EmpShift>): nat {
    Count(shifts, IsWeekendStart)
  }

  /** `count_weekend_shifts` */
  method CountWeekendShifts(shifts: seq<EmpShift>) returns (count: nat)
    ensures count == WeekendCount(shifts)
    ensures count <= |shifts|
  {
    count := 0;
    for i := 0 to |shifts|
      invariant count == Count(shifts[..i], IsWeekendStart)
    {
      assert shifts[..i + 1][..i] == shifts[..i];
      var start := ShiftStart(shifts[i]);
      if start.None? {
        continue;
      }
      if IsWeekendShift(start.value) {
        count := count + 1;
      }
    }
    assert shifts[..|shifts|] == shifts;
  }

  // ---------------------------------------------------------------------------------------
  // Greedy assignment

  /** An employee row; `active` is `is_active`, true when the column is missing. */
  datatype Employee = Employee(id: int, active: bool)

  /** An employee that passed the hard constraints, with its integer ranking score. */
  datatype Candidate = Candidate(id: int, score: int)

  /** What became of a slot. */
  datatype SlotOutcome = Suggested(employeeId: int) | TooLong | NoCandidate

  datatype Assignment = Assignment(slot: Slot, outcome: SlotOutcome)

  /** Each employee's shifts, keyed by employee id (`employee_shift_map`). */
  type ShiftMap = map<int, seq<EmpShift>>

  function ShiftsOf(m: ShiftMap, id: int): seq<EmpShift> {
    if id in m then m[id] else []
  }

  function OfEmployee(id: int): EmpShift -> bool {
    (sh: EmpShift) => sh.employeeId == id
  }

  function BlockOfEmployee(id: int): Block -> bool {
    (b: Block) => b.employeeId == id
  }

  /** The existing shifts of one employee. */
  function ShiftsFor(existing: seq<EmpShift>, id: int): seq<EmpShift> {
    Filter(existing, OfEmployee(id))
  }

  /** The unavailability blocks of one employee. */
  function BlocksFor(unavailability: seq<Block>, id: int): seq<Block> {
    Filter(unavailability, BlockOfEmployee(id))
  }

  /** The hard constraints of one employee for one slot. */
  predicate Eligible(emp: Employee, shifts: seq<EmpShift>, blocks: seq<Block>, slot: Slot) {
    && emp.active
    && !HasAvailabilityConflict(blocks, slot.start, slot.end)
    && HasSufficientRest(shifts, slot.start)
    && !ViolatesNightToMorning(shifts, slot.start)
    && !HasOverlap(shifts, slot.start, slot.end)
  }

  /**
   * The integer part of the ranking score: 100 for not having worked the day before, minus 10 per
   * weekend shift when the slot starts on the weekend, minus 5 per shift held. No score tops
   * the rested score of a weekday slot, and having worked the day before costs all 100 points.
   */
  function Score(shifts: seq<EmpShift>, s: int): (r: int)
    ensures r <= 100 - 5 * |shifts|
    ensures WorkedYesterday(shifts, s) ==> r <= -5 * |shifts|
    ensures !IsWeekendShift(s) ==> (r == 100 - 5 * |shifts| <==> !WorkedYesterday(shifts, s))
  {
    (if WorkedYesterday(shifts, s) then 0 else 100)
    - (if IsWeekendShift(s) then 10 * WeekendCount(shifts) else 0)
    - 5 * |shifts|
  }

  /** The candidates for a slot, in employee order. */
  function Candidates(emps: seq<Employee>, m: ShiftMap, unavailability: seq<Block>, slot: Slot): seq<Candidate> {
    if emps == [] then []
    else
      var n := |emps| - 1;
      var e := emps[n];
      Candidates(emps[..n], m, unavailability, slot)
      + (if Eligible(e, ShiftsOf(m, e.id), BlocksFor(unavailability, e.id), slot)
         then [Candidate(e.id, Score(ShiftsOf(m, e.id), slot.start))] else [])
  }

  /** The candidates are exactly the eligible employees, each with its score. */
  lemma {:induction false} CandidatesIff(emps: seq<Employee>, m: ShiftMap, unavailability: seq<Block>, slot: Slot)
    ensures forall c :: c in Candidates(emps, m, unavailability, slot) <==>
      exists e :: e in emps && Eligible(e, ShiftsOf(m, e.id), BlocksFor(unavailability, e.id), slot)
        && c == Candidate(e.id, Score(ShiftsOf(m, e.id), slot.start))
  {
    if emps != [] {
      var n := |emps| - 1;
      var pre := emps[..n];
      var last := emps[n];
      CandidatesIff(pre, m, unavailability, slot);
      var before := Candidates(pre, m, unavailability, slot);
      var cands := Candidates(emps, m, unavailability, slot);
      assert emps == pre + [last];
      forall c
        ensures c in cands <==>
          exists e :: e in emps && Eligible(e, ShiftsOf(m, e.id), BlocksFor(unavailability, e.id), slot)
            && c == Candidate(e.id, Score(ShiftsOf(m, e.id), slot.start))
      {
        if c in cands && c !in before {
          assert last in emps;
        }
        if exists e :: e in emps && Eligible(e, ShiftsOf(m, e.id), BlocksFor(unavailability, e.id), slot)
            && c == Candidate(e.id, Score(ShiftsOf(m, e.id), slot.start)) {
          var e :| e in emps && Eligible(e, ShiftsOf(m, e.id), BlocksFor(unavailability, e.id), slot)
            && c == Candidate(e.id, Score(ShiftsOf(m, e.id), slot.start));
          if e in pre {
            assert c in before;
          } else {
            assert e == last;
          }
        }
      }
    }
  }

  /** The first candidate of highest score (a stable sort by descending score, then the head). */
  function Best(cands: seq<Candidate>): (b: Option<Candidate>)
    ensures b.None? <==> cands == []
    ensures b.Some? ==> b.value in cands && forall c :: c in cands ==> c.score <= b.value.score
  {
    if cands == [] then None
    else
      var n := |cands| - 1;
      assert cands == cands[..n] + [cands[n]];
      var prev := Best(cands[..n]);
      if prev.None? || cands[n].score > prev.value.score then Some(cands[n]) else prev
  }

  /** A shift row for a slot just decided. */
  function Booked(id: int, slot: Slot): EmpShift {
    EmpShift(id, Some(slot.start), Some(slot.end), Some(slot.start))
  }

  /**
   * One slot of the assignment loop: the outcome, and the shift map after it. The outcome is for
   * this slot, it is `TooLong` exactly for a slot over 12 hours, and the map changes only when
   * someone is suggested.
   */
  function AssignSlot(m: ShiftMap, emps: seq<Employee>, unavailability: seq<Block>, slot: Slot): (r: (Assignment, ShiftMap))
    ensures r.0.slot == slot
    ensures r.0.outcome == TooLong <==> slot.end - slot.start > MAX_SHIFT
    ensures !r.0.outcome.Suggested? ==> r.1 == m
    ensures r.0.outcome.Suggested? ==> r.0.outcome.employeeId in r.1 && |r.1[r.0.outcome.employeeId]| == |ShiftsOf(m, r.0.outcome.employeeId)| + 1
  {
    if slot.end - slot.start > MAX_SHIFT then (Assignment(slot, TooLong), m)
    else
      match Best(Candidates(emps, m, unavailability, slot))
      case None => (Assignment(slot, NoCandidate), m)
      case Some(b) => (Assignment(slot, Suggested(b.id)), m[b.id := ShiftsOf(m, b.id) + [Booked(b.id, slot)]])
  }

  /**
   * The greedy choice: a slot longer than 12 hours is refused; otherwise a suggested employee is
   * active and meets every hard constraint, no eligible employee scores higher, and the slot is
   * appended to that employee's shifts and to no one else's; without an eligible employee the
   * slot is unfilled and nothing changes.
   */
  lemma AssignSlotSpec(m: ShiftMap, emps: seq<Employee>, unavailability: seq<Block>, slot: Slot)
    ensures var (a, m') := AssignSlot(m, emps, unavailability, slot);
      && a.slot == slot
      && (a.outcome == TooLong <==> slot.end - slot.start > MAX_SHIFT)
      && (a.outcome == NoCandidate <==>
            slot.end - slot.start <= MAX_SHIFT && forall e :: e in emps ==> !Eligible(e, ShiftsOf(m, e.id), BlocksFor(unavailability, e.id), slot))
      && (a.outcome.Suggested? ==>
            (exists e :: e in emps && e.id == a.outcome.employeeId && e.active
               && Eligible(e, ShiftsOf(m, e.id), BlocksFor(unavailability, e.id), slot)
               && forall e2 :: e2 in emps && Eligible(e2, ShiftsOf(m, e2.id), BlocksFor(unavailability, e2.id), slot) ==>
                    Score(ShiftsOf(m, e2.id), slot.start) <= Score(ShiftsOf(m, e.id), slot.start))
            && m' == m[a.outcome.employeeId := ShiftsOf(m, a.outcome.employeeId) + [Booked(a.outcome.employeeId, slot)]])
      && (!a.outcome.Suggested? ==> m' == m)
  {
    var cands := Candidates(emps, m, unavailability, slot);
    CandidatesIff(emps, m, unavailability, slot);
    if slot.end - slot.start <= MAX_SHIFT {
      var b := Best(cands);
      if b.None? {
        forall e | e in emps
          ensures !Eligible(e, ShiftsOf(m, e.id), BlocksFor(unavailability, e.id), slot)
        {
          assert Candidate(e.id, Score(ShiftsOf(m, e.id), slot.start)) !in cands;
        }
      } else {
        var c := b.value;
        var e :| e in emps && Eligible(e, ShiftsOf(m, e.id), BlocksFor(unavailability, e.id), slot)
          && c == Candidate(e.id, Score(ShiftsOf(m, e.id), slot.start));
        forall e2 | e2 in emps && Eligible(e2, ShiftsOf(m, e2.id), BlocksFor(unavailability, e2.id), slot)
          ensures Score(ShiftsOf(m, e2.id), slot.start) <= Score(ShiftsOf(m, e.id), slot.start)
        {
          assert Candidate(e2.id, Score(ShiftsOf(m, e2.id), slot.start)) in cands;
        }
      }
    }
  }

  // ---------------------------------------------------------------------------------------
  // Explainability

  /** Why an employee is rejected for a slot; the checks run in this order. */
  datatype Reason = NotActive | Unavailable | TooLittleRest | NightToMorning | AlreadyAssigned

  function ReasonRank(x: Reason): nat {
    match x
    case NotActive => 0
    case Unavailable => 1
    case TooLittleRest => 2
    case NightToMorning => 3
    case AlreadyAssigned => 4
  }

  /**
   * The reasons an employee is rejected for a slot: only "not active" for an inactive employee,
   * otherwise every failed hard constraint, in the order the checks run. No reason means a candidate.
   */
  function Rejections(e: Employee, shifts: seq<EmpShift>, blocks: seq<Block>, slot: Slot): (r: seq<Reason>)
    ensures r == [] <==> Eligible(e, shifts, blocks, slot)
    ensures !e.active ==> r == [NotActive]
  {
    if !e.active then [NotActive]
    else
      (if HasAvailabilityConflict(blocks, slot.start, slot.end) then [Unavailable] else [])
      + (if !HasSufficientRest(shifts, slot.start) then [TooLittleRest] else [])
      + (if ViolatesNightToMorning(shifts, slot.start) then [NightToMorning] else [])
      + (if HasOverlap(shifts, slot.start, slot.end) then [AlreadyAssigned] else [])
  }

  /**
   * An active employee's reasons name exactly the hard constraints it fails, never "not active".
   */
  lemma RejectionsExact(e: Employee, shifts: seq<EmpShift>, blocks: seq<Block>, slot: Slot)
    requires e.active
    ensures var r := Rejections(e, shifts, blocks, slot);
      && NotActive !in r
      && (Unavailable in r <==> HasAvailabilityConflict(blocks, slot.start, slot.end))
      && (TooLittleRest in r <==> !HasSufficientRest(shifts, slot.start))
      && (NightToMorning in r <==> ViolatesNightToMorning(shifts, slot.start))
      && (AlreadyAssigned in r <==> HasOverlap(shifts, slot.start, slot.end))
  {
    var a := if HasAvailabilityConflict(blocks, slot.start, slot.end) then [Unavailable] else [];
    var b := if !HasSufficientRest(shifts, slot.start) then [TooLittleRest] else [];
    var c := if ViolatesNightToMorning(shifts, slot.start) then [NightToMorning] else [];
    var d := if HasOverlap(shifts, slot.start, slot.end) then [AlreadyAssigned] else [];
    assert Rejections(e, shifts, blocks, slot) == a + b + c + d;
  }

  /** The reasons come in the order the checks run, none twice. */
  lemma RejectionsOrdered(e: Employee, shifts: seq<EmpShift>, blocks: seq<Block>, slot: Slot)
    ensures var r := Rejections(e, shifts, blocks, slot);
      forall i, j :: 0 <= i < j < |r| ==> ReasonRank(r[i]) < ReasonRank(r[j])
  {
  }

  function Ids(emps: seq<Employee>): set<int> {
    set e | e in emps :: e.id
  }

  predicate UniqueIds(emps: seq<Employee>) {
    forall i, j :: 0 <= i < j < |emps| ==> emps[i].id != emps[j].id
  }

  /**
   * The `rejections` dictionary of one slot: each rejected employee's id mapped to its reasons,
   * a later employee with the same id overwriting an earlier entry.
   */
  function RejectionMap(emps: seq<Employee>, m: ShiftMap, unavailability: seq<Block>, slot: Slot): (r: map<int, seq<Reason>>)
    ensures forall id :: id in r ==> id in Ids(emps) && r[id] != []
  {
    if emps == [] then map[]
    else
      var n := |emps| - 1;
      var e := emps[n];
      var prev := RejectionMap(emps[..n], m, unavailability, slot);
      var reasons := Rejections(e, ShiftsOf(m, e.id), BlocksFor(unavailability, e.id), slot);
      assert emps == emps[..n] + [e];
      if reasons == [] then prev else prev[e.id := reasons]
  }

  /**
   * An active employee has no rejection reason exactly when it is among the slot's candidates, with
   * its score (the inactive one is rejected whatever another row with its id gives).
   */
  lemma ActiveRejectedIff(e: Employee, emps: seq<Employee>, m: ShiftMap, unavailability: seq<Block>, slot: Slot)
    requires e in emps && e.active
    ensures Rejections(e, ShiftsOf(m, e.id), BlocksFor(unavailability, e.id), slot) == [] <==>
      Candidate(e.id, Score(ShiftsOf(m, e.id), slot.start)) in Candidates(emps, m, unavailability, slot)
  {
    CandidatesIff(emps, m, unavailability, slot);
  }

  /** The last employee's id is new to the rejections of the ones before it. */
  lemma LastIdNew(emps: seq<Employee>, m: ShiftMap, unavailability: seq<Block>, slot: Slot)
    requires UniqueIds(emps) && emps != []
    ensures emps[|emps| - 1].id !in RejectionMap(emps[..|emps| - 1], m, unavailability, slot)
  {
  }

  /** With distinct employee ids, one employee's entry in the rejections is its own reasons, if it has any. */
  lemma {:induction false} RejectionOf(e: Employee, emps: seq<Employee>, m: ShiftMap, unavailability: seq<Block>, slot: Slot)
    requires UniqueIds(emps) && e in emps
    ensures var r := Rejections(e, ShiftsOf(m, e.id), BlocksFor(unavailability, e.id), slot);
      var rm := RejectionMap(emps, m, unavailability, slot);
      (e.id in rm <==> r != []) && (e.id in rm ==> rm[e.id] == r)
  {
    var n := |emps| - 1;
    var pre := emps[..n];
    var last := emps[n];
    if e != last {
      var k :| 0 <= k < |emps| && emps[k] == e;
      assert k < n && pre[k] == e;
      assert UniqueIds(pre);
      RejectionOf(e, pre, m, unavailability, slot);
    }
  }

  /** With distinct employee ids, an employee is in the rejections exactly when it is not eligible, with its own reasons. */
  lemma RejectionsOfEach(emps: seq<Employee>, m: ShiftMap, unavailability: seq<Block>, slot: Slot)
    requires UniqueIds(emps)
    ensures var rm := RejectionMap(emps, m, unavailability, slot);
      forall e :: e in emps ==>
        && (e.id in rm <==> !Eligible(e, ShiftsOf(m, e.id), BlocksFor(unavailability, e.id), slot))
        && (e.id in rm ==> rm[e.id] == Rejections(e, ShiftsOf(m, e.id), BlocksFor(unavailability, e.id), slot))
  {
    forall e | e in emps
      ensures var rm := RejectionMap(emps, m, unavailability, slot);
        && (e.id in rm <==> !Eligible(e, ShiftsOf(m, e.id), BlocksFor(unavailability, e.id), slot))
        && (e.id in rm ==> rm[e.id] == Rejections(e, ShiftsOf(m, e.id), BlocksFor(unavailability, e.id), slot))
    {
      RejectionOf(e, emps, m, unavailability, slot);
    }
  }

  /**
   * With distinct employee ids every employee is either rejected or a candidate: the rejections
   * and the candidate count add up to the employees evaluated.
   */
  lemma {:induction false} RejectionsPartition(emps: seq<Employee>, m: ShiftMap, unavailability: seq<Block>, slot: Slot)
    requires UniqueIds(emps)
    ensures |RejectionMap(emps, m, unavailability, slot)| + |Candidates(emps, m, unavailability, slot)| == |emps|
  {
    if emps != [] {
      var n := |emps| - 1;
      var pre := emps[..n];
      assert UniqueIds(pre);
      RejectionsPartition(pre, m, unavailability, slot);
      LastIdNew(emps, m, unavailability, slot);
    }
  }

  /** What `explainability[slot_id]` records: the too-long error, or the rejections and the candidate count. */
  datatype Explanation = SlotTooLong | Evaluated(rejections: map<int, seq<Reason>>, candidatesCount: nat)

  /** The explanation of one slot, decided against the shift map `m`. */
  function Explain(m: ShiftMap, emps: seq<Employee>, unavailability: seq<Block>, slot: Slot): (x: Explanation)
    ensures x.SlotTooLong? <==> slot.end - slot.start > MAX_SHIFT
    ensures x.Evaluated? ==> x.candidatesCount <= |emps|
  {
    if slot.end - slot.start > MAX_SHIFT then SlotTooLong
    else
      CandidatesBound(emps, m, unavailability, slot);
      Evaluated(RejectionMap(emps, m, unavailability, slot), |Candidates(emps, m, unavailability, slot)|)
  }

  /**
   * A slot's explanation agrees with its decision: the too-long error exactly for a refused slot,
   * and no candidate exactly for an unfilled one.
   */
  lemma ExplainAgrees(m: ShiftMap, emps: seq<Employee>, unavailability: seq<Block>, slot: Slot)
    ensures var x := Explain(m, emps, unavailability, slot);
      var a := AssignSlot(m, emps, unavailability, slot).0;
      && (x.SlotTooLong? <==> a.outcome == TooLong)
      && (x.Evaluated? ==> (x.candidatesCount == 0 <==> a.outcome == NoCandidate))
  {
  }

  lemma {:induction false} CandidatesBound(emps: seq<Employee>, m: ShiftMap, unavailability: seq<Block>, slot: Slot)
    ensures |Candidates(emps, m, unavailability, slot)| <= |emps|
  {
    if emps != [] {
      CandidatesBound(emps[..|emps| - 1], m, unavailability, slot);
    }
  }

  /** The explanations of the slots in order, slot i explained against the map the earlier slots left. */
  function Explanations(m: ShiftMap, emps: seq<Employee>, unavailability: seq<Block>, slots: seq<Slot>): (r: seq<Explanation>)
    ensures |r| == |slots|
  {
    if slots == [] then []
    else
      var n := |slots| - 1;
      Explanations(m, emps, unavailability, slots[..n])
      + [Explain(AssignAll(m, emps, unavailability, slots[..n]).1, emps, unavailability, slots[n])]
  }

  /**
   * Slot i's explanation agrees with its assignment: the too-long error exactly for a refused
   * slot, and no candidate exactly for an unfilled one.
   */
  lemma ExplanationsAgree(m: ShiftMap, emps: seq<Employee>, unavailability: seq<Block>, slots: seq<Slot>, i: nat)
    requires i < |slots|
    ensures Explanations(m, emps, unavailability, slots)[i]
         == Explain(AssignAll(m, emps, unavailability, slots[..i]).1, emps, unavailability, slots[i])
    ensures var x := Explanations(m, emps, unavailability, slots)[i];
      var a := AssignAll(m, emps, unavailability, slots).0[i];
      && (x.SlotTooLong? <==> a.outcome == TooLong)
      && (x.Evaluated? ==> (x.candidatesCount == 0 <==> a.outcome == NoCandidate))
  {
    ExplanationAt(m, emps, unavailability, slots, i);
    AssignAllPrefix(m, emps, unavailability, slots, i);
    ExplainAgrees(AssignAll(m, emps, unavailability, slots[..i]).1, emps, unavailability, slots[i]);
  }

  /** Slot i is explained against the shift map the slots before it left. */
  lemma ExplanationAt(m: ShiftMap, emps: seq<Employee>, unavailability: seq<Block>, slots: seq<Slot>, i: nat)
    requires i < |slots|
    ensures Explanations(m, emps, unavailability, slots)[i]
         == Explain(AssignAll(m, emps, unavailability, slots[..i]).1, emps, unavailability, slots[i])
  {
    ExplanationsPrefix(m, emps, unavailability, slots, i + 1);
    AssignStep(m, emps, unavailability, slots, i);
    assert Explanations(m, emps, unavailability, slots)[i] == Explanations(m, emps, unavailability, slots[..i + 1])[i];
  }

  /** The explanations of a prefix of the slots are the prefix of the explanations. */
  lemma {:induction false} ExplanationsPrefix(m: ShiftMap, emps: seq<Employee>, unavailability: seq<Block>, slots: seq<Slot>, n: nat)
    requires n <= |slots|
    ensures Explanations(m, emps, unavailability, slots[..n]) == Explanations(m, emps, unavailability, slots)[..n]
    decreases |slots|
  {
    if n < |slots| {
      var k := |slots| - 1;
      assert slots[..k][..n] == slots[..n];
      ExplanationsPrefix(m, emps, unavailability, slots[..k], n);
    } else {
      assert slots[..n] == slots;
    }
  }

  /** The assignment loop over the slots in order, threading the shift map. */
  function AssignAll(m: ShiftMap, emps: seq<Employee>, unavailability: seq<Block>, slots: seq<Slot>): (r: (seq<Assignment>, ShiftMap))
    ensures |r.0| == |slots|
  {
    if slots == [] then ([], m)
    else
      var n := |slots| - 1;
      var (done, m1) := AssignAll(m, emps, unavailability, slots[..n]);
      var (a, m2) := AssignSlot(m1, emps, unavailability, slots[n]);
      (done + [a], m2)
  }

  /**
   * Slot `i` is decided against the shift map left by slots 0 to i-1, so every earlier assignment
   * counts for the constraints and scores of later slots.
   */
  lemma {:induction false} AssignAllPrefix(m: ShiftMap, emps: seq<Employee>, unavailability: seq<Block>, slots: seq<Slot>, i: nat)
    requires i < |slots|
    ensures AssignAll(m, emps, unavailability, slots).0[i]
         == AssignSlot(AssignAll(m, emps, unavailability, slots[..i]).1, emps, unavailability, slots[i]).0
  {
    var n := |slots| - 1;
    if i < n {
      AssignAllPrefix(m, emps, unavailability, slots[..n], i);
      assert slots[..n][..i] == slots[..i];
    } else {
      assert slots[..i] == slots[..n];
    }
  }

  /** Assignments only add shifts: each employee's earlier shifts stay, in order, at the front. */
  lemma {:induction false} AssignAllGrows(m: ShiftMap, emps: seq<Employee>, unavailability: seq<Block>, slots: seq<Slot>, id: int)
    ensures var m' := AssignAll(m, emps, unavailability, slots).1;
      |ShiftsOf(m, id)| <= |ShiftsOf(m', id)| && ShiftsOf(m', id)[..|ShiftsOf(m, id)|] == ShiftsOf(m, id)
  {
    if slots != [] {
      var n := |slots| - 1;
      AssignAllGrows(m, emps, unavailability, slots[..n], id);
      var m1 := AssignAll(m, emps, unavailability, slots[..n]).1;
      AssignSlotSpec(m1, emps, unavailability, slots[n]);
      var m2 := AssignAll(m, emps, unavailability, slots).1;
      assert ShiftsOf(m2, id)[..|ShiftsOf(m1, id)|] == ShiftsOf(m1, id);
      assert ShiftsOf(m2, id)[..|ShiftsOf(m, id)|] == ShiftsOf(m1, id)[..|ShiftsOf(m, id)|];
    }
  }

  /** The slots of all events, event by event. */
  function AllSlots(events: seq<Event>): seq<Slot> {
    if events == [] then [] else AllSlots(events[..|events| - 1]) + EventSlots(events[|events| - 1])
  }

  lemma {:induction false} AllSlotsFit(events: seq<Event>)
    ensures forall x :: x in AllSlots(events) ==> 0 < x.end - x.start <= MAX_SHIFT
  {
    if events != [] {
      AllSlotsFit(events[..|events| - 1]);
      EventSlotsFit(events[|events| - 1]);
    }
  }

  /** `employee_shift_map` before assignment: every listed employee's existing shifts. */
  function InitialMap(emps: seq<Employee>, existing: seq<EmpShift>): ShiftMap {
    if emps == [] then map[]
    else
      var n := |emps| - 1;
      InitialMap(emps[..n], existing)[emps[n].id := ShiftsFor(existing, emps[n].id)]
  }

  lemma {:induction false} InitialMapSpec(emps: seq<Employee>, existing: seq<EmpShift>)
    ensures forall id :: id in InitialMap(emps, existing) ==> InitialMap(emps, existing)[id] == ShiftsFor(existing, id)
    ensures forall e :: e in emps ==> e.id in InitialMap(emps, existing)
  {
    if emps != [] {
      var n := |emps| - 1;
      InitialMapSpec(emps[..n], existing);
      assert forall e :: e in emps ==> e in emps[..n] || e == emps[n];
    }
  }

  // ---------------------------------------------------------------------------------------
  // Per-employee statistics and the whole run

  /** The counts reported for one employee over the requested month. */
  datatype EmployeeStats = EmployeeStats(totalShifts: nat, weekendShifts: nat)

  /** The result of a run: the decided slots, each employee's stats, and one explanation per slot (`slot_<i>`). */
  datatype Generation = Generation(slots: seq<Assignment>, stats: map<int, EmployeeStats>, explainability: seq<Explanation>)

  /** Why the run raises: `date(year, month, 1)` rejects the month, or a shift has neither start nor call time. */
  datatype GenerateError = InvalidMonth | ShiftWithoutStart

  function InDays(first: int, last: int): EmpShift -> bool {
    sh => ShiftStart(sh).Some? && first <= DateOf(ShiftStart(sh).value) <= last
  }

  /** The stats of one employee: shifts starting within [first, last], and how many of them start on a weekend. */
  function StatsFor(shifts: seq<EmpShift>, first: int, last: int): EmployeeStats {
    var inMonth := Filter(shifts, InDays(first, last));
    EmployeeStats(|inMonth|, Count(inMonth, IsWeekendStart))
  }

  function StatsMap(emps: seq<Employee>, m: ShiftMap, first: int, last: int): map<int, EmployeeStats> {
    if emps == [] then map[]
    else
      var n := |emps| - 1;
      StatsMap(emps[..n], m, first, last)[emps[n].id := StatsFor(ShiftsOf(m, emps[n].id), first, last)]
  }

  function NoStart(sh: EmpShift): bool {
    ShiftStart(sh).None?
  }

  function HasShiftWithoutStart(m: ShiftMap): Employee -> bool {
    (e: Employee) => Any(ShiftsOf(m, e.id), NoStart)
  }

  predicate ValidMonth(year: int, month: int) {
    ValidDate(year, month, 1)
  }

  /** `generate_shifts_for_events` with the random tie-break left out: the first best candidate wins. */
  function Generate(events: seq<Event>, emps: seq<Employee>, existing: seq<EmpShift>, unavailability: seq<Block>, year: int, month: int): (r: Result<Generation, GenerateError>)
    ensures emps == [] ==> r.Ok? && r.value.stats == map[]
    ensures r == Err(InvalidMonth) <==> emps != [] && !ValidMonth(year, month)
    ensures r.Ok? ==> |r.value.slots| == |AllSlots(events)| && |r.value.explainability| == |r.value.slots|
  {
    var slots := SortBy(AllSlots(events), SlotStart);
    var (decided, m) := AssignAll(InitialMap(emps, existing), emps, unavailability, slots);
    var why := Explanations(InitialMap(emps, existing), emps, unavailability, slots);
    if emps == [] then Ok(Generation(decided, map[], why))
    else if !ValidMonth(year, month) then Err(InvalidMonth)
    else if Any(emps, HasShiftWithoutStart(m)) then Err(ShiftWithoutStart)
    else Ok(Generation(decided, StatsMap(emps, m, DayNumber(year, month, 1), DayNumber(year, month, DaysInMonth(year, month))), why))
  }

  /**
   * Each slot's explanation matches its decision: no run reports a too-long slot, and a slot is
   * unfilled exactly when its explanation counts no candidate.
   */
  lemma GenerateExplains(events: seq<Event>, emps: seq<Employee>, existing: seq<EmpShift>, unavailability: seq<Block>, year: int, month: int, i: nat)
    requires Generate(events, emps, existing, unavailability, year, month).Ok?
    requires i < |Generate(events, emps, existing, unavailability, year, month).value.slots|
    ensures var g := Generate(events, emps, existing, unavailability, year, month).value;
      && g.explainability[i].Evaluated?
      && (g.explainability[i].candidatesCount == 0 <==> g.slots[i].outcome == NoCandidate)
  {
    var slots := SortBy(AllSlots(events), SlotStart);
    var m0 := InitialMap(emps, existing);
    ExplanationsAgree(m0, emps, unavailability, slots, i);
    GenerateSpec(events, emps, existing, unavailability, year, month);
    assert AssignAll(m0, emps, unavailability, slots).0[i] in AssignAll(m0, emps, unavailability, slots).0;
  }

  lemma {:induction false} StatsMapBound(emps: seq<Employee>, m: ShiftMap, first: int, last: int)
    ensures forall id :: id in StatsMap(emps, m, first, last) ==>
      StatsMap(emps, m, first, last)[id].weekendShifts <= StatsMap(emps, m, first, last)[id].totalShifts
  {
    if emps != [] {
      StatsMapBound(emps[..|emps| - 1], m, first, last);
    }
  }

  /** The slots of the assignments, in order. */
  function SlotsOf(decided: seq<Assignment>): (r: seq<Slot>)
    ensures |r| == |decided|
  {
    seq(|decided|, i requires 0 <= i < |decided| => decided[i].slot)
  }

  /** The assignment loop decides each slot once, in order, and refuses none when every slot fits in 12 hours. */
  lemma {:induction false} AssignAllSlots(m: ShiftMap, emps: seq<Employee>, unavailability: seq<Block>, slots: seq<Slot>)
    ensures SlotsOf(AssignAll(m, emps, unavailability, slots).0) == slots
    ensures (forall x :: x in slots ==> x.end - x.start <= MAX_SHIFT) ==>
      forall a :: a in AssignAll(m, emps, unavailability, slots).0 ==> a.outcome != TooLong
  {
    if slots != [] {
      var n := |slots| - 1;
      AssignAllSlots(m, emps, unavailability, slots[..n]);
      assert slots == slots[..n] + [slots[n]];
      if forall x :: x in slots ==> x.end - x.start <= MAX_SHIFT {
        assert forall x :: x in slots[..n] ==> x in slots;
        assert slots[n] in slots;
      }
    }
  }

  /**
   * A run decides every slot of every event, in start order (slots with the same start in the
   * order the events gave them), never meets a slot that is too long, and reports no employee
   * with more weekend shifts than shifts; it can fail only when there are employees to report on.
   */
  lemma GenerateSpec(events: seq<Event>, emps: seq<Employee>, existing: seq<EmpShift>, unavailability: seq<Block>, year: int, month: int)
    ensures var r := Generate(events, emps, existing, unavailability, year, month);
      r.Ok? ==>
        && SortedBy(SlotsOf(r.value.slots), SlotStart)
        && multiset(SlotsOf(r.value.slots)) == multiset(AllSlots(events))
        && (forall t :: WithKey(SlotsOf(r.value.slots), SlotStart, t) == WithKey(AllSlots(events), SlotStart, t))
        && (forall a :: a in r.value.slots ==> a.outcome != TooLong)
        && (forall id :: id in r.value.stats ==> r.value.stats[id].weekendShifts <= r.value.stats[id].totalShifts)
    ensures Generate(events, emps, existing, unavailability, year, month).Err? ==> emps != []
  {
    var slots := SortBy(AllSlots(events), SlotStart);
    var m0 := InitialMap(emps, existing);
    var m := AssignAll(m0, emps, unavailability, slots).1;
    AllSlotsFit(events);
    SortMembers(AllSlots(events), SlotStart);
    AssignAllSlots(m0, emps, unavailability, slots);
    forall t
      ensures WithKey(slots, SlotStart, t) == WithKey(AllSlots(events), SlotStart, t)
    {
      SortStable(AllSlots(events), SlotStart, t);
    }
    if ValidMonth(year, month) && emps != [] {
      StatsMapBound(emps, m, DayNumber(year, month, 1), DayNumber(year, month, DaysInMonth(year, month)));
    }
  }

  /** One more employee adds its reasons to the rejections or its scored candidate to the candidates, never both. */
  lemma EvaluateStep(emps: seq<Employee>, m: ShiftMap, unavailability: seq<Block>, slot: Slot, j: nat)
    requires j < |emps|
    ensures var e := emps[j];
      var reasons := Rejections(e, ShiftsOf(m, e.id), BlocksFor(unavailability, e.id), slot);
      && RejectionMap(emps[..j + 1], m, unavailability, slot)
         == (if reasons == [] then RejectionMap(emps[..j], m, unavailability, slot)
             else RejectionMap(emps[..j], m, unavailability, slot)[e.id := reasons])
      && Candidates(emps[..j + 1], m, unavailability, slot)
         == (if reasons == [] then Candidates(emps[..j], m, unavailability, slot) + [Candidate(e.id, Score(ShiftsOf(m, e.id), slot.start))]
             else Candidates(emps[..j], m, unavailability, slot))
  {
    assert emps[..j + 1][..j] == emps[..j];
  }

  /** The hard-constraint checks of one employee for one slot, collecting a reason per failed check. */
  method CollectReasons(e: Employee, shifts: seq<EmpShift>, blocks: seq<Block>, slot: Slot) returns (reasons: seq<Reason>)
    ensures reasons == Rejections(e, shifts, blocks, slot)
  {
    if !e.active {
      return [NotActive];
    }
    reasons := [];
    if HasAvailabilityConflict(blocks, slot.start, slot.end) {
      reasons := reasons + [Unavailable];
    }
    if !HasSufficientRest(shifts, slot.start) {
      reasons := reasons + [TooLittleRest];
    }
    if ViolatesNightToMorning(shifts, slot.start) {
      reasons := reasons + [NightToMorning];
    }
    if HasOverlap(shifts, slot.start, slot.end) {
      reasons := reasons + [AlreadyAssigned];
    }
  }

  /** The ranking score of an eligible employee, term by term. */
  method ScoreCandidate(shifts: seq<EmpShift>, s: int) returns (score: int)
    ensures score == Score(shifts, s)
  {
    score := 0;
    if !WorkedYesterday(shifts, s) {
      score := score + 100;
    }
    if IsWeekendShift(s) {
      var weekendCount := CountWeekendShifts(shifts);
      score := score - weekendCount * 10;
    }
    score := score - |shifts| * 5;
  }

  /** The candidate evaluation of one slot, employee by employee. */
  method EvaluateEmployees(emps: seq<Employee>, m: ShiftMap, unavailability: seq<Block>, slot: Slot)
    returns (cands: seq<Candidate>, rejections: map<int, seq<Reason>>)
    ensures cands == Candidates(emps, m, unavailability, slot)
    ensures rejections == RejectionMap(emps, m, unavailability, slot)
  {
    cands := [];
    rejections := map[];
    for j := 0 to |emps|
      invariant cands == Candidates(emps[..j], m, unavailability, slot)
      invariant rejections == RejectionMap(emps[..j], m, unavailability, slot)
    {
      EvaluateStep(emps, m, unavailability, slot, j);
      var e := emps[j];
      var shifts := ShiftsOf(m, e.id);
      var blocks := BlocksFor(unavailability, e.id);
      var reasons := CollectReasons(e, shifts, blocks, slot);
      if reasons != [] {
        rejections := rejections[e.id := reasons];
        continue;
      }
      var score := ScoreCandidate(shifts, slot.start);
      cands := cands + [Candidate(e.id, score)];
    }
    assert emps[..|emps|] == emps;
  }

  /** The `employee_shift_map` loop. */
  method BuildShiftMap(emps: seq<Employee>, existing: seq<EmpShift>) returns (shiftMap: ShiftMap)
    ensures shiftMap == InitialMap(emps, existing)
  {
    shiftMap := map[];
    for i := 0 to |emps|
      invariant shiftMap == InitialMap(emps[..i], existing)
    {
      assert emps[..i + 1][..i] == emps[..i];
      shiftMap := shiftMap[emps[i].id := ShiftsFor(existing, emps[i].id)];
    }
    assert emps[..|emps|] == emps;
  }

  /** The slot collection loop. */
  method CollectSlots(events: seq<Event>) returns (allSlots: seq<Slot>)
    ensures allSlots == AllSlots(events)
  {
    allSlots := [];
    for i := 0 to |events|
      invariant allSlots == AllSlots(events[..i])
    {
      assert events[..i + 1][..i] == events[..i];
      var slots := CreateSlotsForEvent(events[i]);
      allSlots := allSlots + slots;
    }
    assert events[..|events|] == events;
  }

  /** One more slot is decided, and explained, against the shift map the slots before it left. */
  lemma AssignStep(m: ShiftMap, emps: seq<Employee>, unavailability: seq<Block>, slots: seq<Slot>, i: nat)
    requires i < |slots|
    ensures var (done, m1) := AssignAll(m, emps, unavailability, slots[..i]);
      && AssignAll(m, emps, unavailability, slots[..i + 1])
         == (done + [AssignSlot(m1, emps, unavailability, slots[i]).0], AssignSlot(m1, emps, unavailability, slots[i]).1)
      && Explanations(m, emps, unavailability, slots[..i + 1])
         == Explanations(m, emps, unavailability, slots[..i]) + [Explain(m1, emps, unavailability, slots[i])]
  {
    assert slots[..i + 1][..i] == slots[..i];
  }

  /** The assignment loop: each slot in turn goes to the best candidate, whose shifts it joins. */
  method AssignSlots(shiftMap0: ShiftMap, emps: seq<Employee>, unavailability: seq<Block>, allSlots: seq<Slot>)
    returns (results: seq<Assignment>, shiftMap: ShiftMap, explainability: seq<Explanation>)
    ensures (results, shiftMap) == AssignAll(shiftMap0, emps, unavailability, allSlots)
    ensures explainability == Explanations(shiftMap0, emps, unavailability, allSlots)
  {
    results := [];
    shiftMap := shiftMap0;
    explainability := [];
    for i := 0 to |allSlots|
      invariant (results, shiftMap) == AssignAll(shiftMap0, emps, unavailability, allSlots[..i])
      invariant explainability == Explanations(shiftMap0, emps, unavailability, allSlots[..i])
    {
      AssignStep(shiftMap0, emps, unavailability, allSlots, i);
      var slot := allSlots[i];
      if slot.end - slot.start > MAX_SHIFT {
        results := results + [Assignment(slot, TooLong)];
        explainability := explainability + [SlotTooLong];
        continue;
      }
      var cands, rejections := EvaluateEmployees(emps, shiftMap, unavailability, slot);
      explainability := explainability + [Evaluated(rejections, |cands|)];
      var best := Best(cands);
      if best.Some? {
        var id := best.value.id;
        results := results + [Assignment(slot, Suggested(id))];
        shiftMap := shiftMap[id := ShiftsOf(shiftMap, id) + [Booked(id, slot)]];
      } else {
        results := results + [Assignment(slot, NoCandidate)];
      }
    }
    assert allSlots[..|allSlots|] == allSlots;
  }

  /** The statistics loop; it raises at the first employee holding a shift with neither start nor call time. */
  method ComputeStats(emps: seq<Employee>, shiftMap: ShiftMap, first: int, last: int)
    returns (r: Result<map<int, EmployeeStats>, GenerateError>)
    ensures Any(emps, HasShiftWithoutStart(shiftMap)) ==> r == Err(ShiftWithoutStart)
    ensures !Any(emps, HasShiftWithoutStart(shiftMap)) ==> r == Ok(StatsMap(emps, shiftMap, first, last))
  {
    var stats: map<int, EmployeeStats> := map[];
    for i := 0 to |emps|
      invariant stats == StatsMap(emps[..i], shiftMap, first, last)
      invariant !Any(emps[..i], HasShiftWithoutStart(shiftMap))
    {
      assert emps[..i + 1][..i] == emps[..i];
      var e := emps[i];
      var shifts := ShiftsOf(shiftMap, e.id);
      AnyPrefix(emps[..i + 1], HasShiftWithoutStart(shiftMap));
      if Any(shifts, NoStart) {
        assert Any(emps, HasShiftWithoutStart(shiftMap)) by {
          AnyIff(emps, HasShiftWithoutStart(shiftMap));
          assert e in emps && HasShiftWithoutStart(shiftMap)(e);
        }
        return Err(ShiftWithoutStart);
      }
      stats := stats[e.id := StatsFor(shifts, first, last)];
    }
    assert emps[..|emps|] == emps;
    return Ok(stats);
  }

  /** `generate_shifts_for_events`, step by step. */
  method GenerateShifts(events: seq<Event>, emps: seq<Employee>, existing: seq<EmpShift>, unavailability: seq<Block>, year: int, month: int)
    returns (r: Result<Generation, GenerateError>)
    ensures r == Generate(events, emps, existing, unavailability, year, month)
  {
    var shiftMap := BuildShiftMap(emps, existing);
    var allSlots := CollectSlots(events);
    allSlots := SortBy(allSlots, SlotStart);
    var results, finalMap, explainability := AssignSlots(shiftMap, emps, unavailability, allSlots);
    if emps == [] {
      return Ok(Generation(results, map[], explainability));
    }
    if !ValidMonth(year, month) {
      return Err(InvalidMonth);
    }
    var stats := ComputeStats(emps, finalMap, DayNumber(year, month, 1), DayNumber(year, month, DaysInMonth(year, month)));
    if stats.Err? {
      return Err(stats.error);
    }
    return Ok(Generation(results, stats.value, explainability));
  }

  /** Searching a sequence extended by one element. */
  lemma {:induction false} AnyPrefix<T>(s: seq<T>, p: T -> bool)
    requires s != []
    ensures Any(s, p) <==> Any(s[..|s| - 1], p) || p(s[|s| - 1])
  {
    AnyIff(s, p);
    AnyIff(s[..|s| - 1], p);
    assert s == s[..|s| - 1] + [s[|s| - 1]];
    assert forall x :: x in s <==> x in s[..|s| - 1] || x == s[|s| - 1];
  }
}
