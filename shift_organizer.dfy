/**
 * The shift-organizer endpoints: the month view (events of the month and per-employee shift
 * counts) and the save reconciliation, which writes the assigned slots and deletes the unlocked,
 * unsaved shifts of the events the request touches.
 */
module ShiftOrganizer {
  import opened Wrappers
  import opened Clock
  import opened ShiftGenerator
  import opened Seqs

  // ---------------------------------------------------------------------------------------
  // Month view

  /** Why the handler body raises; the blanket handler reports each of them as HTTP 500. */
  datatype OrganizerError = BadMonth | BadYear | MissingEventDate

  datatype HttpError = HttpError(status: int, cause: OrganizerError)

  const INTERNAL_SERVER_ERROR: int := 500

  /** The year range the month view accepts. */
  const FIRST_YEAR: int := 2020
  const LAST_YEAR: int := 2030

  datatype MonthData = MonthData(events: seq<Event>, shifts: seq<EmpShift>, employees: seq<Employee>, stats: map<int, EmployeeStats>)

  function NoDate(): Event -> bool {
    (e: Event) => e.eventDate.None?
  }

  /** `month_start <= event_date <= month_end` */
  function InMonth(first: int, last: int): Event -> bool {
    (e: Event) => e.eventDate.Some? && first <= e.eventDate.value <= last
  }

  /**
   * The event filter of the month view and of the generate endpoint. A missing date makes the
   * comparison raise, which ends the whole request.
   */
  method FilterMonthEvents(events: seq<Event>, first: int, last: int) returns (r: Result<seq<Event>, OrganizerError>)
    ensures r.Err? <==> exists e :: e in events && e.eventDate.None?
    ensures r.Err? ==> r.error == MissingEventDate
    ensures r.Ok? ==> r.value == Filter(events, InMonth(first, last))
    ensures r.Ok? ==> forall e :: e in r.value <==> e in events && first <= e.eventDate.value <= last
  {
    var kept: seq<Event> := [];
    for i := 0 to |events|
      invariant kept == Filter(events[..i], InMonth(first, last))
      invariant !Any(events[..i], NoDate())
    {
      assert events[..i + 1][..i] == events[..i];
      AnyPrefix(events[..i + 1], NoDate());
      var e := events[i];
      if e.eventDate.None? {
        assert e in events;
        return Err(MissingEventDate);
      }
      if first <= e.eventDate.value <= last {
        kept := kept + [e];
      }
    }
    assert events[..|events|] == events;
    AnyIff(events, NoDate());
    FilterMembers(events, InMonth(first, last));
    return Ok(kept);
  }

  /** The month statistics: one entry per listed employee, counted over that employee's shifts. */
  function MonthStats(emps: seq<Employee>, shifts: seq<EmpShift>, first: int, last: int): map<int, EmployeeStats> {
    if emps == [] then map[]
    else
      var n := |emps| - 1;
      MonthStats(emps[..n], shifts, first, last)[emps[n].id := StatsFor(Filter(shifts, OfEmployee(emps[n].id)), first, last)]
  }

  /**
   * Every listed employee has an entry, and only they do; whatever the order or repetition of the
   * list, an entry counts exactly that employee's shifts, and never more weekend shifts than shifts.
   */
  lemma {:induction false} MonthStatsSpec(emps: seq<Employee>, shifts: seq<EmpShift>, first: int, last: int)
    ensures forall id :: id in MonthStats(emps, shifts, first, last) <==> exists e :: e in emps && e.id == id
    ensures forall id :: id in MonthStats(emps, shifts, first, last) ==>
      MonthStats(emps, shifts, first, last)[id] == StatsFor(Filter(shifts, OfEmployee(id)), first, last)
    ensures forall id :: id in MonthStats(emps, shifts, first, last) ==>
      MonthStats(emps, shifts, first, last)[id].weekendShifts <= MonthStats(emps, shifts, first, last)[id].totalShifts
  {
    if emps != [] {
      var n := |emps| - 1;
      MonthStatsSpec(emps[..n], shifts, first, last);
      assert emps == emps[..n] + [emps[n]];
      assert forall e :: e in emps <==> e in emps[..n] || e == emps[n];
    }
  }

  /** The per-employee statistics loop of the month view; shifts with neither start nor call time are passed over. */
  method ComputeMonthStats(emps: seq<Employee>, shifts: seq<EmpShift>, first: int, last: int)
    returns (stats: map<int, EmployeeStats>)
    ensures stats == MonthStats(emps, shifts, first, last)
  {
    stats := map[];
    for i := 0 to |emps|
      invariant stats == MonthStats(emps[..i], shifts, first, last)
    {
      assert emps[..i + 1][..i] == emps[..i];
      var id := emps[i].id;
      var empShifts := Filter(shifts, OfEmployee(id));
      var monthShifts: seq<EmpShift> := [];
      for j := 0 to |empShifts|
        invariant monthShifts == Filter(empShifts[..j], InDays(first, last))
      {
        assert empShifts[..j + 1][..j] == empShifts[..j];
        var s := empShifts[j];
        var start := ShiftStart(s);
        if start.Some? && first <= DateOf(start.value) <= last {
          monthShifts := monthShifts + [s];
        }
      }
      assert empShifts[..|empShifts|] == empShifts;
      stats := stats[id := EmployeeStats(|monthShifts|, Count(monthShifts, IsWeekendStart))];
    }
    assert emps[..|emps|] == emps;
  }

  /** `get_month_data`, with the repository reads passed in (the employee list is the active one). */
  method GetMonthData(year: int, month: int, allEvents: seq<Event>, shifts: seq<EmpShift>, employees: seq<Employee>)
    returns (r: Result<MonthData, HttpError>)
    ensures r.Err? ==> r.error.status == INTERNAL_SERVER_ERROR
    ensures !(1 <= month <= 12) ==> r == Err(HttpError(INTERNAL_SERVER_ERROR, BadMonth))
    ensures 1 <= month <= 12 && !(FIRST_YEAR <= year <= LAST_YEAR) ==> r == Err(HttpError(INTERNAL_SERVER_ERROR, BadYear))
    ensures 1 <= month <= 12 && FIRST_YEAR <= year <= LAST_YEAR ==>
      && ValidDate(year, month, 1)
      && (r.Err? <==> exists e :: e in allEvents && e.eventDate.None?)
      && (r.Ok? ==> r.value == MonthData(
            Filter(allEvents, InMonth(DayNumber(year, month, 1), DayNumber(year, month, DaysInMonth(year, month)))),
            shifts, employees,
            MonthStats(employees, shifts, DayNumber(year, month, 1), DayNumber(year, month, DaysInMonth(year, month)))))
  {
    if !(1 <= month <= 12) {
      return Err(HttpError(INTERNAL_SERVER_ERROR, BadMonth));
    }
    if !(FIRST_YEAR <= year <= LAST_YEAR) {
      return Err(HttpError(INTERNAL_SERVER_ERROR, BadYear));
    }
    var first := DayNumber(year, month, 1);
    var last := DayNumber(year, month, DaysInMonth(year, month));
    var events := FilterMonthEvents(allEvents, first, last);
    if events.Err? {
      return Err(HttpError(INTERNAL_SERVER_ERROR, events.error));
    }
    var stats := ComputeMonthStats(employees, shifts, first, last);
    return Ok(MonthData(events.value, shifts, employees, stats));
  }

  // ---------------------------------------------------------------------------------------
  // Save reconciliation

  /** One slot of a save request. */
  datatype SlotData = SlotData(eventId: int, employeeId: Option<int>, startAt: int, endAt: int,
                               shiftType: Option<string>, isLocked: bool, shiftId: Option<int>)

  /** A stored shift row. */
  datatype StoredShift = StoredShift(eventId: int, employeeId: int, startAt: int, endAt: int,
                                     shiftType: Option<string>, isLocked: bool)

  /** What the reconciliation reads of an existing shift of the month. */
  datatype ExistingShift = ExistingShift(shiftId: int, eventId: int, isLocked: bool)

  /** `if not slot.employee_id: continue` also skips the falsy employee id 0. */
  predicate HasEmployee(s: SlotData) {
    s.employeeId.Some? && s.employeeId.value != 0
  }

  function RowOf(s: SlotData): StoredShift
    requires HasEmployee(s)
  {
    StoredShift(s.eventId, s.employeeId.value, s.startAt, s.endAt, s.shiftType, s.isLocked)
  }

  /**
   * The repository's upsert: a given shift id is written in place, otherwise the row gets the next
   * free id. Returns the id, the new rows and the new next free id.
   */
  function UpsertRow(rows: map<int, StoredShift>, next: int, row: StoredShift, shiftId: Option<int>): (r: (int, map<int, StoredShift>, int))
    ensures r.0 in r.1 && r.1[r.0] == row
    ensures forall k :: k in rows && k != r.0 ==> k in r.1 && r.1[k] == rows[k]
    ensures r.1.Keys == rows.Keys + {r.0}
    ensures shiftId.Some? ==> r.0 == shiftId.value
    ensures shiftId.None? && (forall k :: k in rows ==> k < next) ==> r.0 !in rows
    ensures next <= r.2 && r.0 < r.2
  {
    var id := if shiftId.Some? then shiftId.value else next;
    (id, rows[id := row], if id < next then next else id + 1)
  }

  /** The upsert loop of `save_shifts`: the rows, the next free id and the saved ids after the given slots. */
  function UpsertAll(rows: map<int, StoredShift>, next: int, slots: seq<SlotData>): (map<int, StoredShift>, int, set<int>) {
    if slots == [] then (rows, next, {})
    else
      var prev := UpsertAll(rows, next, slots[..|slots| - 1]);
      var s := slots[|slots| - 1];
      if !HasEmployee(s) then prev
      else
        var (id, rows', next') := UpsertRow(prev.0, prev.1, RowOf(s), s.shiftId);
        (rows', next', prev.2 + {id})
  }

  /**
   * After the upserts the table holds the old rows plus the saved ids; every old row that was not
   * saved over is unchanged; every saved id holds the row of an assigned slot; every assigned slot
   * that names its shift id saved that id.
   */
  lemma {:induction false} UpsertAllSpec(rows: map<int, StoredShift>, next: int, slots: seq<SlotData>)
    ensures UpsertAll(rows, next, slots).0.Keys == rows.Keys + UpsertAll(rows, next, slots).2
    ensures forall id :: id in rows && id !in UpsertAll(rows, next, slots).2 ==> UpsertAll(rows, next, slots).0[id] == rows[id]
    ensures forall id :: id in UpsertAll(rows, next, slots).2 ==>
      exists s :: s in slots && HasEmployee(s) && UpsertAll(rows, next, slots).0[id] == RowOf(s)
    ensures forall s :: s in slots && HasEmployee(s) && s.shiftId.Some? ==> s.shiftId.value in UpsertAll(rows, next, slots).2
    ensures next <= UpsertAll(rows, next, slots).1
    ensures (forall k :: k in rows ==> k < next) ==> forall k :: k in UpsertAll(rows, next, slots).0 ==> k < UpsertAll(rows, next, slots).1
  {
    if slots != [] {
      var n := |slots| - 1;
      UpsertAllSpec(rows, next, slots[..n]);
      assert slots == slots[..n] + [slots[n]];
      assert forall s :: s in slots <==> s in slots[..n] || s == slots[n];
      var prev := UpsertAll(rows, next, slots[..n]);
      var s := slots[n];
      if HasEmployee(s) {
        var r := UpsertAll(rows, next, slots);
        var (id, _, _) := UpsertRow(prev.0, prev.1, RowOf(s), s.shiftId);
        forall x | x in r.2
          ensures exists s' :: s' in slots && HasEmployee(s') && r.0[x] == RowOf(s')
        {
          if x == id {
            assert r.0[x] == RowOf(s);
          } else {
            var s' :| s' in slots[..n] && HasEmployee(s') && prev.0[x] == RowOf(s');
            assert s' in slots && r.0[x] == RowOf(s');
          }
        }
      }
    }
  }

  /** Slots without an employee change nothing in the upsert pass. */
  lemma {:induction false} UnassignedIgnored(rows: map<int, StoredShift>, next: int, slots: seq<SlotData>)
    ensures UpsertAll(rows, next, slots) == UpsertAll(rows, next, Filter(slots, HasEmployeeFn()))
  {
    if slots != [] {
      var n := |slots| - 1;
      UnassignedIgnored(rows, next, slots[..n]);
      var f := Filter(slots, HasEmployeeFn());
      assert HasEmployeeFn()(slots[n]) == HasEmployee(slots[n]);
      if HasEmployee(slots[n]) {
        assert f == Filter(slots[..n], HasEmployeeFn()) + [slots[n]];
        assert f[..|f| - 1] == Filter(slots[..n], HasEmployeeFn());
        assert f[|f| - 1] == slots[n];
      } else {
        assert f == Filter(slots[..n], HasEmployeeFn());
      }
    }
  }

  function HasEmployeeFn(): SlotData -> bool {
    (s: SlotData) => HasEmployee(s)
  }

  /** `set(request.event_ids or []) | set(slot.event_id for slot in slots)`: assigned or not, every slot touches its event. */
  function Touched(eventIds: Option<seq<int>>, slots: seq<SlotData>): set<int> {
    (if eventIds.Some? then set e | e in eventIds.value else {}) + set s | s in slots :: s.eventId
  }

  /** The ids of the listed shifts that are neither saved nor locked. */
  function Unprotected(shifts: seq<ExistingShift>, saved: set<int>): set<int> {
    set sh | sh in shifts && sh.shiftId !in saved && !sh.isLocked :: sh.shiftId
  }

  /** The existing shifts whose event is among `events`. */
  function OfEvents(existing: seq<ExistingShift>, events: set<int>): seq<ExistingShift> {
    Filter(existing, EventIn(events))
  }

  function EventIn(events: set<int>): ExistingShift -> bool {
    (sh: ExistingShift) => sh.eventId in events
  }

  /** The ids the reconciliation deletes. */
  function Deleted(existing: seq<ExistingShift>, events: set<int>, saved: set<int>): set<int> {
    Unprotected(OfEvents(existing, events), saved)
  }

  /**
   * The table `save_shifts` leaves behind. A row whose every listing is locked survives, and
   * with no existing shift listed nothing is deleted.
   */
  function Reconciled(rows: map<int, StoredShift>, next: int, eventIds: Option<seq<int>>, slots: seq<SlotData>, existing: seq<ExistingShift>): (r: map<int, StoredShift>)
    ensures forall id :: id in rows && (forall sh :: sh in existing && sh.shiftId == id ==> sh.isLocked) ==> id in r
    ensures existing == [] ==> r.Keys == rows.Keys + UpsertAll(rows, next, slots).2
  {
    var upserted := UpsertAll(rows, next, slots);
    UpsertAllSpec(rows, next, slots);
    FilterMembers(existing, EventIn(Touched(eventIds, slots)));
    upserted.0 - Deleted(existing, Touched(eventIds, slots), upserted.2)
  }

  /** An existing shift listed for a touched event, not saved and not locked. */
  predicate Doomed(existing: seq<ExistingShift>, touched: set<int>, saved: set<int>, id: int) {
    exists sh :: sh in existing && sh.shiftId == id && sh.eventId in touched && id !in saved && !sh.isLocked
  }

  /**
   * Every saved id survives with the row of an assigned slot; a row that was not saved over is
   * deleted exactly when it is listed unlocked for a touched event, and otherwise kept unchanged;
   * no other row appears.
   */
  lemma ReconciledSpec(rows: map<int, StoredShift>, next: int, eventIds: Option<seq<int>>, slots: seq<SlotData>, existing: seq<ExistingShift>)
    ensures var saved := UpsertAll(rows, next, slots).2;
      var r := Reconciled(rows, next, eventIds, slots, existing);
      && r.Keys <= rows.Keys + saved
      && (forall id :: id in saved ==> id in r && exists s :: s in slots && HasEmployee(s) && r[id] == RowOf(s))
      && (forall id :: id in rows && id !in saved ==>
            (id in r <==> !Doomed(existing, Touched(eventIds, slots), saved, id)) && (id in r ==> r[id] == rows[id]))
  {
    var (u, _, saved) := UpsertAll(rows, next, slots);
    var touched := Touched(eventIds, slots);
    UpsertAllSpec(rows, next, slots);
    FilterMembers(existing, EventIn(touched));
    forall id | id in rows && id !in saved
      ensures id in Deleted(existing, touched, saved) <==> Doomed(existing, touched, saved, id)
    {
      if Doomed(existing, touched, saved, id) {
        var sh :| sh in existing && sh.shiftId == id && sh.eventId in touched && id !in saved && !sh.isLocked;
        assert sh in OfEvents(existing, touched);
      }
    }
  }

  /** The shift table of the organisation: rows by shift id, and the next id an insert takes. */
  class ShiftTable {
    var rows: map<int, StoredShift>
    var nextId: int

    predicate Valid()
      reads this
    {
      forall id :: id in rows ==> id < nextId
    }

    constructor ()
      ensures Valid() && rows == map[] && nextId == 1
    {
      rows := map[];
      nextId := 1;
    }

    /** `upsert_shift` */
    method Upsert(row: StoredShift, shiftId: Option<int>) returns (id: int)
      requires Valid()
      modifies this
      ensures Valid()
      ensures (id, rows, nextId) == UpsertRow(old(rows), old(nextId), row, shiftId)
      ensures shiftId.None? ==> id !in old(rows)
    {
      id := if shiftId.Some? then shiftId.value else nextId;
      rows := rows[id := row];
      if nextId <= id {
        nextId := id + 1;
      }
    }

    /** `delete_shift`; deleting a missing id does nothing. */
    method Delete(id: int)
      requires Valid()
      modifies this
      ensures Valid()
      ensures rows == old(rows) - {id} && nextId == old(nextId)
    {
      rows := rows - {id};
    }
  }

  /** `event_shift_map`: the existing shifts grouped by event, in their original order. */
  function Lookup<K, V>(m: map<K, seq<V>>, k: K): seq<V> {
    if k in m then m[k] else []
  }

  function OnEvent(e: int): ExistingShift -> bool {
    (sh: ExistingShift) => sh.eventId == e
  }

  method GroupByEvent(existing: seq<ExistingShift>) returns (groups: map<int, seq<ExistingShift>>)
    ensures forall e :: Lookup(groups, e) == Filter(existing, OnEvent(e))
  {
    groups := map[];
    for i := 0 to |existing|
      invariant forall e :: Lookup(groups, e) == Filter(existing[..i], OnEvent(e))
    {
      assert existing[..i + 1][..i] == existing[..i];
      var sh := existing[i];
      if sh.eventId !in groups {
        groups := groups[sh.eventId := []];
      }
      groups := groups[sh.eventId := groups[sh.eventId] + [sh]];
    }
    assert existing[..|existing|] == existing;
  }

  /** The deletions of one event's existing shifts: adding the event to the done set adds exactly those ids. */
  lemma DeletedStep(existing: seq<ExistingShift>, done: set<int>, e: int, saved: set<int>)
    ensures Deleted(existing, done + {e}, saved) == Deleted(existing, done, saved) + Unprotected(Filter(existing, OnEvent(e)), saved)
  {
    FilterMembers(existing, EventIn(done + {e}));
    FilterMembers(existing, EventIn(done));
    FilterMembers(existing, OnEvent(e));
  }

  /** `save_shifts` up to its closing re-read of the month view. */
  method SaveShifts(table: ShiftTable, eventIds: Option<seq<int>>, slots: seq<SlotData>, existing: seq<ExistingShift>)
    requires table.Valid()
    modifies table
    ensures table.Valid()
    ensures table.rows == Reconciled(old(table.rows), old(table.nextId), eventIds, slots, existing)
  {
    var groups := GroupByEvent(existing);
    var saved: set<int> := {};
    for i := 0 to |slots|
      invariant table.Valid()
      invariant (table.rows, table.nextId, saved) == UpsertAll(old(table.rows), old(table.nextId), slots[..i])
    {
      assert slots[..i + 1][..i] == slots[..i];
      var s := slots[i];
      if !HasEmployee(s) {
        continue;
      }
      var id := table.Upsert(RowOf(s), s.shiftId);
      saved := saved + {id};
    }
    assert slots[..|slots|] == slots;
    DeleteUnsaved(table, groups, existing, Touched(eventIds, slots), saved);
  }

  lemma NothingDeleted(existing: seq<ExistingShift>, saved: set<int>)
    ensures Deleted(existing, {}, saved) == {}
  {
    FilterMembers(existing, EventIn({}));
  }

  /** A set is empty or has an element. */
  lemma EmptyOrElement(s: set<int>)
    ensures s == {} || exists x :: x in s
  {
    if forall x :: x !in s {
      assert s == {};
    }
  }

  /** The inner deletion loop over one event's existing shifts. */
  method DeleteEventShifts(table: ShiftTable, group: seq<ExistingShift>, saved: set<int>)
    requires table.Valid()
    modifies table
    ensures table.Valid()
    ensures table.rows == old(table.rows) - Unprotected(group, saved)
  {
    for k := 0 to |group|
      invariant table.Valid()
      invariant table.rows == old(table.rows) - Unprotected(group[..k], saved)
    {
      var sh := group[k];
      assert group[..k + 1] == group[..k] + [sh];
      if sh.shiftId !in saved && !sh.isLocked {
        table.Delete(sh.shiftId);
      }
    }
    assert group[..|group|] == group;
  }

  /** The deletion pass: each touched event's existing shifts that are neither saved nor locked are deleted. */
  method DeleteUnsaved(table: ShiftTable, groups: map<int, seq<ExistingShift>>, existing: seq<ExistingShift>, touched: set<int>, saved: set<int>)
    requires table.Valid()
    requires forall ev :: ev in touched ==> Lookup(groups, ev) == Filter(existing, OnEvent(ev))
    modifies table
    ensures table.Valid()
    ensures table.rows == old(table.rows) - Deleted(existing, touched, saved)
  {
    var remaining := touched;
    NothingDeleted(existing, saved);
    assert touched - remaining == {};
    while remaining != {}
      invariant remaining <= touched
      invariant table.Valid()
      invariant table.rows == old(table.rows) - Deleted(existing, touched - remaining, saved)
      decreases |remaining|
    {
      EmptyOrElement(remaining);
      var ev :| ev in remaining;
      var group := Lookup(groups, ev);
      DeleteEventShifts(table, group, saved);
      DeletedStep(existing, touched - remaining, ev, saved);
      assert (old(table.rows) - Deleted(existing, touched - remaining, saved)) - Unprotected(group, saved)
        == old(table.rows) - (Deleted(existing, touched - remaining, saved) + Unprotected(group, saved));
      assert touched - (remaining - {ev}) == (touched - remaining) + {ev};
      remaining := remaining - {ev};
    }
    assert touched - remaining == touched;
  }
}
