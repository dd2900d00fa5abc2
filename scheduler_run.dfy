/**
 * The shift-reminder run (app/services/scheduler.py): select the shifts whose reminder is due,
 * then send each one, counting sent, skipped and failed shifts without letting one shift's
 * failure stop the others.
 */
module SchedulerRun {
  import opened Wrappers
  import opened Sorting

  const HOUR: int := 3_600_000_000

  /** A shift row joined with its employee's phone. */
  datatype ShiftRow = ShiftRow(shiftId: int, org: int, callTime: int, reminderSentAt: Option<int>, employeePhone: Option<string>)

  /** The selection rule: reminder unsent, now < call time <= now + hours, and the org filter. */
  predicate IsDue(s: ShiftRow, now: int, hoursBefore: int, org: Option<int>) {
    && s.reminderSentAt.None?
    && now < s.callTime <= now + hoursBefore * HOUR
    && (org.None? || s.org == org.value)
  }

  /** The due rows, in table order. */
  function DueRows(rows: seq<ShiftRow>, now: int, hoursBefore: int, org: Option<int>): (r: seq<ShiftRow>)
    ensures forall x :: x in r <==> x in rows && IsDue(x, now, hoursBefore, org)
    ensures |r| <= |rows|
  {
    if rows == [] then []
    else (if IsDue(rows[0], now, hoursBefore, org) then [rows[0]] else []) + DueRows(rows[1..], now, hoursBefore, org)
  }

  function CallTime(s: ShiftRow): int {
    s.callTime
  }

  /** `find_shifts_needing_reminders`: the due rows ordered by call time. */
  function FindDue(rows: seq<ShiftRow>, now: int, hoursBefore: int, org: Option<int>): (r: seq<ShiftRow>)
    ensures SortedBy(r, CallTime)
    ensures forall x :: x in r <==> x in rows && IsDue(x, now, hoursBefore, org)
    ensures multiset(r) == multiset(DueRows(rows, now, hoursBefore, org))
  {
    var due := DueRows(rows, now, hoursBefore, org);
    SortMembers(due, CallTime);
    SortBy(due, CallTime)
  }

  /** How sending one reminder ends: sent, a `ValueError`, or any other exception. */
  datatype SendOutcome = SendOk | SendValueError | SendOtherError

  /** The counters of one run. */
  datatype Counters = Counters(dueFound: nat, sent: nat, failed: nat, skipped: nat, blocked: nat, postponed: nat, durationMs: nat)

  /** A run returns its counters, or re-raises after setting `failed` to `due_found`. */
  datatype RunResult = Completed(counters: Counters) | Raised(counters: Counters)

  predicate HasPhone(s: ShiftRow) {
    s.employeePhone.Some? && s.employeePhone.value != ""
  }

  /** Shifts counted as sent: a phone, and the send returned normally. */
  function SentCount(shifts: seq<ShiftRow>, outcomes: seq<SendOutcome>): nat
    requires |outcomes| == |shifts|
  {
    if shifts == [] then 0
    else
      var n := |shifts| - 1;
      SentCount(shifts[..n], outcomes[..n]) + (if HasPhone(shifts[n]) && outcomes[n] == SendOk then 1 else 0)
  }

  /** Shifts counted as skipped: no phone, or the send raised `ValueError`. */
  function SkippedCount(shifts: seq<ShiftRow>, outcomes: seq<SendOutcome>): nat
    requires |outcomes| == |shifts|
  {
    if shifts == [] then 0
    else
      var n := |shifts| - 1;
      SkippedCount(shifts[..n], outcomes[..n]) + (if !HasPhone(shifts[n]) || outcomes[n] == SendValueError then 1 else 0)
  }

  /** Shifts counted as failed: a phone, and the send raised another exception. */
  function FailedCount(shifts: seq<ShiftRow>, outcomes: seq<SendOutcome>): nat
    requires |outcomes| == |shifts|
  {
    if shifts == [] then 0
    else
      var n := |shifts| - 1;
      FailedCount(shifts[..n], outcomes[..n]) + (if HasPhone(shifts[n]) && outcomes[n] == SendOtherError then 1 else 0)
  }

  /** Every shift lands in exactly one of sent, skipped and failed. */
  lemma {:induction false} CountsPartition(shifts: seq<ShiftRow>, outcomes: seq<SendOutcome>)
    requires |outcomes| == |shifts|
    ensures SentCount(shifts, outcomes) + SkippedCount(shifts, outcomes) + FailedCount(shifts, outcomes) == |shifts|
  {
    if shifts != [] {
      var n := |shifts| - 1;
      CountsPartition(shifts[..n], outcomes[..n]);
    }
  }

  /** `find_shifts_needing_reminders`' default window. */
  const HOURS_BEFORE: int := 24

  /**
   * `run_once`: the shift table and clock, one send outcome per due shift, whether setting up
   * the sender raises, and the elapsed time are given.
   */
  method RunOnce(rows: seq<ShiftRow>, now: int, org: Option<int>, outcomes: seq<SendOutcome>, setupRaises: bool, elapsedMs: nat)
    returns (r: RunResult)
    requires |outcomes| == |FindDue(rows, now, HOURS_BEFORE, org)|
    ensures var due := FindDue(rows, now, HOURS_BEFORE, org);
      r == ProcessDueSpec(due, outcomes, setupRaises, elapsedMs)
  {
    r := ProcessDue(FindDue(rows, now, HOURS_BEFORE, org), outcomes, setupRaises, elapsedMs);
  }

  /** The counters of a run over the due shifts. */
  function ProcessDueSpec(due: seq<ShiftRow>, outcomes: seq<SendOutcome>, setupRaises: bool, elapsedMs: nat): (r: RunResult)
    requires |outcomes| == |due|
    ensures r.Completed? ==> r.counters.sent + r.counters.skipped + r.counters.failed == r.counters.dueFound == |due|
    ensures r.Raised? ==> r.counters.failed == r.counters.dueFound == |due|
  {
    CountsPartition(due, outcomes);
    if due == [] then Completed(Counters(0, 0, 0, 0, 0, 0, 0))
    else if setupRaises then Raised(Counters(|due|, 0, |due|, 0, 0, 0, 0))
    else Completed(Counters(|due|, SentCount(due, outcomes), FailedCount(due, outcomes), SkippedCount(due, outcomes), 0, 0, elapsedMs))
  }

  /**
   * The body of `run_once` after the due shifts are found: an empty due list returns all zeros
   * at once; otherwise every due shift is counted as sent, skipped or failed.
   */
  method ProcessDue(due: seq<ShiftRow>, outcomes: seq<SendOutcome>, setupRaises: bool, elapsedMs: nat) returns (r: RunResult)
    requires |outcomes| == |due|
    ensures r == ProcessDueSpec(due, outcomes, setupRaises, elapsedMs)
  {
    var counters := Counters(0, 0, 0, 0, 0, 0, 0);
    counters := counters.(dueFound := |due|);
    if due == [] {
      return Completed(counters);
    }
    if setupRaises {
      counters := counters.(failed := counters.dueFound);
      return Raised(counters);
    }
    for i := 0 to |due|
      invariant counters == Counters(|due|, SentCount(due[..i], outcomes[..i]), FailedCount(due[..i], outcomes[..i]),
        SkippedCount(due[..i], outcomes[..i]), 0, 0, 0)
    {
      assert due[..i + 1][..i] == due[..i] && outcomes[..i + 1][..i] == outcomes[..i];
      var shift := due[i];
      if !HasPhone(shift) {
        counters := counters.(skipped := counters.skipped + 1);
        continue;
      }
      match outcomes[i] {
        case SendOk => counters := counters.(sent := counters.sent + 1);
        case SendValueError => counters := counters.(skipped := counters.skipped + 1);
        case SendOtherError => counters := counters.(failed := counters.failed + 1);
      }
    }
    assert due[..|due|] == due && outcomes[..|outcomes|] == outcomes;
    counters := counters.(durationMs := elapsedMs);
    CountsPartition(due, outcomes);
    r := Completed(counters);
  }

  /** A failing shift does not stop later ones: changing one outcome changes only that shift's count. */
  lemma {:induction false} FailureIsolated(shifts: seq<ShiftRow>, outcomes: seq<SendOutcome>, i: nat)
    requires |outcomes| == |shifts| && i < |shifts| && HasPhone(shifts[i]) && outcomes[i] == SendOk
    ensures var other := outcomes[i := SendOtherError];
      && SentCount(shifts, other) == SentCount(shifts, outcomes) - 1
      && FailedCount(shifts, other) == FailedCount(shifts, outcomes) + 1
      && SkippedCount(shifts, other) == SkippedCount(shifts, outcomes)
    decreases |shifts|
  {
    var other := outcomes[i := SendOtherError];
    var n := |shifts| - 1;
    if i == n {
      assert other[..n] == outcomes[..n];
    } else {
      assert other[..n] == outcomes[..n][i := SendOtherError];
      FailureIsolated(shifts[..n], outcomes[..n], i);
    }
  }
}
