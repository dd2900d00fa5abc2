/**
 * Scheduled-message job reconciliation (app/services/scheduler_job_builder.py).
 *
 * For each event there is at most one INIT job and one TECH_REMINDER job, and for each shift
 * at most one SHIFT_REMINDER job. A build pass computes the send time, then creates the job,
 * or updates its send time and blocked/scheduled status, and never touches a job that was
 * already sent or failed.
 */
module JobBuilder {
  import opened Wrappers
  import opened Text
  import opened Clock
  import opened Phone
  import opened TimeUtils

  datatype EntityKind = EventEntity | ShiftEntity
  datatype MessageType = Init | TechReminder | ShiftReminder
  datatype JobStatus = Scheduled | Blocked | Sent | Failed | OtherStatus(name: string)

  /** "sent" and "failed" are final: a build pass leaves such a job alone. */
  predicate IsTerminal(s: JobStatus) {
    s.Sent? || s.Failed?
  }

  /** The job store's lookup key: one job per (org, entity, entity id, message type). */
  datatype JobKey = JobKey(org: int, entity: EntityKind, entityId: int, messageType: MessageType)

  /** A scheduled-message row: its id, status, send time and last error text. */
  datatype Job = Job(jobId: string, status: JobStatus, sendAt: int, lastError: Option<string>)

  /** `str(i)` for any integer. */
  function IntString(i: int): (s: string)
    ensures s != [] && '_' !in s
  {
    if i < 0 then "-" + DecimalString(-i) else DecimalString(i)
  }

  function EntityName(e: EntityKind): string {
    match e
    case EventEntity => "event"
    case ShiftEntity => "shift"
  }

  function TypeName(t: MessageType): string {
    match t
    case Init => "INIT"
    case TechReminder => "TECH_REMINDER"
    case ShiftReminder => "SHIFT_REMINDER"
  }

  /**
   * `_generate_job_id`: "org_<org>_<entity>_<id>_<type>_" followed by a random suffix, which
   * is a parameter here.
   */
  function JobId(key: JobKey, suffix: string): (id: string)
    ensures |id| > |suffix| + 4 && id[..4] == "org_" && id[|id| - |suffix|..] == suffix
  {
    var id := "org_" + KeyFields(key) + suffix;
    assert id[..4] == "org_";
    id
  }

  /** The key part of a job id: "<org>_<entity>_<id>_<type>_". */
  function KeyFields(key: JobKey): string {
    IntString(key.org) + "_" + (EntityName(key.entity) + "_" + (IntString(key.entityId) + "_" + (TypeName(key.messageType) + "_")))
  }

  /** Distinct integers render differently. */
  lemma IntStringInjective(i: int, j: int)
    requires IntString(i) == IntString(j)
    ensures i == j
  {
    if i < 0 && j < 0 {
      assert DecimalString(-i) == IntString(i)[1..] == DecimalString(-j);
    }
  }

  /** Two strings that each start with an underscore-free field split at the same underscore. */
  lemma UnderscoreSplit(a: string, b: string, c: string, d: string)
    requires '_' !in a && '_' !in c && a + "_" + b == c + "_" + d
    ensures a == c && b == d
  {
    var s := a + "_" + b;
    assert s[|a|] == '_' && s == c + "_" + d && s[|c|] == '_';
    assert a == s[..|a|] == c;
    assert b == s[|a| + 1..] == d;
  }

  /**
   * With the same random suffix, two jobs get the same id only for the same key: the org, the
   * entity and its id, and the message type are read back from the id.
   */
  lemma JobIdInjective(k1: JobKey, k2: JobKey, suffix: string)
    requires JobId(k1, suffix) == JobId(k2, suffix)
    ensures k1 == k2
  {
    var id := JobId(k1, suffix);
    assert KeyFields(k1) == id[4..|id| - |suffix|] == KeyFields(k2);
    var tail1 := TypeName(k1.messageType) + "_";
    var tail2 := TypeName(k2.messageType) + "_";
    var rest1 := IntString(k1.entityId) + "_" + tail1;
    var rest2 := IntString(k2.entityId) + "_" + tail2;
    UnderscoreSplit(IntString(k1.org), EntityName(k1.entity) + "_" + rest1, IntString(k2.org), EntityName(k2.entity) + "_" + rest2);
    IntStringInjective(k1.org, k2.org);
    UnderscoreSplit(EntityName(k1.entity), rest1, EntityName(k2.entity), rest2);
    UnderscoreSplit(IntString(k1.entityId), tail1, IntString(k2.entityId), tail2);
    IntStringInjective(k1.entityId, k2.entityId);
    assert TypeName(k1.messageType) == tail1[..|tail1| - 1] == TypeName(k2.messageType);
  }

  function KeepChar(c: char): bool {
    c != '+' && c != '-'
  }

  /**
   * `_validate_phone`: a missing or empty phone is invalid; otherwise the phone is normalised
   * and is valid exactly when at least ten characters remain after deleting '+' and '-'.
   */
  function ValidatePhone(phone: Option<string>): (r: (bool, Option<string>))
    ensures r.0 <==> r.1.Some?
    ensures phone == None || phone == Some("") ==> !r.0
    ensures phone.Some? && phone.value != [] ==>
      (r.0 <==> |Filter(NormalizeIL(phone.value), KeepChar)| >= 10)
    ensures r.0 ==> r.1 == Some(NormalizeIL(phone.value))
  {
    if phone.None? || phone.value == [] then (false, None)
    else
      var normalized := NormalizeIL(phone.value);
      if |Filter(normalized, KeepChar)| >= 10 then (true, Some(normalized)) else (false, None)
  }

  /** Digits survive the deletion of '+' and '-'. */
  lemma {:induction false} FilterKeepsDigits(s: string)
    requires AllDigits(s)
    ensures Filter(s, KeepChar) == s
  {
    if s != [] {
      FilterKeepsDigits(s[1..]);
    }
  }

  /** The subscriber part of a national number of digits is digits. */
  lemma SubscriberDigits(p: string)
    requires IsNational(p) && AllDigits(p)
    ensures AllDigits(Subscriber(p))
  {
    var sub := Subscriber(p);
    forall i | 0 <= i < |sub|
      ensures IsDigit(sub[i])
    {
      assert sub[i] == p[i + |p| - 9];
    }
  }

  /** Deleting '+' and '-' from "+972" and a run of digits leaves "972" and the digits. */
  lemma PrefixedDigitsKept(sub: string)
    requires AllDigits(sub)
    ensures Filter(COUNTRY_PREFIX + sub, KeepChar) == "972" + sub
  {
    var n := COUNTRY_PREFIX + sub;
    assert n[1..] == "972" + sub;
    assert Filter(n, KeepChar) == Filter(n[1..], KeepChar);
    FilterKeepsDigits(n[1..]);
  }

  /** A national number of digits is valid and is returned in "+972" form. */
  lemma NationalValid(raw: string)
    requires raw != [] && IsNational(Clean(raw)) && AllDigits(Clean(raw))
    ensures ValidatePhone(Some(raw)) == (true, Some(COUNTRY_PREFIX + Subscriber(Clean(raw))))
  {
    var sub := Subscriber(Clean(raw));
    SubscriberDigits(Clean(raw));
    PrefixedDigitsKept(sub);
  }

  /** A cleaned value shorter than ten characters that is not a national number is invalid. */
  lemma ShortInvalid(raw: string)
    requires |Clean(raw)| < 10 && !IsNational(Clean(raw))
    ensures ValidatePhone(Some(raw)) == (false, None)
  {
  }

  /** What reconciling one job did. */
  datatype Outcome = Created | BlockedOutcome | Updated | AlreadySentOrFailed

  /**
   * The job-store change for one (entity, message type): a terminal job is left alone; an
   * existing job gets the new send time and becomes blocked (invalid phone), scheduled again
   * (was blocked, phone now valid) or keeps its status; a missing job is created, blocked when
   * the phone is invalid.
   */
  function ReconcileJob(m: map<JobKey, Job>, key: JobKey, sendAt: int, phoneValid: bool, error: string, newId: string)
    : (r: (map<JobKey, Job>, Outcome))
    ensures r.0.Keys == m.Keys + {key}
    ensures forall k :: k in m && k != key ==> r.0[k] == m[k]
    ensures key in m && IsTerminal(m[key].status) ==> r == (m, AlreadySentOrFailed)
    ensures !(key in m && IsTerminal(m[key].status)) ==>
      && r.0[key].sendAt == sendAt
      && (r.0[key].status == Blocked <==> !phoneValid)
      && (!phoneValid ==> r.0[key].lastError == Some(error) && r.1 == BlockedOutcome)
      && (phoneValid ==> r.1 == if key in m then Updated else Created)
    ensures key in m ==> r.0[key].jobId == m[key].jobId
    ensures key !in m ==> r.0[key].jobId == newId && (phoneValid ==> r.0[key] == Job(newId, Scheduled, sendAt, None))
    ensures key in m && !IsTerminal(m[key].status) && phoneValid ==>
      if m[key].status == Blocked then r.0[key].status == Scheduled && r.0[key].lastError == None
      else r.0[key].status == m[key].status && r.0[key].lastError == m[key].lastError
  {
    if key in m then
      var job := m[key];
      if IsTerminal(job.status) then (m, AlreadySentOrFailed)
      else
        var moved := job.(sendAt := sendAt);
        if !phoneValid then (m[key := moved.(status := Blocked, lastError := Some(error))], BlockedOutcome)
        else if job.status == Blocked then (m[key := moved.(status := Scheduled, lastError := None)], Updated)
        else (m[key := moved], Updated)
    else
      var created := Job(newId, Scheduled, sendAt, None);
      if !phoneValid then (m[key := created.(status := Blocked, lastError := Some(error))], BlockedOutcome)
      else (m[key := created], Created)
  }

  /** Reconciling twice with the same inputs leaves the store as reconciling once. */
  lemma ReconcileIdempotent(m: map<JobKey, Job>, key: JobKey, sendAt: int, phoneValid: bool, error: string, newId: string, otherId: string)
    ensures var once := ReconcileJob(m, key, sendAt, phoneValid, error, newId).0;
      ReconcileJob(once, key, sendAt, phoneValid, error, otherId).0 == once
  {
    var once := ReconcileJob(m, key, sendAt, phoneValid, error, newId).0;
    var twice := ReconcileJob(once, key, sendAt, phoneValid, error, otherId).0;
    assert twice[key] == once[key];
  }

  /** Every terminal job of the store is still there, unchanged, after a reconciliation. */
  lemma ReconcileKeepsTerminal(m: map<JobKey, Job>, key: JobKey, sendAt: int, phoneValid: bool, error: string, newId: string, k: JobKey)
    requires k in m && IsTerminal(m[k].status)
    ensures var r := ReconcileJob(m, key, sendAt, phoneValid, error, newId).0;
      k in r && r[k] == m[k]
  {
  }

  /** The scheduled-message repository: a table of jobs updated in place. */
  class JobStore {
    var jobs: map<JobKey, Job>

    constructor()
      ensures jobs == map[]
    {
      jobs := map[];
    }

    /** `find_job_for_event` / `find_job_for_shift` */
    function Find(key: JobKey): (r: Option<Job>)
      reads this
      ensures r.Some? <==> key in jobs
      ensures r.Some? ==> r.value == jobs[key]
    {
      if key in jobs then Some(jobs[key]) else None
    }

    /** `create_scheduled_message`: a new job, scheduled, without an error. */
    method Create(key: JobKey, jobId: string, sendAt: int)
      modifies this
      ensures jobs == old(jobs)[key := Job(jobId, Scheduled, sendAt, None)]
    {
      jobs := jobs[key := Job(jobId, Scheduled, sendAt, None)];
    }

    /** `update_send_at` */
    method UpdateSendAt(key: JobKey, sendAt: int)
      requires key in jobs
      modifies this
      ensures jobs == old(jobs)[key := old(jobs)[key].(sendAt := sendAt)]
    {
      jobs := jobs[key := jobs[key].(sendAt := sendAt)];
    }

    /** `update_status` */
    method UpdateStatus(key: JobKey, status: JobStatus, lastError: Option<string>)
      requires key in jobs
      modifies this
      ensures jobs == old(jobs)[key := old(jobs)[key].(status := status, lastError := lastError)]
    {
      jobs := jobs[key := jobs[key].(status := status, lastError := lastError)];
    }

    /** One job's update-or-create step, as each message-type block of the builder performs it. */
    method Reconcile(key: JobKey, sendAt: int, phoneValid: bool, error: string, newId: string) returns (o: Outcome)
      modifies this
      ensures (jobs, o) == ReconcileJob(old(jobs), key, sendAt, phoneValid, error, newId)
    {
      ghost var m := jobs;
      var existing := Find(key);
      if existing.Some? {
        if !IsTerminal(existing.value.status) {
          UpdateSendAt(key, sendAt);
          ghost var moved := m[key].(sendAt := sendAt);
          if !phoneValid {
            UpdateStatus(key, Blocked, Some(error));
            assert jobs == m[key := moved.(status := Blocked, lastError := Some(error))];
            o := BlockedOutcome;
          } else {
            if existing.value.status == Blocked {
              UpdateStatus(key, Scheduled, None);
              assert jobs == m[key := moved.(status := Scheduled, lastError := None)];
            }
            o := Updated;
          }
        } else {
          o := AlreadySentOrFailed;
        }
      } else {
        Create(key, newId, sendAt);
        if !phoneValid {
          UpdateStatus(key, Blocked, Some(error));
          assert jobs == m[key := Job(newId, Blocked, sendAt, Some(error))];
          o := BlockedOutcome;
        } else {
          o := Created;
        }
      }
    }
  }

  /** The scheduler settings row of an org. */
  datatype Settings = Settings(
    enabledGlobal: bool, enabledInit: bool, enabledTech: bool, enabledShift: bool,
    initDaysBefore: int, initSendTime: TimeInput,
    techDaysBefore: int, techSendTime: TimeInput,
    shiftDaysBefore: int, shiftSendTime: TimeInput)

  /**
   * A configured send time: a missing or empty value falls back to the default and a datetime
   * is rendered as "HH:MM".
   */
  function SendTimeSetting(v: TimeInput, default: string): (r: TimeInput)
    ensures v.NoValue? || v == TextValue("") ==> r == TextValue(default)
    ensures v.DateTimeValue? ==> r == TextValue(HHMM(TimeOf(v.instant)))
    ensures !v.NoValue? && v != TextValue("") && !v.DateTimeValue? ==> r == v
  {
    match v
    case NoValue => TextValue(default)
    case TextValue(s) => if s == "" then TextValue(default) else v
    case DateTimeValue(x) => TextValue(HHMM(TimeOf(x)))
    case _ => v
  }

  /** An event as the builder reads it; the contact phones are given already looked up. */
  datatype EventInfo = EventInfo(eventDate: Option<int>, producerPhone: Option<string>, technicalPhone: Option<string>)

  /** One message type's line of the result: "disabled" or an outcome, and the job id. */
  datatype TypeStatus = Disabled | Done(outcome: Outcome)
  datatype TypeResult = TypeResult(status: TypeStatus, jobId: Option<string>)

  /** The result of an event build: one of the two errors, an exception, or both lines. */
  datatype EventResult =
    | EventNotFound
    | EventDateMissing
    | EventRaised(error: TimeError)
    | EventBuilt(init: TypeResult, tech: TypeResult)

  const INIT_ERROR: string := "Producer phone number missing or invalid"
  const TECH_ERROR: string := "Technical contact phone number missing or invalid"
  const SHIFT_ERROR: string := "Employee phone number missing or invalid"

  /**
   * One message-type block of `build_or_update_jobs_for_event`: disabled, or the send time
   * (an unparsable configured time raises), then the reconciliation of the job.
   */
  function TypeStep(m: map<JobKey, Job>, key: JobKey, enabled: bool, sendTime: TimeInput, daysBefore: int,
                    baseDate: int, now: int, weekendRule: bool, phone: Option<string>, error: string, suffix: string)
    : (r: Result<(map<JobKey, Job>, TypeResult), TimeError>)
    ensures !enabled ==> r == Ok((m, TypeResult(Disabled, None)))
    ensures enabled ==> (r.Err? <==> ComputeSendAt(baseDate, sendTime, daysBefore, now, weekendRule).Err?)
    ensures r.Ok? ==> (enabled ==> key in r.value.0) && (forall k :: k in m && k != key ==> k in r.value.0 && r.value.0[k] == m[k])
    ensures r.Ok? && enabled && !(key in m && IsTerminal(m[key].status)) ==>
      var at := r.value.0[key].sendAt;
      at == ComputeSendAt(baseDate, sendTime, daysBefore, now, weekendRule).value
      && at >= now && (weekendRule ==> !IsWeekendDay(DateOf(at)))
    ensures r.Ok? && enabled ==>
      var at := ComputeSendAt(baseDate, sendTime, daysBefore, now, weekendRule).value;
      var (m', o) := ReconcileJob(m, key, at, ValidatePhone(phone).0, error, JobId(key, suffix));
      r.value == (m', TypeResult(Done(o), Some(m'[key].jobId)))
  {
    if !enabled then Ok((m, TypeResult(Disabled, None)))
    else
      match ComputeSendAt(baseDate, sendTime, daysBefore, now, weekendRule)
      case Err(e) => Err(e)
      case Ok(at) =>
        var (m', o) := ReconcileJob(m, key, at, ValidatePhone(phone).0, error, JobId(key, suffix));
        Ok((m', TypeResult(Done(o), Some(m'[key].jobId))))
  }

  /**
   * The store and result of `build_or_update_jobs_for_event` from the store before it: "event not
   * found" exactly for an unknown event, "event date missing" exactly for a known one without a date.
   */
  function BuildEvent(m: map<JobKey, Job>, org: int, eventId: int, event: Option<EventInfo>, settings: Settings,
                      now: int, initSuffix: string, techSuffix: string): (r: (map<JobKey, Job>, EventResult))
    ensures r.1 == EventNotFound <==> event.None?
    ensures r.1 == EventDateMissing <==> event.Some? && event.value.eventDate.None?
  {
    if event.None? then (m, EventNotFound)
    else if event.value.eventDate.None? then (m, EventDateMissing)
    else
      var date := event.value.eventDate.value;
      var initStep := TypeStep(m, JobKey(org, EventEntity, eventId, Init), settings.enabledGlobal && settings.enabledInit,
        SendTimeSetting(settings.initSendTime, "10:00"), settings.initDaysBefore, date, now, true,
        event.value.producerPhone, INIT_ERROR, initSuffix);
      match initStep
      case Err(e) => (m, EventRaised(e))
      case Ok((m1, init)) =>
        var techStep := TypeStep(m1, JobKey(org, EventEntity, eventId, TechReminder), settings.enabledGlobal && settings.enabledTech,
          SendTimeSetting(settings.techSendTime, "12:00"), settings.techDaysBefore, date, now, false,
          event.value.technicalPhone, TECH_ERROR, techSuffix);
        match techStep
        case Err(e) => (m1, EventRaised(e))
        case Ok((m2, tech)) => (m2, EventBuilt(init, tech))
  }

  /** One message-type block, performed on the store. */
  method BuildType(store: JobStore, key: JobKey, enabled: bool, sendTime: TimeInput, daysBefore: int,
                   baseDate: int, now: int, weekendRule: bool, phone: Option<string>, error: string, suffix: string)
    returns (r: Result<TypeResult, TimeError>)
    modifies store
    ensures var spec := TypeStep(old(store.jobs), key, enabled, sendTime, daysBefore, baseDate, now, weekendRule, phone, error, suffix);
      && (spec.Err? ==> r == Err(spec.error) && store.jobs == old(store.jobs))
      && (spec.Ok? ==> r == Ok(spec.value.1) && store.jobs == spec.value.0)
  {
    if !enabled {
      return Ok(TypeResult(Disabled, None));
    }
    var sendAt := ComputeSendAt(baseDate, sendTime, daysBefore, now, weekendRule);
    if sendAt.Err? {
      return Err(sendAt.error);
    }
    var (valid, _) := ValidatePhone(phone);
    var o := store.Reconcile(key, sendAt.value, valid, error, JobId(key, suffix));
    r := Ok(TypeResult(Done(o), Some(store.jobs[key].jobId)));
  }

  /** `build_or_update_jobs_for_event`: the INIT block (weekend rule on), then the TECH_REMINDER block (off). */
  method BuildForEvent(store: JobStore, org: int, eventId: int, event: Option<EventInfo>, settings: Settings,
                       now: int, initSuffix: string, techSuffix: string) returns (r: EventResult)
    modifies store
    ensures (store.jobs, r) == BuildEvent(old(store.jobs), org, eventId, event, settings, now, initSuffix, techSuffix)
  {
    if event.None? {
      return EventNotFound;
    }
    if event.value.eventDate.None? {
      return EventDateMissing;
    }
    var date := event.value.eventDate.value;
    var init := BuildType(store, JobKey(org, EventEntity, eventId, Init), settings.enabledGlobal && settings.enabledInit,
      SendTimeSetting(settings.initSendTime, "10:00"), settings.initDaysBefore, date, now, true,
      event.value.producerPhone, INIT_ERROR, initSuffix);
    if init.Err? {
      return EventRaised(init.error);
    }
    var tech := BuildType(store, JobKey(org, EventEntity, eventId, TechReminder), settings.enabledGlobal && settings.enabledTech,
      SendTimeSetting(settings.techSendTime, "12:00"), settings.techDaysBefore, date, now, false,
      event.value.technicalPhone, TECH_ERROR, techSuffix);
    if tech.Err? {
      return EventRaised(tech.error);
    }
    r := EventBuilt(init.value, tech.value);
  }

  /** An unknown event or one without a date changes no job. */
  lemma EventErrorsChangeNothing(m: map<JobKey, Job>, org: int, eventId: int, event: Option<EventInfo>, settings: Settings,
                                 now: int, initSuffix: string, techSuffix: string)
    requires event.None? || event.value.eventDate.None?
    ensures BuildEvent(m, org, eventId, event, settings, now, initSuffix, techSuffix).0 == m
    ensures BuildEvent(m, org, eventId, event, settings, now, initSuffix, techSuffix).1 in {EventNotFound, EventDateMissing}
  {
  }

  /** An event build changes only the event's INIT and TECH_REMINDER jobs, and never a terminal job. */
  lemma EventFrame(m: map<JobKey, Job>, org: int, eventId: int, event: Option<EventInfo>, settings: Settings,
                   now: int, initSuffix: string, techSuffix: string, k: JobKey)
    requires k in m
    requires IsTerminal(m[k].status) || k.org != org || k.entity != EventEntity || k.entityId != eventId || k.messageType == ShiftReminder
    ensures var r := BuildEvent(m, org, eventId, event, settings, now, initSuffix, techSuffix).0;
      k in r && r[k] == m[k]
  {
  }

  /** A disabled message type reports "disabled" and its job, if any, is untouched. */
  lemma DisabledTypeUntouched(m: map<JobKey, Job>, org: int, eventId: int, event: Option<EventInfo>, settings: Settings,
                              now: int, initSuffix: string, techSuffix: string)
    requires event.Some? && event.value.eventDate.Some?
    ensures var (r, res) := BuildEvent(m, org, eventId, event, settings, now, initSuffix, techSuffix);
      var initKey := JobKey(org, EventEntity, eventId, Init);
      var techKey := JobKey(org, EventEntity, eventId, TechReminder);
      && (!(settings.enabledGlobal && settings.enabledInit) ==>
            (initKey in r <==> initKey in m) && (initKey in m ==> r[initKey] == m[initKey])
            && (res.EventBuilt? ==> res.init.status == Disabled))
      && (!(settings.enabledGlobal && settings.enabledTech) ==>
            (techKey in r <==> techKey in m) && (techKey in m ==> r[techKey] == m[techKey])
            && (res.EventBuilt? ==> res.tech.status == Disabled))
  {
  }

  /**
   * A built INIT job that is not terminal is sent at the configured time of day, never before
   * `now`, and never on a Friday or Saturday; TECH_REMINDER keeps the plain candidate day.
   */
  lemma InitAvoidsWeekend(m: map<JobKey, Job>, org: int, eventId: int, event: Option<EventInfo>, settings: Settings,
                          now: int, initSuffix: string, techSuffix: string)
    requires event.Some? && event.value.eventDate.Some?
    requires settings.enabledGlobal && settings.enabledInit
    requires var initKey := JobKey(org, EventEntity, eventId, Init);
      !(initKey in m && IsTerminal(m[initKey].status))
    ensures var (r, res) := BuildEvent(m, org, eventId, event, settings, now, initSuffix, techSuffix);
      var initKey := JobKey(org, EventEntity, eventId, Init);
      res.EventBuilt? ==>
        && r[initKey].sendAt >= now
        && !IsWeekendDay(DateOf(r[initKey].sendAt))
  {
    var initKey := JobKey(org, EventEntity, eventId, Init);
    var date := event.value.eventDate.value;
    var step := TypeStep(m, initKey, true, SendTimeSetting(settings.initSendTime, "10:00"), settings.initDaysBefore,
      date, now, true, event.value.producerPhone, INIT_ERROR, initSuffix);
    if step.Ok? {
      var techKey := JobKey(org, EventEntity, eventId, TechReminder);
      var techStep := TypeStep(step.value.0, techKey, settings.enabledGlobal && settings.enabledTech,
        SendTimeSetting(settings.techSendTime, "12:00"), settings.techDaysBefore, date, now, false,
        event.value.technicalPhone, TECH_ERROR, techSuffix);
      if techStep.Ok? {
        assert techStep.value.0[initKey] == step.value.0[initKey];
      }
    }
  }

  /** A shift as the shift pass reads it; the employee phone is given already looked up. */
  datatype ShiftInfo = ShiftInfo(shiftId: int, callTime: Option<int>, employeePhone: Option<string>)

  datatype Counts = Counts(created: nat, updated: nat, blocked: nat)

  function Count(c: Counts, o: Outcome): (r: Counts)
    ensures r.created + r.updated + r.blocked <= c.created + c.updated + c.blocked + 1
  {
    match o
    case Created => c.(created := c.created + 1)
    case Updated => c.(updated := c.updated + 1)
    case BlockedOutcome => c.(blocked := c.blocked + 1)
    case AlreadySentOrFailed => c
  }

  /** The result of `build_or_update_jobs_for_shifts`. */
  datatype ShiftResult =
    | ShiftsDisabled
    | ShiftsRaised(error: TimeError)
    | ShiftsBuilt(processed: nat, counts: Counts)

  /** One iteration of the shift loop: skip a shift without a call time, else reconcile its job. */
  function ShiftStep(m: map<JobKey, Job>, org: int, s: ShiftInfo, sendTime: TimeInput, daysBefore: int, now: int,
                     suffix: string, c: Counts): (r: (map<JobKey, Job>, Result<Counts, TimeError>))
  {
    if s.callTime.None? then (m, Ok(c))
    else
      var key := JobKey(org, ShiftEntity, s.shiftId, ShiftReminder);
      match ComputeSendAt(DateOf(s.callTime.value), sendTime, daysBefore, now, false)
      case Err(e) => (m, Err(e))
      case Ok(at) =>
        var (m', o) := ReconcileJob(m, key, at, ValidatePhone(s.employeePhone).0, SHIFT_ERROR, JobId(key, suffix));
        (m', Ok(Count(c, o)))
  }

  /** A shift with a call time and a parsable send time is one reconciliation, counted. */
  lemma ShiftStepOk(m: map<JobKey, Job>, org: int, s: ShiftInfo, sendTime: TimeInput, daysBefore: int, now: int,
                    suffix: string, c: Counts, at: int)
    requires s.callTime.Some? && ComputeSendAt(DateOf(s.callTime.value), sendTime, daysBefore, now, false) == Ok(at)
    ensures var key := JobKey(org, ShiftEntity, s.shiftId, ShiftReminder);
      var r := ReconcileJob(m, key, at, ValidatePhone(s.employeePhone).0, SHIFT_ERROR, JobId(key, suffix));
      ShiftStep(m, org, s, sendTime, daysBefore, now, suffix, c) == (r.0, Ok(Count(c, r.1)))
  {
  }

  /**
   * The shift loop over a prefix of the shifts: the store and counters after it, or the exception.
   * Created, updated and blocked jobs together number at most the shifts with a call time.
   */
  function ShiftLoop(m: map<JobKey, Job>, org: int, shifts: seq<ShiftInfo>, suffixes: seq<string>,
                     sendTime: TimeInput, daysBefore: int, now: int): (r: (map<JobKey, Job>, Result<Counts, TimeError>))
    requires |suffixes| == |shifts|
    ensures r.1.Ok? ==> r.1.value.created + r.1.value.updated + r.1.value.blocked <= Timed(shifts)
    decreases |shifts|
  {
    if shifts == [] then (m, Ok(Counts(0, 0, 0)))
    else
      var n := |shifts| - 1;
      var (m1, prev) := ShiftLoop(m, org, shifts[..n], suffixes[..n], sendTime, daysBefore, now);
      if prev.Err? then (m1, prev)
      else ShiftStep(m1, org, shifts[n], sendTime, daysBefore, now, suffixes[n], prev.value)
  }

  /** Shifts that have a call time. */
  function Timed(shifts: seq<ShiftInfo>): (n: nat)
    ensures n <= |shifts|
  {
    if shifts == [] then 0
    else Timed(shifts[..|shifts| - 1]) + (if shifts[|shifts| - 1].callTime.Some? then 1 else 0)
  }

  /** The shift loop never touches a terminal job, nor any job other than this org's shift reminders. */
  lemma {:induction false} ShiftLoopFrame(m: map<JobKey, Job>, org: int, shifts: seq<ShiftInfo>, suffixes: seq<string>,
                                          sendTime: TimeInput, daysBefore: int, now: int, k: JobKey)
    requires |suffixes| == |shifts|
    requires k in m
    requires IsTerminal(m[k].status) || k.org != org || k.entity != ShiftEntity || k.messageType != ShiftReminder
    ensures var r := ShiftLoop(m, org, shifts, suffixes, sendTime, daysBefore, now).0;
      k in r && r[k] == m[k]
    decreases |shifts|
  {
    if shifts != [] {
      var n := |shifts| - 1;
      ShiftLoopFrame(m, org, shifts[..n], suffixes[..n], sendTime, daysBefore, now, k);
    }
  }

  /**
   * `build_or_update_jobs_for_shifts`: nothing when shift reminders are disabled; otherwise one
   * reconciliation per shift with a call time, counting created, updated and blocked jobs.
   */
  method BuildForShifts(store: JobStore, org: int, settings: Settings, shifts: seq<ShiftInfo>, now: int, suffixes: seq<string>)
    returns (r: ShiftResult)
    requires |suffixes| == |shifts|
    modifies store
    ensures !(settings.enabledGlobal && settings.enabledShift) ==> r == ShiftsDisabled && store.jobs == old(store.jobs)
    ensures settings.enabledGlobal && settings.enabledShift ==>
      var (m, c) := ShiftLoop(old(store.jobs), org, shifts, suffixes, SendTimeSetting(settings.shiftSendTime, "12:00"),
                              settings.shiftDaysBefore, now);
      && store.jobs == m
      && (c.Ok? ==> r == ShiftsBuilt(|shifts|, c.value))
      && (c.Err? ==> r == ShiftsRaised(c.error))
  {
    if !settings.enabledGlobal || !settings.enabledShift {
      return ShiftsDisabled;
    }
    var sendTime := SendTimeSetting(settings.shiftSendTime, "12:00");
    var created, updated, blocked := 0, 0, 0;
    ghost var start := store.jobs;
    for i := 0 to |shifts|
      invariant ShiftLoop(start, org, shifts[..i], suffixes[..i], sendTime, settings.shiftDaysBefore, now)
        == (store.jobs, Ok(Counts(created, updated, blocked)))
    {
      ShiftLoopNext(start, org, shifts, suffixes, sendTime, settings.shiftDaysBefore, now, i);
      ghost var before := store.jobs;
      ghost var counts := Counts(created, updated, blocked);
      var shift := shifts[i];
      if shift.callTime.None? {
        continue;
      }
      var (valid, _) := ValidatePhone(shift.employeePhone);
      var sendAt := ComputeSendAt(DateOf(shift.callTime.value), sendTime, settings.shiftDaysBefore, now, false);
      if sendAt.Err? {
        ShiftLoopStops(start, org, shifts, suffixes, sendTime, settings.shiftDaysBefore, now, i + 1);
        return ShiftsRaised(sendAt.error);
      }
      var key := JobKey(org, ShiftEntity, shift.shiftId, ShiftReminder);
      var o := store.Reconcile(key, sendAt.value, valid, SHIFT_ERROR, JobId(key, suffixes[i]));
      match o {
        case Created => created := created + 1;
        case Updated => updated := updated + 1;
        case BlockedOutcome => blocked := blocked + 1;
        case AlreadySentOrFailed =>
      }
      assert Count(counts, o) == Counts(created, updated, blocked);
      ShiftStepOk(before, org, shift, sendTime, settings.shiftDaysBefore, now, suffixes[i], counts, sendAt.value);
    }
    assert shifts[..|shifts|] == shifts && suffixes[..|suffixes|] == suffixes;
    r := ShiftsBuilt(|shifts|, Counts(created, updated, blocked));
  }

  /** The loop over one more shift is one more step, unless the loop has already raised. */
  lemma ShiftLoopNext(m: map<JobKey, Job>, org: int, shifts: seq<ShiftInfo>, suffixes: seq<string>,
                      sendTime: TimeInput, daysBefore: int, now: int, i: nat)
    requires |suffixes| == |shifts| && i < |shifts|
    ensures var prev := ShiftLoop(m, org, shifts[..i], suffixes[..i], sendTime, daysBefore, now);
      ShiftLoop(m, org, shifts[..i + 1], suffixes[..i + 1], sendTime, daysBefore, now)
        == if prev.1.Err? then prev else ShiftStep(prev.0, org, shifts[i], sendTime, daysBefore, now, suffixes[i], prev.1.value)
  {
    assert shifts[..i + 1][..i] == shifts[..i] && suffixes[..i + 1][..i] == suffixes[..i];
  }

  /** Once the loop has raised, later shifts change nothing: the whole loop ends in the same state. */
  lemma {:induction false} ShiftLoopStops(m: map<JobKey, Job>, org: int, shifts: seq<ShiftInfo>, suffixes: seq<string>,
                                          sendTime: TimeInput, daysBefore: int, now: int, i: nat)
    requires |suffixes| == |shifts| && i <= |shifts|
    requires ShiftLoop(m, org, shifts[..i], suffixes[..i], sendTime, daysBefore, now).1.Err?
    ensures ShiftLoop(m, org, shifts, suffixes, sendTime, daysBefore, now)
      == ShiftLoop(m, org, shifts[..i], suffixes[..i], sendTime, daysBefore, now)
    decreases |shifts| - i
  {
    if i < |shifts| {
      assert shifts[..i + 1][..i] == shifts[..i] && suffixes[..i + 1][..i] == suffixes[..i];
      ShiftLoopStops(m, org, shifts, suffixes, sendTime, daysBefore, now, i + 1);
    } else {
      assert shifts[..i] == shifts && suffixes[..i] == suffixes;
    }
  }
}
