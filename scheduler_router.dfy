/**
 * The scheduler API's decision logic (app/routers/scheduler.py): who a job will be sent to,
 * whether "send now" may run and what it answers, which settings an update changes, and which
 * jobs the list shows in which order.
 */
module SchedulerRouter {
  import opened Wrappers
  import opened Text
  import opened Sorting
  import opened JobBuilder

  /** A contact or employee row: name and phone. */
  datatype Person = Person(name: string, phone: Option<string>)

  /** An event row's two contact references. */
  datatype EventRow = EventRow(technicalContactId: Option<int>, producerContactId: Option<int>)

  /** The lookup tables the preview reads (the repositories' get-by-id calls). */
  datatype Directory = Directory(
    events: map<int, EventRow>, contacts: map<int, Person>,
    shiftEmployee: map<int, Option<int>>, employees: map<int, Person>)

  /** Python truthiness of an optional id: present and non-zero. */
  predicate IsSet(id: Option<int>) {
    id.Some? && id.value != 0
  }

  /** A phone the preview accepts: present and not blank. */
  predicate Usable(phone: Option<string>) {
    phone.Some? && Strip(phone.value) != []
  }

  /** The preview's answer: a recipient, or the reason there is none. */
  datatype Recipient = Resolved(phone: string, name: string) | Missing(error: string)

  /** The contact an id refers to, if the id is set and the contact exists. */
  function ContactOf(dir: Directory, id: Option<int>): (r: Option<Person>)
    ensures r.Some? <==> IsSet(id) && id.value in dir.contacts
  {
    if IsSet(id) && id.value in dir.contacts then Some(dir.contacts[id.value]) else None
  }

  /** A contact with a usable phone becomes the recipient. */
  predicate Reachable(p: Option<Person>) {
    p.Some? && Usable(p.value.phone)
  }

  /**
   * `_preview_recipient`: INIT goes to the technical contact when reachable, else the
   * producer; TECH_REMINDER only to the technical contact; SHIFT_REMINDER to the shift's
   * employee; any other type has no recipient.
   */
  function PreviewRecipient(dir: Directory, messageType: string, eventId: int, shiftId: int): (r: Recipient)
    ensures messageType == "INIT" ==>
      var ev := if eventId in dir.events then Some(dir.events[eventId]) else None;
      && (ev.None? ==> r == Missing("Event not found"))
      && (ev.Some? && Reachable(ContactOf(dir, ev.value.technicalContactId)) ==>
            r == Resolved(ContactOf(dir, ev.value.technicalContactId).value.phone.value, ContactOf(dir, ev.value.technicalContactId).value.name))
      && (ev.Some? && !Reachable(ContactOf(dir, ev.value.technicalContactId)) && Reachable(ContactOf(dir, ev.value.producerContactId)) ==>
            r == Resolved(ContactOf(dir, ev.value.producerContactId).value.phone.value, ContactOf(dir, ev.value.producerContactId).value.name))
      && (ev.Some? && !Reachable(ContactOf(dir, ev.value.technicalContactId)) && !Reachable(ContactOf(dir, ev.value.producerContactId)) ==>
            r == Missing("Missing phone number"))
    ensures messageType == "TECH_REMINDER" ==>
      (r.Resolved? <==> eventId in dir.events && Reachable(ContactOf(dir, dir.events[eventId].technicalContactId)))
    ensures messageType == "SHIFT_REMINDER" ==>
      (r.Resolved? <==>
        && shiftId in dir.shiftEmployee && IsSet(dir.shiftEmployee[shiftId])
        && dir.shiftEmployee[shiftId].value in dir.employees
        && Usable(dir.employees[dir.shiftEmployee[shiftId].value].phone))
    ensures messageType != "INIT" && messageType != "TECH_REMINDER" && messageType != "SHIFT_REMINDER" ==> r.Missing?
    ensures r.Resolved? ==> Strip(r.phone) != []
  {
    if messageType == "INIT" then
      if eventId !in dir.events then Missing("Event not found")
      else
        var ev := dir.events[eventId];
        var tech := ContactOf(dir, ev.technicalContactId);
        var producer := ContactOf(dir, ev.producerContactId);
        if Reachable(tech) then Resolved(tech.value.phone.value, tech.value.name)
        else if Reachable(producer) then Resolved(producer.value.phone.value, producer.value.name)
        else Missing("Missing phone number")
    else if messageType == "TECH_REMINDER" then
      if eventId !in dir.events then Missing("Event not found")
      else
        var ev := dir.events[eventId];
        if !IsSet(ev.technicalContactId) then Missing("Technical contact not assigned")
        else if ev.technicalContactId.value !in dir.contacts then Missing("Technical contact not found")
        else
          var tech := dir.contacts[ev.technicalContactId.value];
          if !Usable(tech.phone) then Missing("Technical contact phone missing")
          else Resolved(tech.phone.value, tech.name)
    else if messageType == "SHIFT_REMINDER" then
      if shiftId !in dir.shiftEmployee then Missing("Shift not found")
      else
        var employeeId := dir.shiftEmployee[shiftId];
        if !IsSet(employeeId) then Missing("Employee not assigned")
        else if employeeId.value !in dir.employees then Missing("Employee not found")
        else
          var employee := dir.employees[employeeId.value];
          if !Usable(employee.phone) then Missing("Employee phone missing")
          else Resolved(employee.phone.value, employee.name)
    else Missing("Unknown message type: " + messageType)
  }

  /** TECH_REMINDER tells apart a missing event, an unassigned contact, an unknown contact and a missing phone. */
  lemma TechReminderErrors(dir: Directory, eventId: int, shiftId: int)
    ensures var r := PreviewRecipient(dir, "TECH_REMINDER", eventId, shiftId);
      && (eventId !in dir.events ==> r == Missing("Event not found"))
      && (eventId in dir.events && !IsSet(dir.events[eventId].technicalContactId) ==>
            r == Missing("Technical contact not assigned"))
      && (eventId in dir.events && IsSet(dir.events[eventId].technicalContactId)
          && dir.events[eventId].technicalContactId.value !in dir.contacts ==>
            r == Missing("Technical contact not found"))
      && (eventId in dir.events && ContactOf(dir, dir.events[eventId].technicalContactId).Some?
          && !Usable(ContactOf(dir, dir.events[eventId].technicalContactId).value.phone) ==>
            r == Missing("Technical contact phone missing"))
  {
  }

  /** SHIFT_REMINDER tells apart a missing shift, an unassigned employee, an unknown employee and a missing phone. */
  lemma ShiftReminderErrors(dir: Directory, eventId: int, shiftId: int)
    ensures var r := PreviewRecipient(dir, "SHIFT_REMINDER", eventId, shiftId);
      && (shiftId !in dir.shiftEmployee ==> r == Missing("Shift not found"))
      && (shiftId in dir.shiftEmployee && !IsSet(dir.shiftEmployee[shiftId]) ==> r == Missing("Employee not assigned"))
      && (shiftId in dir.shiftEmployee && IsSet(dir.shiftEmployee[shiftId])
          && dir.shiftEmployee[shiftId].value !in dir.employees ==>
            r == Missing("Employee not found"))
      && (shiftId in dir.shiftEmployee && IsSet(dir.shiftEmployee[shiftId])
          && dir.shiftEmployee[shiftId].value in dir.employees
          && !Usable(dir.employees[dir.shiftEmployee[shiftId].value].phone) ==>
            r == Missing("Employee phone missing"))
  {
  }

  /**
   * The INIT preview and the INIT job builder look at different contacts: with a reachable
   * technical contact and no producer, the preview names a recipient while the builder blocks
   * the job for a missing producer phone.
   */
  lemma InitPreviewIgnoresProducer(dir: Directory, eventId: int, techId: int, tech: Person)
    requires eventId in dir.events && techId != 0 && techId in dir.contacts && dir.contacts[techId] == tech
    requires dir.events[eventId].technicalContactId == Some(techId) && dir.events[eventId].producerContactId == None
    requires Usable(tech.phone)
    ensures PreviewRecipient(dir, "INIT", eventId, 0) == Resolved(tech.phone.value, tech.name)
    ensures !ValidatePhone(None).0
  {
  }

  /** A scheduled-message row as the API reads it. */
  datatype JobRow = JobRow(jobId: string, org: int, messageType: string, status: JobStatus, sendAt: int, eventId: int, shiftId: int)

  /** What `_process_job` does: returns a result word, or raises. */
  datatype ProcessResult = Returned(word: string) | ProcessRaised(message: string)

  /** The send-now answer: a response body, or an HTTP error. */
  datatype SendNowAnswer = Response(success: bool, message: string) | HttpError(code: int, detail: string)

  /** The response text for each result word of `_process_job`. */
  function ResultMessage(word: string): (r: (bool, string))
    ensures r.0 <==> word == "sent"
  {
    if word == "sent" then (true, "Message sent successfully")
    else if word == "blocked" then (false, "Message blocked: recipient missing")
    else if word == "failed" then (false, "Failed to send message")
    else if word == "skipped" then (false, "Message skipped")
    else if word == "postponed" then (false, "Message postponed due to weekend rule")
    else (false, "Unknown result: " + word)
  }

  /** Whether the gate lets the job through to processing. */
  predicate MaySend(job: Option<JobRow>, org: int) {
    job.Some? && job.value.org == org && !IsTerminal(job.value.status)
  }

  /**
   * `send_job_now`: 404 for an unknown job, 403 for another org's job, 400 for a job already
   * sent or failed; otherwise the job is processed and its result word becomes the response,
   * an exception a 500.
   */
  function SendNow(job: Option<JobRow>, org: int, process: ProcessResult): (r: SendNowAnswer)
    ensures job.None? ==> r.HttpError? && r.code == 404
    ensures job.Some? && job.value.org != org ==> r.HttpError? && r.code == 403
    ensures job.Some? && job.value.org == org && IsTerminal(job.value.status) ==> r.HttpError? && r.code == 400
    ensures MaySend(job, org) && process.ProcessRaised? ==> r == HttpError(500, process.message)
    ensures r.Response? <==> MaySend(job, org) && process.Returned?
    ensures r.Response? && r.success <==> MaySend(job, org) && process == Returned("sent")
  {
    if job.None? then HttpError(404, "Job not found")
    else if job.value.org != org then HttpError(403, "Job does not belong to this organization")
    else if IsTerminal(job.value.status) then
      HttpError(400, "Cannot send job with status '" + (if job.value.status.Sent? then "sent" else "failed") + "'")
    else
      match process
      case ProcessRaised(message) => HttpError(500, message)
      case Returned(word) =>
        var (success, message) := ResultMessage(word);
        Response(success, message)
  }

  /** The settings update body: each flag optional. */
  datatype SettingsUpdate = SettingsUpdate(
    enabledGlobal: Option<bool>, enabledInit: Option<bool>, enabledTech: Option<bool>, enabledShift: Option<bool>)

  function Pick(update: Option<bool>, current: bool): (r: bool)
    ensures update.Some? ==> r == update.value
    ensures update.None? ==> r == current
  {
    if update.Some? then update.value else current
  }

  /**
   * `update_scheduler_settings`: only the flags given in the body change; the other settings
   * are those already stored.
   */
  function UpdateSettings(current: Settings, update: SettingsUpdate): (r: Settings)
    ensures r.enabledGlobal == Pick(update.enabledGlobal, current.enabledGlobal)
    ensures r.enabledInit == Pick(update.enabledInit, current.enabledInit)
    ensures r.enabledTech == Pick(update.enabledTech, current.enabledTech)
    ensures r.enabledShift == Pick(update.enabledShift, current.enabledShift)
    ensures r.(enabledGlobal := current.enabledGlobal, enabledInit := current.enabledInit,
               enabledTech := current.enabledTech, enabledShift := current.enabledShift) == current
  {
    current.(
      enabledGlobal := Pick(update.enabledGlobal, current.enabledGlobal),
      enabledInit := Pick(update.enabledInit, current.enabledInit),
      enabledTech := Pick(update.enabledTech, current.enabledTech),
      enabledShift := Pick(update.enabledShift, current.enabledShift))
  }

  /** An empty update changes nothing, and applying the same update twice equals applying it once. */
  lemma UpdateSettingsLaws(current: Settings, update: SettingsUpdate)
    ensures UpdateSettings(current, SettingsUpdate(None, None, None, None)) == current
    ensures UpdateSettings(UpdateSettings(current, update), update) == UpdateSettings(current, update)
  {
  }

  /** The list query's filter: this org, the message type if one is given, and unsent jobs if asked. */
  predicate Listed(row: JobRow, org: int, messageType: Option<string>, hideSent: bool) {
    && row.org == org
    && (messageType.None? || messageType.value == "" || row.messageType == messageType.value)
    && (!hideSent || !row.status.Sent?)
  }

  /** The `WHERE` clause: the matching rows, each as often as it occurs, in their stored order. */
  function ListFilter(rows: seq<JobRow>, org: int, messageType: Option<string>, hideSent: bool): (r: seq<JobRow>)
    ensures forall x :: x in r <==> x in rows && Listed(x, org, messageType, hideSent)
    ensures forall x :: multiset(r)[x] == if Listed(x, org, messageType, hideSent) then multiset(rows)[x] else 0
  {
    if rows == [] then []
    else
      assert rows == [rows[0]] + rows[1..];
      (if Listed(rows[0], org, messageType, hideSent) then [rows[0]] else []) + ListFilter(rows[1..], org, messageType, hideSent)
  }

  function SendAtOf(row: JobRow): int {
    row.sendAt
  }

  /** The rows the list query returns, ordered by send time. */
  function ListedJobs(rows: seq<JobRow>, org: int, messageType: Option<string>, hideSent: bool): (r: seq<JobRow>)
    ensures SortedBy(r, SendAtOf)
    ensures forall x :: x in r <==> x in rows && Listed(x, org, messageType, hideSent)
    ensures multiset(r) == multiset(ListFilter(rows, org, messageType, hideSent))
  {
    var filtered := ListFilter(rows, org, messageType, hideSent);
    SortMembers(filtered, SendAtOf);
    SortBy(filtered, SendAtOf)
  }

  /**
   * `list_scheduler_jobs`: the listed rows, each with its recipient preview, in send-time order.
   */
  method ListSchedulerJobs(dir: Directory, rows: seq<JobRow>, org: int, messageType: Option<string>, hideSent: bool)
    returns (out: seq<(JobRow, Recipient)>)
    ensures |out| == |ListedJobs(rows, org, messageType, hideSent)|
    ensures forall i :: 0 <= i < |out| ==>
      var row := ListedJobs(rows, org, messageType, hideSent)[i];
      out[i] == (row, PreviewRecipient(dir, row.messageType, row.eventId, row.shiftId))
  {
    var listed := ListedJobs(rows, org, messageType, hideSent);
    out := [];
    for i := 0 to |listed|
      invariant |out| == i
      invariant forall k :: 0 <= k < i ==>
        out[k] == (listed[k], PreviewRecipient(dir, listed[k].messageType, listed[k].eventId, listed[k].shiftId))
    {
      var row := listed[i];
      out := out + [(row, PreviewRecipient(dir, row.messageType, row.eventId, row.shiftId))];
    }
  }
}
