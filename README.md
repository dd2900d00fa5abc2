# HOH booking bot — a verified model of its decision logic

HOH is a WhatsApp bot that books technical contacts and staff for events. It asks a contact to pick
a four-hour range and then a half-hour slot with interactive buttons, sends reminders before each
event and shift, plans staff shifts for a month, and imports the event calendar from a
spreadsheet. This Dafny project models the logic behind those flows and proves what it promises:

- **Scheduled messages.** `JobBuilder` reconciles the job table (INIT and TECH_REMINDER per event,
  SHIFT_REMINDER per shift). It creates, updates, blocks or unblocks jobs and never touches a
  job that was already sent or failed. `TimeUtils` computes the send time: days before, then
  "tomorrow if already past", then, for INIT only, the Friday/Saturday-to-Sunday rule.
  `Phone` is the Israeli normaliser to E.164 form (ITU-T Recommendation E.164, `+972…`).
- **Reminder dispatch.** `SchedulerRun` selects due shifts and runs the counting loop with
  per-shift failure isolation. `SchedulerRouter` holds the API's decisions: the recipient
  preview, the send-now gate, the settings update and the job list.
- **The conversation guard.** `Conversation` is the state machine keyed by `expected_input` and
  `last_prompt_key`. `Inbound` reads contact shares, phone numbers in free text and minimal
  vCards (RFC 6350, sections 6.2.1, 6.2.2 and 6.4.1). `Actions` is the button-identifier
  grammar. `Ranges` and `Slots` are the fixed ranges and half-hour slots.
- **Shift planning.** `ShiftGenerator` covers slot splitting, the shift predicates, the hard
  constraints, greedy assignment and the per-slot explanation (each rejected employee's reasons
  and the candidate count). `RecurringAvailability` covers rule expansion, precedence of
  manual entries and conflict detection. `ShiftOrganizer` covers the month view and the save
  reconciliation.
- **Calendar import.** `ExcelParser` covers header detection and cell parsing. `CalendarImport`
  covers validation, duplicates, staging and commit.
- **Small helpers.** `DeliveryStatus`, `Vault`, `Sheets`, `Twilio`, `InternalAuth` (the bearer
  token of RFC 6750, section 2.1) and `Diagnostics` (the summary and the recommendations).

Shared modules: `Wrappers` (Option, Result), `Text` (Python's string operations over
`seq<char>`), `Clock` (local wall-clock instants in microseconds, dates as day numbers),
`Seqs` (searches and filters) and `Sorting` (ORDER BY as a sorted permutation).

Where the source changes state in place, the model does too. The job store, the conversation
store, the worksheet and the shift table are classes whose methods modify their fields. The
loops of `run_once`, `mark_success`, `choose_target_for_event`, the sheet deletions and
`save_shifts` are methods with loop invariants, each proved against a specification function.

The INIT recipient is modelled as written. The job builder validates the producer's phone
(app/services/scheduler_job_builder.py:113-118), while the preview and the sender prefer the
technical contact (app/routers/scheduler.py:270-294). `SchedulerRouter.InitPreviewIgnoresProducer`
states the difference.

## Model

| member | source | states |
|---|---|---|
| Phone.Clean | app/utils/phone.py:20-22 | the cleaned value holds no parenthesis, whitespace character or dash |
| Phone.Subscriber | app/utils/phone.py:27-31 | a national number's subscriber part is its last nine characters |
| Phone.NormalizeIL | app/utils/phone.py:17-33 | empty input comes back unchanged; a cleaned ten-character number starting with '0', or nine-character number starting with '5', becomes "+972" followed by the nine subscriber characters; every other value comes back cleaned (a leading '+' included); the result never holds a separator |
| Phone.PlusKept | app/utils/phone.py:24-25 | a cleaned value starting with '+' is returned as it is |
| Phone.CleanClean | app/utils/phone.py:20-22 | cleaning is a no-op on a value that is already clean |
| Phone.NormalizeIdempotent | app/utils/phone.py:17-33 | normalising a normalised number changes nothing (for input without ':') |
| Actions.PatternFor | app/utils/actions.py:20-30 | each action kind has its own anchored pattern of literals and digit groups |
| Actions.DigitRun | app/utils/actions.py:20-30 | a greedy `\d+` consumes exactly the leading run of digits |
| Actions.MatchGroups | app/utils/actions.py:35 | a successful full match yields one non-empty digit group per literal, and the literals and groups spell out the input |
| Actions.MatchRender | app/utils/actions.py:35 | the matcher is complete: any text spelled by the literals and digit groups matches and gives those groups back |
| Actions.GroupValues | app/utils/actions.py:40-55 | each group is read as its decimal value |
| Actions.PatternIndex | app/utils/actions.py:20-30 | every kind's pattern sits in the pattern list |
| Actions.GroupIds | app/utils/actions.py:39-56 | an action's ids, in the order its pattern's groups carry them |
| Actions.FirstMatchAt | app/utils/actions.py:34-37 | when the text starts with pattern i's leading literal and no earlier leading literal agrees with it, trying the patterns in order gives what trying them from pattern i on gives |
| Actions.SearchFinds | app/utils/actions.py:34-37 | when pattern i matches and no earlier pattern's leading literal agrees with its own, the search returns the dictionary built from pattern i's groups |
| Actions.LeadLiteralsDiffer | app/utils/actions.py:20-30 | the leading literals of the nine patterns pairwise disagree, so at most one pattern matches |
| Actions.RenderEndsInDigit | app/utils/actions.py:20-30 | a rendered identifier ends in a digit, so `$` never drops a final newline from it |
| Actions.FormatRender | app/utils/actions.py:20-30 | an action's identifier is its pattern rendered with the decimal texts of its ids |
| Actions.BuildIds | app/utils/actions.py:39-56 | the dictionary built from an action's own ids is that action |
| Actions.ParseRender | app/utils/actions.py:33-56 | any text a pattern spells with digit groups parses by that pattern, to the groups' values |
| Actions.ParseFormat | app/utils/actions.py:33-56 | formatting an action and parsing its identifier gives the same action back |
| Actions.FirstMatchSound | app/utils/actions.py:34-37 | whatever the search returns came from a pattern of the list that matched |
| Actions.BuildFields | app/utils/actions.py:39-56 | the dictionary has a range id exactly when the pattern fills one, and likewise a half index |
| Actions.ParseActionId | app/utils/actions.py:33-58 | a parsed action is well formed (a range id exactly for RANGE and HALF, a half index exactly for HALF) and the identifier, a final newline aside, matches its kind's pattern in full; `ParseFormat` and `ParseRender` give the inverse direction |
| Actions.ParseSound | app/utils/actions.py:33-58 | every parsed action is well formed (RANGE and HALF carry a range id, only HALF a half index) and its kind's pattern matches the input |
| Actions.KindFields | app/utils/actions.py:39-56 | RANGE and HALF carry a range id; only HALF carries a half index |
| DeliveryStatus.MappingCanonical | app/utils/delivery_status.py:10-40 | every table entry maps to a canonical status, and each canonical status maps to itself |
| DeliveryStatus.Classify | app/utils/delivery_status.py:42-51 | a listed key maps through the table; an unlisted one is failed when it mentions "fail", "error" or "cancel", else sent; the result is always canonical |
| DeliveryStatus.Normalize | app/utils/delivery_status.py:13-51 | a missing or empty status is queued, and the result is always one of queued, sent, delivered, failed |
| DeliveryStatus.CanonicalFixed | app/utils/delivery_status.py:25-43 | a canonical value is its own stripped lower-case form and classifies to itself |
| DeliveryStatus.NormalizeIdempotent | app/utils/delivery_status.py:13-51 | normalising a normalised status returns it unchanged |
| DeliveryStatus.CaseAndSpaceInsensitive | app/utils/delivery_status.py:25 | a status and its stripped lower-case form normalise alike |
| DeliveryStatus.Unlisted | app/utils/delivery_status.py:45-51 | an unlisted status is failed when it mentions a failure keyword, else sent |
| DeliveryStatus.BlankIsSent | app/utils/delivery_status.py:22-51 | a whitespace-only status is truthy, so it falls through to sent rather than queued |
| DeliveryStatus.Listed | app/utils/delivery_status.py:25-43 | a listed status, in any case and with any surrounding whitespace, maps through the table |
| TimeUtils.ClockField | app/time_utils.py:77-83 | a `%H`/`%M`/`%S` field accepts one or two digits whose value lies below the field's limit |
| TimeUtils.ParseHMS | app/time_utils.py:76-79 | a string read as "HH:MM:SS" gives a whole-second time of day |
| TimeUtils.ParseHM | app/time_utils.py:81-85 | a string read as "HH:MM" gives a whole-minute time of day |
| TimeUtils.ParseClock | app/time_utils.py:75-85 | "HH:MM:SS" is tried first, then "HH:MM"; any result is a whole-second time |
| TimeUtils.ParseTime | app/time_utils.py:36-91 | None and blank strings give None; a time is returned as it is and a datetime gives its time part; a non-blank stripped string is ValueError exactly when neither "HH:MM:SS" nor "HH:MM" reads it, and otherwise gives the time those formats read (a whole-second time); any other type is TypeError |
| TimeUtils.ParseHMSParts | app/time_utils.py:75-79 | three valid fields around two ':' read as that hour, minute and second, and "HH:MM:SS" wins before "HH:MM" is tried |
| TimeUtils.ParseHMParts | app/time_utils.py:81-83 | two valid fields around one ':' read as that hour and minute |
| TimeUtils.MalformedIff | app/time_utils.py:69-85 | a non-blank string is ValueError exactly when its ':'-pieces are neither three accepted fields nor two |
| TimeUtils.SecondsOutOfRange | app/time_utils.py:75-85 | "HH:MM:SS" with seconds 60 to 99 is ValueError |
| TimeUtils.HourOutOfRange | app/time_utils.py:75-85 | "HH:MM" with hour 24 to 99 is ValueError |
| TimeUtils.LongHourIsMalformed | app/time_utils.py:75-85 | an hour of three or more digits is ValueError |
| TimeUtils.ParseTimeHHMM | app/time_utils.py:36-91 | a time rendered as "HH:MM" parses back to its hour and minute |
| TimeUtils.ParseTimeHHMMSS | app/time_utils.py:36-91 | a zero-padded "HH:MM:SS" parses back to that hour, minute and second |
| TimeUtils.ParseTimeClean | app/time_utils.py:70-85 | a non-blank string without surrounding whitespace is read by the two formats alone |
| TimeUtils.SendAt | app/time_utils.py:356-394 | the result lies at the fixed local time of day, is never earlier than now, is never a local Friday or Saturday under the weekend rule, and is the first candidate (date minus days_before) whenever that is not past and needs no weekend move |
| TimeUtils.NoRuleKeepsWeekend | app/time_utils.py:370 | without the weekend rule a future candidate is kept, whatever its weekday |
| TimeUtils.PastMovesToTomorrow | app/time_utils.py:363-367 | a past candidate becomes tomorrow's local date at the fixed time |
| TimeUtils.PastWithWeekendRule | app/time_utils.py:363-392 | under the weekend rule a past candidate becomes tomorrow at the fixed time, two days later still when tomorrow is a Friday and one day later when it is a Saturday |
| TimeUtils.WeekendToSunday | app/time_utils.py:370-392 | under the weekend rule a Friday moves two days and a Saturday one day ahead, and the result is never a Friday |
| TimeUtils.ComputeSendAt | app/time_utils.py:307-394 | the send time exists exactly when the fixed time parses to a time of day, and it is then the send time `SendAt` gives for that parsed time: at that time, not before now, and off the weekend under the rule |
| TimeUtils.EnsureAware | app/time_utils.py:200-233 | None stays None; an aware datetime is returned unchanged; a naive one gets UTC, or Israel time when not assuming UTC, with the same wall-clock reading |
| TimeUtils.EnsureAwareIdempotent | app/time_utils.py:200-233 | making a datetime aware twice equals doing it once |
| Ranges.RangeBounds | app/flows/ranges.py:20-27 | exactly the ids 1..6 have a range, and range id covers the hours 4(id-1) to 4id |
| Ranges.RangesTileDay | app/hoh_service.py:53-60 | consecutive ranges meet, and together they cover 00-24 |
| Ranges.Label | app/hoh_service.py:67 | a label reads the range's start and end hours as two digits each, around an en dash |
| Ranges.RangeLabels | app/hoh_service.py:63-68 | six labels, one per range in range order |
| Ranges.SlotTimeParts | app/hoh_service.py:76-80 | slot i falls at hour start + i/2, minute 0 for even and 30 for odd i |
| Ranges.HalfHourSlots | app/hoh_service.py:71-80 | an unknown range id is an error; a known one gives exactly eight slots |
| Ranges.SlotDigits | app/flows/ranges.py:47-52 | slot i of a range reads "HH:MM" with hour 4(id-1) + i/2 and minute 0 or 30, inside the range |
| Ranges.OrOne | app/hoh_service.py:1637-1638 | a missing or zero id counts as 1 |
| Ranges.HalfSlot | app/hoh_service.py:1636-1640 | an unknown range is an error; otherwise the result is one of the range's slots: slot half_index-1 when the index lies in 1..8, else the first |
| Ranges.ItemKey | app/flows/ranges.py:37-62 | the variable name of item i is the prefix followed by i+1 |
| Ranges.ItemKeysDistinct | app/flows/ranges.py:37-62 | different positions give different variable names |
| Ranges.RangesVariables | app/flows/ranges.py:36-38 | "range1".."range6" hold the six labels in order, followed by an empty "event_id" |
| Ranges.HalvesVariables | app/flows/ranges.py:42-63 | an unknown range is an error (KeyError); otherwise "h1".."h8" hold the range's slots, followed by an empty "event_id" and the range id |
| Ranges.HalvesKeysDistinct | app/flows/ranges.py:62-63 | the ten variable names differ, so no entry overwrites another |
| Slots.SlotCount | app/flows/slots.py:13-15 | the number of half-hour steps from start that do not pass end: the last one lies within end and the next one beyond it; zero when start is after end |
| Slots.GenerateHalfHourSlots | app/flows/slots.py:5-16 | slot i is start + 30i minutes rendered "HH:MM", every slot lies within end, and the count is SlotCount |
| Slots.SlotCountUnique | app/flows/slots.py:13-15 | the count is the only one with that property |
| Slots.DayPartOf | app/flows/slots.py:26-27 | morning, afternoon and night are recognised; every other key falls back to noon |
| Slots.PartBounds | app/flows/slots.py:18-23 | every part of the day starts before it ends |
| Slots.SlotsForRange | app/flows/slots.py:25-29 | the first at most ten half-hour slots of the named part (noon when unknown) |
| Slots.PartSlotCounts | app/flows/slots.py:18-29 | morning has 13 slots (cut to ten), noon and afternoon 9, night 8 |
| JobBuilder.IntString | app/services/scheduler_job_builder.py:48 | `str(i)` of an integer is non-empty and holds no underscore |
| JobBuilder.JobId | app/services/scheduler_job_builder.py:32-48 | a job id starts with "org_" and ends with the given unique suffix |
| JobBuilder.IntStringInjective | app/services/scheduler_job_builder.py:48 | distinct integers are rendered as distinct texts in the id |
| JobBuilder.JobIdInjective | app/services/scheduler_job_builder.py:32-48 | with the same suffix, equal job ids come from equal keys: the org, entity type, entity id and message type are recoverable from the id |
| JobBuilder.ValidatePhone | app/services/scheduler_job_builder.py:51-72 | None or empty is invalid; otherwise the number is valid exactly when the normalised form keeps at least ten characters after deleting '+' and '-', and a valid result carries that normalised form |
| JobBuilder.NationalValid | app/services/scheduler_job_builder.py:64-68 | a national number of digits is valid and is returned in "+972" form |
| JobBuilder.ShortInvalid | app/services/scheduler_job_builder.py:66-69 | a cleaned value shorter than ten characters that is not a national number is invalid |
| JobBuilder.ReconcileJob | app/services/scheduler_job_builder.py:150-209 | a sent or failed job is left alone ("already_sent_or_failed"); otherwise the job gets the new send time and is blocked (with the error text) exactly when the phone is invalid; a blocked job with a valid phone is scheduled again with no error, any other status is kept; a missing job is created, scheduled or blocked; no other job changes |
| JobBuilder.ReconcileIdempotent | app/services/scheduler_job_builder.py:150-209 | reconciling twice with the same inputs leaves the store as reconciling once |
| JobBuilder.ReconcileKeepsTerminal | app/services/scheduler_job_builder.py:154-181 | every sent or failed job is still there, unchanged, after a reconciliation |
| JobBuilder.JobStore.constructor | app/services/scheduler_job_builder.py:20 | the job table starts empty |
| JobBuilder.JobStore.Find | app/services/scheduler_job_builder.py:133 | a job is found exactly when its key is in the table, and it is that row |
| JobBuilder.JobStore.Create | app/services/scheduler_job_builder.py:194-201 | the new job is scheduled with its send time and no error, and nothing else changes |
| JobBuilder.JobStore.UpdateSendAt | app/services/scheduler_job_builder.py:158 | only the job's send time changes |
| JobBuilder.JobStore.UpdateStatus | app/services/scheduler_job_builder.py:162-173 | only the job's status and last error change |
| JobBuilder.JobStore.Reconcile | app/services/scheduler_job_builder.py:150-209 | the table and outcome after the create/update calls are those of ReconcileJob |
| JobBuilder.SendTimeSetting | app/services/scheduler_job_builder.py:137-139 | a missing or empty send time falls back to the default, a datetime is rendered "HH:MM", any other value is passed on (also lines 219-221 and 337-339) |
| JobBuilder.TypeStep | app/services/scheduler_job_builder.py:132-212 | a disabled type reports "disabled" and changes nothing; an enabled one raises exactly when the send time cannot be computed, and otherwise reconciles its job at that send time, which is never before now and is off the weekend under the weekend rule; no other job changes |
| JobBuilder.BuildType | app/services/scheduler_job_builder.py:132-212 | one message-type block performed on the store ends in the state and result TypeStep gives |
| JobBuilder.BuildEvent | app/services/scheduler_job_builder.py:75-295 | the result is "event not found" exactly for an unknown event and "event date missing" exactly for a known event without a date |
| JobBuilder.BuildForEvent | app/services/scheduler_job_builder.py:75-295 | an unknown or undated event is an error; otherwise the INIT block (weekend rule on, producer phone) then the TECH_REMINDER block (rule off, technical phone) run, and the store and result are those BuildEvent gives |
| JobBuilder.EventErrorsChangeNothing | app/services/scheduler_job_builder.py:99-107 | an unknown event or one without a date changes no job and reports one of the two errors |
| JobBuilder.EventFrame | app/services/scheduler_job_builder.py:150-155 | an event build changes only that event's INIT and TECH_REMINDER jobs, and never a sent or failed one (also lines 232-238) |
| JobBuilder.DisabledTypeUntouched | app/services/scheduler_job_builder.py:210-214 | a disabled type reports "disabled" and its job, if any, is untouched (also lines 132 and 292-293) |
| JobBuilder.InitAvoidsWeekend | app/services/scheduler_job_builder.py:141-147 | a built, non-terminal INIT job is never sent before now nor on a Friday or Saturday |
| JobBuilder.Count | app/services/scheduler_job_builder.py:400-430 | one outcome adds at most one to the created, updated and blocked counters |
| JobBuilder.ShiftStepOk | app/services/scheduler_job_builder.py:341-430 | a shift with a call time and a computable send time is one reconciliation of its SHIFT_REMINDER job at that time, counted by its outcome |
| JobBuilder.Timed | app/services/scheduler_job_builder.py:344-348 | the shifts with a call time are at most all the shifts |
| JobBuilder.ShiftLoop | app/services/scheduler_job_builder.py:341-438 | created + updated + blocked is at most the number of shifts with a call time, so at most processed_count |
| JobBuilder.ShiftLoopFrame | app/services/scheduler_job_builder.py:376-379 | the shift loop never touches a sent or failed job, nor any job other than this org's shift reminders |
| JobBuilder.BuildForShifts | app/services/scheduler_job_builder.py:298-438 | disabled reminders give processed_count 0 and "disabled" with the store unchanged; otherwise the loop over all shifts leaves the store and counters ShiftLoop gives, and processed_count is the number of shifts |
| JobBuilder.ShiftLoopNext | app/services/scheduler_job_builder.py:341-430 | the loop over one more shift is one more step unless it has already raised |
| JobBuilder.ShiftLoopStops | app/services/scheduler_job_builder.py:341-430 | once an exception escapes, later shifts change nothing |
| Sorting.InsertBy | app/services/shift_generator.py:342 | inserting into a sorted sequence keeps it sorted and adds exactly that element |
| Sorting.SortBy | app/services/scheduler.py:53 | `ORDER BY`: the result is sorted by the key and is a permutation of the input |
| Sorting.SortStable | app/services/shift_generator.py:342 | `list.sort` is stable: for every key, the elements with that key come out in their input order |
| Sorting.TiesKeepOrder | app/services/shift_generator.py:342 | two elements with equal keys, given in that order, are sorted to that same order |
| Sorting.InsertWithKey | app/services/shift_generator.py:342 | insertion puts the new element in front of the elements of the sorted sequence that share its key, and drops or adds nothing else with that key |
| Sorting.SortMembers | app/services/scheduler.py:53 | sorting keeps exactly the elements it was given |
| SchedulerRun.DueRows | app/services/scheduler.py:49-52 | exactly the rows whose reminder is unsent, whose call time lies in (now, now + hours] and which pass the optional org filter |
| SchedulerRun.FindDue | app/services/scheduler.py:21-65 | the due rows, ordered by call time ascending, each due row once |
| SchedulerRun.CountsPartition | app/services/scheduler.py:109-132 | every due shift lands in exactly one of sent, skipped and failed |
| SchedulerRun.ProcessDueSpec | app/services/scheduler.py:88-151 | an empty due list returns all zeros; a completed run has sent + skipped + failed = due_found; a run that raises has failed = due_found |
| SchedulerRun.ProcessDue | app/services/scheduler.py:101-149 | the counter loop (no phone or ValueError: skipped; other exception: failed; else sent) ends in the counters ProcessDueSpec gives |
| SchedulerRun.RunOnce | app/services/scheduler.py:68-151 | a run over the due shifts found in the table ends in the counters ProcessDueSpec gives |
| SchedulerRun.FailureIsolated | app/services/scheduler.py:113-132 | one shift's exception changes only that shift's count: later shifts are still processed |
| SchedulerRouter.ContactOf | app/routers/scheduler.py:271-275 | a contact is found exactly when its id is set (non-zero) and the contact exists |
| SchedulerRouter.PreviewRecipient | app/routers/scheduler.py:247-349 | INIT goes to the technical contact when it has a non-blank phone, else to the producer when it does, else fails with "Missing phone number"; TECH_REMINDER resolves exactly when the technical contact has a non-blank phone; SHIFT_REMINDER resolves exactly when the shift's assigned employee exists with a non-blank phone; any other type fails; a resolved phone is never blank |
| SchedulerRouter.TechReminderErrors | app/routers/scheduler.py:298-315 | TECH_REMINDER reports a missing event, an unassigned contact, an unknown contact and a missing phone with distinct errors |
| SchedulerRouter.ShiftReminderErrors | app/routers/scheduler.py:322-342 | SHIFT_REMINDER reports a missing shift, an unassigned employee, an unknown employee and a missing phone with distinct errors |
| SchedulerRouter.InitPreviewIgnoresProducer | app/routers/scheduler.py:270-294 | with a reachable technical contact and no producer, the INIT preview names the technical contact, while the builder's producer-phone check fails (scheduler_job_builder.py validates the producer) |
| SchedulerRouter.ResultMessage | app/routers/scheduler.py:193-204 | only the result "sent" is a success |
| SchedulerRouter.SendNow | app/routers/scheduler.py:158-208 | a missing job is 404, another org's job 403, a sent or failed job 400, all before processing; an exception from processing is 500 with its message; otherwise a response, successful exactly when the result is "sent" |
| SchedulerRouter.Pick | app/routers/scheduler.py:231-238 | a supplied flag replaces the current one; an absent one keeps it |
| SchedulerRouter.UpdateSettings | app/routers/scheduler.py:222-244 | each flag takes the supplied value or keeps the current one, and no other setting changes |
| SchedulerRouter.UpdateSettingsLaws | app/routers/scheduler.py:229-241 | an empty update changes nothing, and applying an update twice equals applying it once |
| SchedulerRouter.ListFilter | app/routers/scheduler.py:77-89 | exactly the org's rows, of the given message type when one is given, and not sent when hide_sent is set, each kept as often as it is stored |
| SchedulerRouter.ListedJobs | app/routers/scheduler.py:64-91 | the filtered rows, each as often as the filter keeps it (a permutation of them), ordered by send time ascending |
| SchedulerRouter.ListSchedulerJobs | app/routers/scheduler.py:41-127 | one entry per listed row, in order, each paired with its recipient preview |
| Inbound.FirstSet | app/hoh_service.py:1724 | a falsy first field falls back to the second (`payload.get(a) or payload.get(b)`) |
| Inbound.MediaCount | app/hoh_service.py:1723-1726 | with neither media-count field set the count is 0 |
| Inbound.AnyVcardMedia | app/hoh_service.py:1728-1741 | true exactly when some media index below the count has a vCard content type or a `.vcf` file name |
| Inbound.IsContactShare | app/hoh_service.py:1713-1743 | an empty payload is never a share; otherwise a share exactly when the contact phone or WhatsApp id is set or some announced media item is a vCard |
| Inbound.PhoneFieldMakesShare | app/hoh_service.py:1719-1720 | setting the contact phone field to a non-empty value makes any payload a contact share, whatever else is added |
| Inbound.RunLength | app/hoh_service.py:1862 | the longest prefix of digits, spaces, parentheses and hyphens: everything before it is in the class and the next character is not |
| Inbound.MatchLength | app/hoh_service.py:1862-1863 | a match of `[+]?[\d][\d\s()\-]{7,}` is either absent or at least 8 characters, starts with a digit or '+' and a digit, and continues in the class |
| Inbound.FindAll | app/hoh_service.py:1863 | every match found has the pattern's shape, and a text without digits has no match |
| Inbound.KeepPhones | app/hoh_service.py:1865-1871 | keeps at most as many numbers as matches, each normalised to start with '+' and have at least 10 characters |
| Inbound.ExtractedPhones | app/hoh_service.py:1849-1871 | every extracted number starts with '+' and has at least 10 characters |
| Inbound.NoDigitsNoPhones | app/hoh_service.py:1856-1863 | a text without digits (including the empty text) yields no numbers |
| Inbound.ExtractPhoneNumbers | app/hoh_service.py:1849-1871 | the loop over the matches returns exactly the extracted numbers |
| Inbound.KeepIfPhone | app/hoh_service.py:1866-1869 | one loop step appends the normalised match exactly when it starts with '+' and has at least 10 characters |
| Inbound.PhoneMeansWord | app/hoh_service.py:1531 | a text from which a number was extracted has at least one whitespace-separated word, so a name can be taken from it |
| Inbound.FirstBreak | app/hoh_service.py:1996 | the first line boundary of `splitlines()`, with no boundary before it |
| Inbound.AfterColon | app/hoh_service.py:2002 | `split(":", 1)[-1]`: the suffix after the first colon, or the whole line without one |
| Inbound.PhoneFrom | app/hoh_service.py:2008-2009 | a line offers a phone exactly when its upper-cased text mentions TEL |
| Inbound.ReadLines | app/hoh_service.py:1996-1998 | each line is stripped and read on its own, one reading per line |
| Inbound.VcardStep | app/hoh_service.py:2000-2009 | a phone or name once found is kept; while empty, a TEL line sets the phone and an FN or N line sets the name; a line without TEL leaves the phone and a line without FN or N leaves the name |
| Inbound.FoundIsFinal | app/hoh_service.py:2011-2012 | once both phone and name are found, further lines change nothing (the early `break`) |
| Inbound.FoundStops | app/hoh_service.py:2011-2012 | stopping at the first line where both are found gives the same result as reading all lines |
| Inbound.NoTelNoPhone | app/hoh_service.py:2008-2009 | with no TEL line the phone stays empty |
| Inbound.FirstTelWins | app/hoh_service.py:2008-2009 | the phone is the value of the first TEL line when that value is non-empty |
| Inbound.ParseVcard | app/hoh_service.py:1990-2014 | a vCard text none of whose lines mentions TEL yields an empty phone, and one none of whose stripped lines starts with FN: or N: (in any case) yields an empty name |
| Inbound.NoNameLineNoName | app/hoh_service.py:2000-2006 | with no line offering a non-empty FN or N value the name stays empty |
| Inbound.FirstNameWins | app/hoh_service.py:2000-2006 | the name is the value of the first line offering a non-empty FN or N value; later name lines cannot change it |
| Inbound.ParseVcardContact | app/hoh_service.py:1990-2014 | returns the phone and name of the line-by-line reading of the vCard, whose phone half is fixed by FirstTelWins and NoTelNoPhone and whose name half by FirstNameWins and NoNameLineNoName |
| Inbound.ScanVcardLines | app/hoh_service.py:1996-2014 | the loop with its early exit computes the same pair as the fold over all lines |
| Conversation.ExpectedInput | app/hoh_service.py:1461 | a conversation dict without the key waits for an interactive reply; a NULL column (a row `create_conversation` inserted without it, read back whole) reads as None; otherwise what was recorded |
| Conversation.ConversationStore.UpdateState | app/hoh_service.py:1048-1055 | overwrites the two state columns of that one conversation and leaves every other conversation as it was |
| Conversation.ConversationStore.RecordPrompt | app/hoh_service.py:2305-2312 | each sender (INIT 1048-1055, ranges 1110-1117, halves 1184-1191, confirmation 1261-1268, not-sure 2235-2242, contact request 2305-2312) records its own state for that conversation only, and afterwards the conversation always has an expected input |
| Conversation.SyntheticContact | app/hoh_service.py:1589-1591 | the rewritten payload carries the given phone and name (the guard passes the first word of the text) in the contact fields, and keeps every other field |
| Conversation.Guard | app/hoh_service.py:1449-1595 | a paused conversation ignores every message and only it does; text while a button is expected is refused, with the confirm-or-back hint after the confirmation prompt and the buttons hint otherwise, and with no reply when the contact is unknown; while a contact is required a share passes unchanged and text is refused exactly when it holds zero or several phones, and holding exactly one it passes as a synthetic share; a NULL state lets everything through unchanged; only text is refused, and only that case rewrites the payload |
| Conversation.SinglePhoneIsShare | app/hoh_service.py:1583-1591 | the payload rewritten from a single phone is itself a contact share |
| Conversation.PausedIgnoresAll | app/hoh_service.py:2235-2242 | after the not-sure prompt every later message is ignored |
| Conversation.ButtonPromptsGuard | app/hoh_service.py:1488-1519 | after a button prompt a text reply gets the matching hint and any other message goes on unchanged |
| Conversation.ContactPromptGuard | app/hoh_service.py:1521-1561 | after the contact request a share goes on unchanged and a text without digits is refused with the instructions |
| Conversation.FreshIsInteractive | app/hoh_service.py:1461 | a conversation dict without the `expected_input` key is guarded exactly like one waiting for a button |
| Conversation.NullStatePassesAll | app/hoh_service.py:1461-1595 | a stored conversation whose `expected_input` column is NULL matches none of the guard's rules, so every message, a text reply included, goes on unchanged |
| Conversation.RunGuard | app/hoh_service.py:1449-1595 | the handler goes on exactly when the guard lets the message through, with the payload it yields; a refusal sends the guard's reply; when it stops the payload is unchanged |
| ShiftGenerator.Window | app/services/shift_generator.py:44-75 | an event without date, load-in or show time has no window; otherwise it runs from load-in to five hours after the show, rolled to the next day when that is not later, so it is non-empty and shorter than a day plus five hours |
| ShiftGenerator.SplitShape | app/services/shift_generator.py:86-105 | the splitting loop tiles its interval with slots of the event, every slot but the last eight hours long, and a split interval ends with a slot longer than four hours |
| ShiftGenerator.EventSlotsShape | app/services/shift_generator.py:33-107 | no window gives no slots; otherwise the slots tile the window, a window of at most twelve hours is one slot, and a longer one is at least two slots whose last is longer than four hours |
| ShiftGenerator.EventSlots | app/services/shift_generator.py:33-107 | an event yields no slot exactly when it has no window, and every slot it yields carries its id |
| ShiftGenerator.EventSlotsFit | app/services/shift_generator.py:78-105 | every slot of an event is non-empty and at most twelve hours long |
| ShiftGenerator.CreateSlotsForEvent | app/services/shift_generator.py:33-107 | the loop produces exactly the event's slots |
| ShiftGenerator.MinuteOf | app/services/shift_generator.py:114 | the minute of an instant lies in 0..59 |
| ShiftGenerator.IsWeekendShift | app/services/shift_generator.py:110-121 | a weekend start is exactly a Friday start at 15:00 or later or any Saturday start (the 23:59 bound excludes nothing) |
| ShiftGenerator.IsNightShift | app/services/shift_generator.py:124-145 | a shift is a night shift exactly when its start hour or end hour lies in 22:00-06:00 |
| ShiftGenerator.ShiftStart | app/services/shift_generator.py:172-177 | a shift has a start unless both its start and its call time are missing |
| ShiftGenerator.HasAvailabilityConflict | app/services/shift_generator.py:236-256 | a conflict exists exactly when some block starts before the slot ends and ends after it starts |
| ShiftGenerator.HasSufficientRest | app/services/shift_generator.py:200-233 | rest is insufficient exactly when some shift with a start ends (eight hours after its start when no end is stored) less than ten hours before the slot and less than twelve hours after it |
| ShiftGenerator.ViolatesNightToMorning | app/services/shift_generator.py:153-197 | the night-to-morning rule bites exactly for a morning slot after a night shift on the previous day, and never for another slot |
| ShiftGenerator.WorkedYesterday | app/services/shift_generator.py:259-277 | true exactly when some shift started on the previous date |
| ShiftGenerator.OverlapIff | app/services/shift_generator.py:389-411 | an overlap exists exactly when some held shift starts before the slot ends and ends after it starts |
| ShiftGenerator.Score | app/services/shift_generator.py:418-432 | the integer part of the score never exceeds 100 less five per shift held; having worked the day before leaves at most minus five per shift; on a weekday slot the full 100 less five per shift is reached exactly by an employee who did not work the day before |
| ShiftGenerator.CountWeekendShifts | app/services/shift_generator.py:280-296 | the loop counts the weekend starts, which are never more than the shifts |
| ShiftGenerator.CandidatesIff | app/services/shift_generator.py:368-441 | the candidates are exactly the employees meeting every hard constraint, each with its score |
| ShiftGenerator.Best | app/services/shift_generator.py:444-446 | no best exactly when there are no candidates; otherwise a candidate whose score no other candidate exceeds |
| ShiftGenerator.AssignSlot | app/services/shift_generator.py:348-466 | the outcome is for the given slot and is "too long" exactly for a slot over twelve hours; the shift map changes only when someone is suggested, and then that employee holds one shift more |
| ShiftGenerator.AssignSlotSpec | app/services/shift_generator.py:348-466 | a slot over twelve hours is refused and only such a slot; it is unfilled exactly when no employee is eligible; a suggested employee is active, eligible and scores highest among the eligible, and the slot is appended to that employee's shifts only; otherwise the shifts are unchanged |
| ShiftGenerator.Rejections | app/services/shift_generator.py:367-412 | an employee has no rejection reason exactly when it meets every hard constraint; an inactive employee has the single reason "not active" |
| ShiftGenerator.RejectionsExact | app/services/shift_generator.py:375-409 | an active employee's reasons name exactly the checks it fails (unavailable, too little rest, night to morning, already assigned) and never "not active" |
| ShiftGenerator.RejectionsOrdered | app/services/shift_generator.py:375-409 | the reasons appear in the order the checks run, none twice |
| ShiftGenerator.RejectionMap | app/services/shift_generator.py:364-412 | the rejections dictionary holds only ids of evaluated employees, each with a non-empty list of reasons |
| ShiftGenerator.ActiveRejectedIff | app/services/shift_generator.py:367-441 | an active employee has no rejection reason exactly when it is among the slot's candidates with its score |
| ShiftGenerator.RejectionOf | app/services/shift_generator.py:364-412 | with distinct employee ids, an employee has an entry in the rejections exactly when it has reasons, and the entry is its reasons |
| ShiftGenerator.RejectionsOfEach | app/services/shift_generator.py:364-412 | with distinct employee ids, every employee is in the rejections exactly when it fails a hard constraint or is inactive, with its own reasons |
| ShiftGenerator.RejectionsPartition | app/services/shift_generator.py:363-441 | with distinct employee ids, the rejected employees and the candidates together are all the employees evaluated |
| ShiftGenerator.Explain | app/services/shift_generator.py:353-361 | a slot's explanation is the "slot too long" error exactly for a slot over twelve hours; otherwise it never counts more candidates than employees |
| ShiftGenerator.ExplainAgrees | app/services/shift_generator.py:353-469 | a slot's explanation agrees with its decision: the "slot too long" error exactly when the slot is refused, and no candidate exactly when it is left unfilled |
| ShiftGenerator.Explanations | app/services/shift_generator.py:343-469 | one explanation per slot |
| ShiftGenerator.ExplanationsAgree | app/services/shift_generator.py:343-469 | slot i is explained against the shifts left by the slots before it, and its explanation agrees with its assignment: too long exactly for a refused slot, no candidate exactly for an unfilled one |
| ShiftGenerator.AssignAll | app/services/shift_generator.py:348-471 | one assignment per slot |
| ShiftGenerator.AssignAllPrefix | app/services/shift_generator.py:348-461 | the decision for each slot is taken with the shifts booked for all earlier slots |
| ShiftGenerator.AssignAllGrows | app/services/shift_generator.py:454-460 | assignments only add shifts: each employee's earlier shifts stay, in order, at the front |
| ShiftGenerator.AllSlotsFit | app/services/shift_generator.py:335-339 | every slot gathered from the events is non-empty and at most twelve hours long |
| ShiftGenerator.InitialMapSpec | app/services/shift_generator.py:319-325 | every employee has an entry, holding exactly that employee's existing shifts |
| ShiftGenerator.StatsMapBound | app/services/shift_generator.py:474-503 | no employee has more weekend shifts than shifts in the month |
| ShiftGenerator.Generate | app/services/shift_generator.py:299-509 | with no employees the run succeeds with empty stats; it fails with an invalid month exactly when there are employees and the month is invalid; a successful run has one assignment per slot of the events and one explanation per assignment |
| ShiftGenerator.GenerateExplains | app/services/shift_generator.py:343-469 | in a successful run every slot's explanation is an evaluation (no slot is too long), and it counts no candidate exactly when the slot is left unfilled |
| ShiftGenerator.SlotsOf | app/services/shift_generator.py:448-466 | one slot per assignment |
| ShiftGenerator.AssignAllSlots | app/services/shift_generator.py:348-466 | the loop decides each slot once, in order, and refuses none when every slot fits in twelve hours |
| ShiftGenerator.GenerateSpec | app/services/shift_generator.py:299-509 | a run decides every slot of every event exactly once, in start order with slots of equal start kept in the order the events produced them (the stable `sort` at line 342), never meets a slot that is too long, and reports no employee with more weekend shifts than shifts; it fails only when there are employees to report on |
| ShiftGenerator.CollectReasons | app/services/shift_generator.py:368-412 | the checks collect exactly the employee's rejection reasons |
| ShiftGenerator.ScoreCandidate | app/services/shift_generator.py:418-432 | the score terms add up to the employee's ranking score |
| ShiftGenerator.EvaluateEmployees | app/services/shift_generator.py:363-441 | the employee loop collects exactly the candidates and the rejections dictionary of the slot |
| ShiftGenerator.BuildShiftMap | app/services/shift_generator.py:319-325 | the loop builds the initial shift map |
| ShiftGenerator.CollectSlots | app/services/shift_generator.py:335-339 | the loop gathers the slots of all events in event order |
| ShiftGenerator.AssignSlots | app/services/shift_generator.py:343-469 | the assignment loop yields the assignments and final shift map of the fold, and the explanation of every slot in order |
| ShiftGenerator.ComputeStats | app/services/shift_generator.py:474-503 | fails when some employee holds a shift with neither start nor call time, and otherwise yields each employee's month totals |
| ShiftGenerator.GenerateShifts | app/services/shift_generator.py:299-509 | the whole run computes the generation of the specification function |
| RecurringAvailability.SundayIndex | app/services/recurring_availability.py:141-143 | the Sunday-based weekday index lies in 0..6 |
| RecurringAvailability.ExpandWeekly | app/services/recurring_availability.py:118-148 | fails (year overflow) exactly when there are weekdays to look for and the walk reaches 9999-12-31, whose next day Python's `date` cannot hold; otherwise yields increasing dates, exactly the dates in the month, from the start date and up to the until date, whose weekday is listed and which are not exceptions |
| RecurringAvailability.ExpandBiweekly | app/services/recurring_availability.py:151-199 | fails exactly as the weekly walk does; otherwise as weekly, restricted to dates an even number of weeks from the anchor |
| RecurringAvailability.DailyOverflowOnlyAtEnd | app/services/recurring_availability.py:134-146 | the daily walk of a weekly or biweekly rule can raise only in December 9999 |
| RecurringAvailability.ExpandMonthly | app/services/recurring_availability.py:203-245 | no day of month gives nothing; the walk fails only where Python's `date` would pass year 9999; otherwise at most one date, exactly the day of this month when it exists, is in range and is not an exception |
| RecurringAvailability.OccurrenceOn | app/services/recurring_availability.py:87-115 | an occurrence lies on its date and carries its rule; an all-day one spans 00:00 to the last microsecond |
| RecurringAvailability.Dates | app/services/recurring_availability.py:87 | one date per occurrence |
| RecurringAvailability.ToOccurrences | app/services/recurring_availability.py:87-117 | without times a timed rule yields nothing; otherwise one occurrence per date, in order |
| RecurringAvailability.ExpandRuleForMonth | app/services/recurring_availability.py:18-117 | an invalid month is an error; a valid one fails (year overflow) exactly when the monthly walk would step into year 10000 or the weekly or biweekly walk would step past 9999-12-31; otherwise the occurrences are in increasing date order and their dates are exactly those the pattern gives, each built from the rule's times |
| RecurringAvailability.EarlyNothing | app/services/recurring_availability.py:66-67 | a rule starting after the month produces no date in it |
| RecurringAvailability.SurvivingIff | app/services/recurring_availability.py:279-284 | the surviving entries are exactly the rule occurrences on a date without a manual entry |
| RecurringAvailability.MergeUnavailability | app/services/recurring_availability.py:248-286 | every manual entry comes first and in order, followed by exactly the surviving rule occurrences |
| RecurringAvailability.EventWindow | app/services/recurring_availability.py:305-338 | the window starts on the event date at load-in, else the show time, else midnight, and ends at the end time, else four hours after the start when there is a show time and eight hours after it otherwise |
| RecurringAvailability.FirstOverlap | app/services/recurring_availability.py:340-357 | absent exactly when no entry from k on overlaps; otherwise the first overlapping index |
| RecurringAvailability.CheckEventConflicts | app/services/recurring_availability.py:289-370 | no conflict exactly when no entry overlaps the event window; otherwise the first overlapping entry, reported with the window, the employee and the event |
| ShiftOrganizer.FilterMonthEvents | app/routers/shift_organizer.py:83-92 | fails exactly when some event has no date (the conversion raises); otherwise keeps, in order, exactly the events dated within the month |
| ShiftOrganizer.MonthStatsSpec | app/routers/shift_organizer.py:103-131 | there is one entry per listed employee, counting that employee's shifts starting in the month and the weekend starts among them, never more weekend shifts than shifts |
| ShiftOrganizer.ComputeMonthStats | app/routers/shift_organizer.py:103-131 | the statistics loop builds exactly the month statistics |
| ShiftOrganizer.GetMonthData | app/routers/shift_organizer.py:57-145 | a bad month or year is reported, but the handler's own catch-all turns the 400 into a 500; with a valid month and year it fails exactly when some event has no date, and otherwise returns the events of the month, the shifts, the employees and their month statistics |
| ShiftOrganizer.UpsertRow | app/routers/shift_organizer.py:246-256 | the row is stored under the given shift id, or under a fresh id beyond every existing one; no other row changes; the next free id stays beyond the id used |
| ShiftOrganizer.UpsertAllSpec | app/routers/shift_organizer.py:240-257 | after the upserts the table holds the old rows plus the saved ids, each saved id holds the row of an assigned slot, every given shift id of an assigned slot is saved, and rows not saved over are unchanged |
| ShiftOrganizer.UnassignedIgnored | app/routers/shift_organizer.py:242-244 | slots without an employee change nothing: upserting all slots equals upserting only the assigned ones |
| ShiftOrganizer.ReconciledSpec | app/routers/shift_organizer.py:211-276 | every saved id survives with the row of an assigned slot; a row not saved over is deleted exactly when it is an unlocked shift of an event named in the request or by a slot, and otherwise kept unchanged; no other row appears |
| ShiftOrganizer.Reconciled | app/routers/shift_organizer.py:211-276 | a stored shift all of whose listings are locked survives the save, and with no existing shift listed the table keeps every old row plus the saved ids |
| ShiftOrganizer.ShiftTable.Upsert | app/routers/shift_organizer.py:246-256 | the table changes as the upsert function says, and an insert without an id never overwrites an existing row |
| ShiftOrganizer.ShiftTable.Delete | app/routers/shift_organizer.py:272 | removes exactly that row |
| ShiftOrganizer.GroupByEvent | app/routers/shift_organizer.py:231-237 | each event's group lists exactly that event's existing shifts, in order |
| ShiftOrganizer.DeletedStep | app/routers/shift_organizer.py:264-272 | handling one more event deletes exactly its unlocked unsaved shifts in addition |
| ShiftOrganizer.SaveShifts | app/routers/shift_organizer.py:211-276 | the table ends as the reconciliation function says |
| ShiftOrganizer.NothingDeleted | app/routers/shift_organizer.py:262-264 | a request naming no events deletes nothing |
| ShiftOrganizer.DeleteEventShifts | app/routers/shift_organizer.py:265-272 | removes exactly the unlocked, unsaved shifts of one event |
| ShiftOrganizer.DeleteUnsaved | app/routers/shift_organizer.py:262-272 | removes exactly the unlocked, unsaved shifts of the touched events |
| ExcelParser.FieldName | app/utils/excel_parser.py:13-23 | every column maps to a non-empty internal field name |
| ExcelParser.TimeFields | app/utils/excel_parser.py:153-156 | a time exactly when both parts parse as integers in range, with those hours and minutes and no seconds |
| ExcelParser.ParseTimeString | app/utils/excel_parser.py:136-192 | any time parsed is a whole minute |
| ExcelParser.TimeStringShape | app/utils/excel_parser.py:149-192 | only four shapes are accepted: two ':'-parts, two '.'-parts (when there is no ':'), or three or four digits (when there is neither) |
| ExcelParser.SeparatedTime | app/utils/excel_parser.py:149-170 | text with one ':' or one '.' reads its two parts as hours and minutes |
| ExcelParser.DigitTime | app/utils/excel_parser.py:172-190 | three or four digits read as hours and the last two digits as minutes |
| ExcelParser.TimeSeparatorForm | app/utils/excel_parser.py:140 | H:MM, HH:MM, H.MM and HH.MM renderings of any valid time read back as that time |
| ExcelParser.TimeDigitsForm | app/utils/excel_parser.py:172-190 | HHMM renderings, and HMM before 10:00, read back as that time |
| ExcelParser.TimeOutOfRange | app/utils/excel_parser.py:155 | an hour of 24 or more or a minute of 60 or more gives no time |
| ExcelParser.ParseDateWith | app/utils/excel_parser.py:114 | a date parsed with one format is a valid calendar date |
| ExcelParser.FirstDate | app/utils/excel_parser.py:112-117 | the result is that of some format, the first that parses; none when no format parses |
| ExcelParser.ParseDateText | app/utils/excel_parser.py:109-117 | any date parsed from text is a valid calendar date |
| ExcelParser.IsoDateForm | app/utils/excel_parser.py:112 | YYYY-MM-DD of any valid date (four-digit year) reads back as that date |
| ExcelParser.DayFirstSlashForm | app/utils/excel_parser.py:112 | DD/MM/YYYY of any valid date reads back as that date |
| ExcelParser.DayFirstWins | app/utils/excel_parser.py:112-116 | a slash-separated day-first text is read by the second format, the first having failed |
| ExcelParser.NoSeparatorNoDate | app/utils/excel_parser.py:114-116 | text without a format's separator fails that format |
| ExcelParser.SecondFormatWins | app/utils/excel_parser.py:112-116 | when the first format fails and the second parses, the second's result is taken |
| ExcelParser.IntString | app/utils/excel_parser.py:129 | `str()` of a number is non-empty and has no surrounding whitespace |
| ExcelParser.ParseCell | app/utils/excel_parser.py:99-130 | a blank or whitespace cell gives nothing; a date field keeps a date or datetime cell, reads a text by the four date formats of `ParseDateText` on the stripped text, and gives nothing for any other cell; a time field keeps a time cell, reads a text by `_parse_time_string` on the stripped text, and gives nothing otherwise; any other field gives a value exactly for a truthy cell: the stripped text, `str()` of an integer, or "True" |
| ExcelParser.HeaderRow | app/utils/excel_parser.py:59-69 | the header is the first of the first ten rows holding a known column title; none when no such row exists |
| ExcelParser.RowFields | app/utils/excel_parser.py:83-90 | the informational day column is never stored |
| ExcelParser.RowFieldsKeys | app/utils/excel_parser.py:83-90 | a field is stored exactly when some mapped, non-informational column holds it |
| ExcelParser.RowFieldsValues | app/utils/excel_parser.py:83-90 | each stored field holds the parse of the cell of a column mapped to it |
| ExcelParser.DataRowsPlaced | app/utils/excel_parser.py:76-94 | every data row produced comes from a non-empty row after the header that has a date or a name, with its one-based row index |
| ExcelParser.DataRows | app/utils/excel_parser.py:76-94 | at most one event per data row |
| ExcelParser.DataRowsOrder | app/utils/excel_parser.py:76-94 | rows come out in increasing row order |
| ExcelParser.DataRowsCover | app/utils/excel_parser.py:76-94 | every kept row is produced, under its row number |
| ExcelParser.ParsedSheet | app/utils/excel_parser.py:53-96 | the sheet fails exactly when none of the first ten rows has a known title; otherwise it yields fewer events than the sheet has rows |
| ExcelParser.ParsedSheetSpec | app/utils/excel_parser.py:53-96 | parsed rows never hold the day column |
| ExcelParser.FindHeader | app/utils/excel_parser.py:56-72 | the scan finds the header row and builds its column map, empty when there is none |
| ExcelParser.ReadRow | app/utils/excel_parser.py:81-90 | the cell loop stores exactly the row's fields |
| ExcelParser.ParseSheet | app/utils/excel_parser.py:53-96 | the whole parse computes the parsed sheet |
| CalendarImport.DateErrors | app/services/calendar_import_service.py:125-128 | no error exactly for a date value; a missing or falsy date is "missing", any other non-date value "invalid format", never both |
| CalendarImport.TimeErrors | app/services/calendar_import_service.py:130-133 | no error exactly for a time value; a missing show time is "missing", any other non-time value "invalid format", never both |
| CalendarImport.NameErrors | app/services/calendar_import_service.py:135-136 | the name error is reported exactly when the name is missing or blank |
| CalendarImport.Warnings | app/services/calendar_import_service.py:139-146 | warnings are never errors, and each of producer phone, load-in and producer name is warned about exactly when it is missing |
| CalendarImport.Validate | app/services/calendar_import_service.py:113-148 | errors and warnings are kept apart; a row has no errors exactly when it is importable; each error and each warning is reported exactly when its condition holds |
| CalendarImport.WarningsNeverBlock | app/services/calendar_import_service.py:138-146 | changing a field other than date, show time and name never changes the errors or the validity |
| CalendarImport.ParsedRowIssues | app/services/calendar_import_service.py:69-74 | rows read from a workbook never carry a badly typed date or show time, and never lack both date and name |
| CalendarImport.ParsedValue | app/utils/excel_parser.py:83-90 | a stored field of a read row has its field's type and is never blank |
| CalendarImport.UploadSummary | app/services/calendar_import_service.py:83-86 | the total counts every row, the valid count the rows that validate, and valid plus invalid is the total |
| CalendarImport.MaxRowIndex | app/services/calendar_import_service.py:248 | the largest row number, 0 for no rows: no row exceeds it and some row attains it |
| CalendarImport.AddStagingEvent | app/services/calendar_import_service.py:244-268 | a new blank row is invalid, carries the new id, has no date or show time and an empty name, carries the blank row's three errors and three warnings, and is numbered one past the largest existing row number (1 when there is none) |
| CalendarImport.BlankRowConsistent | app/services/calendar_import_service.py:250-263 | the hard-coded warnings of a blank row equal what validation gives, and its hard-coded errors are the same issues listed in another order |
| CalendarImport.SameIssuesReordered | app/services/calendar_import_service.py:261 | validation's error order differs from the hard-coded one while holding the same issues |
| CalendarImport.BlankIssues | app/services/calendar_import_service.py:125-146 | a row with no date, show time or load-in and empty name and producer fields gets the three errors and three warnings |
| CalendarImport.BlankFields | app/services/calendar_import_service.py:250-259 | a blank row has no date, show time or load-in and empty name and producer texts |
| CalendarImport.OfficialShowTime | app/services/calendar_import_service.py:174-176 | an official show time is compared by its time of day, present exactly when the event has one |
| CalendarImport.DuplicatesOfSpec | app/services/calendar_import_service.py:169-192 | the reports for one staging row are exactly one per official event with the same date, show time and stripped lower-cased name |
| CalendarImport.CheckDuplicatesSpec | app/services/calendar_import_service.py:150-194 | a report is made exactly for each valid staging row and matching official event |
| CalendarImport.CheckDuplicates | app/services/calendar_import_service.py:150-194 | invalid staging rows are never reported, so a staging table without a valid row, or an empty official table, yields no report |
| CalendarImport.DuplicateIdsValid | app/services/calendar_import_service.py:327-328 | every duplicate id belongs to a valid staging row |
| CalendarImport.AttemptedSpec | app/services/calendar_import_service.py:317-334 | the commit tries exactly the valid rows, less the reported duplicates when skipping; without skipping every valid row |
| CalendarImport.FailedRows | app/services/calendar_import_service.py:346-361 | the failed rows and the successful rows together account for every row tried |
| CalendarImport.CommitToEvents | app/services/calendar_import_service.py:303-379 | fails with "no valid events" exactly when there are none, with "none after duplicates" exactly when skipping leaves nothing, and with a commit failure exactly when the transaction fails; otherwise counts the committed and failed rows, lists the failed row numbers, reports the skipped duplicates and clears the staging rows; a failure leaves them |
| Sheets.Headers | app/utils/sheets.py:50-52 | the headers are the stripped cells of the first row, one per cell |
| Sheets.NamesIff | app/utils/sheets.py:55-57 | a header names a column exactly when its stripped lower-cased text equals some wanted name lower-cased |
| Sheets.FindColFrom | app/utils/sheets.py:54-59 | the first matching header from a position on, or none when no later header matches |
| Sheets.FindColIndex | app/utils/sheets.py:54-59 | the first header matching a wanted name, or none exactly when no header matches |
| Sheets.HeaderKey | app/utils/sheets.py:61-62 | a key holds only lower-case letters, digits and single underscores |
| Sheets.HeaderKeyKeeps | app/utils/sheets.py:61-62 | the letters and digits of the stripped lower-cased header survive, in order |
| Sheets.HeaderKeyMarks | app/utils/sheets.py:61-62 | an underscore appears in the key exactly when the header held another character |
| Sheets.HeaderKeyIdempotent | app/utils/sheets.py:61-62 | a key is its own key |
| Sheets.HeaderIndex | app/utils/sheets.py:189-190 | the header map keeps the last header with the key; none exactly when no header has it |
| Sheets.HeaderKeys | app/utils/sheets.py:189 | one key per header |
| Sheets.EnsureRowLength | app/utils/sheets.py:72-76 | the row keeps its cells and is padded with empty cells up to the length, never shortened |
| Sheets.SetCell | app/utils/sheets.py:276 | the cell is written; other cells are kept; a row too short is padded with empty cells |
| Sheets.SetCellInside | app/utils/sheets.py:276 | inside the row, writing a cell is sequence update |
| Sheets.Worksheet.UpdateCell | app/utils/sheets.py:276 | writes one cell of one row (1-based), leaving every other row |
| Sheets.Worksheet.DeleteRow | app/utils/sheets.py:203 | removes one row (1-based), shifting the rows below up |
| Sheets.UpdatedStep | app/utils/sheets.py:259-277 | updating one more row extends the rows updated so far by that row |
| Sheets.MatchingRows | app/utils/sheets.py:197-199 | the matching data rows, in increasing order, each a data row whose id cell matches, and every matching data row listed |
| Sheets.RemoveNoneBelow | app/utils/sheets.py:201-204 | deleting indices beyond the grid changes nothing |
| Sheets.DeleteAbove | app/utils/sheets.py:201-204 | deleting a row above the rows already deleted (the bottom-up order) removes it from what is left |
| Sheets.RemoveIndicesMembers | app/utils/sheets.py:201-204 | what is left is exactly the rows not deleted |
| Sheets.RemoveIndicesLength | app/utils/sheets.py:201-204 | deleting distinct indices removes exactly that many rows |
| Sheets.RemoveIndicesFirst | app/utils/sheets.py:201-204 | the header row is never deleted |
| Sheets.RemoveIndicesAgree | app/utils/sheets.py:201-204 | only which indices are deleted matters, not how they are listed |
| Sheets.CollectMatching | app/utils/sheets.py:196-199 | the scan collects exactly the matching data rows |
| Sheets.DeleteDescending | app/utils/sheets.py:201-204 | deleting from the bottom up removes exactly the listed rows and counts them |
| Sheets.DeleteRowsWithId | app/utils/sheets.py:178-206 | a blank id or a missing event_id column deletes nothing; otherwise exactly the matching data rows are deleted and counted (delete_referrals_by_event, lines 209-237, is the same loop) |
| Sheets.DeletedExactly | app/utils/sheets.py:197-204 | the deletion keeps the header and exactly the data rows that do not match |
| Sheets.WithoutId | app/utils/sheets.py:272-274 | the filtered list holds exactly the items other than the id string, and keeps its length exactly when the id was absent |
| Sheets.VaultRewrite | app/utils/sheets.py:259-275 | a row is rewritten exactly when its cell exists, is not blank, decodes to a list and holds the id; the new cell encodes the list without the id |
| Sheets.RowAfter | app/utils/sheets.py:276 | a rewrite changes only the event_ids_json cell |
| Sheets.VaultAfter | app/utils/sheets.py:259-277 | the header row is kept and every data row is rewritten as above |
| Sheets.RewriteCount | app/utils/sheets.py:277 | fewer rewrites than rows (the header is never rewritten) |
| Sheets.RemoveEventFromVault | app/utils/sheets.py:240-277 | a blank id or a missing event_ids_json column writes nothing; otherwise every data row is rewritten as above and the writes are counted |
| Sheets.RewriteRow | app/utils/sheets.py:260-277 | one loop turn writes the row's new cell exactly when it has one |
| Sheets.RewriteVaultRows | app/utils/sheets.py:257-277 | the loop leaves the grid as the rewrite function says and counts the writes |
| Vault.NormPhoneE164IL | app/utils/vault.py:18-31 | a result is "+972" followed by digits only; text without digits gives none |
| Vault.NormPhoneCases | app/utils/vault.py:18-31 | for every text: a number results exactly when the digits are non-empty and start with 972, 0 or 5; then 972… becomes +972…, 0… becomes +972 and the rest, and 5… becomes +972 5… |
| Vault.NormPhoneIdempotent | app/utils/vault.py:18-31 | a normalised number normalises to itself |
| Vault.NormPhoneSpellings | app/utils/vault.py:25-30 | the local (0…), international (972…) and bare (5…) spellings of a mobile number normalise alike |
| Vault.NormPhoneLocal | app/utils/vault.py:27-28 | a leading 0 is replaced by +972 |
| Vault.NormPhoneInternational | app/utils/vault.py:25-26 | a leading 972 gets a '+' |
| Vault.NormPhoneBare | app/utils/vault.py:29-30 | a leading 5 gets +972 in front |
| Vault.PieceLength | app/utils/vault.py:40 | the length of the first piece: no separator in it, and a separator (or the end) after it |
| Vault.OnlyFirstName | app/utils/vault.py:33-41 | the first name is a non-empty prefix of the cleaned name without separators or Hebrew points, ending at a separator or the end; none exactly when the name is missing or the cleaned name is empty or starts with a separator |
| Vault.CleanNameNoPoints | app/utils/vault.py:38 | the cleaned name holds no Hebrew point |
| Vault.CanonOrgKey | app/utils/vault.py:43-53 | a key holds only lower-case word characters, Hebrew letters and single spaces, with no space at either end |
| Vault.CanonOrgKeyIdempotent | app/utils/vault.py:43-53 | a key is its own key |
| Vault.MarkOwnSpec | app/utils/vault.py:209-212 | on the phone's own row the preferred cell becomes TRUE (unless the same column is the timestamp), the timestamp cell becomes now, and every other cell is kept |
| Vault.ClearPrefSpec | app/utils/vault.py:213-215 | on another row of the organisation the preferred cell is cleared and every other cell kept |
| Vault.MarkedRowSpec | app/utils/vault.py:204-215 | rows of other organisations (or too short) are untouched; the own row is marked; other rows of the organisation have their preferred cell cleared; no other cell changes |
| Vault.MarkOwnCells | app/utils/vault.py:209-212 | the two cell writes on the own row leave it as marked |
| Vault.MarkRow | app/utils/vault.py:205-215 | one loop turn leaves its row as the marking function says and no other row |
| Vault.MarkSuccess | app/utils/vault.py:193-215 | a vault with no data rows is left alone; a missing org-key or phone column raises TypeError with nothing written; otherwise every data row is rewritten as the marking function says and the header kept |
| Vault.MarkRows | app/utils/vault.py:204-215 | the loop rewrites every data row as the marking function says |
| Vault.FindFirst | app/utils/vault.py:241-247 | the first data row passing the test, or none when no data row passes |
| Vault.FindLatest | app/utils/vault.py:250-261 | none exactly when no data row passes; otherwise the first passing row whose stamp no passing row exceeds |
| Vault.LatestRaised | app/utils/vault.py:258-259 | a strictly greater stamp exceeds every stamp seen so far |
| Vault.ChosenUnique | app/utils/vault.py:240-266 | at most one row is chosen |
| Vault.ChooseRow | app/utils/vault.py:240-266 | the first preferred row of the organisation, else its first row with the greatest last-success stamp; none only when the organisation has no row |
| Vault.ChooseTargetForEvent | app/utils/vault.py:222-268 | an unknown event gives no target; with data rows a missing org-key, phone or preferred column raises TypeError and nothing else does; a target is the chosen row's WhatsApp address and name; no target means the organisation has no row |
| Twilio.NormalizeTo | app/twilio_client.py:43-56 | a blank number raises ValueError and only it does; the address is the stripped number, prefixed with "channel:" unless it already starts with it, so it always starts with the prefix |
| Twilio.NormalizeToIdempotent | app/twilio_client.py:43-56 | a normalised address normalises to itself |
| Twilio.UpperOkIsLowerOk | app/twilio_client.py:67-75 | the upper-case "OK" test and the lower-case "ok" test agree, so the first skip adds nothing to the second |
| Twilio.AcknowledgementIff | app/twilio_client.py:67-75 | a body is skipped exactly when, stripped and lower-cased, it is "ok" or "success" |
| Twilio.ServiceSid | app/twilio_client.py:78 | a non-empty override wins, otherwise the default; a service id is set exactly when one of them is |
| Twilio.CallbackField | app/twilio_client.py:89-91 | the callback is sent exactly when it is configured and non-empty |
| Twilio.SendText | app/twilio_client.py:59-92 | an acknowledgement body is skipped and only it; otherwise a blank recipient raises ValueError and a missing service id RuntimeError, and only these fail; a sent message goes to the normalised address with the body as given, the chosen service id and the configured callback |
| Twilio.VariablesJson | app/twilio_client.py:152-157 | structured variables are JSON-encoded |
| Twilio.SendContent | app/twilio_client.py:129-169 | a blank recipient raises ValueError and a missing service id RuntimeError, and only these fail; otherwise the template goes to the normalised address through the override service id when it is set and the default one otherwise, with "{}" for no variables, a string as given, or the encoded variables |
| InternalAuth.BearerToken | app/routers/internal.py:55-63 | a token exactly when the header splits into two words the first of which is "bearer" in any case; the token is a word |
| InternalAuth.VerifySchedulerToken | app/routers/internal.py:26-71 | 500 exactly when no token is configured, whatever the header; otherwise 401 for a missing header and for a malformed one; accepted exactly when the header's token equals the configured one |
| InternalAuth.SpacedTokenNeverMatches | app/routers/internal.py:39-71 | a configured token holding whitespace passes the configuration check yet no header can match it |
| InternalAuth.WordsAfterWord | app/routers/internal.py:55 | splitting a word followed by whitespace gives that word first |
| InternalAuth.TwoWords | app/routers/internal.py:55 | two words joined by a space split back into those two words |
| InternalAuth.BearerHeader | app/routers/internal.py:55-63 | a header of a bearer scheme in any case and a token yields that token |
| InternalAuth.CanonicalHeader | app/routers/internal.py:31 | "Bearer <token>" yields the token |
| InternalAuth.CanonicalHeaderAccepted | app/routers/internal.py:26-71 | "Bearer <token>" is accepted exactly when the token is the configured one |
| Diagnostics.FirstNamed | app/diagnostics/scheduler.py:717 | `next(...)`: a check with that name taken from the list, and none exactly when no check has the name |
| Diagnostics.CountStatus | app/diagnostics/scheduler.py:705-707 | a status count never exceeds the number of checks |
| Diagnostics.CountsBounded | app/diagnostics/scheduler.py:705-707 | passes, warnings and failures together never exceed the number of checks |
| Diagnostics.LookUp | app/diagnostics/scheduler.py:753 | the database check found is the first named DB_FINGERPRINT, and none exactly when there is none |
| Diagnostics.Rules | app/diagnostics/scheduler.py:716-757 | six rules in source order; only the last, which fires exactly when the database check failed, blames the connection, and no rule names an unknown cause |
| Diagnostics.Decide | app/diagnostics/scheduler.py:713-757 | applying the rules never yields more pieces of evidence than there are rules |
| Diagnostics.DecideNoneFires | app/diagnostics/scheduler.py:713-714 | with no rule firing the cause stays unknown, with confidence 0 and no evidence |
| Diagnostics.DecideLastWins | app/diagnostics/scheduler.py:716-757 | the last firing rule sets the cause and the confidence |
| Diagnostics.DecideCauseFrom | app/diagnostics/scheduler.py:713-757 | the cause is unknown or that of some firing rule |
| Diagnostics.ExtraEvidence | app/diagnostics/scheduler.py:760-767 | at most two more pieces of evidence |
| Diagnostics.ComputeSummary | app/diagnostics/scheduler.py:700-782 | the counts are the status counts; the key evidence is the first six of the rules' evidence followed by the extra evidence (all of it when there are at most six), in that order |
| Diagnostics.SummaryCountsBounded | app/diagnostics/scheduler.py:705-707 | the summary's counts never exceed the total |
| Diagnostics.SummaryUnknown | app/diagnostics/scheduler.py:713-757 | when no rule fires the summary's cause is unknown with confidence 0 |
| Diagnostics.SummaryUnknownIff | app/diagnostics/scheduler.py:713-757 | the cause is unknown exactly when no rule fires |
| Diagnostics.LastFiring | app/diagnostics/scheduler.py:716-757 | if some rule fires and none names an unknown cause, the verdict is not unknown |
| Diagnostics.SummaryDatabaseFailure | app/diagnostics/scheduler.py:753-757 | a failed database check makes the cause the database connection, with confidence 95, whatever else failed |
| Diagnostics.SummaryDatabaseCauseIff | app/diagnostics/scheduler.py:753-757 | the cause is the database connection exactly when the database check failed |
| Diagnostics.P0Items | app/diagnostics/scheduler.py:792-809 | the first block is all P0 and advises fixing the database exactly when its check failed |
| Diagnostics.P1Items | app/diagnostics/scheduler.py:812-837 | the second block is all P1 |
| Diagnostics.P2Items | app/diagnostics/scheduler.py:840-853 | the third block is all P2 |
| Diagnostics.Found | app/diagnostics/scheduler.py:792-853 | at most six findings, ordered by priority, none informational, with database advice exactly when its check failed |
| Diagnostics.GenerateRecommendations | app/diagnostics/scheduler.py:785-864 | at least one and at most six recommendations, ordered by priority; the informational "all checks passed" appears exactly when it is the only one, and that happens exactly when nothing else was found |
| Diagnostics.OrderedBlocks | app/diagnostics/scheduler.py:792-853 | a P0 block, then a P1 block, then a P2 block are ordered by priority, none informational |
| Diagnostics.DatabaseAdviceAgrees | app/diagnostics/scheduler.py:753-757 | the database advice appears exactly when the summary blames the database connection (generate_recommendations, lines 792-809, and compute_summary agree) |

## Left out

- Database, Google Sheets and Twilio I/O: repositories are maps, sequences or classes; `client.messages.create` is returned as a request value; the status-callback URL and default service id are parameters.
- Time zones: local-to-UTC conversion for Asia/Jerusalem is taken as exact, so daylight-saving gaps and folds are not represented. Times are microseconds rather than minutes, so that 23:59:59.999999 is exact.
- Case mapping is ASCII only; the regular-expression classes `\d` and `\s` are read as ASCII digits and Python's whitespace set; no Unicode normalisation.
- Vault.CanonOrgKey: the `\w` of `canon_org_key` is read as ASCII letters, digits and '_' plus the Hebrew block, because Python's Unicode word-character table is not modelled; for a name in another script ("Café", Cyrillic, Arabic) the model drops letters the source keeps, so such names can share a key in the model (and so in MarkSuccess and ChooseTargetForEvent) where the source's keys differ.
- `json.dumps` and `json.loads` in the vault's event-id lists are parameters of the model, not implemented.
- Diagnostics: the SQL checks are inputs; evidence and recommendation texts are tagged values; a `likely_root_cause` key present with the value None and non-integer detail values are not represented.
- ShiftGenerator.Generate, ShiftGenerator.AssignSlot: the `unfilled_reason` texts ("Slot duration … exceeds max …", "No available employee meets requirements") are the outcomes `TooLong` and `NoCandidate`, `suggested_employee_name` is not carried (only the id), the rejection reason texts are the values of `Reason`, and the `slot_<i>` keys of `explainability` are the positions in its sequence.
- The random tie-break of `generate_shifts_for_events`: the first best candidate wins instead. The uuid suffix of `_generate_job_id` is a parameter.
- Conversation.ExpectedInput: the schema of the conversations table is not part of this model; the model lets the column be missing, NULL or a value, and a column default in the database would make a fresh row read as that default rather than as NULL.
- Conversation.ConversationStore.RecordPrompt: the `last_template_sid` and `last_template_vars` columns that each sender writes next to the state are not represented; nothing in the model reads them.
- ShiftOrganizer.GetMonthData: `employee_stats` is the dictionary keyed by employee id that the handler builds, not the list of its values; the order of that list (employee order, first occurrence of each id) is not represented.
- Sorting.SortBy: an `ORDER BY` on a non-unique column lets the database return rows with equal keys in any order; the model always keeps their input order, which is one of the orders the database may choose.
- ExcelParser.ParseCell: under a text field, a float, date, datetime or time cell gives the cell itself (`RenderedV`) rather than its `str()` text, because Python's shortest float repr and its ISO date and time rendering are not modelled; the model states only that such a value exists exactly when the cell is truthy (a float other than 0.0, any date or time).
- RecurringAvailability: a negative `day_of_month` is not represented (the field is a `nat`).
- RecurringAvailability.ExpandRuleForMonth: a rule without a `start_date` is not represented (`Rule.startDate` is a day number); the source compares None with a date there and raises TypeError.
- The upsert-shift repository is not part of this model's sources; its behaviour (an explicit id overwrites, otherwise a new id) is taken from the call site in `save_shifts`.
- `send_confirmation_message`, `upsert_contact` and `record_referral` are not part of this model.
- A message `body` of None is read as the empty string.
- Logging, async scheduling and concurrency are not represented.
- Inbound.Lines: "\r\n" yields an extra empty line and a trailing newline a trailing empty line; the vCard reader skips empty lines, so nothing depends on it.
- Phone.NormalizeIdempotent: proved only for input without ':', since a second pass may strip a "whatsapp:" that the first pass assembled.
- Twilio.NormalizeToIdempotent: proved only when the channel prefix does not start with whitespace.
