/**
 * The calendar-import service: validation of imported rows into errors (which block the
 * commit) and warnings (which do not), detection of rows that duplicate an official event,
 * numbering of a newly added blank row, and the commit of the staged rows with its counters.
 */
module CalendarImport {
  import opened Wrappers
  import opened Text
  import opened Clock
  import opened Seqs
  import opened ExcelParser

  // ---------------------------------------------------------------------------------------
  // Validation

  /** The problems validation reports; the first five are errors, the last three warnings. */
  datatype Issue =
    | MissingDate | BadDate | MissingShowTime | BadShowTime | MissingName
    | MissingProducerPhone | MissingLoadIn | MissingProducerName

  predicate IsError(i: Issue) {
    i.MissingDate? || i.BadDate? || i.MissingShowTime? || i.BadShowTime? || i.MissingName?
  }

  /** The message stored for each problem. */
  function Message(i: Issue): string {
    match i
    case MissingDate => "Missing or invalid date"
    case BadDate => "Invalid date format"
    case MissingShowTime => "Missing or invalid show time"
    case BadShowTime => "Invalid show time format (must be 24h)"
    case MissingName => "Event name is required"
    case MissingProducerPhone => "Missing producer phone"
    case MissingLoadIn => "Missing load-in time"
    case MissingProducerName => "Missing producer name"
  }

  /** An event as the service sees it: the parsed fields of one row; an absent key reads as `None`. */
  type Event = map<Field, Option<Value>>

  /** `event.get(f)` */
  function Get(e: Event, f: Field): Option<Value> {
    if f in e then e[f] else None
  }

  /** Python truthiness of a field value: an empty string is false, a date or a time is always true. */
  predicate Given(v: Option<Value>) {
    v.Some? && (v.value.TextV? ==> v.value.text != [])
  }

  /** `isinstance(v, date)`: a `datetime` is a `date` too. */
  predicate IsDateValue(v: Value) {
    v.DateV? || v.DateTimeV?
  }

  /** `not name or not str(name).strip()`; `str()` of a non-text value is never blank. */
  predicate NameBlank(v: Option<Value>) {
    !Given(v) || (v.value.TextV? && Strip(v.value.text) == [])
  }

  /** What makes a row importable: a real date, a real time of day, and a non-blank name. */
  predicate Importable(e: Event) {
    && Get(e, Date).Some? && IsDateValue(Get(e, Date).value)
    && Get(e, ShowTime).Some? && Get(e, ShowTime).value.TimeV?
    && !NameBlank(Get(e, Name))
  }

  datatype Validation = Validation(errors: seq<Issue>, warnings: seq<Issue>)

  /** The date check: missing (or empty), or present but not a date. */
  function DateErrors(d: Option<Value>): (r: seq<Issue>)
    ensures r == [] <==> d.Some? && IsDateValue(d.value)
    ensures forall i :: i in r ==> i.MissingDate? || i.BadDate?
    ensures MissingDate in r <==> !Given(d)
    ensures BadDate in r <==> Given(d) && !IsDateValue(d.value)
    ensures |r| <= 1
  {
    if !Given(d) then [MissingDate] else if !IsDateValue(d.value) then [BadDate] else []
  }

  /** The show-time check: missing (or empty), or present but not a time of day. */
  function TimeErrors(t: Option<Value>): (r: seq<Issue>)
    ensures r == [] <==> t.Some? && t.value.TimeV?
    ensures forall i :: i in r ==> i.MissingShowTime? || i.BadShowTime?
    ensures MissingShowTime in r <==> !Given(t)
    ensures BadShowTime in r <==> Given(t) && !t.value.TimeV?
    ensures |r| <= 1
  {
    if !Given(t) then [MissingShowTime] else if !t.value.TimeV? then [BadShowTime] else []
  }

  /** The name check. */
  function NameErrors(n: Option<Value>): (r: seq<Issue>)
    ensures r == [] <==> !NameBlank(n)
    ensures forall i :: i in r ==> i.MissingName?
    ensures |r| <= 1
  {
    if NameBlank(n) then [MissingName] else []
  }

  /** The warnings: producer phone, load-in and producer name, in that order. */
  function Warnings(e: Event): (r: seq<Issue>)
    ensures forall i :: i in r ==> !IsError(i)
    ensures MissingProducerPhone in r <==> !Given(Get(e, ProducerPhone))
    ensures MissingLoadIn in r <==> !Given(Get(e, LoadIn))
    ensures MissingProducerName in r <==> !Given(Get(e, ProducerName))
    ensures |r| <= 3
  {
    var p := if !Given(Get(e, ProducerPhone)) then [MissingProducerPhone] else [];
    var l := if !Given(Get(e, LoadIn)) then [MissingLoadIn] else [];
    var n := if !Given(Get(e, ProducerName)) then [MissingProducerName] else [];
    assert forall i :: i in p + l + n <==> i in p || i in l || i in n;
    p + l + n
  }

  /** `_validate_event`: the date, show-time and name errors in that order, then the warnings. */
  function Validate(e: Event): (r: Validation)
    ensures forall i :: i in r.errors ==> IsError(i)
    ensures forall i :: i in r.warnings ==> !IsError(i)
    ensures r.errors == [] <==> Importable(e)
    ensures MissingDate in r.errors <==> !Given(Get(e, Date))
    ensures BadDate in r.errors <==> Given(Get(e, Date)) && !IsDateValue(Get(e, Date).value)
    ensures MissingShowTime in r.errors <==> !Given(Get(e, ShowTime))
    ensures BadShowTime in r.errors <==> Given(Get(e, ShowTime)) && !Get(e, ShowTime).value.TimeV?
    ensures MissingName in r.errors <==> NameBlank(Get(e, Name))
    ensures MissingProducerPhone in r.warnings <==> !Given(Get(e, ProducerPhone))
    ensures MissingLoadIn in r.warnings <==> !Given(Get(e, LoadIn))
    ensures MissingProducerName in r.warnings <==> !Given(Get(e, ProducerName))
    ensures |r.errors| <= 3 && |r.warnings| <= 3
  {
    ErrorsOf(e);
    Validation(DateErrors(Get(e, Date)) + TimeErrors(Get(e, ShowTime)) + NameErrors(Get(e, Name)), Warnings(e))
  }

  /** The three checks together report an error exactly for each of their own findings. */
  lemma ErrorsOf(e: Event)
    ensures var r := DateErrors(Get(e, Date)) + TimeErrors(Get(e, ShowTime)) + NameErrors(Get(e, Name));
      && (forall i :: i in r ==> IsError(i))
      && (r == [] <==> Importable(e))
      && (MissingDate in r <==> !Given(Get(e, Date)))
      && (BadDate in r <==> Given(Get(e, Date)) && !IsDateValue(Get(e, Date).value))
      && (MissingShowTime in r <==> !Given(Get(e, ShowTime)))
      && (BadShowTime in r <==> Given(Get(e, ShowTime)) && !Get(e, ShowTime).value.TimeV?)
      && (MissingName in r <==> NameBlank(Get(e, Name)))
      && |r| <= 3
  {
    var a, b, c := DateErrors(Get(e, Date)), TimeErrors(Get(e, ShowTime)), NameErrors(Get(e, Name));
    assert forall i :: i in a + b + c <==> i in a || i in b || i in c;
  }

  /** `is_valid`: a row is valid exactly when validation reports no error. */
  predicate IsValid(e: Event) {
    Validate(e).errors == []
  }

  /** Warnings never decide validity: changing a field other than the date, show time or name keeps the errors. */
  lemma WarningsNeverBlock(e: Event, f: Field, v: Option<Value>)
    requires f != Date && f != ShowTime && f != Name
    ensures Validate(e[f := v]).errors == Validate(e).errors
    ensures IsValid(e[f := v]) == IsValid(e)
  {
    assert Get(e[f := v], Date) == Get(e, Date);
    assert Get(e[f := v], ShowTime) == Get(e, ShowTime);
    assert Get(e[f := v], Name) == Get(e, Name);
  }

  /**
   * Rows read from a workbook never carry a badly typed date or show time, and never lack both
   * the date and the name, because the reader keeps only rows with one of them.
   */
  lemma ParsedRowIssues(rows: seq<seq<Cell>>)
    requires ParsedSheet(rows, EXCEL_READER).Ok?
    ensures forall p :: p in ParsedSheet(rows, EXCEL_READER).value ==>
      var errors := Validate(p.fields).errors;
      BadDate !in errors && BadShowTime !in errors && !(MissingDate in errors && MissingName in errors)
  {
    var rd := EXCEL_READER;
    var h := HeaderRow(rows, 0, rd).value;
    var colMap := ColumnMap(rows[h], rd);
    DataRowsPlaced(rows, colMap, rd, h + 1, |rows|);
    forall p | p in ParsedSheet(rows, rd).value
      ensures BadDate !in Validate(p.fields).errors && BadShowTime !in Validate(p.fields).errors
      ensures !(MissingDate in Validate(p.fields).errors && MissingName in Validate(p.fields).errors)
    {
      var row := rows[p.rowIndex - 1];
      assert p.fields == RowFields(row, colMap, rd);
      RowFieldsValues(row, colMap, rd);
      ParsedValue(p.fields, row, colMap, Date);
      ParsedValue(p.fields, row, colMap, ShowTime);
      ParsedValue(p.fields, row, colMap, Name);
    }
  }

  /** A stored field of a read row is the parse of one of its cells, so it has that field's type. */
  lemma ParsedValue(fields: Event, row: seq<Cell>, colMap: map<nat, Field>, f: Field)
    requires fields == RowFields(row, colMap, EXCEL_READER)
    requires forall g :: g in fields ==>
      exists k :: StoresField(row, colMap, k, g) && fields[g] == EXCEL_READER.parse(g, row[k])
    ensures f == Date && Get(fields, f).Some? ==> IsDateValue(Get(fields, f).value)
    ensures (f == ShowTime || f == LoadIn) && Get(fields, f).Some? ==> Get(fields, f).value.TimeV?
    ensures Get(fields, f).Some? ==> Given(Get(fields, f)) && !NameBlank(Get(fields, f))
  {
    if f in fields {
      var k :| StoresField(row, colMap, k, f) && fields[f] == EXCEL_READER.parse(f, row[k]);
      assert fields[f] == ParseCell(f, row[k]);
    }
  }

  /** The upload summary: how many rows there are, how many are valid and how many are not. */
  datatype Summary = Summary(totalRows: nat, validRows: nat, invalidRows: nat)

  function ValidEvent(): Event -> bool {
    (e: Event) => IsValid(e)
  }

  function UploadSummary(events: seq<Event>): (s: Summary)
    ensures s.totalRows == |events| && s.validRows + s.invalidRows == s.totalRows
    ensures s.validRows == Count(events, ValidEvent())
  {
    var valid := Count(events, ValidEvent());
    Summary(|events|, valid, |events| - valid)
  }

  // ---------------------------------------------------------------------------------------
  // Staging rows

  /** A row of the staging table, with the typed columns the duplicate check reads. */
  datatype StagingRow = StagingRow(
    id: int, rowIndex: int, isValid: bool,
    date: Option<int>, showTime: Option<TimeOfDay>, name: string,
    errors: seq<Issue>, warnings: seq<Issue>)

  /** `max((e.get("row_index", 0) for e in existing), default=0)` */
  function MaxRowIndex(rows: seq<StagingRow>): (m: int)
    ensures rows == [] ==> m == 0
    ensures forall r :: r in rows ==> r.rowIndex <= m
    ensures rows != [] ==> exists r :: r in rows && r.rowIndex == m
  {
    if rows == [] then 0
    else if |rows| == 1 then rows[0].rowIndex
    else
      var m := MaxRowIndex(rows[1..]);
      assert forall r :: r in rows ==> r == rows[0] || r in rows[1..];
      if rows[0].rowIndex >= m then rows[0].rowIndex else m
  }

  /** The errors a blank row is created with, in the order the service writes them. */
  const BLANK_ERRORS: seq<Issue> := [MissingName, MissingDate, MissingShowTime]
  const BLANK_WARNINGS: seq<Issue> := [MissingProducerPhone, MissingLoadIn, MissingProducerName]

  /** The fields of a blank row: no date, show time, load-in or series, empty texts elsewhere. */
  const BLANK_EVENT: Event := map[
    Date := None, ShowTime := None, Name := Some(TextV("")), LoadIn := None, EventSeries := None,
    ProducerName := Some(TextV("")), ProducerPhone := Some(TextV("")), Notes := Some(TextV(""))]

  /** `add_staging_event`: a blank, invalid row numbered after every existing row. */
  function AddStagingEvent(existing: seq<StagingRow>, newId: int): (row: StagingRow)
    ensures row.id == newId && !row.isValid
    ensures forall r :: r in existing ==> r.rowIndex < row.rowIndex
    ensures existing == [] ==> row.rowIndex == 1
    ensures existing != [] ==> exists r :: r in existing && row.rowIndex == r.rowIndex + 1
    ensures row.errors == BLANK_ERRORS && row.warnings == BLANK_WARNINGS
    ensures row.date.None? && row.showTime.None? && row.name == ""
  {
    StagingRow(newId, MaxRowIndex(existing) + 1, false, None, None, "", BLANK_ERRORS, BLANK_WARNINGS)
  }

  /**
   * The hard-coded problems of a blank row are the ones validation reports for its fields: the
   * same warnings in the same order, and the same errors, listed in another order.
   */
  lemma BlankRowConsistent()
    ensures Validate(BLANK_EVENT).warnings == BLANK_WARNINGS
    ensures multiset(Validate(BLANK_EVENT).errors) == multiset(BLANK_ERRORS)
    ensures Validate(BLANK_EVENT).errors != BLANK_ERRORS
  {
    BlankFields();
    BlankIssues(BLANK_EVENT);
    SameIssuesReordered();
  }

  lemma SameIssuesReordered()
    ensures multiset([MissingDate, MissingShowTime, MissingName]) == multiset(BLANK_ERRORS)
    ensures [MissingDate, MissingShowTime, MissingName] != BLANK_ERRORS
  {
    assert BLANK_ERRORS[0] == MissingName;
  }

  /** Validation of any row with a blank row's date, show time, load-in, name and producer fields. */
  lemma BlankIssues(e: Event)
    requires Get(e, Date) == None && Get(e, ShowTime) == None && Get(e, LoadIn) == None
    requires Get(e, Name) == Some(TextV(""))
    requires Get(e, ProducerPhone) == Some(TextV("")) && Get(e, ProducerName) == Some(TextV(""))
    ensures Validate(e).errors == [MissingDate, MissingShowTime, MissingName]
    ensures Validate(e).warnings == BLANK_WARNINGS
  {
    assert DateErrors(Get(e, Date)) == [MissingDate];
    assert TimeErrors(Get(e, ShowTime)) == [MissingShowTime];
    assert NameErrors(Get(e, Name)) == [MissingName];
  }

  /** What a blank row holds in the fields validation reads. */
  lemma BlankFields()
    ensures Get(BLANK_EVENT, Date) == None && Get(BLANK_EVENT, ShowTime) == None && Get(BLANK_EVENT, LoadIn) == None
    ensures Get(BLANK_EVENT, Name) == Some(TextV(""))
    ensures Get(BLANK_EVENT, ProducerPhone) == Some(TextV("")) && Get(BLANK_EVENT, ProducerName) == Some(TextV(""))
  {
  }

  // ---------------------------------------------------------------------------------------
  // Duplicates

  /** An official event with the columns the duplicate check reads; `showTime` is an instant. */
  datatype OfficialEvent = OfficialEvent(eventId: int, eventDate: Option<int>, showTime: Option<int>, name: string)

  /** The official show time reduced to its time of day (`.time()`). */
  function OfficialShowTime(o: OfficialEvent): (t: Option<TimeOfDay>)
    ensures t.Some? <==> o.showTime.Some?
    ensures t.Some? ==> t.value == o.showTime.value % DAY
  {
    if o.showTime.Some? then Some(TimeOf(o.showTime.value)) else None
  }

  /** Names are compared stripped and lower-cased. */
  function NameKey(s: string): string {
    Lower(Strip(s))
  }

  /** Same date, same show time and same name key. */
  predicate Matches(s: StagingRow, o: OfficialEvent) {
    s.date == o.eventDate && s.showTime == OfficialShowTime(o) && NameKey(s.name) == NameKey(o.name)
  }

  datatype Duplicate = Duplicate(
    stagingId: int, stagingRow: int, officialEventId: int,
    name: string, date: Option<int>, showTime: Option<TimeOfDay>)

  function DuplicateOf(s: StagingRow, o: OfficialEvent): Duplicate {
    Duplicate(s.id, s.rowIndex, o.eventId, s.name, s.date, s.showTime)
  }

  /** The official events one staging row duplicates, in their order. */
  function DuplicatesOf(s: StagingRow, officials: seq<OfficialEvent>): seq<Duplicate> {
    if officials == [] then []
    else
      var n := |officials| - 1;
      DuplicatesOf(s, officials[..n]) + (if Matches(s, officials[n]) then [DuplicateOf(s, officials[n])] else [])
  }

  /**
   * `_check_duplicates`: invalid staging rows are never reported, so a staging table without a
   * valid row, or an empty official table, yields no report.
   */
  function CheckDuplicates(staging: seq<StagingRow>, officials: seq<OfficialEvent>): (r: seq<Duplicate>)
    ensures (forall i :: 0 <= i < |staging| ==> !staging[i].isValid) ==> r == []
    ensures officials == [] ==> r == []
  {
    if staging == [] then []
    else
      var n := |staging| - 1;
      CheckDuplicates(staging[..n], officials) + (if staging[n].isValid then DuplicatesOf(staging[n], officials) else [])
  }

  lemma {:induction false} DuplicatesOfSpec(s: StagingRow, officials: seq<OfficialEvent>)
    ensures forall d :: d in DuplicatesOf(s, officials) <==>
      exists o :: o in officials && Matches(s, o) && d == DuplicateOf(s, o)
  {
    if officials != [] {
      var n := |officials| - 1;
      DuplicatesOfSpec(s, officials[..n]);
      assert officials == officials[..n] + [officials[n]];
      assert forall o :: o in officials <==> o in officials[..n] || o == officials[n];
    }
  }

  /**
   * A report is made exactly for each valid staging row and official event with the same date,
   * show time and name.
   */
  lemma {:induction false} CheckDuplicatesSpec(staging: seq<StagingRow>, officials: seq<OfficialEvent>)
    ensures forall d :: d in CheckDuplicates(staging, officials) <==>
      exists s, o :: s in staging && o in officials && s.isValid && Matches(s, o) && d == DuplicateOf(s, o)
  {
    if staging != [] {
      var n := |staging| - 1;
      CheckDuplicatesSpec(staging[..n], officials);
      DuplicatesOfSpec(staging[n], officials);
      assert staging == staging[..n] + [staging[n]];
      assert forall s :: s in staging <==> s in staging[..n] || s == staging[n];
    }
  }

  // ---------------------------------------------------------------------------------------
  // Commit

  function RowIsValid(): StagingRow -> bool {
    (s: StagingRow) => s.isValid
  }

  function ValidRows(staging: seq<StagingRow>): seq<StagingRow> {
    Seqs.Filter(staging, RowIsValid())
  }

  /** The staging ids of the reported duplicates. */
  function DuplicateIds(staging: seq<StagingRow>, officials: seq<OfficialEvent>): set<int> {
    set d | d in CheckDuplicates(staging, officials) :: d.stagingId
  }

  function NotIn(ids: set<int>): StagingRow -> bool {
    (s: StagingRow) => s.id !in ids
  }

  /** The rows the commit tries: the valid ones, without the reported duplicates when skipping them. */
  function Attempted(staging: seq<StagingRow>, officials: seq<OfficialEvent>, skip: bool): seq<StagingRow> {
    if skip then Seqs.Filter(ValidRows(staging), NotIn(DuplicateIds(staging, officials))) else ValidRows(staging)
  }

  /** Every duplicate id belongs to a valid staging row. */
  lemma DuplicateIdsValid(staging: seq<StagingRow>, officials: seq<OfficialEvent>)
    ensures forall id :: id in DuplicateIds(staging, officials) ==> exists s :: s in staging && s.isValid && s.id == id
  {
    CheckDuplicatesSpec(staging, officials);
  }

  /**
   * The commit tries exactly the valid rows, less the reported duplicates when skipping; without
   * skipping it tries every valid row.
   */
  lemma AttemptedSpec(staging: seq<StagingRow>, officials: seq<OfficialEvent>, skip: bool)
    ensures forall s :: s in Attempted(staging, officials, skip) <==>
      s in staging && s.isValid && (skip ==> s.id !in DuplicateIds(staging, officials))
    ensures !skip ==> Attempted(staging, officials, skip) == ValidRows(staging)
  {
    Seqs.FilterMembers(staging, RowIsValid());
    Seqs.FilterMembers(ValidRows(staging), NotIn(DuplicateIds(staging, officials)));
  }

  function Succeeds(fails: StagingRow -> bool): StagingRow -> bool {
    (s: StagingRow) => !fails(s)
  }

  /** The row numbers of the rows whose insert fails, in order. */
  function FailedRows(rows: seq<StagingRow>, fails: StagingRow -> bool): (r: seq<int>)
    ensures |r| + Count(rows, Succeeds(fails)) == |rows|
  {
    if rows == [] then []
    else
      var n := |rows| - 1;
      FailedRows(rows[..n], fails) + (if fails(rows[n]) then [rows[n].rowIndex] else [])
  }

  datatype CommitError = NoValidEvents | NoEventsAfterDuplicates | CommitFailed

  datatype CommitSummary = CommitSummary(committedCount: nat, errorCount: nat, errorRows: seq<int>, skippedDuplicates: nat)

  /**
   * `commit_to_events`. Whether inserting a row fails (no hall, a rejected insert) is the
   * parameter `fails`, and whether the closing transaction commit fails is `commitFails`; the
   * staging rows left afterwards are `remaining`.
   */
  method CommitToEvents(staging: seq<StagingRow>, officials: seq<OfficialEvent>, skip: bool,
                        fails: StagingRow -> bool, commitFails: bool)
    returns (r: Result<CommitSummary, CommitError>, remaining: seq<StagingRow>)
    ensures r == Err(NoValidEvents) <==> ValidRows(staging) == []
    ensures r == Err(NoEventsAfterDuplicates) <==> ValidRows(staging) != [] && Attempted(staging, officials, skip) == []
    ensures r == Err(CommitFailed) <==> Attempted(staging, officials, skip) != [] && commitFails
    ensures r.Ok? ==>
      var tried := Attempted(staging, officials, skip);
      && r.value.committedCount == Count(tried, Succeeds(fails))
      && r.value.committedCount + r.value.errorCount == |tried|
      && r.value.errorRows == FailedRows(tried, fails)
      && r.value.skippedDuplicates == (if skip then |DuplicateIds(staging, officials)| else 0)
    ensures r.Ok? ==> remaining == []
    ensures r.Err? ==> remaining == staging
  {
    var events := ValidRows(staging);
    if events == [] {
      return Err(NoValidEvents), staging;
    }
    var duplicateIds := DuplicateIds(staging, officials);
    if skip {
      events := Seqs.Filter(events, NotIn(duplicateIds));
    }
    if events == [] {
      return Err(NoEventsAfterDuplicates), staging;
    }
    var committed, errorCount, errorRows := 0, 0, [];
    for k := 0 to |events|
      invariant committed == Count(events[..k], Succeeds(fails))
      invariant committed + errorCount == k
      invariant errorRows == FailedRows(events[..k], fails)
    {
      assert events[..k + 1][..k] == events[..k];
      if fails(events[k]) {
        errorCount := errorCount + 1;
        errorRows := errorRows + [events[k].rowIndex];
      } else {
        committed := committed + 1;
      }
    }
    assert events[..|events|] == events;
    if commitFails {
      return Err(CommitFailed), staging;
    }
    var skipped := if skip then |duplicateIds| else 0;
    return Ok(CommitSummary(committed, errorCount, errorRows, skipped)), [];
  }
}
