/**
 * The calendar spreadsheet reader: a header row with Hebrew column titles, then one event per
 * data row. A sheet is a sequence of rows and a row a sequence of cells, as the workbook reader
 * yields them.
 */
module ExcelParser {
  import opened Wrappers
  import opened Text
  import opened Clock

  // ---------------------------------------------------------------------------------------
  // Columns

  /** The internal fields a column can feed. */
  datatype Field = Date | ShowTime | Name | LoadIn | EventSeries | ProducerName | ProducerPhone | Notes | Day

  function FieldName(f: Field): (s: string)
    ensures s != []
  {
    match f
    case Date => "date"
    case ShowTime => "show_time"
    case Name => "name"
    case LoadIn => "load_in"
    case EventSeries => "event_series"
    case ProducerName => "producer_name"
    case ProducerPhone => "producer_phone"
    case Notes => "notes"
    case Day => "_day"
  }

  /** `COLUMN_MAPPING`: the Hebrew column titles and the field each one feeds. */
  function ColumnField(title: string): Option<Field> {
    if title == "תאריך" then Some(Date)
    else if title == "שעה" then Some(ShowTime)
    else if title == "שם המופע" then Some(Name)
    else if title == "שעה טכני" then Some(LoadIn)
    else if title == "סדרה" then Some(EventSeries)
    else if title == "גוף מבצע / איש קשר" then Some(ProducerName)
    else if title == "טלפון" then Some(ProducerPhone)
    else if title == "הערות" then Some(Notes)
    else if title == "יום" then Some(Day)
    else None
  }

  /** A field whose name starts with "_" is informational and never stored. */
  predicate Informational(f: Field) {
    FieldName(f)[0] == '_'
  }

  // ---------------------------------------------------------------------------------------
  // Cells

  /** A cell value as the workbook reader hands it over. */
  datatype Cell =
    | Blank
    | TextCell(text: string)
    | IntCell(n: int)
    | FloatCell(x: real)
    | BoolCell(b: bool)
    | DateCell(day: int)
    | DateTimeCell(day: int, time: TimeOfDay)
    | TimeCell(time: TimeOfDay)

  /** Python truthiness of a cell value; dates and times are always true. */
  predicate Truthy(c: Cell) {
    match c
    case Blank => false
    case TextCell(s) => s != []
    case IntCell(n) => n != 0
    case FloatCell(x) => x != 0.0
    case BoolCell(b) => b
    case _ => true
  }

  /**
   * The field a header cell names: `str(cell).strip()` looked up in the column titles. Only text
   * cells can match, since `str()` of an integer, float, boolean, date or time has no Hebrew letters.
   */
  function HeaderField(c: Cell): Option<Field> {
    if c.TextCell? && c.text != [] then ColumnField(Strip(c.text)) else None
  }

  // ---------------------------------------------------------------------------------------
  // Time strings

  /** The shared tail of every time format: `int()` on both parts, then the 24-hour range check. */
  function TimeFields(hs: string, ms: string): (r: Option<TimeOfDay>)
    ensures r.Some? <==> ParseInt(hs).Some? && ParseInt(ms).Some?
                         && 0 <= ParseInt(hs).value < 24 && 0 <= ParseInt(ms).value < 60
    ensures r.Some? ==> r.value / HOUR == ParseInt(hs).value && (r.value % HOUR) / MINUTE == ParseInt(ms).value
    ensures r.Some? ==> r.value % MINUTE == 0
  {
    var h := ParseInt(hs);
    var m := ParseInt(ms);
    if h.Some? && m.Some? && 0 <= h.value < 24 && 0 <= m.value < 60 then Some(HourMinute(h.value, m.value))
    else None
  }

  /** The hour and minute texts of a stripped time string, when it has one of the four shapes. */
  function TimeParts(t: string): (r: Option<(string, string)>)
    ensures r.Some? ==> t != []
  {
    if t == [] then None
    else if ':' in t then
      var parts := Split(t, ':');
      if |parts| == 2 then Some((parts[0], parts[1])) else None
    else if '.' in t then
      var parts := Split(t, '.');
      if |parts| == 2 then Some((parts[0], parts[1])) else None
    else if |t| == 4 && AllDigits(t) then Some((t[..2], t[2..]))
    else if |t| == 3 && AllDigits(t) then Some((t[..1], t[1..]))
    else None
  }

  /** `_parse_time_string`: "H:MM"/"HH:MM", "H.MM"/"HH.MM", "HHMM" or "HMM". */
  function ParseTimeString(s: string): (r: Option<TimeOfDay>)
    ensures r.Some? ==> r.value % MINUTE == 0
  {
    var parts := TimeParts(Strip(s));
    if parts.Some? then TimeFields(parts.value.0, parts.value.1) else None
  }

  /** Only the four shapes are accepted: two ':'-parts, two '.'-parts, or three or four digits. */
  lemma TimeStringShape(s: string)
    ensures ParseTimeString(s).Some? ==>
      var t := Strip(s);
      || (':' in t && |Split(t, ':')| == 2)
      || (':' !in t && '.' in t && |Split(t, '.')| == 2)
      || (':' !in t && '.' !in t && (|t| == 3 || |t| == 4) && AllDigits(t))
  {
  }

  /** Splitting `a + [sep] + b` where neither part holds the separator. */
  lemma SplitTwo(a: string, b: string, sep: char)
    requires sep !in a && sep !in b
    ensures Split(a + [sep] + b, sep) == [a, b]
  {
    var s := a + [sep] + b;
    assert s[|a|] == sep;
    assert s[..|a|] == a;
    assert forall j :: 0 <= j < |a| ==> s[j] == a[j];
    assert IndexOf(s, sep) == |a|;
    assert s[|a| + 1..] == b;
  }

  lemma DigitsNoSeparator(s: string, sep: char)
    requires AllDigits(s) && !IsDigit(sep)
    ensures sep !in s
  {
  }

  /** `int()` of a two-digit rendering, leading zero included, gives the number back. */
  lemma ParseTwoDigits(n: nat)
    requires n < 100
    ensures ParseInt(TwoDigits(n)) == Some(n)
  {
    var s := TwoDigits(n);
    StripNoOp(s);
    assert IsDigitGroup(s);
    FilterAllDigits(s);
  }

  /** Text of the form `a + [sep] + b`, trimmed and with one separator, is parsed as the two parts. */
  lemma SeparatedTime(a: string, b: string, sep: char)
    requires sep == ':' || sep == '.'
    requires sep !in a && sep !in b && ':' !in a && ':' !in b
    requires Strip(a + [sep] + b) == a + [sep] + b
    ensures ParseTimeString(a + [sep] + b) == TimeFields(a, b)
  {
    var t := a + [sep] + b;
    SplitTwo(a, b, sep);
    assert t[|a|] == sep;
    assert ':' !in t ==> sep == '.';
  }

  /** Text of `n` digits and nothing else, trimmed, is parsed by splitting off the last two. */
  lemma DigitTime(t: string)
    requires (|t| == 3 || |t| == 4) && AllDigits(t)
    ensures ParseTimeString(t) == TimeFields(t[..|t| - 2], t[|t| - 2..])
  {
    assert t != [] && !IsSpace(t[0]) && !IsSpace(t[|t| - 1]) by {
      assert IsDigit(t[0]) && IsDigit(t[|t| - 1]);
    }
    StripNoOp(t);
    DigitsNoSeparator(t, ':');
    DigitsNoSeparator(t, '.');
    assert TimeParts(t) == Some((t[..|t| - 2], t[|t| - 2..]));
  }

  /** Two parts `int()` reads as an hour and a minute give that time. */
  lemma TimeFieldsOf(hs: string, ms: string, h: nat, m: nat)
    requires h < 24 && m < 60 && ParseInt(hs) == Some(h) && ParseInt(ms) == Some(m)
    ensures TimeFields(hs, ms) == Some(HourMinute(h, m))
  {
  }

  /** Two runs of digits joined by a separator parse as the time `int()` reads in them, if in range. */
  lemma SeparatedDigits(hs: string, ms: string, sep: char)
    requires sep == ':' || sep == '.'
    requires hs != [] && ms != [] && AllDigits(hs) && AllDigits(ms)
    ensures ParseTimeString(hs + [sep] + ms) == TimeFields(hs, ms)
  {
    var t := hs + [sep] + ms;
    assert t[0] == hs[0] && t[|t| - 1] == ms[|ms| - 1];
    assert IsDigit(t[0]) && IsDigit(t[|t| - 1]);
    StripNoOp(t);
    DigitsNoSeparator(hs, sep);
    DigitsNoSeparator(ms, sep);
    DigitsNoSeparator(hs, ':');
    DigitsNoSeparator(ms, ':');
    SeparatedTime(hs, ms, sep);
  }

  /** A time typed with a separator, "H:MM"/"HH:MM" or "H.MM"/"HH.MM", parses to that time. */
  lemma TimeSeparatorForm(h: nat, m: nat, sep: char)
    requires h < 24 && m < 60 && (sep == ':' || sep == '.')
    ensures ParseTimeString(DecimalString(h) + [sep] + TwoDigits(m)) == Some(HourMinute(h, m))
    ensures ParseTimeString(TwoDigits(h) + [sep] + TwoDigits(m)) == Some(HourMinute(h, m))
  {
    ParseDecimalString(h);
    ParseTwoDigits(h);
    ParseTwoDigits(m);
    TimeFieldsOf(DecimalString(h), TwoDigits(m), h, m);
    TimeFieldsOf(TwoDigits(h), TwoDigits(m), h, m);
    SeparatedDigits(DecimalString(h), TwoDigits(m), sep);
    SeparatedDigits(TwoDigits(h), TwoDigits(m), sep);
  }

  /** One or two hour digits followed by two minute digits parse as the time `int()` reads in them. */
  lemma JoinedDigits(hs: string, ms: string)
    requires 1 <= |hs| <= 2 && |ms| == 2 && AllDigits(hs) && AllDigits(ms)
    ensures ParseTimeString(hs + ms) == TimeFields(hs, ms)
  {
    var t := hs + ms;
    assert AllDigits(t) by {
      forall i | 0 <= i < |t|
        ensures IsDigit(t[i])
      {
        if i < |hs| { assert t[i] == hs[i]; } else { assert t[i] == ms[i - |hs|]; }
      }
    }
    assert t[..|t| - 2] == hs && t[|t| - 2..] == ms;
    DigitTime(t);
  }

  /** "HHMM" and, for a one-digit hour, "HMM" parse to that time. */
  lemma TimeDigitsForm(h: nat, m: nat)
    requires h < 24 && m < 60
    ensures ParseTimeString(TwoDigits(h) + TwoDigits(m)) == Some(HourMinute(h, m))
    ensures h < 10 ==> ParseTimeString(DecimalString(h) + TwoDigits(m)) == Some(HourMinute(h, m))
  {
    ParseTwoDigits(h);
    ParseTwoDigits(m);
    JoinedDigits(TwoDigits(h), TwoDigits(m));
    TimeFieldsOf(TwoDigits(h), TwoDigits(m), h, m);
    if h < 10 {
      ParseDecimalString(h);
      assert |DecimalString(h)| == 1;
      JoinedDigits(DecimalString(h), TwoDigits(m));
      TimeFieldsOf(DecimalString(h), TwoDigits(m), h, m);
    }
  }

  /** An hour past 23 or a minute past 59 is refused. */
  lemma TimeOutOfRange(h: nat, m: nat)
    requires h >= 24 || m >= 60
    ensures ParseTimeString(DecimalString(h) + ":" + DecimalString(m)) == None
  {
    ParseDecimalString(h);
    ParseDecimalString(m);
    SeparatedDigits(DecimalString(h), DecimalString(m), ':');
    assert DecimalString(h) + ":" + DecimalString(m) == DecimalString(h) + [':'] + DecimalString(m);
  }

  // ---------------------------------------------------------------------------------------
  // Date strings

  /** `%Y`: exactly four digits. */
  predicate IsYearField(s: string) {
    |s| == 4 && AllDigits(s)
  }

  /** `%m`: one or two digits naming a month. */
  predicate IsMonthField(s: string) {
    1 <= |s| <= 2 && AllDigits(s) && 1 <= DecimalValue(s) <= 12
  }

  /** `%d`: one or two digits naming a day 1 to 31, or a space and one digit 1 to 9. */
  predicate IsDayField(s: string) {
    || (1 <= |s| <= 2 && AllDigits(s) && 1 <= DecimalValue(s) <= 31)
    || (|s| == 2 && s[0] == ' ' && '1' <= s[1] <= '9')
  }

  function DayFieldValue(s: string): int
    requires IsDayField(s)
  {
    if s[0] == ' ' then DigitValue(s[1]) else DecimalValue(s)
  }

  /** One of the date formats: its separator, and whether the year comes first (`%Y-%m-%d`) or last. */
  datatype DateFormat = DateFormat(sep: char, yearFirst: bool)

  /** `["%Y-%m-%d", "%d/%m/%Y", "%d-%m-%Y", "%d.%m.%Y"]`, tried in this order. */
  const DATE_FORMATS: seq<DateFormat> := [DateFormat('-', true), DateFormat('/', false), DateFormat('-', false), DateFormat('.', false)]

  /** `datetime.strptime(s, fmt).date()` as (year, month, day); an impossible day is refused. */
  function ParseDateWith(s: string, f: DateFormat): (r: Option<(int, int, int)>)
    ensures r.Some? ==> ValidDate(r.value.0, r.value.1, r.value.2)
  {
    var parts := Split(s, f.sep);
    if |parts| != 3 then None
    else
      var ys := if f.yearFirst then parts[0] else parts[2];
      var ds := if f.yearFirst then parts[2] else parts[0];
      if IsYearField(ys) && IsMonthField(parts[1]) && IsDayField(ds)
         && ValidDate(DecimalValue(ys), DecimalValue(parts[1]), DayFieldValue(ds))
      then Some((DecimalValue(ys), DecimalValue(parts[1]), DayFieldValue(ds)))
      else None
  }

  /** The first format that parses wins. */
  function FirstDate(s: string, formats: seq<DateFormat>): (r: Option<(int, int, int)>)
    ensures r.Some? ==> ValidDate(r.value.0, r.value.1, r.value.2)
    ensures r.Some? ==> exists k :: 0 <= k < |formats| && ParseDateWith(s, formats[k]) == r
    ensures r.None? ==> forall k :: 0 <= k < |formats| ==> ParseDateWith(s, formats[k]).None?
  {
    if formats == [] then None
    else
      var r := ParseDateWith(s, formats[0]);
      if r.Some? then r
      else
        var rest := FirstDate(s, formats[1..]);
        assert forall k :: 1 <= k < |formats| ==> formats[k] == formats[1..][k - 1];
        rest
  }

  /** The date of a text cell, tried against each format on the stripped text. */
  function ParseDateText(s: string): (r: Option<(int, int, int)>)
    ensures r.Some? ==> ValidDate(r.value.0, r.value.1, r.value.2)
  {
    FirstDate(Strip(s), DATE_FORMATS)
  }

  lemma FourDigitYear(y: int)
    requires 1000 <= y <= 9999
    ensures |DecimalString(y)| == 4
  {
    assert |DecimalString(y / 1000)| == 1;
    assert |DecimalString(y / 100)| == 2;
    assert |DecimalString(y / 10)| == 3;
  }

  /** Splitting `a + [sep] + b + [sep] + c` where no part holds the separator. */
  lemma SplitThree(a: string, b: string, c: string, sep: char)
    requires sep !in a && sep !in b && sep !in c
    ensures Split(a + [sep] + b + [sep] + c, sep) == [a, b, c]
  {
    SplitTwo(b, c, sep);
    var s := a + [sep] + (b + [sep] + c);
    assert a + [sep] + b + [sep] + c == s;
    assert s[|a|] == sep && s[..|a|] == a;
    assert forall j :: 0 <= j < |a| ==> s[j] == a[j];
    assert IndexOf(s, sep) == |a|;
    assert s[|a| + 1..] == b + [sep] + c;
  }

  /** An ISO date "YYYY-MM-DD" reads back as that date. */
  lemma IsoDateForm(y: int, m: int, d: int)
    requires ValidDate(y, m, d) && 1000 <= y
    ensures ParseDateText(DecimalString(y) + "-" + TwoDigits(m) + "-" + TwoDigits(d)) == Some((y, m, d))
  {
    FourDigitYear(y);
    var ys, ms, ds := DecimalString(y), TwoDigits(m), TwoDigits(d);
    DigitsNoSeparator(ys, '-');
    DigitsNoSeparator(ms, '-');
    DigitsNoSeparator(ds, '-');
    var s := ys + "-" + ms + "-" + ds;
    StripNoOp(s);
    SplitThree(ys, ms, ds, '-');
    assert ParseDateWith(s, DATE_FORMATS[0]) == Some((y, m, d));
  }

  /** Three runs of digits joined by `sep`, trimmed, split back into those runs. */
  lemma DigitRuns(a: string, b: string, c: string, sep: char, other: char)
    requires a != [] && c != [] && AllDigits(a) && AllDigits(b) && AllDigits(c) && !IsDigit(sep)
    requires !IsDigit(other) && other != sep
    ensures Strip(a + [sep] + b + [sep] + c) == a + [sep] + b + [sep] + c
    ensures Split(a + [sep] + b + [sep] + c, sep) == [a, b, c]
    ensures other !in a + [sep] + b + [sep] + c
  {
    var s := a + [sep] + b + [sep] + c;
    forall i | 0 <= i < |s|
      ensures IsDigit(s[i]) || s[i] == sep
    {
      if i < |a| {
        assert s[i] == a[i];
      } else if |a| < i < |a| + 1 + |b| {
        assert s[i] == b[i - |a| - 1];
      } else if |a| + |b| + 1 < i {
        assert s[i] == c[i - |a| - |b| - 2];
      }
    }
    assert s[0] == a[0] && s[|s| - 1] == c[|c| - 1];
    assert IsDigit(s[0]) && IsDigit(s[|s| - 1]);
    StripNoOp(s);
    DigitsNoSeparator(a, sep);
    DigitsNoSeparator(b, sep);
    DigitsNoSeparator(c, sep);
    SplitThree(a, b, c, sep);
  }

  /** A day-first date "DD/MM/YYYY" reads back as that date. */
  lemma DayFirstSlashForm(y: int, m: int, d: int)
    requires ValidDate(y, m, d) && 1000 <= y
    ensures ParseDateText(TwoDigits(d) + "/" + TwoDigits(m) + "/" + DecimalString(y)) == Some((y, m, d))
  {
    var s := TwoDigits(d) + "/" + TwoDigits(m) + "/" + DecimalString(y);
    SlashRendering(y, m, d, s);
    DayFirstWins(y, m, d, s);
  }

  /** The "DD/MM/YYYY" rendering is trimmed, splits at '/' into its fields and holds no '-'. */
  lemma SlashRendering(y: int, m: int, d: int, s: string)
    requires ValidDate(y, m, d) && 1000 <= y
    requires s == TwoDigits(d) + "/" + TwoDigits(m) + "/" + DecimalString(y)
    ensures Strip(s) == s && '-' !in s
    ensures Split(s, '/') == [TwoDigits(d), TwoDigits(m), DecimalString(y)]
  {
    FourDigitYear(y);
    var ys, ms, ds := DecimalString(y), TwoDigits(m), TwoDigits(d);
    assert s == ds + ['/'] + ms + ['/'] + ys;
    DigitRuns(ds, ms, ys, '/', '-');
  }

  /** Text that splits at '/' into day, month and year fields and holds no '-' parses by the second format. */
  lemma DayFirstWins(y: int, m: int, d: int, s: string)
    requires ValidDate(y, m, d) && 1000 <= y
    requires Split(s, '/') == [TwoDigits(d), TwoDigits(m), DecimalString(y)] && '-' !in s
    ensures FirstDate(s, DATE_FORMATS) == Some((y, m, d))
  {
    FourDigitYear(y);
    NoSeparatorNoDate(s, DATE_FORMATS[0]);
    DayFirstFields(s, y, m, d, '/');
    SecondFormatWins(s, DATE_FORMATS);
  }

  /** Text without a format's separator does not parse under that format. */
  lemma NoSeparatorNoDate(s: string, f: DateFormat)
    requires f.sep !in s
    ensures ParseDateWith(s, f) == None
  {
  }

  /** When the first format fails, the second one decides. */
  lemma SecondFormatWins(s: string, formats: seq<DateFormat>)
    requires |formats| >= 2 && ParseDateWith(s, formats[0]) == None && ParseDateWith(s, formats[1]).Some?
    ensures FirstDate(s, formats) == ParseDateWith(s, formats[1])
  {
    assert formats[1..][0] == formats[1];
  }

  /** The three fields of a day-first rendering satisfy the `%d`, `%m` and `%Y` patterns. */
  lemma DayFirstFields(s: string, y: int, m: int, d: int, sep: char)
    requires ValidDate(y, m, d) && 1000 <= y
    requires |DecimalString(y)| == 4
    requires Split(s, sep) == [TwoDigits(d), TwoDigits(m), DecimalString(y)]
    ensures ParseDateWith(s, DateFormat(sep, false)) == Some((y, m, d))
  {
    var ds := TwoDigits(d);
    assert IsDigit(ds[0]);
    assert IsDayField(ds) && DayFieldValue(ds) == d;
    assert IsMonthField(TwoDigits(m));
    assert IsYearField(DecimalString(y));
  }

  // ---------------------------------------------------------------------------------------
  // Cell values

  /** A parsed cell: a date, a time, a date with a time, a stripped text, or `str()` of another value. */
  datatype Value =
    | DateV(day: int)
    | DateTimeV(day: int, time: TimeOfDay)
    | TimeV(time: TimeOfDay)
    | TextV(text: string)
    | RenderedV(cell: Cell)

  /** `str(n)` of an integer. */
  function IntString(n: int): (s: string)
    ensures s != [] && !IsSpace(s[0]) && !IsSpace(s[|s| - 1])
  {
    if n < 0 then "-" + DecimalString(-n) else DecimalString(n)
  }

  /** `_parse_cell_value` */
  function ParseCell(f: Field, c: Cell): (r: Option<Value>)
    ensures c.Blank? || (c.TextCell? && Strip(c.text) == []) ==> r.None?
    ensures r.Some? && f == Date ==> r.value.DateV? || r.value.DateTimeV?
    ensures r.Some? && (f == ShowTime || f == LoadIn) ==> r.value.TimeV?
    ensures r.Some? && r.value.TextV? ==> r.value.text != [] && Strip(r.value.text) == r.value.text
    ensures r.Some? && f != Date && f != ShowTime && f != LoadIn ==> Truthy(c)
    // a date field: a date or datetime cell is kept, a text is read by the four date formats
    ensures f == Date && c.DateCell? ==> r == Some(DateV(c.day))
    ensures f == Date && c.DateTimeCell? ==> r == Some(DateTimeV(c.day, c.time))
    ensures f == Date && c.TextCell? && Strip(c.text) != [] ==>
      (r.Some? <==> ParseDateText(Strip(c.text)).Some?)
      && (r.Some? ==> var ymd := ParseDateText(Strip(c.text)).value; r.value == DateV(DayNumber(ymd.0, ymd.1, ymd.2)))
    ensures f == Date && !(c.DateCell? || c.DateTimeCell? || c.TextCell?) ==> r.None?
    // a time field: a time cell is kept, a text is read by `_parse_time_string`
    ensures (f == ShowTime || f == LoadIn) && c.TimeCell? ==> r == Some(TimeV(c.time))
    ensures (f == ShowTime || f == LoadIn) && c.TextCell? && Strip(c.text) != [] ==>
      (r.Some? <==> ParseTimeString(Strip(c.text)).Some?)
      && (r.Some? ==> r.value == TimeV(ParseTimeString(Strip(c.text)).value))
    ensures (f == ShowTime || f == LoadIn) && !(c.TimeCell? || c.TextCell?) ==> r.None?
    // any other field: `str(cell).strip()` of a truthy cell
    ensures f != Date && f != ShowTime && f != LoadIn ==> (r.Some? <==> Truthy(c) && !(c.TextCell? && Strip(c.text) == []))
    ensures f != Date && f != ShowTime && f != LoadIn && c.TextCell? && Strip(c.text) != [] ==> r == Some(TextV(Strip(c.text)))
    ensures f != Date && f != ShowTime && f != LoadIn && c.IntCell? && c.n != 0 ==> r == Some(TextV(IntString(c.n)))
    ensures f != Date && f != ShowTime && f != LoadIn && c == BoolCell(true) ==> r == Some(TextV("True"))
  {
    if c.Blank? || (c.TextCell? && Strip(c.text) == []) then None
    else if f == Date then
      match c
      case DateCell(d) => Some(DateV(d))
      case DateTimeCell(d, t) => Some(DateTimeV(d, t))
      case TextCell(s) =>
        var ymd := ParseDateText(Strip(s));
        if ymd.Some? then Some(DateV(DayNumber(ymd.value.0, ymd.value.1, ymd.value.2))) else None
      case _ => None
    else if f == ShowTime || f == LoadIn then
      match c
      case TimeCell(t) => Some(TimeV(t))
      case TextCell(s) =>
        var t := ParseTimeString(Strip(s));
        if t.Some? then Some(TimeV(t.value)) else None
      case _ => None
    else if !Truthy(c) then None
    else
      match c
      case TextCell(s) => StripIdempotent(s); Some(TextV(Strip(s)))
      case IntCell(n) => StripNoOp(IntString(n)); Some(TextV(IntString(n)))
      case BoolCell(_) => StripNoOp("True"); Some(TextV("True"))
      case _ => Some(RenderedV(c))
  }

  // ---------------------------------------------------------------------------------------
  // Sheets

  /** The header row is searched among the first ten rows. */
  const HEADER_SCAN_ROWS: nat := 10

  /**
   * How a sheet reads its cells: the title a header cell names and the value a data cell holds.
   * The sheet functions take it as a parameter so that their proofs never unfold the table of
   * titles or the cell parsers; the workbook reader uses `EXCEL_READER`.
   */
  datatype Reader = Reader(titles: Cell -> Option<Field>, parse: (Field, Cell) -> Option<Value>)

  const EXCEL_READER := Reader(HeaderField, ParseCell)

  predicate IsHeaderRow(row: seq<Cell>, rd: Reader) {
    exists k :: 0 <= k < |row| && rd.titles(row[k]).Some?
  }

  /** The first header row at index `i` or later within the scanned rows (indices from 0). */
  function HeaderRow(rows: seq<seq<Cell>>, i: nat, rd: Reader): (r: Option<nat>)
    ensures r.Some? ==> i <= r.value < HEADER_SCAN_ROWS && r.value < |rows| && IsHeaderRow(rows[r.value], rd)
    ensures r.Some? ==> forall j :: i <= j < r.value ==> !IsHeaderRow(rows[j], rd)
    ensures r.None? ==> forall j :: i <= j < |rows| && j < HEADER_SCAN_ROWS ==> !IsHeaderRow(rows[j], rd)
    decreases HEADER_SCAN_ROWS - i
  {
    if i >= |rows| || i >= HEADER_SCAN_ROWS then None
    else if IsHeaderRow(rows[i], rd) then Some(i)
    else HeaderRow(rows, i + 1, rd)
  }

  /** `col_map`: the columns of the header row that carry a known title. */
  function ColumnMap(row: seq<Cell>, rd: Reader): map<nat, Field> {
    map k: nat | k < |row| && rd.titles(row[k]).Some? :: rd.titles(row[k]).value
  }

  /**
   * The stored fields of a data row, filled column by column, so a later column with the same
   * field wins; the informational day is never stored.
   */
  function RowFields(row: seq<Cell>, colMap: map<nat, Field>, rd: Reader): (r: map<Field, Option<Value>>)
    ensures Day !in r
  {
    if row == [] then map[]
    else
      var k := |row| - 1;
      var fields := RowFields(row[..k], colMap, rd);
      if k in colMap && !Informational(colMap[k]) then fields[colMap[k] := rd.parse(colMap[k], row[k])]
      else fields
  }

  /** A column that stores field `f`: it lies in the row, is titled `f`, and `f` is not informational. */
  predicate StoresField(row: seq<Cell>, colMap: map<nat, Field>, k: int, f: Field) {
    0 <= k < |row| && k in colMap && colMap[k] == f && !Informational(f)
  }

  /** A field is stored exactly when some column stores it; the informational day never is. */
  lemma {:induction false} RowFieldsKeys(row: seq<Cell>, colMap: map<nat, Field>, rd: Reader)
    ensures forall f :: f in RowFields(row, colMap, rd) <==> exists k :: StoresField(row, colMap, k, f)
  {
    if row != [] {
      var k := |row| - 1;
      RowFieldsKeys(row[..k], colMap, rd);
      var fields := RowFields(row, colMap, rd);
      var prev := RowFields(row[..k], colMap, rd);
      forall f
        ensures f in fields <==> exists j :: StoresField(row, colMap, j, f)
      {
        assert f in fields <==> f in prev || StoresField(row, colMap, k, f);
        if exists j :: StoresField(row[..k], colMap, j, f) {
          var j :| StoresField(row[..k], colMap, j, f);
          assert StoresField(row, colMap, j, f);
        }
        if exists j :: StoresField(row, colMap, j, f) {
          var j :| StoresField(row, colMap, j, f);
          if j < k {
            assert StoresField(row[..k], colMap, j, f);
          }
        }
      }
    }
  }

  /** Each stored value is the parse of a column that stores that field. */
  lemma {:induction false} RowFieldsValues(row: seq<Cell>, colMap: map<nat, Field>, rd: Reader)
    ensures forall f :: f in RowFields(row, colMap, rd) ==>
      exists k :: StoresField(row, colMap, k, f) && RowFields(row, colMap, rd)[f] == rd.parse(f, row[k])
  {
    if row != [] {
      var k := |row| - 1;
      RowFieldsValues(row[..k], colMap, rd);
      var fields := RowFields(row, colMap, rd);
      var prev := RowFields(row[..k], colMap, rd);
      forall f | f in fields
        ensures exists j :: StoresField(row, colMap, j, f) && fields[f] == rd.parse(f, row[j])
      {
        if StoresField(row, colMap, k, f) {
          assert fields[f] == rd.parse(f, row[k]);
        } else {
          assert f in prev && fields[f] == prev[f];
          var j :| StoresField(row[..k], colMap, j, f) && prev[f] == rd.parse(f, row[..k][j]);
          assert row[..k][j] == row[j];
          assert StoresField(row, colMap, j, f);
        }
      }
    }
  }

  predicate AnyTruthy(row: seq<Cell>) {
    exists k :: 0 <= k < |row| && Truthy(row[k])
  }

  /** `event_data.get("date") or event_data.get("name")`; every parsed value is truthy. */
  predicate HasDateOrName(fields: map<Field, Option<Value>>) {
    (Date in fields && fields[Date].Some?) || (Name in fields && fields[Name].Some?)
  }

  /** A data row that yields an event: not all empty, and with a date or a name. */
  predicate Kept(row: seq<Cell>, colMap: map<nat, Field>, rd: Reader) {
    AnyTruthy(row) && HasDateOrName(RowFields(row, colMap, rd))
  }

  /** One parsed event with its 1-based sheet row number. */
  datatype ParsedRow = ParsedRow(rowIndex: nat, fields: map<Field, Option<Value>>)

  /** The events contributed by the row at index `k`: one when the row is kept, none otherwise. */
  function RowEvent(row: seq<Cell>, colMap: map<nat, Field>, rd: Reader, k: nat): seq<ParsedRow> {
    if Kept(row, colMap, rd) then [ParsedRow(k + 1, RowFields(row, colMap, rd))] else []
  }

  /** The events of the rows at indices `from` up to `upto`: at most one per row. */
  function DataRows(rows: seq<seq<Cell>>, colMap: map<nat, Field>, rd: Reader, from: nat, upto: nat): (r: seq<ParsedRow>)
    requires from <= upto <= |rows|
    ensures |r| <= upto - from
    decreases upto
  {
    if upto == from then []
    else DataRows(rows, colMap, rd, from, upto - 1) + RowEvent(rows[upto - 1], colMap, rd, upto - 1)
  }

  /** The event at row index `k` (from 0) is well placed: it carries row number `k + 1` and that row's fields. */
  predicate Placed(rows: seq<seq<Cell>>, colMap: map<nat, Field>, rd: Reader, from: nat, upto: nat, p: ParsedRow) {
    from < p.rowIndex <= upto <= |rows| && Kept(rows[p.rowIndex - 1], colMap, rd)
    && p.fields == RowFields(rows[p.rowIndex - 1], colMap, rd)
  }

  /** Every event is placed: it carries the row number of a kept row in range and that row's fields. */
  lemma {:induction false} DataRowsPlaced(rows: seq<seq<Cell>>, colMap: map<nat, Field>, rd: Reader, from: nat, upto: nat)
    requires from <= upto <= |rows|
    ensures forall p :: p in DataRows(rows, colMap, rd, from, upto) ==> Placed(rows, colMap, rd, from, upto, p)
    decreases upto
  {
    if upto > from {
      var k := upto - 1;
      DataRowsPlaced(rows, colMap, rd, from, k);
      var prev := DataRows(rows, colMap, rd, from, k);
      var last := RowEvent(rows[k], colMap, rd, k);
      assert DataRows(rows, colMap, rd, from, upto) == prev + last;
      forall p | p in prev + last
        ensures Placed(rows, colMap, rd, from, upto, p)
      {
        if p in prev {
          assert Placed(rows, colMap, rd, from, k, p);
        } else {
          assert p in last;
        }
      }
    }
  }

  /** The events appear in sheet order. */
  lemma {:induction false} DataRowsOrder(rows: seq<seq<Cell>>, colMap: map<nat, Field>, rd: Reader, from: nat, upto: nat)
    requires from <= upto <= |rows|
    ensures forall i, j :: 0 <= i < j < |DataRows(rows, colMap, rd, from, upto)| ==>
      DataRows(rows, colMap, rd, from, upto)[i].rowIndex < DataRows(rows, colMap, rd, from, upto)[j].rowIndex
    decreases upto
  {
    if upto > from {
      var k := upto - 1;
      DataRowsOrder(rows, colMap, rd, from, k);
      DataRowsPlaced(rows, colMap, rd, from, k);
      var prev := DataRows(rows, colMap, rd, from, k);
      var last := RowEvent(rows[k], colMap, rd, k);
      var r := DataRows(rows, colMap, rd, from, upto);
      assert r == prev + last;
      forall i, j | 0 <= i < j < |r|
        ensures r[i].rowIndex < r[j].rowIndex
      {
        assert r[i] == prev[i];
        assert Placed(rows, colMap, rd, from, k, prev[i]);
        if j < |prev| {
          assert r[j] == prev[j];
        } else {
          assert r[j] == last[0];
        }
      }
    }
  }

  /** Some event carries row number `n`. */
  predicate HasRowNumber(ps: seq<ParsedRow>, n: nat) {
    exists i :: 0 <= i < |ps| && ps[i].rowIndex == n
  }

  /** A row yields an event when it is kept: every kept row's number occurs among the events. */
  lemma {:induction false} DataRowsCover(rows: seq<seq<Cell>>, colMap: map<nat, Field>, rd: Reader, from: nat, upto: nat)
    requires from <= upto <= |rows|
    ensures forall k :: from <= k < upto && Kept(rows[k], colMap, rd) ==> HasRowNumber(DataRows(rows, colMap, rd, from, upto), k + 1)
    decreases upto
  {
    if upto > from {
      var k := upto - 1;
      DataRowsCover(rows, colMap, rd, from, k);
      var prev := DataRows(rows, colMap, rd, from, k);
      var last := RowEvent(rows[k], colMap, rd, k);
      var r := DataRows(rows, colMap, rd, from, upto);
      assert r == prev + last;
      forall k' | from <= k' < upto && Kept(rows[k'], colMap, rd)
        ensures HasRowNumber(r, k' + 1)
      {
        if k' < k {
          var i :| 0 <= i < |prev| && prev[i].rowIndex == k' + 1;
          assert r[i] == prev[i];
        } else {
          assert r[|prev|] == last[0];
        }
      }
    }
  }

  datatype SheetError = NoHeaderRow

  /**
   * `_parse_sheet`: it fails exactly when none of the first ten rows has a known column title, and
   * otherwise yields at most one event per row below the header.
   */
  function ParsedSheet(rows: seq<seq<Cell>>, rd: Reader): (r: Result<seq<ParsedRow>, SheetError>)
    ensures r.Err? <==> forall j :: 0 <= j < |rows| && j < HEADER_SCAN_ROWS ==> !IsHeaderRow(rows[j], rd)
    ensures r.Ok? ==> |r.value| < |rows|
  {
    match HeaderRow(rows, 0, rd)
    case None => Err(NoHeaderRow)
    case Some(h) => Ok(DataRows(rows, ColumnMap(rows[h], rd), rd, h + 1, |rows|))
  }

  /** A parsed row never holds the day column. */
  lemma ParsedSheetSpec(rows: seq<seq<Cell>>, rd: Reader)
    ensures ParsedSheet(rows, rd).Ok? ==> forall p :: p in ParsedSheet(rows, rd).value ==> Day !in p.fields
  {
    if ParsedSheet(rows, rd).Ok? {
      var h := HeaderRow(rows, 0, rd).value;
      var colMap := ColumnMap(rows[h], rd);
      DataRowsPlaced(rows, colMap, rd, h + 1, |rows|);
      forall p | p in ParsedSheet(rows, rd).value
        ensures Day !in p.fields
      {
        RowFieldsKeys(rows[p.rowIndex - 1], colMap, rd);
      }
    }
  }

  /** The header search: the first of the scanned rows holding a known title; its titled columns form the map. */
  method FindHeader(rows: seq<seq<Cell>>, rd: Reader) returns (headerRow: Option<nat>, colMap: map<nat, Field>)
    ensures headerRow == HeaderRow(rows, 0, rd)
    ensures headerRow.Some? ==> colMap == ColumnMap(rows[headerRow.value], rd)
    ensures headerRow.None? ==> colMap == map[]
  {
    headerRow := None;
    colMap := map[];
    var i := 0;
    while i < |rows| && i < HEADER_SCAN_ROWS
      invariant i <= HEADER_SCAN_ROWS
      invariant HeaderRow(rows, 0, rd) == HeaderRow(rows, i, rd)
      invariant headerRow.None? && colMap == map[]
      decreases HEADER_SCAN_ROWS - i
    {
      var row := rows[i];
      for col := 0 to |row|
        invariant colMap == TitledUpTo(row, rd, col)
        invariant headerRow.Some? <==> colMap != map[]
        invariant headerRow.Some? ==> headerRow.value == i
      {
        var field := rd.titles(row[col]);
        TitledStep(row, rd, col);
        if field.Some? {
          if headerRow.None? {
            headerRow := Some(i);
          }
          if headerRow.value == i {
            colMap := colMap[col := field.value];
            assert col in colMap;
          }
        }
      }
      HeaderIffTitled(row, rd);
      if headerRow.Some? {
        return;
      }
      i := i + 1;
    }
  }

  /** The titled columns among the first `n` cells of a row. */
  function TitledUpTo(row: seq<Cell>, rd: Reader, n: nat): map<nat, Field>
    requires n <= |row|
  {
    map k: nat | k < n && rd.titles(row[k]).Some? :: rd.titles(row[k]).value
  }

  /** One more cell adds its column exactly when it carries a known title. */
  lemma TitledStep(row: seq<Cell>, rd: Reader, n: nat)
    requires n < |row|
    ensures TitledUpTo(row, rd, n + 1) ==
      if rd.titles(row[n]).Some? then TitledUpTo(row, rd, n)[n := rd.titles(row[n]).value]
      else TitledUpTo(row, rd, n)
  {
  }

  /** A row is a header row exactly when its column map is not empty. */
  lemma HeaderIffTitled(row: seq<Cell>, rd: Reader)
    ensures ColumnMap(row, rd) == TitledUpTo(row, rd, |row|)
    ensures IsHeaderRow(row, rd) <==> ColumnMap(row, rd) != map[]
  {
    if IsHeaderRow(row, rd) {
      var k :| 0 <= k < |row| && rd.titles(row[k]).Some?;
      assert k in ColumnMap(row, rd);
    }
  }

  /** The fields of one data row, column by column. */
  method ReadRow(row: seq<Cell>, colMap: map<nat, Field>, rd: Reader) returns (fields: map<Field, Option<Value>>)
    ensures fields == RowFields(row, colMap, rd)
  {
    fields := map[];
    for col := 0 to |row|
      invariant fields == RowFields(row[..col], colMap, rd)
    {
      assert row[..col + 1][..col] == row[..col];
      if col in colMap {
        var f := colMap[col];
        if Informational(f) {
          continue;
        }
        fields := fields[f := rd.parse(f, row[col])];
      }
    }
    assert row[..|row|] == row;
  }

  /** `_parse_sheet`, step by step. */
  method ParseSheet(rows: seq<seq<Cell>>, rd: Reader) returns (r: Result<seq<ParsedRow>, SheetError>)
    ensures r == ParsedSheet(rows, rd)
  {
    var headerRow, colMap := FindHeader(rows, rd);
    if headerRow.Some? {
      HeaderIffTitled(rows[headerRow.value], rd);
    }
    if colMap == map[] {
      return Err(NoHeaderRow);
    }
    var h := headerRow.value;
    var events: seq<ParsedRow> := [];
    for k := h + 1 to |rows|
      invariant events == DataRows(rows, colMap, rd, h + 1, k)
    {
      var row := rows[k];
      if !AnyTruthy(row) {
        continue;
      }
      var fields := ReadRow(row, colMap, rd);
      if HasDateOrName(fields) {
        events := events + [ParsedRow(k + 1, fields)];
      }
    }
    return Ok(events);
  }
}
