/**
 * The contacts vault (app/utils/vault.py): the normalisers for Israeli phone numbers, first
 * names and organisation keys, and the two loops over the vault sheet — `mark_success`, which
 * rewrites the `preferred` and `last_success_at` cells of an organisation's rows, and
 * `choose_target_for_event`, which picks the contact to message for an event.
 */
module Vault {
  import opened Wrappers
  import opened Text
  import opened Sheets

  // ---------------------------------------------------------------------------
  // Normalisers
  // ---------------------------------------------------------------------------

  /**
   * `norm_phone_e164_il`: keep the digits; "972…" becomes "+972…", "0…" becomes "+972" and
   * the rest, "5…" becomes "+9725…"; anything else, or no digits at all, is None.
   */
  function NormPhoneE164IL(text: string): (r: Option<string>)
    ensures r.Some? ==> |r.value| >= 4 && r.value[..4] == "+972" && AllDigits(r.value[1..])
    ensures Filter(text, IsDigit) == [] ==> r.None?
  {
    if text == [] then None
    else
      var digits := Filter(text, IsDigit);
      if digits == [] then None
      else if "972" <= digits then Some("+" + digits)
      else if digits[0] == '0' then Some("+972" + digits[1..])
      else if digits[0] == '5' then Some("+972" + digits)
      else None
  }

  /**
   * The case table over every text, by its digits `d`: a number exactly when `d` starts with
   * "972", '0' or '5' (so a landline "03…" or "9723…" is one too); "972…" keeps its digits,
   * "0…" trades the '0' for "972", "5…" gains "972".
   */
  lemma NormPhoneCases(text: string)
    ensures var d, r := Filter(text, IsDigit), NormPhoneE164IL(text);
      && (r.Some? <==> d != [] && ("972" <= d || d[0] == '0' || d[0] == '5'))
      && ("972" <= d ==> r == Some("+" + d))
      && (d != [] && !("972" <= d) && d[0] == '0' ==> r == Some("+972" + d[1..]))
      && (d != [] && d[0] == '5' ==> r == Some("+972" + d))
  {
    if text == [] {
      assert Filter(text, IsDigit) == [];
    }
  }

  /** A normalised number normalises to itself. */
  lemma NormPhoneIdempotent(text: string)
    ensures var r := NormPhoneE164IL(text);
            r.Some? ==> NormPhoneE164IL(r.value) == r
  {
    var r := NormPhoneE164IL(text);
    if r.Some? {
      var p := r.value;
      var d := p[1..];
      assert p == ['+'] + d;
      FilterAllDigits(d);
      assert Filter(p, IsDigit) == d;
      assert d[..3] == "972";
    }
  }

  /** The three spellings of a mobile number — local, international, bare — agree. */
  lemma NormPhoneSpellings(d: string)
    requires AllDigits(d) && d != [] && d[0] == '5'
    ensures NormPhoneE164IL("0" + d) == Some("+972" + d)
    ensures NormPhoneE164IL("972" + d) == Some("+972" + d)
    ensures NormPhoneE164IL(d) == Some("+972" + d)
  {
    NormPhoneLocal(d);
    NormPhoneInternational(d);
    NormPhoneBare(d);
  }

  lemma NormPhoneLocal(d: string)
    requires AllDigits(d) && d != [] && d[0] == '5'
    ensures NormPhoneE164IL("0" + d) == Some("+972" + d)
  {
    NormPhoneDigits("0", d);
    var digits := "0" + d;
    assert !("972" <= digits) by { assert digits[0] == '0'; }
    assert digits[1..] == d;
  }

  lemma NormPhoneInternational(d: string)
    requires AllDigits(d) && d != [] && d[0] == '5'
    ensures NormPhoneE164IL("972" + d) == Some("+972" + d)
  {
    var digits := "972" + d;
    assert Filter(digits, IsDigit) == digits by { NormPhoneDigits("972", d); }
    assert "972" <= digits by { assert digits[..3] == "972"; }
    assert NormPhoneE164IL(digits) == Some("+" + digits);
    assert "+" + digits == "+972" + d;
  }

  lemma NormPhoneBare(d: string)
    requires AllDigits(d) && d != [] && d[0] == '5'
    ensures NormPhoneE164IL(d) == Some("+972" + d)
  {
    FilterAllDigits(d);
    assert !("972" <= d) by { assert d[0] != '9'; }
  }

  /** A prefix of digits in front of a digit string survives the digit filter. */
  lemma NormPhoneDigits(prefix: string, d: string)
    requires AllDigits(prefix) && AllDigits(d)
    ensures Filter(prefix + d, IsDigit) == prefix + d
  {
    var s := prefix + d;
    assert forall i :: 0 <= i < |s| ==> IsDigit(s[i]) by {
      assert forall i :: 0 <= i < |prefix| ==> s[i] == prefix[i];
      assert forall i :: |prefix| <= i < |s| ==> s[i] == d[i - |prefix|];
    }
    FilterAllDigits(s);
  }

  /** The Hebrew points and accents `only_first_name` removes (U+0591 to U+05C7). */
  predicate HebrewPoint(c: char) {
    '\U{0591}' <= c <= '\U{05c7}'
  }

  predicate NotHebrewPoint(c: char) {
    !HebrewPoint(c)
  }

  /** The separators `only_first_name` splits on: whitespace, ',', '|' and '/'. */
  predicate NameSeparator(c: char) {
    IsSpace(c) || c == ',' || c == '|' || c == '/'
  }

  /** The length of the text before the first separator. */
  function PieceLength(s: string): (n: nat)
    ensures n <= |s|
    ensures forall i :: 0 <= i < n ==> !NameSeparator(s[i])
    ensures n < |s| ==> NameSeparator(s[n])
  {
    if s == [] || NameSeparator(s[0]) then 0 else 1 + PieceLength(s[1..])
  }

  /** The name with the points removed and the surrounding whitespace stripped. */
  function CleanName(name: string): string {
    Strip(Filter(name, NotHebrewPoint))
  }

  /**
   * `only_first_name`: the first piece of the cleaned name split on runs of separators, or
   * None when the name is missing or empty or that first piece is empty.
   */
  function OnlyFirstName(name: Option<string>): (r: Option<string>)
    ensures r.Some? ==> name.Some? && r.value != [] && r.value <= CleanName(name.value)
    ensures r.Some? ==> forall i :: 0 <= i < |r.value| ==> !NameSeparator(r.value[i]) && !HebrewPoint(r.value[i])
    ensures r.Some? ==> |r.value| == |CleanName(name.value)| || NameSeparator(CleanName(name.value)[|r.value|])
    ensures r.None? <==> name.None? || CleanName(name.value) == [] || NameSeparator(CleanName(name.value)[0])
  {
    if name.None? || name.value == [] then None
    else
      var s := CleanName(name.value);
      var n := PieceLength(s);
      CleanNameNoPoints(name.value);
      if n == 0 then None else Some(s[..n])
  }

  lemma CleanNameNoPoints(name: string)
    ensures forall i :: 0 <= i < |CleanName(name)| ==> !HebrewPoint(CleanName(name)[i])
  {
    StripIsSlice(Filter(name, NotHebrewPoint));
  }

  /**
   * The characters `canon_org_key` keeps, its `\w`: read here as ASCII letters, digits and '_'
   * and the Hebrew block. Python's Unicode `\w` also keeps the letters and digits of every other
   * script, which this predicate does not.
   */
  predicate KeyWordChar(c: char) {
    'a' <= c <= 'z' || 'A' <= c <= 'Z' || IsDigit(c) || c == '_' || '\U{0590}' <= c <= '\U{05ff}'
  }

  predicate NotKeyWordChar(c: char) {
    !KeyWordChar(c)
  }

  predicate NotUpper(c: char) {
    !('A' <= c <= 'Z')
  }

  /** A character a canonical key may hold: a lower-case key-word character or a space. */
  predicate CanonChar(c: char) {
    (KeyWordChar(c) && NotUpper(c)) || c == ' '
  }

  predicate CanonChars(s: string) {
    forall i :: 0 <= i < |s| ==> CanonChar(s[i])
  }

  predicate SingleSpaced(s: string) {
    forall i :: 0 <= i < |s| - 1 ==> !(s[i] == ' ' && s[i + 1] == ' ')
  }

  /**
   * `canon_org_key`: lower-case, turn each run of other characters into one space, collapse
   * whitespace runs to one space, and strip.
   */
  function CanonOrgKey(raw: string): (k: string)
    ensures CanonChars(k) && SingleSpaced(k)
    ensures k != [] ==> k[0] != ' ' && k[|k| - 1] != ' '
  {
    var lowered := Lower(raw);
    var spaced := ReplaceRuns(lowered, NotKeyWordChar, ' ');
    var collapsed := ReplaceRuns(spaced, IsSpace, ' ');
    SpacedShape(lowered, spaced);
    CollapseNoOp(spaced);
    StripShape(collapsed);
    Strip(collapsed)
  }

  lemma KeyWordNotSpace(c: char)
    requires KeyWordChar(c)
    ensures !IsSpace(c)
  {
  }

  /** After the first run replacement the text is lower-case key-word characters and single spaces. */
  lemma SpacedShape(lowered: string, spaced: string)
    requires forall i :: 0 <= i < |lowered| ==> NotUpper(lowered[i])
    requires spaced == ReplaceRuns(lowered, NotKeyWordChar, ' ')
    ensures CanonChars(spaced) && SingleSpaced(spaced)
  {
    assert spaced == ReplaceRunsFrom(lowered, NotKeyWordChar, ' ', false);
    ReplaceRunsPreserves(lowered, NotKeyWordChar, ' ', false, NotUpper);
  }

  /** So the whitespace collapse has nothing left to do. */
  lemma CollapseNoOp(s: string)
    requires CanonChars(s) && SingleSpaced(s)
    ensures ReplaceRuns(s, IsSpace, ' ') == s
  {
    forall i | 0 <= i < |s|
      ensures s[i] == ' ' || !IsSpace(s[i])
    {
      if s[i] != ' ' {
        KeyWordNotSpace(s[i]);
      }
    }
    ReplaceRunsNoOp(s, IsSpace, ' ', false);
  }

  /** Stripping keeps the shape: the result is a slice of the input. */
  lemma StripShape(s: string)
    requires CanonChars(s) && SingleSpaced(s)
    ensures CanonChars(Strip(s)) && SingleSpaced(Strip(s))
  {
    StripIsSlice(s);
    SliceShape(s, StripStart(s), StripStart(s) + |Strip(s)|);
  }

  lemma SliceShape(s: string, a: nat, b: nat)
    requires CanonChars(s) && SingleSpaced(s)
    requires a <= b <= |s|
    ensures CanonChars(s[a..b]) && SingleSpaced(s[a..b])
  {
    var k := s[a..b];
    assert forall i :: 0 <= i < |k| ==> k[i] == s[a + i];
  }

  /** A canonical key has no upper-case letter, so lower-casing keeps it. */
  lemma LowerCanon(k: string)
    requires CanonChars(k)
    ensures Lower(k) == k
  {
    assert forall i :: 0 <= i < |k| ==> NotUpper(k[i]);
    LowerNoUpper(k);
  }

  /** Its only non-word characters are single spaces, so the first run replacement keeps it. */
  lemma SpacedCanon(k: string)
    requires CanonChars(k) && SingleSpaced(k)
    ensures ReplaceRuns(k, NotKeyWordChar, ' ') == k
  {
    assert forall i :: 0 <= i < |k| ==> k[i] == ' ' || !NotKeyWordChar(k[i]);
    ReplaceRunsNoOp(k, NotKeyWordChar, ' ', false);
  }

  /** It starts and ends with a word character, so stripping keeps it. */
  lemma StripCanon(k: string)
    requires CanonChars(k)
    requires k != [] ==> k[0] != ' ' && k[|k| - 1] != ' '
    ensures Strip(k) == k
  {
    if k != [] {
      KeyWordNotSpace(k[0]);
      KeyWordNotSpace(k[|k| - 1]);
    }
    StripNoOp(k);
  }

  /** A canonical key is its own canonical key. */
  lemma CanonOrgKeyIdempotent(raw: string)
    ensures CanonOrgKey(CanonOrgKey(raw)) == CanonOrgKey(raw)
  {
    var k := CanonOrgKey(raw);
    LowerCanon(k);
    SpacedCanon(k);
    CollapseNoOp(k);
    StripCanon(k);
  }

  // ---------------------------------------------------------------------------
  // The vault sheet
  // ---------------------------------------------------------------------------

  /** `max(...)` over a missing column raises TypeError in Python 3. */
  datatype VaultError = TypeError

  /** The vault columns, each found by its header (`_col(headers, [...])`). */
  datatype Columns = Columns(org: Option<nat>, phone: Option<nat>, name: Option<nat>,
                             pref: Option<nat>, last: Option<nat>)

  function VaultColumns(headers: seq<string>): Columns {
    Columns(FindColIndex(headers, ["org_key"]), FindColIndex(headers, ["phone_e164"]),
            FindColIndex(headers, ["name_first"]), FindColIndex(headers, ["preferred"]),
            FindColIndex(headers, ["last_success_at"]))
  }

  /** The row has the org-key and phone cells (`max(i_org_key, i_phone) < len(r)`). */
  predicate Long(row: Row, org: nat, phone: nat) {
    org < |row| && phone < |row|
  }

  /** A row of the organisation. */
  predicate OrgRow(row: Row, org: nat, phone: nat, key: string) {
    Long(row, org, phone) && Strip(row[org]) == key
  }

  /** A row of the organisation marked preferred ("TRUE" in any case). */
  predicate PreferredRow(row: Row, org: nat, phone: nat, pref: nat, key: string) {
    pref < |row| && OrgRow(row, org, phone, key) && Upper(Strip(row[pref])) == "TRUE"
  }

  /** The row's `last_success_at` text, or "" when the column or cell is missing. */
  function Stamp(row: Row, last: Option<nat>): string {
    if last.Some? && last.value < |row| then row[last.value] else ""
  }

  // ---------------------------------------------------------------------------
  // mark_success
  // ---------------------------------------------------------------------------

  /** The organisation's row holding this phone. */
  predicate OwnRow(row: Row, org: nat, phone: nat, key: string, phoneE164: string) {
    OrgRow(row, org, phone, key) && Strip(row[phone]) == phoneE164
  }

  /** The own row: `preferred` becomes "TRUE", then `last_success_at` the current time. */
  function MarkOwn(row: Row, pref: Option<nat>, last: Option<nat>, now: string): Row {
    var marked := if pref.Some? then SetCell(row, pref.value, "TRUE") else row;
    if last.Some? then SetCell(marked, last.value, now) else marked
  }

  /** Another row of the organisation: `preferred` is cleared. */
  function ClearPref(row: Row, pref: Option<nat>): Row {
    if pref.Some? then SetCell(row, pref.value, "") else row
  }

  /**
   * One row after `mark_success`: the own row is marked, the organisation's other rows lose
   * `preferred`, and every other row — short ones included — is left alone.
   */
  function MarkedRow(row: Row, org: nat, phone: nat, pref: Option<nat>, last: Option<nat>,
                     key: string, phoneE164: string, now: string): Row {
    if OwnRow(row, org, phone, key, phoneE164) then MarkOwn(row, pref, last, now)
    else if OrgRow(row, org, phone, key) then ClearPref(row, pref)
    else row
  }

  function Marker(org: nat, phone: nat, pref: Option<nat>, last: Option<nat>,
                  key: string, phoneE164: string, now: string): Row -> Row {
    (row: Row) => MarkedRow(row, org, phone, pref, last, key, phoneE164, now)
  }

  /** What marking does to the own row, cell by cell. */
  lemma MarkOwnSpec(row: Row, pref: Option<nat>, last: Option<nat>, now: string)
    ensures var r := MarkOwn(row, pref, last, now);
            |r| >= |row|
            && (pref.Some? && (last.None? || last.value != pref.value) ==> r[pref.value] == "TRUE")
            && (last.Some? ==> r[last.value] == now)
            && (forall i :: 0 <= i < |row| && Some(i) != pref && Some(i) != last ==> r[i] == row[i])
  {
  }

  /** What clearing does to another row of the organisation, cell by cell. */
  lemma ClearPrefSpec(row: Row, pref: Option<nat>)
    ensures var r := ClearPref(row, pref);
            |r| >= |row|
            && (pref.Some? ==> r[pref.value] == "")
            && (pref.None? ==> r == row)
            && (forall i :: 0 <= i < |row| && Some(i) != pref ==> r[i] == row[i])
  {
  }

  /** What `mark_success` does to one row, cell by cell. */
  lemma MarkedRowSpec(row: Row, org: nat, phone: nat, pref: Option<nat>, last: Option<nat>,
                      key: string, phoneE164: string, now: string)
    ensures var r := MarkedRow(row, org, phone, pref, last, key, phoneE164, now);
            (!OrgRow(row, org, phone, key) ==> r == row)
            && (OwnRow(row, org, phone, key, phoneE164) ==>
                  (pref.Some? && (last.None? || last.value != pref.value) ==> pref.value < |r| && r[pref.value] == "TRUE")
                  && (last.Some? ==> last.value < |r| && r[last.value] == now))
            && (OrgRow(row, org, phone, key) && !OwnRow(row, org, phone, key, phoneE164) ==>
                  (pref.Some? ==> pref.value < |r| && r[pref.value] == "")
                  && (pref.None? ==> r == row))
            && (forall i :: 0 <= i < |row| && Some(i) != pref && Some(i) != last ==> i < |r| && r[i] == row[i])
  {
    MarkOwnSpec(row, pref, last, now);
    ClearPrefSpec(row, pref);
  }

  /** The two `update_cell` calls on the own row. */
  method MarkOwnCells(ws: Worksheet, idx: nat, pref: Option<nat>, last: Option<nat>, now: string)
    requires idx < |ws.rows|
    modifies ws
    ensures ws.rows == old(ws.rows)[idx := MarkOwn(old(ws.rows)[idx], pref, last, now)]
  {
    var row := ws.rows[idx];
    var marked := if pref.Some? then SetCell(row, pref.value, "TRUE") else row;
    if pref.Some? {
      ws.UpdateCell(idx + 1, pref.value + 1, "TRUE");
    } else {
      assert ws.rows == ws.rows[idx := marked];
    }
    assert ws.rows == old(ws.rows)[idx := marked];
    if last.Some? {
      ws.UpdateCell(idx + 1, last.value + 1, now);
      assert ws.rows == old(ws.rows)[idx := SetCell(marked, last.value, now)];
    }
  }

  /** One turn of the loop: the `update_cell` calls for row `idx`. */
  method MarkRow(ws: Worksheet, idx: nat, org: nat, phone: nat, pref: Option<nat>, last: Option<nat>,
                 key: string, phoneE164: string, now: string)
    requires idx < |ws.rows|
    modifies ws
    ensures ws.rows == old(ws.rows)[idx := MarkedRow(old(ws.rows)[idx], org, phone, pref, last, key, phoneE164, now)]
  {
    var r := ws.rows[idx];
    if OwnRow(r, org, phone, key, phoneE164) {
      MarkOwnCells(ws, idx, pref, last, now);
    } else if OrgRow(r, org, phone, key) && pref.Some? {
      ws.UpdateCell(idx + 1, pref.value + 1, "");
    } else {
      assert ws.rows[idx := r] == ws.rows;
    }
  }

  /**
   * `mark_success`: rewrite the organisation's rows as `MarkedRow` says. A data row with
   * the org-key or phone column missing raises TypeError before anything is written.
   */
  method MarkSuccess(ws: Worksheet, orgDisplayName: string, phoneE164: string, now: string)
    returns (r: Result<(), VaultError>)
    modifies ws
    ensures var cols := VaultColumns(Headers(old(ws.rows)));
            var key := CanonOrgKey(orgDisplayName);
            if |old(ws.rows)| <= 1 then r.Ok? && ws.rows == old(ws.rows)
            else if cols.org.None? || cols.phone.None? then r == Err(TypeError) && ws.rows == old(ws.rows)
            else r.Ok? && ws.rows == UpdatedBelow(old(ws.rows),
                   Marker(cols.org.value, cols.phone.value, cols.pref, cols.last, key, phoneE164, now), |old(ws.rows)|)
  {
    var key := CanonOrgKey(orgDisplayName);
    var rows := ws.rows;
    var cols := VaultColumns(Headers(rows));
    if |rows| <= 1 {
      return Ok(());
    }
    if cols.org.None? || cols.phone.None? {
      return Err(TypeError);
    }
    MarkRows(ws, cols.org.value, cols.phone.value, cols.pref, cols.last, key, phoneE164, now);
    return Ok(());
  }

  /** The loop of `mark_success` over the data rows. */
  method MarkRows(ws: Worksheet, org: nat, phone: nat, pref: Option<nat>, last: Option<nat>,
                  key: string, phoneE164: string, now: string)
    requires |ws.rows| >= 1
    modifies ws
    ensures ws.rows == UpdatedBelow(old(ws.rows), Marker(org, phone, pref, last, key, phoneE164, now), |old(ws.rows)|)
  {
    var rows := ws.rows;
    var mark := Marker(org, phone, pref, last, key, phoneE164, now);
    var idx := 1;
    while idx < |rows|
      invariant 1 <= idx <= |rows|
      invariant ws.rows == UpdatedBelow(rows, mark, idx)
    {
      UpdatedStep(rows, mark, idx);
      MarkRow(ws, idx, org, phone, pref, last, key, phoneE164, now);
      idx := idx + 1;
    }
  }

  // ---------------------------------------------------------------------------
  // choose_target_for_event
  // ---------------------------------------------------------------------------

  /** The address and display name to message, or `(None, None)`. */
  datatype Target = NoTarget | Target(address: string, name: Option<string>)

  /** The stripped `name_first` cell, None when missing or empty (`name or None`). */
  function DisplayName(row: Row, name: Option<nat>): Option<string> {
    if name.Some? && name.value < |row| && Strip(row[name.value]) != [] then Some(Strip(row[name.value]))
    else None
  }

  function TargetOf(row: Row, phone: nat, name: Option<nat>): Target
    requires phone < |row|
  {
    Target("whatsapp:" + Strip(row[phone]), DisplayName(row, name))
  }

  /** Row `b` is the first data row satisfying `test`. */
  predicate FirstWhere(rows: seq<Row>, test: Row -> bool, b: nat) {
    1 <= b < |rows| && test(rows[b]) && forall j :: 1 <= j < b ==> !test(rows[j])
  }

  /**
   * Row `b` is, among the data rows satisfying `test`, the first one with the greatest
   * `stamp` (Python's string order).
   */
  predicate FirstGreatest(rows: seq<Row>, test: Row -> bool, stamp: Row -> string, b: nat) {
    1 <= b < |rows| && test(rows[b])
    && (forall j :: 1 <= j < |rows| && test(rows[j]) ==> !StrLess(stamp(rows[b]), stamp(rows[j])))
    && (forall j :: 1 <= j < b && test(rows[j]) ==> StrLess(stamp(rows[j]), stamp(rows[b])))
  }

  /** The first loop of `choose_target_for_event`: the first data row passing `test`. */
  method FindFirst(rows: seq<Row>, test: Row -> bool) returns (found: Option<nat>)
    ensures found.Some? ==> FirstWhere(rows, test, found.value)
    ensures found.None? ==> forall j :: 1 <= j < |rows| ==> !test(rows[j])
  {
    var idx := 1;
    while idx < |rows|
      invariant 1 <= idx <= |rows| || |rows| == 0
      invariant forall j :: 1 <= j < idx && j < |rows| ==> !test(rows[j])
    {
      if test(rows[idx]) {
        return Some(idx);
      }
      idx := idx + 1;
    }
    return None;
  }

  /**
   * The second loop: keep `best_ts`, the greatest stamp so far, and move `best_idx` only on a
   * strictly greater stamp, or to the first row of the organisation when none was kept yet.
   */
  method FindLatest(rows: seq<Row>, test: Row -> bool, stamp: Row -> string) returns (best: Option<nat>)
    ensures best.None? <==> forall j :: 1 <= j < |rows| ==> !test(rows[j])
    ensures best.Some? ==> FirstGreatest(rows, test, stamp, best.value)
  {
    best := None;
    var bestTs := "";
    var idx := 1;
    while idx < |rows|
      invariant 1 <= idx <= |rows| || |rows| == 0
      invariant best.None? ==> bestTs == "" && forall j :: 1 <= j < idx && j < |rows| ==> !test(rows[j])
      invariant best.Some? ==> 1 <= best.value < idx && best.value < |rows| && test(rows[best.value])
                               && stamp(rows[best.value]) == bestTs
      invariant best.Some? ==> forall j :: 1 <= j < idx && j < |rows| && test(rows[j]) ==> !StrLess(bestTs, stamp(rows[j]))
      invariant best.Some? ==> forall j :: 1 <= j < best.value && test(rows[j]) ==> StrLess(stamp(rows[j]), bestTs)
    {
      if test(rows[idx]) {
        var ts := stamp(rows[idx]);
        if StrLess(bestTs, ts) {
          LatestRaised(rows, test, stamp, idx, bestTs, ts, best);
          StrLessIrreflexive(ts);
          bestTs, best := ts, Some(idx);
        } else if best.None? {
          StrLessTotal(bestTs, ts);
          best := Some(idx);
        }
      }
      idx := idx + 1;
    }
  }

  /** A strictly greater stamp beats every row seen so far. */
  lemma LatestRaised(rows: seq<Row>, test: Row -> bool, stamp: Row -> string, idx: nat,
                     bestTs: string, ts: string, best: Option<nat>)
    requires StrLess(bestTs, ts) && idx <= |rows|
    requires best.None? ==> forall j :: 1 <= j < idx ==> !test(rows[j])
    requires best.Some? ==> forall j :: 1 <= j < idx && test(rows[j]) ==> !StrLess(bestTs, stamp(rows[j]))
    ensures forall j :: 1 <= j < idx && test(rows[j]) ==> StrLess(stamp(rows[j]), ts) && !StrLess(ts, stamp(rows[j]))
  {
    forall j | 1 <= j < idx && test(rows[j])
      ensures StrLess(stamp(rows[j]), ts) && !StrLess(ts, stamp(rows[j]))
    {
      StrLessTotal(bestTs, stamp(rows[j]));
      if stamp(rows[j]) != bestTs {
        StrLessTransitive(stamp(rows[j]), bestTs, ts);
      }
      StrLessAsymmetric(stamp(rows[j]), ts);
    }
  }

  function IsOrgRow(org: nat, phone: nat, key: string): Row -> bool {
    (row: Row) => OrgRow(row, org, phone, key)
  }

  function IsPreferredRow(org: nat, phone: nat, pref: nat, key: string): Row -> bool {
    (row: Row) => PreferredRow(row, org, phone, pref, key)
  }

  function StampOf(last: Option<nat>): Row -> string {
    (row: Row) => Stamp(row, last)
  }

  /**
   * The row `choose_target_for_event` messages: the first preferred row of the organisation;
   * failing that, its first row with the greatest `last_success_at`.
   */
  predicate Chosen(rows: seq<Row>, org: nat, phone: nat, pref: nat, last: Option<nat>, key: string, b: nat) {
    1 <= b < |rows| && Long(rows[b], org, phone)
    && (FirstWhere(rows, IsPreferredRow(org, phone, pref, key), b)
        || ((forall j :: 1 <= j < |rows| ==> !PreferredRow(rows[j], org, phone, pref, key))
            && FirstGreatest(rows, IsOrgRow(org, phone, key), StampOf(last), b)))
  }

  /** At most one row is chosen. */
  lemma ChosenUnique(rows: seq<Row>, org: nat, phone: nat, pref: nat, last: Option<nat>, key: string, b: nat, c: nat)
    requires Chosen(rows, org, phone, pref, last, key, b) && Chosen(rows, org, phone, pref, last, key, c)
    ensures b == c
  {
  }

  /** Both loops of `choose_target_for_event`, once its columns are known. */
  method ChooseRow(rows: seq<Row>, org: nat, phone: nat, pref: nat, last: Option<nat>, key: string)
    returns (b: Option<nat>)
    ensures b.Some? ==> Chosen(rows, org, phone, pref, last, key, b.value)
    ensures b.None? ==> forall j :: 1 <= j < |rows| ==> !OrgRow(rows[j], org, phone, key)
  {
    b := FindFirst(rows, IsPreferredRow(org, phone, pref, key));
    if b.Some? {
      return;
    }
    assert forall j :: 1 <= j < |rows| ==> !PreferredRow(rows[j], org, phone, pref, key);
    b := FindLatest(rows, IsOrgRow(org, phone, key), StampOf(last));
  }

  /** `max(...)` over the columns the first loop reads fails when one of them is missing. */
  predicate MissingColumn(cols: Columns) {
    cols.org.None? || cols.phone.None? || cols.pref.None?
  }

  /**
   * `choose_target_for_event` given the event's name (None when the event is not found) and
   * the vault grid. A data row with the org-key, phone or preferred column missing raises
   * TypeError in the first loop.
   */
  method ChooseTargetForEvent(eventName: Option<string>, rows: seq<Row>) returns (r: Result<Target, VaultError>)
    ensures eventName.None? ==> r == Ok(NoTarget)
    ensures var cols := VaultColumns(Headers(rows));
            eventName.Some? ==> (r.Err? <==> |rows| > 1 && MissingColumn(cols))
    ensures var cols := VaultColumns(Headers(rows));
            r.Ok? && r.value.Target? ==>
              eventName.Some? && !MissingColumn(cols)
              && exists b: nat :: Chosen(rows, cols.org.value, cols.phone.value, cols.pref.value, cols.last,
                                    CanonOrgKey(eventName.value), b)
                             && r.value == TargetOf(rows[b], cols.phone.value, cols.name)
    ensures var cols := VaultColumns(Headers(rows));
            r.Ok? && r.value.NoTarget? && eventName.Some? && |rows| > 1 ==>
              !MissingColumn(cols)
              && forall j :: 1 <= j < |rows| ==> !OrgRow(rows[j], cols.org.value, cols.phone.value, CanonOrgKey(eventName.value))
  {
    if eventName.None? {
      return Ok(NoTarget);
    }
    var key := CanonOrgKey(eventName.value);
    var cols := VaultColumns(Headers(rows));
    if |rows| <= 1 {
      return Ok(NoTarget);
    }
    if MissingColumn(cols) {
      return Err(TypeError);
    }
    var b := ChooseRow(rows, cols.org.value, cols.phone.value, cols.pref.value, cols.last, key);
    if b.None? {
      return Ok(NoTarget);
    }
    return Ok(TargetOf(rows[b.value], cols.phone.value, cols.name));
  }
}
