/**
 * Reading an inbound WhatsApp message (app/hoh_service.py): whether the payload carries a
 * shared contact, which phone numbers a free-text reply contains, and the name and phone of a
 * minimal vCard (the FN, N and TEL properties of RFC 6350, sections 6.2.1, 6.2.2 and 6.4.1).
 *
 * A payload is the form-encoded webhook body: a map from field name to value, where a missing
 * field reads as the empty string (`payload.get(key)` is falsy either way).
 */
module Inbound {
  import opened Wrappers
  import opened Text
  import opened Phone

  type Payload = map<string, string>

  /** `payload.get(key) or ""` */
  function Get(p: Payload, key: string): (v: string)
    ensures key !in p ==> v == ""
  {
    if key in p then p[key] else ""
  }

  /** `payload.get(a) or payload.get(b) or ""` */
  function FirstSet(p: Payload, a: string, b: string): (v: string)
    ensures Get(p, a) != "" ==> v == Get(p, a)
    ensures Get(p, a) == "" ==> v == Get(p, b)
  {
    if Get(p, a) != "" then Get(p, a) else Get(p, b)
  }

  const CONTACT_PHONE_KEY: string := "Contacts[0][PhoneNumber]"
  const CONTACT_WAID_KEY: string := "Contacts[0][WaId]"
  const CONTACT_NAME_KEY: string := "Contacts[0][Name]"

  /** `int(NumMedia or numMedia or 0)`, where a value `int()` rejects counts as 0. */
  function MediaCount(p: Payload): (n: int)
    ensures FirstSet(p, "NumMedia", "numMedia") == "" ==> n == 0
  {
    var raw := FirstSet(p, "NumMedia", "numMedia");
    if raw == "" then 0
    else match ParseInt(raw)
      case Some(v) => v
      case None => 0
  }

  /** Media item `idx` is a vCard: its content type mentions "vcard" or its file name ends in ".vcf". */
  predicate IsVcardMedia(p: Payload, idx: nat) {
    var d := DecimalString(idx);
    var contentType := FirstSet(p, "MediaContentType" + d, "mediaContentType" + d);
    var filename := FirstSet(p, "MediaFilename" + d, "mediaFilename" + d);
    Contains(Lower(contentType), "vcard") || EndsWith(Lower(filename), ".vcf")
  }

  /** The scan over media items 0 .. n-1. */
  function AnyVcardMedia(p: Payload, n: nat): (b: bool)
    ensures b <==> exists idx :: 0 <= idx < n && IsVcardMedia(p, idx)
  {
    if n == 0 then false else AnyVcardMedia(p, n - 1) || IsVcardMedia(p, n - 1)
  }

  /**
   * `_is_contact_share`: an empty payload is not a share; otherwise it is one exactly when a
   * Twilio contact phone or WhatsApp id is set, or one of the announced media items is a vCard.
   */
  function IsContactShare(p: Payload): (b: bool)
    ensures p == map[] ==> !b
    ensures p != map[] ==>
      (b <==> Get(p, CONTACT_PHONE_KEY) != "" || Get(p, CONTACT_WAID_KEY) != ""
              || exists idx :: 0 <= idx < MediaCount(p) && IsVcardMedia(p, idx))
  {
    if p == map[] then false
    else if Get(p, CONTACT_PHONE_KEY) != "" || Get(p, CONTACT_WAID_KEY) != "" then true
    else MediaCount(p) > 0 && AnyVcardMedia(p, MediaCount(p))
  }

  /** Setting the contact phone field to a non-empty value makes any payload a contact share. */
  lemma PhoneFieldMakesShare(p: Payload, phone: string, other: string, value: string)
    requires phone != "" && other != CONTACT_PHONE_KEY
    ensures IsContactShare(p[CONTACT_PHONE_KEY := phone][other := value])
  {
    var q := p[CONTACT_PHONE_KEY := phone][other := value];
    assert CONTACT_PHONE_KEY in q && q[CONTACT_PHONE_KEY] == phone;
  }

  // ---------------------------------------------------------------------------------------
  // Phone numbers in free text: `re.findall(r"[+]?[\d][\d\s()\-]{7,}", text)`, then
  // normalisation and a plausibility filter.

  /** A character of the class `[\d\s()\-]`. */
  predicate InPhoneRun(c: char) {
    IsDigit(c) || IsSeparator(c)
  }

  /** The length of the leading run of `[\d\s()\-]` characters (greedy). */
  function RunLength(s: string): (n: nat)
    ensures n <= |s|
    ensures forall i :: 0 <= i < n ==> InPhoneRun(s[i])
    ensures n == |s| || !InPhoneRun(s[n])
  {
    if s == [] || !InPhoneRun(s[0]) then 0 else 1 + RunLength(s[1..])
  }

  /**
   * The length of the match of the pattern anchored at the start of `s`, or 0 when it does
   * not match there: an optional '+', a digit, then at least seven run characters, greedily.
   */
  function MatchLength(s: string): (n: nat)
    ensures n == 0 || 8 <= n <= |s|
    ensures n > 0 ==> IsDigit(s[0]) || (s[0] == '+' && IsDigit(s[1]))
    ensures n > 0 ==> forall i :: 1 <= i < n ==> InPhoneRun(s[i])
  {
    if |s| >= 2 && s[0] == '+' && IsDigit(s[1]) && RunLength(s[2..]) >= 7 then 2 + RunLength(s[2..])
    else if s != [] && IsDigit(s[0]) && RunLength(s[1..]) >= 7 then 1 + RunLength(s[1..])
    else 0
  }

  predicate NoDigits(s: string) {
    forall i :: 0 <= i < |s| ==> !IsDigit(s[i])
  }

  /** A match is the pattern's shape: eight or more characters, '+' or a digit, then a digit and run characters. */
  predicate MatchShape(m: string) {
    && |m| >= 8
    && (IsDigit(m[0]) || (m[0] == '+' && IsDigit(m[1])))
    && forall i :: 1 <= i < |m| ==> InPhoneRun(m[i])
  }

  /**
   * `re.findall`: leftmost, non-overlapping matches, scanning on after each one. Every match has
   * the pattern's shape, and text without a digit has no match.
   */
  function FindAll(s: string): (r: seq<string>)
    ensures forall k :: 0 <= k < |r| ==> MatchShape(r[k])
    ensures NoDigits(s) ==> r == []
    decreases |s|
  {
    if s == [] then []
    else
      var n := MatchLength(s);
      if n > 0 then
        assert MatchShape(s[..n]);
        [s[..n]] + FindAll(s[n..])
      else
        assert NoDigits(s) ==> NoDigits(s[1..]);
        FindAll(s[1..])
  }

  /** The filter applied to each normalised match: non-empty, starting with '+', at least ten characters. */
  predicate PhoneLike(n: string) {
    n != [] && n[0] == '+' && |n| >= 10
  }

  /** The normalised form of one match. */
  function NormalizedMatch(m: string): string {
    NormalizeIL(Strip(m))
  }

  /** The normalised, plausible matches, in order. */
  function KeepPhones(ms: seq<string>): (r: seq<string>)
    ensures |r| <= |ms|
    ensures forall k :: 0 <= k < |r| ==> PhoneLike(r[k])
  {
    if ms == [] then []
    else
      var n := NormalizedMatch(ms[|ms| - 1]);
      KeepPhones(ms[..|ms| - 1]) + (if PhoneLike(n) then [n] else [])
  }

  /** What `_extract_phone_numbers_from_text` returns. */
  function ExtractedPhones(text: string): (r: seq<string>)
    ensures forall k :: 0 <= k < |r| ==> PhoneLike(r[k])
  {
    if text == [] then [] else KeepPhones(FindAll(text))
  }

  /** Text without a digit yields no phone, so such a reply to a contact request is refused. */
  lemma NoDigitsNoPhones(text: string)
    requires NoDigits(text)
    ensures ExtractedPhones(text) == []
  {
  }

  /**
   * `_extract_phone_numbers_from_text`: normalise every match of the phone pattern and keep
   * those that look like an E.164 number.
   */
  method ExtractPhoneNumbers(text: string) returns (phones: seq<string>)
    ensures phones == ExtractedPhones(text)
  {
    if text == [] {
      return [];
    }
    var matches := FindAll(text);
    phones := [];
    for i := 0 to |matches|
      invariant phones == KeepPhones(matches[..i])
    {
      assert matches[..i + 1][..i] == matches[..i];
      phones := KeepIfPhone(phones, matches[i]);
    }
    assert matches[..|matches|] == matches;
  }

  /** One step of the loop: normalise a match and append it when it looks like a phone. */
  method KeepIfPhone(phones: seq<string>, m: string) returns (r: seq<string>)
    ensures r == phones + (if PhoneLike(NormalizedMatch(m)) then [NormalizedMatch(m)] else [])
  {
    var normalized := NormalizedMatch(m);
    r := phones;
    if normalized != [] && normalized[0] == '+' && |normalized| >= 10 {
      r := r + [normalized];
    }
  }

  /** A phone extracted from some text implies the text has a word to take a name from. */
  lemma PhoneMeansWord(text: string)
    requires ExtractedPhones(text) != []
    ensures Words(text) != []
  {
    if NoDigits(text) {
      NoDigitsNoPhones(text);
    }
    var i :| 0 <= i < |text| && IsDigit(text[i]);
    var t := TrimStart(text);
    assert !IsSpace(text[i]);
    assert t != [];
  }

  // ---------------------------------------------------------------------------------------
  // vCard reading: `_parse_vcard_contact`.

  /** A line boundary of `str.splitlines()`. */
  predicate IsLineBreak(c: char) {
    c == '\n' || c == '\r' || c == '\U{b}' || c == '\U{c}' || '\U{1c}' <= c <= '\U{1e}'
    || c == '\U{85}' || c == '\U{2028}' || c == '\U{2029}'
  }

  /**
   * The text between line boundaries. A "\r\n" pair yields an extra empty line and a final
   * boundary a trailing empty line, neither of which `splitlines()` produces; an empty line
   * changes nothing in the reader below, so the result is the same.
   */
  function Lines(s: string): seq<string>
    decreases |s|
  {
    if forall i :: 0 <= i < |s| ==> !IsLineBreak(s[i]) then [s]
    else
      var i := FirstBreak(s);
      [s[..i]] + Lines(s[i + 1..])
  }

  function FirstBreak(s: string): (i: nat)
    requires exists i :: 0 <= i < |s| && IsLineBreak(s[i])
    ensures i < |s| && IsLineBreak(s[i])
    ensures forall j :: 0 <= j < i ==> !IsLineBreak(s[j])
  {
    if IsLineBreak(s[0]) then 0
    else
      assert exists i :: 0 <= i < |s[1..]| && IsLineBreak(s[1..][i]) by {
        var i :| 0 <= i < |s| && IsLineBreak(s[i]);
        assert s[1..][i - 1] == s[i];
      }
      1 + FirstBreak(s[1..])
  }

  /** `line.split(":", 1)[-1]`: the text after the first ':', or the whole line without one. */
  function AfterColon(line: string): (r: string)
    ensures ':' in line ==> |r| < |line| && r == line[|line| - |r|..]
    ensures ':' !in line ==> r == line
  {
    if ':' in line then line[IndexOf(line, ':') + 1..] else line
  }

  /** The non-empty pieces, in order: `part for part in parts if part`. */
  function NonEmpty(parts: seq<string>): seq<string> {
    if parts == [] then []
    else (if parts[0] != [] then [parts[0]] else []) + NonEmpty(parts[1..])
  }

  predicate StartsWith(s: string, prefix: string) {
    prefix <= s
  }

  /** `sub in s`, searched position by position. */
  predicate Mentions(s: string, sub: string)
    decreases |s|
  {
    if |s| < |sub| then false else sub <= s || Mentions(s[1..], sub)
  }

  /** What one stripped line offers: a name (FN, or N) and a phone (any line mentioning TEL). */
  datatype LineInfo = LineInfo(name: Option<string>, phone: Option<string>)

  /** The name a line offers: FN's value, or N's components joined with spaces. */
  function NameFrom(line: string): Option<string> {
    var upper := Upper(line);
    if StartsWith(upper, "FN:") then Some(Strip(AfterColon(line)))
    else if StartsWith(upper, "N:") then Some(Strip(Join(NonEmpty(Split(AfterColon(line), ';')), " ")))
    else None
  }

  /** The phone a line offers: the value of any line mentioning TEL. */
  function PhoneFrom(line: string): (r: Option<string>)
    ensures r.None? <==> !Mentions(Upper(line), "TEL")
  {
    if Mentions(Upper(line), "TEL") then Some(Strip(AfterColon(line))) else None
  }

  function ReadLine(rawLine: string): LineInfo {
    var line := Strip(rawLine);
    LineInfo(NameFrom(line), PhoneFrom(line))
  }

  function ReadLines(lines: seq<string>): (infos: seq<LineInfo>)
    ensures |infos| == |lines|
    ensures forall k :: 0 <= k < |lines| ==> infos[k] == ReadLine(lines[k])
  {
    seq(|lines|, k requires 0 <= k < |lines| => ReadLine(lines[k]))
  }

  /** One line of the reader: fill whichever of (phone, name) is still empty. */
  function VcardStep(acc: (string, string), info: LineInfo): (r: (string, string))
    ensures acc.0 != "" ==> r.0 == acc.0
    ensures acc.1 != "" ==> r.1 == acc.1
    ensures acc.0 == "" && info.phone.Some? ==> r.0 == info.phone.value
    ensures info.phone.None? ==> r.0 == acc.0
    ensures acc.1 == "" && info.name.Some? ==> r.1 == info.name.value
    ensures info.name.None? ==> r.1 == acc.1
  {
    var name := if acc.1 == "" && info.name.Some? then info.name.value else acc.1;
    var phone := if acc.0 == "" && info.phone.Some? then info.phone.value else acc.0;
    (phone, name)
  }

  /** The reader over the lines, from the first. */
  function VcardFold(infos: seq<LineInfo>): (string, string) {
    if infos == [] then ("", "")
    else VcardStep(VcardFold(infos[..|infos| - 1]), infos[|infos| - 1])
  }

  /**
   * The (phone, name) a vCard text yields: a vCard without TEL lines yields no phone, and one
   * without FN or N lines yields no name.
   */
  function ParseVcard(text: string): (r: (string, string))
    ensures (forall k :: 0 <= k < |Lines(text)| ==> !Mentions(Upper(Strip(Lines(text)[k])), "TEL")) ==> r.0 == ""
    ensures (forall k :: 0 <= k < |Lines(text)| ==>
               !StartsWith(Upper(Strip(Lines(text)[k])), "FN:") && !StartsWith(Upper(Strip(Lines(text)[k])), "N:"))
            ==> r.1 == ""
  {
    var infos := ReadLines(Lines(text));
    NoTelNoPhone(infos);
    NoNameLineNoName(infos);
    VcardFold(infos)
  }

  /** Once both fields are found, later lines change nothing: the early exit is only a shortcut. */
  lemma {:induction false} FoundIsFinal(infos: seq<LineInfo>, more: seq<LineInfo>)
    requires VcardFold(infos).0 != "" && VcardFold(infos).1 != ""
    ensures VcardFold(infos + more) == VcardFold(infos)
    decreases |more|
  {
    if more != [] {
      var front := more[..|more| - 1];
      assert (infos + more)[..|infos + more| - 1] == infos + front;
      FoundIsFinal(infos, front);
    } else {
      assert infos + more == infos;
    }
  }

  /** The early exit after line `i`: the whole fold equals the fold up to `i`. */
  lemma FoundStops(infos: seq<LineInfo>, i: nat)
    requires i <= |infos| && VcardFold(infos[..i]).0 != "" && VcardFold(infos[..i]).1 != ""
    ensures VcardFold(infos) == VcardFold(infos[..i])
  {
    assert infos == infos[..i] + infos[i..];
    FoundIsFinal(infos[..i], infos[i..]);
  }

  /** Without a line mentioning TEL, no phone is found. */
  lemma {:induction false} NoTelNoPhone(infos: seq<LineInfo>)
    ensures (forall k :: 0 <= k < |infos| ==> infos[k].phone.None?) ==> VcardFold(infos).0 == ""
  {
    if infos != [] {
      NoTelNoPhone(infos[..|infos| - 1]);
    }
  }

  /** The first line with a non-empty TEL value fixes the phone; later TEL lines cannot change it. */
  lemma {:induction false} FirstTelWins(infos: seq<LineInfo>, k: nat)
    requires k < |infos| && infos[k].phone.Some? && infos[k].phone.value != ""
    requires forall j :: 0 <= j < k ==> infos[j].phone.None?
    ensures VcardFold(infos).0 == infos[k].phone.value
    decreases |infos|
  {
    if k == |infos| - 1 {
      NoTelNoPhone(infos[..k]);
    } else {
      var front := infos[..|infos| - 1];
      assert forall j :: 0 <= j <= k ==> front[j] == infos[j];
      FirstTelWins(front, k);
    }
  }

  /** A line offers no name, or an empty one. */
  predicate NoName(info: LineInfo) {
    info.name.None? || info.name.value == ""
  }

  /** Without a line offering a non-empty FN or N value, no name is found. */
  lemma {:induction false} NoNameLineNoName(infos: seq<LineInfo>)
    ensures (forall k :: 0 <= k < |infos| ==> NoName(infos[k])) ==> VcardFold(infos).1 == ""
  {
    if infos != [] {
      NoNameLineNoName(infos[..|infos| - 1]);
    }
  }

  /** The first line with a non-empty FN or N value fixes the name; later name lines cannot change it. */
  lemma {:induction false} FirstNameWins(infos: seq<LineInfo>, k: nat)
    requires k < |infos| && infos[k].name.Some? && infos[k].name.value != ""
    requires forall j :: 0 <= j < k ==> NoName(infos[j])
    ensures VcardFold(infos).1 == infos[k].name.value
    decreases |infos|
  {
    if k == |infos| - 1 {
      NoNameLineNoName(infos[..k]);
    } else {
      var front := infos[..|infos| - 1];
      assert forall j :: 0 <= j <= k ==> front[j] == infos[j];
      FirstNameWins(front, k);
    }
  }

  /**
   * `_parse_vcard_contact`: scan the lines, taking the first FN or N value as the name and the
   * value of the first TEL line as the phone, and stop once both are known. Reading a line has
   * no effect, so the offers of all lines are read up front and the loop scans them.
   */
  method ParseVcardContact(text: string) returns (phone: string, name: string)
    ensures (phone, name) == ParseVcard(text)
  {
    var infos := ReadLines(Lines(text));
    phone, name := ScanVcardLines(infos);
  }

  /** The loop of the reader, left as soon as both fields are known. */
  method ScanVcardLines(infos: seq<LineInfo>) returns (phone: string, name: string)
    ensures (phone, name) == VcardFold(infos)
  {
    phone, name := "", "";
    var i := 0;
    while i < |infos| && (phone == "" || name == "")
      invariant i <= |infos|
      invariant (phone, name) == VcardFold(infos[..i])
    {
      assert infos[..i + 1][..i] == infos[..i];
      if name == "" && infos[i].name.Some? {
        name := infos[i].name.value;
      }
      if phone == "" && infos[i].phone.Some? {
        phone := infos[i].phone.value;
      }
      i := i + 1;
    }
    if i < |infos| {
      FoundStops(infos, i);
    } else {
      assert infos[..i] == infos;
    }
  }
}
