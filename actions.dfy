/**
 * Interactive button and list identifiers (app/utils/actions.py). Every identifier embeds the
 * event id, and a range or half-hour choice also embeds its range and half index, as decimal
 * digit groups between fixed literal parts: "RANGE_<r>_EVT_<e>", "HALF_<h>_EVT_<e>_RANGE_<r>",
 * and "<KIND>_EVT_<e>" for the seven single-id kinds.
 */
module Actions {
  import opened Wrappers
  import opened Text

  datatype ActionKind =
    | ChooseTime | NotSure | NotContact | Range | Half
    | BackToRanges | BackToInit | ConfirmSlot | ChangeSlot

  /**
   * The dictionary `parse_action_id` returns: the type, the event id, and the range id and
   * half index only for the kinds whose pattern carries them.
   */
  datatype ParsedAction = ParsedAction(kind: ActionKind, eventId: nat, rangeId: Option<nat>, halfIndex: Option<nat>)

  /**
   * An anchored pattern `^L0(\d+)L1(\d+)…$`: a literal before each digit group.
   * `fields` says which dictionary key each group fills.
   */
  datatype Field = EventId | RangeId | HalfIndex
  datatype Pattern = Pattern(literals: seq<string>, fields: seq<Field>, kind: ActionKind)

  /** The pattern of each kind. */
  function PatternFor(kind: ActionKind): (p: Pattern)
    ensures p.kind == kind
  {
    match kind
    case ChooseTime => Pattern(["CHOOSE_TIME_EVT_"], [EventId], ChooseTime)
    case NotSure => Pattern(["NOT_SURE_EVT_"], [EventId], NotSure)
    case NotContact => Pattern(["NOT_CONTACT_EVT_"], [EventId], NotContact)
    case Range => Pattern(["RANGE_", "_EVT_"], [RangeId, EventId], Range)
    case Half => Pattern(["HALF_", "_EVT_", "_RANGE_"], [HalfIndex, EventId, RangeId], Half)
    case BackToRanges => Pattern(["BACK_TO_RANGES_EVT_"], [EventId], BackToRanges)
    case BackToInit => Pattern(["BACK_TO_INIT_EVT_"], [EventId], BackToInit)
    case ConfirmSlot => Pattern(["CONFIRM_SLOT_EVT_"], [EventId], ConfirmSlot)
    case ChangeSlot => Pattern(["CHANGE_SLOT_EVT_"], [EventId], ChangeSlot)
  }

  /** `ACTION_PATTERNS`, in the order they are tried. */
  const ACTION_PATTERNS: seq<Pattern> := [
    PatternFor(ChooseTime), PatternFor(NotSure), PatternFor(NotContact), PatternFor(Range),
    PatternFor(Half), PatternFor(BackToRanges), PatternFor(BackToInit), PatternFor(ConfirmSlot),
    PatternFor(ChangeSlot)
  ]

  /** The length of the leading run of ASCII digits (what a greedy `\d+` consumes). */
  function DigitRun(s: string): (n: nat)
    ensures n <= |s| && AllDigits(s[..n])
    ensures n == |s| || !IsDigit(s[n])
  {
    if s == [] || !IsDigit(s[0]) then 0
    else
      var k := DigitRun(s[1..]);
      assert s[..k + 1] == [s[0]] + s[1..][..k];
      k + 1
  }

  /** The text a pattern's literals and the given digit groups spell out. */
  function Render(literals: seq<string>, groups: seq<string>): string
    requires |groups| == |literals|
  {
    if literals == [] then [] else literals[0] + groups[0] + Render(literals[1..], groups[1..])
  }

  /** Groups `\d+` can match: non-empty runs of digits. */
  predicate DigitGroups(groups: seq<string>) {
    forall k :: 0 <= k < |groups| ==> groups[k] != [] && AllDigits(groups[k])
  }

  /** Every literal after the first starts with a non-digit, so a greedy group is the only choice. */
  predicate Separated(literals: seq<string>) {
    forall k :: 1 <= k < |literals| ==> literals[k] != [] && !IsDigit(literals[k][0])
  }

  /** Full match of `^L0(\d+)L1(\d+)…$` against `s`, giving the text of each group. */
  function MatchGroups(s: string, literals: seq<string>): (r: Option<seq<string>>)
    ensures r.Some? ==> |r.value| == |literals| && DigitGroups(r.value) && s == Render(literals, r.value)
  {
    if literals == [] then (if s == [] then Some([]) else None)
    else if !(literals[0] <= s) then None
    else
      var rest := s[|literals[0]|..];
      var n := DigitRun(rest);
      if n == 0 then None
      else match MatchGroups(rest[n..], literals[1..])
        case None => None
        case Some(gs) =>
          assert rest == rest[..n] + rest[n..];
          assert s == literals[0] + rest;
          GroupCons(s, literals, rest[..n], gs);
          Some([rest[..n]] + gs)
  }

  /** A digit group in front of the groups of the rest gives the groups of the whole rendering. */
  lemma GroupCons(s: string, literals: seq<string>, g: string, gs: seq<string>)
    requires literals != [] && |gs| == |literals| - 1
    requires g != [] && AllDigits(g) && DigitGroups(gs)
    requires s == literals[0] + (g + Render(literals[1..], gs))
    ensures DigitGroups([g] + gs) && s == Render(literals, [g] + gs)
  {
    var all := [g] + gs;
    assert all[1..] == gs;
    assert forall k :: 1 <= k < |all| ==> all[k] == gs[k - 1];
  }

  /** A rendering is the first literal, the first group, then the rendering of the rest. */
  lemma RenderCons(literals: seq<string>, groups: seq<string>)
    requires |groups| == |literals| > 0
    ensures Render(literals, groups) == literals[0] + (groups[0] + Render(literals[1..], groups[1..]))
  {
  }

  /** One step of the match: the leading literal, then a digit group that a non-digit ends. */
  lemma MatchStep(s: string, literals: seq<string>, g: string, tail: string)
    requires literals != [] && s == literals[0] + (g + tail)
    requires g != [] && AllDigits(g) && (tail == [] || !IsDigit(tail[0]))
    ensures MatchGroups(s, literals) == match MatchGroups(tail, literals[1..])
                                        case None => None
                                        case Some(gs) => Some([g] + gs)
  {
    assert literals[0] <= s;
    var rest := s[|literals[0]|..];
    assert rest == g + tail;
    DigitRunPrefix(g, tail);
    assert rest[..|g|] == g;
    assert rest[|g|..] == tail;
  }

  /** The groups and literals after the first keep their shapes. */
  lemma TailShapes(literals: seq<string>, groups: seq<string>)
    requires |groups| == |literals| > 0 && DigitGroups(groups) && Separated(literals)
    ensures DigitGroups(groups[1..]) && Separated(literals[1..])
    ensures groups[0] != [] && AllDigits(groups[0])
  {
    assert forall k :: 0 <= k < |groups| - 1 ==> groups[1..][k] == groups[k + 1];
    assert forall k :: 0 <= k < |literals| - 1 ==> literals[1..][k] == literals[k + 1];
  }

  /** The rendering after the first group is empty or starts with a non-digit. */
  lemma TailStartsWithLiteral(literals: seq<string>, groups: seq<string>)
    requires |groups| == |literals| > 0 && Separated(literals)
    ensures var tail := Render(literals[1..], groups[1..]);
            tail == [] || !IsDigit(tail[0])
  {
    if |literals| > 1 {
      RenderCons(literals[1..], groups[1..]);
      assert literals[1..][0] == literals[1];
    }
  }

  /** Matching is complete: the rendering of any digit groups is matched, giving those groups back. */
  lemma {:induction false} MatchRender(literals: seq<string>, groups: seq<string>)
    requires |groups| == |literals| && DigitGroups(groups) && Separated(literals)
    ensures MatchGroups(Render(literals, groups), literals) == Some(groups)
  {
    if literals != [] {
      var tail := Render(literals[1..], groups[1..]);
      RenderCons(literals, groups);
      TailShapes(literals, groups);
      TailStartsWithLiteral(literals, groups);
      MatchStep(Render(literals, groups), literals, groups[0], tail);
      MatchRender(literals[1..], groups[1..]);
      assert [groups[0]] + groups[1..] == groups;
    }
  }

  /** A greedy digit run over digits followed by a non-digit stops exactly at the non-digit. */
  lemma {:induction false} DigitRunPrefix(ds: string, tail: string)
    requires AllDigits(ds)
    requires tail == [] || !IsDigit(tail[0])
    ensures DigitRun(ds + tail) == |ds|
  {
    if ds != [] {
      assert (ds + tail)[1..] == ds[1..] + tail;
      DigitRunPrefix(ds[1..], tail);
    }
  }

  /** Python's `$` also matches just before a final newline. */
  function DropFinalNewline(s: string): string {
    if s != [] && s[|s| - 1] == '\n' then s[..|s| - 1] else s
  }

  /** The fields `int()` of the groups fills in. */
  function Build(kind: ActionKind, fields: seq<Field>, values: seq<nat>): ParsedAction
    requires |fields| == |values|
  {
    if fields == [] then ParsedAction(kind, 0, None, None)
    else
      var a := Build(kind, fields[1..], values[1..]);
      match fields[0]
      case EventId => a.(eventId := values[0])
      case RangeId => a.(rangeId := Some(values[0]))
      case HalfIndex => a.(halfIndex := Some(values[0]))
  }

  function GroupValues(groups: seq<string>): (vs: seq<nat>)
    requires DigitGroups(groups)
    ensures |vs| == |groups|
  {
    if groups == [] then [] else [DecimalValue(groups[0])] + GroupValues(groups[1..])
  }

  /** The first pattern of `patterns` that matches, and what it parses to. */
  function FirstMatch(s: string, patterns: seq<Pattern>): Option<ParsedAction>
    requires forall k :: 0 <= k < |patterns| ==> |patterns[k].fields| == |patterns[k].literals|
  {
    if patterns == [] then None
    else
      var p := patterns[0];
      match MatchGroups(s, p.literals)
      case Some(groups) => Some(Build(p.kind, p.fields, GroupValues(groups)))
      case None => FirstMatch(s, patterns[1..])
  }

  /**
   * `parse_action_id`: the first of the nine patterns that matches the whole identifier (a final
   * newline aside, as `$` allows); a parsed action is well formed and its own kind's pattern matches.
   */
  function ParseActionId(actionId: string): (r: Option<ParsedAction>)
    ensures r.Some? ==> WellFormed(r.value)
    ensures r.Some? ==> MatchGroups(DropFinalNewline(actionId), PatternFor(r.value.kind).literals).Some?
  {
    var s := DropFinalNewline(actionId);
    var r := FirstMatch(s, ACTION_PATTERNS);
    if r.Some? then ParseSound(s, r.value); r else r
  }

  /** The identifier a button carries for an action: the inverse of `ParseActionId`. */
  function Format(a: ParsedAction): string
    requires WellFormed(a)
  {
    var e := DecimalString(a.eventId);
    match a.kind
    case ChooseTime => "CHOOSE_TIME_EVT_" + e
    case NotSure => "NOT_SURE_EVT_" + e
    case NotContact => "NOT_CONTACT_EVT_" + e
    case Range => "RANGE_" + DecimalString(a.rangeId.value) + "_EVT_" + e
    case Half => "HALF_" + DecimalString(a.halfIndex.value) + "_EVT_" + e + "_RANGE_" + DecimalString(a.rangeId.value)
    case BackToRanges => "BACK_TO_RANGES_EVT_" + e
    case BackToInit => "BACK_TO_INIT_EVT_" + e
    case ConfirmSlot => "CONFIRM_SLOT_EVT_" + e
    case ChangeSlot => "CHANGE_SLOT_EVT_" + e
  }

  /** A range id exactly for RANGE and HALF, a half index exactly for HALF. */
  predicate WellFormed(a: ParsedAction) {
    && a.rangeId.Some? == (a.kind == Range || a.kind == Half)
    && a.halfIndex.Some? == (a.kind == Half)
  }

  /** Two literals that disagree at a position both reach, so neither is a prefix of the other. */
  predicate Differ(a: string, b: string) {
    exists k :: 0 <= k < |a| && k < |b| && a[k] != b[k]
  }

  lemma DifferNotPrefix(a: string, b: string, s: string)
    requires Differ(a, b) && b <= s
    ensures !(a <= s)
  {
    var k :| 0 <= k < |a| && k < |b| && a[k] != b[k];
    assert s[k] == b[k];
  }

  predicate PatternShapes(patterns: seq<Pattern>) {
    forall k :: 0 <= k < |patterns| ==>
      |patterns[k].fields| == |patterns[k].literals| && patterns[k].literals != []
  }

  /** A pattern whose leading literal is not a prefix of the text does not match it. */
  lemma NoLeadNoMatch(s: string, literals: seq<string>)
    requires literals != [] && !(literals[0] <= s)
    ensures MatchGroups(s, literals) == None
  {
  }

  /** The search moves past a pattern that does not match. */
  lemma FirstMatchSkip(s: string, patterns: seq<Pattern>)
    requires PatternShapes(patterns) && patterns != []
    requires MatchGroups(s, patterns[0].literals) == None
    ensures PatternShapes(patterns[1..])
    ensures FirstMatch(s, patterns) == FirstMatch(s, patterns[1..])
  {
    assert forall k :: 0 <= k < |patterns[1..]| ==> patterns[1..][k] == patterns[k + 1];
  }

  /**
   * The first-match search gets past every pattern before the i-th when the text starts with the
   * i-th pattern's leading literal and every earlier leading literal disagrees with it.
   */
  lemma {:induction false} FirstMatchAt(s: string, patterns: seq<Pattern>, i: nat, lead: string)
    requires PatternShapes(patterns) && i < |patterns|
    requires lead == patterns[i].literals[0] && lead <= s
    requires forall j :: 0 <= j < i ==> Differ(patterns[j].literals[0], lead)
    ensures PatternShapes(patterns[i..])
    ensures FirstMatch(s, patterns) == FirstMatch(s, patterns[i..])
    decreases i
  {
    if i > 0 {
      DifferNotPrefix(patterns[0].literals[0], lead, s);
      NoLeadNoMatch(s, patterns[0].literals);
      FirstMatchSkip(s, patterns);
      DifferTail(patterns, i, lead);
      FirstMatchAt(s, patterns[1..], i - 1, lead);
    } else {
      assert patterns[i..] == patterns;
    }
  }

  /** Dropping the first pattern keeps the later leading literals apart from `lead`. */
  lemma DifferTail(patterns: seq<Pattern>, i: nat, lead: string)
    requires PatternShapes(patterns) && 0 < i < |patterns|
    requires forall j :: 0 <= j < i ==> Differ(patterns[j].literals[0], lead)
    ensures PatternShapes(patterns[1..]) && patterns[1..][i - 1] == patterns[i] && patterns[1..][i - 1..] == patterns[i..]
    ensures forall j :: 0 <= j < i - 1 ==> Differ(patterns[1..][j].literals[0], lead)
  {
    var tail := patterns[1..];
    forall j | 0 <= j < i - 1
      ensures Differ(tail[j].literals[0], lead)
    {
      assert tail[j] == patterns[j + 1];
    }
  }

  /** When the first pattern matches, the search returns the dictionary built from its groups. */
  lemma FirstMatchHead(s: string, patterns: seq<Pattern>, groups: seq<string>)
    requires PatternShapes(patterns) && patterns != []
    requires MatchGroups(s, patterns[0].literals) == Some(groups)
    ensures DigitGroups(groups) && |groups| == |patterns[0].fields|
    ensures FirstMatch(s, patterns) == Some(Build(patterns[0].kind, patterns[0].fields, GroupValues(groups)))
  {
  }

  /**
   * When the i-th pattern matches and every earlier leading literal disagrees with its own, the
   * search returns the dictionary built from the i-th pattern's groups.
   */
  lemma SearchFinds(s: string, patterns: seq<Pattern>, i: nat, groups: seq<string>)
    requires PatternShapes(patterns) && i < |patterns|
    requires forall j :: 0 <= j < i ==> Differ(patterns[j].literals[0], patterns[i].literals[0])
    requires MatchGroups(s, patterns[i].literals) == Some(groups)
    ensures FirstMatch(s, patterns) == Some(Build(patterns[i].kind, patterns[i].fields, GroupValues(groups)))
  {
    var lits := patterns[i].literals;
    RenderCons(lits, groups);
    FirstMatchAt(s, patterns, i, lits[0]);
    assert patterns[i..][0] == patterns[i];
    FirstMatchHead(s, patterns[i..], groups);
  }

  lemma DecimalGroups(ns: seq<nat>)
    ensures DigitGroups(seq(|ns|, k requires 0 <= k < |ns| => DecimalString(ns[k])))
    ensures GroupValues(seq(|ns|, k requires 0 <= k < |ns| => DecimalString(ns[k]))) == ns
    decreases |ns|
  {
    var gs := seq(|ns|, k requires 0 <= k < |ns| => DecimalString(ns[k]));
    if ns != [] {
      DecimalGroups(ns[1..]);
      assert gs[1..] == seq(|ns[1..]|, k requires 0 <= k < |ns[1..]| => DecimalString(ns[1..][k]));
    }
  }

  /** The index in `ACTION_PATTERNS` of the pattern for each kind. */
  function PatternIndex(kind: ActionKind): (i: nat)
    ensures i < |ACTION_PATTERNS| && ACTION_PATTERNS[i] == PatternFor(kind)
  {
    match kind
    case ChooseTime => 0
    case NotSure => 1
    case NotContact => 2
    case Range => 3
    case Half => 4
    case BackToRanges => 5
    case BackToInit => 6
    case ConfirmSlot => 7
    case ChangeSlot => 8
  }

  /** The ids of an action in the order its pattern's groups carry them. */
  function GroupIds(a: ParsedAction): (ns: seq<nat>)
    requires WellFormed(a)
    ensures |ns| == |PatternFor(a.kind).fields|
  {
    match a.kind
    case Range => [a.rangeId.value, a.eventId]
    case Half => [a.halfIndex.value, a.eventId, a.rangeId.value]
    case _ => [a.eventId]
  }

  function GroupTexts(ns: seq<nat>): seq<string> {
    seq(|ns|, k requires 0 <= k < |ns| => DecimalString(ns[k]))
  }

  lemma RenderOne(l0: string, g0: string)
    ensures Render([l0], [g0]) == l0 + g0
  {
    assert Render([l0][1..], [g0][1..]) == [];
  }

  lemma RenderTwo(l0: string, l1: string, g0: string, g1: string)
    ensures Render([l0, l1], [g0, g1]) == l0 + g0 + (l1 + g1)
  {
    assert [l0, l1][1..] == [l1] && [g0, g1][1..] == [g1];
    RenderOne(l1, g1);
  }

  lemma RenderThree(l0: string, l1: string, l2: string, g0: string, g1: string, g2: string)
    ensures Render([l0, l1, l2], [g0, g1, g2]) == l0 + g0 + (l1 + g1 + (l2 + g2))
  {
    assert [l0, l1, l2][1..] == [l1, l2] && [g0, g1, g2][1..] == [g1, g2];
    RenderTwo(l1, l2, g1, g2);
  }

  /** An action's identifier is its pattern rendered with the decimal texts of its ids. */
  lemma FormatRender(a: ParsedAction)
    requires WellFormed(a)
    ensures Render(PatternFor(a.kind).literals, GroupTexts(GroupIds(a))) == Format(a)
  {
    match a.kind
    case Range => FormatRenderRange(a);
    case Half => FormatRenderHalf(a);
    case _ => FormatRenderSingle(a);
  }

  lemma FormatRenderRange(a: ParsedAction)
    requires WellFormed(a) && a.kind == Range
    ensures Render(PatternFor(a.kind).literals, GroupTexts(GroupIds(a))) == Format(a)
  {
    var gs := GroupTexts(GroupIds(a));
    assert gs == [DecimalString(a.rangeId.value), DecimalString(a.eventId)];
    RenderTwo("RANGE_", "_EVT_", gs[0], gs[1]);
  }

  lemma FormatRenderHalf(a: ParsedAction)
    requires WellFormed(a) && a.kind == Half
    ensures Render(PatternFor(a.kind).literals, GroupTexts(GroupIds(a))) == Format(a)
  {
    var gs := GroupTexts(GroupIds(a));
    assert gs == [DecimalString(a.halfIndex.value), DecimalString(a.eventId), DecimalString(a.rangeId.value)];
    RenderThree("HALF_", "_EVT_", "_RANGE_", gs[0], gs[1], gs[2]);
  }

  lemma FormatRenderSingle(a: ParsedAction)
    requires WellFormed(a) && a.kind != Range && a.kind != Half
    ensures Render(PatternFor(a.kind).literals, GroupTexts(GroupIds(a))) == Format(a)
  {
    var gs := GroupTexts(GroupIds(a));
    assert gs == [DecimalString(a.eventId)];
    var lits := PatternFor(a.kind).literals;
    assert lits == [lits[0]];
    RenderOne(lits[0], gs[0]);
  }

  /** Every pattern has a field per literal and at least one literal. */
  lemma ActionPatternShapes()
    ensures PatternShapes(ACTION_PATTERNS)
  {
  }

  /** The leading literals of the patterns pairwise disagree, so at most one pattern can match. */
  lemma LeadLiteralsDiffer(i: nat)
    requires i < |ACTION_PATTERNS|
    ensures forall j :: 0 <= j < i ==> Differ(ACTION_PATTERNS[j].literals[0], ACTION_PATTERNS[i].literals[0])
  {
    forall j | 0 <= j < i
      ensures Differ(ACTION_PATTERNS[j].literals[0], ACTION_PATTERNS[i].literals[0])
    {
      var a, b := ACTION_PATTERNS[j].literals[0], ACTION_PATTERNS[i].literals[0];
      assert |a| >= 5 && |b| >= 5;
      if a[0] != b[0] {
        assert Differ(a, b) by { assert a[0] != b[0]; }
      } else if a[1] != b[1] {
        assert Differ(a, b) by { assert a[1] != b[1]; }
      } else if a[2] != b[2] {
        assert Differ(a, b) by { assert a[2] != b[2]; }
      } else if a[4] != b[4] {
        assert Differ(a, b) by { assert a[4] != b[4]; }
      } else {
        assert |a| > 8 && |b| > 8 && a[8] != b[8];
      }
    }
  }

  /** The last character of a rendering with digit groups is a digit, so no final newline is dropped. */
  lemma RenderEndsInDigit(literals: seq<string>, groups: seq<string>)
    requires |groups| == |literals| > 0 && DigitGroups(groups)
    ensures DropFinalNewline(Render(literals, groups)) == Render(literals, groups)
    decreases |literals|
  {
    var s := Render(literals, groups);
    if |literals| == 1 {
      assert Render(literals[1..], groups[1..]) == [];
      assert s[|s| - 1] == groups[0][|groups[0]| - 1];
    } else {
      RenderEndsInDigit(literals[1..], groups[1..]);
      var t := Render(literals[1..], groups[1..]);
      assert s[|s| - 1] == t[|t| - 1];
    }
  }

  /** Building the dictionary from an action's own ids gives the action. */
  lemma BuildIds(a: ParsedAction)
    requires WellFormed(a)
    ensures Build(a.kind, PatternFor(a.kind).fields, GroupIds(a)) == a
  {
    var fs, vs := PatternFor(a.kind).fields, GroupIds(a);
    var empty := ParsedAction(a.kind, 0, None, None);
    assert Build(a.kind, [], []) == empty;
    match a.kind
    case Range =>
      assert fs[1..] == [EventId] && vs[1..] == [a.eventId];
      assert fs[1..][1..] == [] && vs[1..][1..] == [];
      assert Build(a.kind, fs[1..], vs[1..]) == empty.(eventId := a.eventId);
    case Half =>
      assert fs[2..] == [RangeId] && vs[2..] == [a.rangeId.value];
      assert fs[2..][1..] == [] && vs[2..][1..] == [];
      assert Build(a.kind, fs[2..], vs[2..]) == empty.(rangeId := a.rangeId);
      assert fs[1..][1..] == fs[2..] && vs[1..][1..] == vs[2..];
      assert Build(a.kind, fs[1..], vs[1..]) == empty.(rangeId := a.rangeId, eventId := a.eventId);
    case _ =>
      assert fs[1..] == [] && vs[1..] == [];
  }

  /** Any text a pattern spells out with digit groups parses by that pattern, to the groups' values. */
  lemma ParseRender(kind: ActionKind, groups: seq<string>)
    requires |groups| == |PatternFor(kind).literals| && DigitGroups(groups)
    ensures ParseActionId(Render(PatternFor(kind).literals, groups))
      == Some(Build(kind, PatternFor(kind).fields, GroupValues(groups)))
  {
    var p := PatternFor(kind);
    var s := Render(p.literals, groups);
    assert MatchGroups(s, p.literals) == Some(groups) by {
      assert Separated(p.literals);
      MatchRender(p.literals, groups);
    }
    assert DropFinalNewline(s) == s by { RenderEndsInDigit(p.literals, groups); }
    var i := PatternIndex(kind);
    ActionPatternShapes();
    LeadLiteralsDiffer(i);
    SearchFinds(s, ACTION_PATTERNS, i, groups);
  }

  /** Formatting an action and parsing the identifier gives the same action back. */
  lemma ParseFormat(a: ParsedAction)
    requires WellFormed(a)
    ensures ParseActionId(Format(a)) == Some(a)
  {
    var ns := GroupIds(a);
    DecimalGroups(ns);
    FormatRender(a);
    ParseRender(a.kind, GroupTexts(ns));
    BuildIds(a);
  }

  /** `p` matches `s` and `a` is the dictionary built from its groups. */
  predicate ParsedBy(s: string, p: Pattern, a: ParsedAction) {
    |p.fields| == |p.literals| && MatchGroups(s, p.literals).Some?
    && a == Build(p.kind, p.fields, GroupValues(MatchGroups(s, p.literals).value))
  }

  /** Whatever the first-match search returns was built from a pattern of the list that matched. */
  lemma {:induction false} FirstMatchSound(s: string, patterns: seq<Pattern>, a: ParsedAction)
    requires PatternShapes(patterns) && FirstMatch(s, patterns) == Some(a)
    ensures exists k :: 0 <= k < |patterns| && ParsedBy(s, patterns[k], a)
  {
    if MatchGroups(s, patterns[0].literals).None? {
      FirstMatchSound(s, patterns[1..], a);
      var k :| 0 <= k < |patterns[1..]| && ParsedBy(s, patterns[1..][k], a);
      assert patterns[1..][k] == patterns[k + 1];
    } else {
      assert ParsedBy(s, patterns[0], a);
    }
  }

  /** The dictionary has a range id exactly when a group fills one, and likewise a half index. */
  lemma {:induction false} BuildFields(kind: ActionKind, fields: seq<Field>, values: seq<nat>)
    requires |fields| == |values|
    ensures Build(kind, fields, values).kind == kind
    ensures Build(kind, fields, values).rangeId.Some? <==> RangeId in fields
    ensures Build(kind, fields, values).halfIndex.Some? <==> HalfIndex in fields
  {
    if fields != [] {
      BuildFields(kind, fields[1..], values[1..]);
      assert fields == [fields[0]] + fields[1..];
    }
  }

  /**
   * Whatever the search over the nine patterns returns is a well-formed action, and the text is
   * exactly the pattern of the reported kind: no identifier outside the grammar parses.
   */
  lemma ParseSound(s: string, a: ParsedAction)
    requires FirstMatch(s, ACTION_PATTERNS) == Some(a)
    ensures WellFormed(a)
    ensures MatchGroups(s, PatternFor(a.kind).literals).Some?
  {
    assert PatternShapes(ACTION_PATTERNS);
    FirstMatchSound(s, ACTION_PATTERNS, a);
    var k :| 0 <= k < |ACTION_PATTERNS| && ParsedBy(s, ACTION_PATTERNS[k], a);
    var p := ACTION_PATTERNS[k];
    PatternsByKind(k);
    BuildFields(p.kind, p.fields, GroupValues(MatchGroups(s, p.literals).value));
    KindFields(p.kind);
  }

  lemma PatternsByKind(k: nat)
    requires k < |ACTION_PATTERNS|
    ensures ACTION_PATTERNS[k] == PatternFor(ACTION_PATTERNS[k].kind)
  {
  }

  /** RANGE and HALF carry a range id; only HALF carries a half index. */
  lemma KindFields(kind: ActionKind)
    ensures RangeId in PatternFor(kind).fields <==> kind == Range || kind == Half
    ensures HalfIndex in PatternFor(kind).fields <==> kind == Half
  {
  }
}
