/**
 * The six fixed four-hour ranges of the day and their eight half-hour slots
 * (app/hoh_service.py and app/flows/ranges.py), and the slot a HALF button selects.
 */
module Ranges {
  import opened Wrappers
  import opened Text
  import opened Clock

  const HALF_HOUR: int := 1_800_000_000

  /** `RANGE_BOUNDS`: range `id` in 1..6 covers the hours [4(id-1), 4id). */
  function RangeBounds(id: int): (r: Option<(nat, nat)>)
    ensures r.Some? <==> 1 <= id <= 6
    ensures r.Some? ==> r.value.0 == 4 * (id - 1) && r.value.1 == r.value.0 + 4 && r.value.1 <= 24
  {
    if id == 1 then Some((0, 4))
    else if id == 2 then Some((4, 8))
    else if id == 3 then Some((8, 12))
    else if id == 4 then Some((12, 16))
    else if id == 5 then Some((16, 20))
    else if id == 6 then Some((20, 24))
    else None
  }

  /** The ranges tile the day: consecutive ranges meet and together they cover 00-24. */
  lemma RangesTileDay(id: int)
    requires 1 <= id < 6
    ensures RangeBounds(id).value.1 == RangeBounds(id + 1).value.0
    ensures RangeBounds(1).value.0 == 0 && RangeBounds(6).value.1 == 24
  {
  }

  /** The label "SS:00–EE:00" of a range (with an en dash between the hours). */
  function Label(id: int): (s: string)
    requires 1 <= id <= 6
    ensures |s| == 11 && s[5] == '–'
    ensures AllDigits(s[..2]) && DecimalValue(s[..2]) == RangeBounds(id).value.0
    ensures AllDigits(s[6..8]) && DecimalValue(s[6..8]) == RangeBounds(id).value.1
  {
    var (start, end) := RangeBounds(id).value;
    var s := TwoDigits(start) + ":00–" + TwoDigits(end) + ":00";
    assert s[..2] == TwoDigits(start);
    assert s[6..8] == TwoDigits(end);
    s
  }

  /** `_range_labels`: the label of every range, in range order. */
  method RangeLabels() returns (labels: seq<string>)
    ensures |labels| == 6
    ensures forall i :: 0 <= i < 6 ==> labels[i] == Label(i + 1)
  {
    labels := [];
    var idx := 1;
    while idx < 7
      invariant 1 <= idx <= 7 && |labels| == idx - 1
      invariant forall i :: 0 <= i < |labels| ==> labels[i] == Label(i + 1)
    {
      labels := labels + [Label(idx)];
      idx := idx + 1;
    }
  }

  /** The time of day of slot `i` of a range that starts at `startHour`. */
  function SlotTime(startHour: nat, i: nat): (t: TimeOfDay)
    requires startHour <= 20 && i < 8
  {
    HourMinute(startHour, 0) + i * HALF_HOUR
  }

  /** Slot `i` falls on hour `startHour + i/2`, at minute 0 for even and 30 for odd `i`. */
  lemma SlotTimeParts(startHour: nat, i: nat)
    requires startHour <= 20 && i < 8
    ensures SlotTime(startHour, i) == HourMinute(startHour + i / 2, 30 * (i % 2))
  {
    assert i * HALF_HOUR == (i / 2) * HOUR + (30 * (i % 2)) * MINUTE by {
      if i == 0 {} else if i == 1 {} else if i == 2 {} else if i == 3 {}
      else if i == 4 {} else if i == 5 {} else if i == 6 {} else {}
    }
  }

  /**
   * `_half_hour_slots_for_range` (and `half_hour_slots_for_range`): None for an unknown range
   * (the error the source raises), otherwise the eight "HH:MM" labels, 30 minutes apart from
   * the range start.
   */
  function HalfHourSlots(id: int): (r: Option<seq<string>>)
    ensures r.Some? <==> 1 <= id <= 6
    ensures r.Some? ==> |r.value| == 8
  {
    match RangeBounds(id)
    case None => None
    case Some((start, _)) => Some(seq(8, i requires 0 <= i < 8 => HHMM(SlotTime(start, i))))
  }

  /** Slot `i` of range `id` reads hour 4(id-1) + i/2 and minute 0 or 30: inside the range. */
  lemma SlotDigits(id: int, i: nat)
    requires 1 <= id <= 6 && i < 8
    ensures var s := HalfHourSlots(id).value[i];
      && |s| == 5 && s[2] == ':' && AllDigits(s[..2]) && AllDigits(s[3..])
      && DecimalValue(s[..2]) == 4 * (id - 1) + i / 2
      && DecimalValue(s[3..]) == 30 * (i % 2)
      && RangeBounds(id).value.0 <= DecimalValue(s[..2]) < RangeBounds(id).value.1
  {
    var start := RangeBounds(id).value.0;
    SlotTimeParts(start, i);
  }

  /** The effective ids of a HALF button: a missing or zero id counts as 1. */
  function OrOne(v: Option<nat>): (r: nat)
    ensures r >= 1
    ensures v.Some? && v.value != 0 ==> r == v.value
  {
    if v.None? || v.value == 0 then 1 else v.value
  }

  /**
   * The HALF action: the slots of the chosen range (an unknown range is an error, None), and
   * slot `half_index - 1` when that index is within 1..8, else the first slot.
   */
  function HalfSlot(rangeId: Option<nat>, halfIndex: Option<nat>): (r: Option<string>)
    ensures r.Some? <==> OrOne(rangeId) <= 6
    ensures r.Some? ==> r.value in HalfHourSlots(OrOne(rangeId)).value
    ensures r.Some? && 1 <= OrOne(halfIndex) <= 8 ==> r.value == HalfHourSlots(OrOne(rangeId)).value[OrOne(halfIndex) - 1]
    ensures r.Some? && OrOne(halfIndex) > 8 ==> r.value == HalfHourSlots(OrOne(rangeId)).value[0]
  {
    var range := OrOne(rangeId);
    var half := OrOne(halfIndex);
    match HalfHourSlots(range)
    case None => None
    case Some(slots) => Some(if 0 < half <= |slots| then slots[half - 1] else slots[0])
  }

  /** The variable name of item `i` (from 0) of a picker: the prefix and the 1-based position. */
  function ItemKey(prefix: string, i: nat): (k: string)
    requires i < 9
    ensures k == prefix + [DigitChar(i + 1)]
  {
    prefix + DecimalString(i + 1)
  }

  /** Item names of one prefix differ for different positions. */
  lemma ItemKeysDistinct(prefix: string, i: nat, j: nat)
    requires i < 9 && j < 9 && i != j
    ensures ItemKey(prefix, i) != ItemKey(prefix, j)
  {
    assert ItemKey(prefix, i)[|prefix|] != ItemKey(prefix, j)[|prefix|];
  }

  /**
   * The template variables `send_ranges` sends: "range1".."range6" holding the labels, then an
   * empty "event_id".
   */
  function RangesVariables(): (vars: seq<(string, string)>)
    ensures |vars| == 7
    ensures forall i :: 0 <= i < 6 ==> vars[i] == (ItemKey("range", i), Label(i + 1))
    ensures vars[6] == ("event_id", "")
  {
    seq(6, i requires 0 <= i < 6 => (ItemKey("range", i), Label(i + 1))) + [("event_id", "")]
  }

  /**
   * The template variables `send_halves` sends: "h1".."h8" holding the range's slots, then an
   * empty "event_id" and the range id. An unknown range is a KeyError (None).
   */
  function HalvesVariables(id: int): (vars: Option<seq<(string, string)>>)
    ensures vars.Some? <==> 1 <= id <= 6
    ensures vars.Some? ==> |vars.value| == 10
    ensures vars.Some? ==> forall i :: 0 <= i < 8 ==> vars.value[i] == (ItemKey("h", i), HalfHourSlots(id).value[i])
    ensures vars.Some? ==> vars.value[8] == ("event_id", "") && vars.value[9] == ("range_id", DecimalString(id))
  {
    match HalfHourSlots(id)
    case None => None
    case Some(slots) =>
      Some(seq(8, i requires 0 <= i < 8 => (ItemKey("h", i), slots[i])) + [("event_id", ""), ("range_id", DecimalString(id))])
  }

  /** The halves variables name ten different keys, so none of them overwrites another. */
  lemma HalvesKeysDistinct(id: int, i: nat, j: nat)
    requires 1 <= id <= 6 && i < 10 && j < 10 && i != j
    ensures HalvesVariables(id).value[i].0 != HalvesVariables(id).value[j].0
  {
    var vars := HalvesVariables(id).value;
    if i < 8 && j < 8 {
      ItemKeysDistinct("h", i, j);
    } else if i < 8 {
      assert vars[i].0[0] == 'h';
      assert vars[j].0[0] != 'h';
    } else if j < 8 {
      assert vars[j].0[0] == 'h';
      assert vars[i].0[0] != 'h';
    }
  }
}
