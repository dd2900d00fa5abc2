/**
 * Half-hour slot lists for the named parts of the day (app/flows/slots.py).
 */
module Slots {
  import opened Text
  import opened Clock
  import opened Ranges

  /** The number of half-hour steps from `start` that do not pass `end`. */
  function SlotCount(start: TimeOfDay, end: TimeOfDay): (n: nat)
    ensures start <= end ==> start + (n - 1) * HALF_HOUR <= end < start + n * HALF_HOUR
    ensures start > end ==> n == 0
  {
    if start <= end then (end - start) / HALF_HOUR + 1 else 0
  }

  /**
   * `generate_half_hour_slots`: "HH:MM" for `start`, `start` + 30 minutes, ... for as long as
   * the time does not pass `end`.
   */
  method GenerateHalfHourSlots(start: TimeOfDay, end: TimeOfDay) returns (out: seq<string>)
    ensures |out| == SlotCount(start, end)
    ensures forall i :: 0 <= i < |out| ==> start + i * HALF_HOUR <= end && out[i] == HHMM(start + i * HALF_HOUR)
  {
    var cur: int := start;
    out := [];
    while cur <= end
      invariant cur == start + |out| * HALF_HOUR
      invariant start <= end ==> cur <= end + HALF_HOUR
      invariant start > end ==> out == []
      invariant forall i :: 0 <= i < |out| ==> start + i * HALF_HOUR <= end && out[i] == HHMM(start + i * HALF_HOUR)
      decreases end - cur
    {
      out := out + [HHMM(cur)];
      cur := cur + HALF_HOUR;
    }
    assert start <= end ==> |out| == SlotCount(start, end) by {
      if start <= end {
        assert start + (|out| - 1) * HALF_HOUR <= end < start + |out| * HALF_HOUR;
        SlotCountUnique(start, end, |out|);
      }
    }
  }

  /** The step count is the only one whose last step is within `end` and next one beyond it. */
  lemma SlotCountUnique(start: TimeOfDay, end: TimeOfDay, n: nat)
    requires start <= end && start + (n - 1) * HALF_HOUR <= end < start + n * HALF_HOUR
    ensures n == SlotCount(start, end)
  {
  }

  /** The named parts of the day of `RANGES`; an unknown name means noon. */
  datatype DayPart = Morning | Noon | Afternoon | Night

  function DayPartOf(key: string): (p: DayPart)
    ensures key == "morning" ==> p == Morning
    ensures key == "afternoon" ==> p == Afternoon
    ensures key == "night" ==> p == Night
    ensures key != "morning" && key != "afternoon" && key != "night" ==> p == Noon
  {
    if key == "morning" then Morning
    else if key == "afternoon" then Afternoon
    else if key == "night" then Night
    else Noon
  }

  /** The start and end times of each part of the day. */
  function PartBounds(p: DayPart): (b: (TimeOfDay, TimeOfDay))
    ensures b.0 < b.1
  {
    match p
    case Morning => (HourMinute(6, 0), HourMinute(12, 0))
    case Noon => (HourMinute(12, 0), HourMinute(16, 0))
    case Afternoon => (HourMinute(16, 0), HourMinute(20, 0))
    case Night => (HourMinute(20, 0), HourMinute(23, 59))
  }

  /** `slots_for_range`: the slots of the named part (noon when unknown), at most ten of them. */
  method SlotsForRange(key: string) returns (out: seq<string>)
    ensures var b := PartBounds(DayPartOf(key));
      && |out| == (if SlotCount(b.0, b.1) < 10 then SlotCount(b.0, b.1) else 10)
      && forall i :: 0 <= i < |out| ==> out[i] == HHMM(b.0 + i * HALF_HOUR)
  {
    var b := PartBounds(DayPartOf(key));
    out := FirstSlots(b.0, b.1, 10);
  }

  /** At most `limit` of the half-hour slots from `start` to `end`, the earliest ones. */
  method FirstSlots(start: TimeOfDay, end: TimeOfDay, limit: nat) returns (out: seq<string>)
    ensures |out| == (if SlotCount(start, end) < limit then SlotCount(start, end) else limit)
    ensures forall i :: 0 <= i < |out| ==> out[i] == HHMM(start + i * HALF_HOUR)
  {
    var all := GenerateHalfHourSlots(start, end);
    out := if |all| < limit then all else all[..limit];
  }

  /** Slots per part: morning 13 (cut to ten), noon and afternoon 9, night 8 (20:00 to 23:30). */
  lemma PartSlotCounts()
    ensures SlotCount(PartBounds(Morning).0, PartBounds(Morning).1) == 13
    ensures SlotCount(PartBounds(Noon).0, PartBounds(Noon).1) == 9
    ensures SlotCount(PartBounds(Afternoon).0, PartBounds(Afternoon).1) == 9
    ensures SlotCount(PartBounds(Night).0, PartBounds(Night).1) == 8
  {
  }
}
