/** The booking page's time picker: the on-the-hour slots of a day from the
    page's own copy of the opening hours, minus the fully booked ones, and
    the reset of the selected time. */
module BookingPage {

  import opened Base
  import opened Strings
  import opened Seqs
  import opened SlotPolicy
  import Validation

  /** The page's `operatingHours` table, written out separately from the
      server's. */
  function ClientHours(day: int): (h: Option<Hours>)
    ensures h.Some? <==> 0 <= day <= 6
    ensures h.Some? ==> 11 <= h.value.start < h.value.end <= 24
  {
    match day
    case 0 => Some(Hours(12, 22))
    case 1 => Some(Hours(11, 23))
    case 2 => Some(Hours(11, 23))
    case 3 => Some(Hours(11, 23))
    case 4 => Some(Hours(11, 23))
    case 5 => Some(Hours(11, 24))
    case 6 => Some(Hours(12, 24))
    case _ => None
  }

  /** The page's table is the server's, entry by entry. */
  lemma ClientTableIsServerTable(day: int)
    ensures ClientHours(day) == OperatingHours(day)
  {
  }

  /** `${hour.toString().padStart(2, '0')}:00`. */
  function SlotLabel(hour: nat): string {
    PadStart2(NatToString(hour)) + ":00"
  }

  /** The hour a label names, read back from its first two characters. */
  function HourOf(slot: string): int {
    if |slot| >= 2 && AllDigits(slot[..2]) then DigitsValue(slot[..2]) else -1
  }

  /** The labels of the hours `start` up to `end`, exclusive. */
  function SlotsBetween(start: nat, end: int): (slots: seq<string>)
    ensures |slots| == if end > start then end - start else 0
  {
    seq(if end > start then end - start else 0, i requires 0 <= i => SlotLabel(start + i))
  }

  /** The slots of a day, as a function of the table. */
  function TimeSlots(day: int): (slots: seq<string>) {
    var h := ClientHours(day);
    if h.None? then [] else SlotsBetween(h.value.start, h.value.end)
  }

  /** `generateTimeSlots(day)`: push one label per hour from `start` up to
      `end`, exclusive. */
  method GenerateTimeSlots(day: int) returns (slots: seq<string>)
    ensures slots == TimeSlots(day)
  {
    var hours := ClientHours(day);
    if hours.None? {
      return [];
    }
    var start: nat, end := hours.value.start, hours.value.end;
    slots := [];
    var hour: nat := start;
    while hour < end
      invariant start <= hour <= end
      invariant slots == SlotsBetween(start, hour)
    {
      SlotsBetweenStep(start, hour);
      slots := slots + [SlotLabel(hour)];
      hour := hour + 1;
    }
  }

  /** One more hour adds its label at the end. */
  lemma SlotsBetweenStep(start: nat, end: nat)
    requires start <= end
    ensures SlotsBetween(start, end + 1) == SlotsBetween(start, end) + [SlotLabel(end)]
  {
  }

  /** A day has `end - start` slots: ten on Sunday, thirteen on Friday,
      twelve on Saturday, none on a day outside the table. */
  lemma SlotCounts(day: int)
    ensures 0 <= day <= 6 ==> |TimeSlots(day)| == OperatingHours(day).value.end - OperatingHours(day).value.start
    ensures !(0 <= day <= 6) ==> TimeSlots(day) == []
    ensures |TimeSlots(0)| == 10 && |TimeSlots(5)| == 13 && |TimeSlots(6)| == 12
  {
    ClientTableIsServerTable(day);
    ClientTableIsServerTable(0);
    ClientTableIsServerTable(5);
    ClientTableIsServerTable(6);
  }

  /** A two-digit label reads back as its hour. */
  lemma LabelReadsBack(hour: nat)
    requires 10 <= hour < 100
    ensures |SlotLabel(hour)| == 5 && HourOf(SlotLabel(hour)) == hour
    ensures Validation.TimeShape(SlotLabel(hour))
  {
    var n := NatToString(hour);
    assert |n| == 2 by {
      assert NatToString(hour / 10) == [DigitChar(hour / 10)];
    }
    assert SlotLabel(hour)[..2] == n;
    NatToStringRoundTrip(hour);
  }

  /** Slot `i` is the hour `start + i`, in the server's time format, and the
      server's opening table marks that hour open on that weekday: the page
      offers only open hours, in increasing order. */
  lemma SlotsAreOpenHours(day: int, i: nat)
    requires i < |TimeSlots(day)|
    ensures 0 <= day <= 6
    ensures HourOf(TimeSlots(day)[i]) == OperatingHours(day).value.start + i
    ensures IsOpen(day, HourOf(TimeSlots(day)[i]))
    ensures Validation.TimeShape(TimeSlots(day)[i])
  {
    ClientTableIsServerTable(day);
    var h := ClientHours(day).value;
    assert TimeSlots(day) == SlotsBetween(h.start, h.end);
    SlotOfHours(h.start, h.end, i);
  }

  /** Slot `i` of the hours `start` up to `end` reads back as `start + i`. */
  lemma SlotOfHours(start: nat, end: int, i: nat)
    requires 10 <= start && end <= 100 && i < |SlotsBetween(start, end)|
    ensures HourOf(SlotsBetween(start, end)[i]) == start + i
    ensures Validation.TimeShape(SlotsBetween(start, end)[i])
  {
    assert SlotsBetween(start, end)[i] == SlotLabel(start + i);
    LabelReadsBack(start + i);
  }

  /** `allPossibleTimes.filter(t => !fullyBookedSlots.includes(t))`. */
  function AvailableTimes(all: seq<string>, full: seq<string>): seq<string> {
    Filter(all, (t: string) => t !in full)
  }

  /** A time is offered exactly when it is a slot of the day and not fully
      booked. */
  lemma AvailableExactly(day: int, full: seq<string>, t: string)
    ensures t in AvailableTimes(TimeSlots(day), full) <==> t in TimeSlots(day) && t !in full
  {
    FilterMembers(TimeSlots(day), (t: string) => t !in full, t);
  }

  /** The selected time after the list changes: kept when still offered,
      otherwise the first offered time, or "" when none is. */
  function ResetTime(time: string, available: seq<string>): (r: string)
    ensures time in available ==> r == time
    ensures time !in available && available != [] ==> r == available[0]
    ensures r in available || (available == [] && r == "")
  {
    if time in available then time
    else if available != [] then available[0]
    else ""
  }
}
