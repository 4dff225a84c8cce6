/** The weekly opening-hours table of the reservations API and the open/closed
    decision made against it (`operatingHours`, the closed test of POST and PUT). */
module SlotPolicy {

  import opened Base

  /** A half-open interval of hours `[start, end)`. */
  datatype Hours = Hours(start: int, end: int)

  /** Day of week (0 = Sunday) and hour, as read with `getUTCDay`/`getUTCHours`
      from the requested date and time. */
  datatype DayHour = DayHour(day: int, hour: int)

  /** Reservations allowed per (date, time, restaurant). */
  const MaxBookingsPerHour: nat := 10

  /** `operatingHours[day]`. */
  function OperatingHours(day: int): (h: Option<Hours>)
    ensures h.Some? <==> 0 <= day <= 6
    ensures h.Some? ==> 11 <= h.value.start < h.value.end <= 24
  {
    if day == 0 then Some(Hours(12, 22))
    else if 1 <= day <= 4 then Some(Hours(11, 23))
    else if day == 5 then Some(Hours(11, 24))
    else if day == 6 then Some(Hours(12, 24))
    else None
  }

  /** The negation of `!hours || hour < hours.start || hour >= hours.end`. */
  predicate IsOpen(day: int, hour: int) {
    var h := OperatingHours(day);
    h.Some? && h.value.start <= hour < h.value.end
  }

  /** The open test on the parsed date and time; `None` is an Invalid Date,
      whose NaN day selects no table entry, so it is closed. */
  predicate OpenAt(when: Option<DayHour>) {
    when.Some? && IsOpen(when.value.day, when.value.hour)
  }

  /** Open exactly when the day is in the table and `start <= hour < end`. */
  lemma OpenIffInInterval(day: int, hour: int)
    ensures IsOpen(day, hour) <==>
      (0 <= day <= 6 && OperatingHours(day).value.start <= hour < OperatingHours(day).value.end)
  {
  }

  /** Boundaries are exact: the first hour is open, the end hour and the hour
      before the start are closed. */
  lemma BoundariesExact(day: int)
    requires 0 <= day <= 6
    ensures IsOpen(day, OperatingHours(day).value.start)
    ensures IsOpen(day, OperatingHours(day).value.end - 1)
    ensures !IsOpen(day, OperatingHours(day).value.end)
    ensures !IsOpen(day, OperatingHours(day).value.start - 1)
  {
  }

  /** Concrete consequences of the table. */
  lemma TableExamples()
    ensures !IsOpen(0, 22) && IsOpen(0, 21) && !IsOpen(0, 11) && IsOpen(0, 12)
    ensures IsOpen(5, 23) && IsOpen(6, 23) && !IsOpen(6, 11) && IsOpen(5, 11)
    ensures !IsOpen(1, 23) && IsOpen(2, 22)
    ensures forall h :: !IsOpen(7, h) && !IsOpen(-1, h)
    ensures !OpenAt(None)
  {
  }
}
