/** The calendar side of a reservation: the event built for create and for
    update, the mapping of every failure to one generic error, and a cancel
    that never fails. The calendar API and `Date` parsing are oracles. */
module Calendar {

  import opened Base
  import opened Strings

  /** `ReservationDetails`. */
  datatype Details = Details(name: string, email: string, phone: string, guests: int,
    date: string, time: string, reservationCode: Option<string>)

  /** An event boundary: a UTC instant in milliseconds and the zone label. */
  datatype When = When(utcMs: int, timeZone: string)

  datatype Reminder = Reminder(kind: string, minutes: int)

  datatype Reminders = Reminders(useDefault: bool, overrides: seq<Reminder>)

  /** The request body sent to the calendar API; `None` marks an absent key. */
  datatype Event = Event(summary: string, description: string, start: When, end: When,
    reminders: Option<Reminders>, attendees: Option<seq<string>>)

  /** What the API call returns: the event data (with its id, if any), or a
      thrown error. */
  datatype ApiReply = Accepted(id: Option<string>) | Refused

  /** The calendar client: `new Date(date)` as milliseconds (`None` for an
      Invalid Date), `events.insert` and `events.update`. */
  datatype Port = Port(dateMs: string -> Option<int>, insert: Event -> ApiReply,
    update: (string, Event) -> ApiReply)

  /** The outcome of create or update: the event id returned, or the error thrown. */
  datatype Outcome = Done(eventId: Option<string>) | Threw(message: string)

  const CreateFailed := "Failed to create Google Calendar event."
  const UpdateFailed := "Failed to update Google Calendar event."

  const MsPerMinute := 60 * 1000
  const MsPerHour := 60 * 60 * 1000
  const MsPerDay := 24 * 60 * 60 * 1000

  /** The three credentials `getCalendarClient` needs are all set. */
  predicate HasCredentials(env: Env) {
    Truthy(EnvGet(env, "GOOGLE_SERVICE_ACCOUNT_EMAIL")) && Truthy(EnvGet(env, "GOOGLE_PRIVATE_KEY"))
    && Truthy(EnvGet(env, "GOOGLE_CALENDAR_ID"))
  }

  /** `GOOGLE_CALENDAR_TIMEZONE || 'UTC'`. */
  function TimeZone(env: Env): (z: string)
    ensures z != ""
    ensures Truthy(EnvGet(env, "GOOGLE_CALENDAR_TIMEZONE")) ==> z == env["GOOGLE_CALENDAR_TIMEZONE"]
    ensures !Truthy(EnvGet(env, "GOOGLE_CALENDAR_TIMEZONE")) ==> z == "UTC"
  {
    OrElse(EnvGet(env, "GOOGLE_CALENDAR_TIMEZONE"), Some("UTC")).value
  }

  /** `GOOGLE_CALENDAR_INVITE_ATTENDEES === 'true'`. */
  predicate InviteAttendees(env: Env) {
    EnvGet(env, "GOOGLE_CALENDAR_INVITE_ATTENDEES") == Some("true")
  }

  /** `Number(s)` for the strings a stored time is made of: blank reads as 0,
      a run of digits as its value; anything else is taken as NaN. */
  function NumberOf(s: string): (r: Option<int>)
    ensures AllDigits(Trim(s)) ==> r.Some?
    ensures r.Some? ==> r.value >= 0
  {
    var t := Trim(s);
    if AllDigits(t) then Some(DigitsValue(t)) else None
  }

  /** The start instant: `new Date(date)` moved to `hour:minute` UTC by
      `setUTCHours(hour, minute, 0, 0)`; `None` when any part is NaN, where
      `toISOString` throws. */
  function StartMs(dateMs: string -> Option<int>, date: string, time: string): (r: Option<int>)
    ensures r.Some? ==> dateMs(date).Some? && SecondField(time, ':').Some?
  {
    var day := dateMs(date);
    var hour := NumberOf(BeforeFirst(time, ':'));
    var minute := if SecondField(time, ':').Some? then NumberOf(SecondField(time, ':').value) else None;
    if day.Some? && hour.Some? && minute.Some? then
      Some(AtUtcTime(day.value, hour.value, minute.value))
    else None
  }

  /** `setUTCHours(hour, minute, 0, 0)` on the instant `ms`: the start of its
      UTC day plus the hours and minutes. */
  function AtUtcTime(ms: int, hour: int, minute: int): int {
    ms - ms % MsPerDay + hour * MsPerHour + minute * MsPerMinute
  }

  /** `Reservation: ${name} (${guests} guests)`. */
  function Summary(d: Details): string {
    "Reservation: " + d.name + " (" + IntToString(d.guests) + " guests)"
  }

  /** The code, or `N/A` when there is none. */
  function CodeLabel(d: Details): (s: string)
    ensures d.reservationCode.Some? ==> s == d.reservationCode.value
    ensures d.reservationCode.None? ==> s == "N/A"
  {
    if d.reservationCode.Some? then d.reservationCode.value else "N/A"
  }

  /** The three-line description. */
  function Description(d: Details): string {
    "Reservation ID: " + CodeLabel(d) + "\nReservation for " + IntToString(d.guests)
    + " guest(s) made by " + d.name + " (" + d.email + ").\nPhone: " + d.phone
  }

  /** The body of `events.insert`: one hour long, with reminders a day and two
      hours ahead, and attendees only when inviting is switched on. */
  function CreateEventBody(env: Env, d: Details, startMs: int): (e: Event)
    ensures e.end.utcMs - e.start.utcMs == MsPerHour && e.start.utcMs == startMs
    ensures e.start.timeZone == TimeZone(env) && e.end.timeZone == TimeZone(env)
    ensures e.reminders == Some(Reminders(false, [Reminder("email", 1440), Reminder("popup", 120)]))
    ensures e.attendees.Some? <==> InviteAttendees(env)
    ensures e.attendees.Some? ==> e.attendees.value == [d.email]
    ensures e.summary == Summary(d) && e.description == Description(d)
  {
    var zone := TimeZone(env);
    Event(Summary(d), Description(d), When(startMs, zone), When(startMs + MsPerHour, zone),
      Some(Reminders(false, [Reminder("email", 24 * 60), Reminder("popup", 120)])),
      if InviteAttendees(env) then Some([d.email]) else None)
  }

  /** The body of `events.update`: the same times and texts, no reminders and
      no attendees. */
  function UpdateEventBody(env: Env, d: Details, startMs: int): (e: Event)
    ensures e.end.utcMs - e.start.utcMs == MsPerHour && e.start.utcMs == startMs
    ensures e.start.timeZone == TimeZone(env) && e.end.timeZone == TimeZone(env)
    ensures e.reminders.None? && e.attendees.None?
    ensures e.summary == Summary(d) && e.description == Description(d)
  {
    var zone := TimeZone(env);
    Event(Summary(d), Description(d), When(startMs, zone), When(startMs + MsPerHour, zone), None, None)
  }

  /** `createCalendarEvent(d)`. */
  function CreateEvent(env: Env, port: Port, d: Details): (r: Outcome)
    ensures r.Threw? ==> r.message == CreateFailed
    ensures r.Done? <==> (HasCredentials(env) && StartMs(port.dateMs, d.date, d.time).Some?
      && port.insert(CreateEventBody(env, d, StartMs(port.dateMs, d.date, d.time).value)).Accepted?)
    ensures r.Done? ==> r.eventId == port.insert(CreateEventBody(env, d, StartMs(port.dateMs, d.date, d.time).value)).id
  {
    if !HasCredentials(env) then Threw(CreateFailed)
    else
      var start := StartMs(port.dateMs, d.date, d.time);
      if start.None? then Threw(CreateFailed)
      else
        match port.insert(CreateEventBody(env, d, start.value))
        case Accepted(id) => Done(id)
        case Refused => Threw(CreateFailed)
  }

  /** `updateCalendarEvent(eventId, d)`. */
  function UpdateEvent(env: Env, port: Port, eventId: string, d: Details): (r: Outcome)
    ensures r.Threw? ==> r.message == UpdateFailed
    ensures r.Done? <==> (HasCredentials(env) && StartMs(port.dateMs, d.date, d.time).Some?
      && port.update(eventId, UpdateEventBody(env, d, StartMs(port.dateMs, d.date, d.time).value)).Accepted?)
  {
    if !HasCredentials(env) then Threw(UpdateFailed)
    else
      var start := StartMs(port.dateMs, d.date, d.time);
      if start.None? then Threw(UpdateFailed)
      else
        match port.update(eventId, UpdateEventBody(env, d, start.value))
        case Accepted(id) => Done(id)
        case Refused => Threw(UpdateFailed)
  }

  /** `cancelCalendarEvent(eventId)`: the delete request it issues, if any.
      Failures are swallowed, so there is no error result at all. */
  function CancelEvent(env: Env, eventId: string): (sent: Option<string>)
    ensures sent.Some? <==> HasCredentials(env)
    ensures sent.Some? ==> sent.value == eventId
  {
    if HasCredentials(env) then Some(eventId) else None
  }

  /** Without credentials create and update fail with their generic error and
      nothing is sent. */
  lemma MissingCredentialsFail(env: Env, port: Port, eventId: string, d: Details)
    requires !HasCredentials(env)
    ensures CreateEvent(env, port, d) == Threw(CreateFailed)
    ensures UpdateEvent(env, port, eventId, d) == Threw(UpdateFailed)
    ensures CancelEvent(env, eventId).None?
  {
  }

  /** A well-formed `HH:MM` time puts the start at that UTC hour and minute of
      the day `date` falls on. */
  lemma StartAtBookedTime(dateMs: string -> Option<int>, date: string, time: string)
    requires dateMs(date).Some?
    requires |time| == 5 && time[2] == ':' && IsDigit(time[0]) && IsDigit(time[1]) && IsDigit(time[3]) && IsDigit(time[4])
    ensures StartMs(dateMs, date, time) == Some(AtUtcTime(dateMs(date).value, DigitsValue(time[..2]), DigitsValue(time[3..])))
  {
    var hh, mm := time[..2], time[3..];
    SplitTime(time);
    TwoDigits(hh);
    TwoDigits(mm);
    StartFromParts(dateMs, date, time, DigitsValue(hh), DigitsValue(mm));
  }

  lemma StartFromParts(dateMs: string -> Option<int>, date: string, time: string, hour: int, minute: int)
    requires dateMs(date).Some?
    requires NumberOf(BeforeFirst(time, ':')) == Some(hour)
    requires SecondField(time, ':').Some? && NumberOf(SecondField(time, ':').value) == Some(minute)
    ensures StartMs(dateMs, date, time) == Some(AtUtcTime(dateMs(date).value, hour, minute))
  {
  }

  lemma SplitTime(time: string)
    requires |time| == 5 && time[2] == ':' && IsDigit(time[0]) && IsDigit(time[1]) && IsDigit(time[3]) && IsDigit(time[4])
    ensures BeforeFirst(time, ':') == time[..2]
    ensures SecondField(time, ':') == Some(time[3..])
  {
    assert BeforeFirst(time[2..], ':') == [];
    assert BeforeFirst(time[1..], ':') == [time[1]] + BeforeFirst(time[2..], ':');
    var mm := time[3..];
    assert BeforeFirst(mm[2..], ':') == [];
    assert BeforeFirst(mm[1..], ':') == [mm[1]] + BeforeFirst(mm[2..], ':');
    assert mm[1..][1..] == mm[2..];
    assert BeforeFirst(mm, ':') == [mm[0]] + BeforeFirst(mm[1..], ':');
    assert BeforeFirst(mm, ':') == mm;
    assert time[|time[..2]| + 1..] == mm;
  }

  lemma TwoDigits(s: string)
    requires |s| == 2 && IsDigit(s[0]) && IsDigit(s[1])
    ensures NumberOf(s) == Some(DigitsValue(s))
  {
    DigitNotWhitespace(s[0]);
    DigitNotWhitespace(s[1]);
    TrimUnchanged(s);
  }

  /** The description names the code (or `N/A`), the party size, the guest,
      the e-mail address and the phone number. */
  lemma DescriptionMentions(d: Details)
    ensures StartsWith(Description(d), "Reservation ID: " + CodeLabel(d))
    ensures Contains(Description(d), IntToString(d.guests))
    ensures Contains(Description(d), d.name)
    ensures Contains(Description(d), d.email)
    ensures Contains(Description(d), d.phone)
  {
    MentionsCode(d);
    MentionsGuests(d);
    MentionsName(d);
    MentionsEmail(d);
    MentionsPhone(d);
  }

  lemma MentionsCode(d: Details)
    ensures StartsWith(Description(d), "Reservation ID: " + CodeLabel(d))
  {
    var p0 := "Reservation ID: " + CodeLabel(d);
    assert Description(d)[..|p0|] == p0;
  }

  lemma MentionsGuests(d: Details)
    ensures Contains(Description(d), IntToString(d.guests))
  {
    var p1 := "Reservation ID: " + CodeLabel(d) + "\nReservation for ";
    var rest := " guest(s) made by " + d.name + " (" + d.email + ").\nPhone: " + d.phone;
    assert Description(d) == p1 + IntToString(d.guests) + rest;
    ContainsMiddle(p1, IntToString(d.guests), rest);
  }

  lemma MentionsName(d: Details)
    ensures Contains(Description(d), d.name)
  {
    var p2 := "Reservation ID: " + CodeLabel(d) + "\nReservation for " + IntToString(d.guests) + " guest(s) made by ";
    var rest := " (" + d.email + ").\nPhone: " + d.phone;
    assert Description(d) == p2 + d.name + rest;
    ContainsMiddle(p2, d.name, rest);
  }

  lemma MentionsEmail(d: Details)
    ensures Contains(Description(d), d.email)
  {
    var p3 := "Reservation ID: " + CodeLabel(d) + "\nReservation for " + IntToString(d.guests)
      + " guest(s) made by " + d.name + " (";
    var rest := ").\nPhone: " + d.phone;
    assert Description(d) == p3 + d.email + rest;
    ContainsMiddle(p3, d.email, rest);
  }

  lemma MentionsPhone(d: Details)
    ensures Contains(Description(d), d.phone)
  {
    var p4 := "Reservation ID: " + CodeLabel(d) + "\nReservation for " + IntToString(d.guests)
      + " guest(s) made by " + d.name + " (" + d.email + ").\nPhone: ";
    assert Description(d) == p4 + d.phone + "";
    ContainsMiddle(p4, d.phone, "");
  }

  /** Create and update describe the same booking identically and span the
      same hour; only reminders and attendees differ. */
  lemma CreateAndUpdateAgree(env: Env, d: Details, startMs: int)
    ensures CreateEventBody(env, d, startMs).(reminders := None, attendees := None) == UpdateEventBody(env, d, startMs)
  {
  }
}
