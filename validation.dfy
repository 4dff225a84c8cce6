/** The request-body schemas of the reservation routes: `reservationSchema`
    (create) and `updateSchema` (update by code). */
module Validation {

  import opened Base
  import opened Strings

  /** One character of the class `[+\d().\-\s]`. */
  predicate IsPhoneChar(c: char) {
    c == '+' || IsDigit(c) || c == '(' || c == ')' || c == '.' || c == '-' || IsJsWhitespace(c)
  }

  /** `.min(7).max(20).regex(/^[+\d().\-\s]{7,20}$/)`. */
  predicate CreatePhoneOk(p: string) {
    7 <= |p| <= 20 && forall i :: 0 <= i < |p| ==> IsPhoneChar(p[i])
  }

  /** `/^\d{4}-\d{2}-\d{2}$/`: the shape only, not a calendar check. */
  predicate DateShape(s: string) {
    |s| == 10 && s[4] == '-' && s[7] == '-'
    && forall i :: 0 <= i < 10 && i != 4 && i != 7 ==> IsDigit(s[i])
  }

  /** `/^\d{2}:\d{2}$/`. */
  predicate TimeShape(s: string) {
    |s| == 5 && s[2] == ':' && IsDigit(s[0]) && IsDigit(s[1]) && IsDigit(s[3]) && IsDigit(s[4])
  }

  /** The fields of a create body as the schema sees them. */
  datatype CreateFields = CreateFields(
    name: Field<string>, email: Field<string>, phone: Field<string>, guests: Field<int>,
    date: Field<string>, time: Field<string>, restaurantSlug: Field<string>)

  /** A body that passed `reservationSchema`. */
  datatype NewReservation = NewReservation(
    name: string, email: string, phone: string, guests: int,
    date: string, time: string, restaurantSlug: Option<string>)

  /** An optional field: omitted, or given and accepted by `ok`. */
  predicate OptionalOk<T>(f: Field<T>, ok: T -> bool) {
    f.Absent? || (f.Given? && ok(f.value))
  }

  /** `reservationSchema.safeParse`; `emailOk` is zod's e-mail check. */
  function ParseCreate(f: CreateFields, emailOk: string -> bool): (r: Option<NewReservation>)
    ensures r.Some? <==>
      && f.name.Given? && |f.name.value| >= 1
      && f.email.Given? && emailOk(f.email.value)
      && f.phone.Given? && CreatePhoneOk(f.phone.value)
      && f.guests.Given? && 2 <= f.guests.value <= 20
      && f.date.Given? && DateShape(f.date.value)
      && f.time.Given? && TimeShape(f.time.value)
      && OptionalOk(f.restaurantSlug, (s: string) => |s| >= 1)
    ensures r.Some? ==>
      && f.name == Given(r.value.name) && |r.value.name| >= 1
      && f.email == Given(r.value.email) && emailOk(r.value.email)
      && f.phone == Given(r.value.phone) && CreatePhoneOk(r.value.phone)
      && f.guests == Given(r.value.guests) && 2 <= r.value.guests <= 20
      && f.date == Given(r.value.date) && DateShape(r.value.date)
      && f.time == Given(r.value.time) && TimeShape(r.value.time)
      && !f.restaurantSlug.Mistyped?
      && (f.restaurantSlug.Absent? ==> r.value.restaurantSlug == None)
      && (f.restaurantSlug.Given? ==> r.value.restaurantSlug == Some(f.restaurantSlug.value))
      && (r.value.restaurantSlug.Some? ==> r.value.restaurantSlug.value != "")
    ensures r.None? ==>
      || !f.name.Given? || f.name.value == ""
      || !f.email.Given? || !emailOk(f.email.value)
      || !f.phone.Given? || !CreatePhoneOk(f.phone.value)
      || !f.guests.Given? || f.guests.value < 2 || f.guests.value > 20
      || !f.date.Given? || !DateShape(f.date.value)
      || !f.time.Given? || !TimeShape(f.time.value)
      || f.restaurantSlug.Mistyped? || f.restaurantSlug == Given("")
  {
    if f.name.Given? && |f.name.value| >= 1
      && f.email.Given? && emailOk(f.email.value)
      && f.phone.Given? && CreatePhoneOk(f.phone.value)
      && f.guests.Given? && 2 <= f.guests.value <= 20
      && f.date.Given? && DateShape(f.date.value)
      && f.time.Given? && TimeShape(f.time.value)
      && (f.restaurantSlug.Absent? || (f.restaurantSlug.Given? && |f.restaurantSlug.value| >= 1))
    then
      Some(NewReservation(f.name.value, f.email.value, f.phone.value, f.guests.value,
        f.date.value, f.time.value,
        if f.restaurantSlug.Given? then Some(f.restaurantSlug.value) else None))
    else None
  }

  /** The fields of an update body as the schema sees them. */
  datatype UpdateFields = UpdateFields(
    reservationCode: Field<string>, date: Field<string>, time: Field<string>,
    guests: Field<int>, phone: Field<string>, restaurantSlug: Field<string>)

  /** A body that passed `updateSchema`; `None` marks an omitted field. */
  datatype Change = Change(
    reservationCode: string, date: Option<string>, time: Option<string>,
    guests: Option<int>, phone: Option<string>, restaurantSlug: Option<string>)

  function Given2Option<T>(f: Field<T>): (r: Option<T>)
    ensures r.Some? <==> f.Given?
    ensures r.Some? ==> r.value == f.value
  {
    if f.Given? then Some(f.value) else None
  }

  /** `updateSchema.safeParse`. */
  function ParseUpdate(f: UpdateFields): (r: Option<Change>)
    ensures r.Some? <==>
      && f.reservationCode.Given? && |f.reservationCode.value| >= 1
      && OptionalOk(f.date, DateShape)
      && OptionalOk(f.time, TimeShape)
      && OptionalOk(f.guests, (g: int) => 1 <= g <= 20)
      && OptionalOk(f.phone, (p: string) => 7 <= |p| <= 20)
      && OptionalOk(f.restaurantSlug, (s: string) => |s| >= 1)
    ensures r.Some? ==> r.value == Change(f.reservationCode.value, Given2Option(f.date),
      Given2Option(f.time), Given2Option(f.guests), Given2Option(f.phone),
      Given2Option(f.restaurantSlug))
  {
    if f.reservationCode.Given? && |f.reservationCode.value| >= 1
      && OptionalOk(f.date, DateShape)
      && OptionalOk(f.time, TimeShape)
      && OptionalOk(f.guests, (g: int) => 1 <= g <= 20)
      && OptionalOk(f.phone, (p: string) => 7 <= |p| <= 20)
      && OptionalOk(f.restaurantSlug, (s: string) => |s| >= 1)
    then
      Some(Change(f.reservationCode.value, Given2Option(f.date), Given2Option(f.time),
        Given2Option(f.guests), Given2Option(f.phone), Given2Option(f.restaurantSlug)))
    else None
  }

  /** The create schema accepts exactly the party sizes 2..20 (all other
      fields being acceptable). */
  lemma CreateGuestBounds(f: CreateFields, emailOk: string -> bool, g: int)
    requires ParseCreate(f, emailOk).Some?
    ensures ParseCreate(f.(guests := Given(g)), emailOk).Some? <==> 2 <= g <= 20
  {
  }

  /** The update schema accepts one guest and any seven characters as a phone,
      which the create schema refuses. */
  lemma UpdateLooserThanCreate()
    ensures !CreatePhoneOk("abcdefg")
    ensures ParseUpdate(UpdateFields(Given("ABC123"), Absent, Absent, Given(1), Given("abcdefg"), Absent))
      == Some(Change("ABC123", None, None, Some(1), Some("abcdefg"), None))
  {
    assert !IsPhoneChar("abcdefg"[0]);
  }

  /** Examples of the phone rule. */
  lemma PhoneExamples()
    ensures CreatePhoneOk("+37120000000")
    ensures CreatePhoneOk("(371) 2000-00.00")
    ensures !CreatePhoneOk("123456")
    ensures !CreatePhoneOk("123456789012345678901")
  {
  }
}
