/** The guest's own reservation, found by its code: look it up, change the
    date, time, party, phone or restaurant, or cancel it. The store, the
    calendar, the date parser and the clock are parameters. */
module MyReservationApi {

  import opened Base
  import opened Strings
  import opened Seqs
  import opened Store
  import opened Api
  import opened Validation
  import opened SlotPolicy
  import Calendar
  import ReservationsApi

  const MissingCode := "Missing reservation code."
  const LookupFailed := "Failed to look up reservation."
  const NotFound := "Reservation not found."
  const InvalidInput := "Invalid input."
  const Closed := "We're sorry, the restaurant is closed at the selected time."
  const CapacityFailed := "Failed to check capacity."
  const NoTables := "We're sorry, there are no tables available at the selected time."
  const UpdateFailed := "Failed to update reservation."
  const Updated := "Reservation updated."
  const CancelFailed := "Failed to cancel reservation."
  const Cancelled := "Reservation cancelled."

  // ---------------------------------------------------------------------
  // GET ?code=

  /** `data.date >= today`, compared as strings. */
  datatype Timing = Upcoming | Past

  /** The lookup reply: the reservation with its restaurant, and its timing. */
  datatype Found = Found(reservation: ReservationsApi.View, status: Timing)

  function TimingOf(date: string, today: string): (s: Timing)
    ensures s == Upcoming <==> LessEq(today, date)
    ensures s == Past <==> Less(date, today)
  {
    LessTotal(date, today);
    LessAsymmetric(date, today);
    LessIrreflexive(date);
    if LessEq(today, date) then Upcoming else Past
  }

  /** The bare 500 that Next answers when a handler throws outside any
      `try`. */
  function Uncaught<T>(): (r: Reply<T>)
    ensures r.status == 500 && r.message.None? && r.data.None? && r.retryAfter.None?
  {
    Reply(500, None, None, None)
  }

  /** `GET`: `today` is the current UTC date, `clientFault` a throwing
      `createServerSupabase()`, `failed` the store refusing the query. */
  function LookupReply(rows: seq<Row>, code: Option<string>, today: string, clientFault: bool, failed: bool)
    : (r: Reply<Found>)
    ensures !Truthy(code) ==> r == Fail(400, MissingCode)
    ensures Truthy(code) && clientFault ==> r == Uncaught()
    ensures Truthy(code) && !clientFault && failed ==> r == Fail(500, LookupFailed)
    ensures r.status == 200 <==> (Truthy(code) && !clientFault && !failed && FindByCode(rows, code.value).OneRow?)
    ensures r.status == 200 ==> r.data.Some? && r.data.value.reservation.reservationCode == code.value
  {
    if !Truthy(code) then Fail(400, MissingCode)
    else if clientFault then Uncaught()
    else if failed then Fail(500, LookupFailed)
    else
      match FindByCode(rows, code.value)
      case ManyRows => Fail(500, LookupFailed)
      case NoRow => Fail(404, NotFound)
      case OneRow(row) =>
        Reply(200, None, Some(Found(ReservationsApi.ListView(row), TimingOf(row.date, today))), None)
  }

  /** Every stored reservation is found by its own code, with all its fields;
      it is upcoming exactly when its date is today or later. */
  lemma LookupFindsOwnReservation(db: Db, k: nat, today: string)
    requires Valid(db) && k < |db.rows| && db.rows[k].code != ""
    ensures LookupReply(db.rows, Some(db.rows[k].code), today, false, false)
      == Reply(200, None, Some(Found(ReservationsApi.ListView(db.rows[k]),
           if LessEq(today, db.rows[k].date) then Upcoming else Past)), None)
  {
    UniqueCodeLookup(db.rows, k);
  }

  /** A code no reservation carries is a 404. */
  lemma UnknownCodeNotFound(rows: seq<Row>, code: string, today: string)
    requires code != ""
    requires forall i :: 0 <= i < |rows| ==> rows[i].code != code
    ensures LookupReply(rows, Some(code), today, false, false) == Fail(404, NotFound)
  {
  }

  // ---------------------------------------------------------------------
  // PUT

  /** Which steps fail: `client` is a throwing `createServerSupabase()`, the
      others are store queries returning an error; a failing calendar-status
      write is ignored by the handler. */
  datatype UpdateFaults = UpdateFaults(client: bool, lookup: bool, count: bool, write: bool, statusWrite: bool)

  /** The values after `??` merging: the body's where given, else the row's. */
  datatype Merged = Merged(date: string, time: string, guests: int, phone: string, restaurant: string)

  function Merge(existing: Row, c: Change): (m: Merged)
    ensures m.date == c.date.GetOr(existing.date) && m.time == c.time.GetOr(existing.time)
    ensures m.guests == c.guests.GetOr(existing.guests) && m.phone == c.phone.GetOr(existing.phone)
    ensures m.restaurant == c.restaurantSlug.GetOr(existing.restaurant)
  {
    Merged(c.date.GetOr(existing.date), c.time.GetOr(existing.time), c.guests.GetOr(existing.guests),
      c.phone.GetOr(existing.phone), c.restaurantSlug.GetOr(existing.restaurant))
  }

  /** `.update({ date, time, guests, phone, restaurant })` on one row. */
  function Applied(r: Row, m: Merged): Row {
    r.(date := m.date, time := m.time, guests := m.guests, phone := m.phone, restaurant := m.restaurant)
  }

  /** The calendar details of the changed reservation: name, e-mail and code
      from the stored row, the rest merged. */
  function DetailsOf(existing: Row, m: Merged): Calendar.Details {
    Calendar.Details(existing.name, existing.email, m.phone, m.guests, m.date, m.time, Some(existing.code))
  }

  /** The row write after the calendar call. */
  datatype CalendarWrite = StatusOnly(status: CalendarStatus) | StatusAndEvent(status: CalendarStatus, eventId: Option<string>)

  function ApplyWrite(r: Row, w: CalendarWrite): Row {
    match w
    case StatusOnly(s) => r.(calendarStatus := s)
    case StatusAndEvent(s, e) => r.(calendarStatus := s, eventId := e)
  }

  /** The calendar step: update the event when the row has one, else create
      one; any failure only marks the row `Error`. */
  function Reconcile(env: Env, port: Calendar.Port, existing: Row, m: Merged): (w: CalendarWrite)
    ensures Truthy(existing.eventId) ==> w.StatusOnly?
    ensures w.status == Synced <==>
      if Truthy(existing.eventId)
      then Calendar.UpdateEvent(env, port, existing.eventId.value, DetailsOf(existing, m)).Done?
      else Calendar.CreateEvent(env, port, DetailsOf(existing, m)).Done?
    ensures w.status != Pending
    ensures w.StatusAndEvent? ==> (!Truthy(existing.eventId)
      && Calendar.CreateEvent(env, port, DetailsOf(existing, m)).Done?
      && w.eventId == Calendar.CreateEvent(env, port, DetailsOf(existing, m)).eventId)
  {
    if Truthy(existing.eventId) then
      match Calendar.UpdateEvent(env, port, existing.eventId.value, DetailsOf(existing, m))
      case Done(_) => StatusOnly(Synced)
      case Threw(_) => StatusOnly(Error)
    else
      match Calendar.CreateEvent(env, port, DetailsOf(existing, m))
      case Done(id) => StatusAndEvent(Synced, id)
      case Threw(_) => StatusOnly(Error)
  }

  /** `PUT` as a function: the reply (its data is the row as updated, before
      the calendar status write) and the new store. `body` is `None` when
      `req.json()` throws, which the handler does not catch. */
  function UpdateSpec(db: Db, env: Env, port: Calendar.Port, dayHour: (string, string) -> Option<DayHour>,
                      body: Option<UpdateFields>, faults: UpdateFaults): (Reply<Row>, Db) {
    if body.None? then (Reply(500, None, None, None), db)
    else
      var parsed := ParseUpdate(body.value);
      if parsed.None? then (Fail(400, InvalidInput), db)
      else if faults.client then (Uncaught(), db)
      else
        var c := parsed.value;
        var found := FindByCode(db.rows, c.reservationCode);
        if faults.lookup || found.ManyRows? then (Fail(500, LookupFailed), db)
        else if found.NoRow? then (Fail(404, NotFound), db)
        else
          var existing := found.row;
          var m := Merge(existing, c);
          if !OpenAt(dayHour(m.date, m.time)) then (Fail(400, Closed), db)
          else if faults.count then (Fail(500, CapacityFailed), db)
          else if |OtherSlotRows(db.rows, m.date, m.time, m.restaurant, existing.id)| >= 10 then (Fail(400, NoTables), db)
          else if faults.write then (Fail(500, UpdateFailed), db)
          else
            var rows1 := UpdateWhere(db.rows, existing.id, (r: Row) => Applied(r, m));
            var w := Reconcile(env, port, existing, m);
            var rows2 := if faults.statusWrite then rows1 else UpdateWhere(rows1, existing.id, (r: Row) => ApplyWrite(r, w));
            (Reply(200, Some(Updated), Some(Applied(existing, m)), None), db.(rows := rows2))
  }

  /** `PUT`: the handler's steps in order, each store write applied to the
      store as it happens. */
  method Update(db: Db, env: Env, port: Calendar.Port, dayHour: (string, string) -> Option<DayHour>,
                body: Option<UpdateFields>, faults: UpdateFaults) returns (reply: Reply<Row>, db': Db)
    ensures (reply, db') == UpdateSpec(db, env, port, dayHour, body, faults)
  {
    db' := db;
    if body.None? {
      return Reply(500, None, None, None), db;
    }
    var parsed := ParseUpdate(body.value);
    if parsed.None? {
      return Fail(400, InvalidInput), db;
    }
    if faults.client {
      return Uncaught(), db;
    }
    var c := parsed.value;
    var found := FindByCode(db.rows, c.reservationCode);
    if faults.lookup || found.ManyRows? {
      return Fail(500, LookupFailed), db;
    }
    if found.NoRow? {
      return Fail(404, NotFound), db;
    }
    var existing := found.row;
    var newDate := c.date.GetOr(existing.date);
    var newTime := c.time.GetOr(existing.time);
    var newGuests := c.guests.GetOr(existing.guests);
    var newPhone := c.phone.GetOr(existing.phone);
    var newRestaurant := c.restaurantSlug.GetOr(existing.restaurant);
    var m := Merged(newDate, newTime, newGuests, newPhone, newRestaurant);
    if !OpenAt(dayHour(newDate, newTime)) {
      return Fail(400, Closed), db;
    }
    if faults.count {
      return Fail(500, CapacityFailed), db;
    }
    if |OtherSlotRows(db.rows, newDate, newTime, newRestaurant, existing.id)| >= 10 {
      return Fail(400, NoTables), db;
    }
    if faults.write {
      return Fail(500, UpdateFailed), db;
    }
    db' := db'.(rows := UpdateWhere(db'.rows, existing.id, (r: Row) => Applied(r, m)));
    var updatedRow := Applied(existing, m);
    var details := DetailsOf(existing, m);
    var write: CalendarWrite;
    if Truthy(existing.eventId) {
      var outcome := Calendar.UpdateEvent(env, port, existing.eventId.value, details);
      write := if outcome.Done? then StatusOnly(Synced) else StatusOnly(Error);
    } else {
      var created := Calendar.CreateEvent(env, port, details);
      write := if created.Done? then StatusAndEvent(Synced, created.eventId) else StatusOnly(Error);
    }
    if !faults.statusWrite {
      db' := db'.(rows := UpdateWhere(db'.rows, existing.id, (r: Row) => ApplyWrite(r, write)));
    }
    return Reply(200, Some(Updated), Some(updatedRow), None), db';
  }

  /** A successful change: the body's fields where given, the row's
      otherwise, and the name, e-mail, code and id untouched. */
  lemma UpdateMergesFields(db: Db, env: Env, port: Calendar.Port, dayHour: (string, string) -> Option<DayHour>,
                           body: Option<UpdateFields>, faults: UpdateFaults)
    requires UpdateSpec(db, env, port, dayHour, body, faults).0.status == 200
    ensures var c := ParseUpdate(body.value).value;
      var existing := FindByCode(db.rows, c.reservationCode).row;
      var u := UpdateSpec(db, env, port, dayHour, body, faults).0.data.value;
      && existing in db.rows && existing.code == c.reservationCode
      && u.id == existing.id && u.code == existing.code
      && u.name == existing.name && u.email == existing.email
      && u.date == c.date.GetOr(existing.date) && u.time == c.time.GetOr(existing.time)
      && u.guests == c.guests.GetOr(existing.guests) && u.phone == c.phone.GetOr(existing.phone)
      && u.restaurant == c.restaurantSlug.GetOr(existing.restaurant)
  {
  }

  /** A change to a closed hour is refused and stores nothing. */
  lemma UpdateClosedRefused(db: Db, env: Env, port: Calendar.Port, dayHour: (string, string) -> Option<DayHour>,
                            body: Option<UpdateFields>, faults: UpdateFaults)
    requires body.Some? && ParseUpdate(body.value).Some? && !faults.client && !faults.lookup
    requires FindByCode(db.rows, ParseUpdate(body.value).value.reservationCode).OneRow?
    requires var c := ParseUpdate(body.value).value;
      var m := Merge(FindByCode(db.rows, c.reservationCode).row, c);
      !OpenAt(dayHour(m.date, m.time))
    ensures UpdateSpec(db, env, port, dayHour, body, faults) == (Fail(400, Closed), db)
  {
  }

  /** The reservation does not count against itself: a reservation in a slot
      of ten may still be changed without moving it (only the party size or
      phone, say). */
  lemma ResaveInFullSlot(db: Db, k: nat, env: Env, port: Calendar.Port,
                         dayHour: (string, string) -> Option<DayHour>, phone: string)
    requires Valid(db) && k < |db.rows| && db.rows[k].code != ""
    requires |SlotRows(db.rows, db.rows[k].date, db.rows[k].time, db.rows[k].restaurant)| == MaxBookingsPerHour
    requires OpenAt(dayHour(db.rows[k].date, db.rows[k].time))
    requires 7 <= |phone| <= 20
    ensures UpdateSpec(db, env, port, dayHour,
      Some(UpdateFields(Given(db.rows[k].code), Absent, Absent, Absent, Given(phone), Absent)),
      UpdateFaults(false, false, false, false, false)).0.status == 200
  {
    var r := db.rows[k];
    UniqueCodeLookup(db.rows, k);
    OtherSlotCount(db.rows, r.date, r.time, r.restaurant, k);
  }

  /** A successful change never leaves its slot with more than ten
      reservations at the restaurant. */
  lemma UpdateNeverOverfills(db: Db, env: Env, port: Calendar.Port, dayHour: (string, string) -> Option<DayHour>,
                             body: Option<UpdateFields>, faults: UpdateFaults)
    requires Valid(db)
    requires UpdateSpec(db, env, port, dayHour, body, faults).0.status == 200
    ensures var u := UpdateSpec(db, env, port, dayHour, body, faults).0.data.value;
      |SlotRows(UpdateSpec(db, env, port, dayHour, body, faults).1.rows, u.date, u.time, u.restaurant)|
        <= MaxBookingsPerHour
  {
    var c := ParseUpdate(body.value).value;
    var existing := FindByCode(db.rows, c.reservationCode).row;
    var m := Merge(existing, c);
    var k :| 0 <= k < |db.rows| && db.rows[k] == existing;
    var rows1 := UpdateWhere(db.rows, existing.id, (r: Row) => Applied(r, m));
    var w := Reconcile(env, port, existing, m);
    SlotAfterRewrite(db.rows, k, m);
    if !faults.statusWrite {
      StatusWriteKeepsSlots(rows1, existing.id, w, m.date, m.time, m.restaurant);
    }
  }

  /** After the rewrite the slot holds the others plus the rewritten row. */
  lemma SlotAfterRewrite(rows: seq<Row>, k: nat, m: Merged)
    requires DistinctIds(rows) && k < |rows|
    ensures |SlotRows(UpdateWhere(rows, rows[k].id, (r: Row) => Applied(r, m)), m.date, m.time, m.restaurant)|
      == |OtherSlotRows(rows, m.date, m.time, m.restaurant, rows[k].id)| + 1
  {
    var id := rows[k].id;
    var rows1 := UpdateWhere(rows, id, (r: Row) => Applied(r, m));
    assert DistinctIds(rows1) by {
      forall i, j | 0 <= i < j < |rows1| ensures rows1[i].id != rows1[j].id {
        assert rows1[i].id == rows[i].id && rows1[j].id == rows[j].id;
      }
    }
    assert rows1[k] == Applied(rows[k], m);
    OtherSlotCount(rows1, m.date, m.time, m.restaurant, k);
    FilterCountSame(rows, rows1,
      (r: Row) => InSlot(r, m.date, m.time, m.restaurant) && r.id != id,
      (r: Row) => InSlot(r, m.date, m.time, m.restaurant) && r.id != id);
  }

  /** The calendar status write moves no reservation between slots. */
  lemma StatusWriteKeepsSlots(rows: seq<Row>, id: nat, w: CalendarWrite, date: string, time: string, restaurant: string)
    ensures |SlotRows(UpdateWhere(rows, id, (r: Row) => ApplyWrite(r, w)), date, time, restaurant)|
      == |SlotRows(rows, date, time, restaurant)|
  {
    FilterCountSame(rows, UpdateWhere(rows, id, (r: Row) => ApplyWrite(r, w)),
      (r: Row) => InSlot(r, date, time, restaurant),
      (r: Row) => InSlot(r, date, time, restaurant));
  }

  /** A change keeps ids below `nextId` and ids and codes distinct. */
  lemma UpdateKeepsValid(db: Db, env: Env, port: Calendar.Port, dayHour: (string, string) -> Option<DayHour>,
                         body: Option<UpdateFields>, faults: UpdateFaults)
    requires Valid(db)
    ensures Valid(UpdateSpec(db, env, port, dayHour, body, faults).1)
  {
    var db' := UpdateSpec(db, env, port, dayHour, body, faults).1;
    if db' != db {
      SameKeysKeepValid(db, db'.rows);
    }
  }

  /** Rows rewritten in place with the same ids and codes keep the store valid. */
  lemma SameKeysKeepValid(db: Db, rows: seq<Row>)
    requires Valid(db) && |rows| == |db.rows|
    requires forall i :: 0 <= i < |rows| ==> rows[i].id == db.rows[i].id && rows[i].code == db.rows[i].code
    ensures Valid(db.(rows := rows))
  {
  }

  /** The calendar never decides the reply: with any other calendar the
      change is accepted or refused alike, and the row records the outcome. */
  lemma CalendarNeverBlocksUpdate(db: Db, env: Env, port: Calendar.Port, other: Calendar.Port,
                                  dayHour: (string, string) -> Option<DayHour>,
                                  body: Option<UpdateFields>, faults: UpdateFaults)
    ensures UpdateSpec(db, env, port, dayHour, body, faults).0
      == UpdateSpec(db, env, other, dayHour, body, faults).0
  {
  }

  // ---------------------------------------------------------------------
  // DELETE

  /** `DELETE`: `code` is the body's `reservationCode` (`None` when the body
      is not JSON or lacks it); the reply, the new store, and the event ids
      the calendar was asked to delete. */
  function CancelSpec(db: Db, env: Env, code: Option<string>, clientFault: bool, lookupFault: bool, deleteFault: bool)
    : (Reply<Row>, Db, seq<string>) {
    if !Truthy(code) then (Fail(400, MissingCode), db, [])
    else if clientFault then (Uncaught(), db, [])
    else
      var found := FindByCode(db.rows, code.value);
      if lookupFault || found.ManyRows? then (Fail(500, LookupFailed), db, [])
      else if found.NoRow? then (Fail(404, NotFound), db, [])
      else
        var existing := found.row;
        var sent := if Truthy(existing.eventId) then Calendar.CancelEvent(env, existing.eventId.value) else None;
        var cancels := if sent.Some? then [sent.value] else [];
        if deleteFault then (Fail(500, CancelFailed), db, cancels)
        else (Reply(200, Some(Cancelled), None, None), db.(rows := DeleteWhere(db.rows, existing.id)), cancels)
  }

  method Cancel(db: Db, env: Env, code: Option<string>, clientFault: bool, lookupFault: bool, deleteFault: bool)
    returns (reply: Reply<Row>, db': Db, cancels: seq<string>)
    ensures (reply, db', cancels) == CancelSpec(db, env, code, clientFault, lookupFault, deleteFault)
  {
    cancels := [];
    if !Truthy(code) {
      return Fail(400, MissingCode), db, cancels;
    }
    if clientFault {
      return Uncaught(), db, cancels;
    }
    var found := FindByCode(db.rows, code.value);
    if lookupFault || found.ManyRows? {
      return Fail(500, LookupFailed), db, cancels;
    }
    if found.NoRow? {
      return Fail(404, NotFound), db, cancels;
    }
    var existing := found.row;
    if Truthy(existing.eventId) {
      var sent := Calendar.CancelEvent(env, existing.eventId.value);
      if sent.Some? {
        cancels := [sent.value];
      }
    }
    if deleteFault {
      return Fail(500, CancelFailed), db, cancels;
    }
    return Reply(200, Some(Cancelled), None, None), db.(rows := DeleteWhere(db.rows, existing.id)), cancels;
  }

  /** Cancelling a stored reservation removes it and nothing else, and keeps
      the store valid. */
  lemma CancelRemovesOnlyThatReservation(db: Db, env: Env, k: nat, x: Row)
    requires Valid(db) && k < |db.rows| && db.rows[k].code != ""
    ensures var (reply, db', _) := CancelSpec(db, env, Some(db.rows[k].code), false, false, false);
      && reply.status == 200
      && db.rows[k] !in db'.rows
      && (x in db'.rows <==> x in db.rows && x.id != db.rows[k].id)
      && Valid(db')
  {
    UniqueCodeLookup(db.rows, k);
    DeleteKeepsOthers(db.rows, db.rows[k].id, x);
    DeleteKeepsOthers(db.rows, db.rows[k].id, db.rows[k]);
    DeleteKeepsValid(db, db.rows[k].id);
  }

  /** The calendar event is cancelled before the row is deleted, and exactly
      when the row has an event id and the calendar is configured; a failed
      delete leaves the row in place with its event already cancelled. */
  lemma CancelCallsCalendarFirst(db: Db, env: Env, k: nat, deleteFault: bool)
    requires Valid(db) && k < |db.rows| && db.rows[k].code != ""
    ensures var (reply, db', cancels) := CancelSpec(db, env, Some(db.rows[k].code), false, false, deleteFault);
      && (cancels != [] <==> Truthy(db.rows[k].eventId) && Calendar.HasCredentials(env))
      && (cancels != [] ==> cancels == [db.rows[k].eventId.value])
      && (deleteFault ==> reply == Fail(500, CancelFailed) && db' == db)
  {
    UniqueCodeLookup(db.rows, k);
  }

  /** A throwing `createServerSupabase()` is not caught by any of the three
      handlers: once the request is past the checks made before the client
      is created, the reply is Next's bare 500, nothing is stored and no
      event is cancelled. */
  lemma ClientFaultUncaught(db: Db, env: Env, port: Calendar.Port, dayHour: (string, string) -> Option<DayHour>,
                            today: string, code: string, body: UpdateFields, faults: UpdateFaults,
                            lookupFault: bool, deleteFault: bool)
    requires code != "" && faults.client && ParseUpdate(body).Some?
    ensures LookupReply(db.rows, Some(code), today, true, lookupFault) == Uncaught()
    ensures UpdateSpec(db, env, port, dayHour, Some(body), faults) == (Uncaught(), db)
    ensures CancelSpec(db, env, Some(code), true, lookupFault, deleteFault) == (Uncaught(), db, [])
  {
  }
}
