/** The create pipeline of the reservations route: rate limit, validation,
    opening hours, restaurant resolution, capacity, calendar sync and the
    insert. The store, the calendar, token verification and the date parser
    are parameters. */
module ReservationsCreate {

  import opened Base
  import opened Strings
  import opened Seqs
  import opened Store
  import opened Api
  import opened Validation
  import opened SlotPolicy
  import opened ReservationCode
  import opened RateLimit
  import Calendar
  import Auth
  import ReservationsApi

  const TooManyAttempts := "Too many reservation attempts. Please wait and try again."
  const Unexpected := "An unexpected error occurred."
  const InvalidInput := "Invalid input."
  const Closed := "We're sorry, the restaurant is closed at the selected time."
  const LookupFailed := "Failed to verify restaurant."
  const InvalidRestaurant := "Invalid restaurant selected."
  const CapacityFailed := "Failed to check capacity"
  const NoTables := "We're sorry, there are no tables available at the selected time."
  const SaveFailed := "Failed to save reservation"
  const Booked := "Reservation successful!"

  /** What the handler reads from the request: the forwarding header, the
      socket address, the `admin_auth` cookie, and the JSON body (`None` when
      `req.json()` throws). */
  datatype CreateRequest = CreateRequest(forwardedFor: Option<string>, reqIp: Option<string>,
    adminCookie: Option<string>, body: Option<CreateFields>)

  /** What goes wrong in the store: `createServerSupabase()` throws
      (`client`), or a query returns an error: the restaurant lookup, the
      capacity count, the insert. */
  datatype StoreFaults = StoreFaults(client: bool, lookup: bool, count: bool, write: bool)

  /** Everything outside the handler: the environment, zod's e-mail check,
      `new Date(date + 'T' + time + ':00')` read as UTC day and hour, the
      token verifier, the calendar, and the store's faults. */
  datatype Services = Services(env: Env, emailOk: string -> bool,
    dayHour: (string, string) -> Option<DayHour>, verify: Auth.Verifier,
    calendar: Calendar.Port, faults: StoreFaults)

  /** The rate-limit key of the client. */
  function CreateKey(req: CreateRequest): string {
    "reservation:" + ClientIp(req.forwardedFor, req.reqIp)
  }

  /** The restaurant of the reservation: the admin token's claim when the
      cookie verifies and carries one, else the requested slug, else
      `DEFAULT_RESTAURANT_SLUG`, else "singhs". */
  function ChosenRestaurant(env: Env, verify: Auth.Verifier, cookie: Option<string>,
                            requested: Option<string>): (slug: string)
    ensures slug != ""
  {
    var payload := if Truthy(cookie) then Auth.Verified(env, verify, cookie.value) else None;
    var claimed := if payload.Some? then payload.value.restaurant else None;
    if Truthy(claimed) then claimed.value
    else OrElse(OrElse(requested, EnvGet(env, "DEFAULT_RESTAURANT_SLUG")), Some("singhs")).value
  }

  /** The reservation as the create reply shows it: without the restaurant. */
  function CreatedView(r: Row): (v: ReservationsApi.View)
    ensures v == ReservationsApi.ListView(r).(restaurantSlug := None)
  {
    ReservationsApi.View(r.id, r.name, r.email, r.phone, r.guests, r.date, r.time,
      r.calendarStatus, r.code, None)
  }

  /** The row written for a valid request, after the calendar call. */
  function NewRow(sv: Services, r: NewReservation, slug: string, code: string): Row {
    var outcome := Calendar.CreateEvent(sv.env, sv.calendar, CalendarDetails(r, code));
    Row(0, r.name, r.email, r.phone, r.guests, r.date, r.time, code, slug,
      if outcome.Done? then Synced else Error,
      if outcome.Done? then outcome.eventId else None)
  }

  function CalendarDetails(r: NewReservation, code: string): Calendar.Details {
    Calendar.Details(r.name, r.email, r.phone, r.guests, r.date, r.time, Some(code))
  }

  /** How the handler ends once past the rate-limit check: refused without
      counting, failed and counted against the client, or booked. */
  datatype Admission =
    | Refused(reply: Reply<ReservationsApi.View>)
    | Broke(reply: Reply<ReservationsApi.View>)
    | Admitted(reply: Reply<ReservationsApi.View>, db: Db)

  /** The handler after the rate-limit check, as one function. */
  function Admit(db: Db, sv: Services, req: CreateRequest, code: string): (a: Admission)
    ensures a.Admitted? ==> |a.db.rows| == |db.rows| + 1 && a.db.rows[..|db.rows|] == db.rows
  {
    if req.body.None? then Broke(Fail(500, Unexpected))
    else
      var parsed := ParseCreate(req.body.value, sv.emailOk);
      if parsed.None? then Refused(Fail(400, InvalidInput))
      else
        var r := parsed.value;
        if !OpenAt(sv.dayHour(r.date, r.time)) then Refused(Fail(400, Closed))
        else if sv.faults.client then Broke(Fail(500, Unexpected))
        else
          var slug := ChosenRestaurant(sv.env, sv.verify, req.adminCookie, r.restaurantSlug);
          if sv.faults.lookup || |RestaurantsWithSlug(db, slug)| > 1 then Refused(Fail(500, LookupFailed))
          else if RestaurantsWithSlug(db, slug) == [] then Refused(Fail(400, InvalidRestaurant))
          else if sv.faults.count then Refused(Fail(500, CapacityFailed))
          else if |SlotRows(db.rows, r.date, r.time, slug)| >= MaxBookingsPerHour then Refused(Fail(400, NoTables))
          else
            var inserted := if sv.faults.write then None else Insert(db, NewRow(sv, r, slug, code));
            if inserted.None? then Broke(Fail(500, SaveFailed))
            else Admitted(Reply(201, Some(Booked), Some(CreatedView(inserted.value.1)), None), inserted.value.0)
  }

  /** The whole handler: the reply, the new store and the new limiter map. */
  function CreateSpec(m: map<string, Entry>, cfg: Config, db: Db, sv: Services, req: CreateRequest,
                      code: string, t: int): (Reply<ReservationsApi.View>, Db, map<string, Entry>) {
    var key := CreateKey(req);
    var (m1, verdict) := CheckSpec(m, cfg, key, t);
    if verdict.Locked? then
      (Reply(429, Some(TooManyAttempts), None, RetryAfterHeader(verdict.retryAfterMs)), db, m1)
    else
      match Admit(db, sv, req, code)
      case Refused(reply) => (reply, db, m1)
      case Broke(reply) => (reply, db, FailSpec(m1, cfg, key, t).0)
      case Admitted(reply, db') => (reply, db', SuccessSpec(m1, key))
  }

  /** `POST`: the rate-limit check, then the handler's steps, then the
      limiter's bookkeeping for how they ended. `draws` are the generator's
      random draws and `t` the clock. */
  method Create(limiter: RateLimiter, db: Db, sv: Services, req: CreateRequest, draws: seq<Draw>, t: int)
    returns (reply: Reply<ReservationsApi.View>, db': Db)
    requires |draws| >= DefaultLength
    modifies limiter
    ensures (reply, db', limiter.attempts)
      == CreateSpec(old(limiter.attempts), limiter.cfg, db, sv, req, CodeFor(draws[..DefaultLength]), t)
  {
    var key := "reservation:" + ClientIp(req.forwardedFor, req.reqIp);
    var verdict := limiter.Check(key, t);
    if verdict.Locked? {
      return Reply(429, Some(TooManyAttempts), None, RetryAfterHeader(verdict.retryAfterMs)), db;
    }
    var admission := Steps(db, sv, req, draws);
    match admission
    case Refused(r) =>
      reply, db' := r, db;
    case Broke(r) =>
      var ignored := limiter.Fail(key, t);
      reply, db' := r, db;
    case Admitted(r, stored) =>
      limiter.Success(key);
      reply, db' := r, stored;
  }

  /** The handler's steps after the rate-limit check, in its order, with the
      row's calendar status set after the calendar call. */
  method Steps(db: Db, sv: Services, req: CreateRequest, draws: seq<Draw>) returns (a: Admission)
    requires |draws| >= DefaultLength
    ensures a == Admit(db, sv, req, CodeFor(draws[..DefaultLength]))
  {
    if req.body.None? {
      return Broke(Fail(500, Unexpected));
    }
    var parsed := ParseCreate(req.body.value, sv.emailOk);
    if parsed.None? {
      return Refused(Fail(400, InvalidInput));
    }
    var r := parsed.value;
    if !OpenAt(sv.dayHour(r.date, r.time)) {
      return Refused(Fail(400, Closed));
    }
    if sv.faults.client {
      return Broke(Fail(500, Unexpected));
    }
    var slug := ChosenRestaurant(sv.env, sv.verify, req.adminCookie, r.restaurantSlug);
    var found := RestaurantsWithSlug(db, slug);
    if sv.faults.lookup || |found| > 1 {
      return Refused(Fail(500, LookupFailed));
    }
    if found == [] {
      return Refused(Fail(400, InvalidRestaurant));
    }
    if sv.faults.count {
      return Refused(Fail(500, CapacityFailed));
    }
    if |SlotRows(db.rows, r.date, r.time, slug)| >= MaxBookingsPerHour {
      return Refused(Fail(400, NoTables));
    }
    var code := GenerateReservationCode(DefaultLength, draws);
    assert code == CodeFor(draws[..DefaultLength]);
    var row := Row(0, r.name, r.email, r.phone, r.guests, r.date, r.time, code, slug, Pending, None);
    var outcome := Calendar.CreateEvent(sv.env, sv.calendar, CalendarDetails(r, code));
    if outcome.Done? {
      row := row.(calendarStatus := Synced);
      row := row.(eventId := outcome.eventId);
    } else {
      row := row.(calendarStatus := Error);
    }
    assert row == NewRow(sv, r, slug, code);
    var inserted := if sv.faults.write then None else Insert(db, row);
    if inserted.None? {
      return Broke(Fail(500, SaveFailed));
    }
    return Admitted(Reply(201, Some(Booked), Some(CreatedView(inserted.value.1)), None), inserted.value.0);
  }

  // ---------------------------------------------------------------------
  // Properties

  /** A locked client is answered 429 with the remaining lock as
      `Retry-After`, and nothing is stored or counted. */
  lemma LockedClientRefused(m: map<string, Entry>, cfg: Config, db: Db, sv: Services,
                            req: CreateRequest, code: string, t: int)
    requires CheckSpec(m, cfg, CreateKey(req), t).1.Locked?
    ensures var (reply, db', m') := CreateSpec(m, cfg, db, sv, req, code, t);
      && reply.status == 429 && reply.message == Some(TooManyAttempts)
      && reply.retryAfter == RetryAfterHeader(CheckSpec(m, cfg, CreateKey(req), t).1.retryAfterMs)
      && db' == db && m' == m
  {
  }

  /** A body the schema refuses is a 400 that neither stores nor counts. */
  lemma InvalidInputNotCounted(m: map<string, Entry>, cfg: Config, db: Db, sv: Services,
                               req: CreateRequest, code: string, t: int)
    requires CheckSpec(m, cfg, CreateKey(req), t).1.Unlocked?
    requires req.body.Some? && ParseCreate(req.body.value, sv.emailOk).None?
    ensures CreateSpec(m, cfg, db, sv, req, code, t)
      == (Fail(400, InvalidInput), db, CheckSpec(m, cfg, CreateKey(req), t).0)
  {
  }

  /** A body that is not JSON lands in the catch-all: 500, counted as a
      failure. */
  lemma MalformedBodyCounted(m: map<string, Entry>, cfg: Config, db: Db, sv: Services,
                             req: CreateRequest, code: string, t: int)
    requires CheckSpec(m, cfg, CreateKey(req), t).1.Unlocked? && req.body.None?
    ensures var m1 := CheckSpec(m, cfg, CreateKey(req), t).0;
      CreateSpec(m, cfg, db, sv, req, code, t)
        == (Fail(500, Unexpected), db, FailSpec(m1, cfg, CreateKey(req), t).0)
  {
  }

  /** A `createServerSupabase()` that throws, once the body is valid and
      the hour open, lands in the catch-all: 500, counted as a failure,
      nothing stored. */
  lemma ClientFaultCounted(m: map<string, Entry>, cfg: Config, db: Db, sv: Services,
                           req: CreateRequest, code: string, t: int)
    requires CheckSpec(m, cfg, CreateKey(req), t).1.Unlocked? && sv.faults.client
    requires req.body.Some? && ParseCreate(req.body.value, sv.emailOk).Some?
    requires var r := ParseCreate(req.body.value, sv.emailOk).value; OpenAt(sv.dayHour(r.date, r.time))
    ensures var m1 := CheckSpec(m, cfg, CreateKey(req), t).0;
      CreateSpec(m, cfg, db, sv, req, code, t)
        == (Fail(500, Unexpected), db, FailSpec(m1, cfg, CreateKey(req), t).0)
  {
  }

  /** What a booking implies: a valid body, an open hour, exactly one
      matching restaurant, fewer than ten reservations in the slot before,
      an unused code, and the store extended by exactly the new row. */
  lemma AdmittedMeans(db: Db, sv: Services, req: CreateRequest, code: string)
    requires Admit(db, sv, req, code).Admitted?
    ensures req.body.Some? && ParseCreate(req.body.value, sv.emailOk).Some?
    ensures var r := ParseCreate(req.body.value, sv.emailOk).value;
      var slug := ChosenRestaurant(sv.env, sv.verify, req.adminCookie, r.restaurantSlug);
      var row := NewRow(sv, r, slug, code).(id := db.nextId);
      && OpenAt(sv.dayHour(r.date, r.time))
      && |RestaurantsWithSlug(db, slug)| == 1
      && |SlotRows(db.rows, r.date, r.time, slug)| < MaxBookingsPerHour
      && !sv.faults.client && !sv.faults.lookup && !sv.faults.count && !sv.faults.write
      && (forall i :: 0 <= i < |db.rows| ==> db.rows[i].code != code)
      && Admit(db, sv, req, code).db == db.(rows := db.rows + [row], nextId := db.nextId + 1)
      && Admit(db, sv, req, code).reply == Reply(201, Some(Booked), Some(CreatedView(row)), None)
  {
  }

  /** The converse: when every check passes, the reservation is booked. */
  lemma AdmittedWhen(db: Db, sv: Services, req: CreateRequest, code: string)
    requires req.body.Some? && ParseCreate(req.body.value, sv.emailOk).Some?
    requires var r := ParseCreate(req.body.value, sv.emailOk).value;
      var slug := ChosenRestaurant(sv.env, sv.verify, req.adminCookie, r.restaurantSlug);
      && OpenAt(sv.dayHour(r.date, r.time))
      && |RestaurantsWithSlug(db, slug)| == 1
      && |SlotRows(db.rows, r.date, r.time, slug)| < MaxBookingsPerHour
      && !sv.faults.client && !sv.faults.lookup && !sv.faults.count && !sv.faults.write
      && (forall i :: 0 <= i < |db.rows| ==> db.rows[i].code != code)
    ensures Admit(db, sv, req, code).Admitted?
  {
  }

  /** A booking never takes a slot past ten reservations at one restaurant. */
  lemma CapacityNeverExceeded(db: Db, sv: Services, req: CreateRequest, code: string)
    requires Admit(db, sv, req, code).Admitted?
    ensures var r := ParseCreate(req.body.value, sv.emailOk).value;
      var slug := ChosenRestaurant(sv.env, sv.verify, req.adminCookie, r.restaurantSlug);
      |SlotRows(Admit(db, sv, req, code).db.rows, r.date, r.time, slug)|
        == |SlotRows(db.rows, r.date, r.time, slug)| + 1 <= MaxBookingsPerHour
  {
    AdmittedMeans(db, sv, req, code);
    var r := ParseCreate(req.body.value, sv.emailOk).value;
    var slug := ChosenRestaurant(sv.env, sv.verify, req.adminCookie, r.restaurantSlug);
    var row := NewRow(sv, r, slug, code).(id := db.nextId);
    FilterAppend(db.rows, [row], (x: Row) => InSlot(x, r.date, r.time, slug));
  }

  /** The slot is full at ten: with ten reservations the next is refused. */
  lemma TenthBookingIsTheLast(db: Db, sv: Services, req: CreateRequest, code: string)
    requires req.body.Some? && ParseCreate(req.body.value, sv.emailOk).Some?
    requires var r := ParseCreate(req.body.value, sv.emailOk).value;
      var slug := ChosenRestaurant(sv.env, sv.verify, req.adminCookie, r.restaurantSlug);
      && OpenAt(sv.dayHour(r.date, r.time))
      && |RestaurantsWithSlug(db, slug)| == 1
      && !sv.faults.client && !sv.faults.lookup && !sv.faults.count
      && |SlotRows(db.rows, r.date, r.time, slug)| >= MaxBookingsPerHour
    ensures Admit(db, sv, req, code) == Refused(Fail(400, NoTables))
  {
  }

  /** A booking keeps ids below `nextId` and ids and codes distinct. */
  lemma AdmittedKeepsValid(db: Db, sv: Services, req: CreateRequest, code: string)
    requires Valid(db) && Admit(db, sv, req, code).Admitted?
    ensures Valid(Admit(db, sv, req, code).db)
  {
    AdmittedMeans(db, sv, req, code);
    var r := ParseCreate(req.body.value, sv.emailOk).value;
    var slug := ChosenRestaurant(sv.env, sv.verify, req.adminCookie, r.restaurantSlug);
    InsertKeepsValid(db, NewRow(sv, r, slug, code));
  }

  /** The calendar never blocks a booking: with any other calendar the same
      request is booked or refused alike. */
  lemma CalendarNeverBlocks(db: Db, sv: Services, req: CreateRequest, code: string, other: Calendar.Port)
    ensures Admit(db, sv, req, code).Admitted? == Admit(db, sv.(calendar := other), req, code).Admitted?
  {
  }

  /** The booked row records the calendar's outcome. */
  lemma BookedRowRecordsCalendar(db: Db, sv: Services, req: CreateRequest, code: string)
    requires Admit(db, sv, req, code).Admitted?
    ensures
      var r := ParseCreate(req.body.value, sv.emailOk).value;
      var outcome := Calendar.CreateEvent(sv.env, sv.calendar, CalendarDetails(r, code));
      var row := Admit(db, sv, req, code).db.rows[|db.rows|];
      && (row.calendarStatus == Synced <==> outcome.Done?)
      && (row.calendarStatus == Error <==> outcome.Threw?)
      && row.eventId == (if outcome.Done? then outcome.eventId else None)
  {
    AdmittedMeans(db, sv, req, code);
  }

  /** The booked row is the request as validated, in the chosen restaurant,
      under the generated code. */
  lemma BookedRowIsTheRequest(db: Db, sv: Services, req: CreateRequest, code: string)
    requires Admit(db, sv, req, code).Admitted?
    ensures var f := req.body.value;
      var row := Admit(db, sv, req, code).db.rows[|db.rows|];
      && f.name == Given(row.name) && f.email == Given(row.email) && f.phone == Given(row.phone)
      && f.guests == Given(row.guests) && f.date == Given(row.date) && f.time == Given(row.time)
      && 2 <= row.guests <= 20 && row.code == code && row.id == db.nextId
      && row.restaurant == ChosenRestaurant(sv.env, sv.verify, req.adminCookie,
           ParseCreate(f, sv.emailOk).value.restaurantSlug)
  {
    AdmittedMeans(db, sv, req, code);
  }

  /** The limiter after a request: a booking clears the client's entry, a
      save failure or a throw counts once, a refusal leaves the checked map. */
  lemma LimiterEffects(m: map<string, Entry>, cfg: Config, db: Db, sv: Services,
                       req: CreateRequest, code: string, t: int)
    requires CheckSpec(m, cfg, CreateKey(req), t).1.Unlocked?
    ensures var m1 := CheckSpec(m, cfg, CreateKey(req), t).0;
      var m' := CreateSpec(m, cfg, db, sv, req, code, t).2;
      && (Admit(db, sv, req, code).Admitted? ==> CreateKey(req) !in m' && m' == m1 - {CreateKey(req)})
      && (Admit(db, sv, req, code).Broke? ==> m' == FailSpec(m1, cfg, CreateKey(req), t).0)
      && (Admit(db, sv, req, code).Refused? ==> m' == m1)
  {
  }

  /** A restaurant claimed by a verified admin token wins over the body. */
  lemma TokenRestaurantWins(env: Env, verify: Auth.Verifier, cookie: string, requested: Option<string>)
    requires cookie != ""
    requires Auth.Verified(env, verify, cookie).Some?
    requires Truthy(Auth.Verified(env, verify, cookie).value.restaurant)
    ensures ChosenRestaurant(env, verify, Some(cookie), requested)
      == Auth.Verified(env, verify, cookie).value.restaurant.value
  {
  }

  /** Without a token that verifies and names a restaurant, the body's slug
      is used, then the default. */
  lemma RequestedRestaurantThenDefault(env: Env, verify: Auth.Verifier, cookie: Option<string>,
                                       requested: Option<string>)
    requires var p := if Truthy(cookie) then Auth.Verified(env, verify, cookie.value) else None;
      p.None? || !Truthy(p.value.restaurant)
    ensures Truthy(requested) ==> ChosenRestaurant(env, verify, cookie, requested) == requested.value
    ensures !Truthy(requested) && Truthy(EnvGet(env, "DEFAULT_RESTAURANT_SLUG")) ==>
      ChosenRestaurant(env, verify, cookie, requested) == env["DEFAULT_RESTAURANT_SLUG"]
    ensures !Truthy(requested) && !Truthy(EnvGet(env, "DEFAULT_RESTAURANT_SLUG")) ==>
      ChosenRestaurant(env, verify, cookie, requested) == "singhs"
  {
  }
}
