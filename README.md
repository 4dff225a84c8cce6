# Riga Eats reservations, modelled in Dafny

This project models the core of a restaurant reservation system. The system
is a web application for the Singh's restaurants in Riga. Guests use it to:

- see which hours of a day are still bookable;
- book a table;
- look up, change or cancel their booking by its six-character
  reservation code.

Administrators sign in to a dashboard that lists bookings and shows
analytics. A management secret lets them create restaurants and further
admin accounts.

The model covers these parts:

- **SlotPolicy**: the weekly opening-hours table and the open/closed test.
  A slot holds at most ten reservations.
- **Validation**: the request schemas of the create and update routes.
- **ReservationCode**: the generator of reservation codes.
- **ReservationsApi**:
  - public availability for a date, which lists the hours holding ten or
    more reservations;
  - the admin list, sorted by date (newest first) and then by time.
- **ReservationsCreate**: the booking pipeline. It runs the per-client
  rate limit, then validation, the open-hours check, restaurant
  resolution, the capacity check, the calendar call and the insert.
  - The limiter records a failure only for a body that is not JSON, a
    client that throws, or a failed save. It clears the client's entry
    on success.
- **MyReservationApi**: the guest's lookup, change and cancellation.
  - A reservation never counts against itself in the capacity check.
  - Calendar failures never block the change or the cancellation.
- **RateLimit**: the in-memory failure counter with its window and lock,
  written as a class whose methods are proved against specification
  functions. It also reads its configuration from the environment.
- **Auth**: admin tokens. A token is signed with the current secret and
  verified against the current and then the previous secret. A version
  claim invalidates tokens when it is bumped.
- **Login**: the login route, with its production guards, its rate limit,
  lookup in the admin table and the environment fallback.
- **AdminAccess**: the two management routes. Both check the secret
  header or the admin cookie, and both keep usernames and slugs distinct
  as long as their uniqueness lookups answer. A failed lookup reads as
  "no row", which lets a duplicate through.
- **Middleware**: which paths pass freely, the redirect of an
  unauthenticated `/admin` page to the login page, and the redirect of a
  signed-in admin away from it.
- **UriComponent**: `encodeURIComponent`, with percent decoding as its
  inverse.
- **EnvCheck**: the environment check at start-up.
- **Calendar**: the calendar event payloads for create and update, and the
  error paths of create, update and cancel.
- **BookingPage**: the booking page's time slots and its filter of full
  hours.
- **Dashboard**: the dashboard's derived figures:
  - the `tel:` form of a phone number;
  - location labels;
  - the bookings-per-hour chart and its busiest hour;
  - today's guests;
  - the calendar badge.
- **Analytics**: the 90-day analytics report.

The database is a value, `Store.Db`, holding reservations, restaurants and
admin users. Each route takes a store and returns the new store with its
reply. Outside services become parameters of the model:

- the environment (`Env`, a map);
- JavaScript date parsing (a function from the date and time strings to a
  UTC day of the week and hour, or to milliseconds);
- JWT verification and signing;
- bcrypt;
- zod's e-mail check;
- the calendar API (a `Calendar.Port`);
- `Math.random` (a sequence of draws);
- the clock;
- faults of the store (a client that throws, a query that returns an error), given as flags.

A JavaScript value is *truthy* in the model when it is present and not the
empty string.

## Model

| member | source | states |
|---|---|---|
| SlotPolicy.OperatingHours | src/app/api/reservations/route.ts:10-19 | Only days 0..6 have an entry, and every entry is an interval within 11..24 whose start is below its end. |
| SlotPolicy.OpenIffInInterval | src/app/api/reservations/route.ts:151-160 | A time is open exactly when its day is in the table and `start <= hour < end`. |
| SlotPolicy.BoundariesExact | src/app/api/reservations/route.ts:151-160 | The opening hour and the last hour before closing are open; the closing hour and the hour before opening are closed. |
| SlotPolicy.TableExamples | src/app/api/reservations/route.ts:10-19 | Concrete days and hours: Sunday closes at 22, Friday and Saturday are open at 23, day 7 and day -1 are never open, and an unparseable date is closed. |
| Validation.ParseCreate | src/app/api/reservations/route.ts:24-39 | A body is accepted exactly when every field satisfies its rule: a non-empty name; a valid e-mail; a phone of 7 to 20 characters from `[+\d().\-\s]`; guests 2..20; the date and time shapes; an optional non-empty slug. The result carries exactly the body's values. |
| Validation.ParseUpdate | src/app/api/my-reservation/route.ts:7-14 | A body is accepted exactly when the code is non-empty, every given field satisfies its looser rule, and guests are 1..20. The change carries exactly the given fields. |
| Validation.CreateGuestBounds | src/app/api/reservations/route.ts:32-35 | Changing only the party size of an accepted body keeps it accepted exactly for 2..20 guests. |
| Validation.UpdateLooserThanCreate | src/app/api/my-reservation/route.ts:7-14 | The update schema accepts one guest and a phone of letters, both of which the create schema refuses. |
| Validation.PhoneExamples | src/app/api/reservations/route.ts:27-31 | Concrete phone numbers accepted and refused by the create rule, at both length bounds. |
| ReservationCode.CharAt | src/app/api/reservations/route.ts:42 | Every draw in 0..35 names an upper-case letter or a digit. |
| ReservationCode.IndexOf | src/app/api/reservations/route.ts:42 | Every code character has a draw naming it (the inverse of `CharAt`). |
| ReservationCode.CodeCharsSpelledOut | src/app/api/reservations/route.ts:42 | The literal alphabet has 36 characters, and position `d` holds `CharAt(d)`. |
| ReservationCode.AlphabetExact | src/app/api/reservations/route.ts:42 | The alphabet holds 36 distinct characters, which are exactly the upper-case letters and the digits. |
| ReservationCode.CodeFor | src/app/api/reservations/route.ts:44-51 | The code of a sequence of draws has one character per draw. |
| ReservationCode.GenerateReservationCode | src/app/api/reservations/route.ts:44-51 | The loop builds a code of the requested length. Character `i` is the alphabet entry of draw `i`, so every character is a letter or a digit. |
| ReservationCode.GeneratedIsReservationCode | src/app/api/reservations/route.ts:44-51 | Six draws give a well-formed six-character code. |
| ReservationCode.EveryCodeReachable | src/app/api/reservations/route.ts:44-51 | Every string of code characters is produced by some sequence of draws, so the generator can reach every code. |
| ReservationsApi.HourKeys | src/app/api/reservations/route.ts:74-78 | The bucket key of each row, in row order: the text before the first `:`, followed by `:00`. |
| ReservationsApi.KeysStep | src/app/api/reservations/route.ts:74-78 | One more row counts its key once more, and its key joins the distinct keys only when new. |
| ReservationsApi.Availability | src/app/api/reservations/route.ts:66-82 | The counting loop and the filter over its entries return exactly the fully booked buckets of the date. |
| ReservationsApi.CountBuckets | src/app/api/reservations/route.ts:74-78 | After the loop, every key seen is present with the number of rows holding it. No other key is present, and the keys are in first-seen order. |
| ReservationsApi.KeyOnDate | src/app/api/reservations/route.ts:66-69 | A key is a bucket of the date exactly when some reservation on that date has that hour key. |
| ReservationsApi.FullyBookedExactly | src/app/api/reservations/route.ts:74-82 | An hour is reported exactly when at least ten reservations of that date, across all restaurants, fall in it. It is reported once. |
| ReservationsApi.FilterKeepsNoDuplicates | src/app/api/reservations/route.ts:79-81 | Filtering the bucket entries keeps them free of duplicates. |
| ReservationsApi.FullyBookedIgnoresRestaurant | src/app/api/reservations/route.ts:66-69 | Moving reservations between restaurants does not change the reported hours: availability is counted over all restaurants. |
| ReservationsApi.SameKeysOnDate | src/app/api/reservations/route.ts:66-69 | Moving reservations between restaurants keeps the date's bucket keys. |
| ReservationsApi.HourKeysAppend | src/app/api/reservations/route.ts:74-78 | The keys of two row lists put together are the keys of each, one after the other. |
| ReservationsApi.BucketExamples | src/app/api/reservations/route.ts:76 | "12:30" and "12:00" count in "12:00", and a time without a colon counts in its own bucket. |
| ReservationsApi.ListView | src/app/api/reservations/route.ts:97-108 | The list's item carries the row's id, code, date, time, guests and restaurant. |
| ReservationsApi.ListOrderTotal | src/app/api/reservations/route.ts:87-88 | Any two rows are ordered one way or the other by (date descending, time ascending). |
| ReservationsApi.ListOrderTransitive | src/app/api/reservations/route.ts:87-88 | The list order is transitive. |
| ReservationsApi.InsertRow | src/app/api/reservations/route.ts:87-88 | Inserting adds exactly the new row to the multiset of rows. |
| ReservationsApi.InsertRowSorted | src/app/api/reservations/route.ts:87-88 | Inserting into a sorted list keeps it sorted. |
| ReservationsApi.SortForList | src/app/api/reservations/route.ts:87-88 | Sorting permutes the rows. |
| ReservationsApi.SortForListSorted | src/app/api/reservations/route.ts:87-88 | The sorted rows are in list order. |
| ReservationsApi.Selected | src/app/api/reservations/route.ts:89-91 | With a restaurant given, exactly its rows are selected, each as often as it is stored. Without one, all rows are selected. |
| ReservationsApi.ListedIsSortedSelection | src/app/api/reservations/route.ts:84-109 | The list is in order and holds the selected rows' views, each as often as it occurs (a permutation). |
| ReservationsApi.ListedOnlyThatRestaurant | src/app/api/reservations/route.ts:89-91 | With a restaurant given, every listed reservation belongs to it. |
| ReservationsApi.Get | src/app/api/reservations/route.ts:58-118 | A throwing `createServerSupabase()` is the catch-all 500 "An unexpected error occurred.". Otherwise a truthy date gives availability and anything else gives the list, and a failed query is a 500 with the message of its branch. |
| ReservationsCreate.ChosenRestaurant | src/app/api/reservations/route.ts:168-179 | The restaurant is never empty. |
| ReservationsCreate.TokenRestaurantWins | src/app/api/reservations/route.ts:168-179 | A verified admin cookie that claims a restaurant decides the restaurant, whatever the body asks for. |
| ReservationsCreate.RequestedRestaurantThenDefault | src/app/api/reservations/route.ts:168-179 | Without a token that verifies and claims a restaurant, the body's slug is used, then `DEFAULT_RESTAURANT_SLUG`, then "singhs". |
| ReservationsCreate.CreatedView | src/app/api/reservations/route.ts:278-288 | The create reply shows the row as the list does, but without the restaurant. |
| ReservationsCreate.Admit | src/app/api/reservations/route.ts:136-253 | A booking appends exactly one row and keeps every earlier row. |
| ReservationsCreate.Steps | src/app/api/reservations/route.ts:136-253 | The handler's steps in their order: parse, open check, restaurant lookup, capacity count, code, calendar, insert. Together they equal `Admit` under the code that the first six draws spell. |
| ReservationsCreate.Create | src/app/api/reservations/route.ts:124-306 | The whole POST handler: the reply, the new store and the limiter's new map, including the catch-all for a non-JSON body and for a throwing `createServerSupabase()`. |
| ReservationsCreate.LockedClientRefused | src/app/api/reservations/route.ts:129-134 | A locked client gets 429 with `Retry-After` rounded up to seconds. The store is untouched. |
| ReservationsCreate.InvalidInputNotCounted | src/app/api/reservations/route.ts:137-144 | A body the schema refuses is a 400. It stores nothing and records no failure. |
| ReservationsCreate.MalformedBodyCounted | src/app/api/reservations/route.ts:295-306 | A body that is not JSON is a 500 and is recorded as a failure. |
| ReservationsCreate.ClientFaultCounted | src/app/api/reservations/route.ts:162-306 | A `createServerSupabase()` that throws after the hours check is a 500 "An unexpected error occurred.", recorded as a failure, with nothing stored. |
| ReservationsCreate.AdmittedMeans | src/app/api/reservations/route.ts:136-294 | A booking implies that every check passed: a valid body, an open hour, exactly one matching restaurant, fewer than ten reservations in the slot, and an unused code. The store gains exactly the new row and the reply is 201. |
| ReservationsCreate.AdmittedWhen | src/app/api/reservations/route.ts:136-294 | Conversely, when every check passes the request is booked. |
| ReservationsCreate.CapacityNeverExceeded | src/app/api/reservations/route.ts:197-215 | A booking raises its slot's count by one, and the count stays at most ten. |
| ReservationsCreate.TenthBookingIsTheLast | src/app/api/reservations/route.ts:197-215 | With ten reservations in the slot, the next request is refused with "no tables". |
| ReservationsCreate.AdmittedKeepsValid | src/app/api/reservations/route.ts:244-253 | A booking keeps ids below the next id, and keeps ids and codes distinct. |
| ReservationsCreate.CalendarNeverBlocks | src/app/api/reservations/route.ts:233-241 | Whatever the calendar does, the same request is booked or refused alike. |
| ReservationsCreate.BookedRowRecordsCalendar | src/app/api/reservations/route.ts:219-241 | The row's status is `Synced` exactly when the event was created and `Error` exactly when the calendar threw. The row stores the event id of a created event. |
| ReservationsCreate.BookedRowIsTheRequest | src/app/api/reservations/route.ts:219-230 | The stored row carries the validated fields, the chosen restaurant, the generated code and the next id. |
| ReservationsCreate.LimiterEffects | src/app/api/reservations/route.ts:244-306 | A booking removes the client's limiter entry. A failed save, or a throw that reaches the catch, records one failure. A refusal leaves the map as the check left it. |
| MyReservationApi.TimingOf | src/app/api/my-reservation/route.ts:39-40 | A reservation is upcoming exactly when its date is today or later, and past exactly when it is earlier. |
| MyReservationApi.LookupReply | src/app/api/my-reservation/route.ts:16-57 | A missing code is a 400. A throwing client is the uncaught bare 500, and a failed query the 500 "Failed to look up reservation.". The reply is 200 exactly when one row carries the code, and it then shows that code. |
| MyReservationApi.LookupFindsOwnReservation | src/app/api/my-reservation/route.ts:24-56 | In a valid store, every reservation is found by its own code, with all its fields and its timing. |
| MyReservationApi.UnknownCodeNotFound | src/app/api/my-reservation/route.ts:35-37 | A code no reservation carries is a 404. |
| MyReservationApi.Reconcile | src/app/api/my-reservation/route.ts:139-169 | A row with an event id updates its event and a row without one creates an event. The status is `Synced` exactly when that call succeeded, and never `Pending`. Only a newly created event's id is written. |
| MyReservationApi.Update | src/app/api/my-reservation/route.ts:59-172 | The PUT handler's steps in order, with each store write applied as it happens, equal the handler's specification. That specification includes a throwing client after the parse, which gives the uncaught 500 and stores nothing. |
| MyReservationApi.UpdateMergesFields | src/app/api/my-reservation/route.ts:85-137 | A successful change stores the body's fields where given and keeps the rest. The name, e-mail and code stay unchanged. |
| MyReservationApi.UpdateClosedRefused | src/app/api/my-reservation/route.ts:91-100 | A change to a closed hour is a 400 and stores nothing. |
| MyReservationApi.ResaveInFullSlot | src/app/api/my-reservation/route.ts:102-119 | A reservation in a slot that already holds ten can still change its phone without moving: it does not count against itself. |
| MyReservationApi.UpdateNeverOverfills | src/app/api/my-reservation/route.ts:102-137 | After a successful change, the target slot holds at most ten reservations in a valid store. |
| MyReservationApi.SlotAfterRewrite | src/app/api/my-reservation/route.ts:121-137 | After the rewrite, the target slot holds the other reservations plus the rewritten one. |
| MyReservationApi.StatusWriteKeepsSlots | src/app/api/my-reservation/route.ts:139-169 | The calendar status write moves no reservation between slots. |
| MyReservationApi.UpdateKeepsValid | src/app/api/my-reservation/route.ts:121-169 | Every outcome of a change keeps ids below the next id, and keeps ids and codes distinct. |
| MyReservationApi.SameKeysKeepValid | src/app/api/my-reservation/route.ts:121-137 | Rewriting rows in place with the same ids and codes keeps the store valid. |
| MyReservationApi.CalendarNeverBlocksUpdate | src/app/api/my-reservation/route.ts:139-171 | The reply does not depend on the calendar. |
| MyReservationApi.Cancel | src/app/api/my-reservation/route.ts:174-213 | DELETE: a missing code is a 400, a throwing client the uncaught 500, a failed lookup a 500 and an unknown code a 404. Otherwise the event is cancelled and then the row is deleted (a 500 if that fails). |
| MyReservationApi.CancelRemovesOnlyThatReservation | src/app/api/my-reservation/route.ts:198-212 | Cancelling a stored reservation succeeds, removes its row and keeps every other row. The store stays valid. |
| MyReservationApi.ClientFaultUncaught | src/app/api/my-reservation/route.ts:23 | In all three handlers, a throwing client gives the bare 500. The client is created at lines 23, 68 and 182, after each handler's first checks. The store is unchanged and no event is cancelled. |
| MyReservationApi.CancelCallsCalendarFirst | src/app/api/my-reservation/route.ts:198-210 | The event is cancelled exactly when the row has an event id and the calendar is configured. A failed delete leaves the store as it was. |
| Store.OtherSlotCount | src/app/api/my-reservation/route.ts:102-112 | Excluding the reservation's own id removes exactly that row from its slot's count. |
| Store.SlotWithoutSelf | src/app/api/my-reservation/route.ts:102-112 | When no row has the excluded id, the count is the plain slot count. |
| Store.FindByCode | src/app/api/my-reservation/route.ts:24-33 | A single match is a stored row with that code. No match means that no row carries it. |
| Store.NoCodeMeansNoRow | src/app/api/my-reservation/route.ts:35-37 | An empty match list means that no row carries the code. |
| Store.UniqueCodeLookup | src/app/api/my-reservation/route.ts:24-33 | With distinct codes, looking up a stored code finds exactly its row. |
| Store.WithCodeSingle | src/app/api/my-reservation/route.ts:24-33 | A code that no other row carries matches exactly its own row. |
| Store.NoneMatch | src/app/api/my-reservation/route.ts:24-33 | A code no row carries matches nothing. |
| Store.Insert | src/app/api/reservations/route.ts:244-253 | An insert fails exactly when the code is already taken. Otherwise it stores the row under the next id. |
| Store.InsertKeepsValid | src/app/api/reservations/route.ts:244-253 | An insert keeps the store valid. |
| Store.UpdateWhereKeepsValid | src/app/api/my-reservation/route.ts:121-137 | A rewrite by id that keeps each row's id and code keeps the store valid, and rows with other ids are left as they were. |
| Store.DeleteWhere | src/app/api/my-reservation/route.ts:202-210 | No row with the id remains, and no row is added. |
| Store.DeleteKeepsOthers | src/app/api/my-reservation/route.ts:202-210 | A row survives a delete exactly when it was stored under another id. |
| Store.DeleteKeepsValid | src/app/api/my-reservation/route.ts:202-210 | A delete keeps the store valid. |
| Store.FilterKeepsDistinct | src/app/api/reservations/route.ts:89-91 | Selecting rows keeps ids and codes distinct. |
| RateLimit.LeadingDigits | src/lib/rate-limit.ts:20-25 | The longest prefix of digits: a prefix, all digits, and followed by a non-digit or the end. |
| RateLimit.ParseInt10 | src/lib/rate-limit.ts:20-25 | `parseInt` is NaN exactly when no digit follows the leading white space and the optional sign. |
| RateLimit.Unsigned | src/lib/rate-limit.ts:20-25 | The text is unchanged, or loses exactly one leading sign. |
| RateLimit.LeadingDigitsOfDigits | src/lib/rate-limit.ts:20-25 | A string of digits is its own longest digit prefix. |
| RateLimit.ParseIntOfNumeral | src/lib/rate-limit.ts:20-25 | `parseInt` reads every decimal numeral back as its value. |
| RateLimit.EnvInt | src/lib/rate-limit.ts:20-25 | An unset or empty variable gives the fallback; otherwise the variable's text is parsed. |
| RateLimit.GetConfig | src/lib/rate-limit.ts:20-25 | The configuration exists exactly when all three settings parse, and it then holds the three values read. |
| RateLimit.DefaultsWhenUnset | src/lib/rate-limit.ts:20-25 | With the three variables unset or empty, the limits are 5 failures in 10 minutes and a 15-minute lock. |
| RateLimit.SettingRead | src/lib/rate-limit.ts:20-25 | A variable holding a numeral sets exactly that value. |
| RateLimit.RateLimiter.constructor | src/lib/rate-limit.ts:16 | The limiter starts with no entries. |
| RateLimit.RateLimiter.Check | src/lib/rate-limit.ts:41-52 | The new map and the verdict are those of the check specification. |
| RateLimit.RateLimiter.Fail | src/lib/rate-limit.ts:75-93 | The entry updated field by field, and the verdict, agree with the failure specification. |
| RateLimit.RateLimiter.Success | src/lib/rate-limit.ts:102 | The client's entry is removed. |
| RateLimit.CheckWithoutEntry | src/lib/rate-limit.ts:41-44 | A key with no entry is unlocked, and nothing is recorded. |
| RateLimit.CheckWhileLocked | src/lib/rate-limit.ts:45-47 | A check reports a lock exactly while the deadline is ahead, with the time left. |
| RateLimit.CheckExpiredDeletes | src/lib/rate-limit.ts:48-52 | An unlocked entry whose window has passed is deleted by the check; otherwise the map is kept. |
| RateLimit.FirstFailure | src/lib/rate-limit.ts:76-78 | The first failure records one failure at that time and never locks. |
| RateLimit.FailAfterWindowResets | src/lib/rate-limit.ts:81-85 | A failure after the window restarts the count at one. |
| RateLimit.FailReachingThresholdLocks | src/lib/rate-limit.ts:86-92 | Reaching the threshold locks for `LOCK_MS` from now, resets the count and starts a new window. |
| RateLimit.FailBelowThreshold | src/lib/rate-limit.ts:86-93 | Below the threshold, a failure adds exactly one and keeps the window. |
| RateLimit.SuccessClears | src/lib/rate-limit.ts:102 | After a success the key has no entry, and the next check is unlocked. |
| RateLimit.OtherKeysUntouched | src/lib/rate-limit.ts:41-102 | Check, failure and success leave every other key's entry as it was. |
| RateLimit.FailRunCounts | src/lib/rate-limit.ts:75-93 | Fewer than `MAX_FAILS` failures within one window are all counted from the first one, with no lock. |
| RateLimit.RepeatedFailuresLock | src/lib/rate-limit.ts:75-93 | `MAX_FAILS` failures within one window lock the key from the last one. |
| RateLimit.LockHolds | src/lib/rate-limit.ts:41-52 | After a lock, every check before the deadline is refused with the time left, and the entry is kept. |
| RateLimit.DefaultFiveFailuresLockFifteenMinutes | src/lib/rate-limit.ts:20-25 | With the defaults, five failures within ten minutes lock the key for fifteen minutes. |
| Auth.GetSecrets | src/lib/auth.ts:11-16 | The current secret and the version default to the development values. The previous secret is present only when set, and neither the current secret nor the version is ever empty. |
| Auth.Keys | src/lib/auth.ts:36 | The keys are the current secret, then the previous one when it is set. |
| Auth.FirstAccepted | src/lib/auth.ts:37-46 | A payload is returned only from a key that verifies the token with the right version. None is returned exactly when no key does. |
| Auth.VerifyToken | src/lib/auth.ts:33-47 | The loop over the keys, with `continue` on a failure, returns the first accepted payload. |
| Auth.CurrentSecretFirst | src/lib/auth.ts:37-45 | When the current secret accepts the token, its payload wins. |
| Auth.NoPreviousSecret | src/lib/auth.ts:36-46 | Without a previous secret, only the current one can accept. |
| Auth.PreviousSecretAccepted | src/lib/auth.ts:36-45 | A token signed with the previous secret and the current version still verifies. |
| Auth.VersionMismatchRejected | src/lib/auth.ts:40 | A token with another version is refused under every key. |
| Auth.AcceptedCarriesVersion | src/lib/auth.ts:40 | Whatever is accepted carries the configured version. |
| Auth.SignToken | src/lib/auth.ts:18-31 | The token claims the subject, the username and the version, signed with the current secret. It claims the restaurant only when one is given. |
| Auth.SignThenVerify | src/lib/auth.ts:18-47 | A token just signed verifies under the same settings, with its claims. |
| Auth.VersionBumpInvalidates | src/lib/auth.ts:22-23 | Changing the version invalidates every token signed before. |
| Login.NonEmpty | src/app/api/auth/login/route.ts:15 | Blank and whitespace-only values count as unset; other values pass unchanged. |
| Login.AuthenticatedHasUsername | src/app/api/auth/login/route.ts:43-68 | Both ways of signing in need a username. |
| Login.CheckCredentials | src/app/api/auth/login/route.ts:37-68 | The admin-table lookup and the fallback give the specified verdict, and a success implies a username. |
| Login.Login | src/app/api/auth/login/route.ts:10-96 | The whole handler: the reply and the limiter's new map. |
| Login.NonEmptyIgnoresBlank | src/app/api/auth/login/route.ts:15 | An all-whitespace value is unset, and a value without surrounding white space is kept. |
| Login.MalformedBodyRejected | src/app/api/auth/login/route.ts:93-95 | A body that is not JSON is a 400 and changes no counter. |
| Login.ProductionNeedsSettings | src/app/api/auth/login/route.ts:20-27 | In production, a missing username or hash setting is a 500, before the limiter is consulted. |
| Login.LockedClientNotChecked | src/app/api/auth/login/route.ts:29-35 | A locked client gets 429 with `Retry-After` in seconds, whatever credentials it sends. |
| Login.FallbackOnlyForExpectedUser | src/app/api/auth/login/route.ts:59 | For anyone but the expected user, only the admin table decides. |
| Login.FallbackSession | src/app/api/auth/login/route.ts:59-68 | Through the fallback, the session's restaurant is `DEV_RESTAURANT_SLUG`, then `DEFAULT_RESTAURANT_SLUG`, then "singhs". Without a hash, the plain password is accepted only outside production. |
| Login.ProductionSessionNeedsHash | src/app/api/auth/login/route.ts:59-68 | In production, a session is granted only through the admin table or the configured hash, never through a plain password. |
| Login.FailureCounted | src/app/api/auth/login/route.ts:70-78 | Failed credentials are a 401 and record a failure. `Retry-After` is set only when that failure locks the client. |
| Login.SuccessSetsSession | src/app/api/auth/login/route.ts:80-92 | A success clears the client's counter. It sets the `admin_auth` cookie: HTTP-only, lax, site-wide, eight hours, secure in production. |
| AdminAccess.AuthorizationOrder | src/app/api/admin/admin-users/route.ts:13-26 | A matching secret header suffices on its own; otherwise only a verifying cookie lets the caller in. |
| AdminAccess.EmptySecretNeedsCookie | src/app/api/admin/restaurants/route.ts:11-24 | An unset or empty secret never lets a header in. |
| AdminAccess.CreateAdmin | src/app/api/admin/admin-users/route.ts:28-67 | The handler's steps equal the route's specification, including failed lookups, which read as "no row". |
| AdminAccess.AdminUnauthorizedFirst | src/app/api/admin/admin-users/route.ts:29-31 | An unauthorised caller gets a 401 whatever the body holds, and nothing changes. |
| AdminAccess.AdminBodyChecked | src/app/api/admin/admin-users/route.ts:33-37 | The reply is 400 exactly when the body fails the schema, and such a body changes nothing. |
| AdminAccess.DistinctNamedAtMostOne | src/app/api/admin/admin-users/route.ts:50 | With distinct usernames, a name matches at most one admin. |
| AdminAccess.CreateAdminKeepsUsernamesDistinct | src/app/api/admin/admin-users/route.ts:44-62 | When the uniqueness lookup answers, every outcome keeps usernames distinct. A 201 always adds an admin for a stored restaurant. |
| AdminAccess.UsernameLookupFaultDuplicates | src/app/api/admin/admin-users/route.ts:50-62 | A failed uniqueness lookup lets a taken username past the 409, and the insert stores it a second time. |
| AdminAccess.AppendFreshUsername | src/app/api/admin/admin-users/route.ts:50-56 | Adding an admin under a name no admin has keeps usernames distinct. |
| AdminAccess.SlugFound | src/app/api/admin/admin-users/route.ts:44-47 | A slug the lookup finds belongs to a stored restaurant. |
| AdminAccess.AdminHashFault | src/app/api/admin/admin-users/route.ts:55-66 | Once both lookups pass, the reply is 500 "Unexpected error" with nothing stored exactly when `hashPassword` throws. |
| AdminAccess.CreatedAdminEcho | src/app/api/admin/admin-users/route.ts:55-62 | A 201 echoes the username and slug, and stores the password's hash, never the password. Reservations and restaurants are untouched. |
| AdminAccess.AdminRefusals | src/app/api/admin/admin-users/route.ts:44-53 | An unknown restaurant, or a failed restaurant lookup, is a 404. A taken username is a 409 when both lookups answer. Neither writes. |
| AdminAccess.CreateRestaurant | src/app/api/admin/restaurants/route.ts:26-55 | The handler's steps equal the route's specification, including a failed slug lookup, which reads as "no row". |
| AdminAccess.RestaurantGuards | src/app/api/admin/restaurants/route.ts:27-35 | An unauthorised caller gets a 401 whatever the body holds. An empty slug or name is a 400. |
| AdminAccess.DistinctSlugAtMostOne | src/app/api/admin/restaurants/route.ts:41 | With distinct slugs, a slug matches at most one restaurant. |
| AdminAccess.CreateRestaurantKeepsSlugsDistinct | src/app/api/admin/restaurants/route.ts:41-50 | When the slug lookup answers, every outcome keeps slugs distinct and an existing slug is a 409 with no insert. A 201 adds exactly the new restaurant. |
| AdminAccess.RestaurantLookupFaultDuplicates | src/app/api/admin/restaurants/route.ts:41-50 | A failed slug lookup lets an existing slug past the 409, and the insert stores it a second time. |
| AdminAccess.AppendFreshSlug | src/app/api/admin/restaurants/route.ts:41-45 | Adding a restaurant under a new slug keeps slugs distinct. |
| Middleware.AdminIsNotPublic | middleware.ts:14-26 | No `/admin` path matches a public prefix. |
| Middleware.AdminNeedsToken | middleware.ts:26-35 | An `/admin` page without a verifying token goes to the login page, with the page and its query encoded as `next`. With a verifying token it continues. |
| Middleware.NextParameterRoundTrips | middleware.ts:32 | The `next` value holds only unreserved characters and `%`, and it decodes to the UTF-8 bytes of the page and query. |
| Middleware.ApiAdminFallsThrough | middleware.ts:14-26 | `/api/admin` paths are never redirected here. |
| Middleware.LoginSendsSignedInOn | middleware.ts:38-48 | A signed-in admin on the login page goes to `next`, or to `/admin`, with the query cleared. Everyone else sees the login page. |
| Middleware.OthersContinue | middleware.ts:14-50 | Other paths continue whatever the cookie. |
| Middleware.RedirectsOnlyAdminOrLogin | middleware.ts:10-51 | Only `/admin` pages (to the login page) and the login page (with an empty query) are redirected. |
| UriComponent.Utf8 | middleware.ts:32 | A character encodes to 1 to 4 bytes, and to its own code exactly when it is ASCII. |
| UriComponent.Escape | middleware.ts:32 | `%XX` with two hex digits that read back as the byte. |
| UriComponent.EncodeOnlySafeChars | middleware.ts:32 | An encoded component holds only unreserved characters and `%`. |
| UriComponent.EncodeUnreservedIdentity | middleware.ts:32 | A string of unreserved characters is its own encoding. |
| UriComponent.DecodeEscapes | middleware.ts:32 | Escaped bytes decode back to those bytes, whatever follows them. |
| UriComponent.DecodeEncode | middleware.ts:32 | Decoding an encoded component gives the UTF-8 bytes of the original (round trip). |
| EnvCheck.CollectMissing | src/lib/env-check.ts:5-10 | The missing names, in check order, are exactly the required settings that are unset or empty. |
| EnvCheck.ValidateEnv | src/lib/env-check.ts:3-30 | In production, missing settings throw with their names; elsewhere they only warn. With nothing missing, the check is silent. |
| EnvCheck.MissingIsFilter | src/lib/env-check.ts:8-10 | The missing list is the filter of the required settings by "unset or empty". |
| EnvCheck.MissingExactly | src/lib/env-check.ts:8-10 | A name is reported exactly when it is required and missing. |
| EnvCheck.ProductionStartsConfigured | src/lib/env-check.ts:12-18 | A production start is silent exactly when every required setting is non-empty. |
| EnvCheck.ThrownNamesAll | src/lib/env-check.ts:14-17 | For every production environment with a setting missing, the thrown message lists the missing settings in the order they are checked, joined by ", ", and names each of them. |
| EnvCheck.ThrownExample | src/lib/env-check.ts:10-17 | An example: with only `AUTH_SECRET` set, the message lists "ADMIN_USERNAME, ADMIN_PASSWORD_HASH". |
| Calendar.TimeZone | src/lib/google-calendar.ts:41 | The time zone is the setting when it is set, else UTC, and is never empty. |
| Calendar.NumberOf | src/lib/google-calendar.ts:44 | `Number` reads every digit string, possibly surrounded by white space, as a non-negative value. |
| Calendar.StartMs | src/lib/google-calendar.ts:44-47 | A start time exists only when the date parses and the time has a minute field. |
| Calendar.CreateEventBody | src/lib/google-calendar.ts:46-76 | The event lasts one hour from the start, in the configured zone. It carries the summary and description, an e-mail reminder at 24 h and a pop-up at 2 h. It has attendees exactly when invitations are enabled, and then only the guest. |
| Calendar.UpdateEventBody | src/lib/google-calendar.ts:109-125 | The same one-hour event in the configured zone, with no reminders and no attendees. |
| Calendar.CreateEvent | src/lib/google-calendar.ts:38-102 | Creation succeeds exactly when the credentials are set, the start parses and the API accepts, and then it returns the API's event id. Every failure throws the one generic message. |
| Calendar.UpdateEvent | src/lib/google-calendar.ts:104-138 | Updates succeed and fail under the same conditions as creation, with their own generic message. |
| Calendar.CancelEvent | src/lib/google-calendar.ts:140-151 | The delete is sent, for the given id, exactly when credentials are set, and cancelling never throws. |
| Calendar.MissingCredentialsFail | src/lib/google-calendar.ts:21-24 | Without credentials, create and update throw their messages and cancel sends nothing. |
| Calendar.StartAtBookedTime | src/lib/google-calendar.ts:44-47 | An "HH:MM" time starts the event at that UTC hour and minute of the parsed date. |
| Calendar.DescriptionMentions | src/lib/google-calendar.ts:54 | The description starts with the reservation id and mentions the guests, name, e-mail and phone. |
| Calendar.CreateAndUpdateAgree | src/lib/google-calendar.ts:52-70 | Apart from reminders and attendees, the created and the updated event are the same. |
| BookingPage.ClientHours | src/app/singhs/page.tsx:47-56 | Only days 0..6 have hours, within 11..24, with the start below the end. |
| BookingPage.ClientTableIsServerTable | src/app/singhs/page.tsx:47-56 | The page's table equals the server's table, entry by entry. |
| BookingPage.SlotsBetween | src/app/singhs/page.tsx:64-66 | There is one label per hour from the start up to the end, exclusive. |
| BookingPage.GenerateTimeSlots | src/app/singhs/page.tsx:58-68 | The loop pushes exactly the day's slots; an unknown day gets none. |
| BookingPage.SlotCounts | src/app/singhs/page.tsx:58-68 | A day has `end - start` slots: 10 on Sunday, 13 on Friday, 12 on Saturday. |
| BookingPage.LabelReadsBack | src/app/singhs/page.tsx:65 | A two-digit hour's label reads back as that hour and has the server's time format. |
| BookingPage.SlotsAreOpenHours | src/app/singhs/page.tsx:58-68 | Slot `i` is the hour `start + i`. The server's opening table marks that hour open on that weekday, and the slot passes the server's time format. |
| BookingPage.AvailableExactly | src/app/singhs/page.tsx:107-109 | A time is offered exactly when it is a slot of the day and not fully booked. |
| BookingPage.ResetTime | src/app/singhs/page.tsx:113-116 | The selected time is kept when still offered, and otherwise becomes the first offered time, or empty. |
| Dashboard.StripTelPunct | src/components/AdminDashboardClient.tsx:41 | No white space, parenthesis, dot or dash remains. |
| Dashboard.NormalizePhoneForTel | src/components/AdminDashboardClient.tsx:35-43 | The steps compute the normalised number. |
| Dashboard.NormalizedPhoneKeepsDigits | src/components/AdminDashboardClient.tsx:35-43 | A missing number gives "". Otherwise the result keeps exactly the characters that are not punctuation, and holds no punctuation. |
| Dashboard.DoubleZeroBecomesPlus | src/components/AdminDashboardClient.tsx:39-41 | A number written with a leading "00" is dialled with "+". |
| Dashboard.PlusKept | src/components/AdminDashboardClient.tsx:41 | Stripping keeps a leading "+". |
| Dashboard.LocationLabel | src/components/AdminDashboardClient.tsx:56-66 | The two known slugs give their addresses, a missing slug gives a dash, and any other slug is shown as it is. The label is never empty. |
| Dashboard.BookingHours | src/components/AdminDashboardClient.tsx:115 | The hour key of each booking, in order. |
| Dashboard.BookingsByHour | src/components/AdminDashboardClient.tsx:114-118 | The map holds exactly the hours of the bookings, each with the number of bookings in it. |
| Dashboard.CountKeys | src/components/AdminDashboardClient.tsx:114-118 | The counting loop gives each key seen its number of occurrences. |
| Dashboard.CountsSumToBookings | src/components/AdminDashboardClient.tsx:114-121 | The per-hour counts add up to the number of bookings. |
| Dashboard.ChartEntries | src/components/AdminDashboardClient.tsx:120-121 | There is one bar per distinct hour, holding its count, in first-seen order. |
| Dashboard.InsertByHour | src/components/AdminDashboardClient.tsx:122 | Inserting adds exactly the new bar. |
| Dashboard.InsertByHourSorted | src/components/AdminDashboardClient.tsx:122 | Inserting keeps the bars in hour order. |
| Dashboard.SortByHour | src/components/AdminDashboardClient.tsx:122 | Sorting permutes the bars. |
| Dashboard.SortByHourSorted | src/components/AdminDashboardClient.tsx:122 | The sorted bars are in hour order. |
| Dashboard.ChartIsSortedCounts | src/components/AdminDashboardClient.tsx:114-122 | The chart is in hour order and is a permutation of the per-hour counts. |
| Dashboard.BusiestIsLastMaximum | src/components/AdminDashboardClient.tsx:128 | With no bars the busiest hour is "N/A". Otherwise it is a bar with the largest count, and every later bar has a smaller one (the last maximum wins ties). |
| Dashboard.TodaysBookings | src/components/AdminDashboardClient.tsx:124-125 | Every booking kept is for today. |
| Dashboard.GuestSumAppend | src/components/AdminDashboardClient.tsx:127 | The guest sum over two lists is the sum of their sums. |
| Dashboard.GuestsTodayStep | src/components/AdminDashboardClient.tsx:124-127 | A new booking adds its guests to today's total, and one to today's count, exactly when it is for today. |
| Dashboard.StatusBadge | src/components/AdminDashboardClient.tsx:130-139 | The badge is green exactly for `Synced`, red exactly for `Error`, and yellow for `Pending` or no status. |
| Analytics.Queried | src/app/api/analytics/route.ts:17-24 | Exactly the rows from the window's first day on are returned, each as often as it is stored. When a restaurant is given, they are exactly the rows of that restaurant. |
| Analytics.DayTallyCountsRows | src/app/api/analytics/route.ts:42-43 | A day's booking count is the number of rows on that day. |
| Analytics.WindowTallyCountsRows | src/app/api/analytics/route.ts:61-64 | A window's booking count is the number of rows inside it. |
| Analytics.DailyIsTally | src/app/api/analytics/route.ts:40-44 | A day's entry counts exactly that day's rows and guests, and a day has an entry exactly when it has a row. |
| Analytics.HourKeyCases | src/app/api/analytics/route.ts:45 | A missing time counts as "00:00", "HH:MM" counts in "HH:00" and "H:MM" in "0H:00". Every key ends in ":00". |
| Analytics.BeforeFirstAt | src/app/api/analytics/route.ts:45 | The text before the first `:` is the prefix up to the first colon. |
| Analytics.HourKeys | src/app/api/analytics/route.ts:45 | The hour key of each row, in order. |
| Analytics.ByHourCounts | src/app/api/analytics/route.ts:46 | Each hour present counts its rows, and an hour is present exactly when some row falls in it. |
| Analytics.EmailsExactly | src/app/api/analytics/route.ts:47 | The set holds exactly the non-empty e-mails of the rows. |
| Analytics.AggregateStep | src/app/api/analytics/route.ts:40-48 | One more row updates the three aggregates as the loop body does. |
| Analytics.ByHourStep | src/app/api/analytics/route.ts:46 | One more hour key adds one to that hour's count. |
| Analytics.AddSample | src/app/api/analytics/route.ts:41-47 | The loop body's updates of the three aggregates. |
| Analytics.Aggregate | src/app/api/analytics/route.ts:40-48 | The loop leaves the daily, hourly and e-mail aggregates of all rows. |
| Analytics.SeriesOf | src/app/api/analytics/route.ts:51-58 | `n` entries: entry `i` is day `start + i`, with its figures or zeros. |
| Analytics.SeriesPrefix | src/app/api/analytics/route.ts:52-58 | A series of `n` days extends the series of `n - 1` days by one entry. |
| Analytics.DailySeries | src/app/api/analytics/route.ts:51-58 | The loop pushes exactly the 90-day series. |
| Analytics.WindowWiden | src/app/api/analytics/route.ts:61-64 | Widening the window by a day adds that day's rows. |
| Analytics.WindowEmpty | src/app/api/analytics/route.ts:61-64 | An empty window counts nothing. |
| Analytics.TotalsSnoc | src/app/api/analytics/route.ts:61-64 | Adding up one more entry adds its figures. |
| Analytics.WindowStep | src/app/api/analytics/route.ts:56-64 | A day's entry holds what the window gains by including that day. |
| Analytics.SeriesTotals | src/app/api/analytics/route.ts:51-64 | The series adds up to the rows inside its window, and only those. |
| Analytics.Get | src/app/api/analytics/route.ts:8-74 | A failed query is a 500 with its message; otherwise the reply is the report of the queried rows. |
| Analytics.SeriesEntry | src/app/api/analytics/route.ts:51-58 | Entry `i` is day `start + i`, with that day's row count and guests. |
| Analytics.ReportSeries | src/app/api/analytics/route.ts:13-16 | The window spans 90 days ending today. Each entry counts its day's queried rows, and the last entry equals today's figures. |
| Analytics.ReportTotals | src/app/api/analytics/route.ts:61-72 | The totals count the queried rows inside the window. The hour counts and the e-mails cover every queried row. |
| Analytics.FutureRowOnlyInHours | src/app/api/analytics/route.ts:17-20 | A row dated after today changes no total but counts in its hour, because the query has no upper bound. |
| Api.RetryAfterSeconds | src/app/api/reservations/route.ts:132 | The value is the number of milliseconds rounded up to whole seconds. |
| Api.RetryAfterHeader | src/app/api/auth/login/route.ts:33 | The header is set exactly when the remaining time is non-zero, and then holds it rounded up to seconds. |
| Api.ClientIp | src/app/api/reservations/route.ts:127 | The address is the trimmed first hop of `x-forwarded-for` when non-empty, else the socket address, else "unknown". It is never empty. |
| Api.ClientIpFirstHop | src/app/api/auth/login/route.ts:29 | For every header of the form: white-space padding, a first hop (no comma, no white space at its ends), a comma, then any further hops, the address is that first hop, whatever the socket address. |
| Api.ClientIpFallbacks | src/app/api/auth/login/route.ts:29 | An empty header falls back to any non-empty socket address, and no source at all gives "unknown". |
| Strings.Trim | src/app/api/reservations/route.ts:127 | `trim()` removes exactly the leading and trailing JavaScript white space and keeps the middle. |
| Strings.TrimPadded | src/app/api/reservations/route.ts:127 | `trim()` removes any white-space prefix in front of text whose ends are not white space, and gives back that text. |
| Strings.BeforeFirst | src/app/api/reservations/route.ts:76 | `split(sep)[0]` is the longest prefix without the separator. |
| Strings.BeforeFirstStops | src/app/api/reservations/route.ts:76 | The prefix stops at the separator, or at the end of the text. |
| Strings.PadStart2 | src/app/api/analytics/route.ts:45 | `padStart(2, '0')` keeps longer strings and left-pads shorter ones with zeros. |
| Strings.Join | src/lib/env-check.ts:15 | Joining nothing gives "" and joining one name gives that name. |
| Strings.JoinSnoc | src/lib/env-check.ts:15 | Appending a name to a non-empty list adds the separator and then the name to the joined text. |
| Strings.JoinContains | src/lib/env-check.ts:15 | The joined text contains every name. |
| Strings.NatToStringRoundTrip | src/app/singhs/page.tsx:65 | A decimal numeral reads back as its value. |

## Left out

- JavaScript `Date` is not modelled. Parsing a date or a date-time, `getUTCDay`, `getUTCHours`, `setUTCHours`, `toISOString` and the analytics window's `setDate` arithmetic are parameters, or day indices given as integers. Daylight-saving effects on the local `setDate` are therefore not captured.
- The e-mail check (zod's `email()`), bcrypt hashing and verification, JWT signing and verification, and the calendar API are parameters of the model, not implementations.
- The Redis branch of the rate limiter is not part of this model; only the in-memory map is. The limiter's configuration is read once, when the limiter is created, rather than on every call.
- Every handler uses a single clock value `t` per request.
- Concurrency between requests is not modelled. Each handler runs on one store value, from start to end.
- Sending the confirmation e-mail is left out. Its failure is caught and logged, so it does not change the reply or the store.
- The calendar's console logging and the error details it logs are left out. Only the generic thrown message is kept.
- zod's error details in the 400 replies are left out; only status and message are modelled.
- String lengths are counted in Unicode code points, not UTF-16 units. This matters only for characters outside the Basic Multilingual Plane.
- `localeCompare` and the date comparisons are modelled by code-point order. This agrees with the locale order for the digit and punctuation strings the routes compare.
- Calendar.NumberOf: `Number()` is modelled only for strings that are digits, possibly padded with white space. Every other string gives `None`, where JavaScript would give NaN or a decimal.
- RateLimit.GetConfig: a NaN setting makes the configuration `None`. The source would carry NaN into its comparisons, where every comparison is false.
- Validation.ParseCreate and Validation.ParseUpdate: non-integer `guests` such as 2.5, which `z.number()` accepts and the route stores, are not represented; party sizes are integers in the model, so the guest bounds are stated over integers only.
- Store.Insert: the store is assumed to enforce a unique `reservation_code`, as the design intends; the schema is not part of this model and the create route does not check for a taken code itself. Without that constraint a repeated code would be stored, and later lookups by it would give 404 (`.single()`) or 500 (`.maybeSingle()`). The distinct-codes part of `Store.Valid`, and the lookup results built on it, rest on this assumption.
- Store.FindByCode: `.maybeSingle()` with several matching rows is an error (500). The admin routes read only `data` from `.single()`, so a query error or a count other than one reads as "no row" there (`AdminAccess.Services.restaurantLookupFault` and `usernameLookupFault`).
- MyReservationApi.Update: the write `.update(...).eq('id', id)` is applied to every row with that id. Ids are distinct in a valid store.
- MyReservationApi.Cancel: a body that is not JSON, or one without a code, is treated as a missing code. The route reads the body with `.catch(() => ({}))`, and a `null` body would make it throw instead.
- The update route does not check that a restaurant requested in the body exists, so the model does not either.
- The create route calls the calendar before the insert, so the model does too: a failed insert can leave an event behind.
- In the create route, the limiter's success and failure calls come after the handler's steps. `Steps` returns the admission, and `Create` then calls the limiter.
- Dashboard: the display status "Confirmed" or "Completed", computed from `new Date`, is left out. So are the clipboard copy and the fetching of the bookings and analytics.
- BookingPage: the server reads `${date}T${time}:00` in its own time zone and then takes the UTC weekday and hour, while the page picks the weekday in the browser's time zone. So the page's slots match the server's open check only on a server running in UTC. The model states agreement with the server's opening table, not with its check of a parsed date-time.
- BookingPage: the page filters with the fully booked slots it last fetched, which can be stale when the date changes. The model takes the list as a parameter, and rendering is left out.
- ReservationsApi.Get: a row whose `time` is not a string would make `.split` throw into the catch-all. Stored times are strings in the model, so only a throwing `createServerSupabase()` reaches that 500.
- Analytics: the catch-all 500 "Unexpected error" and the JSON key order of `byHour` are left out.
- Middleware: the URL re-encoding done by Next.js, and the decoding of `searchParams`, are outside this model. So is the `matcher` configuration. `validateEnv` runs at import time; the model checks the environment separately (`EnvCheck`).
- EnvCheck: the console warning is modelled only as its text (`Text`).
- AdminAccess: a `hashPassword` that throws (`Services.hashFault`) and a cookie read that throws (`Caller.cookieFault`) are modelled as fault flags; the hash itself is a total function parameter.
- The menu data, the layout, the logout route, the admin pages and the seeding scripts are not part of this model.
