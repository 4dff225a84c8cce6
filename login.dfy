/** The admin login route: production guards, the `login:<ip>` rate limit,
    the admin-table lookup, the environment fallback, and the session cookie
    on success. Password checking, token signing and the store's failures
    are parameters. */
module Login {

  import opened Base
  import opened Strings
  import opened Store
  import opened Api
  import opened RateLimit
  import Auth

  const MissingUsername := "Server misconfigured: set ADMIN_USERNAME"
  const MissingHash := "Server misconfigured: set ADMIN_PASSWORD_HASH (bcrypt)"
  const TooManyAttempts := "Too many attempts. Try again later."
  const InvalidCredentials := "Invalid credentials"
  const BadRequest := "Bad request"

  /** Eight hours, the token lifetime and the cookie's `maxAge`. */
  const SessionSeconds := 60 * 60 * 8

  /** `username` and `password` of the JSON body (`None` when absent). */
  datatype Credentials = Credentials(username: Option<string>, password: Option<string>)

  /** The request: its forwarding header, its socket address and its body
      (`None` when `req.json()` or the destructuring throws). */
  datatype LoginRequest = LoginRequest(forwardedFor: Option<string>, reqIp: Option<string>,
    body: Option<Credentials>)

  /** Everything outside the handler: the environment, the store (and
      whether reaching it throws), bcrypt's compare, the token verifier's
      partner signer. */
  datatype LoginServices = LoginServices(env: Env, db: Db, dbFault: bool,
    passwordOk: (Option<string>, string) -> bool, sign: Auth.SignRequest -> string)

  /** The `admin_auth` cookie set on success. */
  datatype Cookie = Cookie(name: string, value: string, httpOnly: bool, sameSite: string,
    secure: bool, path: string, maxAge: int)

  /** `nonEmpty(v)`: blank and whitespace-only values count as unset. */
  function NonEmpty(v: Option<string>): (r: Option<string>)
    ensures r.Some? <==> v.Some? && Trim(v.value) != ""
    ensures r.Some? ==> r == v
  {
    if Truthy(v) && Trim(v.value) != "" then v else None
  }

  /** `a ?? b` on two optional strings. */
  function Coalesce(a: Option<string>, b: Option<string>): (r: Option<string>)
    ensures a.Some? ==> r == a
    ensures a.None? ==> r == b
  {
    if a.Some? then a else b
  }

  function ExpectedUser(env: Env): Option<string> {
    Coalesce(NonEmpty(EnvGet(env, "ADMIN_USERNAME")), NonEmpty(EnvGet(env, "DEV_ADMIN_USERNAME")))
  }

  function ExpectedPass(env: Env): Option<string> {
    Coalesce(NonEmpty(EnvGet(env, "ADMIN_PASSWORD")), NonEmpty(EnvGet(env, "DEV_ADMIN_PASSWORD")))
  }

  /** `DEV_RESTAURANT_SLUG ?? DEFAULT_RESTAURANT_SLUG ?? 'singhs'`. */
  function FallbackRestaurant(env: Env): string {
    Coalesce(Coalesce(EnvGet(env, "DEV_RESTAURANT_SLUG"), EnvGet(env, "DEFAULT_RESTAURANT_SLUG")), Some("singhs")).value
  }

  /** The rate-limit key of the client. */
  function LoginKey(req: LoginRequest): string {
    "login:" + ClientIp(req.forwardedFor, req.reqIp)
  }

  /** The outcome of the admin-table lookup: whether it authenticated, and the
      restaurant it set. `.single()` fails unless exactly one row matches. */
  function DbAttempt(sv: LoginServices, c: Credentials): (bool, Option<string>) {
    if sv.dbFault || !Truthy(c.username) then (false, None)
    else
      var found := AdminsNamed(sv.db, c.username.value);
      if |found| != 1 then (false, None)
      else (sv.passwordOk(c.password, found[0].passwordHash), found[0].restaurantSlug)
  }

  /** The environment fallback applies to the expected user only. */
  predicate FallbackApplies(env: Env, c: Credentials) {
    Truthy(c.username) && ExpectedUser(env).Some? && c.username.value == ExpectedUser(env).value
  }

  /** The fallback's verdict: the configured hash when there is one, else the
      plaintext password, and that only outside production. */
  predicate FallbackAccepts(sv: LoginServices, c: Credentials) {
    var hash := NonEmpty(EnvGet(sv.env, "ADMIN_PASSWORD_HASH"));
    if hash.Some? then sv.passwordOk(c.password, hash.value)
    else !IsProduction(sv.env) && ExpectedPass(sv.env).Some? && c.password == ExpectedPass(sv.env)
  }

  /** Whether the credentials authenticate, and the restaurant the session
      carries. */
  function Authenticate(sv: LoginServices, c: Credentials): (bool, Option<string>) {
    var (ok, slug) := DbAttempt(sv, c);
    if !ok && FallbackApplies(sv.env, c) then (FallbackAccepts(sv, c), Some(FallbackRestaurant(sv.env)))
    else (ok, slug)
  }

  /** Both ways in need a username. */
  lemma AuthenticatedHasUsername(sv: LoginServices, c: Credentials)
    ensures Authenticate(sv, c).0 ==> Truthy(c.username)
  {
  }

  function SessionCookie(env: Env, token: string): Cookie {
    Cookie("admin_auth", token, true, "lax", IsProduction(env), "/", SessionSeconds)
  }

  /** The credential check of an unlocked client, from the limiter's map after
      `rateLimitCheck`. */
  function Attempt(m1: map<string, Entry>, cfg: Config, sv: LoginServices, key: string, c: Credentials, t: int)
    : (Reply<Cookie>, map<string, Entry>)
  {
    var (ok, slug) := Authenticate(sv, c);
    if !ok then
      var (m2, failed) := FailSpec(m1, cfg, key, t);
      (Reply(401, Some(InvalidCredentials), None,
             if failed.Locked? then RetryAfterHeader(failed.retryAfterMs) else None), m2)
    else
      AuthenticatedHasUsername(sv, c);
      var token := sv.sign(Auth.SignToken(sv.env, "admin", c.username.value, slug, SessionSeconds));
      (Reply(200, Some("ok"), Some(SessionCookie(sv.env, token)), None), SuccessSpec(m1, key))
  }

  /** The reply and the limiter's new map, as a function of the limiter's map
      before the request. */
  function LoginSpec(m: map<string, Entry>, cfg: Config, sv: LoginServices, req: LoginRequest, t: int)
    : (Reply<Cookie>, map<string, Entry>)
  {
    if req.body.None? then (Fail(400, BadRequest), m)
    else if IsProduction(sv.env) && !Truthy(EnvGet(sv.env, "ADMIN_USERNAME")) then (Fail(500, MissingUsername), m)
    else if IsProduction(sv.env) && !Truthy(EnvGet(sv.env, "ADMIN_PASSWORD_HASH")) then (Fail(500, MissingHash), m)
    else
      var (m1, verdict) := CheckSpec(m, cfg, LoginKey(req), t);
      if verdict.Locked? then (Reply(429, Some(TooManyAttempts), None, RetryAfterHeader(verdict.retryAfterMs)), m1)
      else Attempt(m1, cfg, sv, LoginKey(req), req.body.value, t)
  }

  /** The admin-table lookup, then the environment fallback: `ok` and
      `restaurantSlug` are reassigned step by step. */
  method CheckCredentials(sv: LoginServices, c: Credentials) returns (ok: bool, restaurantSlug: Option<string>)
    ensures (ok, restaurantSlug) == Authenticate(sv, c)
    ensures ok ==> Truthy(c.username)
  {
    var expectedUser := ExpectedUser(sv.env);
    var expectedPass := ExpectedPass(sv.env);
    ok := false;
    restaurantSlug := None;
    if !sv.dbFault && Truthy(c.username) {
      var userRows := AdminsNamed(sv.db, c.username.value);
      if |userRows| == 1 {
        restaurantSlug := userRows[0].restaurantSlug;
        ok := sv.passwordOk(c.password, userRows[0].passwordHash);
      }
    }
    assert (ok, restaurantSlug) == DbAttempt(sv, c);
    if !ok && Truthy(c.username) && expectedUser.Some? && c.username.value == expectedUser.value {
      var hash := NonEmpty(EnvGet(sv.env, "ADMIN_PASSWORD_HASH"));
      if hash.Some? {
        ok := sv.passwordOk(c.password, hash.value);
      } else {
        ok := !IsProduction(sv.env) && expectedPass.Some? && c.password == expectedPass;
      }
      restaurantSlug := Some(FallbackRestaurant(sv.env));
    }
  }

  /** `POST /api/auth/login`. */
  method Login(limiter: RateLimiter, sv: LoginServices, req: LoginRequest, t: int) returns (reply: Reply<Cookie>)
    modifies limiter
    ensures (reply, limiter.attempts) == LoginSpec(old(limiter.attempts), limiter.cfg, sv, req, t)
  {
    if req.body.None? {
      return Fail(400, BadRequest);
    }
    var c := req.body.value;
    if IsProduction(sv.env) {
      if !Truthy(EnvGet(sv.env, "ADMIN_USERNAME")) {
        return Fail(500, MissingUsername);
      }
      if !Truthy(EnvGet(sv.env, "ADMIN_PASSWORD_HASH")) {
        return Fail(500, MissingHash);
      }
    }
    var key := "login:" + ClientIp(req.forwardedFor, req.reqIp);
    var rl := limiter.Check(key, t);
    if rl.Locked? {
      return Reply(429, Some(TooManyAttempts), None, RetryAfterHeader(rl.retryAfterMs));
    }
    ghost var m1 := limiter.attempts;
    var ok, restaurantSlug := CheckCredentials(sv, c);
    if !ok {
      var locked := limiter.Fail(key, t);
      return Reply(401, Some(InvalidCredentials), None,
                   if locked.Locked? then RetryAfterHeader(locked.retryAfterMs) else None);
    }
    limiter.Success(key);
    var token := sv.sign(Auth.SignToken(sv.env, "admin", c.username.value, restaurantSlug, SessionSeconds));
    reply := Reply(200, Some("ok"), Some(SessionCookie(sv.env, token)), None);
    assert (reply, limiter.attempts) == Attempt(m1, limiter.cfg, sv, key, c, t);
  }

  /** Blank and whitespace-only settings count as unset; a setting with no
      white space at either end is kept as it is. */
  lemma {:induction false} NonEmptyIgnoresBlank(v: string)
    ensures (forall i :: 0 <= i < |v| ==> IsJsWhitespace(v[i])) ==> NonEmpty(Some(v)) == None
    ensures v != [] && !IsJsWhitespace(v[0]) && !IsJsWhitespace(v[|v| - 1]) ==> NonEmpty(Some(v)) == Some(v)
  {
    if v != [] && !IsJsWhitespace(v[0]) && !IsJsWhitespace(v[|v| - 1]) {
      TrimUnchanged(v);
    }
  }

  /** A malformed body is a 400 and touches no counter. */
  lemma MalformedBodyRejected(m: map<string, Entry>, cfg: Config, sv: LoginServices, req: LoginRequest, t: int)
    requires req.body.None?
    ensures LoginSpec(m, cfg, sv, req, t) == (Fail(400, BadRequest), m)
  {
  }

  /** In production a missing username or hash setting is a 500, before the
      rate limit and before any credential is looked at. */
  lemma ProductionNeedsSettings(m: map<string, Entry>, cfg: Config, sv: LoginServices, req: LoginRequest, t: int)
    requires req.body.Some? && IsProduction(sv.env)
    ensures !Truthy(EnvGet(sv.env, "ADMIN_USERNAME")) ==> LoginSpec(m, cfg, sv, req, t) == (Fail(500, MissingUsername), m)
    ensures Truthy(EnvGet(sv.env, "ADMIN_USERNAME")) && !Truthy(EnvGet(sv.env, "ADMIN_PASSWORD_HASH"))
      ==> LoginSpec(m, cfg, sv, req, t) == (Fail(500, MissingHash), m)
  {
  }

  /** The settings check passes and the request goes on to the limiter. */
  predicate Admitted(sv: LoginServices, req: LoginRequest) {
    req.body.Some?
    && !(IsProduction(sv.env) && !Truthy(EnvGet(sv.env, "ADMIN_USERNAME")))
    && !(IsProduction(sv.env) && !Truthy(EnvGet(sv.env, "ADMIN_PASSWORD_HASH")))
  }

  /** A locked client gets 429 with `Retry-After` rounded up to seconds, and
      its credentials are not examined: any other password gets the same
      reply. */
  lemma LockedClientNotChecked(m: map<string, Entry>, cfg: Config, sv: LoginServices, req: LoginRequest, t: int,
                               other: Credentials)
    requires Admitted(sv, req)
    requires CheckSpec(m, cfg, LoginKey(req), t).1.Locked?
    ensures LoginSpec(m, cfg, sv, req, t).0.status == 429
    ensures LoginSpec(m, cfg, sv, req, t).0.retryAfter == RetryAfterHeader(CheckSpec(m, cfg, LoginKey(req), t).1.retryAfterMs)
    ensures LoginSpec(m, cfg, sv, req, t) == LoginSpec(m, cfg, sv, req.(body := Some(other)), t)
  {
  }

  /** The environment fallback is tried only for the expected user: anyone
      else who fails the admin table fails. */
  lemma FallbackOnlyForExpectedUser(sv: LoginServices, c: Credentials)
    requires !FallbackApplies(sv.env, c)
    ensures Authenticate(sv, c) == DbAttempt(sv, c)
  {
  }

  /** Through the fallback the session carries `DEV_RESTAURANT_SLUG`, then
      `DEFAULT_RESTAURANT_SLUG`, then "singhs"; a plaintext password is
      accepted only outside production and only with no hash configured. */
  lemma FallbackSession(sv: LoginServices, c: Credentials)
    requires !DbAttempt(sv, c).0 && FallbackApplies(sv.env, c)
    ensures Authenticate(sv, c).1 == Some(FallbackRestaurant(sv.env))
    ensures "DEV_RESTAURANT_SLUG" in sv.env ==> FallbackRestaurant(sv.env) == sv.env["DEV_RESTAURANT_SLUG"]
    ensures "DEV_RESTAURANT_SLUG" !in sv.env && "DEFAULT_RESTAURANT_SLUG" !in sv.env ==> FallbackRestaurant(sv.env) == "singhs"
    ensures Authenticate(sv, c).0 && NonEmpty(EnvGet(sv.env, "ADMIN_PASSWORD_HASH")).None? ==>
      !IsProduction(sv.env) && c.password == ExpectedPass(sv.env)
  {
  }

  /** In production a session is granted only by a password hash: the admin
      row's or the configured one. */
  lemma ProductionSessionNeedsHash(m: map<string, Entry>, cfg: Config, sv: LoginServices, req: LoginRequest, t: int)
    requires Admitted(sv, req) && IsProduction(sv.env)
    requires LoginSpec(m, cfg, sv, req, t).0.status == 200
    ensures DbAttempt(sv, req.body.value).0
      || sv.passwordOk(req.body.value.password, sv.env["ADMIN_PASSWORD_HASH"])
  {
    assert Truthy(EnvGet(sv.env, "ADMIN_PASSWORD_HASH"));
  }

  /** Failed credentials count against the client and give 401; the reply
      carries `Retry-After` only when this failure locked the key. */
  lemma FailureCounted(m: map<string, Entry>, cfg: Config, sv: LoginServices, req: LoginRequest, t: int)
    requires Admitted(sv, req)
    requires !CheckSpec(m, cfg, LoginKey(req), t).1.Locked?
    requires !Authenticate(sv, req.body.value).0
    ensures LoginSpec(m, cfg, sv, req, t).0.status == 401
    ensures LoginSpec(m, cfg, sv, req, t).1
      == FailSpec(CheckSpec(m, cfg, LoginKey(req), t).0, cfg, LoginKey(req), t).0
    ensures LoginSpec(m, cfg, sv, req, t).0.retryAfter.Some? ==>
      FailSpec(CheckSpec(m, cfg, LoginKey(req), t).0, cfg, LoginKey(req), t).1.Locked?
  {
  }

  /** A successful login clears the client's counter and sets an HTTP-only
      `admin_auth` cookie for eight hours holding a token signed for the
      user, with the session's restaurant claimed only when it is set. */
  lemma SuccessSetsSession(m: map<string, Entry>, cfg: Config, sv: LoginServices, req: LoginRequest, t: int)
    requires Admitted(sv, req)
    requires !CheckSpec(m, cfg, LoginKey(req), t).1.Locked?
    requires Authenticate(sv, req.body.value).0
    ensures Truthy(req.body.value.username)
    ensures LoginSpec(m, cfg, sv, req, t).0.status == 200
    ensures LoginKey(req) !in LoginSpec(m, cfg, sv, req, t).1
    ensures LoginSpec(m, cfg, sv, req, t).0.data == Some(Cookie("admin_auth",
      sv.sign(Auth.SignToken(sv.env, "admin", req.body.value.username.value, Authenticate(sv, req.body.value).1, SessionSeconds)),
      true, "lax", IsProduction(sv.env), "/", 28800))
  {
    AuthenticatedHasUsername(sv, req.body.value);
  }
}
