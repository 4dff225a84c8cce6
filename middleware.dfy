/** The request middleware: which paths pass without an auth check, when an
    admin page is sent to the login page, and when the login page sends an
    already signed-in admin on. */
module Middleware {

  import opened Base
  import opened Strings
  import Auth
  import UriComponent

  datatype Outcome =
    | Continue
    | Redirect(pathname: string, search: string)

  /** The paths that continue without an auth check on the first test. */
  predicate PublicPath(pathname: string) {
    StartsWith(pathname, "/api/auth")
    || StartsWith(pathname, "/_next")
    || StartsWith(pathname, "/favicon")
    || StartsWith(pathname, "/assets")
    || StartsWith(pathname, "/public")
    || (StartsWith(pathname, "/api") && !StartsWith(pathname, "/api/admin"))
    || pathname == "/"
    || StartsWith(pathname, "/singhs")
    || StartsWith(pathname, "/login")
  }

  /** `cookie?.value ? await verifyToken(cookie.value) : null`, as a truth
      value. */
  predicate SignedIn(env: Env, verify: Auth.Verifier, cookie: Option<string>) {
    Truthy(cookie) && Auth.Verified(env, verify, cookie.value).Some?
  }

  /** `middleware(req)` on the request's `pathname`, `search`, its `next`
      query parameter and its `admin_auth` cookie. */
  function Route(env: Env, verify: Auth.Verifier, pathname: string, search: string,
                 next: Option<string>, cookie: Option<string>): Outcome
  {
    if !PublicPath(pathname) && StartsWith(pathname, "/admin") && !SignedIn(env, verify, cookie) then
      Redirect("/login", "?next=" + UriComponent.Encode(pathname + search))
    else if StartsWith(pathname, "/login") && SignedIn(env, verify, cookie) then
      Redirect(OrElse(next, Some("/admin")).value, "")
    else Continue
  }

  /** Prefixes that differ at some position cannot both start a string. */
  lemma PrefixesExclude(s: string, p: string, q: string, i: nat)
    requires i < |p| && i < |q| && p[i] != q[i]
    ensures !(StartsWith(s, p) && StartsWith(s, q))
  {
  }

  /** No public prefix is also an `/admin` prefix. */
  lemma AdminIsNotPublic(pathname: string)
    requires StartsWith(pathname, "/admin")
    ensures !PublicPath(pathname)
  {
    PrefixesExclude(pathname, "/admin", "/api", 2);
    PrefixesExclude(pathname, "/admin", "/_next", 1);
    PrefixesExclude(pathname, "/admin", "/favicon", 1);
    PrefixesExclude(pathname, "/admin", "/assets", 2);
    PrefixesExclude(pathname, "/admin", "/public", 1);
    PrefixesExclude(pathname, "/admin", "/singhs", 1);
    PrefixesExclude(pathname, "/admin", "/login", 1);
  }

  /** An admin page without a verifying token goes to the login page, which
      carries the page and its query string, encoded, as `next`; with one it
      continues. */
  lemma AdminNeedsToken(env: Env, verify: Auth.Verifier, pathname: string, search: string,
                        next: Option<string>, cookie: Option<string>)
    requires StartsWith(pathname, "/admin")
    ensures !SignedIn(env, verify, cookie) ==>
      (Route(env, verify, pathname, search, next, cookie) == Redirect("/login", "?next=" + UriComponent.Encode(pathname + search)))
    ensures SignedIn(env, verify, cookie) ==> Route(env, verify, pathname, search, next, cookie) == Continue
  {
    AdminIsNotPublic(pathname);
    PrefixesExclude(pathname, "/admin", "/login", 1);
  }

  /** The `next` value holds no `&`, `=`, `#` or `+`, so the login page reads
      it back as one parameter, and its percent escapes decode to the UTF-8
      bytes of the page and query the admin asked for. */
  lemma NextParameterRoundTrips(pathname: string, search: string)
    ensures forall i :: 0 <= i < |UriComponent.Encode(pathname + search)| ==>
      UriComponent.EncodedChar(UriComponent.Encode(pathname + search)[i])
    ensures UriComponent.Decode(UriComponent.Encode(pathname + search)) == UriComponent.Utf8String(pathname + search)
  {
    UriComponent.EncodeOnlySafeChars(pathname + search);
    UriComponent.DecodeEncode(pathname + search);
  }

  /** `/api/admin` paths are never redirected here: the routes check
      authorisation themselves. */
  lemma ApiAdminFallsThrough(env: Env, verify: Auth.Verifier, pathname: string, search: string,
                             next: Option<string>, cookie: Option<string>)
    requires StartsWith(pathname, "/api/admin")
    ensures Route(env, verify, pathname, search, next, cookie) == Continue
  {
    PrefixesExclude(pathname, "/admin", "/api/admin", 2);
    PrefixesExclude(pathname, "/login", "/api/admin", 1);
  }

  /** The login page sends a signed-in admin to `next`, or to `/admin` when
      there is none, with the query cleared; everyone else sees it. */
  lemma LoginSendsSignedInOn(env: Env, verify: Auth.Verifier, pathname: string, search: string,
                             next: Option<string>, cookie: Option<string>)
    requires StartsWith(pathname, "/login")
    ensures SignedIn(env, verify, cookie) && Truthy(next) ==>
      Route(env, verify, pathname, search, next, cookie) == Redirect(next.value, "")
    ensures SignedIn(env, verify, cookie) && !Truthy(next) ==>
      Route(env, verify, pathname, search, next, cookie) == Redirect("/admin", "")
    ensures !SignedIn(env, verify, cookie) ==> Route(env, verify, pathname, search, next, cookie) == Continue
  {
  }

  /** Public paths other than the login page, and every path outside
      `/admin` and `/login`, continue whatever the cookie. */
  lemma OthersContinue(env: Env, verify: Auth.Verifier, pathname: string, search: string,
                       next: Option<string>, cookie: Option<string>)
    requires !StartsWith(pathname, "/login")
    requires PublicPath(pathname) || !StartsWith(pathname, "/admin")
    ensures Route(env, verify, pathname, search, next, cookie) == Continue
  {
  }

  /** A route redirects only an `/admin` page (to the login page) or the
      login page (to where the admin was going). */
  lemma RedirectsOnlyAdminOrLogin(env: Env, verify: Auth.Verifier, pathname: string, search: string,
                                  next: Option<string>, cookie: Option<string>)
    ensures Route(env, verify, pathname, search, next, cookie).Redirect? ==>
      (StartsWith(pathname, "/admin") && Route(env, verify, pathname, search, next, cookie).pathname == "/login")
      || (StartsWith(pathname, "/login") && Route(env, verify, pathname, search, next, cookie).search == "")
  {
  }
}
