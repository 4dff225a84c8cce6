/** Admin tokens: secrets with rotation, a version claim that invalidates
    old tokens, and verification that tries the current secret first.
    Signing and signature checking are oracles. */
module Auth {

  import opened Base

  /** The secrets read from the environment by `getSecrets`. */
  datatype Secrets = Secrets(current: string, previous: Option<string>, version: string)

  function GetSecrets(env: Env): (s: Secrets)
    ensures s.current == if Truthy(EnvGet(env, "AUTH_SECRET")) then env["AUTH_SECRET"] else "change-me-dev-secret"
    ensures s.previous == if Truthy(EnvGet(env, "AUTH_SECRET_PREV")) then Some(env["AUTH_SECRET_PREV"]) else None
    ensures s.version == if Truthy(EnvGet(env, "AUTH_TOKEN_VERSION")) then env["AUTH_TOKEN_VERSION"] else "1"
    ensures s.current != "" && s.version != ""
  {
    Secrets(
      OrElse(EnvGet(env, "AUTH_SECRET"), Some("change-me-dev-secret")).value,
      OrElse(EnvGet(env, "AUTH_SECRET_PREV"), None),
      OrElse(EnvGet(env, "AUTH_TOKEN_VERSION"), Some("1")).value)
  }

  /** The claims of a verified token; a claim the token lacks (or that is not
      a string) is `None`. */
  datatype Payload = Payload(sub: Option<string>, username: Option<string>, ver: Option<string>, restaurant: Option<string>)

  /** `[current, previous].filter(Boolean)`. */
  function Keys(s: Secrets): (k: seq<string>)
    ensures 1 <= |k| <= 2 && k[0] == s.current
    ensures |k| == 2 <==> Truthy(s.previous)
    ensures |k| == 2 ==> k[1] == s.previous.value
  {
    [s.current] + (if Truthy(s.previous) then [s.previous.value] else [])
  }

  /** `jwtVerify(token, secret)`: the payload when the signature checks out
      and the token has not expired, `None` when it throws. */
  type Verifier = (string, string) -> Option<Payload>

  /** A key accepts a token: the signature verifies and the version matches. */
  predicate AcceptedBy(verify: Verifier, token: string, key: string, version: string) {
    verify(token, key).Some? && verify(token, key).value.ver == Some(version)
  }

  /** The payload of the first key that accepts the token. */
  function FirstAccepted(keys: seq<string>, verify: Verifier, token: string, version: string): (r: Option<Payload>)
    ensures r.Some? ==> exists i :: (0 <= i < |keys| && AcceptedBy(verify, token, keys[i], version)
      && r == verify(token, keys[i]))
    ensures r.None? <==> forall i :: 0 <= i < |keys| ==> !AcceptedBy(verify, token, keys[i], version)
  {
    if keys == [] then None
    else if AcceptedBy(verify, token, keys[0], version) then verify(token, keys[0])
    else
      var r := FirstAccepted(keys[1..], verify, token, version);
      assert forall i :: 1 <= i < |keys| ==> keys[i] == keys[1..][i - 1];
      r
  }

  /** `verifyToken(token)`: the loop over the keys with `continue` on a
      version mismatch and on a thrown verification. */
  method VerifyToken(env: Env, verify: Verifier, token: string) returns (r: Option<Payload>)
    ensures r == FirstAccepted(Keys(GetSecrets(env)), verify, token, GetSecrets(env).version)
  {
    var secrets := GetSecrets(env);
    var keys := Keys(secrets);
    var i := 0;
    while i < |keys|
      invariant 0 <= i <= |keys|
      invariant FirstAccepted(keys, verify, token, secrets.version)
        == FirstAccepted(keys[i..], verify, token, secrets.version)
    {
      var payload := verify(token, keys[i]);
      assert keys[i..][1..] == keys[i + 1..];
      if payload.None? {
        i := i + 1;
        continue;
      }
      if payload.value.ver != Some(secrets.version) {
        i := i + 1;
        continue;
      }
      return payload;
    }
    return None;
  }

  /** The verdict on a token, as a function (the specification of `VerifyToken`). */
  function Verified(env: Env, verify: Verifier, token: string): Option<Payload> {
    FirstAccepted(Keys(GetSecrets(env)), verify, token, GetSecrets(env).version)
  }

  /** The current secret is tried first: when it accepts, its payload wins. */
  lemma CurrentSecretFirst(env: Env, verify: Verifier, token: string)
    requires AcceptedBy(verify, token, GetSecrets(env).current, GetSecrets(env).version)
    ensures Verified(env, verify, token) == verify(token, GetSecrets(env).current)
  {
  }

  /** Without a previous secret only the current one is tried. */
  lemma NoPreviousSecret(env: Env, verify: Verifier, token: string)
    requires !Truthy(EnvGet(env, "AUTH_SECRET_PREV"))
    ensures Verified(env, verify, token).Some? <==>
      AcceptedBy(verify, token, GetSecrets(env).current, GetSecrets(env).version)
  {
  }

  /** A token signed with the previous secret and the current version is still
      accepted after rotation. */
  lemma PreviousSecretAccepted(env: Env, verify: Verifier, token: string)
    requires Truthy(EnvGet(env, "AUTH_SECRET_PREV"))
    requires !AcceptedBy(verify, token, GetSecrets(env).current, GetSecrets(env).version)
    requires AcceptedBy(verify, token, env["AUTH_SECRET_PREV"], GetSecrets(env).version)
    ensures Verified(env, verify, token) == verify(token, env["AUTH_SECRET_PREV"])
  {
    var keys := Keys(GetSecrets(env));
    assert keys[1..] == [env["AUTH_SECRET_PREV"]];
  }

  /** A verified signature with another version is refused, under every key. */
  lemma VersionMismatchRejected(env: Env, verify: Verifier, token: string)
    requires forall k :: verify(token, k).Some? ==> verify(token, k).value.ver != Some(GetSecrets(env).version)
    ensures Verified(env, verify, token).None?
  {
  }

  /** Whatever is accepted carries the configured version. */
  lemma AcceptedCarriesVersion(env: Env, verify: Verifier, token: string)
    requires Verified(env, verify, token).Some?
    ensures Verified(env, verify, token).value.ver == Some(GetSecrets(env).version)
  {
  }

  /** Eight hours, in seconds. */
  const DefaultTtlSeconds: nat := 8 * 60 * 60

  /** What `signToken` hands to the signer: claims, subject, the key and the
      lifetime. */
  datatype SignRequest = SignRequest(username: string, ver: string, restaurant: Option<string>,
    sub: string, secret: string, ttlSeconds: int)

  /** `signToken({ sub, username, restaurant }, ttl)`: `restaurant` is claimed
      only when truthy. */
  function SignToken(env: Env, sub: string, username: string, restaurant: Option<string>, ttlSeconds: int): (q: SignRequest)
    ensures q.username == username && q.sub == sub && q.ttlSeconds == ttlSeconds
    ensures q.ver == GetSecrets(env).version && q.secret == GetSecrets(env).current
    ensures q.restaurant.Some? <==> Truthy(restaurant)
    ensures q.restaurant.Some? ==> q.restaurant == restaurant
  {
    var s := GetSecrets(env);
    SignRequest(username, s.version, if Truthy(restaurant) then restaurant else None, sub, s.current, ttlSeconds)
  }

  /** The payload a signed request carries. */
  function PayloadOf(q: SignRequest): Payload {
    Payload(Some(q.sub), Some(q.username), Some(q.ver), q.restaurant)
  }

  /** A signer and a verifier that agree: a fresh token verifies under its own
      key with the claims it was signed with. */
  predicate Sound(sign: SignRequest -> string, verify: Verifier, q: SignRequest) {
    verify(sign(q), q.secret) == Some(PayloadOf(q))
  }

  /** Round trip: a token signed now verifies, with its claims, under the same
      environment. */
  lemma SignThenVerify(env: Env, sign: SignRequest -> string, verify: Verifier,
                       sub: string, username: string, restaurant: Option<string>)
    requires Sound(sign, verify, SignToken(env, sub, username, restaurant, DefaultTtlSeconds))
    ensures Verified(env, verify, sign(SignToken(env, sub, username, restaurant, DefaultTtlSeconds)))
      == Some(PayloadOf(SignToken(env, sub, username, restaurant, DefaultTtlSeconds)))
  {
  }

  /** Bumping the version invalidates every token signed before. */
  lemma VersionBumpInvalidates(env: Env, env2: Env, sign: SignRequest -> string, verify: Verifier,
                               sub: string, username: string, restaurant: Option<string>)
    requires GetSecrets(env2).version != GetSecrets(env).version
    requires forall k :: verify(sign(SignToken(env, sub, username, restaurant, DefaultTtlSeconds)), k).Some? ==>
      verify(sign(SignToken(env, sub, username, restaurant, DefaultTtlSeconds)), k)
        == Some(PayloadOf(SignToken(env, sub, username, restaurant, DefaultTtlSeconds)))
    ensures Verified(env2, verify, sign(SignToken(env, sub, username, restaurant, DefaultTtlSeconds))).None?
  {
  }
}
