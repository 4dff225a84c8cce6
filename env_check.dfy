/** `validateEnv`: the list of missing authentication settings, fatal in
    production and a warning elsewhere. */
module EnvCheck {

  import opened Base
  import opened Strings
  import opened Seqs

  /** The settings checked, in the order they are reported. */
  const Required: seq<string> := ["AUTH_SECRET", "ADMIN_USERNAME", "ADMIN_PASSWORD_HASH"]

  /** How a call ends: normally and silently, normally after a console
      warning naming the missing settings, or by throwing an error naming
      them. */
  datatype EnvOutcome = Silent | Warned(names: seq<string>) | Thrown(names: seq<string>)

  /** A setting counts as missing when it is unset or empty. */
  predicate IsMissing(env: Env, name: string) {
    !Truthy(EnvGet(env, name))
  }

  /** The names the checks push, in push order. */
  function Missing(env: Env): (r: seq<string>)
    ensures |r| <= 3
  {
    (if IsMissing(env, "AUTH_SECRET") then ["AUTH_SECRET"] else [])
    + (if IsMissing(env, "ADMIN_USERNAME") then ["ADMIN_USERNAME"] else [])
    + (if IsMissing(env, "ADMIN_PASSWORD_HASH") then ["ADMIN_PASSWORD_HASH"] else [])
  }

  /** The text of the thrown error, or of the warning. */
  function Text(o: EnvOutcome): string {
    match o
    case Silent => ""
    case Warned(names) => DevelopmentWarning(names)
    case Thrown(names) => ProductionMessage(names)
  }

  function ProductionMessage(missing: seq<string>): string {
    "Missing required environment variables for production: " + Join(missing, ", ") + ". "
    + "Set them using your platform's secret manager and restart the server."
  }

  function DevelopmentWarning(missing: seq<string>): string {
    "Warning: missing environment variables (" + Join(missing, ", ") + "). "
    + "For local development you can set DEV_ADMIN_USERNAME / DEV_ADMIN_PASSWORD or "
    + "ADMIN_USERNAME / ADMIN_PASSWORD_HASH in a .env.local file (do NOT commit it)."
  }

  /** The first half of `validateEnv()`: `missing` grows by a push per
      failed check. */
  method CollectMissing(env: Env) returns (missing: seq<string>)
    ensures missing == Missing(env)
    ensures forall n :: n in missing <==> n in Required && IsMissing(env, n)
  {
    missing := [];
    if !Truthy(EnvGet(env, "AUTH_SECRET")) { missing := missing + ["AUTH_SECRET"]; }
    if !Truthy(EnvGet(env, "ADMIN_USERNAME")) { missing := missing + ["ADMIN_USERNAME"]; }
    if !Truthy(EnvGet(env, "ADMIN_PASSWORD_HASH")) { missing := missing + ["ADMIN_PASSWORD_HASH"]; }
  }

  /** `validateEnv()`. */
  method ValidateEnv(env: Env) returns (outcome: EnvOutcome)
    ensures IsProduction(env) && Missing(env) != [] ==> outcome == Thrown(Missing(env))
    ensures IsProduction(env) && Missing(env) == [] ==> outcome == Silent
    ensures !IsProduction(env) ==> !outcome.Thrown?
    ensures !IsProduction(env) && Missing(env) != [] ==> outcome == Warned(Missing(env))
    ensures !IsProduction(env) && Missing(env) == [] ==> outcome == Silent
  {
    var isProd := IsProduction(env);
    var missing := CollectMissing(env);
    if isProd {
      if |missing| > 0 {
        return Thrown(missing);
      }
      outcome := Silent;
    } else {
      if |missing| > 0 {
        return Warned(missing);
      }
      outcome := Silent;
    }
  }

  /** `missing` is exactly the required settings that are unset or empty, in
      the order of `Required`. */
  lemma MissingIsFilter(env: Env)
    ensures Missing(env) == Filter(Required, (n: string) => IsMissing(env, n))
  {
    var p := (n: string) => IsMissing(env, n);
    assert Required == [Required[0]] + [Required[1]] + [Required[2]];
    FilterAppend([Required[0]] + [Required[1]], [Required[2]], p);
    FilterAppend([Required[0]], [Required[1]], p);
    FilterSingleton(Required[0], p);
    FilterSingleton(Required[1], p);
    FilterSingleton(Required[2], p);
  }

  lemma MissingExactly(env: Env, name: string)
    ensures name in Missing(env) <==> name in Required && IsMissing(env, name)
  {
  }

  /** A production process that starts has every required setting non-empty. */
  lemma ProductionStartsConfigured(env: Env)
    requires IsProduction(env)
    ensures Missing(env) == [] <==> forall n :: n in Required ==> Truthy(EnvGet(env, n))
  {
    if Missing(env) == [] {
      forall n | n in Required ensures Truthy(EnvGet(env, n)) {
        MissingExactly(env, n);
      }
    } else {
      var n := Missing(env)[0];
      MissingExactly(env, n);
    }
  }

  /** In production with a setting missing, the thrown message lists the
      missing settings in the order of `Required`, joined by ", ", and names
      each of them. */
  lemma ThrownNamesAll(env: Env)
    requires IsProduction(env) && Missing(env) != []
    ensures Text(Thrown(Missing(env))) == "Missing required environment variables for production: "
      + Join(Filter(Required, (n: string) => IsMissing(env, n)), ", ") + ". "
      + "Set them using your platform's secret manager and restart the server."
    ensures forall k :: 0 <= k < |Missing(env)| ==> Contains(Text(Thrown(Missing(env))), Missing(env)[k])
  {
    MissingIsFilter(env);
    var names := Missing(env);
    forall k | 0 <= k < |names| ensures Contains(Text(Thrown(names)), names[k]) {
      var pre := "Missing required environment variables for production: ";
      var post := ". " + "Set them using your platform's secret manager and restart the server.";
      assert Text(Thrown(names)) == pre + Join(names, ", ") + post;
      JoinContains(names, ", ", k);
      ContainsWithin(pre, Join(names, ", "), post, names[k]);
    }
  }

  /** With only the secret set, the message names the other two in order. */
  lemma ThrownExample(env: Env)
    requires IsProduction(env) && !IsMissing(env, "AUTH_SECRET") && IsMissing(env, "ADMIN_USERNAME")
      && IsMissing(env, "ADMIN_PASSWORD_HASH")
    ensures Missing(env) == ["ADMIN_USERNAME", "ADMIN_PASSWORD_HASH"]
    ensures Join(Missing(env), ", ") == "ADMIN_USERNAME, ADMIN_PASSWORD_HASH"
  {
    assert Missing(env) == ["ADMIN_USERNAME", "ADMIN_PASSWORD_HASH"];
    assert Missing(env)[1..] == ["ADMIN_PASSWORD_HASH"];
  }
}
