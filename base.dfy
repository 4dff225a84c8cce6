/** Small value types shared by every module of the model. */
module Base {

  /** A value that may be absent (`undefined` / `null` in the source). */
  datatype Option<+T> = None | Some(value: T) {
    function GetOr(default: T): T {
      match this
      case Some(v) => v
      case None => default
    }
  }

  /** A field of a parsed JSON body as a schema sees it: missing, present with
      the expected type, or present with some other type (including `null`). */
  datatype Field<+T> = Absent | Given(value: T) | Mistyped

  /** `process.env`: the variables that are set, with their values. */
  type Env = map<string, string>

  /** `process.env[k]`. */
  function EnvGet(env: Env, k: string): (r: Option<string>)
    ensures r.Some? <==> k in env
    ensures r.Some? ==> r.value == env[k]
  {
    if k in env then Some(env[k]) else None
  }

  /** JavaScript truthiness of an optional string: set and not empty. */
  predicate Truthy(v: Option<string>) {
    v.Some? && v.value != ""
  }

  /** `a || b` on optional strings. */
  function OrElse(a: Option<string>, b: Option<string>): (r: Option<string>)
    ensures Truthy(a) ==> r == a
    ensures !Truthy(a) ==> r == b
  {
    if Truthy(a) then a else b
  }

  /** `process.env.NODE_ENV === 'production'`. */
  predicate IsProduction(env: Env) {
    EnvGet(env, "NODE_ENV") == Some("production")
  }
}
