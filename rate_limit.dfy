/** The in-memory rate limiter: a map from key to failure entry, driven by
    check, fail and success, with the clock passed in as `t` (milliseconds). */
module RateLimit {

  import opened Base
  import opened Strings

  /** `MAX_FAILS`, `WINDOW_MS`, `LOCK_MS`. */
  datatype Config = Config(maxFails: int, windowMs: int, lockMs: int)

  /** 5 attempts, a 10-minute window, a 15-minute lock. */
  const DefaultConfig := Config(5, 10 * 60 * 1000, 15 * 60 * 1000)

  /** The longest prefix of ASCII digits. */
  function LeadingDigits(s: string): (r: string)
    ensures |r| <= |s| && r == s[..|r|] && AllDigits(r)
    ensures |r| < |s| ==> !IsDigit(s[|r|])
  {
    if s == [] || !IsDigit(s[0]) then [] else [s[0]] + LeadingDigits(s[1..])
  }

  /** `parseInt(s, 10)`; `None` is NaN: leading white space, an optional sign,
      then as many digits as there are. */
  function ParseInt10(s: string): (r: Option<int>)
    ensures r.None? <==> LeadingDigits(Unsigned(TrimStart(s))) == []
  {
    var t := TrimStart(s);
    var ds := LeadingDigits(Unsigned(t));
    if ds == [] then None
    else
      var v: int := DigitsValue(ds);
      if |t| > 0 && t[0] == '-' then Some(-v) else Some(v)
  }

  /** The text after an optional leading sign. */
  function Unsigned(t: string): (r: string)
    ensures r == t || (|t| > 0 && (t[0] == '+' || t[0] == '-') && r == t[1..])
  {
    if |t| > 0 && (t[0] == '+' || t[0] == '-') then t[1..] else t
  }

  /** A string of digits is all leading digits. */
  lemma {:induction false} LeadingDigitsOfDigits(s: string)
    requires AllDigits(s)
    ensures LeadingDigits(s) == s
  {
    if s != [] {
      LeadingDigitsOfDigits(s[1..]);
    }
  }

  /** `parseInt` reads back every decimal numeral. */
  lemma ParseIntOfNumeral(n: nat)
    ensures ParseInt10(NatToString(n)) == Some(n)
  {
    var s := NatToString(n);
    LeadingDigitsOfDigits(s);
    NatToStringRoundTrip(n);
    assert !IsJsWhitespace(s[0]);
  }

  /** `parseInt(process.env[name] || fallback, 10)`. */
  function EnvInt(env: Env, name: string, fallback: nat): (r: Option<int>)
    ensures !Truthy(EnvGet(env, name)) ==> r == Some(fallback)
    ensures Truthy(EnvGet(env, name)) ==> r == ParseInt10(env[name])
  {
    ParseIntOfNumeral(fallback);
    ParseInt10(OrElse(EnvGet(env, name), Some(NatToString(fallback))).value)
  }

  /** `getConfig()`; `None` when a setting reads as NaN. */
  function GetConfig(env: Env): (r: Option<Config>)
    ensures r.Some? <==> (EnvInt(env, "RL_MAX_FAILS", 5).Some?
      && EnvInt(env, "RL_WINDOW_MS", 600000).Some? && EnvInt(env, "RL_LOCK_MS", 900000).Some?)
    ensures r.Some? ==> r.value == Config(EnvInt(env, "RL_MAX_FAILS", 5).value,
      EnvInt(env, "RL_WINDOW_MS", 600000).value, EnvInt(env, "RL_LOCK_MS", 900000).value)
  {
    var m := EnvInt(env, "RL_MAX_FAILS", 5);
    var w := EnvInt(env, "RL_WINDOW_MS", 600000);
    var l := EnvInt(env, "RL_LOCK_MS", 900000);
    if m.Some? && w.Some? && l.Some? then Some(Config(m.value, w.value, l.value)) else None
  }

  /** With none of the three variables set (or set empty) the defaults apply. */
  lemma DefaultsWhenUnset(env: Env)
    requires !Truthy(EnvGet(env, "RL_MAX_FAILS")) && !Truthy(EnvGet(env, "RL_WINDOW_MS"))
      && !Truthy(EnvGet(env, "RL_LOCK_MS"))
    ensures GetConfig(env) == Some(DefaultConfig)
  {
    assert EnvInt(env, "RL_MAX_FAILS", 5) == Some(5);
    assert EnvInt(env, "RL_WINDOW_MS", 600000) == Some(600000);
    assert EnvInt(env, "RL_LOCK_MS", 900000) == Some(900000);
  }

  /** A variable holding a numeral sets that value. */
  lemma SettingRead(env: Env, n: nat)
    requires "RL_MAX_FAILS" in env && env["RL_MAX_FAILS"] == NatToString(n)
    ensures EnvInt(env, "RL_MAX_FAILS", 5) == Some(n)
  {
    ParseIntOfNumeral(n);
  }

  /** One key's state: failures in the current window, the window start and
      the lock deadline (`undefined` is `None`). */
  datatype Entry = Entry(fails: int, first: int, lockUntil: Option<int>)

  /** The result of check and fail. */
  datatype Verdict = Unlocked | Locked(retryAfterMs: int)

  /** `entry.lockUntil && t < entry.lockUntil`: a deadline of 0 is falsy. */
  predicate LockActive(e: Entry, t: int) {
    e.lockUntil.Some? && e.lockUntil.value != 0 && t < e.lockUntil.value
  }

  /** `t - entry.first > WINDOW_MS`. */
  predicate WindowExpired(cfg: Config, e: Entry, t: int) {
    t - e.first > cfg.windowMs
  }

  /** The new map and the verdict of `rateLimitCheck(key)` at time `t`. */
  function CheckSpec(m: map<string, Entry>, cfg: Config, key: string, t: int): (map<string, Entry>, Verdict) {
    if key !in m then (m, Unlocked)
    else if LockActive(m[key], t) then (m, Locked(m[key].lockUntil.value - t))
    else if WindowExpired(cfg, m[key], t) then (m - {key}, Unlocked)
    else (m, Unlocked)
  }

  /** The new map and the verdict of `rateLimitFail(key)` at time `t`. */
  function FailSpec(m: map<string, Entry>, cfg: Config, key: string, t: int): (map<string, Entry>, Verdict) {
    if key !in m then (m[key := Entry(1, t, None)], Unlocked)
    else
      var e := if WindowExpired(cfg, m[key], t) then Entry(0, t, None) else m[key];
      if e.fails + 1 >= cfg.maxFails then (m[key := Entry(0, t, Some(t + cfg.lockMs))], Locked(cfg.lockMs))
      else (m[key := e.(fails := e.fails + 1)], Unlocked)
  }

  /** The new map of `rateLimitSuccess(key)`. */
  function SuccessSpec(m: map<string, Entry>, key: string): map<string, Entry> {
    m - {key}
  }

  /** The module-level `attempts` map and the configuration read from the
      environment. */
  class RateLimiter {
    var attempts: map<string, Entry>
    const cfg: Config

    constructor (cfg: Config)
      ensures attempts == map[] && this.cfg == cfg
    {
      this.cfg := cfg;
      attempts := map[];
    }

    /** `rateLimitCheck(key)`. */
    method Check(key: string, t: int) returns (v: Verdict)
      modifies this
      ensures (attempts, v) == CheckSpec(old(attempts), cfg, key, t)
    {
      if key !in attempts {
        return Unlocked;
      }
      var entry := attempts[key];
      if entry.lockUntil.Some? && entry.lockUntil.value != 0 && t < entry.lockUntil.value {
        return Locked(entry.lockUntil.value - t);
      }
      if t - entry.first > cfg.windowMs {
        attempts := attempts - {key};
      }
      return Unlocked;
    }

    /** `rateLimitFail(key)`: the entry is updated field by field. */
    method Fail(key: string, t: int) returns (v: Verdict)
      modifies this
      ensures (attempts, v) == FailSpec(old(attempts), cfg, key, t)
    {
      if key !in attempts {
        attempts := attempts[key := Entry(1, t, None)];
        return Unlocked;
      }
      var entry := attempts[key];
      if t - entry.first > cfg.windowMs {
        entry := entry.(fails := 0);
        entry := entry.(first := t);
        entry := entry.(lockUntil := None);
      }
      entry := entry.(fails := entry.fails + 1);
      if entry.fails >= cfg.maxFails {
        entry := entry.(lockUntil := Some(t + cfg.lockMs));
        entry := entry.(fails := 0);
        entry := entry.(first := t);
        attempts := attempts[key := entry];
        return Locked(cfg.lockMs);
      }
      attempts := attempts[key := entry];
      return Unlocked;
    }

    /** `rateLimitSuccess(key)`. */
    method Success(key: string)
      modifies this
      ensures attempts == SuccessSpec(old(attempts), key)
    {
      attempts := attempts - {key};
    }
  }

  /** A key with no entry is unlocked and nothing is recorded. */
  lemma CheckWithoutEntry(m: map<string, Entry>, cfg: Config, key: string, t: int)
    requires key !in m
    ensures CheckSpec(m, cfg, key, t) == (m, Unlocked)
  {
  }

  /** Check reports a lock exactly while the deadline is ahead, with the
      positive time left, and changes nothing then. */
  lemma CheckWhileLocked(m: map<string, Entry>, cfg: Config, key: string, t: int)
    requires key in m
    ensures CheckSpec(m, cfg, key, t).1.Locked? <==> LockActive(m[key], t)
    ensures LockActive(m[key], t) ==>
      CheckSpec(m, cfg, key, t) == (m, Locked(m[key].lockUntil.value - t))
      && CheckSpec(m, cfg, key, t).1.retryAfterMs > 0
  {
  }

  /** An unlocked entry whose window has passed is deleted by check; one whose
      window has not passed is kept. */
  lemma CheckExpiredDeletes(m: map<string, Entry>, cfg: Config, key: string, t: int)
    requires key in m && !LockActive(m[key], t)
    ensures WindowExpired(cfg, m[key], t) ==> CheckSpec(m, cfg, key, t) == (m - {key}, Unlocked)
    ensures !WindowExpired(cfg, m[key], t) ==> CheckSpec(m, cfg, key, t) == (m, Unlocked)
  {
  }

  /** The first failure records one failure at `t` and never locks, whatever
      the threshold. */
  lemma FirstFailure(m: map<string, Entry>, cfg: Config, key: string, t: int)
    requires key !in m
    ensures FailSpec(m, cfg, key, t).0 == m[key := Entry(1, t, None)]
    ensures FailSpec(m, cfg, key, t).1 == Unlocked
  {
  }

  /** A failure after the window resets the entry before counting: it counts
      as the first failure of a new window started at `t`, with no lock. */
  lemma FailAfterWindowResets(m: map<string, Entry>, cfg: Config, key: string, t: int)
    requires key in m && WindowExpired(cfg, m[key], t) && cfg.maxFails > 1
    ensures FailSpec(m, cfg, key, t) == (m[key := Entry(1, t, None)], Unlocked)
  {
  }

  /** Reaching the threshold locks for `LOCK_MS` from `t` and starts a new window. */
  lemma FailReachingThresholdLocks(m: map<string, Entry>, cfg: Config, key: string, t: int)
    requires key in m && !WindowExpired(cfg, m[key], t) && m[key].fails + 1 >= cfg.maxFails
    ensures FailSpec(m, cfg, key, t) == (m[key := Entry(0, t, Some(t + cfg.lockMs))], Locked(cfg.lockMs))
  {
  }

  /** Below the threshold a failure adds exactly one and keeps the window and
      the deadline. */
  lemma FailBelowThreshold(m: map<string, Entry>, cfg: Config, key: string, t: int)
    requires key in m && !WindowExpired(cfg, m[key], t) && m[key].fails + 1 < cfg.maxFails
    ensures FailSpec(m, cfg, key, t).1 == Unlocked
    ensures FailSpec(m, cfg, key, t).0 == m[key := m[key].(fails := m[key].fails + 1)]
  {
  }

  /** Success removes the entry entirely, so the next check is unlocked. */
  lemma SuccessClears(m: map<string, Entry>, cfg: Config, key: string, t: int)
    ensures key !in SuccessSpec(m, key)
    ensures CheckSpec(SuccessSpec(m, key), cfg, key, t).1 == Unlocked
  {
  }

  /** Each operation touches only its own key. */
  lemma OtherKeysUntouched(m: map<string, Entry>, cfg: Config, key: string, other: string, t: int)
    requires other != key
    ensures other in CheckSpec(m, cfg, key, t).0 <==> other in m
    ensures other in FailSpec(m, cfg, key, t).0 <==> other in m
    ensures other in SuccessSpec(m, key) <==> other in m
    ensures other in m ==> (CheckSpec(m, cfg, key, t).0[other] == m[other]
      && FailSpec(m, cfg, key, t).0[other] == m[other]
      && SuccessSpec(m, key)[other] == m[other])
  {
  }

  /** Failures at the times `ts`, one after the other: the final map and the
      last verdict. */
  function FailRun(m: map<string, Entry>, cfg: Config, key: string, ts: seq<int>): (map<string, Entry>, Verdict) {
    if ts == [] then (m, Unlocked)
    else FailSpec(FailRun(m, cfg, key, ts[..|ts| - 1]).0, cfg, key, ts[|ts| - 1])
  }

  /** Fewer than `MAX_FAILS` failures within one window, all counted in the
      window the first one opened. */
  lemma {:induction false} FailRunCounts(m: map<string, Entry>, cfg: Config, key: string, ts: seq<int>)
    requires key !in m && 1 <= |ts| < cfg.maxFails
    requires forall i :: 0 <= i < |ts| ==> ts[i] - ts[0] <= cfg.windowMs
    ensures key in FailRun(m, cfg, key, ts).0
    ensures FailRun(m, cfg, key, ts).0[key] == Entry(|ts|, ts[0], None)
    ensures FailRun(m, cfg, key, ts).1 == Unlocked
  {
    if |ts| > 1 {
      var init := ts[..|ts| - 1];
      FailRunCounts(m, cfg, key, init);
      assert init[0] == ts[0];
    }
  }

  /** `MAX_FAILS` failures within one window lock the key for `LOCK_MS` from
      the last of them. */
  lemma RepeatedFailuresLock(m: map<string, Entry>, cfg: Config, key: string, ts: seq<int>)
    requires key !in m && cfg.maxFails >= 2 && |ts| == cfg.maxFails
    requires forall i :: 0 <= i < |ts| ==> ts[i] - ts[0] <= cfg.windowMs
    ensures FailRun(m, cfg, key, ts).1 == Locked(cfg.lockMs)
    ensures FailRun(m, cfg, key, ts).0[key] == Entry(0, ts[|ts| - 1], Some(ts[|ts| - 1] + cfg.lockMs))
  {
    var init := ts[..|ts| - 1];
    FailRunCounts(m, cfg, key, init);
    assert init[0] == ts[0];
  }

  /** After a lock at `t`, every check before the deadline is refused with the
      time left. */
  lemma LockHolds(m: map<string, Entry>, cfg: Config, key: string, t: int, t2: int)
    requires t >= 0 && cfg.lockMs > 0 && t <= t2 < t + cfg.lockMs
    requires key in m && m[key] == Entry(0, t, Some(t + cfg.lockMs))
    ensures CheckSpec(m, cfg, key, t2) == (m, Locked(t + cfg.lockMs - t2))
  {
  }

  /** With the defaults, five failures within ten minutes lock the key for
      fifteen minutes. */
  lemma DefaultFiveFailuresLockFifteenMinutes(m: map<string, Entry>, key: string, ts: seq<int>, t2: int)
    requires key !in m && |ts| == 5 && ts[0] >= 0
    requires forall i :: 0 <= i < 5 ==> ts[0] <= ts[i] <= ts[0] + 600000
    requires ts[4] <= t2 < ts[4] + 900000
    ensures FailRun(m, DefaultConfig, key, ts).1 == Locked(900000)
    ensures CheckSpec(FailRun(m, DefaultConfig, key, ts).0, DefaultConfig, key, t2).1 == Locked(ts[4] + 900000 - t2)
  {
    RepeatedFailuresLock(m, DefaultConfig, key, ts);
    LockHolds(FailRun(m, DefaultConfig, key, ts).0, DefaultConfig, key, ts[4], t2);
  }
}
