/** What the route handlers share: the JSON reply, the client address used
    as a rate-limit key and the `Retry-After` header value. */
module Api {

  import opened Base
  import opened Strings

  /** A JSON reply: HTTP status, the `message` field when there is one, the
      payload when there is one, and the `Retry-After` header in seconds. */
  datatype Reply<T> = Reply(status: int, message: Option<string>, data: Option<T>, retryAfter: Option<int>)

  /** `NextResponse.json({ message }, { status })`. */
  function Fail<T>(status: int, message: string): (r: Reply<T>)
    ensures r.status == status && r.message == Some(message) && r.data.None? && r.retryAfter.None?
  {
    Reply(status, Some(message), None, None)
  }

  /** `Math.ceil(ms / 1000)`. */
  function RetryAfterSeconds(ms: int): (s: int)
    ensures (s - 1) * 1000 < ms <= s * 1000
  {
    (ms + 999) / 1000
  }

  /** The header is set only when `retryAfterMs` is truthy (not 0). */
  function RetryAfterHeader(ms: int): (h: Option<int>)
    ensures h.Some? <==> ms != 0
    ensures h.Some? ==> (h.value - 1) * 1000 < ms <= h.value * 1000
  {
    if ms != 0 then Some(RetryAfterSeconds(ms)) else None
  }

  /** `x-forwarded-for?.split(',')[0]?.trim() || req.ip || 'unknown'`. */
  function ClientIp(forwardedFor: Option<string>, reqIp: Option<string>): (ip: string)
    ensures forwardedFor.Some? && Trim(BeforeFirst(forwardedFor.value, ',')) != "" ==>
      ip == Trim(BeforeFirst(forwardedFor.value, ','))
    ensures (forwardedFor.None? || Trim(BeforeFirst(forwardedFor.value, ',')) == "") ==>
      ip == if Truthy(reqIp) then reqIp.value else "unknown"
    ensures ip != ""
  {
    var first := if forwardedFor.Some? then Some(Trim(BeforeFirst(forwardedFor.value, ','))) else None;
    OrElse(OrElse(first, reqIp), Some("unknown")).value
  }

  /** The first hop of a forwarded chain names the client, whatever white
      space pads it and whatever hops follow. */
  lemma ClientIpFirstHop(pad: string, hop: string, rest: string, reqIp: Option<string>)
    requires WhitespaceBetween(pad, 0, |pad|)
    requires hop != [] && ',' !in hop && !IsJsWhitespace(hop[0]) && !IsJsWhitespace(hop[|hop| - 1])
    ensures ClientIp(Some(pad + hop + "," + rest), reqIp) == hop
  {
    var h := pad + hop + "," + rest;
    var n := |pad| + |hop|;
    assert h[..n] == pad + hop;
    assert h[n] == ',';
    assert ',' !in pad + hop by {
      forall i | 0 <= i < n
        ensures (pad + hop)[i] != ','
      {
        if i < |pad| {
          assert IsJsWhitespace(pad[i]);
        } else {
          assert (pad + hop)[i] == hop[i - |pad|];
        }
      }
    }
    var r := BeforeFirst(h, ',');
    BeforeFirstStops(h, ',');
    assert r == pad + hop;
    TrimPadded(pad, hop);
  }

  /** An empty header falls back to the request address, and no address at
      all to "unknown". */
  lemma ClientIpFallbacks(reqIp: string)
    requires reqIp != ""
    ensures ClientIp(Some(""), Some(reqIp)) == reqIp
    ensures ClientIp(None, None) == "unknown"
  {
    assert BeforeFirst("", ',') == "";
    TrimUnchanged("");
  }
}
