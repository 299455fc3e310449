/**
 A Petal's HTTP request: the audited loop that follows redirects itself, against an
 arbitrary server, an arbitrary policy and a journal whose appends may fail.
 */
module Fetch {
  import opened Bytes

  const MAX_REDIRECTS: nat := 5

  datatype Url = Url(scheme: string, host: Option<string>, port: Option<nat>, tail: string)

  /** What one request carries. */
  datatype Hop = Hop(method_: string, url: string, headers: seq<(string, string)>, body: bytes)

  datatype Chunk = Data(data: bytes) | StreamError

  datatype Answer =
    | TransportError
    | Answer(status: nat, location: Option<string>, headers: seq<(string, string)>, contentLength: Option<nat>, chunks: seq<Chunk>)

  /**
   `server` answers the n-th request of the call; `accepts` says whether the journal
   takes the n-th append. URL parsing, joining and method syntax belong to libraries.
   */
  datatype Env = Env(
    server: (nat, Hop) -> Answer, accepts: nat -> bool, policy: (string, string) -> bool, methodOk: string -> bool,
    parse: string -> Option<Url>, join: (string, string) -> Option<string>, maxBody: nat)

  datatype Error =
    | AuditUnavailable | PolicyDenied | InvalidMethod | SendFailed | MissingLocation | TooManyRedirects | BadLocation
    | RedirectDenied | InvalidUrl | BodyReplay | ResponseTooLarge | BodyFailed

  datatype Outcome = Ok(status: nat, headers: seq<(string, string)>, body: bytes) | Err(error: Error)

  datatype Verdict = VerdictOk | VerdictRedirect | VerdictDenied | VerdictDeniedRedirect | VerdictError

  /** Journal appends, with whether they succeeded, in order with the approvals and sends between them. */
  datatype Event =
    | Intent(id: nat, hop: Hop, ok: bool)
    | Approved(method_: string, url: string)
    | Sent(id: nat, hop: Hop)
    | Result(id: nat, verdict: Verdict, ok: bool)

  type Trace = seq<Event>

  predicate IsAppend(e: Event) { e.Intent? || e.Result? }

  function Appends(t: Trace): (n: nat)
  {
    if t == [] then 0 else Appends(t[..|t| - 1]) + if IsAppend(t[|t| - 1]) then 1 else 0
  }

  /** The journal's sequence number: appends that succeeded. */
  function Sequence(t: Trace): (n: nat)
  {
    if t == [] then 0 else
      var e := t[|t| - 1];
      Sequence(t[..|t| - 1]) + if IsAppend(e) && e.ok then 1 else 0
  }

  function Sends(t: Trace): (hops: seq<Hop>)
  {
    if t == [] then [] else
      var e := t[|t| - 1];
      if e.Sent? then Sends(t[..|t| - 1]) + [e.hop] else Sends(t[..|t| - 1])
  }

  // ---- redirects

  function UpperChar(c: char): char { if 'a' <= c <= 'z' then c - 32 as char else c }

  function Upper(s: string): (u: string)
    ensures |u| == |s|
  {
    seq(|s|, i requires 0 <= i < |s| => UpperChar(s[i]))
  }

  predicate IsRedirection(status: nat) { 300 <= status < 400 }

  predicate Bodyless(m: string) { m == "GET" || m == "HEAD" }

  function RedirectMethod(m: string, status: nat): (next: string)
  {
    var upper := Upper(m);
    if 301 <= status <= 303 && !Bodyless(upper) then "GET" else upper
  }

  function KnownPort(u: Url): (port: Option<nat>)
  {
    if u.port.Some? then u.port
    else if u.scheme == "http" || u.scheme == "ws" then Some(80)
    else if u.scheme == "https" || u.scheme == "wss" then Some(443)
    else if u.scheme == "ftp" then Some(21)
    else None
  }

  /** Scheme, host and port: the origin of section 5 of RFC 6454. */
  function Origin(u: Url): (o: (string, Option<string>, Option<nat>))
  {
    (u.scheme, u.host, KnownPort(u))
  }

  function SameOrigin(env: Env, a: string, b: string): (r: Option<bool>)
  {
    if env.parse(a).None? || env.parse(b).None? then None
    else Some(Origin(env.parse(a).value) == Origin(env.parse(b).value))
  }

  datatype Prepared = Refused(why: Error) | Next(hop: Hop)

  /** The next request of a redirect that policy allows, stripped of what must not cross origins. */
  function PrepareRedirect(env: Env, hop: Hop, nextUrl: string, nextMethod: string): (p: Prepared)
  {
    match SameOrigin(env, hop.url, nextUrl)
    case None => Refused(InvalidUrl)
    case Some(same) =>
      if !same && !Bodyless(nextMethod) && hop.body != [] then Refused(BodyReplay)
      else Next(Hop(nextMethod, nextUrl, if same then hop.headers else [], if Bodyless(nextMethod) then [] else hop.body))
  }

  // ---- the response body

  datatype BodyResult = Body(data: bytes) | BodyTooLarge | BodyBroken

  function ReadBody(chunks: seq<Chunk>, data: bytes, max: nat): (r: BodyResult)
    ensures r.Body? && |data| <= max ==> |r.data| <= max
  {
    if chunks == [] then Body(data)
    else if chunks[0].StreamError? then BodyBroken
    else if |data| + |chunks[0].data| > max then BodyTooLarge
    else ReadBody(chunks[1..], data + chunks[0].data, max)
  }

  // ---- one turn of the loop

  datatype Turn = Stop(trace: Trace, outcome: Outcome) | Redirect(trace: Trace, hop: Hop)

  function Fail(env: Env, t: Trace, id: nat, verdict: Verdict, error: Error): (r: Turn)
  {
    var ok := env.accepts(Appends(t));
    Stop(t + [Result(id, verdict, ok)], Err(if ok then error else AuditUnavailable))
  }

  function Redirected(env: Env, hop: Hop, k: nat, t: Trace, id: nat, status: nat, location: Option<string>): (r: Turn)
    ensures r.Redirect? ==> k < MAX_REDIRECTS
  {
    if location.None? then Fail(env, t, id, VerdictError, MissingLocation)
    else if k >= MAX_REDIRECTS then Fail(env, t, id, VerdictError, TooManyRedirects)
    else
      match env.join(hop.url, location.value)
      case None => Fail(env, t, id, VerdictError, BadLocation)
      case Some(nextUrl) =>
        var nextMethod := RedirectMethod(hop.method_, status);
        if !env.policy(nextMethod, nextUrl) then Fail(env, t, id, VerdictDeniedRedirect, RedirectDenied)
        else
          match PrepareRedirect(env, hop, nextUrl, nextMethod)
          case Refused(why) => Fail(env, t, id, VerdictDeniedRedirect, why)
          case Next(next) =>
            var ok := env.accepts(Appends(t));
            var t' := t + [Result(id, VerdictRedirect, ok)];
            if ok then Redirect(t', next) else Stop(t', Err(AuditUnavailable))
  }

  function Received(env: Env, t: Trace, id: nat, a: Answer): (r: Turn)
    requires a.Answer?
    ensures r.Stop?
  {
    if a.contentLength.Some? && a.contentLength.value > env.maxBody then Fail(env, t, id, VerdictError, ResponseTooLarge)
    else
      match ReadBody(a.chunks, [], env.maxBody)
      case BodyBroken => Fail(env, t, id, VerdictError, BodyFailed)
      case BodyTooLarge => Fail(env, t, id, VerdictError, ResponseTooLarge)
      case Body(data) =>
        var ok := env.accepts(Appends(t));
        Stop(t + [Result(id, VerdictOk, ok)], if ok then Ok(a.status, a.headers, data) else Err(AuditUnavailable))
  }

  function Answered(env: Env, hop: Hop, k: nat, t: Trace, id: nat, a: Answer): (r: Turn)
    ensures r.Redirect? ==> k < MAX_REDIRECTS
  {
    if a.TransportError? then Fail(env, t, id, VerdictError, SendFailed)
    else if IsRedirection(a.status) then Redirected(env, hop, k, t, id, a.status, a.location)
    else Received(env, t, id, a)
  }

  /** The trace of a hop that policy and the journal let through, up to its send. */
  function SendTrace(t: Trace, id: nat, hop: Hop): (t': Trace)
  {
    t + [Intent(id, hop, true), Approved(hop.method_, hop.url), Sent(id, hop)]
  }

  function OneHop(env: Env, hop: Hop, k: nat, t: Trace): (r: Turn)
    ensures r.Redirect? ==> k < MAX_REDIRECTS
  {
    var id := Sequence(t) + 1;
    if !env.accepts(Appends(t)) then Stop(t + [Intent(id, hop, false)], Err(AuditUnavailable))
    else
      var t1 := t + [Intent(id, hop, true)];
      if !env.policy(hop.method_, hop.url) then Fail(env, t1, id, VerdictDenied, PolicyDenied)
      else if !env.methodOk(hop.method_) then Fail(env, t1 + [Approved(hop.method_, hop.url)], id, VerdictError, InvalidMethod)
      else Answered(env, hop, k, SendTrace(t, id, hop), id, env.server(|Sends(t)|, hop))
  }

  /** The whole call from redirect count `k` on. The source's `unreachable!` has no counterpart: `OneHop` rules it out. */
  function Follow(env: Env, hop: Hop, k: nat, t: Trace): (r: (Trace, Outcome))
    decreases MAX_REDIRECTS - k
  {
    match OneHop(env, hop, k, t)
    case Stop(t', outcome) => (t', outcome)
    case Redirect(t', next) => Follow(env, next, k + 1, t')
  }

  // ---- the loop itself

  method AuditResult(env: Env, trace: Trace, id: nat, verdict: Verdict) returns (trace': Trace, ok: bool)
    ensures ok == env.accepts(Appends(trace)) && trace' == trace + [Result(id, verdict, ok)]
  {
    ok := env.accepts(Appends(trace));
    trace' := trace + [Result(id, verdict, ok)];
  }

  method AuditedError(env: Env, trace: Trace, id: nat, verdict: Verdict, error: Error) returns (trace': Trace, outcome: Outcome)
    ensures Stop(trace', outcome) == Fail(env, trace, id, verdict, error)
  {
    var ok;
    trace', ok := AuditResult(env, trace, id, verdict);
    outcome := Err(if ok then error else AuditUnavailable);
  }

  method PrepareRedirectRequest(env: Env, currentUrl: string, nextUrl: string, nextMethod: string,
                                headers: seq<(string, string)>, body: bytes)
    returns (refusal: Option<Error>, headers': seq<(string, string)>, body': bytes)
    ensures forall m: string ::
      PrepareRedirect(env, Hop(m, currentUrl, headers, body), nextUrl, nextMethod)
      == if refusal.Some? then Refused(refusal.value) else Next(Hop(nextMethod, nextUrl, headers', body'))
  {
    headers', body' := headers, body;
    var same := SameOrigin(env, currentUrl, nextUrl);
    if same.None? {
      return Some(InvalidUrl), headers', body';
    }
    var bodyless := Bodyless(nextMethod);
    if !same.value {
      headers' := [];
      if !bodyless && body' != [] {
        return Some(BodyReplay), headers', body';
      }
    }
    if bodyless {
      body' := [];
    }
    return None, headers', body';
  }

  method DrainBody(chunks: seq<Chunk>, max: nat) returns (r: BodyResult)
    ensures r == ReadBody(chunks, [], max)
  {
    var body: bytes := [];
    for i := 0 to |chunks|
      invariant ReadBody(chunks, [], max) == ReadBody(chunks[i..], body, max)
    {
      assert chunks[i..][0] == chunks[i] && chunks[i..][1..] == chunks[i + 1..];
      if chunks[i].StreamError? {
        return BodyBroken;
      }
      if |body| + |chunks[i].data| > max {
        return BodyTooLarge;
      }
      body := body + chunks[i].data;
    }
    return Body(body);
  }

  method HttpFetch(env: Env, request: Hop) returns (trace: Trace, outcome: Outcome)
    ensures (trace, outcome) == Follow(env, request, 0, [])
  {
    hide Appends, Sequence, Sends, PrepareRedirect, ReadBody, RedirectMethod;
    trace := [];
    var method_, url, headers, body := request.method_, request.url, request.headers, request.body;
    for redirectCount := 0 to MAX_REDIRECTS + 1
      invariant redirectCount <= MAX_REDIRECTS
             && Follow(env, request, 0, []) == Follow(env, Hop(method_, url, headers, body), redirectCount, trace)
    {
      var before := trace;
      var hop := Hop(method_, url, headers, body);
      var id := Sequence(trace) + 1;
      var ok := env.accepts(Appends(trace));
      trace := trace + [Intent(id, hop, ok)];
      if !ok {
        return trace, Err(AuditUnavailable);
      }
      if !env.policy(method_, url) {
        trace, outcome := AuditedError(env, trace, id, VerdictDenied, PolicyDenied);
        return;
      }
      trace := trace + [Approved(method_, url)];
      if !env.methodOk(method_) {
        trace, outcome := AuditedError(env, trace, id, VerdictError, InvalidMethod);
        return;
      }
      trace := trace + [Sent(id, hop)];
      assert trace == SendTrace(before, id, hop);
      var answer := env.server(|Sends(before)|, hop);
      if answer.TransportError? {
        trace, outcome := AuditedError(env, trace, id, VerdictError, SendFailed);
        return;
      }
      if IsRedirection(answer.status) {
        if answer.location.None? {
          trace, outcome := AuditedError(env, trace, id, VerdictError, MissingLocation);
          return;
        }
        if redirectCount == MAX_REDIRECTS {
          trace, outcome := AuditedError(env, trace, id, VerdictError, TooManyRedirects);
          return;
        }
        var target := env.join(url, answer.location.value);
        if target.None? {
          trace, outcome := AuditedError(env, trace, id, VerdictError, BadLocation);
          return;
        }
        var nextMethod := RedirectMethod(method_, answer.status);
        if !env.policy(nextMethod, target.value) {
          trace, outcome := AuditedError(env, trace, id, VerdictDeniedRedirect, RedirectDenied);
          return;
        }
        var refusal;
        refusal, headers, body := PrepareRedirectRequest(env, url, target.value, nextMethod, headers, body);
        assert PrepareRedirect(env, Hop(method_, url, hop.headers, hop.body), target.value, nextMethod)
            == if refusal.Some? then Refused(refusal.value) else Next(Hop(nextMethod, target.value, headers, body));
        if refusal.Some? {
          trace, outcome := AuditedError(env, trace, id, VerdictDeniedRedirect, refusal.value);
          return;
        }
        trace, ok := AuditResult(env, trace, id, VerdictRedirect);
        if !ok {
          return trace, Err(AuditUnavailable);
        }
        method_ := nextMethod;
        url := target.value;
        continue;
      }
      if answer.contentLength.Some? && answer.contentLength.value > env.maxBody {
        trace, outcome := AuditedError(env, trace, id, VerdictError, ResponseTooLarge);
        return;
      }
      var drained := DrainBody(answer.chunks, env.maxBody);
      match drained {
        case BodyBroken =>
          trace, outcome := AuditedError(env, trace, id, VerdictError, BodyFailed);
        case BodyTooLarge =>
          trace, outcome := AuditedError(env, trace, id, VerdictError, ResponseTooLarge);
        case Body(data) =>
          trace, ok := AuditResult(env, trace, id, VerdictOk);
          outcome := if ok then Ok(answer.status, answer.headers, data) else Err(AuditUnavailable);
      }
      return;
    }
    assert false;
  }
}
