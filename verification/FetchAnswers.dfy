/**
 What a Petal's HTTP request comes to: the requests it makes, each told by the one before and its
 answer, and the one outcome that the last of them calls for.
 */
module FetchAnswers {
  import opened Bytes
  import opened Fetch
  import opened FetchSafety

  // ---- redirects, in plain terms

  const DEFAULT_PORTS: map<string, nat> := map["http" := 80, "ws" := 80, "https" := 443, "wss" := 443, "ftp" := 21]

  function PortOf(u: Url): (port: Option<nat>) {
    match u.port
    case Some(n) => Some(n)
    case None => if u.scheme in DEFAULT_PORTS then Some(DEFAULT_PORTS[u.scheme]) else None
  }

  /** Scheme, host and port agree, as section 4 of RFC 6454 compares them. */
  predicate OneOrigin(env: Env, a: string, b: string) {
    var u, v := env.parse(a), env.parse(b);
    u.Some? && v.Some? && u.value.scheme == v.value.scheme && u.value.host == v.value.host && PortOf(u.value) == PortOf(v.value)
  }

  /** `b` is `a` with its ASCII letters in upper case. */
  predicate Capitals(a: string, b: string) {
    && |b| == |a|
    && forall i :: 0 <= i < |a| ==>
         if 'a' <= a[i] <= 'z' then b[i] as int - 'A' as int == a[i] as int - 'a' as int else b[i] == a[i]
  }

  /** The method after a redirect, as section 15.4 of RFC 9110 lets it change. */
  predicate MethodAfter(status: nat, m: string, next: string) {
    if status in {301, 302, 303} && !Capitals(m, "GET") && !Capitals(m, "HEAD") then next == "GET" else Capitals(m, next)
  }

  /** A request may be sent: policy allows it and its method is one. */
  predicate Sendable(env: Env, hop: Hop) {
    env.policy(hop.method_, hop.url) && env.methodOk(hop.method_)
  }

  /** The `n`-th request of a call was answered by a redirect to `next`. */
  predicate PointsAt(env: Env, n: nat, hop: Hop, m: string, url: string) {
    var a := env.server(n, hop);
    && a.Answer? && 300 <= a.status <= 399 && a.location.Some?
    && env.join(hop.url, a.location.value) == Some(url) && MethodAfter(a.status, hop.method_, m)
  }

  /** Headers go along within an origin, and a body goes along within an origin to a method that takes one. */
  predicate Leads(env: Env, n: nat, hop: Hop, next: Hop) {
    && n < 5 && Sendable(env, hop) && PointsAt(env, n, hop, next.method_, next.url) && env.policy(next.method_, next.url)
    && env.parse(hop.url).Some? && env.parse(next.url).Some?
    && next.headers == (if OneOrigin(env, hop.url, next.url) then hop.headers else [])
    && next.body == (if next.method_ in {"GET", "HEAD"} then [] else hop.body)
    && (next.body != [] ==> OneOrigin(env, hop.url, next.url))
  }

  // ---- outcomes, in plain terms

  predicate AllRead(chunks: seq<Chunk>) {
    forall i :: 0 <= i < |chunks| ==> chunks[i].Data?
  }

  /** Reading got as far as chunk `i` within the limit. */
  predicate ReadUpTo(chunks: seq<Chunk>, i: nat, max: nat) {
    i <= |chunks| && AllRead(chunks[..i]) && |AllData(chunks[..i])| <= max
  }

  predicate TooLong(chunks: seq<Chunk>, max: nat) {
    exists i :: 0 <= i < |chunks| && ReadUpTo(chunks, i, max) && chunks[i].Data? && |AllData(chunks[..i])| + |chunks[i].data| > max
  }

  predicate Broken(chunks: seq<Chunk>, max: nat) {
    exists i :: 0 <= i < |chunks| && ReadUpTo(chunks, i, max) && chunks[i].StreamError?
  }

  /** The last request was answered by a redirect. */
  predicate Redirecting(env: Env, n: nat, hop: Hop) {
    Sendable(env, hop) && env.server(n, hop).Answer? && 300 <= env.server(n, hop).status <= 399
  }

  predicate Redirectable(env: Env, n: nat, hop: Hop) {
    Redirecting(env, n, hop) && env.server(n, hop).location.Some? && n < 5
  }

  predicate Answering(env: Env, n: nat, hop: Hop) {
    Sendable(env, hop) && env.server(n, hop).Answer? && !(300 <= env.server(n, hop).status <= 399)
  }

  /** The answer says its length, and that is more than allowed. */
  predicate Announced(env: Env, a: Answer)
    requires a.Answer?
  {
    a.contentLength.Some? && a.contentLength.value > env.maxBody
  }

  /** A redirect leads to `url` with method `m`, and policy allows that. */
  predicate Allowed(env: Env, n: nat, hop: Hop, m: string, url: string) {
    PointsAt(env, n, hop, m, url) && env.policy(m, url)
  }

  predicate Unreadable(env: Env, a: string, b: string) {
    env.parse(a).None? || env.parse(b).None?
  }

  /** The `n`-th request calls for outcome `o`; one line an outcome. */
  ghost predicate CallsFor(env: Env, n: nat, hop: Hop, o: Outcome) {
    var a := env.server(n, hop);
    match o
    case Ok(status, headers, body) =>
      && Answering(env, n, hop) && !Announced(env, a) && ReadUpTo(a.chunks, |a.chunks|, env.maxBody)
      && status == a.status && headers == a.headers && a.chunks[..|a.chunks|] == a.chunks && body == AllData(a.chunks)
    case Err(error) =>
      match error
      case AuditUnavailable => false
      case PolicyDenied => !env.policy(hop.method_, hop.url)
      case InvalidMethod => env.policy(hop.method_, hop.url) && !env.methodOk(hop.method_)
      case SendFailed => Sendable(env, hop) && a.TransportError?
      case MissingLocation => Redirecting(env, n, hop) && a.location.None?
      case TooManyRedirects => Redirecting(env, n, hop) && a.location.Some? && n >= 5
      case BadLocation => Redirectable(env, n, hop) && env.join(hop.url, a.location.value).None?
      case RedirectDenied => Redirectable(env, n, hop) && exists m, url :: PointsAt(env, n, hop, m, url) && !env.policy(m, url)
      case InvalidUrl => Redirectable(env, n, hop) && exists m, url :: Allowed(env, n, hop, m, url) && Unreadable(env, hop.url, url)
      case BodyReplay => Redirectable(env, n, hop) && hop.body != [] && exists m, url ::
        Allowed(env, n, hop, m, url) && !Unreadable(env, hop.url, url) && !OneOrigin(env, hop.url, url) && m !in {"GET", "HEAD"}
      case ResponseTooLarge => Answering(env, n, hop) && (Announced(env, a) || TooLong(a.chunks, env.maxBody))
      case BodyFailed => Answering(env, n, hop) && !Announced(env, a) && Broken(a.chunks, env.maxBody)
  }

  // ---- the loop's own functions say the same

  lemma UpperIs(m: string, next: string)
    ensures Capitals(m, next) <==> next == Upper(m)
  {
    if Capitals(m, next) {
      assert forall i :: 0 <= i < |m| ==> next[i] == UpperChar(m[i]);
      assert next == Upper(m);
    }
  }

  lemma RedirectMethodIs(m: string, status: nat, next: string)
    ensures MethodAfter(status, m, next) <==> next == RedirectMethod(m, status)
  {
    hide Upper, Capitals;
    UpperIs(m, next);
    UpperIs(m, "GET");
    UpperIs(m, "HEAD");
  }

  lemma SameOriginIs(env: Env, a: string, b: string)
    ensures SameOrigin(env, a, b) == if Unreadable(env, a, b) then None else Some(OneOrigin(env, a, b))
  {
    if !Unreadable(env, a, b) {
      KnownPortIs(env.parse(a).value);
      KnownPortIs(env.parse(b).value);
    }
  }

  lemma KnownPortIs(u: Url)
    ensures KnownPort(u) == PortOf(u)
  {
  }

  lemma {:induction false} AllDataAppend(chunks: seq<Chunk>, c: Chunk)
    requires AllRead(chunks) && c.Data?
    ensures AllRead(chunks + [c]) && AllData(chunks + [c]) == AllData(chunks) + c.data
  {
    if chunks == [] {
      assert [c][1..] == [];
      assert chunks + [c] == [c];
    } else {
      assert forall i :: 0 <= i < |chunks[1..]| ==> chunks[1..][i] == chunks[i + 1];
      AllDataAppend(chunks[1..], c);
      assert (chunks + [c])[1..] == chunks[1..] + [c];
      assert chunks[0].data + (AllData(chunks[1..]) + c.data) == chunks[0].data + AllData(chunks[1..]) + c.data;
    }
  }

  /** How the drain loop ends, from chunk `i` on. */
  lemma {:induction false} ReadBodyIs(chunks: seq<Chunk>, i: nat, max: nat)
    requires ReadUpTo(chunks, i, max)
    ensures var r := ReadBody(chunks[i..], AllData(chunks[..i]), max);
      && (r.Body? ==> ReadUpTo(chunks, |chunks|, max) && chunks[..|chunks|] == chunks && r.data == AllData(chunks))
      && (r.BodyTooLarge? ==> TooLong(chunks, max))
      && (r.BodyBroken? ==> Broken(chunks, max))
    decreases |chunks| - i
  {
    if i == |chunks| {
      assert chunks[..i] == chunks;
    } else {
      assert chunks[i..][0] == chunks[i] && chunks[i..][1..] == chunks[i + 1..];
      if chunks[i].Data? && |AllData(chunks[..i])| + |chunks[i].data| <= max {
        assert chunks[..i] + [chunks[i]] == chunks[..i + 1];
        AllDataAppend(chunks[..i], chunks[i]);
        ReadBodyIs(chunks, i + 1, max);
      }
    }
  }

  // ---- one turn

  /** How the journal classes an outcome. */
  function VerdictOf(o: Outcome): (v: Verdict) {
    match o
    case Ok(_, _, _) => VerdictOk
    case Err(error) =>
      if error.PolicyDenied? then VerdictDenied
      else if error in {RedirectDenied, InvalidUrl, BodyReplay} then VerdictDeniedRedirect else VerdictError
  }

  /** The last append either took, with the outcome the request calls for, or failed and is the outcome. */
  ghost predicate Settles(env: Env, n: nat, hop: Hop, e: Event, o: Outcome) {
    && IsAppend(e)
    && if e.ok then e.Result? && CallsFor(env, n, hop, o) && e.verdict == VerdictOf(o) else o == Err(AuditUnavailable)
  }

  ghost predicate Ends(env: Env, n: nat, hop: Hop, r: Turn) {
    r.Stop? && r.trace != [] && Settles(env, n, hop, r.trace[|r.trace| - 1], r.outcome)
  }

  lemma RedirectedAnswers(env: Env, hop: Hop, k: nat, t: Trace, id: nat)
    requires Redirecting(env, k, hop)
    ensures var a := env.server(k, hop); var r := Redirected(env, hop, k, t, id, a.status, a.location);
      if r.Redirect? then Leads(env, k, hop, r.hop) else Ends(env, k, hop, r)
  {
    hide Appends, Capitals, RedirectMethod, OneOrigin, SameOrigin;
    var a := env.server(k, hop);
    if a.location.Some? && k < MAX_REDIRECTS && env.join(hop.url, a.location.value).Some? {
      var url, m := env.join(hop.url, a.location.value).value, RedirectMethod(hop.method_, a.status);
      RedirectMethodIs(hop.method_, a.status, m);
      SameOriginIs(env, hop.url, url);
      assert PointsAt(env, k, hop, m, url);
      if env.policy(m, url) {
        assert Allowed(env, k, hop, m, url);
      }
    }
  }

  lemma ReceivedAnswers(env: Env, hop: Hop, k: nat, t: Trace, id: nat)
    requires Answering(env, k, hop)
    ensures Ends(env, k, hop, Received(env, t, id, env.server(k, hop)))
  {
    hide Appends, ReadBody, TooLong, Broken, ReadUpTo;
    var a := env.server(k, hop);
    StartReading(a.chunks, env.maxBody);
    ReadBodyIs(a.chunks, 0, env.maxBody);
    assert a.chunks[0..] == a.chunks && AllData(a.chunks[..0]) == [];
  }

  lemma StartReading(chunks: seq<Chunk>, max: nat)
    ensures ReadUpTo(chunks, 0, max)
  {
  }

  lemma TurnAnswers(env: Env, hop: Hop, k: nat, t: Trace)
    requires |Sends(t)| == k
    ensures var r := OneHop(env, hop, k, t);
      if r.Redirect? then Leads(env, k, hop, r.hop) else Ends(env, k, hop, r)
  {
    hide Appends, Sequence, Sends, Redirected, Received, Leads;
    var id := Sequence(t) + 1;
    if env.accepts(Appends(t)) && Sendable(env, hop) {
      var a := env.server(k, hop);
      if Redirecting(env, k, hop) {
        RedirectedAnswers(env, hop, k, SendTrace(t, id, hop), id);
      } else if a.Answer? {
        ReceivedAnswers(env, hop, k, SendTrace(t, id, hop), id);
      }
    }
  }

  // ---- the whole call

  /** The requests a call set out to make. */
  function Asked(t: Trace): (hops: seq<Hop>) {
    if t == [] then [] else
      var e := t[|t| - 1];
      if e.Intent? then Asked(t[..|t| - 1]) + [e.hop] else Asked(t[..|t| - 1])
  }

  lemma AskedAppend(t: Trace, u: Trace)
    ensures Asked(t + u) == Asked(t) + Asked(u)
    decreases |u|
  {
    if u == [] {
      assert t + u == t;
    } else {
      assert (t + u)[..|t + u| - 1] == t + u[..|u| - 1];
      AskedAppend(t, u[..|u| - 1]);
    }
  }

  lemma {:induction false} AskedShort(u: Trace)
    requires u != [] && u[0].Intent? && forall i :: 1 <= i < |u| ==> !u[i].Intent?
    ensures Asked(u) == [u[0].hop]
    decreases |u|
  {
    if |u| == 1 {
      assert u[..0] == [];
    } else {
      AskedShort(u[..|u| - 1]);
    }
  }

  lemma AskedOfTurn(env: Env, t: Trace, hop: Hop, t': Trace)
    requires Adds(env, t, hop, t')
    ensures Asked(t') == Asked(t) + [hop]
  {
    hide Asked, Sequence;
    AskedAppend(t, t'[|t|..]);
    AskedShort(t'[|t|..]);
  }

  /** The first request is the caller's, and each leads to the next. */
  predicate Follows(env: Env, request: Hop, hops: seq<Hop>) {
    && 1 <= |hops| <= 6 && hops[0] == request
    && forall i :: 0 <= i < |hops| - 1 ==> Leads(env, i, hops[i], hops[i + 1])
  }

  lemma {:induction false} FollowAnswers(env: Env, request: Hop, hop: Hop, k: nat, t: Trace)
    requires k <= MAX_REDIRECTS && |Sends(t)| == k && Sends(t) == Asked(t) && Follows(env, request, Asked(t) + [hop])
    ensures var r := Follow(env, hop, k, t); var hops := Asked(r.0);
      && Follows(env, request, hops) && r.0 != []
      && Settles(env, |hops| - 1, hops[|hops| - 1], r.0[|r.0| - 1], r.1)
      && (Sends(r.0) == hops || Sends(r.0) == hops[..|hops| - 1])
    decreases MAX_REDIRECTS - k
  {
    hide OneHop, Sends, Asked, Adds, Settles, Leads;
    var r := OneHop(env, hop, k, t);
    TurnShape(env, hop, k, t);
    AskedOfTurn(env, t, hop, r.trace);
    SendsOfTurn(env, t, hop, r.trace);
    assert (Asked(t) + [hop])[..|Asked(t)|] == Asked(t);
    TurnAnswers(env, hop, k, t);
    if r.Redirect? {
      RedirectShape(env, hop, k, t);
      SendsOfSend(t, Sequence(t) + 1, hop, Result(Sequence(t) + 1, VerdictRedirect, true));
      LongerFollows(env, request, Asked(t) + [hop], r.hop);
      FollowAnswers(env, request, r.hop, k + 1, r.trace);
    }
  }

  lemma LongerFollows(env: Env, request: Hop, hops: seq<Hop>, next: Hop)
    requires Follows(env, request, hops) && |hops| <= 5 && Leads(env, |hops| - 1, hops[|hops| - 1], next)
    ensures Follows(env, request, hops + [next])
  {
    hide Leads;
  }

  /**
   Whatever the server, the policy and the journal do, a call makes the requests that lead from the
   caller's, and ends with the outcome its last request calls for, journaled under that outcome's
   class, or because an append failed.
   */
  lemma FetchExactly(env: Env, request: Hop)
    ensures var (t, o) := Follow(env, request, 0, []); var hops := Asked(t);
      && Follows(env, request, hops) && t != []
      && Settles(env, |hops| - 1, hops[|hops| - 1], t[|t| - 1], o)
      && (Sends(t) == hops || Sends(t) == hops[..|hops| - 1])
  {
    hide Follow, Leads, Settles;
    assert Sends([]) == [] && Asked([]) == [] && Asked([]) + [request] == [request];
    FollowAnswers(env, request, request, 0, []);
  }

  /** Each request sent after the first is the one the answer before it leads to, in method, target, headers and body. */
  lemma SendsLead(env: Env, request: Hop, i: nat)
    requires i + 1 < |Sends(Follow(env, request, 0, []).0)|
    ensures var hs := Sends(Follow(env, request, 0, []).0); hs[0] == request && Leads(env, i, hs[i], hs[i + 1])
  {
    hide Follow, Leads, Settles, Sends, Asked;
    FetchExactly(env, request);
  }

  /** A request with headers or a body, and every request before it, goes to the origin of the caller's URL. */
  lemma CarriedStaysHome(env: Env, request: Hop, i: nat, j: nat)
    requires var hs := Sends(Follow(env, request, 0, []).0); j <= i < |hs| && (hs[i].headers != [] || hs[i].body != [])
    ensures var url := Sends(Follow(env, request, 0, []).0)[j].url; url == request.url || OneOrigin(env, request.url, url)
  {
    hide Follow, Leads, Settles, Sends, Asked;
    FetchExactly(env, request);
    CallerDataStaysHome(env, request, i, j);
    SameOriginIs(env, request.url, Sends(Follow(env, request, 0, []).0)[j].url);
  }

  lemma OneTarget(env: Env, n: nat, hop: Hop, m: string, url: string, m': string, url': string)
    requires PointsAt(env, n, hop, m, url) && PointsAt(env, n, hop, m', url')
    ensures m == m' && url == url'
  {
    RedirectMethodIs(hop.method_, env.server(n, hop).status, m);
    RedirectMethodIs(hop.method_, env.server(n, hop).status, m');
  }

  /** Whoever read up to `j` read every chunk before, and each fitted. */
  lemma {:induction false} ReadBefore(chunks: seq<Chunk>, i: nat, j: nat, max: nat)
    requires i < j && ReadUpTo(chunks, j, max)
    ensures ReadUpTo(chunks, i, max) && chunks[i].Data? && |AllData(chunks[..i])| + |chunks[i].data| <= max
    decreases j
  {
    var last := chunks[j - 1];
    assert chunks[..j][j - 1] == last;
    assert forall x :: 0 <= x < j - 1 ==> chunks[..j - 1][x] == chunks[..j][x];
    AllDataAppend(chunks[..j - 1], last);
    assert chunks[..j - 1] + [last] == chunks[..j];
    if i < j - 1 {
      ReadBefore(chunks, i, j - 1, max);
    }
  }

  /** A body ends in one way only. */
  lemma OneReading(chunks: seq<Chunk>, max: nat)
    ensures ReadUpTo(chunks, |chunks|, max) ==> !TooLong(chunks, max) && !Broken(chunks, max)
    ensures !(TooLong(chunks, max) && Broken(chunks, max))
  {
    forall i, j | 0 <= i < j <= |chunks| && ReadUpTo(chunks, j, max)
      ensures ReadUpTo(chunks, i, max) && chunks[i].Data? && |AllData(chunks[..i])| + |chunks[i].data| <= max
    {
      ReadBefore(chunks, i, j, max);
    }
  }

  /** A request calls for one outcome at most, and for none if it leads on. */
  lemma OneOutcome(env: Env, n: nat, hop: Hop, o: Outcome, o': Outcome)
    requires CallsFor(env, n, hop, o) && CallsFor(env, n, hop, o')
    ensures o == o'
    ensures forall next :: !Leads(env, n, hop, next)
  {
    hide MethodAfter, TooLong, Broken, ReadUpTo, OneOrigin;
    var a := env.server(n, hop);
    if a.Answer? {
      OneReading(a.chunks, env.maxBody);
    }
    forall m, url, m', url' | PointsAt(env, n, hop, m, url) && PointsAt(env, n, hop, m', url')
      ensures m == m' && url == url'
    {
      OneTarget(env, n, hop, m, url, m', url');
    }
  }

  // ---- what the journal is asked, and what number a request gets

  lemma {:induction false} CountsAre(t: Trace)
    ensures Appends(t) == |Attempts(t)| && Sequence(t) == OkIntents(Attempts(t)) + Results(Attempts(t), true)
  {
    if t != [] {
      var front, e := t[..|t| - 1], t[|t| - 1];
      CountsAre(front);
      var a := Attempts(front);
      assert (a + [e])[..|a + [e]| - 1] == a && a + [] == a;
      assert Attempts(t) == if IsAppend(e) then a + [e] else a;
    }
  }

  /** An append takes exactly if the journal takes an append after as many tries; an intent's number follows the records made. */
  predicate Journaled(env: Env, t: Trace) {
    forall i :: 0 <= i < |t| && IsAppend(t[i]) ==>
      var before := Attempts(t[..i]);
      && t[i].ok == env.accepts(|before|)
      && (t[i].Intent? ==> t[i].id == OkIntents(before) + Results(before, true) + 1)
  }

  lemma AnsweredAppend(env: Env, hop: Hop, k: nat, t: Trace, id: nat, a: Answer)
    ensures var t' := Answered(env, hop, k, t, id, a).trace;
      |t'| == |t| + 1 && IsResult(t'[|t|], id) && t'[|t|].ok == env.accepts(Appends(t))
  {
    hide Appends, ReadBody, PrepareRedirect, RedirectMethod;
  }

  lemma QuietEvents(t: Trace, id: nat, hop: Hop)
    ensures Appends(t + [Intent(id, hop, true)]) == Appends(t) + 1
    ensures Appends(t + [Intent(id, hop, true)] + [Approved(hop.method_, hop.url)]) == Appends(t) + 1
    ensures Appends(SendTrace(t, id, hop)) == Appends(t) + 1
  {
    var t1 := t + [Intent(id, hop, true)];
    var t2 := t1 + [Approved(hop.method_, hop.url)];
    var t3 := t2 + [Sent(id, hop)];
    assert t1[..|t1| - 1] == t && t2[..|t2| - 1] == t1 && t3[..|t3| - 1] == t2;
    assert t3 == SendTrace(t, id, hop);
  }

  lemma TurnJournal(env: Env, hop: Hop, k: nat, t: Trace)
    ensures var t' := OneHop(env, hop, k, t).trace;
      && |t'| > |t| && t'[|t|] == Intent(Sequence(t) + 1, hop, env.accepts(Appends(t)))
      && (|t'| > |t| + 1 ==> IsAppend(t'[|t'| - 1]) && t'[|t'| - 1].ok == env.accepts(Appends(t) + 1))
  {
    hide Appends, Sequence, Sends, Answered;
    var id := Sequence(t) + 1;
    QuietEvents(t, id, hop);
    if env.accepts(Appends(t)) && env.policy(hop.method_, hop.url) && env.methodOk(hop.method_) {
      AnsweredAppend(env, hop, k, SendTrace(t, id, hop), id, env.server(|Sends(t)|, hop));
      SendShape(env, hop, k, SendTrace(t, id, hop), id, env.server(|Sends(t)|, hop));
    }
  }

  lemma JournaledTurn(env: Env, hop: Hop, k: nat, t: Trace)
    requires Journaled(env, t)
    ensures Journaled(env, OneHop(env, hop, k, t).trace)
  {
    var t' := OneHop(env, hop, k, t).trace;
    var id := Sequence(t) + 1;
    TurnShape(env, hop, k, t);
    TurnJournal(env, hop, k, t);
    CountsAre(t);
    hide OneHop, Attempts, OkIntents, Results, Appends, Sequence;
    var u := t'[|t|..];
    forall i | 0 <= i < |t'| && IsAppend(t'[i])
      ensures var before := Attempts(t'[..i]);
        t'[i].ok == env.accepts(|before|) && (t'[i].Intent? ==> t'[i].id == OkIntents(before) + Results(before, true) + 1)
    {
      if i < |t| {
        assert t'[..i] == t[..i] && t'[i] == t[i];
      } else if i == |t| {
        assert t'[..i] == t;
      } else {
        assert t'[i] == u[i - |t|] && i == |t'| - 1;
        AttemptsBefore(env, id, hop, u, |u| - 1);
        assert t'[..i] == t + u[..|u| - 1];
        AttemptsAppend(t, u[..|u| - 1]);
      }
    }
  }

  /** In every call each append is decided by the journal in turn, and each intent carries the number its record then has. */
  lemma {:induction false} JournalExactly(env: Env, hop: Hop, k: nat, t: Trace)
    requires k <= MAX_REDIRECTS && Journaled(env, t)
    ensures Journaled(env, Follow(env, hop, k, t).0)
    decreases MAX_REDIRECTS - k
  {
    hide OneHop, Journaled;
    JournaledTurn(env, hop, k, t);
    var r := OneHop(env, hop, k, t);
    if r.Redirect? {
      JournalExactly(env, r.hop, k + 1, r.trace);
    }
  }
}
