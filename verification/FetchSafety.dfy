/** What holds of every run of the audited redirect loop. */
module FetchSafety {
  import opened Bytes
  import opened Fetch

  // ---- one turn

  predicate Carries(hop: Hop) { hop.headers != [] || hop.body != [] }

  predicate ShareOrigin(env: Env, a: string, b: string) {
    a == b || SameOrigin(env, a, b) == Some(true)
  }

  /** `next` is where the answer to `hop`, the `n`-th request, points, as section 15.4 of RFC 9110 has it. */
  predicate PointsTo(env: Env, n: nat, hop: Hop, next: Hop) {
    var a := env.server(n, hop);
    && a.Answer? && IsRedirection(a.status) && a.location.Some?
    && env.join(hop.url, a.location.value) == Some(next.url)
    && next.method_ == RedirectMethod(hop.method_, a.status)
  }

  /** What a redirect passes on. */
  predicate HandsOver(env: Env, hop: Hop, next: Hop) {
    && (Carries(next) ==> Carries(hop) && SameOrigin(env, hop.url, next.url) == Some(true))
    && (next.headers == hop.headers || next.headers == [])
    && (next.body == hop.body || next.body == [])
  }

  predicate IsResult(e: Event, id: nat) { e.Result? && e.id == id }

  /** What one turn adds to the trace: a failed intent, or an intent, possibly its approval and its send, and its result. */
  predicate Added(env: Env, id: nat, hop: Hop, u: Trace) {
    && 1 <= |u| <= 4
    && u[0] == Intent(id, hop, |u| > 1)
    && (|u| > 1 ==> IsResult(u[|u| - 1], id))
    && (|u| > 2 ==> u[1] == Approved(hop.method_, hop.url) && env.policy(hop.method_, hop.url))
    && (|u| > 3 ==> u[2] == Sent(id, hop))
  }

  predicate Adds(env: Env, t: Trace, hop: Hop, t': Trace) {
    |t| < |t'| && t' == t + t'[|t|..] && Added(env, Sequence(t) + 1, hop, t'[|t|..])
  }

  lemma SendShape(env: Env, hop: Hop, k: nat, t: Trace, id: nat, a: Answer)
    ensures var t' := Answered(env, hop, k, t, id, a).trace;
            |t'| == |t| + 1 && IsResult(t'[|t|], id) && t' == t + [t'[|t|]]
  {
    hide Appends, ReadBody, PrepareRedirect, RedirectMethod;
  }

  lemma TurnShape(env: Env, hop: Hop, k: nat, t: Trace)
    ensures Adds(env, t, hop, OneHop(env, hop, k, t).trace)
  {
    hide Appends, Sequence, Sends, Answered;
    var id := Sequence(t) + 1;
    if env.accepts(Appends(t)) && env.policy(hop.method_, hop.url) && env.methodOk(hop.method_) {
      SendShape(env, hop, k, SendTrace(t, id, hop), id, env.server(|Sends(t)|, hop));
    }
  }

  lemma RedirectShape(env: Env, hop: Hop, k: nat, t: Trace)
    requires OneHop(env, hop, k, t).Redirect?
    ensures var r := OneHop(env, hop, k, t); var id := Sequence(t) + 1;
            && r.trace == SendTrace(t, id, hop) + [Result(id, VerdictRedirect, true)]
            && env.policy(hop.method_, hop.url) && env.policy(r.hop.method_, r.hop.url)
            && PointsTo(env, |Sends(t)|, hop, r.hop) && HandsOver(env, hop, r.hop)
  {
    hide Appends, Sequence, Sends, ReadBody, RedirectMethod;
  }

  // ---- reading traces

  lemma SendsAppend(t: Trace, u: Trace)
    ensures Sends(t + u) == Sends(t) + Sends(u)
    decreases |u|
  {
    if u == [] {
      assert t + u == t;
    } else {
      assert (t + u)[..|t + u| - 1] == t + u[..|u| - 1];
      SendsAppend(t, u[..|u| - 1]);
    }
  }

  lemma SendsOfTurn(env: Env, t: Trace, hop: Hop, t': Trace)
    requires Adds(env, t, hop, t')
    ensures Sends(t') == Sends(t) || Sends(t') == Sends(t) + [hop]
  {
    hide Sends, Sequence;
    SendsAppend(t, t'[|t|..]);
    SendsShort(t'[|t|..]);
  }

  lemma SendsShort(u: Trace)
    requires |u| <= 4
    requires forall i :: 0 <= i < |u| ==> (u[i].Sent? ==> i == 2)
    ensures Sends(u) == if |u| > 2 && u[2].Sent? then [u[2].hop] else []
  {
    assert |u| > 0 ==> Sends(u[..1]) == [] by { assert |u| > 0 ==> u[..1][..0] == []; }
    assert |u| > 1 ==> u[..2][..1] == u[..1];
    assert |u| > 2 ==> u[..3][..2] == u[..2];
    assert |u| > 3 ==> u[..4][..3] == u[..3];
    assert u[..|u|] == u;
  }

  lemma SendsOfSend(t: Trace, id: nat, hop: Hop, e: Event)
    requires IsResult(e, id)
    ensures Sends(SendTrace(t, id, hop) + [e]) == Sends(t) + [hop]
  {
    var u := [Intent(id, hop, true), Approved(hop.method_, hop.url), Sent(id, hop), e];
    assert SendTrace(t, id, hop) + [e] == t + u;
    SendsAppend(t, u);
    SendsShort(u);
  }

  // ---- at most six requests, each just approved

  lemma {:induction false} SendsBounded(env: Env, hop: Hop, k: nat, t: Trace)
    requires k <= MAX_REDIRECTS
    ensures |Sends(Follow(env, hop, k, t).0)| <= |Sends(t)| + MAX_REDIRECTS + 1 - k
    decreases MAX_REDIRECTS - k
  {
    hide Sends, OneHop, Adds;
    var r := OneHop(env, hop, k, t);
    TurnShape(env, hop, k, t);
    SendsOfTurn(env, t, hop, r.trace);
    if r.Redirect? {
      SendsBounded(env, r.hop, k + 1, r.trace);
    }
  }

  lemma AtMostSixRequests(env: Env, request: Hop)
    ensures |Sends(Follow(env, request, 0, []).0)| <= 6
  {
    SendsBounded(env, request, 0, []);
  }

  /** Right before every send stand its own journaled intent and the policy's approval of exactly that request. */
  predicate Covered(env: Env, t: Trace) {
    forall i :: 0 <= i < |t| && t[i].Sent? ==>
      && i >= 2
      && t[i - 2] == Intent(t[i].id, t[i].hop, true)
      && t[i - 1] == Approved(t[i].hop.method_, t[i].hop.url)
      && env.policy(t[i].hop.method_, t[i].hop.url)
  }

  lemma TurnCovers(env: Env, t: Trace, hop: Hop, t': Trace)
    requires Covered(env, t) && Adds(env, t, hop, t')
    ensures Covered(env, t')
  {
    hide Sequence;
    forall i | 0 <= i < |t'| && t'[i].Sent?
      ensures i >= 2 && t'[i - 2] == Intent(t'[i].id, t'[i].hop, true)
           && t'[i - 1] == Approved(t'[i].hop.method_, t'[i].hop.url) && env.policy(t'[i].hop.method_, t'[i].hop.url)
    {
      if i < |t| {
        assert t'[i] == t[i] && t[i].Sent?;
        assert t'[i - 1] == t[i - 1] && t'[i - 2] == t[i - 2];
      } else {
        var u := t'[|t|..];
        assert t'[i] == u[i - |t|] && i == |t| + 2;
        assert t'[i - 1] == u[1] && t'[i - 2] == u[0];
      }
    }
  }

  lemma {:induction false} EverySendIsCovered(env: Env, hop: Hop, k: nat, t: Trace)
    requires k <= MAX_REDIRECTS && Covered(env, t)
    ensures Covered(env, Follow(env, hop, k, t).0)
    decreases MAX_REDIRECTS - k
  {
    hide OneHop, Adds, Covered;
    var r := OneHop(env, hop, k, t);
    TurnShape(env, hop, k, t);
    TurnCovers(env, t, hop, r.trace);
    if r.Redirect? {
      EverySendIsCovered(env, r.hop, k + 1, r.trace);
    }
  }

  // ---- what a caller sent stays within the first origin

  /** All requests so far are within the origin of the first. */
  predicate WithinOrigin(env: Env, hs: seq<Hop>) {
    forall j :: 0 <= j < |hs| ==> ShareOrigin(env, hs[0].url, hs[j].url)
  }

  predicate Confined(env: Env, hs: seq<Hop>) {
    forall i :: 0 <= i < |hs| && Carries(hs[i]) ==> WithinOrigin(env, hs[..i + 1])
  }

  /** Each request after the first is the one the previous answer pointed to. */
  predicate Chained(env: Env, hs: seq<Hop>) {
    forall i :: 0 <= i < |hs| - 1 ==> PointsTo(env, i, hs[i], hs[i + 1])
  }

  /** The request about to be sent after `hs`. */
  predicate Fits(env: Env, hs: seq<Hop>, hop: Hop) {
    && (Carries(hop) ==> WithinOrigin(env, hs + [hop]))
    && (hs != [] ==> PointsTo(env, |hs| - 1, hs[|hs| - 1], hop))
  }

  lemma ExtendHops(env: Env, hs: seq<Hop>, hop: Hop)
    requires Confined(env, hs) && Chained(env, hs) && Fits(env, hs, hop)
    ensures Confined(env, hs + [hop]) && Chained(env, hs + [hop])
  {
    hide WithinOrigin, PointsTo, Carries;
    var longer := hs + [hop];
    forall i | 0 <= i < |longer| && Carries(longer[i]) ensures WithinOrigin(env, longer[..i + 1]) {
      if i < |hs| {
        assert longer[..i + 1] == hs[..i + 1] && longer[i] == hs[i];
      } else {
        assert longer[..i + 1] == longer;
      }
    }
  }

  lemma NextFits(env: Env, hs: seq<Hop>, hop: Hop, next: Hop)
    requires Fits(env, hs, hop) && HandsOver(env, hop, next) && PointsTo(env, |hs|, hop, next)
    ensures Fits(env, hs + [hop], next)
  {
    hide PointsTo, Carries;
    var longer := hs + [hop];
    if Carries(next) {
      forall j | 0 <= j < |longer + [next]| ensures ShareOrigin(env, (longer + [next])[0].url, (longer + [next])[j].url) {
        assert ShareOrigin(env, longer[0].url, longer[|longer| - 1].url);
        if j < |longer| {
          assert ShareOrigin(env, longer[0].url, longer[j].url);
        }
      }
    }
  }

  lemma {:induction false} FollowStaysConfined(env: Env, hop: Hop, k: nat, t: Trace)
    requires k <= MAX_REDIRECTS
    requires Confined(env, Sends(t)) && Chained(env, Sends(t)) && Fits(env, Sends(t), hop)
    ensures var hs := Sends(Follow(env, hop, k, t).0); Confined(env, hs) && Chained(env, hs)
    decreases MAX_REDIRECTS - k
  {
    hide OneHop, Sends, Adds, Confined, Chained, Fits, HandsOver, PointsTo;
    var r := OneHop(env, hop, k, t);
    TurnShape(env, hop, k, t);
    SendsOfTurn(env, t, hop, r.trace);
    ExtendHops(env, Sends(t), hop);
    if r.Redirect? {
      RedirectShape(env, hop, k, t);
      SendsOfSend(t, Sequence(t) + 1, hop, Result(Sequence(t) + 1, VerdictRedirect, true));
      NextFits(env, Sends(t), hop, r.hop);
      FollowStaysConfined(env, r.hop, k + 1, r.trace);
    }
  }

  /** Whatever the server answers, caller headers and a non-empty body never leave the first URL's origin. */
  lemma CallerDataStaysHome(env: Env, request: Hop, i: nat, j: nat)
    requires var hs := Sends(Follow(env, request, 0, []).0); j <= i < |hs| && Carries(hs[i])
    ensures var hs := Sends(Follow(env, request, 0, []).0); ShareOrigin(env, hs[0].url, hs[j].url)
  {
    var hs := Sends(Follow(env, request, 0, []).0);
    assert Sends([]) == [];
    FollowStaysConfined(env, request, 0, []);
    assert WithinOrigin(env, hs[..i + 1]);
    assert hs[..i + 1][j] == hs[j] && hs[..i + 1][0] == hs[0];
  }

  /** Every request after the first is exactly the redirect the server asked for. */
  lemma RedirectsAsAnswered(env: Env, request: Hop, i: nat)
    requires i + 1 < |Sends(Follow(env, request, 0, []).0)|
    ensures var hs := Sends(Follow(env, request, 0, []).0); PointsTo(env, i, hs[i], hs[i + 1])
  {
    assert Sends([]) == [];
    FollowStaysConfined(env, request, 0, []);
  }

  // ---- intents and results pair up

  /** The append attempts alone. */
  function Attempts(t: Trace): (a: Trace)
  {
    if t == [] then [] else Attempts(t[..|t| - 1]) + if IsAppend(t[|t| - 1]) then [t[|t| - 1]] else []
  }

  /** A failed intent stands alone; every other intent is followed at once by one result attempt of its own. */
  predicate Paired(a: Trace) {
    if a == [] then true else
    match a[|a| - 1]
    case Intent(_, _, ok) => !ok && Paired(a[..|a| - 1])
    case Result(id, _, _) => |a| >= 2 && a[|a| - 2].Intent? && a[|a| - 2].id == id && a[|a| - 2].ok && Paired(a[..|a| - 2])
    case _ => false
  }

  lemma AttemptsAppend(t: Trace, u: Trace)
    ensures Attempts(t + u) == Attempts(t) + Attempts(u)
    decreases |u|
  {
    if u == [] {
      assert t + u == t;
    } else {
      assert (t + u)[..|t + u| - 1] == t + u[..|u| - 1];
      AttemptsAppend(t, u[..|u| - 1]);
    }
  }

  lemma AttemptsBefore(env: Env, id: nat, hop: Hop, u: Trace, k: nat)
    requires Added(env, id, hop, u) && (k == 1 || 1 < k < |u|)
    ensures Attempts(u[..k]) == [u[0]]
  {
    assert u[..k][..k - 1] == u[..k - 1];
    if k == 1 {
      assert Attempts(u[..0]) == [];
    } else {
      AttemptsBefore(env, id, hop, u, k - 1);
      assert u[k - 1].Approved? || u[k - 1].Sent?;
    }
  }

  lemma AttemptsShort(env: Env, id: nat, hop: Hop, u: Trace)
    requires Added(env, id, hop, u)
    ensures |u| >= 1 && (|u| > 1 ==> IsResult(u[|u| - 1], id))
    ensures Attempts(u) == if |u| == 1 then [Intent(id, hop, false)] else [Intent(id, hop, true), u[|u| - 1]]
  {
    if |u| == 1 {
      assert Attempts(u[..0]) == [];
    } else {
      AttemptsBefore(env, id, hop, u, |u| - 1);
    }
  }

  lemma PairedSnoc(a: Trace, id: nat, hop: Hop, e: Event)
    requires Paired(a)
    ensures Paired(a + [Intent(id, hop, false)])
    ensures IsResult(e, id) ==> Paired(a + [Intent(id, hop, true), e])
  {
    var one := a + [Intent(id, hop, false)];
    assert one[..|one| - 1] == a;
    var two := a + [Intent(id, hop, true), e];
    assert two[..|two| - 2] == a;
  }

  lemma TurnPairs(env: Env, t: Trace, hop: Hop, t': Trace)
    requires Adds(env, t, hop, t') && Paired(Attempts(t))
    ensures Paired(Attempts(t'))
  {
    hide Attempts, Paired, Sequence, Added, IsResult;
    var id, u := Sequence(t) + 1, t'[|t|..];
    AttemptsAppend(t, u);
    AttemptsShort(env, id, hop, u);
    PairedSnoc(Attempts(t), id, hop, u[|u| - 1]);
  }

  lemma {:induction false} FollowPairs(env: Env, hop: Hop, k: nat, t: Trace)
    requires k <= MAX_REDIRECTS && Paired(Attempts(t))
    ensures Paired(Attempts(Follow(env, hop, k, t).0))
    decreases MAX_REDIRECTS - k
  {
    hide OneHop, Adds, Attempts, Paired;
    var r := OneHop(env, hop, k, t);
    TurnShape(env, hop, k, t);
    TurnPairs(env, t, hop, r.trace);
    if r.Redirect? {
      FollowPairs(env, r.hop, k + 1, r.trace);
    }
  }

  function OkIntents(a: Trace): (n: nat)
  {
    if a == [] then 0 else
      var e := a[|a| - 1];
      OkIntents(a[..|a| - 1]) + if e.Intent? && e.ok then 1 else 0
  }

  /** Result attempts that succeeded, and those that did not. */
  function Results(a: Trace, ok: bool): (n: nat)
  {
    if a == [] then 0 else
      var e := a[|a| - 1];
      Results(a[..|a| - 1], ok) + if e.Result? && e.ok == ok then 1 else 0
  }

  /** In the journal, intents outnumber results by exactly the result appends that failed. */
  lemma {:induction false} UnmatchedMeansFailed(a: Trace)
    requires Paired(a)
    ensures OkIntents(a) == Results(a, true) + Results(a, false)
    decreases |a|
  {
    if a != [] {
      var front := a[..|a| - 1];
      if a[|a| - 1].Intent? {
        UnmatchedMeansFailed(front);
      } else {
        assert front[..|front| - 1] == a[..|a| - 2];
        UnmatchedMeansFailed(a[..|a| - 2]);
      }
    }
  }

  /** The write-ahead discipline of a whole call. */
  lemma FetchIsDisciplined(env: Env, request: Hop)
    ensures var t := Follow(env, request, 0, []).0;
            && Covered(env, t)
            && Paired(Attempts(t))
            && OkIntents(Attempts(t)) == Results(Attempts(t), true) + Results(Attempts(t), false)
  {
    assert Attempts([]) == [] && Paired([]);
    EverySendIsCovered(env, request, 0, []);
    FollowPairs(env, request, 0, []);
    UnmatchedMeansFailed(Attempts(Follow(env, request, 0, []).0));
  }

  // ---- the response

  function AllData(chunks: seq<Chunk>): (data: bytes)
    requires forall i :: 0 <= i < |chunks| ==> chunks[i].Data?
  {
    if chunks == [] then [] else chunks[0].data + AllData(chunks[1..])
  }

  lemma {:induction false} BodyIsComplete(chunks: seq<Chunk>, data: bytes, max: nat)
    requires ReadBody(chunks, data, max).Body?
    ensures forall i :: 0 <= i < |chunks| ==> chunks[i].Data?
    ensures ReadBody(chunks, data, max).data == data + AllData(chunks)
    decreases |chunks|
  {
    if chunks != [] {
      BodyIsComplete(chunks[1..], data + chunks[0].data, max);
      forall i | 0 <= i < |chunks| ensures chunks[i].Data? {
        assert i > 0 ==> chunks[i] == chunks[1..][i - 1];
      }
      assert (data + chunks[0].data) + AllData(chunks[1..]) == data + AllData(chunks);
    }
  }

  /** A delivered response is the last request's answer, complete, within the limit and not a redirect. */
  predicate Delivers(env: Env, hs: seq<Hop>, o: Outcome)
    requires o.Ok?
  {
    && hs != []
    && var a := env.server(|hs| - 1, hs[|hs| - 1]);
       && a.Answer? && a.status == o.status && a.headers == o.headers && !IsRedirection(a.status)
       && ReadBody(a.chunks, [], env.maxBody) == Body(o.body) && |o.body| <= env.maxBody
  }

  lemma StopDelivers(env: Env, hop: Hop, k: nat, t: Trace)
    requires var r := OneHop(env, hop, k, t); r.Stop? && r.outcome.Ok?
    ensures var r := OneHop(env, hop, k, t); var id := Sequence(t) + 1; var u := SendTrace(t, id, hop);
            && |r.trace| == |u| + 1 && IsResult(r.trace[|u|], id) && r.trace == u + [r.trace[|u|]]
            && Delivers(env, Sends(t) + [hop], r.outcome)
  {
    hide Appends, Sequence, Sends, PrepareRedirect, RedirectMethod;
    SendShape(env, hop, k, SendTrace(t, Sequence(t) + 1, hop), Sequence(t) + 1, env.server(|Sends(t)|, hop));
  }

  lemma {:induction false} OkIsTheLastAnswer(env: Env, hop: Hop, k: nat, t: Trace)
    requires k <= MAX_REDIRECTS
    ensures var r := Follow(env, hop, k, t); r.1.Ok? ==> Delivers(env, Sends(r.0), r.1)
    decreases MAX_REDIRECTS - k
  {
    hide OneHop, Sends, Delivers;
    var r := OneHop(env, hop, k, t);
    if r.Redirect? {
      OkIsTheLastAnswer(env, r.hop, k + 1, r.trace);
    } else if r.outcome.Ok? {
      StopDelivers(env, hop, k, t);
      var id := Sequence(t) + 1;
      SendsOfSend(t, id, hop, r.trace[|SendTrace(t, id, hop)|]);
    }
  }
}
