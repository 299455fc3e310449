/** One attempt of the redirect loop, made over the shared journal: it is the HTTP call of the interleaved model. */
module AuditedFetch {
  import opened Bytes
  import opened AuditLog
  import opened Audit
  import opened AuditedCalls
  import F = Fetch
  import FetchSafety

  /** The journal number an attempt reads, and what the journal then answers to its two appends. */
  function Answers(log: Log, operation: string, first: Disk, second: Disk): (r: (bool, bool)) {
    var id := Correlation(operation, Sequence(log) + 1);
    var o := Append(log, Intent(id), first);
    (o.ok, Append(o.log, Result(id), second).ok)
  }

  /** The fetch environment whose journal is this one. */
  function Over(env: F.Env, t: F.Trace, log: Log, operation: string, first: Disk, second: Disk): (e: F.Env) {
    var r := Answers(log, operation, first, second);
    env.(accepts := n => if n <= F.Appends(t) then r.0 else r.1)
  }

  /** The HTTP call alone: it acts if policy and method allow, and otherwise only closes its effect. */
  function HopAlone(env: F.Env, hop: F.Hop, log: Log, operation: string, first: Disk, second: Disk): (s: State) {
    var s := Perform(Perform(Alone(log, Http, operation), Begin(0)), WriteIntent(0, first));
    if env.policy(hop.method_, hop.url) && env.methodOk(hop.method_)
    then Perform(Perform(s, Act(0)), WriteResult(0, second))
    else Perform(s, Deny(0, second))
  }

  function Said(e: F.Event): (events: seq<Event>) {
    match e
    case Intent(_, _, ok) => [IntentTried(0, ok)]
    case Approved(_, _) => []
    case Sent(_, _) => [Acted(0)]
    case Result(_, _, ok) => [ResultTried(0, ok)]
  }

  /** What a trace says in the terms of the interleaved model. */
  function Told(u: F.Trace): (events: seq<Event>) {
    if u == [] then [] else Said(u[0]) + Told(u[1..])
  }

  lemma ToldOne(a: F.Event)
    ensures Told([a]) == Said(a)
  {
    assert [a][1..] == [];
  }

  lemma ToldTwo(a: F.Event, b: F.Event)
    ensures Told([a, b]) == Said(a) + Said(b)
  {
    assert [a, b][1..] == [b];
    ToldOne(b);
  }

  lemma ToldThree(a: F.Event, b: F.Event, c: F.Event)
    ensures Told([a, b, c]) == Said(a) + (Said(b) + Said(c))
  {
    assert [a, b, c][1..] == [b, c];
    ToldTwo(b, c);
  }

  lemma ToldFour(a: F.Event, b: F.Event, c: F.Event, d: F.Event)
    ensures Told([a, b, c, d]) == Said(a) + (Said(b) + (Said(c) + Said(d)))
  {
    assert [a, b, c, d][1..] == [b, c, d];
    ToldThree(b, c, d);
  }

  /** Whatever the server answers, the turn ends with one result whose success is the journal's answer. */
  lemma ResultIsAnswered(env: F.Env, hop: F.Hop, k: nat, t: F.Trace, id: nat, a: F.Answer) returns (verdict: F.Verdict)
    ensures F.Answered(env, hop, k, t, id, a).trace == t + [F.Result(id, verdict, env.accepts(F.Appends(t)))]
  {
    hide F.Appends, F.ReadBody, F.PrepareRedirect, F.RedirectMethod;
    FetchSafety.SendShape(env, hop, k, t, id, a);
    verdict := F.Answered(env, hop, k, t, id, a).trace[|t|].verdict;
  }

  lemma AppendsSnoc(t: F.Trace, e: F.Event)
    ensures F.Appends(t + [e]) == F.Appends(t) + if F.IsAppend(e) then 1 else 0
  {
    assert (t + [e])[..|t|] == t;
  }

  /** What one turn adds, with the journal's answers in it. */
  lemma HopTrace(env: F.Env, hop: F.Hop, k: nat, t: F.Trace) returns (u: F.Trace, verdict: F.Verdict)
    ensures F.OneHop(env, hop, k, t).trace == t + u
    ensures var id := F.Sequence(t) + 1; var ok := env.accepts(F.Appends(t) + 1);
      u == if !env.accepts(F.Appends(t)) then [F.Intent(id, hop, false)]
           else if !env.policy(hop.method_, hop.url) then [F.Intent(id, hop, true), F.Result(id, verdict, ok)]
           else if !env.methodOk(hop.method_) then [F.Intent(id, hop, true), F.Approved(hop.method_, hop.url), F.Result(id, verdict, ok)]
           else [F.Intent(id, hop, true), F.Approved(hop.method_, hop.url), F.Sent(id, hop), F.Result(id, verdict, ok)]
  {
    hide F.Appends, F.Sequence, F.Sends, F.Answered;
    var id := F.Sequence(t) + 1;
    var t1, t2, t3 := t + [F.Intent(id, hop, true)], t + [F.Intent(id, hop, true)] + [F.Approved(hop.method_, hop.url)], F.SendTrace(t, id, hop);
    AppendsSnoc(t, F.Intent(id, hop, true));
    AppendsSnoc(t1, F.Approved(hop.method_, hop.url));
    AppendsSnoc(t2, F.Sent(id, hop));
    assert t3 == t2 + [F.Sent(id, hop)];
    verdict := if env.policy(hop.method_, hop.url) then F.VerdictError else F.VerdictDenied;
    if env.accepts(F.Appends(t)) && env.policy(hop.method_, hop.url) && env.methodOk(hop.method_) {
      verdict := ResultIsAnswered(env, hop, k, t3, id, env.server(|F.Sends(t)|, hop));
    }
    u := F.OneHop(env, hop, k, t).trace[|t|..];
  }

  lemma HopAloneIs(env: F.Env, hop: F.Hop, log: Log, operation: string, first: Disk, second: Disk)
    ensures var r := Answers(log, operation, first, second);
      HopAlone(env, hop, log, operation, first, second).events ==
        if !r.0 then [IntentTried(0, false)]
        else if env.policy(hop.method_, hop.url) && env.methodOk(hop.method_) then [IntentTried(0, true), Acted(0), ResultTried(0, r.1)]
        else [IntentTried(0, true), ResultTried(0, r.1)]
  {
    hide Append;
    var s := Alone(log, Http, operation);
    var id := Correlation(operation, Sequence(log) + 1);
    var ready := s.(calls := [Call(Http, operation, Ready(id))]);
    assert Perform(s, Begin(0)) == ready;
  }

  /**
   One hop of the fetch loop over the shared journal tries its intent, acts and tries its result
   exactly as the HTTP call of the interleaved model does, for every server, policy and disk.
   */
  lemma HopIsOneCall(env: F.Env, hop: F.Hop, k: nat, t: F.Trace, log: Log, operation: string, first: Disk, second: Disk)
    ensures var t' := F.OneHop(Over(env, t, log, operation, first, second), hop, k, t).trace;
      t <= t' && Told(t'[|t|..]) == HopAlone(env, hop, log, operation, first, second).events
  {
    hide Answers, F.OneHop, HopAlone, F.Appends, F.Sequence;
    var e := Over(env, t, log, operation, first, second);
    var u, verdict := HopTrace(e, hop, k, t);
    HopAloneIs(env, hop, log, operation, first, second);
    assert (t + u)[|t|..] == u;
    hide Told;
    if |u| == 1 {
      ToldOne(u[0]);
    } else if |u| == 2 {
      ToldTwo(u[0], u[1]);
    } else if |u| == 3 {
      ToldThree(u[0], u[1], u[2]);
    } else {
      ToldFour(u[0], u[1], u[2], u[3]);
    }
  }
}
