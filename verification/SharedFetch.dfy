/**
 A whole fetch over the shared journal: the redirect loop drives one HTTP call after another,
 while any other calls, restarts and operators step in between.
 */
module SharedFetch {
  import opened Bytes
  import opened AuditLog
  import opened Audit
  import F = Fetch
  import FetchSafety
  import AuditedFetch

  /** Where the loop stands in hop `k`: before its call, with a number read, with an accepted intent, or after its send. */
  datatype Phase = Starting | Numbered | Decided | Sent | Finished(outcome: F.Outcome)

  /** `trace` is what the loop did up to this hop, or in all once finished; `answers` is what the journal answered so far. */
  datatype Loop = Loop(hop: F.Hop, k: nat, trace: F.Trace, answers: seq<bool>, phase: Phase)

  /** A journal that answers as recorded. */
  function Recorded(env: F.Env, answers: seq<bool>): (e: F.Env) {
    env.(accepts := n => 0 <= n < |answers| && answers[n])
  }

  predicate Allowed(env: F.Env, hop: F.Hop) {
    env.policy(hop.method_, hop.url) && env.methodOk(hop.method_)
  }

  /** The journal's answer to an append of call `i`, read off the state after it. */
  predicate Accepted(t: State, i: nat)
    requires i < |t.calls|
  {
    t.calls[i].stage.Armed? || (t.calls[i].stage.Closed? && t.calls[i].stage.recorded)
  }

  /** The action the loop takes next for its call `i`. */
  predicate IsNext(env: F.Env, l: Loop, i: nat, a: Action) {
    match l.phase
    case Starting => a == Begin(i)
    case Numbered => a.WriteIntent? && a.call == i
    case Decided => if Allowed(env, l.hop) then a == Act(i) else a.Deny? && a.call == i
    case Sent => a.WriteResult? && a.call == i
    case Finished(_) => false
  }

  /** The turn of the loop once both answers are known. */
  function Turned(env: F.Env, l: Loop): (r: Loop) {
    match F.OneHop(Recorded(env, l.answers), l.hop, l.k, l.trace)
    case Stop(trace, outcome) => l.(trace := trace, phase := Finished(outcome))
    case Redirect(trace, next) => Loop(next, l.k + 1, trace, l.answers, Starting)
  }

  /** What the loop makes of its own step, which left the journal in `t`. */
  function Advance(env: F.Env, l: Loop, i: nat, t: State): (r: Loop)
    requires i < |t.calls|
  {
    match l.phase
    case Starting => l.(phase := Numbered)
    case Numbered =>
      var heard := l.(answers := l.answers + [Accepted(t, i)]);
      if Accepted(t, i) then heard.(phase := Decided) else Turned(env, heard)
    case Decided => if Allowed(env, l.hop) then l.(phase := Sent) else Turned(env, l.(answers := l.answers + [Accepted(t, i)]))
    case Sent => Turned(env, l.(answers := l.answers + [Accepted(t, i)]))
    case Finished(_) => l
  }

  /** Nobody else drives the loop's calls, though its future may be dropped and the daemon may die. */
  predicate Foreign(mine: seq<nat>, a: Action) {
    match a
    case Begin(i) => i !in mine
    case Skip(i) => i !in mine
    case WriteIntent(i, _) => i !in mine
    case Act(i) => i !in mine
    case Deny(i, _) => i !in mine
    case WriteResult(i, _) => i !in mine
    case Cancel(i, _) => i !in mine
    case _ => true
  }

  predicate LoopStep(env: F.Env, mine: seq<nat>, l: Loop, r: Loop, a: Action, t: State) {
    || (Foreign(mine, a) && r == l)
    || (l.k < |mine| && mine[l.k] < |t.calls| && IsNext(env, l, mine[l.k], a) && r == Advance(env, l, mine[l.k], t))
  }

  /** A run of the journal in which the loop drives the calls `mine`, one per hop. */
  ghost predicate Joint(env: F.Env, request: F.Hop, mine: seq<nat>, states: seq<State>, actions: seq<Action>, loops: seq<Loop>) {
    && Run(states, actions) && |loops| == |states| == |actions| + 1
    && loops[0] == Loop(request, 0, [], [], Starting)
    && forall j :: 0 <= j < |actions| ==> LoopStep(env, mine, loops[j], loops[j + 1], actions[j], states[j + 1])
  }

  // ---- the loop does what the redirect loop does with the journal's answers

  /** Each hop before this one heard two answers. */
  predicate InStep(env: F.Env, l: Loop) {
    match l.phase
    case Starting => F.Appends(l.trace) == 2 * l.k == |l.answers|
    case Numbered => F.Appends(l.trace) == 2 * l.k == |l.answers|
    case Decided => F.Appends(l.trace) == 2 * l.k == |l.answers| - 1 && l.answers[2 * l.k]
    case Sent => F.Appends(l.trace) == 2 * l.k == |l.answers| - 1 && l.answers[2 * l.k] && Allowed(env, l.hop)
    case Finished(_) => true
  }

  /** One hop asks the journal twice at most, at two known places. */
  lemma AnsweredLocal(env: F.Env, e: F.Env, hop: F.Hop, k: nat, t: F.Trace, id: nat, a: F.Answer)
    requires e == env.(accepts := e.accepts) && e.accepts(F.Appends(t)) == env.accepts(F.Appends(t))
    ensures F.Answered(e, hop, k, t, id, a) == F.Answered(env, hop, k, t, id, a)
  {
    hide F.Appends, F.ReadBody, F.RedirectMethod;
  }

  lemma OneHopLocal(env: F.Env, e: F.Env, hop: F.Hop, k: nat, t: F.Trace)
    requires e == env.(accepts := e.accepts)
    requires e.accepts(F.Appends(t)) == env.accepts(F.Appends(t))
    requires env.accepts(F.Appends(t)) ==> e.accepts(F.Appends(t) + 1) == env.accepts(F.Appends(t) + 1)
    ensures F.OneHop(e, hop, k, t) == F.OneHop(env, hop, k, t)
  {
    hide F.Appends, F.Sequence, F.Sends, F.Answered;
    var id := F.Sequence(t) + 1;
    var t1 := t + [F.Intent(id, hop, true)];
    AuditedFetch.AppendsSnoc(t, F.Intent(id, hop, true));
    AuditedFetch.AppendsSnoc(t1, F.Approved(hop.method_, hop.url));
    AuditedFetch.AppendsSnoc(t1 + [F.Approved(hop.method_, hop.url)], F.Sent(id, hop));
    assert F.SendTrace(t, id, hop) == t1 + [F.Approved(hop.method_, hop.url)] + [F.Sent(id, hop)];
    if env.accepts(F.Appends(t)) {
      AnsweredLocal(env, e, hop, k, F.SendTrace(t, id, hop), id, env.server(|F.Sends(t)|, hop));
    }
  }

  /** A redirect heard both its answers. */
  lemma RedirectAppends(env: F.Env, hop: F.Hop, k: nat, t: F.Trace)
    requires F.OneHop(env, hop, k, t).Redirect?
    ensures F.Appends(F.OneHop(env, hop, k, t).trace) == F.Appends(t) + 2
  {
    hide F.Appends, F.Sequence, F.OneHop;
    FetchSafety.RedirectShape(env, hop, k, t);
    var id := F.Sequence(t) + 1;
    var t1 := t + [F.Intent(id, hop, true)];
    var t2 := t1 + [F.Approved(hop.method_, hop.url)];
    AuditedFetch.AppendsSnoc(t, F.Intent(id, hop, true));
    AuditedFetch.AppendsSnoc(t1, F.Approved(hop.method_, hop.url));
    AuditedFetch.AppendsSnoc(t2, F.Sent(id, hop));
    assert F.SendTrace(t, id, hop) == t2 + [F.Sent(id, hop)];
    AuditedFetch.AppendsSnoc(F.SendTrace(t, id, hop), F.Result(id, F.VerdictRedirect, true));
  }

  lemma TurnedInStep(env: F.Env, l: Loop)
    requires F.Appends(l.trace) == 2 * l.k && |l.answers| == 2 * l.k + 2
    ensures InStep(env, Turned(env, l))
  {
    hide F.Appends, F.OneHop;
    if F.OneHop(Recorded(env, l.answers), l.hop, l.k, l.trace).Redirect? {
      RedirectAppends(Recorded(env, l.answers), l.hop, l.k, l.trace);
    }
  }

  lemma RefusedIntentStops(env: F.Env, l: Loop)
    requires F.Appends(l.trace) == 2 * l.k && |l.answers| == 2 * l.k + 1 && !l.answers[2 * l.k]
    ensures Turned(env, l).phase.Finished?
  {
    hide F.Appends, F.Answered;
  }

  lemma AdvanceInStep(env: F.Env, l: Loop, i: nat, t: State)
    requires i < |t.calls| && InStep(env, l)
    ensures InStep(env, Advance(env, l, i, t))
  {
    hide F.Appends, Turned, Accepted;
    var heard := l.(answers := l.answers + [Accepted(t, i)]);
    if l.phase.Numbered? && !Accepted(t, i) {
      RefusedIntentStops(env, heard);
    } else if l.phase.Sent? || l.phase.Decided? {
      TurnedInStep(env, heard);
    }
  }

  lemma {:induction false} StaysInStep(env: F.Env, request: F.Hop, mine: seq<nat>, states: seq<State>, actions: seq<Action>, loops: seq<Loop>, j: nat)
    requires Joint(env, request, mine, states, actions, loops) && j < |loops|
    ensures InStep(env, loops[j])
  {
    hide Run, InStep, Advance, IsNext, Foreign;
    if j == 0 {
      StartInStep(env, request);
    } else {
      StaysInStep(env, request, mine, states, actions, loops, j - 1);
      assert LoopStep(env, mine, loops[j - 1], loops[j - 1 + 1], actions[j - 1], states[j - 1 + 1]);
      if loops[j] != loops[j - 1] {
        AdvanceInStep(env, loops[j - 1], mine[loops[j - 1].k], states[j]);
      }
    }
  }

  lemma StartInStep(env: F.Env, request: F.Hop)
    ensures InStep(env, Loop(request, 0, [], [], Starting))
  {
  }

  /** Answers are only added. */
  lemma {:induction false} AnswersGrow(env: F.Env, request: F.Hop, mine: seq<nat>, states: seq<State>, actions: seq<Action>, loops: seq<Loop>, j: nat, m: nat)
    requires Joint(env, request, mine, states, actions, loops) && j <= m < |loops|
    ensures loops[j].answers <= loops[m].answers
  {
    hide Run, IsNext, Foreign, F.OneHop;
    if j < m {
      AnswersGrow(env, request, mine, states, actions, loops, j, m - 1);
      assert LoopStep(env, mine, loops[m - 1], loops[m - 1 + 1], actions[m - 1], states[m - 1 + 1]);
    }
  }

  /** What is left to do, given the answers. */
  function Rest(env: F.Env, l: Loop): (r: (F.Trace, F.Outcome)) {
    if l.phase.Finished? then (l.trace, l.phase.outcome) else F.Follow(env, l.hop, l.k, l.trace)
  }

  lemma TurnedRest(env: F.Env, answers: seq<bool>, l: Loop)
    requires F.Appends(l.trace) == 2 * l.k && l.answers <= answers && |l.answers| > 2 * l.k
    requires l.answers[2 * l.k] ==> |l.answers| == 2 * l.k + 2
    ensures Rest(Recorded(env, answers), Turned(env, l)) == F.Follow(Recorded(env, answers), l.hop, l.k, l.trace)
  {
    hide F.Appends, F.OneHop;
    OneHopLocal(Recorded(env, answers), Recorded(env, l.answers), l.hop, l.k, l.trace);
  }

  lemma StepRest(env: F.Env, answers: seq<bool>, l: Loop, i: nat, t: State)
    requires i < |t.calls| && InStep(env, l) && Advance(env, l, i, t).answers <= answers
    ensures Rest(Recorded(env, answers), Advance(env, l, i, t)) == Rest(Recorded(env, answers), l)
  {
    hide F.Appends, F.Follow, Accepted, Recorded;
    var heard := l.(answers := l.answers + [Accepted(t, i)]);
    TurnedAnswers(env, heard);
    if (l.phase.Numbered? && !Accepted(t, i)) || l.phase.Sent? || (l.phase.Decided? && !Allowed(env, l.hop)) {
      TurnedRest(env, answers, heard);
    }
  }

  lemma TurnedAnswers(env: F.Env, l: Loop)
    ensures Turned(env, l).answers == l.answers
  {
    hide F.OneHop;
  }

  lemma {:induction false} RestStays(env: F.Env, request: F.Hop, mine: seq<nat>, states: seq<State>, actions: seq<Action>, loops: seq<Loop>, j: nat, m: nat)
    requires Joint(env, request, mine, states, actions, loops) && j <= m < |loops|
    ensures Rest(Recorded(env, loops[m].answers), loops[j]) == F.Follow(Recorded(env, loops[m].answers), request, 0, [])
  {
    hide Run, IsNext, Foreign, Advance, F.Follow, Recorded;
    if j > 0 {
      RestStays(env, request, mine, states, actions, loops, j - 1, m);
      StaysInStep(env, request, mine, states, actions, loops, j - 1);
      AnswersGrow(env, request, mine, states, actions, loops, j, m);
      assert LoopStep(env, mine, loops[j - 1], loops[j - 1 + 1], actions[j - 1], states[j - 1 + 1]);
      if loops[j] != loops[j - 1] {
        StepRest(env, loops[m].answers, loops[j - 1], mine[loops[j - 1].k], states[j]);
      }
    }
  }

  /**
   Whatever steps in between, a fetch that finishes over the shared journal did exactly what the
   redirect loop does with the answers that journal gave, so everything proved of the loop for
   every journal holds of it.
   */
  lemma SharedFetchIsFetch(env: F.Env, request: F.Hop, mine: seq<nat>, states: seq<State>, actions: seq<Action>, loops: seq<Loop>, m: nat)
    requires Joint(env, request, mine, states, actions, loops) && m < |loops| && loops[m].phase.Finished?
    ensures (loops[m].trace, loops[m].phase.outcome) == F.Follow(Recorded(env, loops[m].answers), request, 0, [])
  {
    hide Joint, F.Follow, Recorded;
    RestStays(env, request, mine, states, actions, loops, m, m);
  }

  // ---- and the journal shows it

  /** The events of the loop's own calls. */
  function Mine(mine: seq<nat>, events: seq<Event>): (r: seq<Event>) {
    if events == [] then [] else
      var e := events[|events| - 1];
      Mine(mine, events[..|events| - 1]) + if e.call in mine then [e] else []
  }

  lemma MineSnoc(mine: seq<nat>, events: seq<Event>, e: Event)
    ensures Mine(mine, events + [e]) == Mine(mine, events) + if e.call in mine then [e] else []
  {
    assert (events + [e])[..|events|] == events;
  }

  function Hops(t: F.Trace): (n: nat) {
    if t == [] then 0 else Hops(t[..|t| - 1]) + if t[|t| - 1].Intent? then 1 else 0
  }

  function CallOf(mine: seq<nat>, n: int): (i: nat) {
    if 0 <= n < |mine| then mine[n] else 0
  }

  function Said(i: nat, e: F.Event): (events: seq<Event>) {
    match e
    case Intent(_, _, ok) => [IntentTried(i, ok)]
    case Approved(_, _) => []
    case Sent(_, _) => [Acted(i)]
    case Result(_, _, ok) => [ResultTried(i, ok)]
  }

  /** What a trace says in the journal's terms, one call per intent. */
  function Told(mine: seq<nat>, t: F.Trace): (events: seq<Event>) {
    if t == [] then [] else Told(mine, t[..|t| - 1]) + Said(CallOf(mine, Hops(t) - 1), t[|t| - 1])
  }

  lemma ToldSnoc(mine: seq<nat>, t: F.Trace, e: F.Event)
    ensures Hops(t + [e]) == Hops(t) + if e.Intent? then 1 else 0
    ensures Told(mine, t + [e]) == Told(mine, t) + Said(CallOf(mine, Hops(t + [e]) - 1), e)
  {
    assert (t + [e])[..|t|] == t;
  }

  /** The trace up to where the loop stands. */
  function Current(l: Loop): (t: F.Trace) {
    var id := F.Sequence(l.trace) + 1;
    match l.phase
    case Decided => l.trace + [F.Intent(id, l.hop, true)]
    case Sent => F.SendTrace(l.trace, id, l.hop)
    case _ => l.trace
  }

  lemma ToldIntent(mine: seq<nat>, t: F.Trace, hop: F.Hop, id: nat, ok: bool)
    requires Hops(t) < |mine|
    ensures Hops(t + [F.Intent(id, hop, ok)]) == Hops(t) + 1
    ensures Told(mine, t + [F.Intent(id, hop, ok)]) == Told(mine, t) + [IntentTried(mine[Hops(t)], ok)]
  {
    ToldSnoc(mine, t, F.Intent(id, hop, ok));
  }

  lemma ToldSend(mine: seq<nat>, t: F.Trace, hop: F.Hop, id: nat)
    requires Hops(t) < |mine|
    ensures Hops(F.SendTrace(t, id, hop)) == Hops(t) + 1
    ensures Told(mine, F.SendTrace(t, id, hop)) == Told(mine, t) + [IntentTried(mine[Hops(t)], true)] + [Acted(mine[Hops(t)])]
  {
    hide Told, Hops;
    var t1 := t + [F.Intent(id, hop, true)];
    var t2 := t1 + [F.Approved(hop.method_, hop.url)];
    ToldIntent(mine, t, hop, id, true);
    ToldSnoc(mine, t1, F.Approved(hop.method_, hop.url));
    ToldSnoc(mine, t2, F.Sent(id, hop));
    assert F.SendTrace(t, id, hop) == t2 + [F.Sent(id, hop)];
  }

  /** The trace one whole turn leaves. */
  lemma TurnTrace(env: F.Env, l: Loop) returns (verdict: F.Verdict)
    requires F.Appends(l.trace) == 2 * l.k && 2 * l.k < |l.answers|
    requires l.answers[2 * l.k] ==> |l.answers| == 2 * l.k + 2
    ensures var t, hop, id := l.trace, l.hop, F.Sequence(l.trace) + 1;
      var t1 := t + [F.Intent(id, hop, true)];
      Turned(env, l).trace ==
        if !l.answers[2 * l.k] then t + [F.Intent(id, hop, false)] else
        var result := F.Result(id, verdict, l.answers[2 * l.k + 1]);
        if !env.policy(hop.method_, hop.url) then t1 + [result]
        else if !env.methodOk(hop.method_) then t1 + [F.Approved(hop.method_, hop.url)] + [result]
        else F.SendTrace(t, id, hop) + [result]
  {
    hide F.Appends, F.Sequence, F.OneHop;
    var u;
    u, verdict := AuditedFetch.HopTrace(Recorded(env, l.answers), l.hop, l.k, l.trace);
  }

  /** What one whole turn says. */
  lemma ToldTurn(mine: seq<nat>, env: F.Env, l: Loop)
    requires F.Appends(l.trace) == 2 * l.k && Hops(l.trace) == l.k && l.k < |mine| && 2 * l.k < |l.answers|
    requires l.answers[2 * l.k] ==> |l.answers| == 2 * l.k + 2
    ensures var t, i := Turned(env, l).trace, mine[l.k];
      && Hops(t) == l.k + 1
      && Told(mine, t) ==
           if !l.answers[2 * l.k] then Told(mine, l.trace) + [IntentTried(i, false)]
           else if Allowed(env, l.hop) then Told(mine, l.trace) + [IntentTried(i, true)] + [Acted(i)] + [ResultTried(i, l.answers[2 * l.k + 1])]
           else Told(mine, l.trace) + [IntentTried(i, true)] + [ResultTried(i, l.answers[2 * l.k + 1])]
  {
    hide Told, Hops, F.Appends, F.Sequence, Turned, F.SendTrace;
    var id := F.Sequence(l.trace) + 1;
    var verdict := TurnTrace(env, l);
    if l.answers[2 * l.k] {
      ToldEnds(mine, l.trace, l.hop, id, F.Result(id, verdict, l.answers[2 * l.k + 1]));
    } else {
      ToldIntent(mine, l.trace, l.hop, id, false);
    }
  }

  /** The three ways a turn with an accepted intent ends. */
  lemma ToldEnds(mine: seq<nat>, t: F.Trace, hop: F.Hop, id: nat, result: F.Event)
    requires Hops(t) < |mine| && result.Result?
    ensures var t1, i := t + [F.Intent(id, hop, true)], mine[Hops(t)];
      var said := Told(mine, t) + [IntentTried(i, true)];
      && Hops(t1 + [result]) == Hops(t1 + [F.Approved(hop.method_, hop.url)] + [result]) == Hops(F.SendTrace(t, id, hop) + [result]) == Hops(t) + 1
      && Told(mine, t1 + [result]) == said + [ResultTried(i, result.ok)]
      && Told(mine, t1 + [F.Approved(hop.method_, hop.url)] + [result]) == said + [ResultTried(i, result.ok)]
      && Told(mine, F.SendTrace(t, id, hop) + [result]) == said + [Acted(i)] + [ResultTried(i, result.ok)]
  {
    hide Told, Hops;
    var t1 := t + [F.Intent(id, hop, true)];
    ToldIntent(mine, t, hop, id, true);
    ToldSend(mine, t, hop, id);
    ToldSnoc(mine, t1, result);
    ToldSnoc(mine, t1, F.Approved(hop.method_, hop.url));
    ToldSnoc(mine, t1 + [F.Approved(hop.method_, hop.url)], result);
    ToldSnoc(mine, F.SendTrace(t, id, hop), result);
  }

  ghost predicate Shown(mine: seq<nat>, s: State, l: Loop) {
    Mine(mine, s.events) == Told(mine, Current(l)) && (!l.phase.Finished? ==> Hops(l.trace) == l.k)
  }

  lemma ForeignShows(mine: seq<nat>, s: State, a: Action, l: Loop)
    requires Enabled(s, a) && Foreign(mine, a) && Shown(mine, s, l)
    ensures Shown(mine, Next(s, a), l)
  {
    hide Mine, Told, Current, Append, Restart, Reconcile, MayBegin, Hops;
    var t := Next(s, a);
    if t.events != s.events {
      MineSnoc(mine, s.events, t.events[|s.events|]);
    }
  }

  lemma OwnShows(env: F.Env, mine: seq<nat>, s: State, a: Action, l: Loop)
    requires l.k < |mine| && mine[l.k] < |s.calls| && Enabled(s, a) && IsNext(env, l, mine[l.k], a)
    requires Shown(mine, s, l) && InStep(env, l)
    ensures mine[l.k] < |Next(s, a).calls| && Shown(mine, Next(s, a), Advance(env, l, mine[l.k], Next(s, a)))
  {
    hide Mine, Told, Hops, Append, Restart, Reconcile, MayBegin, F.Appends, F.Sequence, Turned;
    var i, t := mine[l.k], Next(s, a);
    var heard := l.(answers := l.answers + [Accepted(t, i)]);
    var id := F.Sequence(l.trace) + 1;
    if t.events != s.events {
      MineSnoc(mine, s.events, t.events[|s.events|]);
    }
    ToldIntent(mine, l.trace, l.hop, id, true);
    ToldSend(mine, l.trace, l.hop, id);
    TurnedPhase(env, heard);
    if (l.phase.Numbered? && !Accepted(t, i)) || l.phase.Sent? || (l.phase.Decided? && !Allowed(env, l.hop)) {
      ToldTurn(mine, env, heard);
    }
  }

  lemma TurnedPhase(env: F.Env, l: Loop)
    ensures var r := Turned(env, l); Current(r) == r.trace && (!r.phase.Finished? ==> r.k == l.k + 1)
  {
    hide F.OneHop, F.Sequence;
  }

  /**
   In every such run the journal events of the loop's calls are, in order, exactly what its trace
   tells: each hop's intent, send and result, and nothing else, however many other calls step in.
   */
  lemma {:induction false} SharedFetchIsJournaled(env: F.Env, request: F.Hop, mine: seq<nat>, states: seq<State>, actions: seq<Action>, loops: seq<Loop>, j: nat)
    requires Joint(env, request, mine, states, actions, loops) && j < |loops|
    ensures Mine(mine, states[j].events) == Told(mine, Current(loops[j]))
    ensures !loops[j].phase.Finished? ==> Hops(loops[j].trace) == loops[j].k
  {
    hide Mine, Told, Hops, Current, Next, Enabled, Foreign, IsNext, Advance, Fresh;
    if j == 0 {
      StartShows(mine, states[0], request);
    } else {
      SharedFetchIsJournaled(env, request, mine, states, actions, loops, j - 1);
      StaysInStep(env, request, mine, states, actions, loops, j - 1);
      assert LoopStep(env, mine, loops[j - 1], loops[j - 1 + 1], actions[j - 1], states[j - 1 + 1]);
      assert Enabled(states[j - 1], actions[j - 1]) && states[j - 1 + 1] == Next(states[j - 1], actions[j - 1]);
      StepKeepsCalls(states[j - 1], actions[j - 1]);
      if Foreign(mine, actions[j - 1]) && loops[j] == loops[j - 1] {
        ForeignShows(mine, states[j - 1], actions[j - 1], loops[j]);
      } else {
        OwnShows(env, mine, states[j - 1], actions[j - 1], loops[j - 1]);
      }
    }
  }

  lemma StartShows(mine: seq<nat>, s: State, request: F.Hop)
    requires Fresh(s)
    ensures Shown(mine, s, Loop(request, 0, [], [], Starting))
  {
  }
}
