/**
 Every audited effect of the daemon writes an intent, acts, and writes a result: the HTTP
 attempts of a Petal, batch confirmation, the expiry sweeps and the wallet refresh. Here any
 number of such calls, restarts and operator reconciliations interleave over one journal
 whose appends may fail at any point.
 */
module Audit {
  import opened Bytes
  import opened AuditLog

  /**
   Http is one attempt of a fetch, made under the lock that serialises fetches; Sweep is one of
   a loop of sweeps and runs to its end once started; Refresh happens at start-up and closes its
   effect even when dropped. Only batch confirmations run side by side.
   */
  datatype Kind = Http | Batch | Sweep | Refresh

  /** `Abandoned` and `Killed` ended without trying to write a result: a dropped future, a dead process. */
  datatype Stage =
    | Idle
    | Ready(id: Correlation)
    | Armed(id: Correlation)
    | Acting(id: Correlation)
    | Abandoned(id: Correlation)
    | Killed(id: Correlation)
    | Closed(id: Correlation, recorded: bool)
    | Refused(id: Correlation)
    | Skipped

  datatype Call = Call(kind: Kind, operation: string, stage: Stage)

  datatype Event =
    | IntentTried(call: nat, ok: bool)
    | Acted(call: nat)
    | ResultTried(call: nat, ok: bool)

  datatype State = State(log: Log, calls: seq<Call>, events: seq<Event>)

  datatype Action =
    | Begin(call: nat)
    | Skip(call: nat)
    | WriteIntent(call: nat, disk: Disk)
    | Act(call: nat)
    | Deny(call: nat, disk: Disk)
    | WriteResult(call: nat, disk: Disk)
    | Abandon(call: nat)
    | Cancel(call: nat, disk: Disk)
    | WriteNote(disk: Disk)
    | Reopen(checks: Checks)
    | Resolve(id: Correlation, confirmed: bool, disk: Disk)

  function At(s: State, i: nat, stage: Stage): (t: State)
    requires i < |s.calls|
  {
    s.(calls := s.calls[i := s.calls[i].(stage := stage)])
  }

  predicate UnderWay(c: Call) {
    c.stage.Ready? || c.stage.Armed? || c.stage.Acting?
  }

  /** A fetch that is dropped gives its lock back. */
  predicate MayBegin(s: State, i: nat)
    requires i < |s.calls|
  {
    s.calls[i].kind.Batch? || forall j :: 0 <= j < |s.calls| && s.calls[j].kind == s.calls[i].kind ==> !UnderWay(s.calls[j])
  }

  predicate Enabled(s: State, a: Action) {
    match a
    case Begin(i) => i < |s.calls| && s.calls[i].stage.Idle? && MayBegin(s, i)
    case Skip(i) => i < |s.calls| && s.calls[i].stage.Idle? && s.calls[i].kind.Sweep?
    case WriteIntent(i, _) => i < |s.calls| && s.calls[i].stage.Ready?
    case Act(i) => i < |s.calls| && s.calls[i].stage.Armed?
    case Deny(i, _) => i < |s.calls| && s.calls[i].stage.Armed? && s.calls[i].kind.Http?
    case WriteResult(i, _) => i < |s.calls| && s.calls[i].stage.Acting?
    case Abandon(i) => i < |s.calls| && s.calls[i].stage.Acting? && (s.calls[i].kind.Http? || s.calls[i].kind.Batch?)
    case Cancel(i, _) => i < |s.calls| && s.calls[i].stage.Acting? && s.calls[i].kind.Refresh?
    case WriteNote(_) => true
    case Reopen(_) => true
    case Resolve(_, _, _) => true
  }

  function TryIntent(s: State, i: nat, id: Correlation, disk: Disk): (t: State)
    requires i < |s.calls|
  {
    var o := Append(s.log, Intent(id), disk);
    At(s, i, if o.ok then Armed(id) else Refused(id)).(log := o.log, events := s.events + [IntentTried(i, o.ok)])
  }

  function TryResult(s: State, i: nat, id: Correlation, disk: Disk): (t: State)
    requires i < |s.calls|
  {
    var o := Append(s.log, Result(id), disk);
    At(s, i, Closed(id, o.ok)).(log := o.log, events := s.events + [ResultTried(i, o.ok)])
  }

  /** A process that dies leaves its open effects open. */
  function Kill(c: Call): (d: Call) {
    match c.stage
    case Ready(_) => c.(stage := Skipped)
    case Armed(id) => c.(stage := Killed(id))
    case Acting(id) => c.(stage := Killed(id))
    case Abandoned(id) => c.(stage := Killed(id))
    case _ => c
  }

  function Next(s: State, a: Action): (t: State)
    requires Enabled(s, a)
  {
    match a
    case Begin(i) => At(s, i, Ready(Correlation(s.calls[i].operation, Sequence(s.log) + 1)))
    case Skip(i) => At(s, i, Skipped)
    case WriteIntent(i, disk) => TryIntent(s, i, s.calls[i].stage.id, disk)
    case Act(i) => At(s, i, Acting(s.calls[i].stage.id)).(events := s.events + [Acted(i)])
    case Deny(i, disk) => TryResult(s, i, s.calls[i].stage.id, disk)
    case WriteResult(i, disk) => TryResult(s, i, s.calls[i].stage.id, disk)
    case Abandon(i) => At(s, i, Abandoned(s.calls[i].stage.id))
    case Cancel(i, disk) => TryResult(s, i, s.calls[i].stage.id, disk)
    case WriteNote(disk) => s.(log := Append(s.log, Note, disk).log)
    case Reopen(checks) => s.(log := Restart(s.log.file, s.log.torn, checks), calls := seq(|s.calls|, i requires 0 <= i < |s.calls| => Kill(s.calls[i])))
    case Resolve(id, confirmed, disk) => s.(log := Reconcile(s.log, id, confirmed, disk).log)
  }

  /** A run from the opening of a file that some earlier daemon wrote. */
  ghost predicate Run(states: seq<State>, actions: seq<Action>) {
    && |states| == |actions| + 1
    && Fresh(states[0])
    && forall k :: 0 <= k < |actions| ==> Enabled(states[k], actions[k]) && states[k + 1] == Next(states[k], actions[k])
  }

  ghost predicate Fresh(s: State) {
    && Open(s.log.file).Some?
    && (exists checks :: s.log == Restart(s.log.file, s.log.torn, checks))
    && s.events == []
    && forall i :: 0 <= i < |s.calls| ==> s.calls[i].stage.Idle?
  }

  // ----- What each call did, told by its stage -----

  function Of(events: seq<Event>, i: nat): (mine: seq<Event>) {
    if events == [] then [] else
      var e := events[|events| - 1];
      Of(events[..|events| - 1], i) + if e.call == i then [e] else []
  }

  /** The only histories a call can have; its effect always follows its own recorded intent. */
  predicate Tells(stage: Stage, i: nat, mine: seq<Event>) {
    var intent := [IntentTried(i, true)];
    match stage
    case Idle => mine == []
    case Ready(_) => mine == []
    case Skipped => mine == []
    case Refused(_) => mine == [IntentTried(i, false)]
    case Armed(_) => mine == intent
    case Acting(_) => mine == intent + [Acted(i)]
    case Abandoned(_) => mine == intent + [Acted(i)]
    case Killed(_) => mine == intent || mine == intent + [Acted(i)]
    case Closed(_, ok) => mine == intent + [ResultTried(i, ok)] || mine == intent + [Acted(i), ResultTried(i, ok)]
  }

  lemma OfSnoc(events: seq<Event>, e: Event, i: nat)
    ensures Of(events + [e], i) == Of(events, i) + if e.call == i then [e] else []
  {
    assert (events + [e])[..|events|] == events;
  }

  lemma StepTells(s: State, a: Action, i: nat)
    requires Enabled(s, a) && i < |s.calls| && Tells(s.calls[i].stage, i, Of(s.events, i))
    ensures Tells(Next(s, a).calls[i].stage, i, Of(Next(s, a).events, i))
  {
    hide Append, Restart, Reconcile, Of;
    var t := Next(s, a);
    if t.events != s.events {
      OfSnoc(s.events, t.events[|s.events|], i);
    }
  }

  /**
   Write-ahead: in every run, what each call has tried so far is one of the histories
   above. No effect comes before its own recorded intent, and every call that ended by
   itself, a cancelled refresh among them, tried exactly one result.
   */
  lemma {:induction false} EveryCallIsWriteAhead(states: seq<State>, actions: seq<Action>, k: nat, i: nat)
    requires Run(states, actions) && k < |states| && i < |states[0].calls|
    ensures |states[k].calls| == |states[0].calls|
    ensures Tells(states[k].calls[i].stage, i, Of(states[k].events, i))
  {
    hide Next, Enabled, Tells, Of;
    if k == 0 {
      assert states[0].calls[i].stage.Idle?;
      StartTells(states[0], i);
    } else {
      EveryCallIsWriteAhead(states, actions, k - 1, i);
      assert states[k - 1 + 1] == Next(states[k - 1], actions[k - 1]);
      StepTells(states[k - 1], actions[k - 1], i);
      StepKeepsCalls(states[k - 1], actions[k - 1]);
    }
  }

  lemma StartTells(s: State, i: nat)
    requires Fresh(s) && i < |s.calls|
    ensures Tells(s.calls[i].stage, i, Of(s.events, i))
  {
  }

  lemma StepKeepsCalls(s: State, a: Action)
    requires Enabled(s, a)
    ensures |Next(s, a).calls| == |s.calls|
  {
  }

  // ----- Which effects are open, and whose they are -----

  /** In flight or dropped: the intent is in the journal and no result was tried. */
  predicate Held(c: Call) {
    c.stage.Armed? || c.stage.Acting? || c.stage.Abandoned?
  }

  predicate Owned(s: State) {
    && (forall i :: 0 <= i < |s.calls| && Held(s.calls[i]) ==>
         && s.calls[i].stage.id in s.log.pending
         && s.calls[i].stage.id.operation == s.calls[i].operation
         && s.calls[i].stage.id.number <= Sequence(s.log))
    && (forall i, j :: 0 <= i < j < |s.calls| && Held(s.calls[i]) && Held(s.calls[j]) ==>
         s.calls[i].stage.id != s.calls[j].stage.id)
  }

  predicate Holder(s: State, i: int, id: Correlation) {
    0 <= i < |s.calls| && Held(s.calls[i]) && s.calls[i].stage.id == id
  }

  ghost predicate Accounted(s: State) {
    && (s.log.degraded.Healthy? ==> forall id <- s.log.pending :: exists i :: Holder(s, i, id))
    && (s.log.degraded.Unresolved? ==> forall i :: 0 <= i < |s.calls| ==> !Held(s.calls[i]))
  }

  predicate ReadyInTime(s: State) {
    forall i :: 0 <= i < |s.calls| && s.calls[i].stage.Ready? ==>
      s.calls[i].stage.id.operation == s.calls[i].operation && s.calls[i].stage.id.number <= Sequence(s.log) + 1
  }

  /** Calls of a serialised kind: at most one is under way, and it read a later number than any that was dropped. */
  predicate InTurn(s: State) {
    forall i, j :: 0 <= i < |s.calls| && 0 <= j < |s.calls| && i != j && s.calls[i].kind == s.calls[j].kind && !s.calls[i].kind.Batch? ==>
      && !(UnderWay(s.calls[i]) && UnderWay(s.calls[j]))
      && (s.calls[i].stage.Ready? && Held(s.calls[j]) ==> s.calls[j].stage.id.number < s.calls[i].stage.id.number)
  }

  ghost predicate Inv(s: State) {
    Sound(s.log) && Owned(s) && Accounted(s) && ReadyInTime(s) && InTurn(s)
  }

  /** A call that starts nothing stays in turn. */
  lemma InTurnKeeps(s: State, i: nat, stage: Stage)
    requires InTurn(s) && i < |s.calls| && !stage.Ready?
    requires UnderWay(s.calls[i].(stage := stage)) ==> UnderWay(s.calls[i])
    requires Held(s.calls[i].(stage := stage)) ==> UnderWay(s.calls[i]) || (Held(s.calls[i]) && stage.id == s.calls[i].stage.id)
    ensures InTurn(At(s, i, stage))
  {
    var t := At(s, i, stage);
    assert forall j :: 0 <= j < |s.calls| && j != i ==> t.calls[j] == s.calls[j];
  }

  /** A log that gained the intent of call `i`. */
  predicate Gained(s: State, t: State, i: nat)
    requires i < |s.calls| && s.calls[i].stage.Ready?
  {
    var id := s.calls[i].stage.id;
    && t.calls == At(s, i, Armed(id)).calls
    && id !in s.log.pending && t.log.pending == s.log.pending + {id}
    && |t.log.journal| == |s.log.journal| + 1
    && s.log.degraded.Healthy? && t.log.degraded.Healthy?
  }

  lemma GainedOwned(s: State, t: State, i: nat)
    requires i < |s.calls| && s.calls[i].stage.Ready? && Gained(s, t, i) && Owned(s) && ReadyInTime(s)
    ensures Owned(t) && ReadyInTime(t)
  {
    assert forall j :: 0 <= j < |s.calls| && j != i ==> t.calls[j] == s.calls[j];
  }

  lemma GainedAccounted(s: State, t: State, i: nat)
    requires i < |s.calls| && s.calls[i].stage.Ready? && Gained(s, t, i) && Accounted(s)
    ensures Accounted(t)
  {
    var id := s.calls[i].stage.id;
    assert Holder(t, i, id);
    forall d <- t.log.pending ensures exists j :: Holder(t, j, d) {
      if d != id {
        var j :| Holder(s, j, d);
        assert Holder(t, j, d);
      }
    }
  }

  lemma AcceptedIntentKeeps(s: State, i: nat, disk: Disk)
    requires Inv(s) && i < |s.calls| && s.calls[i].stage.Ready? && Append(s.log, Intent(s.calls[i].stage.id), disk).ok
    ensures Inv(TryIntent(s, i, s.calls[i].stage.id, disk))
  {
    hide Sound, Open, Append, InTurn, Owned, Accounted, ReadyInTime;
    var id := s.calls[i].stage.id;
    var t := TryIntent(s, i, id, disk);
    AppendKeepsSound(s.log, Intent(id), disk);
    AppendOutcome(s.log, Intent(id), disk);
    assert Gained(s, t, i);
    GainedOwned(s, t, i);
    GainedAccounted(s, t, i);
    InTurnKeeps(s, i, Armed(id));
    SameTurns(At(s, i, Armed(id)), t);
  }

  lemma SameTurns(s: State, t: State)
    requires InTurn(s) && s.calls == t.calls
    ensures InTurn(t)
  {
  }

  lemma IntentKeeps(s: State, i: nat, disk: Disk)
    requires Inv(s) && i < |s.calls| && s.calls[i].stage.Ready?
    ensures Inv(TryIntent(s, i, s.calls[i].stage.id, disk))
  {
    hide Inv, Append;
    var id := s.calls[i].stage.id;
    var o := Append(s.log, Intent(id), disk);
    if o.ok {
      AcceptedIntentKeeps(s, i, disk);
    } else {
      MoveKeeps(s, i, Refused(id));
      RefusedLog(s, Intent(id), disk);
      LogKeeps(At(s, i, Refused(id)), o.log);
      EventsFree(At(s, i, Refused(id)).(log := o.log), s.events + [IntentTried(i, o.ok)]);
    }
  }

  lemma RefusedLog(s: State, r: Record, disk: Disk)
    requires Inv(s) && !Append(s.log, r, disk).ok
    ensures var log := Append(s.log, r, disk).log;
      && Sound(log) && log.pending == s.log.pending && |s.log.journal| <= |log.journal|
      && (log.degraded == s.log.degraded || log.degraded.Failed?)
  {
    hide Append, Sound;
    AppendKeepsSound(s.log, r, disk);
    AppendOutcome(s.log, r, disk);
  }

  lemma ResultKeeps(s: State, i: nat, disk: Disk)
    requires Inv(s) && i < |s.calls| && (s.calls[i].stage.Armed? || s.calls[i].stage.Acting?)
    ensures Inv(TryResult(s, i, s.calls[i].stage.id, disk))
  {
    hide Sound, Open, Append, InTurn;
    var id := s.calls[i].stage.id;
    var t := TryResult(s, i, id, disk);
    AppendKeepsSound(s.log, Result(id), disk);
    AppendOutcome(s.log, Result(id), disk);
    InTurnKeeps(s, i, t.calls[i].stage);
    SameTurns(At(s, i, t.calls[i].stage), t);
    assert Held(s.calls[i]);
    assert forall j :: 0 <= j < |s.calls| && j != i ==> t.calls[j] == s.calls[j];
    if t.log.degraded.Healthy? {
      forall d <- t.log.pending ensures exists j :: Holder(t, j, d) {
        var j :| Holder(s, j, d);
        assert Holder(t, j, d);
      }
    }
  }

  /** A call moves on without touching the journal and stays held exactly if it was. */
  lemma MoveKeeps(s: State, i: nat, stage: Stage)
    requires Inv(s) && i < |s.calls|
    requires Held(s.calls[i]) == Held(s.calls[i].(stage := stage))
    requires Held(s.calls[i]) ==> stage.id == s.calls[i].stage.id
    requires UnderWay(s.calls[i].(stage := stage)) ==> UnderWay(s.calls[i]) || (stage.Ready? && MayBegin(s, i))
    requires stage.Ready? ==> stage.id == Correlation(s.calls[i].operation, Sequence(s.log) + 1)
    ensures Inv(At(s, i, stage))
  {
    hide Sound;
    var t := At(s, i, stage);
    assert forall j :: 0 <= j < |s.calls| && j != i ==> t.calls[j] == s.calls[j];
    if t.log.degraded.Healthy? {
      forall d <- t.log.pending ensures exists j :: Holder(t, j, d) {
        var j :| Holder(s, j, d);
        assert Holder(t, j, d);
      }
    }
  }

  /** A log that gained records but no effects, or was only disabled. */
  lemma LogKeeps(s: State, log: Log)
    requires Inv(s) && Sound(log) && log.pending == s.log.pending && |s.log.journal| <= |log.journal|
    requires log.degraded == s.log.degraded || log.degraded.Failed?
    ensures Inv(s.(log := log))
  {
    hide Sound;
    var t := s.(log := log);
    if t.log.degraded.Healthy? {
      forall d <- t.log.pending ensures exists j :: Holder(t, j, d) {
        var j :| Holder(s, j, d);
        assert Holder(t, j, d);
      }
    }
  }

  lemma NoteKeeps(s: State, disk: Disk)
    requires Inv(s)
    ensures Inv(Next(s, WriteNote(disk)))
  {
    hide Sound, Append;
    AppendKeepsSound(s.log, Note, disk);
    AppendOutcome(s.log, Note, disk);
    LogKeeps(s, Append(s.log, Note, disk).log);
  }

  lemma ReopenKeeps(s: State, checks: Checks)
    requires Inv(s)
    ensures Inv(Next(s, Reopen(checks)))
  {
    hide Open;
    RestartIsSound(s.log.file, s.log.torn, checks);
    var t := Next(s, Reopen(checks));
    assert t.log == Restart(s.log.file, s.log.torn, checks);
    assert forall i :: 0 <= i < |t.calls| ==> t.calls[i] == Kill(s.calls[i]);
    assert forall i :: 0 <= i < |t.calls| ==> !Held(t.calls[i]) && !UnderWay(t.calls[i]);
  }

  /** Only effects of a dead daemon can be resolved by hand. */
  lemma ResolveKeeps(s: State, id: Correlation, confirmed: bool, disk: Disk)
    requires Inv(s)
    ensures Inv(Next(s, Resolve(id, confirmed, disk)))
  {
    ReconcileKeepsSound(s.log, id, confirmed, disk);
    hide Open, Sound;
    var o := Reconcile(s.log, id, confirmed, disk);
    ReconcileIsLocal(s.log, id, confirmed, disk);
    if s.log.degraded.Unresolved? {
      assert forall i :: 0 <= i < |s.calls| ==> !Held(s.calls[i]);
    } else {
      assert o.log == s.log;
    }
  }

  lemma ReconcileIsLocal(log: Log, id: Correlation, confirmed: bool, disk: Disk)
    requires Sound(log)
    ensures var o := Reconcile(log, id, confirmed, disk);
      && (!log.degraded.Unresolved? ==> o.log == log)
      && |log.journal| <= |o.log.journal|
      && (o.log.degraded.Healthy? && log.degraded.Unresolved? ==> o.log.pending == {})
  {
    hide Open;
  }

  lemma StepKeeps(s: State, a: Action)
    requires Inv(s) && Enabled(s, a)
    ensures Inv(Next(s, a))
  {
    hide Inv, Append, Restart, Reconcile, MayBegin;
    match a
    case Begin(i) => BeginKeeps(s, i);
    case Skip(i) => SkipKeeps(s, i);
    case WriteIntent(i, disk) => IntentKeeps(s, i, disk);
    case Act(i) => ActKeeps(s, i);
    case Deny(i, disk) => ResultKeeps(s, i, disk);
    case WriteResult(i, disk) => ResultKeeps(s, i, disk);
    case Abandon(i) => MoveKeeps(s, i, Abandoned(s.calls[i].stage.id));
    case Cancel(i, disk) => ResultKeeps(s, i, disk);
    case WriteNote(disk) => NoteKeeps(s, disk);
    case Reopen(checks) => ReopenKeeps(s, checks);
    case Resolve(id, confirmed, disk) => ResolveKeeps(s, id, confirmed, disk);
  }

  lemma BeginKeeps(s: State, i: nat)
    requires Inv(s) && Enabled(s, Begin(i))
    ensures Inv(Next(s, Begin(i)))
  {
    MoveKeeps(s, i, Ready(Correlation(s.calls[i].operation, Sequence(s.log) + 1)));
  }

  lemma SkipKeeps(s: State, i: nat)
    requires Inv(s) && Enabled(s, Skip(i))
    ensures Inv(Next(s, Skip(i)))
  {
    MoveKeeps(s, i, Skipped);
  }

  lemma ActKeeps(s: State, i: nat)
    requires Inv(s) && Enabled(s, Act(i))
    ensures Inv(Next(s, Act(i)))
  {
    MoveKeeps(s, i, Acting(s.calls[i].stage.id));
    EventsFree(At(s, i, Acting(s.calls[i].stage.id)), s.events + [Acted(i)]);
  }

  lemma EventsFree(s: State, events: seq<Event>)
    requires Inv(s)
    ensures Inv(s.(events := events))
  {
    hide Sound;
    var t := s.(events := events);
    if t.log.degraded.Healthy? {
      forall d <- t.log.pending ensures exists j :: Holder(t, j, d) {
        var j :| Holder(s, j, d);
        assert Holder(t, j, d);
      }
    }
  }

  lemma StartKeeps(s: State)
    requires Fresh(s)
    ensures Inv(s)
  {
    hide Open;
    var checks :| s.log == Restart(s.log.file, s.log.torn, checks);
    RestartIsSound(s.log.file, s.log.torn, checks);
  }

  lemma {:induction false} RunKeeps(states: seq<State>, actions: seq<Action>, k: nat)
    requires Run(states, actions) && k < |states|
    ensures Inv(states[k])
  {
    hide Next, Enabled, Inv, Fresh;
    if k == 0 {
      StartKeeps(states[0]);
    } else {
      RunKeeps(states, actions, k - 1);
      assert Enabled(states[k - 1], actions[k - 1]) && states[k - 1 + 1] == Next(states[k - 1], actions[k - 1]);
      StepKeeps(states[k - 1], actions[k - 1]);
    }
  }
}
