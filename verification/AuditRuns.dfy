/** What the audit journal proves about every run of the daemon's audited calls. */
module AuditRuns {
  import opened Bytes
  import opened AuditLog
  import opened Audit

  /** While appends are accepted, the effects left open are exactly those of calls still in flight or dropped. */
  lemma OpenEffectsExactly(states: seq<State>, actions: seq<Action>, k: nat, id: Correlation)
    requires Run(states, actions) && k < |states|
    ensures Open(states[k].log.file).Some?
    ensures states[k].log.degraded.Healthy? ==>
      (LeftOpen(states[k].log.file, id) <==> exists i :: Holder(states[k], i, id))
  {
    hide Run, LeftOpen;
    RunKeeps(states, actions, k);
    OpenExactly(states[k].log.file, id);
  }

  // ----- Why an intent has no result -----

  /** A call whose own append failed: its result, or the intent it then did not act on. */
  predicate OwnAppendFailed(c: Call) {
    (c.stage.Closed? && !c.stage.recorded) || c.stage.Refused?
  }

  /** Call `i` left effect `id` open: in flight, dropped, killed with its process, or one of its own appends failed. */
  predicate Blame(s: State, i: int, id: Correlation) {
    && 0 <= i < |s.calls|
    && (Held(s.calls[i]) || s.calls[i].stage.Killed? || OwnAppendFailed(s.calls[i]))
    && s.calls[i].stage.id == id
  }

  /** The effects a log or its file holds open. */
  function OpenIn(log: Log): (ids: set<Correlation>)
    requires Open(log.file).Some?
  {
    log.pending + Open(log.file).value
  }

  ghost predicate Blamed(s: State, before: set<Correlation>) {
    Open(s.log.file).Some? && forall id <- OpenIn(s.log) :: id in before || exists i :: Blame(s, i, id)
  }

  /** A step that adds no effect and clears nobody keeps every blame. */
  lemma BlameStays(s: State, t: State, before: set<Correlation>)
    requires Blamed(s, before) && |t.calls| == |s.calls| && Open(t.log.file).Some? && OpenIn(t.log) <= OpenIn(s.log)
    requires forall i, id :: Blame(s, i, id) && id in OpenIn(t.log) ==> Blame(t, i, id)
    ensures Blamed(t, before)
  {
    hide Blame, OpenIn;
    forall id <- OpenIn(t.log) ensures id in before || exists i :: Blame(t, i, id) {
      if id !in before {
        var i :| Blame(s, i, id);
        assert Blame(t, i, id);
      }
    }
  }

  /** What an append can add to the open effects, in memory or in the file, and what it clears. */
  lemma AppendOpens(log: Log, r: Record, disk: Disk)
    requires Sound(log)
    ensures var o := Append(log, r, disk);
      && Open(o.log.file).Some?
      && OpenIn(o.log) <= OpenIn(log) + (if r.Intent? then {r.id} else {})
      && (r.Result? && o.ok ==> r.id !in OpenIn(o.log))
  {
    AppendKeepsSound(log, r, disk);
    if log.degraded.Healthy? {
      assert log.file == log.journal;
      OpenSnoc(log.file, r);
    }
  }

  lemma IntentBlames(s: State, i: nat, disk: Disk, before: set<Correlation>)
    requires Inv(s) && Blamed(s, before) && Enabled(s, WriteIntent(i, disk))
    ensures Blamed(Next(s, WriteIntent(i, disk)), before)
  {
    hide Append, OpenIn, Inv, Open;
    var t, id := Next(s, WriteIntent(i, disk)), s.calls[i].stage.id;
    SoundOf(s);
    AppendOpens(s.log, Intent(id), disk);
    assert Blame(t, i, id);
    forall d <- OpenIn(t.log) ensures d in before || exists j :: Blame(t, j, d) {
      if d != id && d !in before {
        var j :| Blame(s, j, d);
        assert Blame(t, j, d);
      }
    }
  }

  lemma SoundOf(s: State)
    requires Inv(s)
    ensures Sound(s.log)
  {
  }

  lemma ResultBlames(s: State, i: nat, disk: Disk, before: set<Correlation>)
    requires Inv(s) && Blamed(s, before) && i < |s.calls| && (s.calls[i].stage.Armed? || s.calls[i].stage.Acting?)
    ensures Blamed(TryResult(s, i, s.calls[i].stage.id, disk), before)
  {
    hide Append, OpenIn, Inv, Open;
    var id := s.calls[i].stage.id;
    var t := TryResult(s, i, id, disk);
    SoundOf(s);
    AppendOpens(s.log, Result(id), disk);
    assert forall j, d :: Blame(s, j, d) && j != i ==> Blame(t, j, d);
    BlameStays(s, t, before);
  }

  lemma NoteBlames(s: State, disk: Disk, before: set<Correlation>)
    requires Inv(s) && Blamed(s, before)
    ensures Blamed(Next(s, WriteNote(disk)), before)
  {
    hide Append, OpenIn, Inv, Open;
    SoundOf(s);
    AppendOpens(s.log, Note, disk);
    BlameStays(s, Next(s, WriteNote(disk)), before);
  }

  lemma ReopenBlames(s: State, checks: Checks, before: set<Correlation>)
    requires Inv(s) && Blamed(s, before)
    ensures Blamed(Next(s, Reopen(checks)), before)
  {
    hide Inv, Open;
    var t := Next(s, Reopen(checks));
    assert OpenIn(t.log) <= OpenIn(s.log);
    assert forall i :: 0 <= i < |t.calls| ==> t.calls[i] == Kill(s.calls[i]);
    BlameStays(s, t, before);
  }

  lemma ResolveOpens(log: Log, id: Correlation, confirmed: bool, disk: Disk)
    requires Sound(log)
    ensures var o := Reconcile(log, id, confirmed, disk); Open(o.log.file).Some? && OpenIn(o.log) <= OpenIn(log)
  {
    ReconcileKeepsSound(log, id, confirmed, disk);
    if Open(log.file).Some? {
      OpenSnoc(log.file, Result(id));
    }
  }

  lemma ResolveBlames(s: State, id: Correlation, confirmed: bool, disk: Disk, before: set<Correlation>)
    requires Inv(s) && Blamed(s, before)
    ensures Blamed(Next(s, Resolve(id, confirmed, disk)), before)
  {
    hide Reconcile, OpenIn, Inv, Open;
    SoundOf(s);
    ResolveOpens(s.log, id, confirmed, disk);
    BlameStays(s, Next(s, Resolve(id, confirmed, disk)), before);
  }

  lemma StepBlames(s: State, a: Action, before: set<Correlation>)
    requires Inv(s) && Blamed(s, before) && Enabled(s, a)
    ensures Blamed(Next(s, a), before)
  {
    hide Inv, Blamed, Reconcile, Restart, Append, Sequence, MayBegin;
    match a
    case WriteIntent(i, disk) => IntentBlames(s, i, disk, before);
    case Deny(i, disk) => ResultBlames(s, i, disk, before);
    case WriteResult(i, disk) => ResultBlames(s, i, disk, before);
    case Cancel(i, disk) => ResultBlames(s, i, disk, before);
    case WriteNote(disk) => NoteBlames(s, disk, before);
    case Reopen(checks) => ReopenBlames(s, checks, before);
    case Resolve(id, confirmed, disk) => ResolveBlames(s, id, confirmed, disk, before);
    case Begin(i) => QuietBlames(s, a, before);
    case Skip(i) => QuietBlames(s, a, before);
    case Act(i) => QuietBlames(s, a, before);
    case Abandon(i) => QuietBlames(s, a, before);
  }

  lemma QuietBlames(s: State, a: Action, before: set<Correlation>)
    requires Blamed(s, before) && Enabled(s, a) && (a.Begin? || a.Skip? || a.Act? || a.Abandon?)
    ensures Blamed(Next(s, a), before)
  {
    hide OpenIn, Open, Sequence, MayBegin;
    BlameStays(s, Next(s, a), before);
  }

  lemma {:induction false} RunBlames(states: seq<State>, actions: seq<Action>, k: nat)
    requires Run(states, actions) && k < |states|
    ensures Inv(states[k]) && Open(states[0].log.file).Some? && Blamed(states[k], Open(states[0].log.file).value)
  {
    hide Next, Enabled, Inv, Open;
    RunKeeps(states, actions, k);
    if k == 0 {
      FreshOpens(states[0]);
    } else {
      RunBlames(states, actions, k - 1);
      assert Enabled(states[k - 1], actions[k - 1]) && states[k - 1 + 1] == Next(states[k - 1], actions[k - 1]);
      StepBlames(states[k - 1], actions[k - 1], Open(states[0].log.file).value);
    }
  }

  lemma FreshOpens(s: State)
    requires Fresh(s)
    ensures OpenIn(s.log) == Open(s.log.file).value
  {
    hide Open;
  }

  /**
   Where every call has ended by itself, an intent of this run that the file leaves without a
   result belongs to a call whose own append failed: its result, or that very intent, on which
   it then did not act.
   */
  lemma UnmatchedMeansFailed(states: seq<State>, actions: seq<Action>, k: nat, id: Correlation) returns (i: nat)
    requires Run(states, actions) && k < |states|
    requires forall i :: 0 <= i < |states[k].calls| ==> !Held(states[k].calls[i]) && !states[k].calls[i].stage.Killed?
    requires LeftOpen(states[k].log.file, id) && !LeftOpen(states[0].log.file, id)
    ensures i < |states[k].calls|
    ensures || (states[k].calls[i].stage == Closed(id, false) && ResultTried(i, false) in states[k].events)
            || (states[k].calls[i].stage == Refused(id) && Of(states[k].events, i) == [IntentTried(i, false)])
  {
    hide Run, LeftOpen, Inv, Open;
    RunBlames(states, actions, k);
    OpenExactly(states[k].log.file, id);
    OpenExactly(states[0].log.file, id);
    var j: int :| Blame(states[k], j, id);
    i := j;
    CallsKept(states, actions, k);
    EveryCallIsWriteAhead(states, actions, k, i);
    if states[k].calls[i].stage.Closed? {
      LostResultIsLogged(states, actions, k, i);
    }
  }

  lemma OfWithin(events: seq<Event>, i: nat, e: Event)
    requires e in Of(events, i)
    ensures e in events
  {
    if events != [] && e != events[|events| - 1] {
      OfWithin(events[..|events| - 1], i, e);
    }
  }

  lemma {:induction false} CallsKept(states: seq<State>, actions: seq<Action>, k: nat)
    requires Run(states, actions) && k < |states|
    ensures |states[k].calls| == |states[0].calls|
    ensures forall i :: 0 <= i < |states[0].calls| ==>
      states[k].calls[i].kind == states[0].calls[i].kind && states[k].calls[i].operation == states[0].calls[i].operation
  {
    hide Next, Enabled, Fresh;
    if k > 0 {
      CallsKept(states, actions, k - 1);
      assert Enabled(states[k - 1], actions[k - 1]) && states[k - 1 + 1] == Next(states[k - 1], actions[k - 1]);
      StepKeepsNames(states[k - 1], actions[k - 1]);
    }
  }

  lemma StepKeepsNames(s: State, a: Action)
    requires Enabled(s, a)
    ensures |Next(s, a).calls| == |s.calls|
    ensures forall i :: 0 <= i < |s.calls| ==> Next(s, a).calls[i].kind == s.calls[i].kind && Next(s, a).calls[i].operation == s.calls[i].operation
  {
    hide Append, Restart, Reconcile, MayBegin;
  }

  // ----- One daemon's life: exactly when every intent is matched -----

  /** No restart and no operator among the actions from `from` to `k`. */
  predicate Undisturbed(actions: seq<Action>, from: nat, k: nat) {
    k <= |actions| && forall j :: from <= j < k ==> !actions[j].Reopen? && !actions[j].Resolve?
  }

  ghost predicate ResultLost(s: State) {
    exists i: nat :: ResultTried(i, false) in s.events
  }

  ghost predicate Frozen(s: State) {
    && (ResultLost(s) ==> !s.log.degraded.Healthy? && s.log.pending != {})
    && forall i :: 0 <= i < |s.calls| ==> !s.calls[i].stage.Killed?
  }

  /** Memory's open effects, without the intents that were refused. */
  ghost predicate MemoryBlamed(s: State) {
    forall id <- s.log.pending :: exists i :: Blame(s, i, id) && !s.calls[i].stage.Refused?
  }

  lemma ResultFreezes(s: State, i: nat, disk: Disk)
    requires Inv(s) && Frozen(s) && i < |s.calls| && (s.calls[i].stage.Armed? || s.calls[i].stage.Acting?)
    ensures Frozen(TryResult(s, i, s.calls[i].stage.id, disk))
  {
    hide Sound, Accounted, Append, InTurn, ReadyInTime;
    AppendOutcome(s.log, Result(s.calls[i].stage.id), disk);
    assert Held(s.calls[i]) && s.calls[i].stage.id in s.log.pending;
  }

  lemma StepFreezes(s: State, a: Action)
    requires Inv(s) && Frozen(s) && Enabled(s, a) && !a.Reopen? && !a.Resolve?
    ensures Frozen(Next(s, a))
  {
    hide Inv, Sequence, Append, MayBegin;
    if a.Deny? || a.WriteResult? || a.Cancel? {
      ResultFreezes(s, a.call, a.disk);
    } else {
      var t := Next(s, a);
      if a.WriteIntent? {
        AppendOutcome(s.log, Intent(s.calls[a.call].stage.id), a.disk);
      } else if a.WriteNote? {
        AppendOutcome(s.log, Note, a.disk);
      }
      assert forall j: nat :: ResultTried(j, false) in t.events ==> ResultTried(j, false) in s.events;
      assert ResultLost(t) ==> ResultLost(s);
    }
  }

  lemma {:induction false} RunFreezes(states: seq<State>, actions: seq<Action>, k: nat)
    requires Run(states, actions) && k < |states| && Undisturbed(actions, 0, k)
    ensures Frozen(states[k])
  {
    hide Next, Enabled, Inv;
    if k > 0 {
      RunFreezes(states, actions, k - 1);
      RunKeeps(states, actions, k - 1);
      assert Enabled(states[k - 1], actions[k - 1]) && states[k - 1 + 1] == Next(states[k - 1], actions[k - 1]);
      StepFreezes(states[k - 1], actions[k - 1]);
    }
  }

  /** Memory opens an effect only for a call that is then armed. */
  lemma StepBlamesMemory(s: State, a: Action)
    requires Inv(s) && MemoryBlamed(s) && Enabled(s, a) && !a.Reopen? && !a.Resolve?
    ensures MemoryBlamed(Next(s, a))
  {
    hide Inv, Sequence, Append, MayBegin;
    var t := Next(s, a);
    if a.WriteIntent? {
      AppendOutcome(s.log, Intent(s.calls[a.call].stage.id), a.disk);
      assert t.log.pending != s.log.pending ==> Blame(t, a.call, s.calls[a.call].stage.id);
    } else if a.Deny? || a.WriteResult? || a.Cancel? {
      AppendOutcome(s.log, Result(s.calls[a.call].stage.id), a.disk);
    } else if a.WriteNote? {
      AppendOutcome(s.log, Note, a.disk);
    }
    forall id <- t.log.pending ensures exists i :: Blame(t, i, id) && !t.calls[i].stage.Refused? {
      if id in s.log.pending {
        var i :| Blame(s, i, id) && !s.calls[i].stage.Refused?;
        assert Blame(t, i, id) && !t.calls[i].stage.Refused?;
      }
    }
  }

  lemma {:induction false} RunBlamesMemory(states: seq<State>, actions: seq<Action>, k: nat)
    requires Run(states, actions) && k < |states| && Undisturbed(actions, 0, k) && states[0].log.pending == {}
    ensures MemoryBlamed(states[k])
  {
    hide Next, Enabled, Inv;
    if k > 0 {
      RunBlamesMemory(states, actions, k - 1);
      RunKeeps(states, actions, k - 1);
      assert Enabled(states[k - 1], actions[k - 1]) && states[k - 1 + 1] == Next(states[k - 1], actions[k - 1]);
      StepBlamesMemory(states[k - 1], actions[k - 1]);
    }
  }

  /**
   A daemon that opened a journal with nothing open and has no call in flight leaves every
   acknowledged intent matched exactly when no future was dropped and no result append failed.
   */
  lemma MatchedExactly(states: seq<State>, actions: seq<Action>, k: nat)
    requires Run(states, actions) && k < |states| && Undisturbed(actions, 0, k) && states[0].log.pending == {}
    requires forall i :: 0 <= i < |states[k].calls| ==> !states[k].calls[i].stage.Armed? && !states[k].calls[i].stage.Acting?
    ensures states[k].log.pending == {} <==>
      !ResultLost(states[k]) && forall i :: 0 <= i < |states[k].calls| ==> !states[k].calls[i].stage.Abandoned?
  {
    hide Run, Sound, InTurn, ReadyInTime;
    var s := states[k];
    RunFreezes(states, actions, k);
    RunBlamesMemory(states, actions, k);
    RunKeeps(states, actions, k);
    assert forall i :: 0 <= i < |s.calls| && s.calls[i].stage.Abandoned? ==> Held(s.calls[i]) && s.calls[i].stage.id in s.log.pending;
    if s.log.pending != {} {
      var id :| id in s.log.pending;
      var i :| Blame(s, i, id) && !s.calls[i].stage.Refused?;
      if s.calls[i].stage.Closed? {
        LostResultIsLogged(states, actions, k, i);
      }
    }
  }

  lemma LostResultIsLogged(states: seq<State>, actions: seq<Action>, k: nat, i: nat)
    requires Run(states, actions) && k < |states| && i < |states[k].calls|
    requires states[k].calls[i].stage.Closed? && !states[k].calls[i].stage.recorded
    ensures ResultTried(i, false) in states[k].events
  {
    hide Run;
    CallsKept(states, actions, k);
    EveryCallIsWriteAhead(states, actions, k, i);
    var mine := Of(states[k].events, i);
    assert mine[|mine| - 1] == ResultTried(i, false);
    OfWithin(states[k].events, i, ResultTried(i, false));
  }

  // ----- After a failure, and after a restart -----

  /** From `s` to `t` the journal did not move and only effects armed at `s` acted. */
  ghost predicate ClosedSince(s: State, t: State) {
    && t.log == s.log && |t.calls| == |s.calls| && s.events <= t.events
    && (forall i :: 0 <= i < |s.calls| && t.calls[i].stage.Armed? ==> s.calls[i].stage.Armed?)
    && (forall i: nat :: Acted(i) in t.events[|s.events|..] ==> i < |s.calls| && s.calls[i].stage.Armed?)
  }

  lemma StepStaysClosed(s: State, t: State, a: Action)
    requires !s.log.degraded.Healthy? && ClosedSince(s, t) && Enabled(t, a) && !a.Reopen? && !a.Resolve?
    ensures ClosedSince(s, Next(t, a))
  {
    hide Sequence, Write, MayBegin;
    var u := Next(t, a);
    assert u.events[|s.events|..] == t.events[|s.events|..] + u.events[|t.events|..];
  }

  /**
   Fail closed: from the first refused append on, until a restart or an operator, nothing
   more is written and no effect happens whose intent was not already in the journal.
   */
  lemma {:induction false} FailsClosed(states: seq<State>, actions: seq<Action>, k: nat, m: nat)
    requires Run(states, actions) && k <= m < |states| && Undisturbed(actions, k, m)
    requires !states[k].log.degraded.Healthy?
    ensures ClosedSince(states[k], states[m])
  {
    hide Next, Enabled;
    if k < m {
      FailsClosed(states, actions, k, m - 1);
      assert Enabled(states[m - 1], actions[m - 1]) && states[m - 1 + 1] == Next(states[m - 1], actions[m - 1]);
      StepStaysClosed(states[k], states[m - 1], actions[m - 1]);
    }
  }

  predicate Cleared(from: nat, file: seq<Record>, id: Correlation) {
    from <= |file| && Result(id) in file[from..]
  }

  /** Nothing is accepted, nothing is in flight and nothing acted. */
  predicate Waiting(s: State, t: State)
    requires |s.events| <= |t.events|
  {
    && !t.log.degraded.Healthy?
    && (forall i :: 0 <= i < |t.calls| ==> !t.calls[i].stage.Armed?)
    && forall e :: e in t.events[|s.events|..] ==> !e.Acted?
  }

  /** Of the effects open at `s`, each is still open in the file at `t` or has a later result; until all have, nothing acts. */
  predicate BlockedSince(s: State, t: State)
    requires |s.events| <= |t.events| && Open(s.log.file).Some? && Open(t.log.file).Some?
  {
    && s.log.file <= t.log.file
    && (forall id <- Open(s.log.file).value :: id in Open(t.log.file).value || Cleared(|s.log.file|, t.log.file, id))
    && (Waiting(s, t) || forall id <- Open(s.log.file).value :: Cleared(|s.log.file|, t.log.file, id))
  }

  /** What any step means for the file: it only grows, and an effect leaves it only by a result. */
  predicate Grows(log: Log, later: Log) {
    && Open(log.file).Some? && Open(later.file).Some?
    && log.file <= later.file
    && forall id <- Open(log.file).value :: id in Open(later.file).value || Cleared(|log.file|, later.file, id)
  }

  lemma AppendGrows(log: Log, r: Record, disk: Disk)
    requires Sound(log)
    ensures Grows(log, Append(log, r, disk).log)
  {
    var later := Append(log, r, disk).log;
    if later.file != log.file {
      assert log.file == log.journal && later.file == log.file + [r];
      OpenSnoc(log.file, r);
      assert later.file[|log.file|..] == [r];
    }
  }

  lemma ReconcileGrows(log: Log, id: Correlation, confirmed: bool, disk: Disk)
    requires Sound(log)
    ensures var later := Reconcile(log, id, confirmed, disk).log;
      && Grows(log, later)
      && (later.degraded.Healthy? ==> log.degraded.Healthy? || Open(later.file).value == {})
  {
    ReconcileKeepsSound(log, id, confirmed, disk);
    var later := Reconcile(log, id, confirmed, disk).log;
    if later.file != log.file {
      assert later.file == log.file + [Result(id)];
      OpenSnoc(log.file, Result(id));
      assert later.file[|log.file|..] == [Result(id)];
    }
  }

  lemma SameFileGrows(log: Log, later: Log)
    requires Open(log.file).Some? && later.file == log.file
    ensures Grows(log, later)
  {
  }

  lemma StepGrows(s: State, a: Action)
    requires Inv(s) && Enabled(s, a)
    ensures Grows(s.log, Next(s, a).log)
  {
    hide Inv, Append, Reconcile, Open, Grows, Sequence, MayBegin;
    SoundOf(s);
    if a.WriteIntent? {
      AppendGrows(s.log, Intent(s.calls[a.call].stage.id), a.disk);
    } else if a.Deny? || a.WriteResult? || a.Cancel? {
      AppendGrows(s.log, Result(s.calls[a.call].stage.id), a.disk);
    } else if a.WriteNote? {
      AppendGrows(s.log, Note, a.disk);
    } else if a.Resolve? {
      ReconcileGrows(s.log, a.id, a.confirmed, a.disk);
    } else {
      SameFileGrows(s.log, Next(s, a).log);
    }
  }

  /** A daemon that refuses starts accepting again only when its file leaves nothing open. */
  lemma StepWaits(s: State, t: State, a: Action)
    requires Inv(t) && Enabled(t, a) && |s.events| <= |t.events| && Waiting(s, t)
    ensures var u := Next(t, a);
      |s.events| <= |u.events| && (Waiting(s, u) || (Open(u.log.file).Some? && Open(u.log.file).value == {}))
  {
    hide Inv, Open, Write, Sequence, MayBegin;
    SoundOf(t);
    var u := Next(t, a);
    assert u.events[|s.events|..] == t.events[|s.events|..] + u.events[|t.events|..];
    if a.Resolve? {
      hide Reconcile;
      ReconcileGrows(t.log, a.id, a.confirmed, a.disk);
    } else if a.Reopen? {
      assert forall i :: 0 <= i < |u.calls| ==> u.calls[i] == Kill(t.calls[i]);
    }
  }

  lemma StepStaysBlocked(s: State, t: State, a: Action)
    requires Inv(t) && Enabled(t, a) && |s.events| <= |t.events| && Open(s.log.file).Some? && Open(t.log.file).Some? && BlockedSince(s, t)
    ensures |s.events| <= |Next(t, a).events| && Open(Next(t, a).log.file).Some? && BlockedSince(s, Next(t, a))
  {
    hide Next, Enabled, Inv, Open, Waiting;
    var from, u := |s.log.file|, Next(t, a);
    StepGrows(t, a);
    StepAddsEvents(t, a);
    assert u.log.file[from..] == t.log.file[from..] + u.log.file[|t.log.file|..];
    assert forall d :: Cleared(from, t.log.file, d) ==> Cleared(from, u.log.file, d);
    assert forall d :: Cleared(|t.log.file|, u.log.file, d) ==> Cleared(from, u.log.file, d);
    if Waiting(s, t) {
      StepWaits(s, t, a);
    }
  }

  lemma StepAddsEvents(s: State, a: Action)
    requires Enabled(s, a)
    ensures |s.events| <= |Next(s, a).events|
  {
    hide Append, Restart, Reconcile, MayBegin;
  }

  lemma UnresolvedWaits(s: State)
    requires Inv(s) && s.log.degraded.Unresolved?
    ensures Open(s.log.file).Some? && BlockedSince(s, s)
  {
  }

  lemma {:induction false} StaysBlocked(states: seq<State>, actions: seq<Action>, k: nat, m: nat)
    requires Run(states, actions) && k <= m < |states| && states[k].log.degraded.Unresolved?
    ensures |states[k].events| <= |states[m].events| && Open(states[k].log.file).Some? && Open(states[m].log.file).Some? && BlockedSince(states[k], states[m])
  {
    hide Next, Enabled, Inv, Open;
    if k == m {
      RunKeeps(states, actions, m);
      UnresolvedWaits(states[k]);
    } else {
      StaysBlocked(states, actions, k, m - 1);
      RunKeeps(states, actions, m - 1);
      assert Enabled(states[m - 1], actions[m - 1]) && states[m - 1 + 1] == Next(states[m - 1], actions[m - 1]);
      StepStaysBlocked(states[k], states[m - 1], actions[m - 1]);
    }
  }

  /**
   A daemon that finds effects open at startup performs no further effect, over any number
   of restarts, before every one of them has been given a result by hand.
   */
  lemma UnresolvedEffectsBlock(states: seq<State>, actions: seq<Action>, k: nat, m: nat, i: nat, id: Correlation)
    requires Run(states, actions) && k <= m < |states| && states[k].log.degraded.Unresolved?
    requires |states[k].events| <= |states[m].events| && Acted(i) in states[m].events[|states[k].events|..]
    requires LeftOpen(states[k].log.file, id)
    ensures Cleared(|states[k].log.file|, states[m].log.file, id)
  {
    hide Run, LeftOpen, Open;
    StaysBlocked(states, actions, k, m);
    OpenExactly(states[k].log.file, id);
  }

  // ----- When a healthy journal refuses an intent -----

  /** With a working disk, an intent is refused exactly when 64 effects are open or another call holds the same id; the refusal then disables the journal. */
  lemma IntentRefusedExactly(states: seq<State>, actions: seq<Action>, k: nat, i: nat)
    requires Run(states, actions) && k < |states| && Enabled(states[k], WriteIntent(i, Stored)) && states[k].log.degraded.Healthy?
    ensures var s, t := states[k], Next(states[k], WriteIntent(i, Stored));
      && (t.calls[i].stage.Refused? <==>
           |s.log.pending| >= MAX_PENDING
           || exists j :: Holder(s, j, s.calls[i].stage.id) && s.calls[j].operation == s.calls[i].operation)
      && (t.calls[i].stage.Refused? <==> t.log.degraded.Failed?)
  {
    hide Run, Sound, Append, InTurn;
    RunKeeps(states, actions, k);
    var s := states[k];
    var id := s.calls[i].stage.id;
    AppendOutcome(s.log, Intent(id), Stored);
    assert id.operation == s.calls[i].operation;
    if id in s.log.pending {
      var j :| Holder(s, j, id);
      assert s.calls[j].operation == s.calls[i].operation;
    }
  }

  /** Operation ids hash a text that begins with the kind of operation. */
  predicate KindsApart(s: State) {
    forall i, j :: 0 <= i < |s.calls| && 0 <= j < |s.calls| && s.calls[i].operation == s.calls[j].operation ==> s.calls[i].kind == s.calls[j].kind
  }

  /** The lock over a fetch, and the one loop of sweeps, leave an HTTP, sweep or refresh intent no other reason than 64 open effects. */
  lemma SerialisedIntentRefusedExactly(states: seq<State>, actions: seq<Action>, k: nat, i: nat)
    requires Run(states, actions) && k < |states| && Enabled(states[k], WriteIntent(i, Stored)) && states[k].log.degraded.Healthy?
    requires KindsApart(states[0]) && !states[k].calls[i].kind.Batch?
    ensures Next(states[k], WriteIntent(i, Stored)).calls[i].stage.Refused? <==> |states[k].log.pending| >= MAX_PENDING
  {
    hide Run, Append, Sound, Next, Accounted;
    IntentRefusedExactly(states, actions, k, i);
    RunKeeps(states, actions, k);
    CallsKept(states, actions, k);
    var s := states[k];
    assert forall j :: !Holder(s, j, s.calls[i].stage.id);
  }

  /** A call that reads the number and writes its intent with no other step between is never refused for its id. */
  lemma SerialIntentIsAccepted(states: seq<State>, actions: seq<Action>, k: nat, i: nat)
    requires Run(states, actions) && k < |states| && Enabled(states[k], Begin(i))
    requires states[k].log.degraded.Healthy? && |states[k].log.pending| < MAX_PENDING
    ensures var t := Next(states[k], Begin(i)); Enabled(t, WriteIntent(i, Stored)) && Next(t, WriteIntent(i, Stored)).calls[i].stage.Armed?
  {
    hide Run, Sound, InTurn, Append;
    RunKeeps(states, actions, k);
    var s := states[k];
    var id := Correlation(s.calls[i].operation, Sequence(s.log) + 1);
    AppendOutcome(s.log, Intent(id), Stored);
    assert forall j :: !Holder(s, j, id);
  }

  // ----- Runs that show both limits -----

  function EmptyLog(): (log: Log) { Restart([], false, PASSED) }

  function OneIntent(id: Correlation): (log: Log) {
    Log([Intent(id)], [Intent(id)], false, {id}, Healthy, false)
  }

  /** Two identical batch confirmations that both read the number first: the second disables the journal though the disk never failed. */
  lemma TwinsDisableTheJournal(operation: string) returns (states: seq<State>, actions: seq<Action>)
    ensures Run(states, actions) && |states| == 5 && states[0].log == EmptyLog()
    ensures forall a <- actions :: a.Begin? || (a.WriteIntent? && a.disk.Stored?)
    ensures states[4].log.degraded.Failed? && states[4].events == [IntentTried(0, true), IntentTried(1, false)]
  {
    var id := Correlation(operation, 1);
    var idle, ready := Call(Batch, operation, Idle), Call(Batch, operation, Ready(id));
    actions := [Begin(0), Begin(1), WriteIntent(0, Stored), WriteIntent(1, Stored)];
    var s0 := State(EmptyLog(), [idle, idle], []);
    var s1 := s0.(calls := [ready, idle]);
    var s2 := s0.(calls := [ready, ready]);
    var s3 := State(OneIntent(id), [ready.(stage := Armed(id)), ready], [IntentTried(0, true)]);
    var s4 := State(Latch(OneIntent(id)), [ready.(stage := Armed(id)), ready.(stage := Refused(id))], s3.events + [IntentTried(1, false)]);
    assert Next(s0, actions[0]) == s1;
    assert Next(s1, actions[1]) == s2;
    assert Next(s2, actions[2]) == s3;
    assert Next(s3, actions[3]) == s4;
    assert forall k :: 0 <= k < |actions| ==> Enabled([s0, s1, s2, s3][k], actions[k]);
    hide Next, Enabled, Open;
    states := [s0, s1, s2, s3, s4];
  }

  lemma DropSteps(operation: string) returns (s: seq<State>)
    ensures |s| == 5 && Fresh(s[0]) && s[0].log == EmptyLog()
    ensures Enabled(s[0], Begin(0)) && s[1] == Next(s[0], Begin(0))
    ensures Enabled(s[1], WriteIntent(0, Stored)) && s[2] == Next(s[1], WriteIntent(0, Stored))
    ensures Enabled(s[2], Act(0)) && s[3] == Next(s[2], Act(0))
    ensures Enabled(s[3], Abandon(0)) && s[4] == Next(s[3], Abandon(0))
    ensures s[4].log == OneIntent(Correlation(operation, 1)) && s[4].events == [IntentTried(0, true), Acted(0)]
  {
    var id := Correlation(operation, 1);
    var s0 := State(EmptyLog(), [Call(Batch, operation, Idle)], []);
    var s1 := At(s0, 0, Ready(id));
    var s2 := At(s0, 0, Armed(id)).(log := OneIntent(id), events := [IntentTried(0, true)]);
    var s3 := At(s2, 0, Acting(id)).(events := [IntentTried(0, true), Acted(0)]);
    assert Next(s0, Begin(0)) == s1;
    assert Next(s1, WriteIntent(0, Stored)) == s2;
    assert Next(s2, Act(0)) == s3;
    s := [s0, s1, s2, s3, At(s3, 0, Abandoned(id))];
  }

  /** A dropped confirmation, with no append failing: the effect stays open and the next daemon refuses to work. */
  lemma DroppedConfirmation(operation: string) returns (states: seq<State>, actions: seq<Action>)
    ensures Run(states, actions) && |states| == 6 && states[0].log == EmptyLog()
    ensures states[5].events == [IntentTried(0, true), Acted(0)]
    ensures states[4].log.degraded.Healthy? && states[5].log.degraded == Unresolved({Correlation(operation, 1)})
  {
    hide Next, Enabled, Fresh, Open, Restart;
    var s := DropSteps(operation);
    OneOpen(Correlation(operation, 1));
    Reopens(s[4]);
    actions := [Begin(0), WriteIntent(0, Stored), Act(0), Abandon(0), Reopen(PASSED)];
    states := s + [Next(s[4], Reopen(PASSED))];
    assert forall k :: 0 <= k < |actions| ==> Enabled(states[k], actions[k]) && states[k + 1] == Next(states[k], actions[k]);
  }

  lemma Reopens(s: State)
    ensures Enabled(s, Reopen(PASSED))
    ensures Next(s, Reopen(PASSED)).log == Restart(s.log.file, s.log.torn, PASSED) && Next(s, Reopen(PASSED)).events == s.events
  {
    hide Restart;
  }

  lemma OneOpen(id: Correlation)
    ensures Restart([Intent(id)], false, PASSED).degraded == Unresolved({id})
  {
    OpenSnoc([], Intent(id));
    assert [] + [Intent(id)] == [Intent(id)];
    assert id in {id};
  }

  /** The file, too, holds every effect in flight or dropped. */
  ghost predicate Durable(s: State) {
    Open(s.log.file).Some? && forall i :: 0 <= i < |s.calls| && Held(s.calls[i]) ==> s.calls[i].stage.id in Open(s.log.file).value
  }

  /** An append touches the file's open effects only at its own id. */
  lemma AppendDurable(log: Log, r: Record, disk: Disk)
    requires Sound(log)
    ensures var o := Append(log, r, disk);
      && Open(log.file).Some? && Open(o.log.file).Some?
      && (forall d <- Open(log.file).value :: r == Result(d) || d in Open(o.log.file).value)
      && (o.ok && r.Intent? ==> r.id in Open(o.log.file).value)
  {
    AppendKeepsSound(log, r, disk);
    if log.degraded.Healthy? {
      assert log.file == log.journal;
      OpenSnoc(log.file, r);
    }
  }

  lemma StepDurable(s: State, a: Action)
    requires Inv(s) && Durable(s) && Enabled(s, a)
    ensures Durable(Next(s, a))
  {
    hide Sound, Accounted, InTurn, ReadyInTime, Append, Reconcile, Open, Sequence, MayBegin;
    SoundOf(s);
    var t := Next(s, a);
    if a.WriteIntent? {
      AppendDurable(s.log, Intent(s.calls[a.call].stage.id), a.disk);
    } else if a.Deny? || a.WriteResult? || a.Cancel? {
      assert Held(s.calls[a.call]);
      AppendDurable(s.log, Result(s.calls[a.call].stage.id), a.disk);
      assert forall j :: 0 <= j < |s.calls| && j != a.call ==> t.calls[j] == s.calls[j];
    } else if a.WriteNote? {
      AppendDurable(s.log, Note, a.disk);
    } else if a.Reopen? {
      assert forall i :: 0 <= i < |t.calls| ==> t.calls[i] == Kill(s.calls[i]);
    } else if a.Resolve? {
      ResolveDurable(s, a.id, a.confirmed, a.disk);
    }
  }

  lemma ResolveDurable(s: State, id: Correlation, confirmed: bool, disk: Disk)
    requires Inv(s) && Durable(s)
    ensures Durable(Next(s, Resolve(id, confirmed, disk)))
  {
    hide Reconcile, Open, Owned, InTurn, ReadyInTime;
    ResolveOpens(s.log, id, confirmed, disk);
    ReconcileIsLocal(s.log, id, confirmed, disk);
  }

  lemma {:induction false} RunDurable(states: seq<State>, actions: seq<Action>, k: nat)
    requires Run(states, actions) && k < |states|
    ensures Inv(states[k]) && Durable(states[k])
  {
    hide Next, Enabled, Inv, Open;
    RunKeeps(states, actions, k);
    if k > 0 {
      RunDurable(states, actions, k - 1);
      assert Enabled(states[k - 1], actions[k - 1]) && states[k - 1 + 1] == Next(states[k - 1], actions[k - 1]);
      StepDurable(states[k - 1], actions[k - 1]);
    }
  }

  /**
   An HTTP attempt or a batch confirmation whose future is dropped leaves its effect open in the
   file though nothing failed, and whatever happens before the next restart, that daemon starts
   disabled, by that effect, by a line it cannot read or by a check that failed first.
   */
  lemma DroppedCallStopsTheNextDaemon(states: seq<State>, actions: seq<Action>, k: nat, m: nat, i: nat)
    requires Run(states, actions) && k < m < |actions| && i < |states[k].calls|
    requires actions[k] == Abandon(i) && actions[m].Reopen? && Undisturbed(actions, k, m)
    ensures states[k + 1].events == states[k].events
    ensures !states[m + 1].log.degraded.Healthy?
    ensures !states[m].log.torn && !actions[m].checks.changed && !actions[m].checks.legacy ==>
      states[m + 1].log.degraded.Unresolved? && states[k].calls[i].stage.id in states[m + 1].log.degraded.effects
  {
    hide Inv, Open;
    assert Enabled(states[k], actions[k]) && states[k + 1] == Next(states[k], actions[k]);
    StaysDropped(states, actions, k + 1, m, i);
    RunDurable(states, actions, m);
    assert states[m + 1] == Next(states[m], actions[m]);
    assert Held(states[m].calls[i]);
  }

  lemma {:induction false} StaysDropped(states: seq<State>, actions: seq<Action>, k: nat, m: nat, i: nat)
    requires Run(states, actions) && k <= m < |states| && Undisturbed(actions, k, m)
    requires i < |states[k].calls| && states[k].calls[i].stage.Abandoned?
    ensures i < |states[m].calls| && states[m].calls[i].stage == states[k].calls[i].stage
  {
    hide Next, Enabled;
    if k < m {
      StaysDropped(states, actions, k, m - 1, i);
      assert Enabled(states[m - 1], actions[m - 1]) && states[m - 1 + 1] == Next(states[m - 1], actions[m - 1]);
      StepKeepsDropped(states[m - 1], actions[m - 1], i);
    }
  }

  lemma StepKeepsDropped(s: State, a: Action, i: nat)
    requires Enabled(s, a) && !a.Reopen? && i < |s.calls| && s.calls[i].stage.Abandoned?
    ensures i < |Next(s, a).calls| && Next(s, a).calls[i] == s.calls[i]
  {
    hide Append, Reconcile, MayBegin;
  }

  // ----- How calls may end early -----

  /** Only a sweep may find nothing due, only a fetch be denied, only a fetch or a confirmation be dropped, only a refresh be cancelled. */
  lemma EarlyEndsExactly(s: State, i: nat, disk: Disk)
    requires i < |s.calls|
    ensures var c := s.calls[i];
      && (Enabled(s, Skip(i)) <==> c.stage.Idle? && c.kind == Sweep)
      && (Enabled(s, Deny(i, disk)) <==> c.stage.Armed? && c.kind == Http)
      && (Enabled(s, Abandon(i)) <==> c.stage.Acting? && c.kind in {Http, Batch})
      && (Enabled(s, Cancel(i, disk)) <==> c.stage.Acting? && c.kind == Refresh)
  {
  }

  // ----- A dead daemon's calls -----

  /** Nothing more can come of the call. */
  predicate Over(stage: Stage) {
    stage.Killed? || stage.Closed? || stage.Refused? || stage.Skipped?
  }

  lemma RestartEnds(s: State, checks: Checks, i: nat)
    requires i < |s.calls| && !s.calls[i].stage.Idle?
    ensures |Next(s, Reopen(checks)).calls| == |s.calls| && Over(Next(s, Reopen(checks)).calls[i].stage)
    ensures Next(s, Reopen(checks)).events == s.events
  {
  }

  lemma OverIsSilent(s: State, a: Action, i: nat)
    requires Enabled(s, a) && i < |s.calls| && Over(s.calls[i].stage)
    ensures var t := Next(s, a); |t.calls| == |s.calls| && Over(t.calls[i].stage) && Of(t.events, i) == Of(s.events, i)
  {
    hide Of;
    var t := Next(s, a);
    if t.events != s.events {
      OfSnoc(s.events, t.events[|s.events|], i);
    }
  }

  /** Whatever a daemon had begun by the time it died, no later daemon goes on with: the call leaves no further event. */
  lemma {:induction false} DeadCallsStaySilent(states: seq<State>, actions: seq<Action>, k: nat, j: nat, i: nat)
    requires Run(states, actions) && k < |actions| && actions[k].Reopen? && k < j < |states|
    requires i < |states[k].calls| && !states[k].calls[i].stage.Idle?
    ensures i < |states[j].calls| && Over(states[j].calls[i].stage) && Of(states[j].events, i) == Of(states[k].events, i)
    decreases j
  {
    hide Of, Next, Enabled, Fresh;
    if j == k + 1 {
      assert Enabled(states[k], actions[k]) && states[k + 1] == Next(states[k], actions[k]);
      RestartEnds(states[k], actions[k].checks, i);
    } else {
      DeadCallsStaySilent(states, actions, k, j - 1, i);
      assert Enabled(states[j - 1], actions[j - 1]) && states[j - 1 + 1] == Next(states[j - 1], actions[j - 1]);
      OverIsSilent(states[j - 1], actions[j - 1], i);
    }
  }
}
