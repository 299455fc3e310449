/**
 Whether a package is ever taken from under a live session. A replacement looks again while
 it holds the execution gate, so no guest can start a session in between; a removal looks
 before it takes the gate.
 */
module SessionGuard {
  import opened Bytes
  import opened MutationLock
  import K = PetalKeys

  /** The active and pending sessions of a package in the state itself. */
  function Live(s: State, package: Hash): (ps: set<K.Path>) {
    K.ActiveSessions(s.store.owners.Values, s.records, package, s.now)
  }

  /** Every session of the package was stopped, or had expired at `now`. */
  predicate EndedBy(records: map<K.Path, K.Record>, package: Hash, now: nat) {
    forall q :: q in records && records[q].scope.package == package ==> K.Ended(records[q], now)
  }

  lemma LiveExactly(s: State, package: Hash)
    requires package in s.store.owners.Values
    ensures Live(s, package) == {} <==> EndedBy(s.records, package, s.now)
  {
    K.NoneActiveExactly(s.store.owners.Values, s.records, package, s.now);
  }

  // ---- what ends a session keeps it ended

  lemma StopKeepsEnded(w: World, records: map<K.Path, K.Record>, o: K.Path, numbered: bool,
                       answer: Option<Option<seq<K.ApprovalStatus>>>, at: nat, package: Hash, now: nat)
    requires EndedBy(records, package, now)
    ensures EndedBy(AfterStop(w, records, o, numbered, answer, at), package, now)
  {
    hide K.AllTerminal, K.StopOperation;
  }

  /** An install that has looked while holding the gate: since then nothing of the package came alive. */
  predicate SealedBy(s: State, p: Pid)
    requires p in s.threads
  {
    var th := s.threads[p];
    th.stage.Holding? && th.stage.passed > 1 && th.op.Install? && th.op.guarded && th.op.name in s.store.owners ==>
      var g := LastGuard(s.log, p);
      g.Some? && EndedBy(s.records, s.store.owners[th.op.name], g.value.1.now)
  }

  predicate Sealed(s: State) {
    forall p :: p in s.threads ==> SealedBy(s, p)
  }

  lemma WorldSeals(w: World, s: State, t: State)
    requires Inv(w, s) && Sealed(s) && WorldStep(w, s, t)
    ensures Sealed(t)
  {
    hide AfterKeyRequest, AfterStop, K.Restart, EndedBy, LastGuard, Prepared, AllJustified;
    forall p | p in t.threads ensures SealedBy(t, p) {
      assert ThreadInv(w, s, p) && SealedBy(s, p);
      if OwnerStops(w, s, t) {
        var o, numbered, answer, at :| t == s.(records := AfterStop(w, s.records, o, numbered, answer, at));
        var th := s.threads[p];
        if th.op.Install? && th.op.name in s.store.owners && LastGuard(s.log, p).Some?
           && EndedBy(s.records, s.store.owners[th.op.name], LastGuard(s.log, p).value.1.now) {
          StopKeepsEnded(w, s.records, o, numbered, answer, at, s.store.owners[th.op.name], LastGuard(s.log, p).value.1.now);
        }
      }
    }
  }

  lemma LookSeals(w: World, s: State, t: State, p: Pid, op: Op, k: nat)
    requires Inv(w, s) && Sealed(s) && CheckInstall(s, t, p, op, k)
    ensures Sealed(t)
  {
    hide LastGuard, Prepared, AllJustified, EndedBy, Clear;
    assert ThreadInv(w, s, p);
    if op.guarded && op.name in s.store.owners {
      var h := s.store.owners[op.name];
      LastSnoc(s.log, Guarded(p, h, ViewOf(s)), p);
      LiveExactly(s, h);
      ClearIsLive(s, h);
    }
    forall o | o in t.threads ensures SealedBy(t, o) {
      assert ThreadInv(w, s, o) && SealedBy(s, o);
    }
  }

  lemma ClearIsLive(s: State, package: Hash)
    ensures Clear(ViewOf(s), package) <==> Live(s, package) == {}
  {
  }

  /** Whoever moves otherwise holds the lock alone, or holds nothing. */
  lemma OtherSeals(w: World, s: State, t: State, p: Pid, op: Op)
    requires Inv(w, s) && Sealed(s)
    requires Spawn(s, t, p, op) || Acquire(s, t, p, op) || Fail(s, t, p) || TakeGate(s, t, p, op)
          || CommitInstall(s, t, p, op) || CommitUninstall(s, t, p, op) || CheckUninstall(s, t, p, op)
          || Rename(s, t, p, op) || Classify(w, s, t, p, op) || Execute(s, t, p, op)
    ensures Sealed(t)
  {
    hide LastGuard, Prepared, AllJustified, EndedBy, Clear, Resolve, ViewOf, Without;
    forall o | o in t.threads ensures SealedBy(t, o) {
      if o in s.threads {
        assert ThreadInv(w, s, o) && SealedBy(s, o);
      }
      if p in s.threads {
        assert ThreadInv(w, s, p);
      }
    }
  }

  lemma StepSeals(w: World, s: State, t: State)
    requires Inv(w, s) && Sealed(s) && Step(w, s, t)
    ensures Sealed(t)
  {
    hide Inv, Sealed, WorldStep, CheckInstall;
    if WorldStep(w, s, t) {
      WorldSeals(w, s, t);
    } else {
      var p, op, k: nat :| ThreadStep(w, s, t, p, op, k);
      if CheckInstall(s, t, p, op, k) {
        LookSeals(w, s, t, p, op, k);
      } else {
        OtherSeals(w, s, t, p, op);
      }
    }
  }

  lemma {:induction false} RunSeals(w: World, states: seq<State>, i: nat)
    requires Run(w, states) && i < |states|
    ensures Inv(w, states[i]) && Sealed(states[i])
  {
    hide Step, Inv, Sealed;
    EveryCommitIsJustified(w, states, i);
    if i == 0 {
      StartSealed(states[0]);
    } else {
      RunSeals(w, states, i - 1);
      assert Step(w, states[i - 1], states[i - 1 + 1]);
      StepSeals(w, states[i - 1], states[i]);
    }
  }

  lemma StartSealed(s: State)
    requires Init(s)
    ensures Sealed(s)
  {
  }

  // ---- replacements

  /** An unstopped session of the package whose expiry the clock has fallen back behind. */
  predicate FellBack(s: State, package: Hash, look: nat, q: K.Path) {
    && q in s.records && s.records[q].scope.package == package && !K.IsStopped(s.records[q])
    && s.records[q].authorityExpiresAtMs.Some? && s.now < s.records[q].authorityExpiresAtMs.value <= look
  }

  /**
   In the very state in which an unforced replacement commits, the outgoing package has a live
   session only if the wall clock has gone back, since the call's last look, behind the expiry
   that session had reached; and then exactly those sessions are live.
   */
  lemma ReplacementExactly(w: World, states: seq<State>, i: nat, p: Pid, op: Op)
    requires Run(w, states) && i + 1 < |states| && CommitInstall(states[i], states[i + 1], p, op)
    requires op.guarded && op.name in states[i].store.owners
    ensures var s := states[i]; var h, g := s.store.owners[op.name], LastGuard(s.log, p);
      && g.Some?
      && (forall q :: q in Live(s, h) <==> FellBack(s, h, g.value.1.now, q))
      && (s.now >= g.value.1.now ==> Live(s, h) == {})
  {
    hide Run, Inv, LastGuard;
    RunSeals(w, states, i);
    var s := states[i];
    var h := s.store.owners[op.name];
    assert SealedBy(s, p);
    var look := LastGuard(s.log, p).value.1.now;
    forall q ensures q in Live(s, h) <==> FellBack(s, h, look, q) {
      assert h in s.store.owners.Values;
    }
    assert s.now >= look ==> forall q :: !FellBack(s, h, look, q);
  }

  predicate ClockNeverBack(states: seq<State>) {
    forall x, y :: 0 <= x <= y < |states| ==> states[x].now <= states[y].now
  }

  /** While the clock does not go back, no unforced replacement takes a package from under a live session. */
  lemma ReplacementStrandsNothing(w: World, states: seq<State>, i: nat, p: Pid, op: Op)
    requires Run(w, states) && i + 1 < |states| && CommitInstall(states[i], states[i + 1], p, op)
    requires op.guarded && op.name in states[i].store.owners && ClockNeverBack(states)
    ensures Live(states[i], states[i].store.owners[op.name]) == {}
  {
    hide Run, LastGuard, Live;
    ReplacementExactly(w, states, i, p, op);
    var j := LastGuardIs(states[i].log, p);
    var x := GuardSawTheState(w, states, i, j);
    assert states[x].now <= states[i].now;
  }

  // ---- removals

  lemma LiveIs(s: State, package: Hash, q: K.Path)
    ensures q in Live(s, package) <==>
      q in s.records && s.records[q].scope.package == package && package in s.store.owners.Values && !K.Ended(s.records[q], s.now)
  {
  }

  lemma CallsLeaveRecords(w: World, s: State, t: State)
    requires Step(w, s, t) && !WorldStep(w, s, t)
    ensures t.records == s.records && t.now == s.now
  {
    hide WorldStep, Resolve, Clear, ViewOf, Without;
  }

  lemma StopRevivesNothing(w: World, records: map<K.Path, K.Record>, o: K.Path, numbered: bool,
                           answer: Option<Option<seq<K.ApprovalStatus>>>, at: nat, q: K.Path)
    ensures var after := AfterStop(w, records, o, numbered, answer, at);
      && after.Keys == records.Keys
      && (q in records ==> after[q].scope == records[q].scope && forall now: nat :: K.Ended(records[q], now) ==> K.Ended(after[q], now))
  {
    hide K.AllTerminal, K.StopOperation;
  }

  lemma RestartRevivesNothing(records: map<K.Path, K.Record>, q: K.Path)
    ensures var after := K.Restart(K.Machine(records, [])).records;
      && after.Keys == records.Keys
      && (q in records ==> after[q].scope == records[q].scope && forall now: nat :: K.Ended(records[q], now) ==> K.Ended(after[q], now))
  {
  }

  /** Only a guest's key request, or a clock that goes back, brings a session to life. */
  lemma OnlyRequestsRevive(w: World, s: State, t: State, package: Hash, q: K.Path)
    requires Step(w, s, t) && t.store.owners == s.store.owners
    requires q !in Live(s, package) && q in Live(t, package)
    ensures GuestRequests(w, s, t) || t.now < s.now
  {
    LiveIs(s, package, q);
    LiveIs(t, package, q);
    if !WorldStep(w, s, t) {
      CallsLeaveRecords(w, s, t);
    } else {
      hide Step, Live, AfterKeyRequest, AfterStop, K.Restart;
      RestartRevivesNothing(s.records, q);
      if OwnerStops(w, s, t) {
        var o, numbered, answer, at :| t == s.(records := AfterStop(w, s.records, o, numbered, answer, at));
        StopRevivesNothing(w, s.records, o, numbered, answer, at, q);
      }
    }
  }

  /** At step `x` session `q` came alive, and it stayed so until `i`. */
  ghost predicate CameAlive(w: World, states: seq<State>, x: nat, i: nat, package: Hash, q: K.Path)
    requires x < i < |states|
  {
    && q !in Live(states[x], package)
    && (forall y :: x < y <= i ==> q in Live(states[y], package))
    && (GuestRequests(w, states[x], states[x + 1]) || states[x + 1].now < states[x].now)
  }

  /** From `from` to `to` no package changed hands. */
  predicate SameOwners(states: seq<State>, from: nat, to: nat)
    requires to < |states|
  {
    forall y :: from <= y <= to ==> states[y].store.owners == states[to].store.owners
  }

  lemma {:induction false} LastComing(w: World, states: seq<State>, from: nat, i: nat, to: nat, package: Hash, q: K.Path) returns (x: nat)
    requires Run(w, states) && from <= i <= to < |states| && SameOwners(states, from, to)
    requires q !in Live(states[from], package) && forall y :: i <= y <= to ==> q in Live(states[y], package)
    ensures from <= x < i && CameAlive(w, states, x, to, package, q)
    decreases i
  {
    hide Live, Step;
    assert from < i;
    assert Step(w, states[i - 1], states[i - 1 + 1]);
    if q in Live(states[i - 1], package) {
      x := LastComing(w, states, from, i - 1, to, package, q);
    } else {
      x := i - 1;
      OnlyRequestsRevive(w, states[i - 1], states[i], package, q);
    }
  }

  lemma {:induction false} LogGrows(w: World, states: seq<State>, x: nat, y: nat)
    requires Run(w, states) && x <= y < |states|
    ensures states[x].log <= states[y].log
  {
    hide Step;
    if x < y {
      LogGrows(w, states, x, y - 1);
      assert Step(w, states[y - 1], states[y - 1 + 1]);
      StepTells(w, states[y - 1], states[y]);
    }
  }

  /** As long as no commit is logged, the owners stay. */
  lemma {:induction false} OwnersStay(w: World, states: seq<State>, x: nat, y: nat)
    requires Run(w, states) && x <= y < |states| && Undisturbed(states[y].log, |states[x].log|, |states[y].log|)
    ensures states[x].store.owners == states[y].store.owners
    decreases y - x
  {
    hide Step;
    if x < y {
      assert Step(w, states[x], states[x + 1]);
      StepTells(w, states[x], states[x + 1]);
      LogGrows(w, states, x + 1, y);
      OwnersStay(w, states, x + 1, y);
    }
  }

  /** In the step from state `x` call `p` looked, and up to state `i` that look is still on record as its last. */
  predicate LookedLast(states: seq<State>, x: nat, i: nat, p: Pid)
    requires x < i < |states|
  {
    var log, n := states[i].log, |states[x].log|;
    && n < |log| && |states[x + 1].log| == n + 1
    && LastGuard(log, p).Some? && log[n] == Guarded(p, LastGuard(log, p).value.0, ViewOf(states[x]))
  }

  /** Where the removing call looked: it saw no live session, and no package changed hands since. */
  lemma RemovalLooked(w: World, states: seq<State>, i: nat, p: Pid, op: Op) returns (x: nat)
    requires Run(w, states) && i + 1 < |states| && CommitUninstall(states[i], states[i + 1], p, op) && op.guarded
    ensures x < i && LookedLast(states, x, i, p)
    ensures SameOwners(states, x, i) && Live(states[x], Resolve(states[i].store, op.target).hash) == {}
  {
    hide Run, Live, Resolve, Clear, Step;
    var s := states[i];
    var h := Resolve(s.store, op.target).hash;
    EveryCommitIsJustified(w, states, i);
    assert ThreadInv(w, s, p) && Covers(LastGuard(s.log, p), h);
    var j := LastGuardIs(s.log, p);
    x := GuardSawTheState(w, states, i, j);
    ClearIsLive(states[x], h);
    forall y | x <= y <= i ensures states[y].store.owners == s.store.owners {
      LogGrows(w, states, x, y);
      LogGrows(w, states, y, i);
      OwnersStay(w, states, y, i);
    }
  }

  /**
   An unforced removal takes the package from under session `q` exactly when `q` came alive after
   the call looked, by a guest's key request or by a clock that went back, and is still alive.
   */
  lemma RemovalStrandsExactly(w: World, states: seq<State>, i: nat, p: Pid, op: Op, q: K.Path) returns (x: nat)
    requires Run(w, states) && i + 1 < |states| && CommitUninstall(states[i], states[i + 1], p, op) && op.guarded
    ensures var h := Resolve(states[i].store, op.target).hash;
      && x < i && LookedLast(states, x, i, p) && Live(states[x], h) == {}
      && (q in Live(states[i], h) <==> exists y :: x <= y < i && CameAlive(w, states, y, i, h, q))
  {
    hide Run, Live, Resolve, Step, LookedLast;
    x := RemovalLooked(w, states, i, p, op);
    var h := Resolve(states[i].store, op.target).hash;
    if q in Live(states[i], h) {
      var y := LastComing(w, states, x, i, i, h, q);
    }
  }

  /** A key request that Broker lets begin a custody ceremony. */
  predicate Begins(q: K.Request, b: K.Broker) {
    b.prepareCustody.Some? && b.prepareCustody.value.keyDerive && b.prepareCustody.value.operation == q.scope.custodyOperation
  }

  function Before(name: Name, h: Hash, now: nat): (s: State) {
    State(Store(map[name := h], {h}, map[]), map[], now, None, None, 0, map[], [])
  }

  function Looked(name: Name, h: Hash, now: nat): (s: State) {
    var op := Uninstall(FullHash(h), true);
    var s := Before(name, h, now);
    s.(lock := Some(0), threads := map[0 := Thread(op, Holding(1))], log := [Guarded(0, h, ViewOf(s))])
  }

  lemma RemovalLooks(w: World, name: Name, h: Hash, now: nat) returns (states: seq<State>)
    ensures Run(w, states) && |states| == 4 && states[0] == Before(name, h, now) && states[3] == Looked(name, h, now)
    ensures forall i :: 0 <= i < 4 ==> states[i].now == now
  {
    hide WorldStep;
    var op := Uninstall(FullHash(h), true);
    var s0 := Before(name, h, now);
    var s1 := s0.(threads := map[0 := Thread(op, Waiting)]);
    var s2 := s0.(lock := Some(0), threads := map[0 := Thread(op, Holding(0))]);
    var s3 := Looked(name, h, now);
    assert Spawn(s0, s1, 0, op);
    assert Acquire(s1, s2, 0, op);
    assert Clear(ViewOf(s2), h);
    assert ViewOf(s2) == ViewOf(s0);
    assert CheckUninstall(s2, s3, 0, op);
    assert ThreadStep(w, s0, s1, 0, op, 0) && ThreadStep(w, s1, s2, 0, op, 0) && ThreadStep(w, s2, s3, 0, op, 0);
    states := [s0, s1, s2, s3];
  }

  /** The record a first key request of a package writes is a pending session of it. */
  lemma FirstRequestIsLive(w: World, s: State, q: K.Request, b: K.Broker, h: Hash)
    requires s.records == map[] && h in s.store.owners.Values && q.scope.package == h && Begins(q, b)
    ensures var t := s.(records := AfterKeyRequest(w, s.records, K.Admitted(q), b, s.now)); q.path in Live(t, h)
  {
    var t := s.(records := AfterKeyRequest(w, s.records, K.Admitted(q), b, s.now));
    assert t.records == map[q.path := K.FreshRecord(w.hashes, q, b.prepareCustody.value, s.now)];
    LiveIs(t, h, q.path);
  }

  lemma RunSnoc(w: World, states: seq<State>, t: State)
    requires Run(w, states) && Step(w, states[|states| - 1], t)
    ensures Run(w, states + [t])
  {
    hide Step;
    var longer := states + [t];
    forall i | 0 <= i < |longer| - 1 ensures Step(w, longer[i], longer[i + 1]) {
      if i < |states| - 1 {
        assert longer[i] == states[i] && longer[i + 1] == states[i + 1];
      }
    }
  }

  lemma LateGuest(w: World, name: Name, h: Hash, now: nat, q: K.Request, b: K.Broker) returns (s4: State, s5: State, s6: State)
    requires q.scope.package == h && Begins(q, b)
    ensures Step(w, Looked(name, h, now), s4) && Step(w, s4, s5) && Step(w, s5, s6)
    ensures s4.now == s5.now == now && q.path in Live(s6, h)
    ensures s6 == Looked(name, h, now).(records := s6.records)
  {
    var s3 := Looked(name, h, now);
    s4 := s3.(guests := 1);
    s5 := s4.(records := AfterKeyRequest(w, s4.records, K.Admitted(q), b, now));
    s6 := s5.(guests := 0);
    assert s3.store.owners[name] == h;
    FirstRequestIsLive(w, s3, q, b, h);
    hide Live, AfterKeyRequest, ThreadStep;
    assert s6 == s3.(records := AfterKeyRequest(w, s3.records, K.Admitted(q), b, s3.now));
    assert GuestEnters(s3, s4) && GuestRequests(w, s4, s5) && GuestLeaves(s5, s6);
  }

  lemma LateRemoval(w: World, name: Name, h: Hash, now: nat, s: State) returns (t: State)
    requires s == Looked(name, h, now).(records := s.records)
    ensures CommitUninstall(s, t, 0, Uninstall(FullHash(h), true)) && Step(w, s, t) && t.now == now
  {
    hide WorldStep, Without;
    var op := Uninstall(FullHash(h), true);
    t := Leave(s, 0).(store := Store(Without(s.store.owners, h), s.store.packages - {h}, Without(s.store.petnames, h)),
                      log := s.log + [Removed(0, op, h)]);
    assert CommitUninstall(s, t, 0, op);
    assert ThreadStep(w, s, t, 0, op, 0);
  }

  /** A guest that comes and goes between look and removal leaves a pending session behind, and the package goes all the same. */
  lemma RemovalStrands(w: World, name: Name, h: Hash, now: nat, q: K.Request, b: K.Broker) returns (states: seq<State>)
    requires q.scope.package == h && Begins(q, b)
    ensures Run(w, states) && |states| == 8 && states[0] == Before(name, h, now) && ClockNeverBack(states)
    ensures CommitUninstall(states[6], states[7], 0, Uninstall(FullHash(h), true)) && q.path in Live(states[6], h)
  {
    hide Run, Live, Step, Before, Looked, CommitUninstall;
    var first := RemovalLooks(w, name, h, now);
    var s4, s5, s6 := LateGuest(w, name, h, now, q, b);
    var s7 := LateRemoval(w, name, h, now, s6);
    RunSnoc(w, first, s4);
    RunSnoc(w, first + [s4], s5);
    RunSnoc(w, first + [s4] + [s5], s6);
    RunSnoc(w, first + [s4] + [s5] + [s6], s7);
    states := first + [s4] + [s5] + [s6] + [s7];
    assert s6.now == first[3].now;
    assert forall i :: 0 <= i < |states| ==> states[i].now == now;
  }
}
