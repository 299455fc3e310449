/** That the package lock lets every call through that nothing speaks against: undisturbed, each one commits. */
module PackageProgress {
  import opened Bytes
  import opened MutationLock
  import opened PackageChanges
  import SessionGuard
  import K = PetalKeys

  /** Nobody holds the lock or the gate, no guest runs, and call `p` is new. */
  predicate Alone(s: State, p: Pid) {
    s.lock.None? && s.gate.None? && s.guests == 0 && p !in s.threads
  }

  /** No name owns the package, or every session of it was stopped or has expired. */
  predicate Free(s: State, package: Hash) {
    package !in s.store.owners.Values || AllEnded(ViewOf(s), package)
  }

  /** `t` is `s` as far as the store, the records and the clock are concerned. */
  predicate SameWorld(s: State, t: State) {
    t.store == s.store && t.records == s.records && t.now == s.now
  }

  ghost predicate Holds(w: World, states: seq<State>, s: State, p: Pid, op: Op, k: nat) {
    && Run(w, states) && var t := Last(states);
       && SameWorld(s, t) && At(t, p, op, Holding(k)) && t.lock == Some(p) && t.guests == 0
       && t.gate == if op.Install? && k > 1 then Some(p) else None
  }

  function Last(states: seq<State>): (s: State)
    requires states != []
  {
    states[|states| - 1]
  }

  lemma Extend(w: World, states: seq<State>, t: State, p: Pid, op: Op, k: nat)
    requires Run(w, states) && ThreadStep(w, Last(states), t, p, op, k)
    ensures Run(w, states + [t]) && Last(states + [t]) == t
  {
    hide ThreadStep, WorldStep;
    SessionGuard.RunSnoc(w, states, t);
  }

  /** The call arrives and takes the lock. */
  lemma Enters(w: World, states: seq<State>, p: Pid, op: Op) returns (more: seq<State>)
    requires Run(w, states) && Alone(Last(states), p)
    ensures states <= more && Holds(w, more, Last(states), p, op, 0)
  {
    assert states != [];
    hide Run;
    var s := Last(states);
    var s1 := s.(threads := s.threads[p := Thread(op, Waiting)]);
    assert Spawn(s, s1, p, op);
    Extend(w, states, s1, p, op, 0);
    var s2 := Move(s1, p, Holding(0)).(lock := Some(p));
    assert Acquire(s1, s2, p, op);
    Extend(w, states + [s1], s2, p, op, 0);
    more := states + [s1] + [s2];
  }

  /** The state after a check that a package nothing speaks for passes. */
  function Passed(s: State, p: Pid, package: Option<Hash>, k: nat): (t: State)
    requires p in s.threads
  {
    Move(if package.Some? then s.(log := s.log + [Guarded(p, package.value, ViewOf(s))]) else s, p, Holding(k + 1))
  }

  function Asked(s: State, op: Op): (package: Option<Hash>) {
    if op.Install? && op.guarded && op.name in s.store.owners then Some(s.store.owners[op.name]) else None
  }

  /** Nothing speaks against the install. */
  predicate Welcome(s: State, op: Op) {
    && op.Install? && (op.expected.Some? ==> op.expected.value == Owner(s.store, op.name))
    && (op.guarded && op.name in s.store.owners ==> Free(s, s.store.owners[op.name]))
  }

  lemma WelcomeAsLong(s: State, t: State, op: Op)
    requires SameWorld(s, t) && Welcome(s, op)
    ensures Welcome(t, op)
  {
  }

  lemma CheckPasses(s: State, p: Pid, op: Op, k: nat)
    requires Welcome(s, op) && At(s, p, op, Holding(k)) && k < 4 && (k > 0 ==> s.gate == Some(p))
    ensures CheckInstall(s, Passed(s, p, Asked(s, op), k), p, op, k)
  {
    hide Clear;
    if Asked(s, op).Some? {
      ClearMeans(ViewOf(s), Asked(s, op).value);
    }
  }

  lemma GateIsTaken(w: World, states: seq<State>, s: State, p: Pid, op: Op) returns (more: seq<State>)
    requires op.Install? && Holds(w, states, s, p, op, 1)
    ensures states <= more && Run(w, more) && more != [] && Last(more) == Last(states).(gate := Some(p))
  {
    assert states != [];
    hide Run;
    var t := Last(states);
    assert TakeGate(t, t.(gate := Some(p)), p, op);
    Extend(w, states, t.(gate := Some(p)), p, op, 0);
    more := states + [t.(gate := Some(p))];
  }

  lemma InstallPasses(w: World, states: seq<State>, s: State, p: Pid, op: Op, k: nat) returns (more: seq<State>)
    requires k < 4 && Holds(w, states, s, p, op, k) && Welcome(s, op)
    ensures states <= more && Holds(w, more, s, p, op, k + 1)
  {
    assert states != [];
    more := states;
    if k == 1 {
      more := GateIsTaken(w, states, s, p, op);
    }
    hide Run, CheckInstall, Welcome;
    var t := Last(more);
    WelcomeAsLong(s, t, op);
    CheckPasses(t, p, op, k);
    var u := Passed(t, p, Asked(t, op), k);
    assert ThreadStep(w, t, u, p, op, k);
    Extend(w, more, u, p, op, k);
    more := more + [u];
  }

  /** From any state of any run in which it meets no one, a welcome install comes to be, with its package in place. */
  lemma InstallCommits(w: World, states: seq<State>, p: Pid, op: Op) returns (more: seq<State>)
    requires Run(w, states) && Alone(Last(states), p) && Welcome(Last(states), op)
    ensures states <= more && Run(w, more) && more != [] && Installs(Last(states), Last(more), op)
    ensures var log := Last(more).log; log != [] && log[|log| - 1] == Installed(p, op, Owner(Last(states).store, op.name))
  {
    var s := Last(states);
    more := Enters(w, states, p, op);
    hide Welcome, Installs;
    more := InstallPasses(w, more, s, p, op, 0);
    more := InstallPasses(w, more, s, p, op, 1);
    more := InstallPasses(w, more, s, p, op, 2);
    more := InstallPasses(w, more, s, p, op, 3);
    var t := Last(more);
    var u := Leave(t, p).(store := t.store.(owners := t.store.owners[op.name := op.hash], packages := t.store.packages + {op.hash}),
                          log := t.log + [Installed(p, op, Owner(t.store, op.name))]);
    IsInstall(s, op);
    assert CommitInstall(t, u, p, op);
    InstalledBy(s, t, u, p, op);
    hide Run;
    Extend(w, more, u, p, op, 0);
    more := more + [u];
  }

  lemma IsInstall(s: State, op: Op)
    requires Welcome(s, op)
    ensures op.Install?
  {
  }

  lemma InstalledBy(s: State, t: State, u: State, p: Pid, op: Op)
    requires SameWorld(s, t) && CommitInstall(t, u, p, op)
    ensures Installs(s, u, op)
  {
  }

  /** The same for a removal of the package its target names. */
  lemma RemovalCommits(w: World, states: seq<State>, p: Pid, op: Op, h: Hash) returns (more: seq<State>)
    requires Run(w, states) && Alone(Last(states), p)
    requires op.Uninstall? && Names(Last(states).store, op.target, h) && (op.guarded ==> Free(Last(states), h))
    ensures states <= more && Run(w, more) && more != [] && Removes(Last(states), Last(more), op, h)
  {
    var s := Last(states);
    more := Enters(w, states, p, op);
    var t := Last(more);
    ResolveExactly(s.store, op.target, h);
    hide Run, Resolve, Names, Clear;
    ClearMeans(ViewOf(t), h);
    var u := Passed(t, p, if op.guarded then Some(h) else None, 0);
    assert CheckUninstall(t, u, p, op);
    Extend(w, more, u, p, op, 0);
    var v := Leave(u, p).(store := Store(Without(u.store.owners, h), u.store.packages - {h}, Without(u.store.petnames, h)),
                          log := u.log + [Removed(p, op, h)]);
    assert CommitUninstall(u, v, p, op);
    Extend(w, more + [u], v, p, op, 0);
    more := more + [u] + [v];
  }

  /** The daemon may restart in any state, and that clears the way for every new call. */
  lemma RestartFrees(w: World, s: State, p: Pid) returns (t: State)
    requires p !in s.threads
    ensures Step(w, s, t) && Alone(t, p) && t.store == s.store && t.now == s.now && t.log == s.log
    ensures t.threads.Keys == s.threads.Keys && forall o :: o in t.threads ==> t.threads[o].stage.Finished?
  {
    hide GuestRequests, OwnerStops;
    t := s.(records := K.Restart(K.Machine(s.records, [])).records, lock := None, gate := None, guests := 0,
            threads := map o | o in s.threads :: s.threads[o].(stage := Finished));
    assert DaemonRestarts(s, t);
  }

  /** A petname is set or taken away, and an inert read runs the package that owns the name at that moment. */
  lemma OtherCallsCommit(w: World, states: seq<State>, p: Pid, op: Op) returns (more: seq<State>)
    requires Run(w, states) && Alone(Last(states), p)
    requires op.SetPetname? || (op.ReadInert? && !w.effects(Owner(Last(states).store, op.name), op.route))
    ensures states <= more && Run(w, more) && more != []
    ensures op.SetPetname? ==> op.petHash == if op.name in Last(more).store.petnames then Some(Last(more).store.petnames[op.name]) else None
    ensures op.ReadInert? ==> var log := Last(more).log;
      log != [] && log[|log| - 1] == Executed(p, op, Owner(Last(states).store, op.name)) && Last(more).store == Last(states).store
  {
    more := Enters(w, states, p, op);
    var t := Last(more);
    hide Run;
    if op.SetPetname? {
      var u := Leave(t, p).(store := t.store.(petnames :=
        if op.petHash.Some? then t.store.petnames[op.name := op.petHash.value] else t.store.petnames - {op.name}));
      assert Rename(t, u, p, op);
      Extend(w, more, u, p, op, 0);
      more := more + [u];
    } else {
      var u := Move(t, p, Holding(1)).(log := t.log + [Classified(p, Owner(t.store, op.name))]);
      assert Classify(w, t, u, p, op);
      Extend(w, more, u, p, op, 0);
      var v := Leave(u, p).(log := u.log + [Executed(p, op, Owner(u.store, op.name))]);
      assert Execute(u, v, p, op);
      Extend(w, more + [u], v, p, op, 0);
      more := more + [u] + [v];
    }
  }
}
