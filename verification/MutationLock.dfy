/**
 Package installs, uninstalls, petname changes and inert reads that share the IPC
 server's mutation lock, interleaved step by step with each other and with guests, whose
 key requests the store's execution gate shuts out while it is held for a change, and with
 session stops, restarts and the clock, which nothing shuts out.
 */
module MutationLock {
  import opened Bytes
  import K = PetalKeys

  type Pid = nat
  type Name = string
  type Hash = string

  /** An uninstall target: a full hash, or text tried as a hash prefix, a Petal name and a petname. */
  datatype Target = FullHash(hash: Hash) | Text(text: string, prefixLike: bool)

  /**
   `expected` is the owner an install was acquired for, if any; `guarded` says the
   session guard applies: it is wired in and the caller did not force.
   */
  datatype Op =
    | Install(name: Name, hash: Hash, expected: Option<Option<Hash>>, guarded: bool)
    | Uninstall(target: Target, guarded: bool)
    | SetPetname(name: Name, petHash: Option<Hash>)
    | ReadInert(name: Name, route: string)

  /** `Holding(n)` holds the lock with `n` checks passed. */
  datatype Stage = Waiting | Holding(passed: nat) | Finished

  datatype Thread = Thread(op: Op, stage: Stage)

  datatype Store = Store(owners: map<Name, Hash>, packages: set<Hash>, petnames: map<Name, Hash>)

  /** What the session guard looks at: the key records, the packages some name owns, and the clock. */
  datatype View = View(records: map<K.Path, K.Record>, installed: set<Hash>, now: nat)

  datatype Event =
    | Guarded(pid: Pid, package: Hash, view: View)
    | Installed(pid: Pid, op: Op, replaced: Option<Hash>)
    | Removed(pid: Pid, op: Op, package: Hash)
    | Classified(pid: Pid, owner: Option<Hash>)
    | Executed(pid: Pid, op: Op, owner: Option<Hash>)

  /** `gate` is the install that holds the execution gate for itself; `guests` counts the running guests that share it. */
  datatype State = State(
    store: Store, records: map<K.Path, K.Record>, now: nat,
    lock: Option<Pid>, gate: Option<Pid>, guests: nat, threads: map<Pid, Thread>, log: seq<Event>)

  /** Whether reading a route of a package has side effects, and the digests of key records. */
  datatype World = World(effects: (Option<Hash>, string) -> bool, hashes: K.Hashes)

  /** An install consults the guard once before it takes the gate and three times while it holds it. */
  const INSTALL_CHECKS: nat := 4

  function ViewOf(s: State): (v: View) {
    View(s.records, s.store.owners.Values, s.now)
  }

  /** The guard finds no active or pending session of the package. */
  predicate Clear(v: View, package: Hash) {
    K.ActiveSessions(v.installed, v.records, package, v.now) == {}
  }

  function Owner(store: Store, name: Name): (h: Option<Hash>)
  {
    if name in store.owners then Some(store.owners[name]) else None
  }

  datatype Resolution = AmbiguousPrefix | Nothing | Found(hash: Hash)

  ghost function Resolve(store: Store, target: Target): (r: Resolution)
  {
    match target
    case FullHash(h) => Found(h)
    case Text(text, prefixLike) =>
      var matches := set h | h in store.packages && text <= h;
      if prefixLike && |matches| > 1 then AmbiguousPrefix
      else if prefixLike && matches != {} then var h :| h in matches; Found(h)
      else if text in store.owners then Found(store.owners[text])
      else if text in store.petnames then Found(store.petnames[text])
      else Nothing
  }

  function Without(m: map<Name, Hash>, h: Hash): (m': map<Name, Hash>)
  {
    map n | n in m && m[n] != h :: m[n]
  }

  // ---- steps of one thread

  predicate At(s: State, p: Pid, op: Op, stage: Stage) {
    p in s.threads && s.threads[p] == Thread(op, stage)
  }

  function Move(s: State, p: Pid, stage: Stage): (t: State)
    requires p in s.threads
  {
    s.(threads := s.threads[p := s.threads[p].(stage := stage)])
  }

  /** Leaving releases the lock and the gate, whether the call succeeded or failed. */
  function Leave(s: State, p: Pid): (t: State)
    requires p in s.threads
  {
    Move(s, p, Finished).(lock := None, gate := None)
  }

  predicate Spawn(s: State, t: State, p: Pid, op: Op) {
    p !in s.threads && t == s.(threads := s.threads[p := Thread(op, Waiting)])
  }

  predicate Acquire(s: State, t: State, p: Pid, op: Op) {
    At(s, p, op, Waiting) && s.lock.None? && t == Move(s, p, Holding(0)).(lock := Some(p))
  }

  /** Cancellation, a failed activation check or any other error ends the call. */
  predicate Fail(s: State, t: State, p: Pid) {
    p in s.threads && s.threads[p].stage.Holding? && t == Leave(s, p)
  }

  /** The guard's answer about `package` is logged; an active or pending session refuses the call. */
  predicate Consult(s: State, t: State, p: Pid, package: Hash, passed: nat)
    requires p in s.threads
  {
    var logged := s.(log := s.log + [Guarded(p, package, ViewOf(s))]);
    t == if Clear(ViewOf(s), package) then Move(logged, p, Holding(passed)) else Leave(logged, p)
  }

  /** The gate is never waited for: with a guest running, the call fails instead. */
  predicate TakeGate(s: State, t: State, p: Pid, op: Op) {
    op.Install? && At(s, p, op, Holding(1)) && s.gate.None? && s.guests == 0 && t == s.(gate := Some(p))
  }

  predicate CheckInstall(s: State, t: State, p: Pid, op: Op, k: nat) {
    && op.Install? && At(s, p, op, Holding(k)) && k < INSTALL_CHECKS && (k > 0 ==> s.gate == Some(p))
    && (op.expected.Some? ==> op.expected.value == Owner(s.store, op.name))
    && if op.guarded && op.name in s.store.owners then Consult(s, t, p, s.store.owners[op.name], k + 1)
       else t == Move(s, p, Holding(k + 1))
  }

  predicate CommitInstall(s: State, t: State, p: Pid, op: Op) {
    && op.Install? && At(s, p, op, Holding(INSTALL_CHECKS))
    && t == Leave(s, p).(store := s.store.(owners := s.store.owners[op.name := op.hash],
                                           packages := s.store.packages + {op.hash}),
                         log := s.log + [Installed(p, op, Owner(s.store, op.name))])
  }

  ghost predicate CheckUninstall(s: State, t: State, p: Pid, op: Op) {
    && op.Uninstall? && At(s, p, op, Holding(0))
    && if op.guarded && Resolve(s.store, op.target).Found? then Consult(s, t, p, Resolve(s.store, op.target).hash, 1)
       else !(op.guarded && Resolve(s.store, op.target).AmbiguousPrefix?) && t == Move(s, p, Holding(1))
  }

  ghost predicate CommitUninstall(s: State, t: State, p: Pid, op: Op) {
    && op.Uninstall? && At(s, p, op, Holding(1)) && s.guests == 0 && Resolve(s.store, op.target).Found?
    && var h := Resolve(s.store, op.target).hash;
       t == Leave(s, p).(store := Store(Without(s.store.owners, h), s.store.packages - {h}, Without(s.store.petnames, h)),
                         log := s.log + [Removed(p, op, h)])
  }

  predicate Rename(s: State, t: State, p: Pid, op: Op) {
    && op.SetPetname? && At(s, p, op, Holding(0))
    && t == Leave(s, p).(store := s.store.(petnames :=
         if op.petHash.Some? then s.store.petnames[op.name := op.petHash.value] else s.store.petnames - {op.name}))
  }

  predicate Classify(w: World, s: State, t: State, p: Pid, op: Op) {
    && op.ReadInert? && At(s, p, op, Holding(0)) && !w.effects(Owner(s.store, op.name), op.route)
    && t == Move(s, p, Holding(1)).(log := s.log + [Classified(p, Owner(s.store, op.name))])
  }

  predicate Execute(s: State, t: State, p: Pid, op: Op) {
    && op.ReadInert? && At(s, p, op, Holding(1))
    && t == Leave(s, p).(log := s.log + [Executed(p, op, Owner(s.store, op.name))])
  }

  ghost predicate ThreadStep(w: World, s: State, t: State, p: Pid, op: Op, k: nat) {
    || Spawn(s, t, p, op) || Acquire(s, t, p, op) || Fail(s, t, p)
    || TakeGate(s, t, p, op) || CheckInstall(s, t, p, op, k) || CommitInstall(s, t, p, op)
    || CheckUninstall(s, t, p, op) || CommitUninstall(s, t, p, op)
    || Rename(s, t, p, op) || Classify(w, s, t, p, op) || Execute(s, t, p, op)
  }

  // ---- guests, owners, restarts and the clock

  function AfterKeyRequest(w: World, records: map<K.Path, K.Record>, a: K.Admission, b: K.Broker, now: nat): (r: map<K.Path, K.Record>) {
    K.KeyRequest(w.hashes, K.Machine(records, []), a, b, now).0.records
  }

  function AfterStop(w: World, records: map<K.Path, K.Record>, o: K.Path, numbered: bool, answer: Option<Option<seq<K.ApprovalStatus>>>, now: nat)
    : (r: map<K.Path, K.Record>)
  {
    if o in records then K.StopAt(w.hashes, K.Machine(records, []), o, numbered, answer, now).0.records else records
  }

  predicate GuestEnters(s: State, t: State) {
    s.gate.None? && t == s.(guests := s.guests + 1)
  }

  predicate GuestLeaves(s: State, t: State) {
    s.guests > 0 && t == s.(guests := s.guests - 1)
  }

  /** Only a running guest requests keys. */
  ghost predicate GuestRequests(w: World, s: State, t: State) {
    s.guests > 0 && exists a, b, now :: t == s.(records := AfterKeyRequest(w, s.records, a, b, now))
  }

  ghost predicate OwnerStops(w: World, s: State, t: State) {
    exists o, numbered, answer, now :: t == s.(records := AfterStop(w, s.records, o, numbered, answer, now))
  }

  /** The wall clock may also go back. */
  predicate ClockMoves(s: State, t: State) {
    t == s.(now := t.now)
  }

  /** A restart ends every call and every guest. */
  predicate DaemonRestarts(s: State, t: State) {
    t == s.(records := K.Restart(K.Machine(s.records, [])).records, lock := None, gate := None, guests := 0,
            threads := map p | p in s.threads :: s.threads[p].(stage := Finished))
  }

  ghost predicate WorldStep(w: World, s: State, t: State) {
    GuestEnters(s, t) || GuestLeaves(s, t) || GuestRequests(w, s, t) || OwnerStops(w, s, t) || ClockMoves(s, t) || DaemonRestarts(s, t)
  }

  ghost predicate Step(w: World, s: State, t: State) {
    WorldStep(w, s, t) || exists p, op, k: nat :: ThreadStep(w, s, t, p, op, k)
  }

  predicate Init(s: State) { s.lock.None? && s.gate.None? && s.guests == 0 && s.threads == map[] && s.log == [] }

  ghost predicate Run(w: World, states: seq<State>) {
    states != [] && Init(states[0]) && forall i :: 0 <= i < |states| - 1 ==> Step(w, states[i], states[i + 1])
  }

  // ---- what the log shows

  predicate Mutates(e: Event) { e.Installed? || e.Removed? }

  /** The last guard answer `p` got, if no package changed hands since. */
  function LastGuard(log: seq<Event>, p: Pid): (g: Option<(Hash, View)>)
  {
    if log == [] || Mutates(log[|log| - 1]) then None else
      var e := log[|log| - 1];
      if e.Guarded? && e.pid == p then Some((e.package, e.view)) else LastGuard(log[..|log| - 1], p)
  }

  /** The owner `p` last classified as inert, if no package changed hands since. */
  function LastClassified(log: seq<Event>, p: Pid): (c: Option<Option<Hash>>)
  {
    if log == [] || Mutates(log[|log| - 1]) then None else
      var e := log[|log| - 1];
      if e.Classified? && e.pid == p then Some(e.owner) else LastClassified(log[..|log| - 1], p)
  }

  /** A clear answer about `package`. */
  predicate Covers(g: Option<(Hash, View)>, package: Hash) {
    g.Some? && g.value.0 == package && Clear(g.value.1, package)
  }

  /** A clear answer about a package that was installed when it was given. */
  predicate CoversInstalled(g: Option<(Hash, View)>, package: Hash) {
    Covers(g, package) && package in g.value.1.installed
  }

  /** Whether an event was justified by what was logged before it. */
  predicate Justified(w: World, before: seq<Event>, e: Event) {
    match e
    case Installed(p, op, replaced) =>
      && op.Install?
      && (op.expected.Some? ==> op.expected.value == replaced)
      && (op.guarded && replaced.Some? ==> CoversInstalled(LastGuard(before, p), replaced.value))
    case Removed(p, op, package) =>
      op.Uninstall? && (op.guarded ==> Covers(LastGuard(before, p), package))
    case Executed(p, op, owner) =>
      op.ReadInert? && LastClassified(before, p) == Some(owner) && !w.effects(owner, op.route)
    case _ => true
  }

  predicate AllJustified(w: World, log: seq<Event>) {
    forall i :: 0 <= i < |log| ==> Justified(w, log[..i], log[i])
  }

  /** What a thread that holds the lock and has passed its checks may rely on. */
  ghost predicate Prepared(w: World, s: State, p: Pid, op: Op) {
    match op
    case Install(name, _, expected, guarded) =>
      && (expected.Some? ==> expected.value == Owner(s.store, name))
      && (guarded && name in s.store.owners ==> CoversInstalled(LastGuard(s.log, p), s.store.owners[name]))
    case Uninstall(target, guarded) =>
      guarded && Resolve(s.store, target).Found? ==> Covers(LastGuard(s.log, p), Resolve(s.store, target).hash)
    case SetPetname(_, _) => true
    case ReadInert(name, route) =>
      LastClassified(s.log, p) == Some(Owner(s.store, name)) && !w.effects(Owner(s.store, name), route)
  }

  ghost predicate ThreadInv(w: World, s: State, p: Pid)
    requires p in s.threads
  {
    s.threads[p].stage.Holding? ==>
      && s.lock == Some(p)
      && (s.threads[p].stage.passed > 0 ==> Prepared(w, s, p, s.threads[p].op))
      && (s.threads[p].stage.passed > 1 && s.threads[p].op.Install? ==> s.gate == Some(p))
  }

  /** The gate is held only by the call that holds the lock, and never while a guest runs. */
  predicate Gated(s: State) {
    s.gate.Some? ==> s.lock == s.gate && s.guests == 0
  }

  ghost predicate Inv(w: World, s: State) {
    && (forall p :: p in s.threads ==> ThreadInv(w, s, p))
    && AllJustified(w, s.log)
    && Gated(s)
  }

  // ---- preservation

  lemma LogSnoc(w: World, log: seq<Event>, e: Event)
    requires AllJustified(w, log) && Justified(w, log, e)
    ensures AllJustified(w, log + [e])
  {
    forall i | 0 <= i < |log + [e]| ensures Justified(w, (log + [e])[..i], (log + [e])[i]) {
      assert (log + [e])[..i] == log[..i];
    }
  }

  lemma LastSnoc(log: seq<Event>, e: Event, p: Pid)
    ensures !Mutates(e) ==>
      LastGuard(log + [e], p) == (if e.Guarded? && e.pid == p then Some((e.package, e.view)) else LastGuard(log, p))
    ensures !Mutates(e) ==>
      LastClassified(log + [e], p) == (if e.Classified? && e.pid == p then Some(e.owner) else LastClassified(log, p))
  {
    assert (log + [e])[..|log + [e]| - 1] == log;
  }

  /** Only the lock holder's own facts are at stake: no other thread holds anything. */
  lemma OthersIdle(w: World, s: State, t: State, p: Pid)
    requires Inv(w, s) && p in s.threads && s.lock == Some(p)
    requires t.threads.Keys == s.threads.Keys
    requires forall o :: o in s.threads && o != p ==> t.threads[o] == s.threads[o]
    requires p in t.threads && ThreadInv(w, t, p) && AllJustified(w, t.log) && Gated(t)
    ensures Inv(w, t)
  {
    forall o | o in t.threads ensures ThreadInv(w, t, o) {
      assert ThreadInv(w, s, o);
    }
  }

  lemma CheckInstallKeeps(w: World, s: State, t: State, p: Pid, op: Op, k: nat)
    requires Inv(w, s) && CheckInstall(s, t, p, op, k)
    ensures Inv(w, t)
  {
    hide AllJustified, LastGuard, LastClassified, Clear;
    assert ThreadInv(w, s, p);
    if op.guarded && op.name in s.store.owners {
      var e := Guarded(p, s.store.owners[op.name], ViewOf(s));
      LogSnoc(w, s.log, e);
      LastSnoc(s.log, e, p);
    }
    OthersIdle(w, s, t, p);
  }

  lemma CheckUninstallKeeps(w: World, s: State, t: State, p: Pid, op: Op)
    requires Inv(w, s) && CheckUninstall(s, t, p, op)
    ensures Inv(w, t)
  {
    hide AllJustified, LastGuard, LastClassified, Resolve, Clear;
    assert ThreadInv(w, s, p);
    var r := Resolve(s.store, op.target);
    if op.guarded && r.Found? {
      var e := Guarded(p, r.hash, ViewOf(s));
      LogSnoc(w, s.log, e);
      LastSnoc(s.log, e, p);
    }
    OthersIdle(w, s, t, p);
  }

  lemma ClassifyKeeps(w: World, s: State, t: State, p: Pid, op: Op)
    requires Inv(w, s) && Classify(w, s, t, p, op)
    ensures Inv(w, t)
  {
    hide AllJustified, LastGuard, LastClassified, Clear;
    assert ThreadInv(w, s, p);
    var e := Classified(p, Owner(s.store, op.name));
    LogSnoc(w, s.log, e);
    LastSnoc(s.log, e, p);
    OthersIdle(w, s, t, p);
  }

  lemma CommitKeeps(w: World, s: State, t: State, p: Pid, op: Op)
    requires Inv(w, s)
    requires CommitInstall(s, t, p, op) || CommitUninstall(s, t, p, op) || Execute(s, t, p, op) || Rename(s, t, p, op)
    ensures Inv(w, t)
  {
    hide AllJustified, LastGuard, LastClassified, Resolve, Clear;
    assert ThreadInv(w, s, p);
    if !Rename(s, t, p, op) {
      LogSnoc(w, s.log, t.log[|s.log|]);
    }
    OthersIdle(w, s, t, p);
  }

  lemma QuietKeeps(w: World, s: State, t: State, p: Pid, op: Op)
    requires Inv(w, s)
    requires Spawn(s, t, p, op) || Acquire(s, t, p, op) || Fail(s, t, p) || TakeGate(s, t, p, op)
    ensures Inv(w, t)
  {
    hide AllJustified, LastGuard, LastClassified, Resolve, Clear;
    forall o | o in t.threads ensures ThreadInv(w, t, o) {
      if o in s.threads {
        assert ThreadInv(w, s, o);
      }
      if p in s.threads {
        assert ThreadInv(w, s, p);
      }
    }
  }

  lemma WorldKeeps(w: World, s: State, t: State)
    requires Inv(w, s) && WorldStep(w, s, t)
    ensures Inv(w, t)
  {
    hide AllJustified, LastGuard, LastClassified, Resolve, Clear, AfterKeyRequest, AfterStop, K.Restart;
    forall o | o in t.threads ensures ThreadInv(w, t, o) {
      assert ThreadInv(w, s, o);
    }
  }

  lemma StepKeeps(w: World, s: State, t: State)
    requires Inv(w, s) && Step(w, s, t)
    ensures Inv(w, t)
  {
    hide Inv, WorldStep;
    if WorldStep(w, s, t) {
      WorldKeeps(w, s, t);
    } else {
      var p, op, k: nat :| ThreadStep(w, s, t, p, op, k);
      if CheckInstall(s, t, p, op, k) {
        CheckInstallKeeps(w, s, t, p, op, k);
      } else if CheckUninstall(s, t, p, op) {
        CheckUninstallKeeps(w, s, t, p, op);
      } else if Classify(w, s, t, p, op) {
        ClassifyKeeps(w, s, t, p, op);
      } else if Spawn(s, t, p, op) || Acquire(s, t, p, op) || Fail(s, t, p) || TakeGate(s, t, p, op) {
        QuietKeeps(w, s, t, p, op);
      } else {
        CommitKeeps(w, s, t, p, op);
      }
    }
  }

  /**
   In every interleaving each commit is covered: an install replaces only the owner it
   was acquired for; an unforced replace or uninstall follows a clear guard answer about
   the very package it takes away, with no change of packages in between; and an inert
   read executes only the package it classified.
   */
  lemma {:induction false} EveryCommitIsJustified(w: World, states: seq<State>, i: nat)
    requires Run(w, states) && i < |states|
    ensures Inv(w, states[i]) && AllJustified(w, states[i].log)
  {
    hide Step;
    if i > 0 {
      EveryCommitIsJustified(w, states, i - 1);
      assert Step(w, states[i - 1], states[i - 1 + 1]);
      StepKeeps(w, states[i - 1], states[i]);
    }
  }

  /** Every session of the package had been stopped or had expired. */
  predicate AllEnded(v: View, package: Hash) {
    forall q :: q in v.records && v.records[q].scope.package == package ==> K.Ended(v.records[q], v.now)
  }

  /** Between `j` and `k` no package changed hands. */
  predicate Undisturbed(log: seq<Event>, j: nat, k: nat) {
    k <= |log| && forall x :: j <= x < k ==> !Mutates(log[x])
  }

  lemma {:induction false} LastGuardIs(log: seq<Event>, p: Pid) returns (j: nat)
    requires LastGuard(log, p).Some?
    ensures j < |log| && log[j] == Guarded(p, LastGuard(log, p).value.0, LastGuard(log, p).value.1) && Undisturbed(log, j, |log|)
  {
    var n := |log| - 1;
    if log[n].Guarded? && log[n].pid == p {
      j := n;
    } else {
      j := LastGuardIs(log[..n], p);
      assert forall x :: 0 <= x < n ==> log[..n][x] == log[x];
    }
  }

  /** What commit `k` took away, if the session guard applied to it. */
  function TakenAway(e: Event): (package: Option<Hash>) {
    match e
    case Installed(_, op, replaced) => if op.Install? && op.guarded then replaced else None
    case Removed(_, op, package) => if op.Uninstall? && op.guarded then Some(package) else None
    case _ => None
  }

  /**
   The call looked before it took: before an unforced commit took a package away, that very call
   saw, with no change of packages since, that every session of the package had been stopped or
   had expired, or that no name owned the package any more.
   */
  lemma LookedBeforeTaking(w: World, states: seq<State>, i: nat, k: nat) returns (j: nat)
    requires Run(w, states) && i < |states| && k < |states[i].log| && TakenAway(states[i].log[k]).Some?
    ensures var log := states[i].log; var package := TakenAway(log[k]).value;
      && j < k && log[j].Guarded? && log[j].pid == log[k].pid && log[j].package == package && Undisturbed(log, j, k)
      && (package in log[j].view.installed ==> AllEnded(log[j].view, package))
      && (log[k].Installed? ==> package in log[j].view.installed)
  {
    hide Run, Inv, Clear;
    EveryCommitIsJustified(w, states, i);
    var log := states[i].log;
    var before, package := log[..k], TakenAway(log[k]).value;
    assert Justified(w, before, log[k]);
    j := LastGuardIs(before, log[k].pid);
    assert forall x :: 0 <= x < k ==> before[x] == log[x];
    ClearMeans(log[j].view, package);
  }

  lemma ClearMeans(v: View, package: Hash)
    ensures Clear(v, package) <==> package !in v.installed || AllEnded(v, package)
  {
    K.NoneActiveExactly(v.installed, v.records, package, v.now);
  }

  /** What a guard saw was the records, the owners and the time at the moment it looked. */
  lemma {:induction false} GuardSawTheState(w: World, states: seq<State>, i: nat, j: nat) returns (x: nat)
    requires Run(w, states) && i < |states| && j < |states[i].log| && states[i].log[j].Guarded?
    ensures x < i && |states[x].log| == j && |states[x + 1].log| == j + 1 && states[i].log[j].view == ViewOf(states[x])
  {
    hide Step;
    var s, t := states[i - 1], states[i - 1 + 1];
    assert i > 0 && Step(w, s, t);
    StepTells(w, s, t);
    if j < |s.log| {
      x := GuardSawTheState(w, states, i - 1, j);
    } else {
      x := i - 1;
    }
  }

  /** At most one call is inside the lock. */
  lemma MutualExclusion(w: World, states: seq<State>, i: nat, p: Pid, o: Pid)
    requires Run(w, states) && i < |states|
    requires p in states[i].threads && states[i].threads[p].stage.Holding?
    requires o in states[i].threads && states[i].threads[o].stage.Holding?
    ensures p == o
  {
    EveryCommitIsJustified(w, states, i);
    assert ThreadInv(w, states[i], p) && ThreadInv(w, states[i], o);
  }

  // ---- the log tells the truth about the store

  function Replayed(owners: map<Name, Hash>, e: Event): (owners': map<Name, Hash>)
  {
    if e.Installed? && e.op.Install? then owners[e.op.name := e.op.hash]
    else if e.Removed? then Without(owners, e.package)
    else owners
  }

  /** Owners after the logged changes, replayed from `start`. */
  function Replay(start: map<Name, Hash>, log: seq<Event>): (owners: map<Name, Hash>)
  {
    if log == [] then start else Replayed(Replay(start, log[..|log| - 1]), log[|log| - 1])
  }

  predicate TruthfulEvent(owners: map<Name, Hash>, e: Event) {
    && (e.Installed? ==> e.op.Install? && e.replaced == Owner(Store(owners, {}, map[]), e.op.name))
    && (e.Executed? ==> e.op.ReadInert? && e.owner == Owner(Store(owners, {}, map[]), e.op.name))
  }

  predicate Truthful(start: map<Name, Hash>, log: seq<Event>) {
    forall i :: 0 <= i < |log| ==> TruthfulEvent(Replay(start, log[..i]), log[i])
  }

  lemma TruthfulSnoc(start: map<Name, Hash>, log: seq<Event>, e: Event)
    requires Truthful(start, log) && TruthfulEvent(Replay(start, log), e)
    ensures Truthful(start, log + [e])
    ensures Replay(start, log + [e]) == Replayed(Replay(start, log), e)
  {
    hide TruthfulEvent;
    var longer := log + [e];
    assert longer[..|longer| - 1] == log;
    forall i | 0 <= i < |longer| ensures TruthfulEvent(Replay(start, longer[..i]), longer[i]) {
      assert longer[..i] == log[..i];
      assert i == |log| ==> log[..i] == log;
    }
  }

  /** At most one event is logged, true of what the step found and telling what it made of the owners. */
  predicate Tells(s: State, t: State) {
    if t.log == s.log then t.store.owners == s.store.owners else
      && |t.log| == |s.log| + 1 && t.log == s.log + [t.log[|s.log|]]
      && var e := t.log[|s.log|];
         && TruthfulEvent(s.store.owners, e) && t.store.owners == Replayed(s.store.owners, e)
         && (e.Guarded? ==> e.view == ViewOf(s))
  }

  lemma CheckTells(s: State, t: State, p: Pid, op: Op, k: nat)
    requires CheckInstall(s, t, p, op, k) || CheckUninstall(s, t, p, op)
    ensures Tells(s, t)
  {
    hide Resolve, Clear, ViewOf, Without;
  }

  lemma CommitTells(s: State, t: State, p: Pid, op: Op)
    requires CommitInstall(s, t, p, op) || CommitUninstall(s, t, p, op)
    ensures Tells(s, t)
  {
    hide Resolve, ViewOf, Without;
  }

  lemma StepTells(w: World, s: State, t: State)
    requires Step(w, s, t)
    ensures Tells(s, t)
  {
    hide AfterKeyRequest, AfterStop, K.Restart;
    if !WorldStep(w, s, t) {
      hide WorldStep, Resolve, ViewOf, Without, CheckInstall, CheckUninstall, CommitInstall, CommitUninstall;
      var p, op, k: nat :| ThreadStep(w, s, t, p, op, k);
      if CheckInstall(s, t, p, op, k) || CheckUninstall(s, t, p, op) {
        CheckTells(s, t, p, op, k);
      } else if CommitInstall(s, t, p, op) || CommitUninstall(s, t, p, op) {
        CommitTells(s, t, p, op);
      }
    }
  }

  lemma StepIsTruthful(w: World, start: map<Name, Hash>, s: State, t: State)
    requires Step(w, s, t)
    requires s.store.owners == Replay(start, s.log) && Truthful(start, s.log)
    ensures t.store.owners == Replay(start, t.log) && Truthful(start, t.log)
  {
    hide Replay, Truthful, Step, TruthfulEvent, Replayed, ViewOf;
    StepTells(w, s, t);
    if t.log != s.log {
      TruthfulSnoc(start, s.log, t.log[|s.log|]);
    }
  }

  /** "Replaced" and "executed" name the owner at that very moment, as the logged commits imply it. */
  lemma {:induction false} LogIsTruthful(w: World, states: seq<State>, i: nat)
    requires Run(w, states) && i < |states|
    ensures states[i].store.owners == Replay(states[0].store.owners, states[i].log)
    ensures Truthful(states[0].store.owners, states[i].log)
  {
    hide Step;
    if i > 0 {
      LogIsTruthful(w, states, i - 1);
      assert Step(w, states[i - 1], states[i - 1 + 1]);
      StepIsTruthful(w, states[0].store.owners, states[i - 1], states[i]);
    }
  }
}
