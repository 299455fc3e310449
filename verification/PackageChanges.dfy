/**
 What each step of any party does to the package store, and whom every name belongs to after any
 history of installs and removals.
 */
module PackageChanges {
  import opened Bytes
  import opened MutationLock

  // ---- what an uninstall target names

  predicate StartsWith(h: Hash, text: string) {
    |text| <= |h| && forall i :: 0 <= i < |text| ==> h[i] == text[i]
  }

  predicate Abbreviates(store: Store, text: string, h: Hash) {
    h in store.packages && StartsWith(h, text)
  }

  /** A full hash names itself; other text the one package it abbreviates, else a Petal's package, else a petname's. */
  ghost predicate Names(store: Store, target: Target, h: Hash) {
    match target
    case FullHash(full) => h == full
    case Text(text, prefixLike) =>
      if prefixLike && exists g :: Abbreviates(store, text, g) then
        Abbreviates(store, text, h) && forall g :: Abbreviates(store, text, g) ==> g == h
      else if text in store.owners then h == store.owners[text]
      else text in store.petnames && h == store.petnames[text]
  }

  /** Two packages begin with the text. */
  ghost predicate Ambiguous(store: Store, target: Target) {
    target.Text? && target.prefixLike && exists g, h :: Abbreviates(store, target.text, g) && Abbreviates(store, target.text, h) && g != h
  }

  lemma PrefixIs(h: Hash, text: string)
    ensures StartsWith(h, text) <==> text <= h
  {
    if text <= h {
      assert h[..|text|] == text;
    }
  }

  lemma OneOrMore(s: set<Hash>)
    ensures |s| <= 1 <==> forall g, h :: g in s && h in s ==> g == h
  {
    if s != {} {
      var g :| g in s;
      if |s| == 1 {
        assert |s - {g}| == 0;
      } else {
        assert s != {g};
      }
    }
  }

  /** A target finds a package exactly if it names it, and is refused exactly if it abbreviates two. */
  lemma ResolveExactly(store: Store, target: Target, h: Hash)
    ensures Resolve(store, target) == Found(h) <==> Names(store, target, h)
    ensures Resolve(store, target).AmbiguousPrefix? <==> Ambiguous(store, target)
  {
    if target.Text? {
      var matches := set g | g in store.packages && target.text <= g;
      forall g ensures g in matches <==> Abbreviates(store, target.text, g) {
        PrefixIs(g, target.text);
      }
      hide Abbreviates;
      OneOrMore(matches);
      if matches != {} {
        var g :| g in matches;
      }
    }
  }

  // ---- one step

  /** What one removal of `h` leaves of a table of names. */
  ghost predicate Cleared(before: map<Name, Hash>, after: map<Name, Hash>, h: Hash) {
    forall n :: if n in before && before[n] != h then n in after && after[n] == before[n] else n !in after
  }

  /** At most the one name changed. */
  ghost predicate Only(before: map<Name, Hash>, after: map<Name, Hash>, name: Name) {
    forall n :: n != name ==> (n in after <==> n in before) && (n in before ==> after[n] == before[n])
  }

  ghost predicate Installs(s: State, t: State, op: Op) {
    && op.Install? && Only(s.store.owners, t.store.owners, op.name) && op.name in t.store.owners && t.store.owners[op.name] == op.hash
    && (forall h :: h in t.store.packages <==> h in s.store.packages || h == op.hash)
    && t.store.petnames == s.store.petnames
  }

  ghost predicate Removes(s: State, t: State, op: Op, h: Hash) {
    && op.Uninstall? && Names(s.store, op.target, h)
    && Cleared(s.store.owners, t.store.owners, h) && Cleared(s.store.petnames, t.store.petnames, h)
    && (forall g :: g in t.store.packages <==> g in s.store.packages && g != h)
  }

  /** A call by the holder of the lock gives a petname to a package or takes it from all. */
  ghost predicate Renames(s: State, t: State, p: Pid) {
    && s.lock == Some(p) && p in s.threads && s.threads[p].op.SetPetname?
    && t.store.owners == s.store.owners && t.store.packages == s.store.packages
    && var op := s.threads[p].op;
       && Only(s.store.petnames, t.store.petnames, op.name)
       && if op.petHash.Some? then op.name in t.store.petnames && t.store.petnames[op.name] == op.petHash.value else op.name !in t.store.petnames
  }

  /** A step that logs an install or a removal does just that; any other leaves the store alone or sets one petname. */
  ghost predicate ChangesAsTold(s: State, t: State) {
    if t.log != s.log && |t.log| == |s.log| + 1 && Mutates(t.log[|s.log|]) then
      var e := t.log[|s.log|];
      if e.Installed? then Installs(s, t, e.op) else Removes(s, t, e.op, e.package)
    else t.store == s.store || exists p :: Renames(s, t, p)
  }

  lemma CommitChanges(s: State, t: State, p: Pid, op: Op)
    requires CommitInstall(s, t, p, op) || CommitUninstall(s, t, p, op)
    ensures ChangesAsTold(s, t)
  {
    hide Resolve, Names;
    if CommitUninstall(s, t, p, op) {
      ResolveExactly(s.store, op.target, Resolve(s.store, op.target).hash);
    }
  }

  /** In every run, whatever step any party takes, the store changes as the log tells and in no other way. */
  lemma StoreChangesExactly(w: World, states: seq<State>, i: nat)
    requires Run(w, states) && i + 1 < |states|
    ensures ChangesAsTold(states[i], states[i + 1])
  {
    hide AfterKeyRequest, AfterStop, ChangesAsTold;
    var s, t := states[i], states[i + 1];
    assert Step(w, s, t);
    EveryCommitIsJustified(w, states, i);
    hide Run;
    if WorldStep(w, s, t) {
      StoreStays(s, t);
    } else {
      hide WorldStep;
      var p, op, k: nat :| ThreadStep(w, s, t, p, op, k);
      hide CommitInstall, CommitUninstall, CheckInstall, CheckUninstall, Rename, Resolve;
      if CommitInstall(s, t, p, op) || CommitUninstall(s, t, p, op) {
        CommitChanges(s, t, p, op);
      } else if Rename(s, t, p, op) {
        RenameChanges(w, s, t, p, op);
      } else {
        OthersLeaveStore(w, s, t, p, op, k);
      }
    }
  }

  lemma StoreStays(s: State, t: State)
    requires t.store == s.store && t.log == s.log
    ensures ChangesAsTold(s, t)
  {
  }

  lemma RenameChanges(w: World, s: State, t: State, p: Pid, op: Op)
    requires Inv(w, s) && Rename(s, t, p, op)
    ensures ChangesAsTold(s, t)
  {
    hide AllJustified, Prepared;
    assert ThreadInv(w, s, p);
    assert Renames(s, t, p);
  }

  lemma OthersLeaveStore(w: World, s: State, t: State, p: Pid, op: Op, k: nat)
    requires ThreadStep(w, s, t, p, op, k) && !CommitInstall(s, t, p, op) && !CommitUninstall(s, t, p, op) && !Rename(s, t, p, op)
    ensures ChangesAsTold(s, t)
  {
    hide CommitInstall, CommitUninstall, Rename, Resolve, Clear, ViewOf, Installs, Removes, Renames;
  }

  // ---- any history

  predicate Gives(e: Event, n: Name, h: Hash) {
    e.Installed? && e.op.Install? && e.op.name == n && e.op.hash == h
  }

  /** From `from` on, nothing gave the name away again or removed the package. */
  predicate Stands(log: seq<Event>, from: nat, n: Name, h: Hash) {
    forall j :: from <= j < |log| ==> !(log[j].Installed? && log[j].op.Install? && log[j].op.name == n) && !(log[j].Removed? && log[j].package == h)
  }

  ghost predicate Owns(start: map<Name, Hash>, log: seq<Event>, n: Name, h: Hash) {
    || (n in start && start[n] == h && Stands(log, 0, n, h))
    || exists i :: 0 <= i < |log| && Gives(log[i], n, h) && Stands(log, i + 1, n, h)
  }

  lemma StandsSnoc(log: seq<Event>, from: nat, n: Name, h: Hash)
    requires log != [] && from <= |log| - 1
    ensures var e := log[|log| - 1]; Stands(log, from, n, h) <==>
      Stands(log[..|log| - 1], from, n, h) && !(e.Installed? && e.op.Install? && e.op.name == n) && !(e.Removed? && e.package == h)
  {
    var front := log[..|log| - 1];
    assert forall j :: 0 <= j < |front| ==> front[j] == log[j];
    if Stands(log, from, n, h) {
      assert forall j :: from <= j < |front| ==> front[j] == log[j];
    }
  }

  lemma OwnsSnoc(start: map<Name, Hash>, log: seq<Event>, n: Name, h: Hash)
    requires log != []
    ensures var e := log[|log| - 1]; Owns(start, log, n, h) <==>
      || Gives(e, n, h)
      || (Owns(start, log[..|log| - 1], n, h) && !(e.Installed? && e.op.Install? && e.op.name == n) && !(e.Removed? && e.package == h))
  {
    var front := log[..|log| - 1];
    assert forall j :: 0 <= j < |front| ==> front[j] == log[j];
    assert Stands(log, |log|, n, h);
    forall from: nat | from <= |front| {
      StandsSnoc(log, from, n, h);
    }
    hide Stands, Gives;
  }

  lemma {:induction false} ReplayExactly(start: map<Name, Hash>, log: seq<Event>, n: Name, h: Hash)
    ensures n in Replay(start, log) && Replay(start, log)[n] == h <==> Owns(start, log, n, h)
  {
    if log != [] {
      ReplayExactly(start, log[..|log| - 1], n, h);
      OwnsSnoc(start, log, n, h);
      hide Owns;
    }
  }

  /**
   In every run a name belongs to a package exactly when the newest install under that name put the
   package there, or it stood there from the start, and the package was not removed since.
   */
  lemma OwnersExactly(w: World, states: seq<State>, i: nat, n: Name, h: Hash)
    requires Run(w, states) && i < |states|
    ensures n in states[i].store.owners && states[i].store.owners[n] == h <==> Owns(states[0].store.owners, states[i].log, n, h)
  {
    hide Run, Owns, Replay;
    LogIsTruthful(w, states, i);
    ReplayExactly(states[0].store.owners, states[i].log, n, h);
  }

  // ---- once only

  predicate Ends(e: Event, p: Pid) {
    (e.Installed? || e.Removed? || e.Executed?) && e.pid == p
  }

  /** A call whose end is logged is over, and no other end of it is logged. */
  ghost predicate OverOnce(s: State) {
    && (forall i :: 0 <= i < |s.log| && (s.log[i].Installed? || s.log[i].Removed? || s.log[i].Executed?) ==>
          s.log[i].pid in s.threads && s.threads[s.log[i].pid].stage.Finished?)
    && (forall i, j, p :: 0 <= i < j < |s.log| ==> !(Ends(s.log[i], p) && Ends(s.log[j], p)))
  }

  /** What a step may do to the threads and the log: nothing finished starts again, and an end is logged by a call that then is over. */
  predicate EndsProperly(s: State, t: State) {
    && (forall p :: p in s.threads ==> p in t.threads && (s.threads[p].stage.Finished? ==> t.threads[p].stage.Finished?))
    && (t.log == s.log || (|t.log| == |s.log| + 1 && t.log[..|s.log|] == s.log
         && (t.log[|s.log|].Installed? || t.log[|s.log|].Removed? || t.log[|s.log|].Executed? ==>
               var p := t.log[|s.log|].pid; p in s.threads && !s.threads[p].stage.Finished? && t.threads[p].stage.Finished?)))
  }

  lemma CommitsEndProperly(s: State, t: State, p: Pid, op: Op)
    requires CommitInstall(s, t, p, op) || CommitUninstall(s, t, p, op) || Execute(s, t, p, op)
    ensures EndsProperly(s, t)
  {
    hide Resolve, Without;
  }

  lemma ChecksEndProperly(w: World, s: State, t: State, p: Pid, op: Op, k: nat)
    requires CheckInstall(s, t, p, op, k) || CheckUninstall(s, t, p, op) || Classify(w, s, t, p, op)
    ensures EndsProperly(s, t)
  {
    hide Resolve, Clear, ViewOf;
  }

  lemma StepEndsProperly(w: World, s: State, t: State)
    requires Step(w, s, t)
    ensures EndsProperly(s, t)
  {
    hide AfterKeyRequest, AfterStop;
    if !WorldStep(w, s, t) {
      hide WorldStep, CheckInstall, CheckUninstall, Classify, CommitInstall, CommitUninstall, Execute;
      var p, op, k: nat :| ThreadStep(w, s, t, p, op, k);
      if CommitInstall(s, t, p, op) || CommitUninstall(s, t, p, op) || Execute(s, t, p, op) {
        CommitsEndProperly(s, t, p, op);
      } else if CheckInstall(s, t, p, op, k) || CheckUninstall(s, t, p, op) || Classify(w, s, t, p, op) {
        ChecksEndProperly(w, s, t, p, op, k);
      }
    }
  }

  lemma OnceKept(s: State, t: State)
    requires OverOnce(s) && EndsProperly(s, t)
    ensures OverOnce(t)
  {
    if t.log != s.log {
      assert forall i :: 0 <= i < |s.log| ==> t.log[i] == t.log[..|s.log|][i] == s.log[i];
    }
  }

  /** In every run a call installs, removes or executes at most once. */
  lemma {:induction false} CallsEndOnce(w: World, states: seq<State>, i: nat)
    requires Run(w, states) && i < |states|
    ensures OverOnce(states[i])
  {
    hide Step, EndsProperly;
    if i > 0 {
      CallsEndOnce(w, states, i - 1);
      assert Step(w, states[i - 1], states[i - 1 + 1]);
      StepEndsProperly(w, states[i - 1], states[i]);
      OnceKept(states[i - 1], states[i]);
    }
  }
}
