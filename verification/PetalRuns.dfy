/**
 Runs of key requests, stops and restarts over an initially empty record store, for
 every admission, every Broker answer and every clock. Calls do not overlap.
 */
module PetalRuns {
  import opened Bytes
  import opened PetalKeys

  datatype Call =
    | KeyCall(admission: Admission, broker: Broker, now: nat)
    | StopCall(request: StopRequest, answer: Option<Option<seq<ApprovalStatus>>>, at: nat)
    | RestartCall

  const EMPTY: Machine := Machine(map[], [])

  ghost function Apply(h: Hashes, m: Machine, c: Call): (m': Machine)
  {
    match c
    case KeyCall(a, b, now) => KeyRequest(h, m, a, b, now).0
    case StopCall(q, answer, now) => StopSession(h, m, q, answer, now).0
    case RestartCall => Restart(m)
  }

  ghost function RunFrom(h: Hashes, m: Machine, calls: seq<Call>): (m': Machine)
  {
    if calls == [] then m else Apply(h, RunFrom(h, m, calls[..|calls| - 1]), calls[|calls| - 1])
  }

  // ---- counting events

  function Custodies(log: seq<Event>, p: Path): (n: nat)
  {
    if log == [] then 0 else
      Custodies(log[..|log| - 1], p) + if log[|log| - 1].CustodyRecorded? && log[|log| - 1].path == p then 1 else 0
  }

  function Approvals(log: seq<Event>, p: Path): (n: nat)
  {
    if log == [] then 0 else
      var e := log[|log| - 1];
      Approvals(log[..|log| - 1], p) + if e.ApprovalRecorded? && e.path == p then 1 else 0
  }

  function Restarts(log: seq<Event>): (n: nat)
  {
    if log == [] then 0 else Restarts(log[..|log| - 1]) + if log[|log| - 1].Restarted? then 1 else 0
  }

  predicate Prepares(e: Event, p: Path) {
    (e.CustodyRecorded? || e.ApprovalRecorded?) && e.path == p
  }

  /** The ceremony of the newest preparation, if it was made since the last restart. */
  function Standing(log: seq<Event>, p: Path): (url: Option<string>)
  {
    if log == [] || log[|log| - 1].Restarted? then None
    else if Prepares(log[|log| - 1], p) then Some(log[|log| - 1].url)
    else Standing(log[..|log| - 1], p)
  }

  lemma CountSnoc(log: seq<Event>, e: Event, p: Path)
    ensures Custodies(log + [e], p) == Custodies(log, p) + if e.CustodyRecorded? && e.path == p then 1 else 0
    ensures Approvals(log + [e], p) == Approvals(log, p) + if e.ApprovalRecorded? && e.path == p then 1 else 0
    ensures Restarts(log + [e]) == Restarts(log) + if e.Restarted? then 1 else 0
    ensures Standing(log + [e], p) == if e.Restarted? then None else if Prepares(e, p) then Some(e.url) else Standing(log, p)
  {
    assert (log + [e])[..|log + [e]| - 1] == log;
  }

  // ---- the invariant of one path

  ghost predicate Backed(h: Hashes, r: Record, log: seq<Event>, p: Path)
    requires r.publicKey.Some? && r.approvalId.Some?
  {
    exists terms, url ::
      && ApprovalRecorded(p, terms, url) in log
      && h.approvalId(terms) == r.approvalId.value
      && r.authorityExpiresAtMs == Some(terms.expiresAtMs)
      && terms.keyRef == r.publicKey.value.keyRef
  }

  ghost predicate RevokesAgree(h: Hashes, r: Record, log: seq<Event>, p: Path) {
    forall e :: e in log && e.RevokeSent? && e.path == p ==>
      r.publicKey.Some? && e.operation == StopOperation(h, r, e.numbered)
  }

  predicate Budgeted(r: Record, log: seq<Event>, p: Path) {
    && Custodies(log, p) <= Restarts(log) + (if r.status == INVALIDATED && r.publicKey.None? then 0 else 1)
    && Approvals(log, p) <= Restarts(log) + (if r.status == INVALIDATED then 0 else 1)
    && (r.publicKey.None? ==> Approvals(log, p) == 0)
  }

  predicate WellFormed(h: Hashes, r: Record) {
    && r.schema == SCHEMA_V3 && Shape(r)
    && (r.publicKey.Some? <==> r.approvalId.Some?)
    && (r.approvalId.Some? <==> r.authorityExpiresAtMs.Some?)
    && r.scopeDigest == h.scopeDigest(r.scope) && r.provenance.Some?
    && (r.stopped.Some? ==> r.publicKey.Some?)
  }

  ghost predicate RecordInv(h: Hashes, r: Record, log: seq<Event>, p: Path) {
    && WellFormed(h, r)
    && (r.approvalId.Some? ==> Backed(h, r, log, p))
    && (r.status == SUCCEEDED ==> StatusReported(p, r.approvalId.value, Active) in log)
    && RevokesAgree(h, r, log, p)
    && Budgeted(r, log, p)
    && (r.url.Some? ==> r.url == Standing(log, p))
  }

  ghost predicate Absent(log: seq<Event>, p: Path) {
    && Custodies(log, p) == 0 && Approvals(log, p) == 0
    && forall e :: e in log && e.RevokeSent? ==> e.path != p
  }

  ghost predicate PathInv(h: Hashes, m: Machine, p: Path) {
    if p in m.records then RecordInv(h, m.records[p], m.log, p) else Absent(m.log, p)
  }

  ghost predicate Inv(h: Hashes, m: Machine) {
    forall p: Path :: PathInv(h, m, p)
  }

  // ---- what no call may change

  predicate Keeps(r: Record, r': Record) {
    && r'.scopeDigest == r.scopeDigest && r'.provenance == r.provenance && r'.keySlot == r.keySlot
    && (r.publicKey.Some? ==> r'.publicKey == r.publicKey && r'.scope == r.scope)
    && (IsStopped(r) ==> r'.stopped == r.stopped)
  }

  ghost predicate Kept(m: Machine, m': Machine) {
    forall p :: p in m.records ==> p in m'.records && Keeps(m.records[p], m'.records[p])
  }

  // ---- one event at a time

  /** An event that concerns no count or revocation of `p` leaves its record's invariant alone. */
  lemma Unconcerned(h: Hashes, r: Record, log: seq<Event>, e: Event, p: Path)
    requires RecordInv(h, r, log, p)
    requires e.StatusReported? || (!e.Restarted? && e.path != p)
    ensures RecordInv(h, r, log + [e], p)
  {
    hide Custodies, Approvals, Restarts, Standing;
    CountSnoc(log, e, p);
    if r.approvalId.Some? {
      BackedStays(h, r, log, e, p);
    }
  }

  lemma BackedStays(h: Hashes, r: Record, log: seq<Event>, e: Event, p: Path)
    requires r.publicKey.Some? && r.approvalId.Some? && Backed(h, r, log, p)
    ensures Backed(h, r, log + [e], p)
  {
    var terms, url :|
      && ApprovalRecorded(p, terms, url) in log
      && h.approvalId(terms) == r.approvalId.value
      && r.authorityExpiresAtMs == Some(terms.expiresAtMs)
      && terms.keyRef == r.publicKey.value.keyRef;
    assert ApprovalRecorded(p, terms, url) in log + [e];
  }

  lemma AbsentStays(log: seq<Event>, e: Event, p: Path)
    requires Absent(log, p)
    requires e.StatusReported? || e.Restarted? || e.path != p
    ensures Absent(log + [e], p)
  {
    hide Custodies, Approvals, Restarts, Standing;
    CountSnoc(log, e, p);
  }

  /** Writing one record with one event about it: only that path is left to check. */
  lemma WriteKeeps(h: Hashes, m: Machine, p: Path, r: Record, e: Event)
    requires Inv(h, m) && !e.Restarted? && e.path == p
    requires RecordInv(h, r, m.log + [e], p)
    ensures Inv(h, Write(m, p, r, e))
  {
    hide RecordInv, Absent;
    var m' := Write(m, p, r, e);
    forall o: Path ensures PathInv(h, m', o) {
      if o != p {
        assert PathInv(h, m, o);
        if o in m.records {
          Unconcerned(h, m.records[o], m.log, e, o);
        } else {
          AbsentStays(m.log, e, o);
        }
      }
    }
  }

  lemma ReportKeeps(h: Hashes, m: Machine, e: Event)
    requires Inv(h, m) && e.StatusReported?
    ensures Inv(h, m.(log := m.log + [e]))
  {
    hide RecordInv, Absent;
    var m' := m.(log := m.log + [e]);
    forall o: Path ensures PathInv(h, m', o) {
      assert PathInv(h, m, o);
      if o in m.records {
        Unconcerned(h, m.records[o], m.log, e, o);
      } else {
        AbsentStays(m.log, e, o);
      }
    }
  }

  // ---- the four ways a record is rewritten

  lemma SucceedKeeps(h: Hashes, r: Record, log: seq<Event>, p: Path, now: nat)
    requires RecordInv(h, r, log, p) && r.publicKey.Some?
    ensures var e := StatusReported(p, r.approvalId.value, Active);
            RecordInv(h, r.(status := SUCCEEDED, url := None, succeededAtMs := Some(now)), log + [e], p)
  {
    hide Custodies, Approvals, Restarts, Standing;
    var e := StatusReported(p, r.approvalId.value, Active);
    var r' := r.(status := SUCCEEDED, url := None, succeededAtMs := Some(now));
    CountSnoc(log, e, p);
    BackedStays(h, r, log, e, p);
    assert Backed(h, r', log + [e], p) by {
      BackedSame(h, r, r', log + [e], p);
    }
  }

  lemma BackedSame(h: Hashes, r: Record, r': Record, log: seq<Event>, p: Path)
    requires r.publicKey.Some? && r.approvalId.Some? && Backed(h, r, log, p)
    requires r'.publicKey == r.publicKey && r'.approvalId == r.approvalId && r'.authorityExpiresAtMs == r.authorityExpiresAtMs
    ensures Backed(h, r', log, p)
  {
  }

  lemma BindKeeps(h: Hashes, r: Record, log: seq<Event>, p: Path, key: KeyPublic, prepared: PreparedApproval, terms: Terms)
    requires RecordInv(h, r, log, p)
    requires prepared.id == h.approvalId(terms) && terms.keyRef == key.keyRef
    requires r.publicKey.None? || (r.publicKey == Some(key) && r.status == INVALIDATED)
    ensures RecordInv(h, BindApproval(r, key, prepared, terms), log + [ApprovalRecorded(p, terms, prepared.url)], p)
  {
    hide Custodies, Approvals, Restarts, Standing;
    var e := ApprovalRecorded(p, terms, prepared.url);
    var r' := BindApproval(r, key, prepared, terms);
    CountSnoc(log, e, p);
    assert e in log + [e];
    assert Backed(h, r', log + [e], p);
  }

  lemma FreshKeeps(h: Hashes, m: Machine, q: Request, prepared: PreparedCustody, now: nat)
    requires PathInv(h, m, q.path)
    requires q.path in m.records ==> m.records[q.path].publicKey.None? && m.records[q.path].status == INVALIDATED
    ensures RecordInv(h, FreshRecord(h, q, prepared, now), m.log + [CustodyRecorded(q.path, prepared.url)], q.path)
  {
    hide Custodies, Approvals, Restarts, Standing;
    CountSnoc(m.log, CustodyRecorded(q.path, prepared.url), q.path);
  }

  lemma StopKeeps(h: Hashes, r: Record, log: seq<Event>, p: Path, numbered: bool, stop: Option<StopRecord>)
    requires RecordInv(h, r, log, p) && r.publicKey.Some?
    ensures var e := RevokeSent(p, StopOperation(h, r, numbered), numbered);
            RecordInv(h, r.(stopped := stop), log + [e], p)
  {
    hide Custodies, Approvals, Restarts, Standing;
    var e := RevokeSent(p, StopOperation(h, r, numbered), numbered);
    CountSnoc(log, e, p);
    BackedStays(h, r, log, e, p);
    BackedSame(h, r, r.(stopped := stop), log + [e], p);
  }

  lemma RestartKeepsRecord(h: Hashes, r: Record, log: seq<Event>, p: Path)
    requires RecordInv(h, r, log, p)
    ensures RecordInv(h, Invalidate(r), log + [Restarted], p)
  {
    hide Custodies, Approvals, Restarts, Standing;
    CountSnoc(log, Restarted, p);
    if r.approvalId.Some? {
      BackedStays(h, r, log, Restarted, p);
      BackedSame(h, r, Invalidate(r), log + [Restarted], p);
    }
  }

  // ---- every call keeps the invariant and what must not change

  lemma StageApprovalKeeps(h: Hashes, m: Machine, key: KeyPublic, q: Request, b: Broker, now: nat)
    requires Inv(h, m) && q.path in m.records
    requires var r := m.records[q.path]; r.publicKey.None? || (r.publicKey == Some(key) && r.status == INVALIDATED)
    ensures var x := StageApproval(h, m, m.records[q.path], key, q, b, now);
            Inv(h, x.0) && Kept(m, x.0) && (x.1.Pending? ==> x.0.records[q.path].url.Some?) && !x.1.Ready?
  {
    hide RecordInv;
    assert PathInv(h, m, q.path);
    var prepared := PrepareApproval(h, q, key.keyRef, b, now);
    if prepared.Some? {
      BindKeeps(h, m.records[q.path], m.log, q.path, key, prepared.value.0, prepared.value.1);
      WriteKeeps(h, m, q.path, BindApproval(m.records[q.path], key, prepared.value.0, prepared.value.1),
                 ApprovalRecorded(q.path, prepared.value.1, prepared.value.0.url));
    }
    StaysWellFormed(h, m, q.path);
  }

  lemma StaysWellFormed(h: Hashes, m: Machine, p: Path)
    requires Inv(h, m) && p in m.records
    ensures WellFormed(h, m.records[p])
  {
    assert PathInv(h, m, p);
  }

  lemma StageCustodyKeeps(h: Hashes, m: Machine, q: Request, b: Broker, now: nat)
    requires Inv(h, m)
    requires q.path in m.records ==>
      m.records[q.path].publicKey.None? && m.records[q.path].status == INVALIDATED && SameTerms(h, m.records[q.path], q)
    ensures var x := StageCustody(h, m, q, b, now);
            Inv(h, x.0) && Kept(m, x.0) && (x.1.Pending? ==> q.path in x.0.records && x.0.records[q.path].url.Some?) && !x.1.Ready?
  {
    hide RecordInv;
    assert PathInv(h, m, q.path);
    if q.path in m.records {
      StaysWellFormed(h, m, q.path);
    }
    if StageCustody(h, m, q, b, now).1.Pending? {
      FreshKeeps(h, m, q, b.prepareCustody.value, now);
      WriteKeeps(h, m, q.path, FreshRecord(h, q, b.prepareCustody.value, now), CustodyRecorded(q.path, b.prepareCustody.value.url));
    }
  }

  lemma WithKeyKeeps(h: Hashes, m: Machine, q: Request, b: Broker, now: nat)
    requires Inv(h, m) && q.path in m.records && m.records[q.path].publicKey.Some?
    ensures var x := WithKey(h, m, m.records[q.path], q, b, now);
            Inv(h, x.0) && Kept(m, x.0) && (x.1.Pending? ==> x.0.records[q.path].url.Some?)
  {
    hide RecordInv, StageApproval, KeyRequest;
    var r := m.records[q.path];
    assert PathInv(h, m, q.path);
    StaysWellFormed(h, m, q.path);
    if b.status.Some? {
      var e := StatusReported(q.path, r.approvalId.value, b.status.value);
      ReportKeeps(h, m, e);
      if b.status.value.Active? {
        SucceedKeeps(h, r, m.log, q.path, now);
        WriteKeeps(h, m, q.path, r.(status := SUCCEEDED, url := None, succeededAtMs := Some(now)), e);
      } else if r.status == INVALIDATED {
        StageApprovalKeeps(h, m.(log := m.log + [e]), r.publicKey.value, q, b, now);
      }
    }
  }

  lemma WithoutKeyKeeps(h: Hashes, m: Machine, q: Request, b: Broker, now: nat)
    requires Inv(h, m) && q.path in m.records && m.records[q.path].publicKey.None? && SameTerms(h, m.records[q.path], q)
    ensures var x := WithoutKey(h, m, m.records[q.path], q, b, now);
            Inv(h, x.0) && Kept(m, x.0) && (x.1.Pending? ==> x.0.records[q.path].url.Some?)
  {
    hide RecordInv, StageApproval, StageCustody, Inv;
    StaysWellFormed(h, m, q.path);
    if b.custody.CustodyResult? && CustodyFits(q, b) {
      StageApprovalKeeps(h, m, b.key.value, q, b, now);
    }
    if b.custody.CustodyNotFound? && m.records[q.path].status == INVALIDATED {
      StageCustodyKeeps(h, m, q, b, now);
    }
  }

  /** A Pending answer that concerns a record leaves a ceremony URL advertised in it. */
  lemma KeyRequestKeeps(h: Hashes, m: Machine, a: Admission, b: Broker, now: nat)
    requires Inv(h, m)
    ensures var x := KeyRequest(h, m, a, b, now);
            && Inv(h, x.0) && Kept(m, x.0)
            && (a.Admitted? && x.1.Pending? ==>
                  a.request.path in x.0.records && x.0.records[a.request.path].url.Some?)
  {
    hide Inv, WithKey, WithoutKey, StageCustody;
    if a.Admitted? && !SlotTaken(m.records, a.request) {
      var q := a.request;
      if q.path !in m.records {
        StageCustodyKeeps(h, m, q, b, now);
      } else if SameTerms(h, m.records[q.path], q) {
        if m.records[q.path].publicKey.Some? {
          WithKeyKeeps(h, m, q, b, now);
        } else {
          WithoutKeyKeeps(h, m, q, b, now);
        }
      }
    }
  }

  lemma StopAtKeeps(h: Hashes, m: Machine, p: Path, numbered: bool, answer: Option<Option<seq<ApprovalStatus>>>, now: nat)
    requires Inv(h, m) && p in m.records
    ensures var x := StopAt(h, m, p, numbered, answer, now); Inv(h, x.0) && Kept(m, x.0)
  {
    hide RecordInv, AllTerminal;
    var r := m.records[p];
    assert PathInv(h, m, p);
    if r.publicKey.Some? && !IsStopped(r) && answer.Some? {
      var e := RevokeSent(p, StopOperation(h, r, numbered), numbered);
      if answer.value.None? {
        StopKeeps(h, r, m.log, p, numbered, r.stopped);
        WriteKeeps(h, m, p, r, e);
        assert m.records[p := r] == m.records;
      } else {
        var stop := Some(StopRecord(now, e.operation, answer.value.value, AllTerminal(answer.value.value)));
        StopKeeps(h, r, m.log, p, numbered, stop);
        WriteKeeps(h, m, p, r.(stopped := stop), e);
      }
    }
  }

  lemma RestartKeeps(h: Hashes, m: Machine)
    requires Inv(h, m)
    ensures Inv(h, Restart(m)) && Kept(m, Restart(m))
  {
    hide RecordInv, Absent;
    var m' := Restart(m);
    forall o: Path ensures PathInv(h, m', o) {
      assert PathInv(h, m, o);
      if o in m.records {
        RestartKeepsRecord(h, m.records[o], m.log, o);
      } else {
        AbsentStays(m.log, Restarted, o);
      }
    }
  }

  lemma ApplyKeeps(h: Hashes, m: Machine, c: Call)
    requires Inv(h, m)
    ensures Inv(h, Apply(h, m, c)) && Kept(m, Apply(h, m, c))
  {
    hide Inv, KeyRequest, StopAt, Restart, Kept;
    match c {
      case KeyCall(a, b, now) => KeyRequestKeeps(h, m, a, b, now);
      case StopCall(q, answer, now) =>
        KeptSelf(m);
        forall p | p in m.records
          ensures var x := StopAt(h, m, p, q.account.number > 0, answer, now); Inv(h, x.0) && Kept(m, x.0)
        {
          StopAtKeeps(h, m, p, q.account.number > 0, answer, now);
        }
      case RestartCall => RestartKeeps(h, m);
    }
  }

  lemma KeptSelf(m: Machine)
    ensures Kept(m, m)
  {
  }

  lemma KeptTrans(m0: Machine, m1: Machine, m2: Machine)
    requires Kept(m0, m1) && Kept(m1, m2)
    ensures Kept(m0, m2)
  {
  }

  lemma EmptyInv(h: Hashes)
    ensures Inv(h, EMPTY)
  {
  }

  lemma {:induction false} RunKeeps(h: Hashes, m: Machine, calls: seq<Call>)
    requires Inv(h, m)
    ensures Inv(h, RunFrom(h, m, calls)) && Kept(m, RunFrom(h, m, calls))
  {
    hide Inv, Kept, Apply;
    if calls == [] {
      KeptSelf(m);
    } else {
      var front := calls[..|calls| - 1];
      RunKeeps(h, m, front);
      ApplyKeeps(h, RunFrom(h, m, front), calls[|calls| - 1]);
      KeptTrans(m, RunFrom(h, m, front), RunFrom(h, m, calls));
    }
  }

  // ---- theorems over whole runs

  /** Every record is in an accepted shape, and a delegated key, an approval and an expiry come together. */
  lemma RecordsStayAccepted(h: Hashes, calls: seq<Call>, p: Path)
    requires p in RunFrom(h, EMPTY, calls).records
    ensures var r := RunFrom(h, EMPTY, calls).records[p];
            && r.schema == SCHEMA_V3 && Shape(r)
            && (r.publicKey.Some? <==> r.approvalId.Some?)
            && (r.approvalId.Some? <==> r.authorityExpiresAtMs.Some?)
  {
    EmptyInv(h);
    RunKeeps(h, EMPTY, calls);
    assert PathInv(h, RunFrom(h, EMPTY, calls), p);
  }

  /** What a record claims was earned: an Active report for its approval, an expiry taken from that approval's terms. */
  lemma AuthorityIsEarned(h: Hashes, calls: seq<Call>, p: Path)
    requires p in RunFrom(h, EMPTY, calls).records
    ensures var m := RunFrom(h, EMPTY, calls); var r := m.records[p];
            && (r.status == SUCCEEDED ==> r.approvalId.Some? && StatusReported(p, r.approvalId.value, Active) in m.log)
            && (r.approvalId.Some? ==> r.publicKey.Some? && Backed(h, r, m.log, p))
  {
    EmptyInv(h);
    RunKeeps(h, EMPTY, calls);
    assert PathInv(h, RunFrom(h, EMPTY, calls), p);
  }

  /** Once written, a record's digests stay; once bound, so does its delegated key. */
  lemma IdentityNeverChanges(h: Hashes, calls: seq<Call>, more: seq<Call>, p: Path)
    requires p in RunFrom(h, EMPTY, calls).records
    ensures var m := RunFrom(h, EMPTY, calls); var m' := RunFrom(h, m, more);
            p in m'.records && Keeps(m.records[p], m'.records[p])
  {
    EmptyInv(h);
    RunKeeps(h, EMPTY, calls);
    RunKeeps(h, RunFrom(h, EMPTY, calls), more);
  }

  function RestartCalls(calls: seq<Call>): (n: nat)
  {
    if calls == [] then 0 else
      RestartCalls(calls[..|calls| - 1]) + if calls[|calls| - 1].RestartCall? then 1 else 0
  }

  lemma StageAddsNoRestart(h: Hashes, m: Machine, r: Record, key: KeyPublic, q: Request, b: Broker, now: nat)
    ensures Restarts(StageApproval(h, m, r, key, q, b, now).0.log) == Restarts(m.log)
    ensures Restarts(StageCustody(h, m, q, b, now).0.log) == Restarts(m.log)
  {
    hide Restarts;
    if b.prepareCustody.Some? {
      CountSnoc(m.log, CustodyRecorded(q.path, b.prepareCustody.value.url), q.path);
    }
    var prepared := PrepareApproval(h, q, key.keyRef, b, now);
    if prepared.Some? {
      CountSnoc(m.log, ApprovalRecorded(q.path, prepared.value.1, prepared.value.0.url), q.path);
    }
  }

  lemma KeyRequestAddsNoRestart(h: Hashes, m: Machine, a: Admission, b: Broker, now: nat)
    ensures Restarts(KeyRequest(h, m, a, b, now).0.log) == Restarts(m.log)
  {
    hide Restarts, StageApproval, StageCustody;
    if a.Admitted? {
      var q := a.request;
      var none := KeyPublic(q.scope.parent, [], {});
      StageAddsNoRestart(h, m, FreshRecord(h, q, PreparedCustody(true, [], "", 0), now), none, q, b, now);
      if q.path in m.records {
        var r := m.records[q.path];
        if r.publicKey.Some? {
          StageAddsNoRestart(h, m, r, r.publicKey.value, q, b, now);
          if r.approvalId.Some? && b.status.Some? {
            var e := StatusReported(q.path, r.approvalId.value, b.status.value);
            CountSnoc(m.log, e, q.path);
            StageAddsNoRestart(h, m.(log := m.log + [e]), r, r.publicKey.value, q, b, now);
          }
        } else if b.key.Some? {
          StageAddsNoRestart(h, m, r, b.key.value, q, b, now);
        }
      }
    }
  }

  lemma ApplyCountsRestarts(h: Hashes, m: Machine, c: Call)
    ensures Restarts(Apply(h, m, c).log) == Restarts(m.log) + if c.RestartCall? then 1 else 0
  {
    hide Restarts, KeyRequest;
    match c {
      case KeyCall(a, b, now) => KeyRequestAddsNoRestart(h, m, a, b, now);
      case StopCall(q, answer, now) =>
        forall p | p in m.records && m.records[p].publicKey.Some? {
          CountSnoc(m.log, RevokeSent(p, StopOperation(h, m.records[p], q.account.number > 0), q.account.number > 0), p);
        }
      case RestartCall => CountSnoc(m.log, Restarted, []);
    }
  }

  lemma {:induction false} RunCountsRestarts(h: Hashes, calls: seq<Call>)
    ensures Restarts(RunFrom(h, EMPTY, calls).log) == RestartCalls(calls)
  {
    hide Apply;
    if calls != [] {
      RunCountsRestarts(h, calls[..|calls| - 1]);
      ApplyCountsRestarts(h, RunFrom(h, EMPTY, calls[..|calls| - 1]), calls[|calls| - 1]);
    }
  }

  /** However often a Petal retries, `n` restarts allow at most `1 + n` preparations of each kind per record. */
  lemma PreparationsBounded(h: Hashes, calls: seq<Call>, p: Path)
    ensures var log := RunFrom(h, EMPTY, calls).log;
            Custodies(log, p) <= 1 + RestartCalls(calls) && Approvals(log, p) <= 1 + RestartCalls(calls)
  {
    EmptyInv(h);
    RunKeeps(h, EMPTY, calls);
    RunCountsRestarts(h, calls);
    assert PathInv(h, RunFrom(h, EMPTY, calls), p);
  }

  // ---- Pending answers and restart

  /** In every run, a Pending answer leaves advertised the ceremony of the newest preparation, made since the last restart. */
  lemma PendingAdvertises(h: Hashes, calls: seq<Call>, q: Request, b: Broker, now: nat)
    ensures var x := KeyRequest(h, RunFrom(h, EMPTY, calls), Admitted(q), b, now);
            x.1.Pending? ==>
              q.path in x.0.records && x.0.records[q.path].url.Some? && x.0.records[q.path].url == Standing(x.0.log, q.path)
  {
    hide KeyRequest, RecordInv;
    EmptyInv(h);
    RunKeeps(h, EMPTY, calls);
    var m := RunFrom(h, EMPTY, calls);
    KeyRequestKeeps(h, m, Admitted(q), b, now);
    var x := KeyRequest(h, m, Admitted(q), b, now);
    assert PathInv(h, x.0, q.path);
    if x.1.Pending? {
      AdvertisesStanding(h, x.0, q.path);
    }
  }

  lemma AdvertisesStanding(h: Hashes, m: Machine, p: Path)
    requires PathInv(h, m, p) && p in m.records && m.records[p].url.Some?
    ensures m.records[p].url == Standing(m.log, p)
  {
  }

  predicate Waiting(state: ApprovalState) { state.Active? || state.Prepared? || state.AwaitingCeremony? }

  /** Broker still knows the approval, or lets the retired ceremony be staged afresh. */
  predicate Cooperates(h: Hashes, r: Record, q: Request, b: Broker, now: nat) {
    if r.publicKey.Some? then
      && b.status.Some? && Waiting(b.status.value)
      && (!b.status.value.Active? ==> PrepareApproval(h, q, r.publicKey.value.keyRef, b, now).Some?)
    else if b.custody.CustodyNotFound? then
      && b.prepareCustody.Some? && b.prepareCustody.value.keyDerive
      && b.prepareCustody.value.operation == q.scope.custodyOperation
    else
      CustodyFits(q, b) && PrepareApproval(h, q, b.key.value.keyRef, b, now).Some?
  }

  lemma RestageOutcome(h: Hashes, m: Machine, q: Request, b: Broker, now: nat)
    requires q.path in m.records && WellFormed(h, m.records[q.path]) && m.records[q.path].status == INVALIDATED
    requires SameTerms(h, m.records[q.path], q) && !SlotTaken(m.records, q)
    ensures var x := KeyRequest(h, m, Admitted(q), b, now);
            && (x.1.Denied? <==> !Cooperates(h, m.records[q.path], q, b, now))
            && (x.1.Pending? ==> x.0.records[q.path].url.Some? && x.0.records[q.path].status == AWAITING)
  {
    hide PrepareApproval, SlotTaken;
  }

  /** A record retired by a restart is turned away only by Broker: any other retry is Ready or advertises again. */
  lemma RestartStrandsNothing(h: Hashes, calls: seq<Call>, q: Request, b: Broker, now: nat)
    requires var m := RunFrom(h, EMPTY, calls);
             q.path in m.records && m.records[q.path].status == INVALIDATED
             && SameTerms(h, m.records[q.path], q) && !SlotTaken(m.records, q)
    ensures var m := RunFrom(h, EMPTY, calls); var x := KeyRequest(h, m, Admitted(q), b, now);
            && (x.1.Denied? <==> !Cooperates(h, m.records[q.path], q, b, now))
            && (x.1.Pending? ==> x.0.records[q.path].url.Some? && x.0.records[q.path].status == AWAITING)
  {
    hide KeyRequest, Cooperates;
    EmptyInv(h);
    RunKeeps(h, EMPTY, calls);
    StaysWellFormed(h, RunFrom(h, EMPTY, calls), q.path);
    RestageOutcome(h, RunFrom(h, EMPTY, calls), q, b, now);
  }

  // ---- stops

  function Revokes(log: seq<Event>, p: Path): (n: nat)
  {
    if log == [] then 0 else
      var e := log[|log| - 1];
      Revokes(log[..|log| - 1], p) + if e.RevokeSent? && e.path == p then 1 else 0
  }

  lemma RevokesSnoc(log: seq<Event>, e: Event, p: Path)
    ensures Revokes(log + [e], p) == Revokes(log, p) + if e.RevokeSent? && e.path == p then 1 else 0
  {
    assert (log + [e])[..|log + [e]| - 1] == log;
  }

  lemma KeyRequestRevokesNothing(h: Hashes, m: Machine, a: Admission, b: Broker, now: nat, p: Path)
    ensures Revokes(KeyRequest(h, m, a, b, now).0.log, p) == Revokes(m.log, p)
  {
    hide Revokes, PrepareApproval;
    forall log: seq<Event>, e: Event ensures Revokes(log + [e], p) == Revokes(log, p) + if e.RevokeSent? && e.path == p then 1 else 0 {
      RevokesSnoc(log, e, p);
    }
  }

  lemma StopAtRevokes(h: Hashes, m: Machine, o: Path, numbered: bool, answer: Option<Option<seq<ApprovalStatus>>>, now: nat, p: Path)
    requires o in m.records && p in m.records && IsStopped(m.records[p])
    ensures Revokes(StopAt(h, m, o, numbered, answer, now).0.log, p) == Revokes(m.log, p)
  {
    hide Revokes;
    if m.records[o].publicKey.Some? {
      RevokesSnoc(m.log, RevokeSent(o, StopOperation(h, m.records[o], numbered), numbered), p);
    }
  }

  lemma ApplyStopped(h: Hashes, m: Machine, c: Call, p: Path)
    requires p in m.records && IsStopped(m.records[p])
    ensures Revokes(Apply(h, m, c).log, p) == Revokes(m.log, p)
  {
    hide Revokes, KeyRequest, StopAt;
    match c {
      case KeyCall(a, b, now) => KeyRequestRevokesNothing(h, m, a, b, now, p);
      case StopCall(q, answer, now) =>
        forall o | o in m.records
          ensures Revokes(StopAt(h, m, o, q.account.number > 0, answer, now).0.log, p) == Revokes(m.log, p)
        {
          StopAtRevokes(h, m, o, q.account.number > 0, answer, now, p);
        }
      case RestartCall => RevokesSnoc(m.log, Restarted, p);
    }
  }

  /** A completed stop survives every later call, always reads "stopped", and Broker is not asked again. */
  lemma {:induction false} StoppedForGood(h: Hashes, calls: seq<Call>, more: seq<Call>, p: Path)
    requires p in RunFrom(h, EMPTY, calls).records && IsStopped(RunFrom(h, EMPTY, calls).records[p])
    ensures var m := RunFrom(h, EMPTY, calls); var m' := RunFrom(h, m, more);
            && p in m'.records && m'.records[p].stopped == m.records[p].stopped
            && Revokes(m'.log, p) == Revokes(m.log, p)
            && forall installed: set<Digest>, now: nat :: SessionAuthority(installed, m'.records[p], now) == "stopped"
    decreases |more|
  {
    hide Apply, Keeps;
    IdentityNeverChanges(h, calls, more, p);
    StopRecordKept(h, calls, more, p);
    if more != [] {
      var front := more[..|more| - 1];
      StoppedForGood(h, calls, front, p);
      ApplyStopped(h, RunFrom(h, RunFrom(h, EMPTY, calls), front), more[|more| - 1], p);
    }
  }

  lemma StopRecordKept(h: Hashes, calls: seq<Call>, more: seq<Call>, p: Path)
    requires p in RunFrom(h, EMPTY, calls).records && IsStopped(RunFrom(h, EMPTY, calls).records[p])
    ensures var m := RunFrom(h, EMPTY, calls); var m' := RunFrom(h, m, more);
            p in m'.records && m'.records[p].stopped == m.records[p].stopped
  {
    IdentityNeverChanges(h, calls, more, p);
  }

  /** The account is the one the record's delegating parent belongs to. */
  predicate Lists(account: Account, fingerprint: string) {
    account.evm == Some(fingerprint) || account.solana == Some(fingerprint)
  }

  ghost predicate SentBy(calls: seq<Call>, fingerprint: string, numbered: bool) {
    exists i :: 0 <= i < |calls| && calls[i].StopCall? && Lists(calls[i].request.account, fingerprint)
             && (calls[i].request.account.number > 0) == numbered
  }

  ghost predicate Sent(m: Machine, calls: seq<Call>, e: Event)
    requires e.RevokeSent?
  {
    e.path in m.records && m.records[e.path].publicKey.Some? && SentBy(calls, m.records[e.path].scope.parent.fingerprint, e.numbered)
  }

  lemma KeyRequestSendsNothing(h: Hashes, m: Machine, a: Admission, b: Broker, now: nat, e: Event)
    requires e.RevokeSent?
    ensures e in KeyRequest(h, m, a, b, now).0.log ==> e in m.log
  {
    hide PrepareApproval, SlotTaken;
  }

  lemma SentNow(h: Hashes, m: Machine, c: Call, e: Event)
    requires e.RevokeSent? && e in Apply(h, m, c).log && e !in m.log
    ensures c.StopCall? && e.path in m.records && m.records[e.path].publicKey.Some?
    ensures Lists(c.request.account, m.records[e.path].scope.parent.fingerprint) && (c.request.account.number > 0) == e.numbered
  {
    hide KeyRequest;
    if c.KeyCall? {
      KeyRequestSendsNothing(h, m, c.admission, c.broker, c.now, e);
    }
  }

  /** Every revocation goes back to a stop by an account that lists the record's parent. */
  lemma {:induction false} RevokesAreSent(h: Hashes, calls: seq<Call>, e: Event)
    requires e.RevokeSent? && e in RunFrom(h, EMPTY, calls).log
    ensures Sent(RunFrom(h, EMPTY, calls), calls, e)
  {
    hide Apply, Inv;
    var front, c := calls[..|calls| - 1], calls[|calls| - 1];
    var m := RunFrom(h, EMPTY, front);
    EmptyInv(h);
    RunKeeps(h, EMPTY, front);
    ApplyKeeps(h, m, c);
    if e in m.log {
      RevokesAreSent(h, front, e);
      var i :| 0 <= i < |front| && front[i].StopCall? && Lists(front[i].request.account, m.records[e.path].scope.parent.fingerprint)
             && (front[i].request.account.number > 0) == e.numbered;
      assert calls[i] == front[i];
    } else {
      SentNow(h, m, c, e);
    }
  }

  /** Accounts that list one parent agree on whether they are numbered. */
  ghost predicate OneNumbering(calls: seq<Call>, fingerprint: string) {
    !(SentBy(calls, fingerprint, true) && SentBy(calls, fingerprint, false))
  }

  /**
   Retrying a stop, however partial the earlier attempts, names the same Broker operation as
   long as the parent is listed by accounts of one numbering; if the two forms of the id differ,
   exactly the retries under one numbering agree.
   */
  lemma StopRetriesAgree(h: Hashes, calls: seq<Call>, p: Path, o1: OperationId, n1: bool, o2: OperationId, n2: bool)
    requires RevokeSent(p, o1, n1) in RunFrom(h, EMPTY, calls).log
    requires RevokeSent(p, o2, n2) in RunFrom(h, EMPTY, calls).log
    ensures var m := RunFrom(h, EMPTY, calls);
      && p in m.records && m.records[p].publicKey.Some?
      && (OneNumbering(calls, m.records[p].scope.parent.fingerprint) ==> o1 == o2)
      && (StopOperation(h, m.records[p], true) != StopOperation(h, m.records[p], false) ==> (o1 == o2 <==> n1 == n2))
  {
    hide RunFrom, SentBy, RecordInv;
    EmptyInv(h);
    RunKeeps(h, EMPTY, calls);
    var m := RunFrom(h, EMPTY, calls);
    RevokesAreSent(h, calls, RevokeSent(p, o1, n1));
    RevokesAreSent(h, calls, RevokeSent(p, o2, n2));
    assert PathInv(h, m, p);
    RevokeNames(h, m, p, o1, n1);
    RevokeNames(h, m, p, o2, n2);
  }

  lemma RevokeNames(h: Hashes, m: Machine, p: Path, o: OperationId, numbered: bool)
    requires p in m.records && PathInv(h, m, p) && RevokeSent(p, o, numbered) in m.log && m.records[p].publicKey.Some?
    ensures o == StopOperation(h, m.records[p], numbered)
  {
    assert RevokeSent(p, o, numbered).path == p;
  }

  // ---- polling does not move the expiry

  /** Without a new approval preparation, approval and expiry stay what they were. */
  predicate ExpiryKept(m: Machine, m': Machine, p: Path)
    requires p in m.records
  {
    && Approvals(m.log, p) <= Approvals(m'.log, p)
    && p in m'.records
    && (Approvals(m.log, p) == Approvals(m'.log, p) && m.records[p].approvalId.Some? ==>
          && m'.records[p].approvalId == m.records[p].approvalId
          && m'.records[p].authorityExpiresAtMs == m.records[p].authorityExpiresAtMs)
  }

  lemma KeyRequestExpiry(h: Hashes, m: Machine, a: Admission, b: Broker, now: nat, p: Path)
    requires Inv(h, m) && p in m.records
    ensures ExpiryKept(m, KeyRequest(h, m, a, b, now).0, p)
  {
    hide Approvals, PrepareApproval, CustodyFits, Inv;
    StaysWellFormed(h, m, p);
    forall log: seq<Event>, e: Event
      ensures Approvals(log + [e], p) == Approvals(log, p) + if e.ApprovalRecorded? && e.path == p then 1 else 0
    {
      CountSnoc(log, e, p);
    }
  }

  lemma ApplyExpiry(h: Hashes, m: Machine, c: Call, p: Path)
    requires Inv(h, m) && p in m.records
    ensures ExpiryKept(m, Apply(h, m, c), p)
  {
    hide Approvals, KeyRequest, Inv, AllTerminal;
    match c {
      case KeyCall(a, b, now) => KeyRequestExpiry(h, m, a, b, now, p);
      case StopCall(q, answer, now) =>
        forall o | o in m.records && m.records[o].publicKey.Some? {
          CountSnoc(m.log, RevokeSent(o, StopOperation(h, m.records[o], q.account.number > 0), q.account.number > 0), p);
        }
      case RestartCall => CountSnoc(m.log, Restarted, p);
    }
  }

  lemma {:induction false} PollingNeverExtends(h: Hashes, calls: seq<Call>, more: seq<Call>, p: Path)
    requires p in RunFrom(h, EMPTY, calls).records
    ensures var m := RunFrom(h, EMPTY, calls); ExpiryKept(m, RunFrom(h, m, more), p)
    decreases |more|
  {
    hide Apply, Inv, Approvals;
    if more != [] {
      var m := RunFrom(h, EMPTY, calls);
      var front := more[..|more| - 1];
      PollingNeverExtends(h, calls, front, p);
      EmptyInv(h);
      RunKeeps(h, EMPTY, calls);
      RunKeeps(h, m, front);
      ApplyExpiry(h, RunFrom(h, m, front), more[|more| - 1], p);
    }
  }
}
