/**
 What a Petal and its owner are told, in every run: when exactly a key request is Ready, Pending
 or Denied and what it leaves behind, whom a slot belongs to, and when exactly a stop is complete.
 */
module PetalAnswers {
  import opened Bytes
  import opened PetalKeys
  import opened PetalRuns

  // ---- key requests

  /** What a session path is made of: one slot per account of a wallet and lineage. */
  function SlotOf(scope: Scope, keySlot: string): (s: (string, string, string, Option<nat>)) {
    (scope.wallet, scope.lineage, keySlot, scope.parent.account)
  }

  /** The slot has another parent already. */
  predicate Contested(records: map<Path, Record>, q: Request) {
    exists p :: p in records && SlotOf(records[p].scope, records[p].keySlot) == SlotOf(q.scope, q.keySlot)
             && records[p].scope.parent != q.scope.parent
  }

  /** The accepted combinations of status, key and ceremony. */
  predicate Accepted(r: Record) {
    (r.status, r.publicKey.Some?, r.url.Some?) in {
      ("awaiting_user", false, true), ("awaiting_user", true, true), ("succeeded", true, false),
      ("ceremony_unavailable_after_restart", false, false), ("ceremony_unavailable_after_restart", true, false)}
  }

  /** The record was made for the very terms now asked for. */
  predicate AsAsked(h: Hashes, r: Record, q: Request) {
    && r.schema in {"bloom.machine.petal-key-request.v2", "bloom.machine.petal-key-request.v3"} && Accepted(r)
    && (r.keySlot, r.scopeDigest, r.provenance) == (q.keySlot, h.scopeDigest(q.scope), Some(q.provenance))
    && h.scopeDigest(r.scope) == r.scopeDigest
  }

  /** Broker knows the approval, and its state is one of these. */
  predicate Reports(b: Broker, states: set<ApprovalState>) {
    b.status.Some? && b.status.value in states
  }

  /** Broker offers a key-derivation ceremony for the operation asked for. */
  predicate OffersCustody(q: Request, b: Broker) {
    b.prepareCustody.Some? && b.prepareCustody.value.(url := "", expiresAtMs := 0) == PreparedCustody(true, q.scope.custodyOperation, "", 0)
  }

  /** Broker reports the derivation done: in this wallet, in the clear, with the one key it then describes. */
  predicate Derived(q: Request, b: Broker) {
    && b.key.Some?
    && b.custody == CustodyResult(true, q.scope.custodyOperation, Some(q.scope.wallet), false, [b.key.value.keyRef])
    && (set i | 0 <= i < |q.scope.suites| :: q.scope.suites[i]) <= b.key.value.suites
  }

  /** One minute before the longest lifetime ends, or half way through a short one. */
  predicate EndsAt(q: Request, now: nat, ends: nat) {
    if q.scope.maximumLifetimeMs > 120_000 then ends + 60_000 == now + q.scope.maximumLifetimeMs
    else now < ends && 2 * (ends - now) <= q.scope.maximumLifetimeMs <= 2 * (ends - now) + 1
  }

  /** The clock's last value stands for every later moment. */
  function Clipped(ends: nat): (expires: nat) {
    if ends < 0x1_0000_0000_0000_0000 then ends else 0xFFFF_FFFF_FFFF_FFFF
  }

  /** Every route is granted, the lifetime is not too short, and Broker prepares exactly the terms sent. */
  predicate OffersApproval(h: Hashes, q: Request, keyRef: KeyRef, b: Broker, now: nat, ends: nat) {
    && q.grants.Some? && EndsAt(q, now, ends)
    && b.prepareApproval.Some?
    && b.prepareApproval.value.id == h.approvalId(Terms(q.scope, keyRef, q.grants.value, Some(q.provenance), now, Clipped(ends)))
  }

  ghost predicate Approvable(h: Hashes, q: Request, keyRef: KeyRef, b: Broker, now: nat) {
    exists ends :: OffersApproval(h, q, keyRef, b, now, ends)
  }

  ghost predicate Granted(h: Hashes, m: Machine, q: Request, b: Broker) {
    && !Contested(m.records, q) && q.path in m.records && AsAsked(h, m.records[q.path], q)
    && m.records[q.path].publicKey.Some? && m.records[q.path].approvalId.Some?
    && (Reports(b, {Active}) || (m.records[q.path].status == "succeeded" && Reports(b, {Prepared, AwaitingCeremony})))
  }

  ghost predicate Waits(h: Hashes, m: Machine, q: Request, b: Broker, now: nat) {
    && !Contested(m.records, q)
    && if q.path !in m.records then OffersCustody(q, b) else
       var r := m.records[q.path];
       && AsAsked(h, r, q)
       && if r.publicKey.Some? && r.approvalId.None? then Approvable(h, q, r.publicKey.value.keyRef, b, now)
          else if r.publicKey.Some? then
            && Reports(b, {Prepared, AwaitingCeremony})
            && (r.status == "awaiting_user"
                || (r.status == "ceremony_unavailable_after_restart" && Approvable(h, q, r.publicKey.value.keyRef, b, now)))
          else if b.custody.CustodyNotFound? then
            if r.status == "awaiting_user" then now < r.ceremonyExpiresAtMs else OffersCustody(q, b)
          else Derived(q, b) && Approvable(h, q, b.custody.keys[0], b, now)
  }

  ghost predicate TurnedAway(h: Hashes, m: Machine, q: Request, b: Broker, now: nat) {
    || Contested(m.records, q)
    || (q.path !in m.records && !OffersCustody(q, b))
    || (q.path in m.records && var r := m.records[q.path];
        || !AsAsked(h, r, q)
        || (r.publicKey.Some? && r.approvalId.Some? && !Reports(b, {Active, Prepared, AwaitingCeremony}))
        || (r.publicKey.Some? && (r.approvalId.None? || (r.status == "ceremony_unavailable_after_restart" && !Reports(b, {Active})))
            && !Approvable(h, q, r.publicKey.value.keyRef, b, now))
        || (r.publicKey.None? && b.custody.CustodyError?)
        || (r.publicKey.None? && b.custody.CustodyResult? && !(Derived(q, b) && Approvable(h, q, b.custody.keys[0], b, now)))
        || (r.publicKey.None? && b.custody.CustodyNotFound? && r.status == "awaiting_user" && r.ceremonyExpiresAtMs <= now)
        || (r.publicKey.None? && b.custody.CustodyNotFound? && r.status != "awaiting_user" && !OffersCustody(q, b)))
  }

  lemma ContestedIs(records: map<Path, Record>, q: Request)
    ensures Contested(records, q) <==> SlotTaken(records, q)
  {
  }

  lemma AsAskedShape(h: Hashes, r: Record, q: Request)
    requires AsAsked(h, r, q)
    ensures r.status == "awaiting_user" || r.status == "succeeded" || r.status == "ceremony_unavailable_after_restart"
    ensures r.status == "succeeded" ==> r.publicKey.Some? && r.url.None?
  {
  }

  lemma AsAskedIs(h: Hashes, r: Record, q: Request)
    ensures AsAsked(h, r, q) <==> SameTerms(h, r, q)
  {
  }

  lemma ApprovableIs(h: Hashes, q: Request, keyRef: KeyRef, b: Broker, now: nat)
    ensures var x := PrepareApproval(h, q, keyRef, b, now);
      && (Approvable(h, q, keyRef, b, now) <==> x.Some?)
      && (forall ends :: OffersApproval(h, q, keyRef, b, now, ends) && x.Some? ==>
            x.value.0 == b.prepareApproval.value && x.value.1.expiresAtMs == Clipped(ends))
  {
    var ends := now + ApprovalLifetime(q.scope.maximumLifetimeMs);
    if ApprovalLifetime(q.scope.maximumLifetimeMs) > 0 {
      assert EndsAt(q, now, ends);
      assert Clipped(ends) == SaturatingAdd(now, ApprovalLifetime(q.scope.maximumLifetimeMs));
    }
    assert forall other :: EndsAt(q, now, other) ==> other == ends;
    if PrepareApproval(h, q, keyRef, b, now).Some? {
      assert OffersApproval(h, q, keyRef, b, now, ends);
    }
  }

  lemma DerivedIs(q: Request, b: Broker)
    ensures Derived(q, b) <==> CustodyFits(q, b)
    ensures Derived(q, b) ==> b.key.Some? && b.custody.CustodyResult? && b.custody.keys == [b.key.value.keyRef]
  {
    var asked := set i | 0 <= i < |q.scope.suites| :: q.scope.suites[i];
    if CustodyFits(q, b) {
      assert b.custody.keys == [b.key.value.keyRef];
    }
    assert forall i :: 0 <= i < |q.scope.suites| ==> q.scope.suites[i] in asked;
  }

  /** The three answers, from one state. */
  lemma AnswersFrom(h: Hashes, m: Machine, q: Request, b: Broker, now: nat)
    ensures var x := KeyRequest(h, m, Admitted(q), b, now);
      && (x.1.Ready? <==> Granted(h, m, q, b))
      && (x.1.Pending? <==> Waits(h, m, q, b, now))
      && (x.1.Denied? <==> TurnedAway(h, m, q, b, now))
  {
    hide Contested, SlotTaken, AsAsked, SameTerms, Approvable, PrepareApproval, Derived, CustodyFits;
    ContestedIs(m.records, q);
    DerivedIs(q, b);
    if q.path in m.records {
      var r := m.records[q.path];
      AsAskedIs(h, r, q);
      if AsAsked(h, r, q) {
        AsAskedShape(h, r, q);
      }
      if r.publicKey.Some? {
        ApprovableIs(h, q, r.publicKey.value.keyRef, b, now);
      } else if CustodyFits(q, b) {
        ApprovableIs(h, q, b.key.value.keyRef, b, now);
      }
    }
  }

  /** What a Ready answer hands out and leaves behind. */
  predicate HandsOut(m: Machine, x: (Machine, Outcome), q: Request, b: Broker, now: nat)
    requires q.path in m.records && m.records[q.path].publicKey.Some?
  {
    var r := m.records[q.path];
    && x.1 == Ready(r.scope.custodyOperation, r.scopeDigest, r.publicKey.value)
    && x.0.records == m.records[q.path :=
         r.(status := "succeeded", url := None, succeededAtMs := if Reports(b, {Active}) then Some(now) else r.succeededAtMs)]
  }

  /** A record as a new custody ceremony leaves it: no key, no approval, never stopped. */
  function Begun(h: Hashes, q: Request, prepared: PreparedCustody, now: nat): (r: Record) {
    Record("bloom.machine.petal-key-request.v3", q.keySlot, q.scope, h.scopeDigest(q.scope), Some(q.provenance),
           "awaiting_user", Some(prepared.url), prepared.expiresAtMs, None, None, q.mount, now, None, None, None)
  }

  /** A record as a new approval ceremony leaves it. */
  function Bound(r: Record, key: KeyPublic, prepared: PreparedApproval, ends: nat): (r': Record) {
    Record(r.schema, r.keySlot, r.scope, r.scopeDigest, r.provenance, "awaiting_user", Some(prepared.url), prepared.expiresAtMs,
           Some(key), Some(prepared.id), r.mount, r.requestedAtMs, r.succeededAtMs, Some(Clipped(ends)), r.stopped)
  }

  /** Which key a Pending answer starts an approval ceremony for, if any. */
  function KeyToApprove(m: Machine, q: Request, b: Broker): (key: Option<KeyPublic>) {
    if q.path !in m.records then None else
    if m.records[q.path].publicKey.Some? then
      if m.records[q.path].approvalId.None? || m.records[q.path].status == "ceremony_unavailable_after_restart"
      then m.records[q.path].publicKey else None
    else if b.custody.CustodyNotFound? then None else b.key
  }

  ghost predicate Binds(h: Hashes, before: map<Path, Record>, after: map<Path, Record>, r: Record, key: KeyPublic, q: Request, b: Broker, now: nat) {
    exists ends :: OffersApproval(h, q, key.keyRef, b, now, ends) && after == before[q.path := Bound(r, key, b.prepareApproval.value, ends)]
  }

  /** A Pending answer starts custody afresh, starts an approval, or changes nothing. */
  ghost predicate KeepsWaiting(h: Hashes, m: Machine, x: (Machine, Outcome), q: Request, b: Broker, now: nat) {
    if q.path !in m.records
       || (m.records[q.path].publicKey.None? && b.custody.CustodyNotFound? && m.records[q.path].status != "awaiting_user") then
      && x.1 == Pending(q.scope.custodyOperation, h.scopeDigest(q.scope))
      && b.prepareCustody.Some? && x.0.records == m.records[q.path := Begun(h, q, b.prepareCustody.value, now)]
    else
      var r := m.records[q.path];
      && x.1 == Pending(r.scope.custodyOperation, r.scopeDigest)
      && match KeyToApprove(m, q, b)
         case None => x.0.records == m.records
         case Some(key) => Binds(h, m.records, x.0.records, r, key, q, b, now)
  }

  lemma StagedOrDenied(h: Hashes, m: Machine, r: Record, key: KeyPublic, q: Request, b: Broker, now: nat)
    ensures var x := StageApproval(h, m, r, key, q, b, now);
      if PrepareApproval(h, q, key.keyRef, b, now).None? then x == (m, Denied)
      else x.1 == Pending(r.scope.custodyOperation, r.scopeDigest) && Binds(h, m.records, x.0.records, r, key, q, b, now)
  {
    ApprovableIs(h, q, key.keyRef, b, now);
    hide PrepareApproval;
    if PrepareApproval(h, q, key.keyRef, b, now).Some? {
      var ends :| OffersApproval(h, q, key.keyRef, b, now, ends);
      assert StageApproval(h, m, r, key, q, b, now).0.records == m.records[q.path := Bound(r, key, b.prepareApproval.value, ends)];
    }
  }

  lemma EffectsFrom(h: Hashes, m: Machine, q: Request, b: Broker, now: nat)
    ensures var x := KeyRequest(h, m, Admitted(q), b, now);
      && (x.1.Ready? ==> q.path in m.records && m.records[q.path].publicKey.Some? && HandsOut(m, x, q, b, now))
      && (x.1.Pending? ==> KeepsWaiting(h, m, x, q, b, now))
      && (x.1.Denied? ==> x.0.records == m.records)
  {
    hide SlotTaken, SameTerms, PrepareApproval, CustodyFits, StageApproval, Binds, Accepted;
    DerivedIs(q, b);
    if q.path in m.records {
      var r := m.records[q.path];
      AsAskedIs(h, r, q);
      if AsAsked(h, r, q) {
        AsAskedShape(h, r, q);
      }
      assert m.records[q.path := r] == m.records;
      if r.publicKey.Some? {
        StagedOrDenied(h, m, r, r.publicKey.value, q, b, now);
        if r.approvalId.Some? && b.status.Some? {
          StagedOrDenied(h, m.(log := m.log + [StatusReported(q.path, r.approvalId.value, b.status.value)]), r, r.publicKey.value, q, b, now);
        }
      } else if b.key.Some? {
        StagedOrDenied(h, m, r, b.key.value, q, b, now);
      }
    }
  }

  /**
   Whatever is stored and whatever Broker answers, a key request is Ready, Pending or Denied exactly
   as its record, its slot and Broker's answers say; a Ready answer hands out the stored key, a
   Pending one starts at most one ceremony, and a denied one changes no record.
   */
  lemma AnswersExactly(h: Hashes, m: Machine, q: Request, b: Broker, now: nat)
    ensures var x := KeyRequest(h, m, Admitted(q), b, now);
      && (x.1.Ready? <==> Granted(h, m, q, b))
      && (x.1.Pending? <==> Waits(h, m, q, b, now))
      && (x.1.Denied? <==> TurnedAway(h, m, q, b, now))
      && (Granted(h, m, q, b) ==> HandsOut(m, x, q, b, now))
      && (Waits(h, m, q, b, now) ==> KeepsWaiting(h, m, x, q, b, now))
      && (TurnedAway(h, m, q, b, now) ==> x.0.records == m.records)
  {
    hide KeyRequest, Waits, TurnedAway, HandsOut, KeepsWaiting;
    AnswersFrom(h, m, q, b, now);
    EffectsFrom(h, m, q, b, now);
  }

  // ---- whom a slot belongs to

  /** Records of one slot have one parent. */
  ghost predicate OneParent(records: map<Path, Record>) {
    forall p, o :: p in records && o in records && SlotOf(records[p].scope, records[p].keySlot) == SlotOf(records[o].scope, records[o].keySlot) ==>
      records[p].scope.parent == records[o].scope.parent
  }

  /** The requests find their record by wallet, lineage, slot and parent, as the hashed session names do. */
  ghost predicate Routed(route: (string, string, string, KeyRef) -> Path, calls: seq<Call>) {
    forall i :: 0 <= i < |calls| && calls[i].KeyCall? && calls[i].admission.Admitted? ==>
      var q := calls[i].admission.request; q.path == route(q.scope.wallet, q.scope.lineage, q.keySlot, q.scope.parent)
  }

  ghost predicate AllRouted(route: (string, string, string, KeyRef) -> Path, records: map<Path, Record>) {
    forall p :: p in records ==> p == route(records[p].scope.wallet, records[p].scope.lineage, records[p].keySlot, records[p].scope.parent)
  }

  /** A record keeps its names, or is the one the request itself wrote. */
  predicate NamesKept(m: Machine, m': Machine, q: Request) {
    forall p :: p in m'.records ==>
      || (p in m.records && m'.records[p].scope == m.records[p].scope && m'.records[p].keySlot == m.records[p].keySlot)
      || (p == q.path && m'.records[p].scope == q.scope && m'.records[p].keySlot == q.keySlot && !SlotTaken(m.records, q))
  }

  predicate KeepsNames(m: Machine, m': Machine) {
    && m'.records.Keys == m.records.Keys
    && forall p :: p in m.records ==> m'.records[p].scope == m.records[p].scope && m'.records[p].keySlot == m.records[p].keySlot
  }

  lemma KeyRequestNames(h: Hashes, m: Machine, q: Request, b: Broker, now: nat)
    ensures NamesKept(m, KeyRequest(h, m, Admitted(q), b, now).0, q)
  {
    hide KeyRequest, Waits, OffersApproval, Clipped;
    EffectsFrom(h, m, q, b, now);
    AnswersFrom(h, m, q, b, now);
    ContestedIs(m.records, q);
    hide SlotTaken;
  }

  lemma KeyRequestOneParent(h: Hashes, m: Machine, q: Request, b: Broker, now: nat)
    requires OneParent(m.records)
    ensures OneParent(KeyRequest(h, m, Admitted(q), b, now).0.records)
  {
    hide KeyRequest;
    KeyRequestNames(h, m, q, b, now);
    ContestedIs(m.records, q);
    hide SlotTaken;
  }

  lemma StopNames(h: Hashes, m: Machine, q: StopRequest, answer: Option<Option<seq<ApprovalStatus>>>, now: nat)
    ensures KeepsNames(m, StopSession(h, m, q, answer, now).0)
  {
    hide AllTerminal, StopAt, KeepsNames;
    KeepsOwnNames(m);
    forall p | p in m.records ensures KeepsNames(m, StopAt(h, m, p, q.account.number > 0, answer, now).0) {
      StopAtNames(h, m, p, q.account.number > 0, answer, now);
    }
  }

  lemma KeepsOwnNames(m: Machine)
    ensures KeepsNames(m, m)
  {
  }

  lemma StopAtNames(h: Hashes, m: Machine, p: Path, numbered: bool, answer: Option<Option<seq<ApprovalStatus>>>, now: nat)
    requires p in m.records
    ensures KeepsNames(m, StopAt(h, m, p, numbered, answer, now).0)
  {
    hide AllTerminal;
  }

  lemma ApplyOneParent(h: Hashes, m: Machine, c: Call)
    requires OneParent(m.records)
    ensures OneParent(Apply(h, m, c).records)
  {
    hide KeyRequest, StopSession;
    match c {
      case KeyCall(a, b, now) =>
        if a.Admitted? {
          hide OneParent;
          KeyRequestOneParent(h, m, a.request, b, now);
        } else {
          RefusedChangesNothing(h, m, a, b, now);
        }
      case StopCall(q, answer, now) => StopNames(h, m, q, answer, now);
      case RestartCall =>
    }
  }

  lemma RefusedChangesNothing(h: Hashes, m: Machine, a: Admission, b: Broker, now: nat)
    requires !a.Admitted?
    ensures KeyRequest(h, m, a, b, now).0 == m
  {
  }

  /** In every run the records of one slot, however many keys asked for it, have one parent. */
  lemma {:induction false} OneParentPerSlot(h: Hashes, calls: seq<Call>)
    ensures OneParent(RunFrom(h, EMPTY, calls).records)
  {
    hide Apply;
    if calls != [] {
      var front := calls[..|calls| - 1];
      OneParentPerSlot(h, front);
      ApplyOneParent(h, RunFrom(h, EMPTY, front), calls[|calls| - 1]);
    }
  }

  lemma {:induction false} RunIsRouted(h: Hashes, route: (string, string, string, KeyRef) -> Path, calls: seq<Call>)
    requires Routed(route, calls)
    ensures AllRouted(route, RunFrom(h, EMPTY, calls).records)
  {
    hide KeyRequest, StopSession;
    if calls != [] {
      var front, c := calls[..|calls| - 1], calls[|calls| - 1];
      assert Routed(route, front) by {
        assert forall i :: 0 <= i < |front| ==> front[i] == calls[i];
      }
      RunIsRouted(h, route, front);
      var m := RunFrom(h, EMPTY, front);
      match c {
        case KeyCall(a, b, now) =>
          if a.Admitted? {
            KeyRequestNames(h, m, a.request, b, now);
          } else {
            RefusedChangesNothing(h, m, a, b, now);
          }
        case StopCall(q, answer, now) => StopNames(h, m, q, answer, now);
        case RestartCall =>
      }
    }
  }

  // ---- stops

  /** The record is of this account's wallet and parent, and the tree shows it under this mount and slot. */
  predicate Concerns(q: StopRequest, r: Record) {
    && (r.scope.wallet, r.keySlot) == (q.account.wallet, q.slot)
    && Some(r.scope.parent.fingerprint) in {q.account.evm, q.account.solana}
    && (r.mount == Some(q.mount) || (r.mount.None? && q.unknown(r.scope.package) == q.mount))
  }

  /** Approvals that can sign or can still be made to. */
  predicate StillLive(statuses: seq<ApprovalStatus>) {
    exists i :: 0 <= i < |statuses| && statuses[i].state in {Prepared, AwaitingCeremony, Active}
  }

  lemma AllTerminalExactly(statuses: seq<ApprovalStatus>)
    ensures AllTerminal(statuses) <==> !StillLive(statuses)
  {
    forall i | 0 <= i < |statuses| ensures Terminal(statuses[i]) <==> statuses[i].state !in {Prepared, AwaitingCeremony, Active} {
      match statuses[i].state {
        case Prepared =>
        case AwaitingCeremony =>
        case Active =>
        case _ =>
      }
    }
  }

  lemma MatchingExactly(records: map<Path, Record>, q: StopRequest, p: Path)
    ensures p in Matching(records, q) <==> p in records && Concerns(q, records[p])
  {
  }

  /**
   A stop finds nothing, several records or one; the one it finds is stopped exactly when it has a
   key and either was stopped before or Broker answers with no approval that can still sign.
   */
  lemma StopExactly(h: Hashes, m: Machine, q: StopRequest, answer: Option<Option<seq<ApprovalStatus>>>, now: nat)
    ensures var x := StopSession(h, m, q, answer, now);
      && (x.1.NotFound? <==> forall p :: p in m.records ==> !Concerns(q, m.records[p]))
      && (x.1.Ambiguous? <==> exists p, o :: p in m.records && o in m.records && p != o && Concerns(q, m.records[p]) && Concerns(q, m.records[o]))
      && (x.1.NotFound? || x.1.Ambiguous? ==> x.0 == m)
      && forall p :: p in m.records && Concerns(q, m.records[p]) && !x.1.Ambiguous? ==> StopsOne(h, m, x, p, q.account.number > 0, answer, now)
  {
    hide Concerns, Matching, StopAt, StopsOne;
    var matching := Matching(m.records, q);
    forall p ensures p in matching <==> p in m.records && Concerns(q, m.records[p]) {
      MatchingExactly(m.records, q, p);
    }
    if |matching| == 1 {
      var p :| p in matching;
      forall o | o in matching ensures o == p {
        OnlyOne(matching, p, o);
      }
      StopAtExactly(h, m, p, q.account.number > 0, answer, now);
      StopAtAnswers(h, m, p, q.account.number > 0, answer, now);
    } else if matching != {} {
      var p :| p in matching;
      TwoOfThem(matching, p);
    }
  }

  lemma OnlyOne(s: set<Path>, p: Path, o: Path)
    requires |s| == 1 && p in s && o in s
    ensures o == p
  {
    assert |s - {p}| == 0;
  }

  lemma TwoOfThem(s: set<Path>, p: Path)
    requires |s| > 1 && p in s
    ensures exists o :: o in s && o != p
  {
    assert s != {p};
  }

  /** Broker knows a stop by wallet, lineage and slot, and for a numbered account by the delegated key too. */
  function StopName(h: Hashes, r: Record, numbered: bool): (o: OperationId)
    requires r.publicKey.Some?
  {
    var key := if numbered then Some(r.publicKey.value.keyRef) else None;
    h.stopOperation(r.scope.wallet, r.scope.lineage, r.keySlot, key)
  }

  /** The stop of the one record found, told by what the owner is told. */
  predicate StopsOne(h: Hashes, m: Machine, x: (Machine, StopResult), p: Path, numbered: bool, answer: Option<Option<seq<ApprovalStatus>>>, now: nat)
    requires p in m.records
  {
    var r := m.records[p];
    var already := r.stopped.Some? && r.stopped.value.complete;
    && (x.1.NoDelegatedKey? <==> r.publicKey.None?)
    && (x.1.BrokerUnavailable? <==> r.publicKey.Some? && !already && answer.None?)
    && (x.1.RevokeFailed? <==> r.publicKey.Some? && !already && answer == Some(None))
    && (x.1.Stopped? <==> r.publicKey.Some? && (already || (answer.Some? && answer.value.Some? && !StillLive(answer.value.value))))
    && (x.1.NotTerminal? <==> r.publicKey.Some? && !already && answer.Some? && answer.value.Some? && StillLive(answer.value.value))
    && (if r.publicKey.Some? && !already && answer.Some? && answer.value.Some? then
          x.0.records == m.records[p := r.(stopped :=
            Some(StopRecord(now, StopName(h, r, numbered), answer.value.value, !StillLive(answer.value.value))))]
        else x.0.records == m.records)
  }

  lemma StopAtExactly(h: Hashes, m: Machine, p: Path, numbered: bool, answer: Option<Option<seq<ApprovalStatus>>>, now: nat)
    requires p in m.records
    ensures StopsOne(h, m, StopAt(h, m, p, numbered, answer, now), p, numbered, answer, now)
  {
    hide AllTerminal, StillLive;
    if answer.Some? && answer.value.Some? {
      AllTerminalExactly(answer.value.value);
    }
  }

  lemma StopAtAnswers(h: Hashes, m: Machine, p: Path, numbered: bool, answer: Option<Option<seq<ApprovalStatus>>>, now: nat)
    requires p in m.records
    ensures var result := StopAt(h, m, p, numbered, answer, now).1; !result.NotFound? && !result.Ambiguous?
  {
  }

  /** A stored stop is complete exactly when none of the approvals it lists can still sign. */
  ghost predicate StopsHonest(records: map<Path, Record>) {
    forall p :: p in records && records[p].stopped.Some? ==>
      (records[p].stopped.value.complete <==> !StillLive(records[p].stopped.value.approvals))
  }

  lemma StopStaysHonest(h: Hashes, m: Machine, p: Path, numbered: bool, answer: Option<Option<seq<ApprovalStatus>>>, now: nat)
    requires p in m.records && StopsHonest(m.records)
    ensures StopsHonest(StopAt(h, m, p, numbered, answer, now).0.records)
  {
    hide StopAt, StillLive, StopName;
    StopAtExactly(h, m, p, numbered, answer, now);
  }

  lemma KeyRequestStaysHonest(h: Hashes, m: Machine, a: Admission, b: Broker, now: nat)
    requires StopsHonest(m.records)
    ensures StopsHonest(KeyRequest(h, m, a, b, now).0.records)
  {
    hide KeyRequest, StillLive, Waits, OffersApproval, Clipped;
    if a.Admitted? {
      EffectsFrom(h, m, a.request, b, now);
    } else {
      RefusedChangesNothing(h, m, a, b, now);
    }
  }

  /** In every run a session that reads as stopped has no approval on record that could still sign, and conversely. */
  lemma {:induction false} StopsStayHonest(h: Hashes, calls: seq<Call>)
    ensures StopsHonest(RunFrom(h, EMPTY, calls).records)
  {
    hide KeyRequest, StopAt, StopsHonest;
    if calls == [] {
      NothingStopped();
    } else {
      var front := calls[..|calls| - 1];
      StopsStayHonest(h, front);
      var m := RunFrom(h, EMPTY, front);
      match calls[|calls| - 1] {
        case KeyCall(a, b, now) => KeyRequestStaysHonest(h, m, a, b, now);
        case StopCall(q, answer, now) =>
          forall p | p in m.records ensures StopsHonest(StopAt(h, m, p, q.account.number > 0, answer, now).0.records) {
            StopStaysHonest(h, m, p, q.account.number > 0, answer, now);
          }
        case RestartCall => RestartStaysHonest(m);
      }
    }
  }

  lemma NothingStopped()
    ensures StopsHonest(map[])
  {
  }

  lemma RestartStaysHonest(m: Machine)
    requires StopsHonest(m.records)
    ensures StopsHonest(Restart(m).records)
  {
    hide StillLive;
  }

  /** One account's keys have one number. */
  ghost predicate OneNumber(records: map<Path, Record>, q: StopRequest) {
    forall p, o :: p in records && o in records && Concerns(q, records[p]) && Concerns(q, records[o]) ==>
      records[p].scope.parent.account == records[o].scope.parent.account
  }

  /**
   Since a slot has one parent, a stop is ambiguous exactly when two lineages share the mount and
   slot it names: two key families of one account never make it so.
   */
  lemma StopAmbiguousExactly(h: Hashes, route: (string, string, string, KeyRef) -> Path, calls: seq<Call>, q: StopRequest,
                             answer: Option<Option<seq<ApprovalStatus>>>, now: nat)
    requires Routed(route, calls) && OneNumber(RunFrom(h, EMPTY, calls).records, q)
    ensures var m := RunFrom(h, EMPTY, calls);
      StopSession(h, m, q, answer, now).1.Ambiguous? <==>
        exists p, o :: p in m.records && o in m.records && Concerns(q, m.records[p]) && Concerns(q, m.records[o])
                    && m.records[p].scope.lineage != m.records[o].scope.lineage
  {
    hide RunFrom, StopSession, StopsOne;
    var m := RunFrom(h, EMPTY, calls);
    StopExactly(h, m, q, answer, now);
    OneParentPerSlot(h, calls);
    RunIsRouted(h, route, calls);
    forall p, o | p in m.records && o in m.records && Concerns(q, m.records[p]) && Concerns(q, m.records[o])
      ensures p != o <==> m.records[p].scope.lineage != m.records[o].scope.lineage
    {
      if m.records[p].scope.lineage == m.records[o].scope.lineage {
        assert m.records[p].scope.parent == m.records[o].scope.parent;
      }
    }
  }

  // ---- start-up and session documents

  /** A restart takes the ceremony from every advertising record of the current schema and nothing from any other. */
  lemma RestartExactly(m: Machine, p: Path)
    requires p in m.records
    ensures p in Restart(m).records
    ensures Restart(m).records[p] ==
      if m.records[p].schema == "bloom.machine.petal-key-request.v3" && m.records[p].url.Some?
      then m.records[p].(status := "ceremony_unavailable_after_restart", url := None) else m.records[p]
    ensures Restart(m).records.Keys == m.records.Keys
  {
  }

  /** What a session document says, in every case. */
  lemma AuthorityExactly(installed: set<Digest>, r: Record, now: nat)
    ensures var a := SessionAuthority(installed, r, now);
      var stopped := r.stopped.Some? && r.stopped.value.complete;
      var over := r.authorityExpiresAtMs.Some? && r.authorityExpiresAtMs.value <= now;
      && (a == "stopped" <==> stopped)
      && (a == "package_replaced" <==> !stopped && r.scope.package !in installed)
      && (a == "expired" <==> !stopped && r.scope.package in installed && over)
      && (a == "pending" <==> !stopped && r.scope.package in installed && !over && r.status != "succeeded")
      && (a == "active" <==> !stopped && r.scope.package in installed && !over && r.status == "succeeded")
  {
    assert |"stopped"| == 7 && |"package_replaced"| == 16 && "expired"[0] == 'e' && "pending"[0] == 'p' && |"active"| == 6;
  }

  /**
   In every run a session reads "active" exactly when its key was granted, its package is installed, no
   stop completed, and the approval Broker was asked for and reported active has not ended.
   */
  lemma ActiveExactly(h: Hashes, calls: seq<Call>, p: Path, installed: set<Digest>, now: nat)
    requires p in RunFrom(h, EMPTY, calls).records
    ensures var m := RunFrom(h, EMPTY, calls); var r := m.records[p];
      && (SessionAuthority(installed, r, now) == "active" <==>
            && r.status == "succeeded" && r.scope.package in installed && (r.stopped.Some? ==> StillLive(r.stopped.value.approvals))
            && exists terms, url :: ApprovalRecorded(p, terms, url) in m.log && StatusReported(p, h.approvalId(terms), Active) in m.log
                 && r.approvalId == Some(h.approvalId(terms)) && r.authorityExpiresAtMs == Some(terms.expiresAtMs) && now < terms.expiresAtMs)
  {
    hide RunFrom, Backed;
    AuthorityIsEarned(h, calls, p);
    StopsStayHonest(h, calls);
    var m := RunFrom(h, EMPTY, calls);
    var r := m.records[p];
    if r.status == "succeeded" {
      var terms, url := BackedBy(h, r, m.log, p);
    }
  }

  lemma BackedBy(h: Hashes, r: Record, log: seq<Event>, p: Path) returns (terms: Terms, url: string)
    requires r.publicKey.Some? && r.approvalId.Some? && Backed(h, r, log, p)
    ensures ApprovalRecorded(p, terms, url) in log && r.approvalId == Some(h.approvalId(terms)) && r.authorityExpiresAtMs == Some(terms.expiresAtMs)
  {
    terms, url :| ApprovalRecorded(p, terms, url) in log && h.approvalId(terms) == r.approvalId.value
      && r.authorityExpiresAtMs == Some(terms.expiresAtMs) && terms.keyRef == r.publicKey.value.keyRef;
  }
}
