/** The daemon's calls on its Petal key records, updating them in place. */
module PetalStore {
  import opened Bytes
  import opened PetalKeys

  lemma Singleton<T>(s: set<T>, a: T, b: T)
    requires |s| == 1 && a in s && b in s
    ensures a == b
  {
    assert |s - {a}| == 0;
  }

  /** The records once start-up has visited all but those `left`. */
  function Swept(before: map<Path, Record>, left: set<Path>): (after: map<Path, Record>)
  {
    map p | p in before :: if p in left then before[p] else Invalidate(before[p])
  }

  lemma SweptAll(before: map<Path, Record>)
    ensures Swept(before, before.Keys) == before && Advertising(before) - before.Keys == {}
    ensures Swept(before, {}) == map p | p in before :: Invalidate(before[p])
    ensures Advertising(before) - {} == Advertising(before)
  {
  }

  lemma SweepOne(before: map<Path, Record>, left: set<Path>, p: Path)
    requires left <= before.Keys && p in left
    ensures Swept(before, left)[p] == before[p]
    ensures var r, left' := before[p], left - {p};
            if r.schema != SCHEMA_V3 || r.url.None?
            then Swept(before, left') == Swept(before, left) && Advertising(before) - left' == Advertising(before) - left
            else Swept(before, left') == Swept(before, left)[p := r.(status := INVALIDATED, url := None)]
                 && |Advertising(before) - left'| == |Advertising(before) - left| + 1
  {
    var a := Advertising(before);
    if p in a {
      assert a - (left - {p}) == (a - left) + {p};
    } else {
      assert a - (left - {p}) == a - left;
    }
  }

  class PetalKeyStore {
    const h: Hashes
    var records: map<Path, Record>
    ghost var log: seq<Event>

    constructor (h: Hashes)
      ensures this.h == h && State() == Machine(map[], [])
    {
      this.h := h;
      records := map[];
      log := [];
    }

    ghost function State(): Machine
      reads this
    {
      Machine(records, log)
    }

    /** Scans every stored record for another family or owner of the same slot. */
    method ScanSlot(q: Request) returns (taken: bool)
      ensures taken <==> SlotTaken(records, q)
    {
      var left := records.Keys;
      while left != {}
        invariant left <= records.Keys
        invariant !SlotTaken(map p | p in records && p !in left :: records[p], q)
        decreases |left|
      {
        var p :| p in left;
        var r := records[p];
        if r.scope.wallet == q.scope.wallet && r.scope.lineage == q.scope.lineage && r.keySlot == q.keySlot
           && r.scope.parent != q.scope.parent && r.scope.parent.account == q.scope.parent.account {
          return true;
        }
        left := left - {p};
      }
      assert (map p | p in records && p !in left :: records[p]) == records;
      return false;
    }

    method Approve(stored: Record, key: KeyPublic, q: Request, b: Broker, now: nat) returns (o: Outcome)
      modifies this
      ensures (State(), o) == StageApproval(h, old(State()), stored, key, q, b, now)
    {
      var prepared := PrepareApproval(h, q, key.keyRef, b, now);
      if prepared.None? {
        return Denied;
      }
      var next := stored;
      next := next.(publicKey := Some(key));
      next := next.(approvalId := Some(prepared.value.0.id));
      next := next.(authorityExpiresAtMs := Some(prepared.value.1.expiresAtMs));
      next := next.(status := AWAITING);
      next := next.(url := Some(prepared.value.0.url));
      next := next.(ceremonyExpiresAtMs := prepared.value.0.expiresAtMs);
      records := records[q.path := next];
      log := log + [ApprovalRecorded(q.path, prepared.value.1, prepared.value.0.url)];
      return GuestOutcome(next);
    }

    method PrepareCustody(q: Request, b: Broker, now: nat) returns (o: Outcome)
      modifies this
      ensures (State(), o) == StageCustody(h, old(State()), q, b, now)
    {
      if b.prepareCustody.None? {
        return Denied;
      }
      var prepared := b.prepareCustody.value;
      if !prepared.keyDerive || prepared.operation != q.scope.custodyOperation {
        return Denied;
      }
      var stored := FreshRecord(h, q, prepared, now);
      records := records[q.path := stored];
      log := log + [CustodyRecorded(q.path, b.prepareCustody.value.url)];
      return GuestOutcome(stored);
    }

    method PetalKeyRequest(a: Admission, b: Broker, now: nat) returns (o: Outcome)
      modifies this
      ensures (State(), o) == KeyRequest(h, old(State()), a, b, now)
    {
      match a {
        case Refused => return Denied;
        case AwaitEligibility(operation, scopeDigest) => return Pending(operation, scopeDigest);
        case Admitted(_) =>
      }
      var q := a.request;
      var taken := ScanSlot(q);
      if taken {
        return Denied;
      }
      if q.path in records {
        var stored := records[q.path];
        if !SameTerms(h, stored, q) {
          return Denied;
        }
        if stored.publicKey.Some? {
          if stored.approvalId.Some? {
            if b.status.None? {
              return Denied;
            }
            log := log + [StatusReported(q.path, stored.approvalId.value, b.status.value)];
            if b.status.value == Active {
              stored := stored.(status := SUCCEEDED);
              stored := stored.(url := None);
              stored := stored.(succeededAtMs := Some(now));
              records := records[q.path := stored];
              return GuestOutcome(stored);
            }
            if b.status.value != Prepared && b.status.value != AwaitingCeremony {
              return Denied;
            }
            if stored.status != INVALIDATED {
              return GuestOutcome(stored);
            }
          }
          o := Approve(stored, stored.publicKey.value, q, b, now);
          return;
        }
        match b.custody {
          case CustodyResult(_, _, _, _, _) =>
            if !CustodyFits(q, b) {
              return Denied;
            }
            o := Approve(stored, b.key.value, q, b, now);
            return;
          case CustodyNotFound =>
            if stored.status != INVALIDATED {
              if stored.ceremonyExpiresAtMs <= now {
                return Denied;
              }
              return GuestOutcome(stored);
            }
          case CustodyError =>
            return Denied;
        }
      }
      o := PrepareCustody(q, b, now);
    }

    method StopSession(q: StopRequest, answer: Option<Option<seq<ApprovalStatus>>>, now: nat) returns (result: StopResult)
      modifies this
      ensures (State(), result) == PetalKeys.StopSession(h, old(State()), q, answer, now)
    {
      var matching := Matching(records, q);
      if matching == {} {
        return NotFound;
      }
      if |matching| > 1 {
        return Ambiguous;
      }
      var p :| p in matching;
      forall other | other in matching ensures other == p {
        Singleton(matching, other, p);
      }
      var state := records[p];
      if state.publicKey.None? {
        return NoDelegatedKey;
      }
      if IsStopped(state) {
        return Stopped;
      }
      if answer.None? {
        return BrokerUnavailable;
      }
      var operation := StopOperation(h, state, q.account.number > 0);
      log := log + [RevokeSent(p, operation, q.account.number > 0)];
      if answer.value.None? {
        return RevokeFailed;
      }
      var statuses := answer.value.value;
      var complete := AllTerminal(statuses);
      var next := state.(stopped := Some(StopRecord(now, operation, statuses, complete)));
      records := records[p := next];
      return if complete then Stopped else NotTerminal;
    }

    /** Start-up: visits every record once and counts those it retires. */
    method InvalidateStaleCeremonies() returns (invalidated: nat)
      modifies this
      ensures State() == Restart(old(State()))
      ensures invalidated == |Advertising(old(records))|
    {
      hide Advertising, Invalidate;
      invalidated := 0;
      var before := records;
      var left := records.Keys;
      SweptAll(before);
      while left != {}
        invariant left <= before.Keys && log == old(log)
        invariant records == Swept(before, left)
        invariant invalidated == |Advertising(before) - left|
        decreases |left|
      {
        var p :| p in left;
        SweepOne(before, left, p);
        left := left - {p};
        var state := records[p];
        if state.schema != SCHEMA_V3 || state.url.None? {
          continue;
        }
        records := records[p := state.(status := INVALIDATED, url := None)];
        invalidated := invalidated + 1;
      }
      log := log + [Restarted];
    }
  }
}
