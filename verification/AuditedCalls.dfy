/**
 The daemon's audited procedures over the shared journal. Each is proved to do, when nothing
 interrupts it, what its call does in the interleaved model.
 */
module AuditedCalls {
  import opened Bytes
  import opened AuditLog
  import opened Audit

  function Perform(s: State, a: Action): (t: State) {
    if Enabled(s, a) then Next(s, a) else s
  }

  function Alone(log: Log, kind: Kind, operation: string): (s: State) {
    State(log, [Call(kind, operation, Idle)], [])
  }

  /** Up to the effect, if the intent is accepted. */
  function UpToEffect(log: Log, kind: Kind, operation: string, first: Disk): (s: State) {
    Perform(Perform(Perform(Alone(log, kind, operation), Begin(0)), WriteIntent(0, first)), Act(0))
  }

  lemma UpToEffectIs(log: Log, kind: Kind, operation: string, first: Disk)
    ensures var id := Correlation(operation, Sequence(log) + 1); var o := Append(log, Intent(id), first);
      UpToEffect(log, kind, operation, first) ==
        if o.ok then State(o.log, [Call(kind, operation, Acting(id))], [IntentTried(0, true), Acted(0)])
        else State(o.log, [Call(kind, operation, Refused(id))], [IntentTried(0, false)])
  {
    hide Append;
    var s := Alone(log, kind, operation);
    var id := Correlation(operation, Sequence(log) + 1);
    assert Perform(s, Begin(0)) == s.(calls := [Call(kind, operation, Ready(id))]);
  }

  /** What a procedure did: whether the effect happened, and whether its result was recorded if it tried. */
  datatype Report = Report(acted: bool, recorded: Option<bool>)

  function ReportOf(s: State): (r: Report)
    requires |s.calls| == 1
  {
    match s.calls[0].stage
    case Closed(_, ok) => Report(true, Some(ok))
    case _ => Report(false, None)
  }

  /** The last step, if the effect happened. */
  lemma ClosesIs(s: State, a: Action)
    requires |s.calls| == 1 && s.calls[0].stage.Acting?
    requires a.WriteResult? || (a.Cancel? && s.calls[0].kind.Refresh?)
    requires a.call == 0
    ensures var o := Append(s.log, Result(s.calls[0].stage.id), a.disk); var t := Perform(s, a);
      |t.calls| == 1 && t.log == o.log && ReportOf(t) == Report(true, Some(o.ok))
  {
    hide Append;
  }

  lemma RefusedStays(s: State, a: Action)
    requires |s.calls| == 1 && s.calls[0].stage.Refused? && (a.WriteResult? || a.Cancel?)
    ensures Perform(s, a) == s && ReportOf(s) == Report(false, None)
  {
  }

  /** `due` is whether anything has expired; `first` and `second` are what becomes of the two lines. */
  method RunExpirySweepOnce(journal: Journal, operation: string, due: bool, first: Disk, second: Disk) returns (r: Report)
    modifies journal
    ensures var s := if due then Perform(UpToEffect(old(journal.Value()), Sweep, operation, first), WriteResult(0, second))
                     else Perform(Alone(old(journal.Value()), Sweep, operation), Skip(0));
      |s.calls| == 1 && journal.Value() == s.log && r == ReportOf(s)
  {
    if !due {
      return Report(false, None);
    }
    hide Append, Perform, UpToEffect, ReportOf;
    ghost var s := UpToEffect(journal.Value(), Sweep, operation, first);
    UpToEffectIs(journal.Value(), Sweep, operation, first);
    var id := Correlation(operation, |journal.records| + 1);
    var ok := journal.AppendLocked(Intent(id), first, false);
    if !ok {
      RefusedStays(s, WriteResult(0, second));
      return Report(false, None);
    }
    ClosesIs(s, WriteResult(0, second));
    r := Report(true, None);
    ok := journal.AppendLocked(Result(id), second, false);
    r := r.(recorded := Some(ok));
  }

  method ConfirmBatch(journal: Journal, operation: string, first: Disk, second: Disk) returns (r: Report)
    modifies journal
    ensures var s := Perform(UpToEffect(old(journal.Value()), Batch, operation, first), WriteResult(0, second));
      |s.calls| == 1 && journal.Value() == s.log && r == ReportOf(s)
  {
    hide Append, Perform, UpToEffect, ReportOf;
    ghost var s := UpToEffect(journal.Value(), Batch, operation, first);
    UpToEffectIs(journal.Value(), Batch, operation, first);
    var id := Correlation(operation, |journal.records| + 1);
    var ok := journal.AppendLocked(Intent(id), first, false);
    if !ok {
      RefusedStays(s, WriteResult(0, second));
      return Report(false, None);
    }
    ClosesIs(s, WriteResult(0, second));
    r := Report(true, None);
    ok := journal.AppendLocked(Result(id), second, false);
    r := r.(recorded := Some(ok));
  }

  /** The guard of a running refresh: dropping it unfinished writes the result it owes. */
  class RefreshAudit {
    const journal: Journal
    const id: Correlation
    var finished: bool

    constructor (journal: Journal, id: Correlation)
      ensures this.journal == journal && this.id == id && !finished
    {
      this.journal, this.id, finished := journal, id, false;
    }

    /** A failed result stays failed: dropping the guard afterwards does not try again. */
    method Finish(disk: Disk) returns (ok: bool)
      modifies this, journal
      ensures finished && Outcome(journal.Value(), ok) == Append(old(journal.Value()), Result(id), disk)
    {
      finished := true;
      ok := journal.AppendLocked(Result(id), disk, false);
    }

    method Drop(disk: Disk) returns (tried: Option<bool>)
      modifies journal
      ensures old(finished) ==> tried.None? && journal.Value() == old(journal.Value())
      ensures !old(finished) ==> tried.Some? && Outcome(journal.Value(), tried.value) == Append(old(journal.Value()), Result(id), disk)
    {
      if finished {
        return None;
      }
      var ok := journal.AppendLocked(Result(id), disk, false);
      return Some(ok);
    }
  }

  /** Cancelled or not, a refresh whose intent was accepted tries its result exactly once. */
  method RefreshOnce(journal: Journal, operation: string, first: Disk, cancelled: bool, second: Disk) returns (r: Report)
    modifies journal
    ensures var a := if cancelled then Cancel(0, second) else WriteResult(0, second);
      var s := Perform(UpToEffect(old(journal.Value()), Refresh, operation, first), a);
      |s.calls| == 1 && journal.Value() == s.log && r == ReportOf(s)
  {
    hide Append, Perform, UpToEffect, ReportOf;
    ghost var s := UpToEffect(journal.Value(), Refresh, operation, first);
    UpToEffectIs(journal.Value(), Refresh, operation, first);
    var id := Correlation(operation, |journal.records| + 1);
    var ok := journal.AppendLocked(Intent(id), first, false);
    ghost var a := if cancelled then Cancel(0, second) else WriteResult(0, second);
    if !ok {
      RefusedStays(s, a);
      return Report(false, None);
    }
    ClosesIs(s, a);
    var guard := new RefreshAudit(journal, id);
    r := Report(true, None);
    if !cancelled {
      ok := guard.Finish(second);
      r := r.(recorded := Some(ok));
    }
    var late := guard.Drop(second);
    if late.Some? {
      r := r.(recorded := late);
    }
  }
}
