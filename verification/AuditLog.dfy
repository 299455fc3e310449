/**
 The Machine's signed audit journal: records are only ever appended, an intent opens an
 external effect and a result closes it, and the first failed append disables every
 later one until the daemon restarts.
 */
module AuditLog {
  import opened Bytes

  /** At most this many effects may have an intent and no result. */
  const MAX_PENDING: nat := 64

  /** An operation id and the number the journal was expected to give the intent, printed as `id:number`. */
  datatype Correlation = Correlation(operation: string, number: nat)

  datatype Record = Intent(id: Correlation) | Result(id: Correlation) | Note

  /** Why appends are refused: unresolved effects found at startup, or some other first cause. */
  datatype Degradation = Healthy | Unresolved(effects: set<Correlation>) | Failed

  /**
   What became of a line: written and acknowledged, not written, written whole though the
   write reported failure, or left unfinished at the end of the file.
   */
  datatype Disk = Stored | Lost | Landed | Torn

  /** `journal` are the acknowledged records, `file` the whole lines of the file, `torn` an unfinished one after them. */
  datatype Log = Log(
    journal: seq<Record>, file: seq<Record>, torn: bool, pending: set<Correlation>, degraded: Degradation, latched: bool)

  /** The number of the last record; one more is what the next record gets. */
  function Sequence(log: Log): (n: nat) {
    |log.journal|
  }

  function Transition(pending: set<Correlation>, r: Record): (p: Option<set<Correlation>>) {
    match r
    case Intent(id) => if |pending| < MAX_PENDING && id !in pending then Some(pending + {id}) else None
    case Result(id) => if id in pending then Some(pending - {id}) else None
    case Note => Some(pending)
  }

  /** The effects a journal leaves open, or None for a journal no correct writer leaves behind. */
  function Open(journal: seq<Record>): (p: Option<set<Correlation>>) {
    if journal == [] then Some({}) else
      var p :- Open(journal[..|journal| - 1]);
      Transition(p, journal[|journal| - 1])
  }

  /** An open effect is one whose last intent or result is an intent. */
  ghost predicate LeftOpen(journal: seq<Record>, id: Correlation) {
    exists k :: 0 <= k < |journal| && journal[k] == Intent(id) && Result(id) !in journal[k + 1..]
  }

  lemma LeftOpenSnoc(front: seq<Record>, r: Record, id: Correlation)
    ensures LeftOpen(front + [r], id) <==> r == Intent(id) || (LeftOpen(front, id) && r != Result(id))
  {
    var n, journal := |front|, front + [r];
    if r == Intent(id) {
      assert journal[n] == Intent(id) && journal[n + 1..] == [];
    } else if LeftOpen(front, id) && r != Result(id) {
      var k :| 0 <= k < n && front[k] == Intent(id) && Result(id) !in front[k + 1..];
      assert journal[k] == Intent(id) && journal[k + 1..] == front[k + 1..] + [r];
    }
    if LeftOpen(journal, id) && r != Intent(id) {
      var k :| 0 <= k < |journal| && journal[k] == Intent(id) && Result(id) !in journal[k + 1..];
      assert front[k] == Intent(id) && journal[k + 1..] == front[k + 1..] + [r];
    }
  }

  lemma {:induction false} OpenExactly(journal: seq<Record>, id: Correlation)
    requires Open(journal).Some?
    ensures id in Open(journal).value <==> LeftOpen(journal, id)
  {
    hide LeftOpen;
    if journal == [] {
      assert !LeftOpen(journal, id) by { LeftOpenEmpty(id); }
    } else {
      var front, r := journal[..|journal| - 1], journal[|journal| - 1];
      assert journal == front + [r];
      OpenExactly(front, id);
      LeftOpenSnoc(front, r, id);
    }
  }

  lemma LeftOpenEmpty(id: Correlation)
    ensures !LeftOpen([], id)
  {
  }

  function Degraded(pending: set<Correlation>): (d: Degradation) {
    if pending == {} then Healthy else Unresolved(pending)
  }

  /** The first cause is kept; the latch itself is never undone while the daemon runs. */
  function Latch(log: Log): (t: Log) {
    log.(latched := true, degraded := if log.degraded.Healthy? then Failed else log.degraded)
  }

  datatype Outcome = Outcome(log: Log, ok: bool)

  function Write(log: Log, r: Record, disk: Disk): (o: Outcome) {
    match Transition(log.pending, r)
    case None => Outcome(Latch(log), false)
    case Some(p) =>
      match disk
      case Stored => Outcome(log.(journal := log.journal + [r], file := log.file + [r], pending := p), true)
      case Lost => Outcome(Latch(log), false)
      case Landed => Outcome(Latch(log.(file := log.file + [r])), false)
      case Torn => Outcome(Latch(log.(torn := true)), false)
  }

  function Append(log: Log, r: Record, disk: Disk): (o: Outcome) {
    if log.degraded.Healthy? then Write(log, r, disk) else Outcome(log, false)
  }

  /** Which of the other checks of opening failed: a file that changed meanwhile, legacy migration, key rotation, its history. */
  datatype Checks = Checks(changed: bool, legacy: bool, rotation: bool, history: bool)

  const PASSED: Checks := Checks(false, false, false, false)

  /** What a starting daemon makes of the file it finds; the first of several causes is kept, in this order. */
  function Restart(file: seq<Record>, torn: bool, checks: Checks): (log: Log) {
    var found := if torn then None else Open(file);
    var pending := if found.Some? then found.value else {};
    var degraded := if checks.changed || checks.legacy || found.None? then Failed
                    else if pending != {} then Unresolved(pending)
                    else if checks.rotation || checks.history then Failed
                    else Healthy;
    Log(file, file, torn, pending, degraded, found.None? || checks != PASSED)
  }

  /**
   An operator closes one effect of an earlier daemon, having typed the confirmation that
   names it; refused for an effect that may still be running.
   */
  function Reconcile(log: Log, id: Correlation, confirmed: bool, disk: Disk): (o: Outcome) {
    if !confirmed || log.torn then Outcome(log, false) else
    match Open(log.file)
    case None => Outcome(log, false)
    case Some(p) =>
      if id !in p || log.latched || log.degraded != Degraded(p) then Outcome(log, false) else
      var w := Write(log.(journal := log.file, pending := p), Result(id), disk);
      if w.ok then w.(log := w.log.(degraded := Degraded(w.log.pending))) else w
  }

  /** The file may be ahead of the acknowledged records by the one line whose write failed. */
  predicate Ahead(log: Log) {
    && Open(log.file).Some?
    && |log.journal| <= |log.file| <= |log.journal| + 1
    && log.journal == log.file[..|log.journal|]
  }

  /** What the daemon's own appends keep: memory agrees with the file, and with the reason for refusing. */
  predicate Sound(log: Log) {
    && Ahead(log)
    && (!log.latched ==> log.file == log.journal && !log.torn)
    && (!log.torn ==> Open(log.journal) == Some(log.pending))
    && (log.degraded.Healthy? ==> !log.latched)
    && (log.degraded.Failed? ==> log.latched)
    && (log.degraded.Unresolved? ==> log.degraded.effects == log.pending && log.pending != {})
  }

  lemma OpenSnoc(journal: seq<Record>, r: Record)
    requires Open(journal).Some?
    ensures Open(journal + [r]) == Transition(Open(journal).value, r)
  {
    assert (journal + [r])[..|journal|] == journal;
  }

  lemma WriteKeepsSound(log: Log, r: Record, disk: Disk)
    requires Sound(log) && !log.latched
    ensures var w := Write(log, r, disk);
      Ahead(w.log) && (!w.log.torn ==> Open(w.log.journal) == Some(w.log.pending)) && (w.ok ==> w.log.file == w.log.journal && !w.log.torn)
  {
    hide Open, Transition;
    OpenSnoc(log.journal, r);
    assert (log.file + [r])[..|log.journal|] == log.journal;
    assert (log.file + [r])[..|log.journal + [r]|] == log.journal + [r];
  }

  /**
   Whatever becomes of the line, the whole lines of the file always pass verification, and
   until the first failure reopening would find exactly the effects held in memory.
   */
  lemma AppendKeepsSound(log: Log, r: Record, disk: Disk)
    requires Sound(log)
    ensures Sound(Append(log, r, disk).log)
  {
    hide Open, Ahead;
    if log.degraded.Healthy? {
      WriteKeepsSound(log, r, disk);
    }
  }

  /** A record in order: at most 64 effects are open at a time, none twice, and a result closes one that is open. */
  predicate InOrder(pending: set<Correlation>, r: Record) {
    match r
    case Intent(id) => id !in pending && |pending| < 64
    case Result(id) => id in pending
    case Note => true
  }

  /**
   An append is accepted exactly if nothing failed before, the record is in order and the line is
   stored; the file gains the line exactly if it was written whole, acknowledged or not, and the
   first failure is kept as the cause.
   */
  lemma AppendExactly(log: Log, r: Record, disk: Disk)
    ensures var o := Append(log, r, disk); var tried := log.degraded == Healthy && InOrder(log.pending, r);
      && (o.ok <==> tried && disk == Stored)
      && o.log.file == (if tried && disk in {Stored, Landed} then log.file + [r] else log.file)
      && o.log.journal == (if o.ok then log.journal + [r] else log.journal)
      && (o.log.torn <==> log.torn || (tried && disk == Torn))
      && (o.log.latched <==> log.latched || (log.degraded == Healthy && !o.ok))
      && o.log.degraded == (if log.degraded == Healthy && !o.ok then Failed else log.degraded)
      && (forall id :: id in o.log.pending <==> (id in log.pending && !(o.ok && r == Result(id))) || (o.ok && r == Intent(id)))
  {
  }

  /** What an append means for the effects held in memory. */
  lemma AppendOutcome(log: Log, r: Record, disk: Disk)
    ensures var o := Append(log, r, disk);
      && (o.ok <==> log.degraded.Healthy? && disk.Stored? && Transition(log.pending, r).Some?)
      && (o.ok ==> o.log.degraded.Healthy? && o.log.journal == log.journal + [r] && Some(o.log.pending) == Transition(log.pending, r))
      && (!o.ok ==> o.log.journal == log.journal && o.log.pending == log.pending)
      && (!o.ok ==> o.log.degraded == if log.degraded.Healthy? then Failed else log.degraded)
  {
  }

  lemma ReconcileKeepsSound(log: Log, id: Correlation, confirmed: bool, disk: Disk)
    requires Sound(log)
    ensures Sound(Reconcile(log, id, confirmed, disk).log)
  {
    hide Open;
    if !log.latched {
      assert log.(journal := log.file, pending := Open(log.file).value) == log;
      WriteKeepsSound(log, Result(id), disk);
    }
  }

  /**
   A reconciliation succeeds exactly if it is confirmed, the file is whole and in order and leaves
   that effect open, nothing failed since this daemon started disabled by all the effects the file
   leaves open, and the line is stored. It then adds just the missing result, so that it closes this
   effect and no other, and appends are accepted again exactly when none is left.
   */
  lemma ReconcileExactly(log: Log, id: Correlation, confirmed: bool, disk: Disk)
    ensures var o := Reconcile(log, id, confirmed, disk); var open := Open(log.file);
      && (o.ok <==> confirmed && !log.torn && open.Some? && LeftOpen(log.file, id) && !log.latched && log.degraded == Unresolved(open.value) && disk.Stored?)
      && (o.ok ==>
            && o.log.file == log.file + [Result(id)] && o.log.journal == o.log.file && !o.log.latched && !o.log.torn
            && (forall other :: other in o.log.pending <==> LeftOpen(log.file, other) && other != id)
            && (o.log.degraded.Healthy? <==> forall other :: LeftOpen(log.file, other) ==> other == id)
            && (o.log.degraded.Healthy? || o.log.degraded == Unresolved(o.log.pending)))
      && (!o.ok && !log.latched && !o.log.latched ==> o.log == log)
  {
    hide LeftOpen, Open;
    if Open(log.file).Some? {
      forall other ensures other in Open(log.file).value <==> LeftOpen(log.file, other) {
        OpenExactly(log.file, other);
      }
    }
  }

  /** The operator closes these effects one after the other, and every line is stored. */
  function ReconcileAll(log: Log, ids: seq<Correlation>): (t: Log)
    decreases |ids|
  {
    if ids == [] then log else ReconcileAll(Reconcile(log, ids[0], true, Stored).log, ids[1..])
  }

  /** Closing every effect found open, in any order, leads a daemon that failed nothing else back to accepting appends. */
  lemma {:induction false} OperatorRecovers(log: Log, ids: seq<Correlation>)
    requires Sound(log) && !log.latched && log.degraded == Degraded(log.pending)
    requires (forall id :: id in ids <==> id in log.pending) && forall i, j :: 0 <= i < j < |ids| ==> ids[i] != ids[j]
    ensures ReconcileAll(log, ids).degraded.Healthy? && Sound(ReconcileAll(log, ids))
    decreases |ids|
  {
    hide Open, Ahead, LeftOpen, Reconcile;
    if ids == [] {
      assert log.pending == {} by { assert forall id :: id !in log.pending; }
    } else {
      assert ids[0] in ids && log.pending != {};
      OpenIsPending(log);
      ReconcileKeepsSound(log, ids[0], true, Stored);
      ReconcileExactly(log, ids[0], true, Stored);
      OpenExactly(log.file, ids[0]);
      var t := Reconcile(log, ids[0], true, Stored).log;
      forall id ensures id in ids[1..] <==> id in t.pending {
        OpenExactly(log.file, id);
        if id in ids[1..] {
          var k :| 0 <= k < |ids[1..]| && ids[1..][k] == id;
          assert ids[k + 1] == id && ids[0] != ids[k + 1];
        }
        assert id in ids ==> id == ids[0] || id in ids[1..];
      }
      assert t.pending == {} ==> t.degraded.Healthy?;
      OperatorRecovers(t, ids[1..]);
    }
  }

  lemma OpenIsPending(log: Log)
    requires Sound(log) && !log.latched
    ensures Open(log.file) == Some(log.pending)
  {
  }

  lemma RestartIsSound(file: seq<Record>, torn: bool, checks: Checks)
    requires Open(file).Some?
    ensures Sound(Restart(file, torn, checks))
  {
    assert file[..|file|] == file;
  }

  class Journal {
    var records: seq<Record>
    var file: seq<Record>
    var torn: bool
    var pending: set<Correlation>
    var degraded: Degradation
    var latched: bool

    ghost function Value(): (log: Log)
      reads this
    {
      Log(records, file, torn, pending, degraded, latched)
    }

    /** The verification pass over every record of the file. */
    static method Inspect(records: seq<Record>) returns (p: Option<set<Correlation>>)
      ensures p == Open(records)
    {
      var open: set<Correlation> := {};
      for i := 0 to |records|
        invariant Open(records[..i]) == Some(open)
      {
        assert records[..i + 1] == records[..i] + [records[i]];
        OpenSnoc(records[..i], records[i]);
        match records[i]
        case Intent(id) =>
          if |open| >= MAX_PENDING || id in open {
            OpenStaysBroken(records, i + 1);
            return None;
          }
          open := open + {id};
        case Result(id) =>
          if id !in open {
            OpenStaysBroken(records, i + 1);
            return None;
          }
          open := open - {id};
        case Note =>
      }
      assert records[..|records|] == records;
      return Some(open);
    }

    constructor (file: seq<Record>, torn: bool, checks: Checks)
      ensures Value() == Restart(file, torn, checks)
    {
      var p := Inspect(file);
      if torn {
        p := None;
      }
      this.records, this.file, this.torn := file, file, torn;
      pending := if p.Some? then p.value else {};
      latched := p.None? || checks.changed || checks.legacy || checks.rotation || checks.history;
      degraded := if checks.changed || checks.legacy then Failed
                  else if p.None? then Failed
                  else if p.value != {} then Unresolved(p.value)
                  else if checks.rotation || checks.history then Failed
                  else Healthy;
    }

    method LatchDegradation()
      modifies this
      ensures Value() == Latch(old(Value()))
    {
      latched := true;
      if degraded.Healthy? {
        degraded := Failed;
      }
    }

    static method ApplyTransition(pending: set<Correlation>, r: Record) returns (p: Option<set<Correlation>>)
      ensures p == Transition(pending, r)
    {
      match r {
        case Intent(id) =>
          if |pending| >= MAX_PENDING || id in pending {
            return None;
          }
          return Some(pending + {id});
        case Result(id) =>
          if id !in pending {
            return None;
          }
          return Some(pending - {id});
        case Note => return Some(pending);
      }
    }

    method WriteLine(r: Record, disk: Disk) returns (ok: bool)
      modifies this`file, this`torn
      ensures ok == disk.Stored?
      ensures file == old(file) + if disk.Stored? || disk.Landed? then [r] else []
      ensures torn == (old(torn) || disk.Torn?)
    {
      match disk {
        case Stored => file := file + [r];
        case Lost =>
        case Landed => file := file + [r];
        case Torn => torn := true;
      }
      return disk.Stored?;
    }

    method AppendLocked(r: Record, disk: Disk, reconciling: bool) returns (ok: bool)
      modifies this
      ensures Outcome(Value(), ok) == if reconciling then Write(old(Value()), r, disk) else Append(old(Value()), r, disk)
    {
      if !reconciling && !degraded.Healthy? {
        return false;
      }
      hide Transition;
      var next := ApplyTransition(pending, r);
      ok := false;
      if next.Some? {
        ok := WriteLine(r, disk);
      }
      if !ok {
        LatchDegradation();
        return;
      }
      records := records + [r];
      pending := next.value;
    }

    method ReconcilePendingEffect(id: Correlation, confirmed: bool, disk: Disk) returns (ok: bool)
      modifies this
      ensures Outcome(Value(), ok) == Reconcile(old(Value()), id, confirmed, disk)
    {
      if !confirmed || torn {
        return false;
      }
      var tail := Inspect(file);
      if tail.None? || id !in tail.value {
        return false;
      }
      if latched || degraded != Degraded(tail.value) {
        return false;
      }
      records := file;
      pending := tail.value;
      ok := AppendLocked(Result(id), disk, true);
      if ok {
        OpenSnoc(file[..|file| - 1], Result(id));
        assert file == file[..|file| - 1] + [Result(id)];
        tail := Inspect(file);
        pending := tail.value;
        degraded := Degraded(tail.value);
      }
    }
  }

  lemma OpenStaysBroken(journal: seq<Record>, i: nat)
    requires i <= |journal| && Open(journal[..i]).None?
    ensures Open(journal).None?
    decreases |journal| - i
  {
    if i < |journal| {
      assert journal[..i + 1][..i] == journal[..i];
      OpenStaysBroken(journal, i + 1);
    } else {
      assert journal[..i] == journal;
    }
  }
}
