/**
 The durable Petal key record and the three calls that rewrite it: a Petal's key
 request, the owner's session stop, and daemon start-up. Broker answers and the
 clock are inputs of each call; digests are functions supplied by `Hashes`.
 */
module PetalKeys {
  import opened Bytes

  /** A digest as the lower-case hex text the records hold. */
  type Digest = string
  type OperationId = bytes
  type Path = bytes

  const SCHEMA_V3: string := "bloom.machine.petal-key-request.v3"
  const SCHEMA_V2: string := "bloom.machine.petal-key-request.v2"
  const AWAITING: string := "awaiting_user"
  const SUCCEEDED: string := "succeeded"
  const INVALIDATED: string := "ceremony_unavailable_after_restart"
  const U64_MAX: nat := 0xFFFF_FFFF_FFFF_FFFF

  /** `account` is the owner account number read off the derivation path, when there is one. */
  datatype KeyRef = KeyRef(fingerprint: string, account: Option<nat>)

  datatype KeyPublic = KeyPublic(keyRef: KeyRef, addresses: seq<string>, suites: set<string>)

  datatype Scope = Scope(
    wallet: string, parent: KeyRef, package: Digest, lineage: string, keySlot: string,
    suites: seq<string>, maximumLifetimeMs: nat, custodyOperation: OperationId)

  datatype ApprovalState =
    | Prepared | AwaitingCeremony | Active | Revoked | Failed | Exhausted | Expired | Cancelled | Orphaned

  datatype ApprovalStatus = ApprovalStatus(id: Digest, state: ApprovalState)

  datatype StopRecord = StopRecord(atMs: nat, operation: OperationId, approvals: seq<ApprovalStatus>, complete: bool)

  datatype Record = Record(
    schema: string, keySlot: string, scope: Scope, scopeDigest: Digest, provenance: Option<Digest>,
    status: string, url: Option<string>, ceremonyExpiresAtMs: nat,
    publicKey: Option<KeyPublic>, approvalId: Option<Digest>, mount: Option<string>,
    requestedAtMs: nat, succeededAtMs: Option<nat>, authorityExpiresAtMs: Option<nat>, stopped: Option<StopRecord>)

  /** The approval terms sent to Broker, as far as the record depends on them. */
  datatype Terms = Terms(
    scope: Scope, keyRef: KeyRef, grants: seq<string>, provenance: Option<Digest>, issuedAtMs: nat, expiresAtMs: nat)

  datatype Hashes = Hashes(
    scopeDigest: Scope -> Digest,
    approvalId: Terms -> Digest,
    stopOperation: (string, string, string, Option<KeyRef>) -> OperationId)

  // ---- what Broker answers

  datatype PreparedApproval = PreparedApproval(id: Digest, url: string, expiresAtMs: nat)

  datatype PreparedCustody = PreparedCustody(keyDerive: bool, operation: OperationId, url: string, expiresAtMs: nat)

  datatype CustodyAnswer =
    | CustodyResult(keyDerive: bool, operation: OperationId, wallet: Option<string>, encrypted: bool, keys: seq<KeyRef>)
    | CustodyNotFound
    | CustodyError

  /** One answer to each question a key request may ask; `None` is an error answer. */
  datatype Broker = Broker(
    status: Option<ApprovalState>,
    custody: CustodyAnswer,
    key: Option<KeyPublic>,
    prepareApproval: Option<PreparedApproval>,
    prepareCustody: Option<PreparedCustody>)

  // ---- the request, once routed to its record

  /** `grants` is `None` when some allowed route lacks installer provenance for the scope. */
  datatype Request = Request(
    path: Path, keySlot: string, scope: Scope, provenance: Digest, mount: Option<string>, grants: Option<seq<string>>)

  datatype Admission = Refused | AwaitEligibility(operation: OperationId, scopeDigest: Digest) | Admitted(request: Request)

  datatype Outcome =
    | Denied
    | Pending(operation: OperationId, scopeDigest: Digest)
    | Ready(operation: OperationId, scopeDigest: Digest, key: KeyPublic)

  /** What a run leaves behind for the record: answers observed and preparations recorded. */
  datatype Event =
    | StatusReported(path: Path, id: Digest, state: ApprovalState)
    | CustodyRecorded(path: Path, url: string)
    | ApprovalRecorded(path: Path, terms: Terms, url: string)
    | RevokeSent(path: Path, operation: OperationId, numbered: bool)
    | Restarted

  datatype Machine = Machine(records: map<Path, Record>, log: seq<Event>)

  // ---- pure parts

  function GuestOutcome(r: Record): (o: Outcome)
  {
    if r.status == SUCCEEDED && r.publicKey.Some?
    then Ready(r.scope.custodyOperation, r.scopeDigest, r.publicKey.value)
    else Pending(r.scope.custodyOperation, r.scopeDigest)
  }

  /** The accepted (status, key, ceremony) combinations. */
  predicate Shape(r: Record) {
    || (r.status == AWAITING && r.url.Some?)
    || (r.status == SUCCEEDED && r.publicKey.Some? && r.url.None?)
    || (r.status == INVALIDATED && r.url.None?)
  }

  predicate SameTerms(h: Hashes, r: Record, q: Request) {
    && (r.schema == SCHEMA_V3 || r.schema == SCHEMA_V2)
    && r.keySlot == q.keySlot
    && h.scopeDigest(r.scope) == h.scopeDigest(q.scope)
    && r.scopeDigest == h.scopeDigest(q.scope)
    && r.provenance == Some(q.provenance)
    && Shape(r)
  }

  /** Another key family or owner already holds this account's slot. */
  predicate SlotTaken(records: map<Path, Record>, q: Request) {
    exists p :: p in records
      && records[p].scope.wallet == q.scope.wallet
      && records[p].scope.lineage == q.scope.lineage
      && records[p].keySlot == q.keySlot
      && records[p].scope.parent != q.scope.parent
      && records[p].scope.parent.account == q.scope.parent.account
  }

  function ApprovalLifetime(maximumMs: nat): (ms: nat)
    ensures ms <= maximumMs && (ms == 0 <==> maximumMs < 2)
  {
    if maximumMs > 120_000 then maximumMs - 60_000 else maximumMs / 2
  }

  function SaturatingAdd(a: nat, b: nat): (c: nat)
  {
    if a + b > U64_MAX then U64_MAX else a + b
  }

  function TermsFor(q: Request, keyRef: KeyRef, grants: seq<string>, now: nat): (t: Terms)
  {
    Terms(q.scope, keyRef, grants, Some(q.provenance), now,
          SaturatingAdd(now, ApprovalLifetime(q.scope.maximumLifetimeMs)))
  }

  /** The accepted preparation together with the terms it was accepted for. */
  function PrepareApproval(h: Hashes, q: Request, keyRef: KeyRef, b: Broker, now: nat): (r: Option<(PreparedApproval, Terms)>)
    ensures r.Some? ==> r.value.0.id == h.approvalId(r.value.1) && r.value.1.keyRef == keyRef
  {
    if q.grants.None? || ApprovalLifetime(q.scope.maximumLifetimeMs) == 0 || b.prepareApproval.None? then None else
      var terms := TermsFor(q, keyRef, q.grants.value, now);
      if b.prepareApproval.value.id == h.approvalId(terms) then Some((b.prepareApproval.value, terms)) else None
  }

  function BindApproval(r: Record, key: KeyPublic, prepared: PreparedApproval, terms: Terms): (r': Record)
  {
    r.(publicKey := Some(key), approvalId := Some(prepared.id), authorityExpiresAtMs := Some(terms.expiresAtMs),
       status := AWAITING, url := Some(prepared.url), ceremonyExpiresAtMs := prepared.expiresAtMs)
  }

  predicate CustodyFits(q: Request, b: Broker) {
    && b.custody.CustodyResult?
    && b.custody.keyDerive
    && b.custody.operation == q.scope.custodyOperation
    && b.custody.wallet == Some(q.scope.wallet)
    && !b.custody.encrypted
    && |b.custody.keys| == 1
    && b.key.Some?
    && b.key.value.keyRef == b.custody.keys[0]
    && forall i :: 0 <= i < |q.scope.suites| ==> q.scope.suites[i] in b.key.value.suites
  }

  function FreshRecord(h: Hashes, q: Request, prepared: PreparedCustody, now: nat): (r: Record)
  {
    Record(SCHEMA_V3, q.keySlot, q.scope, h.scopeDigest(q.scope), Some(q.provenance), AWAITING, Some(prepared.url),
           prepared.expiresAtMs, None, None, q.mount, now, None, None, None)
  }

  function Write(m: Machine, p: Path, r: Record, e: Event): (m': Machine)
  {
    Machine(m.records[p := r], m.log + [e])
  }

  // ---- the key request as a function

  function StageApproval(h: Hashes, m: Machine, r: Record, key: KeyPublic, q: Request, b: Broker, now: nat): (x: (Machine, Outcome))
  {
    match PrepareApproval(h, q, key.keyRef, b, now)
    case None => (m, Denied)
    case Some((prepared, terms)) =>
      var r' := BindApproval(r, key, prepared, terms);
      (Write(m, q.path, r', ApprovalRecorded(q.path, terms, prepared.url)), GuestOutcome(r'))
  }

  function StageCustody(h: Hashes, m: Machine, q: Request, b: Broker, now: nat): (x: (Machine, Outcome))
  {
    if b.prepareCustody.None?
       || !b.prepareCustody.value.keyDerive
       || b.prepareCustody.value.operation != q.scope.custodyOperation
    then (m, Denied)
    else
      var r := FreshRecord(h, q, b.prepareCustody.value, now);
      (Write(m, q.path, r, CustodyRecorded(q.path, b.prepareCustody.value.url)), GuestOutcome(r))
  }

  function WithKey(h: Hashes, m: Machine, r: Record, q: Request, b: Broker, now: nat): (x: (Machine, Outcome))
    requires r.publicKey.Some?
  {
    if r.approvalId.None? then StageApproval(h, m, r, r.publicKey.value, q, b, now)
    else if b.status.None? then (m, Denied)
    else
      var reported := StatusReported(q.path, r.approvalId.value, b.status.value);
      var asked := m.(log := m.log + [reported]);
      match b.status.value
      case Active =>
        var r' := r.(status := SUCCEEDED, url := None, succeededAtMs := Some(now));
        (Write(m, q.path, r', reported), GuestOutcome(r'))
      case Prepared =>
        if r.status != INVALIDATED then (asked, GuestOutcome(r))
        else StageApproval(h, asked, r, r.publicKey.value, q, b, now)
      case AwaitingCeremony =>
        if r.status != INVALIDATED then (asked, GuestOutcome(r))
        else StageApproval(h, asked, r, r.publicKey.value, q, b, now)
      case _ => (asked, Denied)
  }

  function WithoutKey(h: Hashes, m: Machine, r: Record, q: Request, b: Broker, now: nat): (x: (Machine, Outcome))
    requires r.publicKey.None?
  {
    match b.custody
    case CustodyResult(_, _, _, _, _) =>
      if CustodyFits(q, b) then StageApproval(h, m, r, b.key.value, q, b, now) else (m, Denied)
    case CustodyNotFound =>
      if r.status == INVALIDATED then StageCustody(h, m, q, b, now)
      else if r.ceremonyExpiresAtMs <= now then (m, Denied)
      else (m, GuestOutcome(r))
    case CustodyError => (m, Denied)
  }

  function KeyRequest(h: Hashes, m: Machine, a: Admission, b: Broker, now: nat): (x: (Machine, Outcome))
  {
    match a
    case Refused => (m, Denied)
    case AwaitEligibility(operation, scopeDigest) => (m, Pending(operation, scopeDigest))
    case Admitted(q) =>
      if SlotTaken(m.records, q) then (m, Denied)
      else if q.path !in m.records then StageCustody(h, m, q, b, now)
      else
        var r := m.records[q.path];
        if !SameTerms(h, r, q) then (m, Denied)
        else if r.publicKey.Some? then WithKey(h, m, r, q, b, now)
        else WithoutKey(h, m, r, q, b, now)
  }

  // ---- stopping a session

  datatype Account = Account(wallet: string, number: nat, evm: Option<string>, solana: Option<string>)

  datatype StopResult = Stopped | NotFound | Ambiguous | NoDelegatedKey | BrokerUnavailable | RevokeFailed | NotTerminal

  function RenderedMount(r: Record, unknown: Digest -> string): (mount: string)
  {
    if r.mount.Some? then r.mount.value else unknown(r.scope.package)
  }

  predicate Terminal(s: ApprovalStatus) {
    s.state in {Revoked, Failed, Exhausted, Expired, Cancelled, Orphaned}
  }

  predicate AllTerminal(statuses: seq<ApprovalStatus>) {
    forall i :: 0 <= i < |statuses| ==> Terminal(statuses[i])
  }

  datatype StopRequest = StopRequest(account: Account, mount: string, slot: string, unknown: Digest -> string)

  predicate Matches(r: Record, q: StopRequest) {
    && r.scope.wallet == q.account.wallet
    && (q.account.evm == Some(r.scope.parent.fingerprint) || q.account.solana == Some(r.scope.parent.fingerprint))
    && RenderedMount(r, q.unknown) == q.mount
    && r.keySlot == q.slot
  }

  function Matching(records: map<Path, Record>, q: StopRequest): (ps: set<Path>)
  {
    set p | p in records && Matches(records[p], q)
  }

  predicate IsStopped(r: Record) { r.stopped.Some? && r.stopped.value.complete }

  function StopOperation(h: Hashes, r: Record, numbered: bool): (o: OperationId)
    requires r.publicKey.Some?
  {
    h.stopOperation(r.scope.wallet, r.scope.lineage, r.keySlot,
                    if numbered then Some(r.publicKey.value.keyRef) else None)
  }

  /** Stopping the one matching record `p`; `answer` is `None` without a Broker edge, `Some(None)` when it refuses. */
  function StopAt(h: Hashes, m: Machine, p: Path, numbered: bool, answer: Option<Option<seq<ApprovalStatus>>>, now: nat)
    : (x: (Machine, StopResult))
    requires p in m.records
  {
    var r := m.records[p];
    if r.publicKey.None? then (m, NoDelegatedKey)
    else if IsStopped(r) then (m, Stopped)
    else if answer.None? then (m, BrokerUnavailable)
    else
      var operation := StopOperation(h, r, numbered);
      var sent := RevokeSent(p, operation, numbered);
      if answer.value.None? then (m.(log := m.log + [sent]), RevokeFailed)
      else
        var statuses := answer.value.value;
        var complete := AllTerminal(statuses);
        (Write(m, p, r.(stopped := Some(StopRecord(now, operation, statuses, complete))), sent),
         if complete then Stopped else NotTerminal)
  }

  ghost function StopSession(h: Hashes, m: Machine, q: StopRequest, answer: Option<Option<seq<ApprovalStatus>>>, now: nat)
    : (x: (Machine, StopResult))
  {
    var matching := Matching(m.records, q);
    if matching == {} then (m, NotFound)
    else if |matching| > 1 then (m, Ambiguous)
    else
      var p :| p in matching;
      StopAt(h, m, p, q.account.number > 0, answer, now)
  }

  // ---- start-up

  function Invalidate(r: Record): (r': Record)
  {
    if r.schema != SCHEMA_V3 || r.url.None? then r else r.(status := INVALIDATED, url := None)
  }

  function Advertising(records: map<Path, Record>): (ps: set<Path>)
  {
    set p | p in records && records[p].schema == SCHEMA_V3 && records[p].url.Some?
  }

  function Restart(m: Machine): (m': Machine)
  {
    Machine(map p | p in m.records :: Invalidate(m.records[p]), m.log + [Restarted])
  }

  // ---- what a session document says

  function SessionAuthority(installed: set<Digest>, r: Record, now: nat): (authority: string)
  {
    if IsStopped(r) then "stopped"
    else if r.scope.package !in installed then "package_replaced"
    else if r.authorityExpiresAtMs.Some? && now >= r.authorityExpiresAtMs.value then "expired"
    else if r.status != SUCCEEDED then "pending"
    else "active"
  }

  /** The sessions that a replacement or removal of `package` would strand. */
  function ActiveSessions(installed: set<Digest>, records: map<Path, Record>, package: Digest, now: nat): (ps: set<Path>)
  {
    set p | p in records && records[p].scope.package == package && SessionAuthority(installed, records[p], now) in {"active", "pending"}
  }

  predicate Ended(r: Record, now: nat) {
    IsStopped(r) || (r.authorityExpiresAtMs.Some? && now >= r.authorityExpiresAtMs.value)
  }

  /** None is left exactly when every record of the package has been stopped or has expired, or the package is not installed. */
  lemma NoneActiveExactly(installed: set<Digest>, records: map<Path, Record>, package: Digest, now: nat)
    ensures ActiveSessions(installed, records, package, now) == {} <==>
      forall p :: p in records && records[p].scope.package == package ==> Ended(records[p], now) || package !in installed
  {
    var active := ActiveSessions(installed, records, package, now);
    assert forall p :: p in active <==> p in records && records[p].scope.package == package && !(Ended(records[p], now) || package !in installed);
  }
}
