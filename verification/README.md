# Bloom, modelled and proved in Dafny

Bloom is a local daemon that gives sandboxed Petals wallets, sessions and audited network
access. This project models the parts of it that are hardest to get right and proves what
they promise over every input, every interleaving and every run.

* **The IPC transport.** `Base64`, `Envelope`, `Transport` and `Channel` are the framed,
  chunked message codec (base64 per section 4 of RFC 4648) and the loops that read and write
  it, `TransportReading` what a read comes to on any bytes; `StreamedRead` is the bounded pipe
  between a file read and its connection.
* **The package lock.** `MutationLock` interleaves installs, uninstalls, petname changes and
  inert reads with guests, sessions, restarts and the clock; `SessionGuard` says when a package
  can be taken from under a live session, `PackageChanges` what each step does to the store, and
  `PackageProgress` that a call nothing speaks against comes through.
* **Petal keys and sessions.** `PetalKeys` holds the records and what each call does to them,
  `PetalStore` the calls as they update the store, `PetalRuns` what holds over runs of key
  requests, stops and restarts against arbitrary Broker answers, and `PetalAnswers` when exactly
  a Petal or its owner gets which answer.
* **Audited effects.** `Fetch`, `FetchSafety` and `FetchAnswers` are the redirect loop (origins
  per section 5 of RFC 6454, redirects per section 15.4 of RFC 9110) against an arbitrary server.
  `AuditLog` is the signed journal with its latch, `AuditedCalls`, `AuditedFetch` and
  `SharedFetch` the procedures that write to it; `Audit` and `AuditRuns` interleave any number
  of audited calls, restarts and operator reconciliations.
* **Exact arithmetic and encodings.** `Valuation` is the 256-bit value of a float price
  (section 3.4 of IEEE 754-2019), `Identity` the hashed names of signing requests, batches and
  sessions, which `IdentityReading` reads back. `MsgPack`, `PackLimits`, `OrderProof` and
  `OrderSearch` are the proof of a signed order, `OrderForm` which values of a body it commits to,
  and `TypedData` (EIP-712) and `HexText` the references it is compared with.
* **Clients of the outside.** `RateLimiter`, `Ens` with `EnsAnswers`, and `Namehash` (EIP-137).

Code that updates things step by step is a class or a method with loops, proved equal to a
function; the theorems are about that function. Concurrent code is a state machine over its
steps. Hash functions are parameters, assumed free of collisions only on the inputs a lemma
names. `Bytes` holds shared sequence facts.

Where the source's own words and its behaviour differ, the model follows the behaviour:

* Short messages do not all survive the transport (`Transport.RoundTripsExactly`).
* The streamed read can wait for ever once the client is gone, exactly for files over 8 MiB
  (`StreamedRead.DeadlockExactly`): the connection then awaits the handler without draining
  the channel the handler waits on.
* The session guard of a removal can be overtaken: it looks before it takes the execution gate,
  so a guest that comes and goes in between leaves a session behind (`SessionGuard.RemovalStrands`).
  A replacement looks again while it holds the gate and cannot be, unless the wall clock goes
  back in between (`SessionGuard.ReplacementExactly`).
* An intent without a result does not always mean that an append failed: a dropped HTTP or
  batch future leaves one too (`AuditRuns.MatchedExactly`, `AuditRuns.DroppedConfirmation`).
* Two identical batch confirmations that read the journal number before either writes disable
  the journal although nothing failed (`AuditRuns.TwinsDisableTheJournal`); HTTP calls cannot,
  because of the lock they hold (`AuditRuns.SerialisedIntentRefusedExactly`).
* The order prover does not check a vault's length, so the signed bytes do not always determine
  the order (`OrderProof.EncodedExactly`).
* Session names determine their parts only without NUL bytes (`Identity.ScopedUniqueExactly`).
  Wallet and slot of a key request are Broker tokens and the lineage comes from the installer's
  catalog; both are validated by the Broker API, which is not part of this model, and a stop
  reaches only names that a key request stored.
* Valuation is exact only up to 77 decimals (`Valuation.ExactUpTo77Decimals`).
* The rate limiter keeps its nominal rate only when that rate is one (`RateLimiter.RateKeptExactly`).
* The order prover does not catch an AttributeError, so one odd candidate can hide a later
  match (`OrderSearch.SearchKeepsItsPromiseExactly`).

## Model

| member | source | states |
|---|---|---|
| `Base64.DecodeEncode` | crates/bloom-daemon/src/ipc.rs:164-253 | decoding the base64 text of any byte string gives that byte string back |
| `Base64.EncodeDecode` | crates/bloom-daemon/src/ipc.rs:164-220 | the decoder is strict: whatever it accepts is the canonical encoding of what it returns |
| `Envelope.ParsePrinted` | crates/bloom-daemon/src/ipc.rs:152-162 | every printable chunk envelope is parsed back field by field |
| `Envelope.PrintParsed` | crates/bloom-daemon/src/ipc.rs:152-162 | only the printed form of a chunk parses as that chunk, so parsing and printing undo each other |
| `Envelope.PrintedIsOneLine` | crates/bloom-daemon/src/ipc.rs:222-253 | a printed envelope never contains the frame separator |
| `Transport.FixedShapeReadsPrinted` | crates/bloom-daemon/src/ipc.rs:152-220 | the concrete envelope parser meets everything the transport theorems ask of a JSON parser |
| `Transport.FramesFit` | crates/bloom-daemon/src/ipc.rs:222-253 | every frame of a message of up to 64 MiB fits 4 MiB, is one line, and its sequence number is not truncated |
| `Transport.RoundTrip` | crates/bloom-daemon/src/ipc.rs:121-253 | a sendable message is read back exactly, whatever bytes follow it, and those bytes are left |
| `Transport.RoundTripAll` | crates/bloom-daemon/src/ipc.rs:121-253 | any list of sendable messages is read back in order, followed by end of stream |
| `Transport.UnsendableIsLost` | crates/bloom-daemon/src/ipc.rs:164-253 | a message of up to 64 MiB outside the sendable ones is never read back as itself |
| `Transport.RoundTripsExactly` | crates/bloom-daemon/src/ipc.rs:121-253 | a message survives before every continuation if and only if it is over 4 MiB, or has no newline and does not parse as an envelope |
| `Transport.BoundedLookahead` | crates/bloom-daemon/src/ipc.rs:164-220 | because sequence numbers are 32 bits, a bounded prefix decides a read, so an endless run of empty chunks is cut off |
| `Transport.AcceptedInOrder` | crates/bloom-daemon/src/ipc.rs:164-220 | a reassembled message is the concatenated payload of chunks numbered 0, 1, 2, … with only the last marked final, and at most 64 MiB |
| `TransportReading.ReadFrameExactly` | crates/bloom-daemon/src/ipc.rs:121-150 | a frame is the first line if it has at most 4 MiB; a longer one is refused, and only an empty stream is the end |
| `TransportReading.ReassemblyExactly` | crates/bloom-daemon/src/ipc.rs:164-220 | on any bytes reassembly goes through envelopes that each lead to the next and returns what the last one calls for: the message, or one of seven failures, each stated by itself |
| `TransportReading.OneResult` | crates/bloom-daemon/src/ipc.rs:164-220 | an envelope calls for one result at most, and for none if it leads on |
| `TransportReading.ReadMessageExactly` | crates/bloom-daemon/src/ipc.rs:164-220 | a first line that is no envelope is the message itself, and an envelope starts reassembly at number 0 |
| `Channel.ReadBoundedFrame` | crates/bloom-daemon/src/ipc.rs:121-150 | however the bytes are divided into fills, the loop returns the specified frame or error, leaves the specified rest and never holds more than 4 MiB |
| `Channel.ReadIpcMessage` | crates/bloom-daemon/src/ipc.rs:164-220 | however the bytes are divided into fills, the loop returns the specified message or error and rest, reads at most 2^32 frames and never holds more than 64 MiB |
| `Channel.WriteIpcMessage` | crates/bloom-daemon/src/ipc.rs:222-253 | exactly the messages of up to 64 MiB are written, as their specified wire form; nothing is written for a refused one |
| `StreamedRead.StreamingRefinesInline` | crates/bloom-daemon/src/ipc.rs:985-1035 | at every step of every served run written ++ queued ++ remaining is the file, and an answered client holds the reply of the inline path |
| `StreamedRead.CallWithProtocol` | crates/bloom-daemon/src/ipc.rs:2145-2180 | the client loop folds the notifications and the response into the specified result |
| `StreamedRead.ClientExactly` | crates/bloom-daemon/src/ipc.rs:2145-2180 | whatever arrives, the client goes through the notifications that decode and answers by the first other item: the reply, a count mismatch, a malformed notification, or no response |
| `StreamedRead.UnansweredExactly` | crates/bloom-daemon/src/ipc.rs:985-1035 | a connection that ends unanswered has cancelled its handler, unless the handler was done |
| `StreamedRead.StopsOnlyWhenStuck` | crates/bloom-daemon/src/ipc.rs:985-1035 | handler and connection loop can move by themselves, without the client, if and only if the connection is open and the handler does not wait on the abort path; there nothing can move at all |
| `StreamedRead.StayingClientIsAnswered` | crates/bloom-daemon/src/ipc.rs:985-1035 | while the client stays and writes succeed, every run that cannot go on has answered, and the client holds the reply of the inline path |
| `StreamedRead.RunsAreBounded` | crates/bloom-daemon/src/ipc.rs:603-615 | every run is at most as long as a rank of its first state |
| `StreamedRead.StuckReachable` | crates/bloom-daemon/src/ipc.rs:985-1013 | for any file over eight chunks there is a run in which the handler waits for ever |
| `StreamedRead.DeadlockExactly` | crates/bloom-daemon/src/ipc.rs:985-1035 | a run that waits for ever exists if and only if the file is over 8 MiB |
| `MutationLock.EveryCommitIsJustified` | crates/bloom-daemon/src/ipc.rs:514-581 | over every interleaving: an install with an expected owner commits only while that owner holds the name, an unforced replace or removal only after a last guard check on that very package found no active or pending session, and an inert read executes only the owner it classified |
| `MutationLock.LookedBeforeTaking` | crates/bloom-daemon/src/ipc.rs:532-560 | before an unforced commit took a package away, that call saw, with no change of packages since, every record of the package stopped or expired, or the package owned by no name; for a replacement it was owned |
| `MutationLock.GuardSawTheState` | crates/bloom-daemon/src/lib.rs:3687-3710 | what a guard saw were the records, owners and time of the state in which it looked |
| `MutationLock.MutualExclusion` | crates/bloom-daemon/src/ipc.rs:514-581 | at most one call is inside the lock |
| `MutationLock.LogIsTruthful` | crates/bloom-daemon/src/ipc.rs:1578-1622 | the owners are those replayed from the logged commits, so what a commit says it replaced or removed was there |
| `PackageChanges.ResolveExactly` | crates/bloom-petals/src/runner.rs:531-550 | a target finds a package if and only if it is its full hash, or the only prefix of it among the packages, else the name of a Petal that owns it, else its petname; it is refused if and only if it begins two packages |
| `PackageChanges.StoreChangesExactly` | crates/bloom-petals/src/runner.rs:505-518 | in every run a logged removal takes owner and petname from exactly the names that had that package and removes just that package, a logged install changes one name and adds one package, and no other step changes more than one petname |
| `PackageChanges.OwnersExactly` | crates/bloom-petals/src/store.rs:585-608 | in every run a name belongs to a package if and only if the newest install under that name, or the start, put it there and the package was not removed since |
| `PackageChanges.CallsEndOnce` | crates/bloom-daemon/src/ipc.rs:514-581 | in every run a call installs, removes or executes at most once and is over then |
| `PackageProgress.InstallCommits` | crates/bloom-petals/src/store.rs:293-378 | from every state of every run in which the lock and the gate are free and no guest runs, an install whose expected owner is right and whose outgoing package has no live session can be carried through to its commit |
| `PackageProgress.RemovalCommits` | crates/bloom-daemon/src/ipc.rs:1578-1622 | likewise a removal of the package its target names |
| `PackageProgress.OtherCallsCommit` | crates/bloom-daemon/src/ipc.rs:1547-1576 | likewise a petname change, and an inert read, which runs the package that owns the name |
| `PackageProgress.RestartFrees` | crates/bloom-petals/src/store.rs:82-97 | the daemon may restart in any state, and every new call then finds lock and gate free |
| `SessionGuard.ReplacementExactly` | crates/bloom-petals/src/store.rs:293-378 | in the very state in which an unforced replacement commits, the live sessions of the outgoing package are exactly those whose expiry the wall clock fell back behind after the call's last look; none if it did not go back |
| `SessionGuard.ReplacementStrandsNothing` | crates/bloom-petals/src/store.rs:293-378 | in every run whose clock does not go back, no unforced replacement takes a package from under an active or pending session |
| `SessionGuard.OnlyRequestsRevive` | crates/bloom-daemon/src/lib.rs:3663-3682 | of all steps that leave the owners of packages as they are, only a guest's key request or a clock that goes back brings a session to life |
| `SessionGuard.RemovalStrandsExactly` | crates/bloom-daemon/src/ipc.rs:1591-1618 | an unforced removal takes the package from under a session if and only if that session came alive after the call looked, by a guest's key request or a clock that went back, and is still alive |
| `SessionGuard.RemovalStrands` | crates/bloom-petals/src/store.rs:684-689 | for every package and every key request Broker lets begin, a run in which an unforced removal commits under the pending session that request created after the look |
| `PetalStore.PetalKeyStore.ScanSlot` | crates/bloom-daemon/src/lib.rs:1516-1531 | the scan reports a conflict if and only if another family or owner holds the slot |
| `PetalStore.PetalKeyStore.Approve` | crates/bloom-daemon/src/lib.rs:856-1033 | staging an approval leaves exactly the specified record, log and outcome |
| `PetalStore.PetalKeyStore.PrepareCustody` | crates/bloom-daemon/src/lib.rs:1707-1793 | staging custody leaves exactly the specified record, log and outcome |
| `PetalStore.PetalKeyStore.PetalKeyRequest` | crates/bloom-daemon/src/lib.rs:1350-1794 | a key request leaves exactly the records, log and outcome of the function that `PetalAnswers.AnswersExactly` decides, for every admission, Broker answer and clock |
| `PetalStore.PetalKeyStore.StopSession` | crates/bloom-daemon/src/lib.rs:3841-3931 | a stop leaves exactly the records and result of the function that `PetalAnswers.StopExactly` decides, for every Broker answer |
| `PetalStore.PetalKeyStore.InvalidateStaleCeremonies` | crates/bloom-daemon/src/lib.rs:4046-4081 | start-up retires exactly the records that advertise a ceremony, whatever order it visits them in, and counts them |
| `PetalKeys.PrepareApproval` | crates/bloom-daemon/src/lib.rs:1003-1032 | an accepted preparation carries the id of the very terms sent, which name the requested key |
| `PetalKeys.ApprovalLifetime` | crates/bloom-daemon/src/lib.rs:914-924 | an approval never lives longer than its scope allows, and not at all exactly when that is under two milliseconds |
| `PetalKeys.NoneActiveExactly` | crates/bloom-daemon/src/lib.rs:3663-3710 | the guard finds no session of a package if and only if each of its records is stopped or expired, or the package is not installed |
| `PetalRuns.KeyRequestKeeps` | crates/bloom-daemon/src/lib.rs:1548-1793 | one key request keeps the invariant of all records and their identities, and a Pending answer about a record leaves its ceremony advertised |
| `PetalRuns.RunKeeps` | crates/bloom-daemon/src/lib.rs:1548-1793 | every run of key requests, stops and restarts keeps the invariant and all identities |
| `PetalRuns.RecordsStayAccepted` | crates/bloom-daemon/src/lib.rs:270-337 | in every run each record has an accepted status, key and URL shape, and key, approval id and expiry are present together or not at all |
| `PetalRuns.AuthorityIsEarned` | crates/bloom-daemon/src/lib.rs:1580-1706 | a succeeded record was reported Active for exactly the approval id it stores, and its expiry is that of that approval's terms |
| `PetalRuns.IdentityNeverChanges` | crates/bloom-daemon/src/lib.rs:1548-1706 | whatever calls follow, a record's scope and provenance digests stay, and so does a bound key |
| `PetalRuns.PreparationsBounded` | crates/bloom-daemon/src/lib.rs:1707-1793 | n restarts allow at most 1 + n custody and 1 + n approval preparations per record, however often a Petal retries |
| `PetalRuns.PendingAdvertises` | crates/bloom-daemon/src/lib.rs:320-337 | in every run a Pending answer that concerns a record leaves in it the ceremony URL of the newest preparation, made since the last restart |
| `PetalRuns.RestartStrandsNothing` | crates/bloom-daemon/src/lib.rs:4062-4080 | a retry of a retired record is Ready, or Pending with a fresh ceremony, unless Broker refuses |
| `PetalRuns.StoppedForGood` | crates/bloom-daemon/src/lib.rs:3663-3682 | a completed stop survives every later call, always reads "stopped", and sends Broker nothing more |
| `PetalRuns.StopRetriesAgree` | crates/bloom-daemon/src/lib.rs:3841-3931 | all revocations ever sent for a session use one operation id if the accounts that list its parent are numbered alike; where the two forms of the id differ, two revocations agree if and only if they were sent under one numbering |
| `PetalRuns.RevokesAreSent` | crates/bloom-daemon/src/lib.rs:3841-3882 | every revocation goes back to a stop by an account that lists the parent of the session's key |
| `PetalRuns.PollingNeverExtends` | crates/bloom-daemon/src/lib.rs:1580-1636 | without a new approval preparation a record's approval id and expiry stay what they were |
| `PetalAnswers.AnswersExactly` | crates/bloom-daemon/src/lib.rs:1513-1793 | whatever is stored and whatever Broker answers: a key request is Ready if and only if its own record has a key and Broker reports the approval Active, or still waiting although the key was granted; Pending if and only if a ceremony stands unexpired or Broker lets a new one begin; Denied in all other cases. Ready hands out the stored key, Pending starts at most the one ceremony stated, Denied changes no record |
| `PetalAnswers.OneParentPerSlot` | crates/bloom-daemon/src/lib.rs:1513-1531 | in every run all records of one wallet, lineage, slot and account have one parent key |
| `PetalAnswers.StopExactly` | crates/bloom-daemon/src/lib.rs:3841-3931 | a stop finds nothing, or two records, exactly as the records say; the one it finds is stopped if and only if it has a key and was stopped before or no status Broker reports is prepared, awaiting or active |
| `PetalAnswers.StopsStayHonest` | crates/bloom-daemon/src/lib.rs:3618-3627 | in every run a stored stop is complete if and only if none of the approvals it lists can still sign |
| `PetalAnswers.StopAmbiguousExactly` | crates/bloom-daemon/src/lib.rs:1513-1531 | in every run whose requests find their records by wallet, lineage, slot and parent, a stop by an account of one number is ambiguous if and only if two lineages share its mount and slot |
| `PetalAnswers.RestartExactly` | crates/bloom-daemon/src/lib.rs:4046-4081 | a restart takes the ceremony from every advertising record of the current schema and leaves all else alone |
| `PetalAnswers.AuthorityExactly` | crates/bloom-daemon/src/lib.rs:3656-3682 | for every record, package set and time, each of the five texts a session document may show appears if and only if its condition holds |
| `PetalAnswers.ActiveExactly` | crates/bloom-daemon/src/lib.rs:3656-3682 | in every run a session reads active if and only if its key was granted, its package is installed, no stop is complete, and the approval that Broker was sent and reported Active has not ended |
| `Fetch.HttpFetch` | crates/bloom-daemon/src/lib.rs:1796-1989 | the loop with its updated method, URL, headers and body yields exactly the trace and outcome of the function that `FetchAnswers.FetchExactly` decides |
| `Fetch.PrepareRedirectRequest` | crates/bloom-daemon/src/lib.rs:3262-3283 | the in-place update of headers and body is the specified next request or the specified refusal |
| `Fetch.DrainBody` | crates/bloom-daemon/src/lib.rs:1944-1971 | the body loop yields the specified body, transport error or size error |
| `FetchSafety.AtMostSixRequests` | crates/bloom-daemon/src/lib.rs:1810-1988 | no server gets more than six requests out of one call |
| `FetchSafety.EverySendIsCovered` | crates/bloom-daemon/src/lib.rs:1810-1835 | right before every send stand its own journaled intent and the policy's approval of that very method and URL |
| `FetchSafety.CallerDataStaysHome` | crates/bloom-daemon/src/lib.rs:3262-3291 | if a request carries a caller header or a non-empty body, every URL so far shares the first URL's origin |
| `FetchSafety.RedirectsAsAnswered` | crates/bloom-daemon/src/lib.rs:3246-3261 | each later request is the target and method of the answer before it; `FetchAnswers.SendsLead` says which |
| `FetchSafety.FetchIsDisciplined` | crates/bloom-daemon/src/lib.rs:1226-1325 | over a whole call every intent that was journaled is followed by exactly one result attempt of its own, and no send lacks one |
| `FetchSafety.UnmatchedMeansFailed` | crates/bloom-daemon/src/lib.rs:1226-1325 | journaled intents outnumber journaled results by exactly the result appends that failed |
| `FetchSafety.BodyIsComplete` | crates/bloom-daemon/src/lib.rs:1944-1971 | a delivered body is all the data the server sent, in order |
| `FetchSafety.OkIsTheLastAnswer` | crates/bloom-daemon/src/lib.rs:1810-1988 | a successful call returns the last request's answer, complete, within the limit and not a redirect |
| `FetchAnswers.SendsLead` | crates/bloom-daemon/src/lib.rs:3253-3283 | of any two consecutive requests the second is what the answer to the first calls for: after 301 to 303 GET unless it was GET or HEAD, else the same method in capitals; headers kept exactly within scheme, host and port; the body exactly for methods other than GET and HEAD, and never across origins |
| `FetchAnswers.CarriedStaysHome` | crates/bloom-daemon/src/lib.rs:3262-3292 | a request with headers or a body, and all before it, agree with the caller's URL in scheme, host and port |
| `FetchAnswers.FetchExactly` | crates/bloom-daemon/src/lib.rs:1796-1989 | every call makes at most six requests that lead from one to the next, and ends with the one outcome its last request calls for, each of the twelve stated by itself, journaled under its class, or because an append failed |
| `FetchAnswers.OneOutcome` | crates/bloom-daemon/src/lib.rs:1796-1989 | a request calls for one outcome at most, and for none if it leads on |
| `FetchAnswers.JournalExactly` | crates/bloom-daemon/src/lib.rs:1796-1989 | in every call each append is decided by the journal in turn, and each intent carries the number its record then has |
| `AuditLog.OpenExactly` | crates/bloom-proto/src/audit.rs:1672-1844 | the effects a replay leaves open are exactly those with an intent that no result follows |
| `AuditLog.AppendKeepsSound` | crates/bloom-proto/src/audit.rs:646-784 | whatever becomes of the line, even one that lands although its write failed, the whole lines of the file pass verification, and until the first failure reopening finds exactly the effects held in memory |
| `AuditLog.AppendExactly` | crates/bloom-proto/src/audit.rs:651-784 | an append is accepted if and only if nothing failed before, the record is in order with at most 64 open effects, and the line is stored; file, open effects, cause and latch are told for every fate of the line |
| `AuditLog.ReconcileKeepsSound` | crates/bloom-proto/src/audit.rs:827-898 | the same after an operator's reconciliation |
| `AuditLog.ReconcileExactly` | crates/bloom-proto/src/audit.rs:827-898 | a reconciliation succeeds if and only if it is confirmed, the file is whole and leaves that effect open, the daemon is disabled by just the effects left open, and the line is stored; it then closes that effect and no other |
| `AuditLog.OperatorRecovers` | crates/bloom-proto/src/audit.rs:823-898 | closing all effects found open, in any order, makes the journal accept appends again |
| `AuditLog.Journal.Inspect` | crates/bloom-proto/src/audit.rs:1672-1821 | the verification pass returns the open effects, or failure exactly for a journal with an illegal transition |
| `AuditLog.Journal.constructor` | crates/bloom-proto/src/audit.rs:507-645 | a started daemon refuses appends while any effect of an earlier one is open, and for good on a file it cannot verify or after a failed check of opening; the first cause, in the source's order, is the one kept |
| `AuditLog.Journal.AppendLocked` | crates/bloom-proto/src/audit.rs:651-784 | the new records, file, open effects, cause and latch are the specified ones for every record and everything that can become of the line |
| `AuditLog.Journal.ReconcilePendingEffect` | crates/bloom-proto/src/audit.rs:827-898 | the same for a reconciliation, which is refused without its confirmation and for an effect of the running daemon |
| `Audit.EveryCallIsWriteAhead` | crates/bloom-daemon/src/lib.rs:3544-3597 | over every interleaving each HTTP attempt, batch confirmation, sweep or refresh acts only after its own recorded intent, and each that ends by itself, a cancelled refresh included, tries exactly one result |
| `Audit.RunKeeps` | crates/bloom-daemon/src/lib.rs:5419-5702 | in every run calls that hold an open effect hold different ones, all in the journal, a healthy journal has no others, and serialised calls never overlap |
| `AuditedCalls.RunExpirySweepOnce` | crates/bloom-daemon/src/lib.rs:5419-5477 | uninterrupted, the sweep leaves the journal its call leaves in the interleaved model: nothing written when nothing is due, no effect without an accepted intent, one result try after an effect |
| `AuditedCalls.ConfirmBatch` | crates/bloom-daemon/src/lib.rs:3544-3597 | the same for a batch confirmation |
| `AuditedCalls.RefreshAudit.Finish` | crates/bloom-daemon/src/lib.rs:5617-5622 | finishing tries the result once and marks the guard finished even if the append fails |
| `AuditedCalls.RefreshAudit.Drop` | crates/bloom-daemon/src/lib.rs:5625-5642 | dropping a finished guard writes nothing; dropping an unfinished one tries the result |
| `AuditedCalls.RefreshOnce` | crates/bloom-daemon/src/lib.rs:5652-5702 | cancelled or not, the refresh leaves the journal its call leaves in the interleaved model, with exactly one result try |
| `AuditedFetch.HopIsOneCall` | crates/bloom-daemon/src/lib.rs:1810-1987 | one hop of the fetch loop over the shared journal tries its intent, sends and tries its result exactly as the HTTP call of the interleaved model, for every server, policy and disk |
| `SharedFetch.SharedFetchIsFetch` | crates/bloom-daemon/src/lib.rs:1796-1989 | whatever other calls, restarts and operators step in between, a whole fetch that finishes over the shared journal did exactly what the redirect loop does with the answers that journal gave |
| `SharedFetch.SharedFetchIsJournaled` | crates/bloom-daemon/src/lib.rs:1796-1989 | at every moment the journal events of a fetch's calls are, in order, exactly the intents, sends and results its trace tells, and nothing else |
| `AuditRuns.OpenEffectsExactly` | crates/bloom-proto/src/audit.rs:1831-1852 | while appends are accepted, an effect is open if and only if some call in flight or dropped holds it |
| `AuditRuns.UnmatchedMeansFailed` | crates/bloom-daemon/src/lib.rs:5591-5702 | once every call has ended by itself, an intent of this run that the file leaves without a result belongs to a call whose own append failed: its result, or that very intent, on which it did not act |
| `AuditRuns.MatchedExactly` | crates/bloom-daemon/src/lib.rs:3544-3597 | with no call in flight, every acknowledged intent of one daemon is matched if and only if no future was dropped and no result append failed |
| `AuditRuns.FailsClosed` | crates/bloom-proto/src/audit.rs:651-679 | from a refused append on, until a restart or an operator, nothing is written and no effect happens whose intent was not already recorded |
| `AuditRuns.UnresolvedEffectsBlock` | crates/bloom-proto/src/audit.rs:547-600 | over any number of restarts no effect happens before every effect found open has been given a result by hand |
| `AuditRuns.IntentRefusedExactly` | crates/bloom-proto/src/audit.rs:1831-1844 | with a working disk an intent is refused if and only if 64 effects are open or a call of the same operation that read the same number is, and the refusal disables the journal |
| `AuditRuns.SerialisedIntentRefusedExactly` | crates/bloom-daemon/src/lib.rs:1802-1811 | because fetches hold one lock and sweeps run in one loop, an HTTP, sweep or refresh intent is refused if and only if 64 effects are open |
| `AuditRuns.SerialIntentIsAccepted` | crates/bloom-daemon/src/lib.rs:3544-3561 | a call that reads the number and writes its intent with no step between is never refused for its id |
| `AuditRuns.TwinsDisableTheJournal` | crates/bloom-daemon/src/lib.rs:3544-3561 | a run in which two identical batch confirmations disable the journal though storage never failed |
| `AuditRuns.DroppedConfirmation` | crates/bloom-daemon/src/ipc.rs:1015-1025 | a run with a dropped batch confirmation and no failed append after which the next daemon starts with that effect unresolved |
| `AuditRuns.RunDurable` | crates/bloom-proto/src/audit.rs:651-784 | in every run the file itself holds every effect in flight or dropped |
| `AuditRuns.DroppedCallStopsTheNextDaemon` | crates/bloom-daemon/src/ipc.rs:1015-1025 | after any dropped HTTP or batch call, whatever follows, the next daemon starts disabled, with that effect unresolved unless the file ends in an unfinished line or an earlier check of opening failed |
| `AuditRuns.DeadCallsStaySilent` | crates/bloom-proto/src/audit.rs:507-645 | whatever a daemon had begun by the time it died, no later daemon goes on with |
| `Valuation.AmountToUsdMicro` | crates/bloom-daemon/src/price_oracle.rs:56-111 | the checked 256-bit computation yields the specified value or refusal on every price, amount and decimals |
| `Valuation.ValuationIsExact` | crates/bloom-daemon/src/price_oracle.rs:56-111 | up to 77 decimals the answer is c if and only if amount·mantissa·10^6·2^max(e,0) is below 2^256, c fits 128 bits, and c is the exact real value rounded up |
| `Valuation.SucceedsExactly` | crates/bloom-daemon/src/price_oracle.rs:78-109 | up to 77 decimals a good price and amount are refused if and only if that numerator or the exact value does not fit |
| `Valuation.PricesExactly` | crates/bloom-daemon/src/price_oracle.rs:60-64 | a price is accepted if and only if its bit pattern lies strictly between those of zero and infinity |
| `Valuation.PriceExactly` | crates/bloom-daemon/src/price_oracle.rs:69-80 | for every biased exponent e and fraction m the price is (1 + m/2^52)·2^(e-1023), or m/2^52·2^-1022 when e is zero |
| `Valuation.Monotone` | crates/bloom-daemon/src/price_oracle.rs:56-111 | a smaller amount of an answered amount is answered, and never higher |
| `Valuation.MonotoneInPrice` | crates/bloom-daemon/src/price_oracle.rs:69-80 | a higher float never yields a lower value when both are answered |
| `Valuation.SplitCostsAtMostOne` | crates/bloom-daemon/src/price_oracle.rs:56-111 | splitting an amount never lowers the total and raises it by at most one micro-dollar |
| `Valuation.WrappedIsPositive` | crates/bloom-daemon/src/price_oracle.rs:82-96 | the wrapping power of ten is never zero, so the division is safe for every one-byte decimals |
| `Valuation.ManyDecimalsDisagree` | crates/bloom-daemon/src/price_oracle.rs:82-96 | for each of 78 to 255 decimals one fixed price and amount is valued differently from the exact value |
| `Valuation.ExactUpTo77Decimals` | crates/bloom-daemon/src/price_oracle.rs:56-111 | the valuation is exact on all prices and amounts if and only if decimals are at most 77 |
| `Identity.Hasher.UpdateParts` | crates/bloom-daemon/src/lib.rs:1096-1107 | the loop feeds the hasher the length-prefixed parts in order and nothing else |
| `Identity.BatchPreimage` | crates/bloom-daemon/src/lib.rs:2387-2394 | the hasher is fed exactly the specified batch encoding |
| `Identity.PetalSigningPreimage` | crates/bloom-daemon/src/lib.rs:1083-1117 | the hasher is fed exactly the specified exact-signing identity |
| `Identity.PetalReusableSigningPreimage` | crates/bloom-daemon/src/lib.rs:1119-1158 | the hasher is fed exactly the specified reusable identity, with the review binding if there is one |
| `Identity.PartsSplit` | crates/bloom-daemon/src/lib.rs:1096-1107 | equally many length-prefixed parts are read back in one way only, whatever bytes follow |
| `Identity.BatchInjective` | crates/bloom-daemon/src/lib.rs:2387-2394 | two payload batches of any lengths are fed alike only if they are the same batch |
| `Identity.ExactInjective` | crates/bloom-daemon/src/lib.rs:1095-1108 | the exact identity determines all seven parts |
| `Identity.ReusableInjective` | crates/bloom-daemon/src/lib.rs:1132-1151 | the reusable identity determines all six parts, the review binding and whether there is one |
| `Identity.SigningIdentitiesDisjoint` | crates/bloom-daemon/src/lib.rs:1095-1151 | no exact identity equals a reusable one |
| `Identity.LegacyInjective` | crates/bloom-daemon/src/lib.rs:3125-3128 | a legacy session name determines every part when domain, wallet and lineage are free of NUL |
| `Identity.NulMovesBoundary` | crates/bloom-daemon/src/lib.rs:3125-3128 | a NUL in wallet, lineage or slot yields different parts with the same legacy name |
| `Identity.LegacyUniqueExactly` | crates/bloom-daemon/src/lib.rs:3125-3128 | a legacy name belongs to one session only if and only if wallet, lineage and slot are free of NUL |
| `Identity.NumberedNeverLegacy` | crates/bloom-daemon/src/lib.rs:3118-3137 | under the three domains in use no legacy name equals a numbered one |
| `Identity.NumberedDetermines` | crates/bloom-daemon/src/lib.rs:3129-3136 | a numbered name determines the key bytes and the legacy name, whatever the components contain |
| `Identity.ScopedTwins` | crates/bloom-daemon/src/lib.rs:3118-3137 | whatever the parts contain, a session name determines the legacy name, the key and whether there is one |
| `Identity.ScopedInjective` | crates/bloom-daemon/src/lib.rs:3118-3137 | with wallet and lineage free of NUL on both sides it determines domain, wallet, lineage, slot and key, whatever the slot contains |
| `Identity.ScopedUniqueExactly` | crates/bloom-daemon/src/lib.rs:3118-3137 | numbered or not, a session name belongs to one session only if and only if wallet, lineage and slot are free of NUL |
| `IdentityReading.ExactIsRead` | crates/bloom-daemon/src/lib.rs:1083-1117 | an exact identity is read back as its domain, then package, route, wallet, class, claimed digest, claim and key, each after its length |
| `IdentityReading.ReusableIsRead` | crates/bloom-daemon/src/lib.rs:1119-1158 | a reusable identity is read back as its domain, package, route, wallet, class, count and key, then the review binding after its own domain, if any |
| `IdentityReading.BatchIsRead` | crates/bloom-daemon/src/lib.rs:2387-2394 | a batch is read back as its domain, the number of payloads and the payloads in order |
| `IdentityReading.ScopedIsRead` | crates/bloom-daemon/src/lib.rs:3118-3137 | a session name is read back as domain, wallet, lineage and slot; a numbered one as its domain, that name after its length, and the key |
| `IdentityReading.SessionNamesAreRead` | crates/bloom-daemon/src/lib.rs:1474-1546 | the custody, record and stop names of a session begin with their own domain |
| `MsgPack.PackSplit` | evals/harbor/hyperliquid_proof.py:48-52 | MessagePack is prefix free on all values: whatever follows, a value is read back in one way only |
| `PackLimits.PackableExactly` | evals/harbor/hyperliquid_proof.py:51 | a value is packed if and only if every value inside it can be written and lies at most 511 containers deep |
| `OrderProof.HandBatchIsBatch` | evals/harbor/hyperliquid_proof.py:74-82 | the prover's batch bytes are those the daemon hashes for the one payload |
| `OrderProof.EncodedExactly` | evals/harbor/hyperliquid_proof.py:48-56 | two sets of terms are signed alike if and only if they are equal, or one vault is the other's vault, a zero byte and its expiry |
| `OrderProof.EncodedInjective` | evals/harbor/hyperliquid_proof.py:48-56 | between 20-byte vaults the signed bytes determine canonical action, nonce, vault and expiry |
| `OrderProof.LongVaultIsAmbiguous` | evals/harbor/hyperliquid_proof.py:53-56 | every vault with an expiry has a different vault without one that is signed alike |
| `OrderProof.WitnessExactly` | evals/harbor/hyperliquid_proof.py:48-82 | unless one of the hash calls involved collides, two payload digests are equal if and only if the networks are and the terms are signed alike |
| `OrderProof.WitnessIsUnique` | evals/harbor/hyperliquid_proof.py:48-82 | between 20-byte vaults one payload digest determines network, action, nonce, vault and expiry |
| `TypedData.PreimageIsTypedData` | evals/harbor/hyperliquid_proof.py:48-71 | for all terms, both networks and every hash function the signed bytes are 0x19 0x01, the hashed domain and the hashed Agent of EIP-712, whose source is the byte 97 on the main network and 98 on the test network and whose connection id hashes action, nonce, vault and expiry |
| `OrderForm.NormalizedExactly` | evals/harbor/hyperliquid_proof.py:28-41 | an order is normalised to k if and only if k holds, in this order and nothing else, what the order holds under a, b, p, s, r, its limit's tif and trigger's fields under t, and c unless null |
| `OrderForm.CanonicalExactly` | evals/harbor/hyperliquid_proof.py:24-45 | the same for the whole action: type order, all orders in turn, grouping and builder |
| `OrderForm.FromHexExactly` | evals/harbor/hyperliquid_proof.py:53-54 | vault text gives bytes v if and only if it spells v in hexadecimal digits of either case, with white space only between pairs |
| `OrderForm.TermsExactly` | evals/harbor/hyperliquid_proof.py:48-56 | a body and a nonce make terms t if and only if the nonce is that 64-bit number and action, vault and expiry are what the body holds |
| `OrderForm.HitExactly` | evals/harbor/hyperliquid_proof.py:150-161 | an attempt hits if and only if the body makes terms whose typed data on that network has the requested digest and all four manifest fields hold its digests |
| `OrderForm.NoncesExactly` | evals/harbor/hyperliquid_proof.py:139-147 | a body's own nonce is the only one tried; without one, those of the open records of the request, in order |
| `OrderForm.AttemptsExactly` | evals/harbor/hyperliquid_proof.py:148-150 | nonce i is tried on the test network as attempt 2i and on the main network as attempt 2i + 1 |
| `OrderForm.ProofExactly` | evals/harbor/hyperliquid_proof.py:162-178 | a proof names its attempt and the three digests, and whether the raw text has the recorded hash exactly when both are known |
| `OrderSearch.AcceptedWitnessesAgree` | evals/harbor/hyperliquid_proof.py:129-179 | any two attempts accepted for one request agree on the network and on the terms, up to a vault that shadows the other's expiry; with 20-byte vaults they agree on all |
| `OrderSearch.ShadowIsAccepted` | evals/harbor/hyperliquid_proof.py:129-179 | an attempt whose terms shadow an accepted one's is accepted as well |
| `OrderSearch.TryNonce` | evals/harbor/hyperliquid_proof.py:149-178 | the verdict on one nonce is decided by the first network that does not miss, the test network first |
| `OrderSearch.TryCandidate` | evals/harbor/hyperliquid_proof.py:148-178 | the verdict on one candidate is decided by its first attempt that does not miss |
| `OrderSearch.LinkedPending` | evals/harbor/hyperliquid_proof.py:141-147 | the nonces tried are those of the unfinished pending records of this request, in order |
| `OrderSearch.ProveBody` | evals/harbor/hyperliquid_proof.py:129-179 | a manifest of another approval, package or route is Unavailable; otherwise the verdict is decided by the first of all attempts that does not miss, which `OrderForm.HitExactly` tells |
| `OrderSearch.DecideExactly` | evals/harbor/hyperliquid_proof.py:138-179 | exactly one verdict is right: the first match with all five commitments, the first uncaught error, or Unavailable when all attempts miss |
| `OrderSearch.PromiseKeptExactly` | evals/harbor/hyperliquid_proof.py:148-179 | over any list of attempts the first match is returned, and Unavailable raised without one, if and only if every attempt that crashes comes after a match |
| `OrderSearch.SearchKeepsItsPromiseExactly` | evals/harbor/hyperliquid_proof.py:129-179 | for all candidates and pending records the prover keeps that promise if and only if each candidate and nonce with a bad order type, vault or expiry is tried after a match |
| `OrderSearch.CrashesExactly` | evals/harbor/hyperliquid_proof.py:24-56 | an attempt escapes the handler if and only if, with a 64-bit nonce, the first trouble is an order type that is no object, a vault neither empty nor text, or an expiry that is no whole number |
| `OrderSearch.OrdersCrash` | evals/harbor/hyperliquid_proof.py:28-41 | the orders escape the handler if and only if one with all its keys has a type that is no object and all before it normalise |
| `OrderSearch.NumericVaultCrashes` | evals/harbor/hyperliquid_proof.py:53-54 | a concrete candidate with a number for its vault ends the search before any later match |
| `RateLimiter.Limiter.constructor` | crates/bloom-etherscan/src/lib.rs:381-388 | a new limiter has at least one permit, all free |
| `RateLimiter.Hold` | crates/bloom-etherscan/src/lib.rs:381-388 | a hold is the most whole milliseconds of which capacity many fit in a second |
| `RateLimiter.Limiter.TryAcquire` | crates/bloom-etherscan/src/lib.rs:393-400 | a permit is taken exactly when one is free, and its time recorded |
| `RateLimiter.Limiter.TryRelease` | crates/bloom-etherscan/src/lib.rs:400-404 | a permit comes back exactly when it is out and was held long enough |
| `RateLimiter.AcquisitionsAreSpaced` | crates/bloom-etherscan/src/lib.rs:381-406 | in every schedule acquisition i + k·capacity comes at least k holds after acquisition i |
| `RateLimiter.BurstsExceedTheRate` | crates/bloom-etherscan/src/lib.rs:390-406 | for every capacity of two or more, a schedule with more than capacity acquisitions in half a second |
| `RateLimiter.RateKeptExactly` | crates/bloom-etherscan/src/lib.rs:390-406 | all schedules keep to capacity acquisitions per second if and only if capacity is one |
| `Ens.EnsClient.LookUpResolver` | crates/bloom-ens/src/lib.rs:292-325 | reply and caches are the specified ones, hit or miss |
| `Ens.EnsClient.ResolveName` | crates/bloom-ens/src/lib.rs:127-162 | reply and caches are the specified ones for every chain answer |
| `Ens.EnsClient.ReverseResolve` | crates/bloom-ens/src/lib.rs:166-207 | reply and caches are the specified ones for every chain answer |
| `Ens.RunKeeps` | crates/bloom-ens/src/lib.rs:62-84 | after any history every cached value rests on chain reads that were recent when it was stored |
| `Ens.ReverseIsRecent` | crates/bloom-ens/src/lib.rs:127-207 | whatever mix of cache hits occurred, a name given for an address at T had resolved to it by a forward read newer than T − 2·ttl through a registry read newer than T − 3·ttl |
| `Ens.SteadyAnswersAreCurrent` | crates/bloom-ens/src/lib.rs:166-207 | if the name's records did not change for three lifetimes, the chain confirms the answer at T itself |
| `Ens.StalenessIsReached` | crates/bloom-ens/src/lib.rs:78-84 | the three lifetimes are reached: an answer at 3d with lifetime d + 1 that rests on the registry at 0 and on nothing later |
| `EnsAnswers.ReverseNodeExactly` | crates/bloom-ens/src/lib.rs:166-180 | a reverse lookup asks for the node of the address's hexadecimal text under addr under reverse |
| `EnsAnswers.HexIsRead` | crates/bloom-ens/src/lib.rs:166-180 | that text spells the address, in lower case and without dots |
| `EnsAnswers.CachesAreTransparent` | crates/bloom-ens/src/lib.rs:127-207 | if every live cache entry says what the chain says now, both resolutions answer and fail exactly as a client without caches would, and this stays so |
| `EnsAnswers.FreshReverseExactly` | crates/bloom-ens/src/lib.rs:166-207 | a new client names an address if and only if the address claims a name that resolves to it and none of the resolvers or addresses is zero |
| `EnsAnswers.StaleIsIgnored` | crates/bloom-ens/src/lib.rs:78-84 | an entry past its lifetime has no influence on the answer |
| `Namehash.Compute` | crates/bloom-ens/src/namehash.rs:16-31 | the loop over reversed labels yields the recursive EIP-137 node |
| `Namehash.ChildNode` | crates/bloom-ens/src/namehash.rs:16-31 | for a dot-free label and a non-empty parent, the child's node is the hash of the parent's node and the lower-cased label's hash |
| `Namehash.RootNode` | crates/bloom-ens/src/namehash.rs:16-31 | no name has 32 zero bytes for its node, and a single label hashes those and its own hash |
| `Namehash.CaseDoesNotMatter` | crates/bloom-ens/src/namehash.rs:21-22 | names of any length that differ only in ASCII case have one node |
| `Namehash.JoinedLabels` | crates/bloom-ens/src/namehash.rs:22-23 | splitting at dots loses nothing and leaves dot-free labels |
| `Namehash.NodesDistinguishNames` | crates/bloom-ens/src/namehash.rs:16-31 | unless a hash on the way collides or is zero, two names share a node if and only if they differ only in case |

## Left out

- General JSON: the receiver's parser is any function that reads the daemon's own envelopes; request and response bodies, canonical JSON and `negotiate` are not modelled.
- Socket set-up, permissions, protocol ranges and the other IPC methods: adapters around the modelled core.
- Panics, allocation failure and integer widths of lengths other than those written out.
- The package store's files: an install's commit is one step after its four checks.
- Failing reads and writes of key records, records of the previous schema at restart, broken owner records, and stop and key-request calls that overlap in time.
- `PetalStore.PetalKeyStore.PetalKeyRequest`: the admission checks before the record is read are one answer, because they change nothing.
- Timing, headers of responses and the text of errors in the fetch loop; URL parsing is a parameter.
- The hash chain, signatures, key rotation, legacy migration and snapshots of the audit journal: only whether each check of opening failed, and one of four fates of a line.
- The text an operator types: only whether it is the one asked for.
- Audited effects of other crates share the journal; here only plain records of theirs do. Operation ids of different kinds are taken to differ.
- Unreadable package owners or key records under the session guard.
- Reading a decimal amount: an amount is a number below 2^256 or unreadable.
- Extraction of candidate bodies from a trajectory, strings with lone surrogates, missing host-read fields, hex text of digests, and `matches_order`.
- Fairness of the semaphore and the timer's resolution in the rate limiter; the `json_abi_for` loop, the explorer cache and its endpoints.
- Text and content-hash caches of the ENS client, except that they reach the resolver cache; chain calls take no time.
- Name normalisation beyond ASCII lower case.
- Daemon construction, mounting, background task wiring, `deployment.rs`, `bloom-mcp` and the reporting scripts: wiring or easy members.
