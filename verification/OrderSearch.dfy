/**
 The prover's search: every candidate body under every nonce on both networks, until one
 attempt's five commitments all match.
 */
module OrderSearch {
  import opened Bytes
  import opened Identity
  import opened MsgPack
  import opened OrderProof

  datatype Request = Request(approval: bytes, package: bytes, route: bytes, id: bytes, payload: bytes)

  /** A missing field is None; `claim...` are fields of the Petal's claim inside the manifest. */
  datatype Manifest = Manifest(
    approval: Option<bytes>, payloads: Option<seq<bytes>>, hashes: Option<seq<bytes>>,
    claimPackage: Option<bytes>, claimRoute: Option<bytes>, claimPayload: Option<bytes>, claimHashes: Option<seq<bytes>>)

  datatype Candidate = Candidate(body: Json, raw: Option<bytes>)

  datatype Pending = Pending(nonce: Json, bodyHash: Option<bytes>, action: Option<bytes>, completed: Option<bool>)

  datatype Attempt = Attempt(candidate: Candidate, nonce: Json, bodyHash: Option<bytes>, network: Network)

  datatype Proof = Proof(attempt: Attempt, commitment: Commitment, rawMatches: Option<bool>)

  datatype Verdict = Proved(proof: Proof) | Unavailable | Crashed

  predicate SameApproval(request: Request, manifest: Manifest) {
    && manifest.approval == Some(request.approval)
    && manifest.claimPackage == Some(request.package)
    && manifest.claimRoute == Some(request.route)
  }

  predicate Matches(request: Request, manifest: Manifest, c: Commitment) {
    && c.payload == request.payload
    && manifest.payloads == Some([c.payload])
    && manifest.hashes == Some([c.signing])
    && manifest.claimPayload == Some(c.batch)
    && manifest.claimHashes == Some([c.signing])
  }

  /** The hashes and the approval a search runs against. */
  datatype Setting = Setting(keccak: Hash, sha: Hash, request: Request, manifest: Manifest)

  function Tried(g: Setting, a: Attempt): (r: Outcome<Commitment>) {
    Commitments(g.keccak, g.sha, a.candidate.body, a.nonce, a.network)
  }

  predicate Hit(g: Setting, a: Attempt) {
    Tried(g, a).Ok? && Matches(g.request, g.manifest, Tried(g, a).value)
  }

  predicate Miss(g: Setting, a: Attempt) {
    !Tried(g, a).Crash? && !Hit(g, a)
  }

  function ProofOf(g: Setting, a: Attempt): (p: Proof)
    requires Hit(g, a)
  {
    var raw, hash := a.candidate.raw, a.bodyHash;
    Proof(a, Tried(g, a).value, if raw.Some? && hash.Some? then Some(g.keccak(raw.value) == hash.value) else None)
  }

  function TermsTried(a: Attempt): (r: Outcome<Terms>) {
    TermsOf(a.candidate.body, a.nonce)
  }

  /** No hash involved in the two attempts collides. */
  predicate Apart(g: Setting, a: Attempt, b: Attempt) {
    TermsTried(a).Ok? && TermsTried(b).Ok? ==>
      NoCollisionsBetween(g.keccak, g.sha, TermsTried(a).value, a.network, TermsTried(b).value, b.network)
  }

  /**
   Any two attempts accepted for one request name the same network, and the same action, nonce,
   vault and expiry or a vault that shadows the other's expiry.
   */
  lemma AcceptedWitnessesAgree(g: Setting, a: Attempt, b: Attempt)
    requires Hit(g, a) && Hit(g, b) && Fixed(g.keccak) && Apart(g, a, b)
    ensures TermsTried(a).Ok? && TermsTried(b).Ok?
    ensures a.network == b.network && Confusable(TermsTried(a).value, TermsTried(b).value)
    ensures TwentyByteVault(TermsTried(a).value) && TwentyByteVault(TermsTried(b).value) ==> TermsTried(a) == TermsTried(b)
  {
    hide TermsOf, Preimage, HandBatch, NoCollisionsBetween, Confusable;
    var t, u := TermsTried(a).value, TermsTried(b).value;
    WitnessExactly(g.keccak, g.sha, t, u, a.network, b.network);
    if TwentyByteVault(t) && TwentyByteVault(u) {
      TwentyIsEnough(t, u);
    }
  }

  lemma TwentyIsEnough(t: Terms, u: Terms)
    requires Confusable(t, u) && TwentyByteVault(t) && TwentyByteVault(u)
    ensures t == u
  {
    hide BigEndian;
  }

  /** And whatever shadows an accepted attempt's terms is accepted too, on the same network. */
  lemma ShadowIsAccepted(g: Setting, a: Attempt, b: Attempt)
    requires Hit(g, a) && TermsTried(a).Ok? && TermsTried(b).Ok? && a.network == b.network
    requires Confusable(TermsTried(a).value, TermsTried(b).value)
    ensures Hit(g, b)
  {
    hide TermsOf, Confusable, Encoded;
    EncodedExactly(TermsTried(a).value, TermsTried(b).value);
  }

  predicate Linked(request: Request, p: Pending) {
    p.action == Some(request.id) && p.completed == Some(false)
  }

  function LinkedNonces(request: Request, pending: seq<Pending>): (r: seq<(Json, Option<bytes>)>) {
    if pending == [] then [] else
      LinkedNonces(request, pending[..|pending| - 1])
      + if Linked(request, pending[|pending| - 1]) then [(pending[|pending| - 1].nonce, pending[|pending| - 1].bodyHash)] else []
  }

  function Nonces(request: Request, c: Candidate, pending: seq<Pending>): (r: seq<(Json, Option<bytes>)>)
    requires c.body.Dict?
  {
    var own := Ask(c.body, "nonce").value;
    if own.Null? then LinkedNonces(request, pending) else [(own, None)]
  }

  /** The attempts on one candidate: its nonces in order, each on the test network first. */
  function AttemptsOn(c: Candidate, nonces: seq<(Json, Option<bytes>)>): (r: seq<Attempt>) {
    if nonces == [] then [] else
      var last := nonces[|nonces| - 1];
      AttemptsOn(c, nonces[..|nonces| - 1]) + [Attempt(c, last.0, last.1, Testnet), Attempt(c, last.0, last.1, Mainnet)]
  }

  function Attempts(request: Request, candidates: seq<Candidate>, pending: seq<Pending>): (r: seq<Attempt>)
    requires forall c <- candidates :: c.body.Dict?
  {
    if candidates == [] then [] else
      var last := candidates[|candidates| - 1];
      Attempts(request, candidates[..|candidates| - 1], pending) + AttemptsOn(last, Nonces(request, last, pending))
  }

  predicate AllMiss(g: Setting, attempts: seq<Attempt>) {
    forall a <- attempts :: Miss(g, a)
  }

  /** The first attempt that does not miss decides. */
  ghost predicate Decides(g: Setting, attempts: seq<Attempt>, v: Verdict) {
    match v
    case Proved(p) =>
      exists i :: 0 <= i < |attempts| && AllMiss(g, attempts[..i]) && Hit(g, attempts[i]) && p == ProofOf(g, attempts[i])
    case Crashed => exists i :: 0 <= i < |attempts| && AllMiss(g, attempts[..i]) && Tried(g, attempts[i]).Crash?
    case Unavailable => AllMiss(g, attempts)
  }

  lemma DecidesAppend(g: Setting, before: seq<Attempt>, xs: seq<Attempt>, after: seq<Attempt>, v: Verdict)
    requires AllMiss(g, before) && Decides(g, xs, v) && !v.Unavailable?
    ensures Decides(g, before + xs + after, v)
  {
    hide Hit, Miss, Tried, ProofOf;
    var all := before + xs + after;
    var i :| 0 <= i < |xs| && AllMiss(g, xs[..i]) && if v.Proved? then Hit(g, xs[i]) && v.proof == ProofOf(g, xs[i]) else Tried(g, xs[i]).Crash?;
    assert all[..|before| + i] == before + xs[..i];
    assert all[|before| + i] == xs[i];
    assert AllMiss(g, all[..|before| + i]);
  }

  lemma {:induction false} AttemptsOnPrefix(c: Candidate, nonces: seq<(Json, Option<bytes>)>, i: nat) returns (after: seq<Attempt>)
    requires i <= |nonces|
    ensures AttemptsOn(c, nonces) == AttemptsOn(c, nonces[..i]) + after
    decreases |nonces|
  {
    if i == |nonces| {
      assert nonces[..i] == nonces;
      after := [];
    } else {
      var last := nonces[|nonces| - 1];
      var rest := AttemptsOnPrefix(c, nonces[..|nonces| - 1], i);
      assert nonces[..|nonces| - 1][..i] == nonces[..i];
      after := rest + [Attempt(c, last.0, last.1, Testnet), Attempt(c, last.0, last.1, Mainnet)];
    }
  }

  lemma {:induction false} AttemptsPrefix(request: Request, candidates: seq<Candidate>, pending: seq<Pending>, i: nat) returns (after: seq<Attempt>)
    requires i <= |candidates| && forall c <- candidates :: c.body.Dict?
    ensures Attempts(request, candidates, pending) == Attempts(request, candidates[..i], pending) + after
    decreases |candidates|
  {
    if i == |candidates| {
      assert candidates[..i] == candidates;
      after := [];
    } else {
      var last := candidates[|candidates| - 1];
      var rest := AttemptsPrefix(request, candidates[..|candidates| - 1], pending, i);
      assert candidates[..|candidates| - 1][..i] == candidates[..i];
      after := rest + AttemptsOn(last, Nonces(request, last, pending));
    }
  }

  /** Both networks for one nonce, the test network first. */
  method TryNonce(g: Setting, c: Candidate, nonce: (Json, Option<bytes>)) returns (v: Verdict)
    ensures Decides(g, [Attempt(c, nonce.0, nonce.1, Testnet), Attempt(c, nonce.0, nonce.1, Mainnet)], v)
  {
    var networks := [Testnet, Mainnet];
    ghost var all := [Attempt(c, nonce.0, nonce.1, Testnet), Attempt(c, nonce.0, nonce.1, Mainnet)];
    for k := 0 to 2
      invariant AllMiss(g, all[..k])
    {
      var attempt := Attempt(c, nonce.0, nonce.1, networks[k]);
      assert attempt == all[k];
      var made := Commitments(g.keccak, g.sha, c.body, nonce.0, networks[k]);
      match made {
        case Crash => return Crashed;
        case Caught =>
        case Ok(commitment) =>
          if Matches(g.request, g.manifest, commitment) {
            return Proved(ProofOf(g, attempt));
          }
      }
      assert all[..k + 1] == all[..k] + [attempt];
    }
    assert all[..2] == all;
    return Unavailable;
  }

  method TryCandidate(g: Setting, c: Candidate, nonces: seq<(Json, Option<bytes>)>) returns (v: Verdict)
    ensures Decides(g, AttemptsOn(c, nonces), v)
  {
    hide Miss, Hit, Tried, ProofOf;
    for i := 0 to |nonces|
      invariant AllMiss(g, AttemptsOn(c, nonces[..i]))
    {
      ghost var before := AttemptsOn(c, nonces[..i]);
      ghost var pair := [Attempt(c, nonces[i].0, nonces[i].1, Testnet), Attempt(c, nonces[i].0, nonces[i].1, Mainnet)];
      assert nonces[..i + 1][..i] == nonces[..i];
      assert AttemptsOn(c, nonces[..i + 1]) == before + pair;
      v := TryNonce(g, c, nonces[i]);
      if !v.Unavailable? {
        ghost var after := AttemptsOnPrefix(c, nonces, i + 1);
        DecidesAppend(g, before, pair, after, v);
        return;
      }
    }
    assert nonces[..|nonces|] == nonces;
    return Unavailable;
  }

  method LinkedPending(request: Request, pending: seq<Pending>) returns (r: seq<(Json, Option<bytes>)>)
    ensures r == LinkedNonces(request, pending)
  {
    r := [];
    for i := 0 to |pending|
      invariant r == LinkedNonces(request, pending[..i])
    {
      assert pending[..i + 1][..i] == pending[..i];
      if Linked(request, pending[i]) {
        r := r + [(pending[i].nonce, pending[i].bodyHash)];
      }
    }
    assert pending[..|pending|] == pending;
  }

  /** The whole search: the first attempt that hits is the proof, unless an uncaught error comes first. */
  method ProveBody(g: Setting, candidates: seq<Candidate>, pending: seq<Pending>) returns (v: Verdict)
    requires forall c <- candidates :: c.body.Dict?
    ensures
      var claimed := (g.manifest.approval, g.manifest.claimPackage, g.manifest.claimRoute);
      var asked := (Some(g.request.approval), Some(g.request.package), Some(g.request.route));
      if claimed == asked then Decides(g, Attempts(g.request, candidates, pending), v) else v == Unavailable
  {
    hide Miss, Hit, Tried, ProofOf, AttemptsOn, Matches;
    if !SameApproval(g.request, g.manifest) {
      return Unavailable;
    }
    for i := 0 to |candidates|
      invariant AllMiss(g, Attempts(g.request, candidates[..i], pending))
    {
      var c := candidates[i];
      var own := Ask(c.body, "nonce").value;
      var nonces := [(own, None)];
      if own.Null? {
        nonces := LinkedPending(g.request, pending);
      }
      ghost var before := Attempts(g.request, candidates[..i], pending);
      assert candidates[..i + 1][..i] == candidates[..i];
      assert Attempts(g.request, candidates[..i + 1], pending) == before + AttemptsOn(c, nonces);
      v := TryCandidate(g, c, nonces);
      if !v.Unavailable? {
        ghost var after := AttemptsPrefix(g.request, candidates, pending, i + 1);
        DecidesAppend(g, before, AttemptsOn(c, nonces), after, v);
        return;
      }
    }
    assert candidates[..|candidates|] == candidates;
    return Unavailable;
  }

  // ----- What the search promises, and when -----

  function Decide(g: Setting, attempts: seq<Attempt>): (v: Verdict) {
    if attempts == [] then Unavailable
    else if Hit(g, attempts[0]) then Proved(ProofOf(g, attempts[0]))
    else if Tried(g, attempts[0]).Crash? then Crashed
    else Decide(g, attempts[1..])
  }

  lemma MissesFirst(g: Setting, attempts: seq<Attempt>, v: Verdict)
    requires attempts != [] && Miss(g, attempts[0])
    ensures Decides(g, attempts, v) <==> Decides(g, attempts[1..], v)
  {
    hide Tried, Miss, ProofOf, Hit;
    var a, rest := attempts[0], attempts[1..];
    assert attempts == [a] + rest;
    if Decides(g, rest, v) && !v.Unavailable? {
      assert AllMiss(g, [a]);
      DecidesAppend(g, [a], rest, [], v);
      assert [a] + rest + [] == attempts;
    }
    if v.Proved? && Decides(g, attempts, v) {
      var i :| 0 <= i < |attempts| && AllMiss(g, attempts[..i]) && Hit(g, attempts[i]) && v.proof == ProofOf(g, attempts[i]);
      HitIsNoMiss(g, a);
      assert rest[..i - 1] == attempts[..i][1..] && rest[i - 1] == attempts[i];
    }
    if v.Crashed? && Decides(g, attempts, v) {
      var i :| 0 <= i < |attempts| && AllMiss(g, attempts[..i]) && Tried(g, attempts[i]).Crash?;
      HitIsNoMiss(g, a);
      assert rest[..i - 1] == attempts[..i][1..] && rest[i - 1] == attempts[i];
    }
  }

  lemma HitIsNoMiss(g: Setting, a: Attempt)
    ensures Hit(g, a) || Tried(g, a).Crash? <==> !Miss(g, a)
    ensures Hit(g, a) ==> !Tried(g, a).Crash?
  {
  }

  lemma FirstDecides(g: Setting, attempts: seq<Attempt>, v: Verdict)
    requires attempts != [] && !Miss(g, attempts[0])
    ensures Decides(g, attempts, v) <==>
      v == if Hit(g, attempts[0]) then Proved(ProofOf(g, attempts[0])) else Crashed
  {
    hide Tried, Miss, ProofOf, Hit;
    HitIsNoMiss(g, attempts[0]);
    assert AllMiss(g, attempts[..0]);
    assert forall i :: 0 < i < |attempts| ==> attempts[..i][0] == attempts[0];
  }

  /** The verdict is the one a plain scan from the front gives, and no other. */
  lemma {:induction false} DecideExactly(g: Setting, attempts: seq<Attempt>, v: Verdict)
    ensures Decides(g, attempts, v) <==> v == Decide(g, attempts)
  {
    hide Tried, Miss, ProofOf, Hit, Decides;
    if attempts == [] {
      NothingDecides(g, v);
    } else {
      HitIsNoMiss(g, attempts[0]);
      if Miss(g, attempts[0]) {
        MissesFirst(g, attempts, v);
        DecideExactly(g, attempts[1..], v);
      } else {
        FirstDecides(g, attempts, v);
      }
    }
  }

  lemma NothingDecides(g: Setting, v: Verdict)
    ensures Decides(g, [], v) <==> v == Unavailable
  {
  }

  /** What the prover is for: the first match, and Unavailable when there is none. */
  function Promised(g: Setting, attempts: seq<Attempt>): (v: Verdict)
    ensures !v.Crashed?
  {
    if attempts == [] then Unavailable
    else if Hit(g, attempts[0]) then Proved(ProofOf(g, attempts[0]))
    else Promised(g, attempts[1..])
  }

  predicate SafeAt(g: Setting, attempts: seq<Attempt>, i: nat)
    requires i < |attempts|
  {
    Tried(g, attempts[i]).Crash? ==> exists j :: 0 <= j < i && Hit(g, attempts[j])
  }

  /** The promise is kept exactly when every attempt that crashes comes after a match. */
  lemma {:induction false} PromiseKeptExactly(g: Setting, attempts: seq<Attempt>)
    ensures Decide(g, attempts) == Promised(g, attempts) <==> forall i :: 0 <= i < |attempts| ==> SafeAt(g, attempts, i)
  {
    hide Tried, ProofOf, Hit, Miss;
    if attempts != [] {
      var rest := attempts[1..];
      HitIsNoMiss(g, attempts[0]);
      PromiseKeptExactly(g, rest);
      if Hit(g, attempts[0]) {
        assert forall i :: 0 < i < |attempts| ==> SafeAt(g, attempts, i);
      } else if Tried(g, attempts[0]).Crash? {
        assert !SafeAt(g, attempts, 0);
      } else {
        forall i | 0 <= i < |rest| ensures SafeAt(g, rest, i) <==> SafeAt(g, attempts, i + 1) {
          SafeShift(g, attempts, i);
        }
        assert forall i :: 0 <= i < |attempts| ==> i == 0 || SafeAt(g, attempts, i) == SafeAt(g, rest, i - 1);
      }
    }
  }

  lemma SafeShift(g: Setting, attempts: seq<Attempt>, i: nat)
    requires i + 1 < |attempts| && !Hit(g, attempts[0])
    ensures SafeAt(g, attempts[1..], i) <==> SafeAt(g, attempts, i + 1)
  {
    hide Tried, Hit;
    var rest := attempts[1..];
    assert forall j :: 0 <= j < |rest| ==> rest[j] == attempts[j + 1];
    if j :| 0 <= j < i && Hit(g, rest[j]) {
      assert Hit(g, attempts[j + 1]);
    }
    if j :| 0 <= j < i + 1 && Hit(g, attempts[j]) {
      assert Hit(g, rest[j - 1]);
    }
  }

  /** Normalising an order crashes exactly on an order that has all its keys but a type that is no object. */
  predicate BadKind(order: Json) {
    Pick(order, ["a", "b", "p", "s", "r"]).Ok? && Item(order, "t").Ok? && !Item(order, "t").value.Dict?
  }

  lemma PickOutcome(v: Json, keys: seq<string>)
    requires forall k <- keys :: IsAscii(k)
    ensures !Pick(v, keys).Crash? && (Pick(v, keys).Ok? && keys != [] ==> v.Dict?)
  {
  }

  lemma NormalizedCrashes(order: Json)
    ensures Normalized(order).Crash? <==> BadKind(order)
  {
    hide Pick, Item, Ask, Ascii;
    PickOutcome(order, ["a", "b", "p", "s", "r"]);
    AskOutcome(order, "c");
    ItemOutcome(order, "t");
    if Item(order, "t").Ok? {
      var kind := Item(order, "t").value;
      AskOutcome(kind, "limit");
      AskOutcome(kind, "trigger");
      if kind.Dict? {
        ItemOutcome(Ask(kind, "limit").value, "tif");
        PickOutcome(Ask(kind, "trigger").value, ["isMarket", "triggerPx", "tpsl"]);
      }
    }
  }

  lemma AskOutcome(v: Json, key: string)
    requires IsAscii(key)
    ensures if v.Dict? then Ask(v, key).Ok? else Ask(v, key).Crash?
  {
  }

  lemma ItemOutcome(v: Json, key: string)
    requires IsAscii(key)
    ensures !Item(v, key).Crash? && (Item(v, key).Ok? ==> v.Dict?)
  {
  }

  /** The first order that cannot be normalised decides how. */
  lemma {:induction false} OrdersCrash(orders: seq<Json>)
    ensures AllNormalized(orders).Crash? <==>
      exists i :: 0 <= i < |orders| && BadKind(orders[i]) && forall j :: 0 <= j < i ==> Normalized(orders[j]).Ok?
  {
    hide Normalized, BadKind;
    if orders != [] {
      var rest := orders[1..];
      OrdersCrash(rest);
      NormalizedCrashes(orders[0]);
      if Normalized(orders[0]).Ok? {
        if i :| 0 <= i < |rest| && BadKind(rest[i]) && forall j :: 0 <= j < i ==> Normalized(rest[j]).Ok? {
          assert BadKind(orders[i + 1]) && forall j :: 0 < j < i + 1 ==> orders[j] == rest[j - 1];
        }
        if i :| 0 <= i < |orders| && BadKind(orders[i]) && forall j :: 0 <= j < i ==> Normalized(orders[j]).Ok? {
          assert BadKind(rest[i - 1]) && forall j :: 0 <= j < i - 1 ==> rest[j] == orders[j + 1];
        }
      }
    }
  }

  predicate BadVault(body: Json) {
    body.Dict? && Truthy(Ask(body, "vaultAddress").value) && !Ask(body, "vaultAddress").value.Str?
  }

  predicate BadExpiry(body: Json) {
    body.Dict? && var expiry := Ask(body, "expiresAfter").value; !expiry.Null? && !expiry.Bool? && !expiry.Int?
  }

  /** The orders of an action that is an order action, as far as they are a list. */
  function ListedOrders(body: Json): (r: Outcome<seq<Json>>) {
    var source :- Item(body, "action");
    var kind :- Item(source, "type");
    if kind != Str(Ascii("order")) then Caught else
    var listed :- Item(source, "orders");
    if listed.List? then Ok(listed.items) else Caught
  }

  lemma CanonicalCrashes(body: Json)
    ensures CanonicalAction(body).Crash? <==> ListedOrders(body).Ok? && AllNormalized(ListedOrders(body).value).Crash?
  {
    hide AllNormalized, Item, Pick, Ascii;
    ItemOutcome(body, "action");
    if Item(body, "action").Ok? {
      var source := Item(body, "action").value;
      ItemOutcome(source, "type");
      ItemOutcome(source, "orders");
      ItemOutcome(source, "grouping");
      AskOutcome(source, "builder");
      if source.Dict? {
        PickOutcome(Ask(source, "builder").value, ["b", "f"]);
      }
    }
  }

  /**
   An attempt crashes exactly when its nonce is a 64-bit number and the first trouble met is an
   order type that is no object, a vault that is neither empty nor text, or an expiry that is
   no whole number.
   */
  lemma CrashesExactly(g: Setting, a: Attempt)
    requires a.candidate.body.Dict?
    ensures var body, action := a.candidate.body, CanonicalAction(a.candidate.body);
      Tried(g, a).Crash? <==>
        && a.nonce.Int? && 0 <= a.nonce.i < U64
        && ((ListedOrders(body).Ok? && AllNormalized(ListedOrders(body).value).Crash?)
            || (action.Ok? && Packable(action.value) && (BadVault(body) || (Vault(body).Ok? && BadExpiry(body)))))
  {
    hide CanonicalAction, AllNormalized, ListedOrders, Ascii, Packable, FromHex, Preimage, HandBatch;
    CanonicalCrashes(a.candidate.body);
  }

  // ----- When the whole search keeps its promise -----

  /** The first order that does not normalise has all its keys and a type that is no object. */
  ghost predicate BadOrder(body: Json) {
    ListedOrders(body).Ok? &&
    var orders := ListedOrders(body).value;
    exists i :: 0 <= i < |orders| && BadKind(orders[i]) && forall j :: 0 <= j < i ==> Normalized(orders[j]).Ok?
  }

  /** A body and a nonce the prover does not survive. */
  ghost predicate Awkward(body: Json, nonce: Json) {
    && nonce.Int? && 0 <= nonce.i < U64
    && (BadOrder(body)
        || (CanonicalAction(body).Ok? && Packable(CanonicalAction(body).value) && (BadVault(body) || (Vault(body).Ok? && BadExpiry(body)))))
  }

  lemma AwkwardExactly(g: Setting, a: Attempt)
    requires a.candidate.body.Dict?
    ensures Tried(g, a).Crash? <==> Awkward(a.candidate.body, a.nonce)
  {
    hide Tried, CanonicalAction, AllNormalized, Normalized, BadKind, BadVault, BadExpiry, Vault, Packable, ListedOrders;
    CrashesExactly(g, a);
    if ListedOrders(a.candidate.body).Ok? {
      OrdersCrash(ListedOrders(a.candidate.body).value);
    }
  }

  ghost predicate Safe(g: Setting, attempts: seq<Attempt>) {
    forall i :: 0 <= i < |attempts| ==> SafeAt(g, attempts, i)
  }

  ghost predicate AnyHit(g: Setting, attempts: seq<Attempt>) {
    exists i :: 0 <= i < |attempts| && Hit(g, attempts[i])
  }

  lemma SafeSnoc(g: Setting, xs: seq<Attempt>, a: Attempt)
    ensures Safe(g, xs + [a]) <==> Safe(g, xs) && (Tried(g, a).Crash? ==> AnyHit(g, xs))
  {
    hide Tried, Hit;
    var all := xs + [a];
    forall i | 0 <= i < |xs| ensures SafeAt(g, all, i) <==> SafeAt(g, xs, i) {
      assert forall j :: 0 <= j < i ==> all[j] == xs[j];
    }
    assert all[|xs|] == a && forall j :: 0 <= j < |xs| ==> all[j] == xs[j];
    assert SafeAt(g, all, |xs|) <==> (Tried(g, a).Crash? ==> AnyHit(g, xs));
  }

  function Pair(c: Candidate, nonce: (Json, Option<bytes>)): (r: seq<Attempt>) {
    [Attempt(c, nonce.0, nonce.1, Testnet), Attempt(c, nonce.0, nonce.1, Mainnet)]
  }

  /** Both networks crash or neither does. */
  lemma SafePair(g: Setting, xs: seq<Attempt>, c: Candidate, nonce: (Json, Option<bytes>))
    requires c.body.Dict?
    ensures Safe(g, xs + Pair(c, nonce)) <==> Safe(g, xs) && (Awkward(c.body, nonce.0) ==> AnyHit(g, xs))
  {
    hide Tried, Hit, Awkward, Safe;
    var t, m := Attempt(c, nonce.0, nonce.1, Testnet), Attempt(c, nonce.0, nonce.1, Mainnet);
    AwkwardExactly(g, t);
    AwkwardExactly(g, m);
    SafeSnoc(g, xs, t);
    SafeSnoc(g, xs + [t], m);
    assert xs + [t] + [m] == xs + Pair(c, nonce);
    HitIsNoMiss(g, t);
    AnyHitSnoc(g, xs, t);
  }

  lemma AnyHitSnoc(g: Setting, xs: seq<Attempt>, a: Attempt)
    ensures AnyHit(g, xs + [a]) <==> AnyHit(g, xs) || Hit(g, a)
  {
    hide Hit;
    assert (xs + [a])[|xs|] == a;
    assert forall i :: 0 <= i < |xs| ==> (xs + [a])[i] == xs[i];
  }

  /** Each nonce this candidate does not survive comes after a match, among `xs` or on an earlier nonce. */
  ghost predicate SafeOn(g: Setting, xs: seq<Attempt>, c: Candidate, nonces: seq<(Json, Option<bytes>)>) {
    forall j :: 0 <= j < |nonces| && Awkward(c.body, nonces[j].0) ==> AnyHit(g, xs + AttemptsOn(c, nonces[..j]))
  }

  lemma {:induction false} SafeOnExactly(g: Setting, xs: seq<Attempt>, c: Candidate, nonces: seq<(Json, Option<bytes>)>)
    requires c.body.Dict?
    ensures Safe(g, xs + AttemptsOn(c, nonces)) <==> Safe(g, xs) && SafeOn(g, xs, c, nonces)
  {
    hide Safe, Awkward, AnyHit;
    if nonces == [] {
      assert xs + AttemptsOn(c, nonces) == xs;
    } else {
      var n := |nonces| - 1;
      var front, last := nonces[..n], nonces[n];
      SafeOnExactly(g, xs, c, front);
      SafePair(g, xs + AttemptsOn(c, front), c, last);
      assert xs + AttemptsOn(c, front) + Pair(c, last) == xs + AttemptsOn(c, nonces);
      assert forall j :: 0 <= j < n ==> front[j] == nonces[j] && front[..j] == nonces[..j];
    }
  }

  /** Candidate `i`, tried after all the earlier ones. */
  ghost predicate SafeCandidate(g: Setting, candidates: seq<Candidate>, pending: seq<Pending>, i: nat)
    requires i < |candidates| && forall c <- candidates :: c.body.Dict?
  {
    SafeOn(g, Attempts(g.request, candidates[..i], pending), candidates[i], Nonces(g.request, candidates[i], pending))
  }

  ghost predicate SafeSearch(g: Setting, candidates: seq<Candidate>, pending: seq<Pending>)
    requires forall c <- candidates :: c.body.Dict?
  {
    forall i :: 0 <= i < |candidates| ==> SafeCandidate(g, candidates, pending, i)
  }

  lemma SafeSearchSnoc(g: Setting, front: seq<Candidate>, last: Candidate, pending: seq<Pending>)
    requires last.body.Dict? && forall c <- front :: c.body.Dict?
    ensures SafeSearch(g, front + [last], pending) <==>
      SafeSearch(g, front, pending) && SafeOn(g, Attempts(g.request, front, pending), last, Nonces(g.request, last, pending))
  {
    hide SafeOn, Nonces, Attempts;
    var all := front + [last];
    forall i | 0 <= i < |front| ensures SafeCandidate(g, all, pending, i) <==> SafeCandidate(g, front, pending, i) {
      assert all[i] == front[i] && all[..i] == front[..i];
    }
    assert all[|front|] == last && all[..|front|] == front;
    assert SafeCandidate(g, all, pending, |front|) <==>
      SafeOn(g, Attempts(g.request, front, pending), last, Nonces(g.request, last, pending));
  }

  lemma {:induction false} SafeSearchExactly(g: Setting, candidates: seq<Candidate>, pending: seq<Pending>)
    requires forall c <- candidates :: c.body.Dict?
    ensures Safe(g, Attempts(g.request, candidates, pending)) <==> SafeSearch(g, candidates, pending)
  {
    hide SafeOn, Nonces, SafeAt, SafeCandidate, AttemptsOn;
    if candidates != [] {
      hide Safe, SafeSearch;
      var front, last := candidates[..|candidates| - 1], candidates[|candidates| - 1];
      SafeSearchExactly(g, front, pending);
      SafeOnExactly(g, Attempts(g.request, front, pending), last, Nonces(g.request, last, pending));
      SafeSearchSnoc(g, front, last, pending);
      assert front + [last] == candidates;
    }
  }

  /**
   The prover returns the first match, and raises Unavailable without one, exactly when every
   candidate and nonce it does not survive is tried after a match.
   */
  lemma SearchKeepsItsPromiseExactly(g: Setting, candidates: seq<Candidate>, pending: seq<Pending>, v: Verdict)
    requires forall c <- candidates :: c.body.Dict?
    requires Decides(g, Attempts(g.request, candidates, pending), v)
    ensures v == Promised(g, Attempts(g.request, candidates, pending)) <==> SafeSearch(g, candidates, pending)
  {
    hide Decides, Attempts, SafeSearch;
    var attempts := Attempts(g.request, candidates, pending);
    DecideExactly(g, attempts, v);
    PromiseKeptExactly(g, attempts);
    SafeSearchExactly(g, candidates, pending);
  }

  /** The smallest order action. */
  function EmptyAction(): (action: Json) {
    Dict(Single("type", Str(Ascii("order"))) + Single("orders", List([])) + Single("grouping", Null))
  }

  function NumericVault(): (body: Json) {
    Dict(Single("action", EmptyAction()) + Single("vaultAddress", Int(1)))
  }

  /** A candidate with a number for its vault stops the search before any later match. */
  lemma NumericVaultCrashes(g: Setting, raw: Option<bytes>, hash: Option<bytes>, network: Network, rest: seq<Attempt>)
    ensures Decide(g, [Attempt(Candidate(NumericVault(), raw), Int(0), hash, network)] + rest) == Crashed
  {
    hide Commitments, CanonicalAction, Vault;
    var a := Attempt(Candidate(NumericVault(), raw), Int(0), hash, network);
    EmptyActionIsCanonical();
    GetAt("action", EmptyAction(), Single("vaultAddress", Int(1)), "vaultAddress");
    GetAt("vaultAddress", Int(1), [], "action");
    assert Single("vaultAddress", Int(1)) + [] == Single("vaultAddress", Int(1));
    assert BadVault(NumericVault());
    CrashesExactly(g, a);
  }

  lemma GetAt(key: string, value: Json, rest: seq<Entry>, other: string)
    requires IsAscii(key) && IsAscii(other) && |key| != |other|
    ensures Get(Single(key, value) + rest, Ascii(key)) == Some(value)
    ensures Get(Single(key, value) + rest, Ascii(other)) == Get(rest, Ascii(other))
  {
    assert |Ascii(key)| != |Ascii(other)|;
    assert (Single(key, value) + rest)[1..] == rest;
  }

  lemma EmptyActionIsCanonical()
    ensures CanonicalAction(NumericVault()) == Ok(EmptyAction()) && Packable(EmptyAction())
  {
    hide Get, Ascii, Single;
    GetAt("action", EmptyAction(), Single("vaultAddress", Int(1)), "vaultAddress");
    EmptyActionEntries();
    assert EmptyAction().entries + [] == EmptyAction().entries;
    EmptyActionPacks();
  }

  lemma EmptyActionPacks()
    ensures Packable(EmptyAction())
  {
  }

  lemma EmptyActionEntries()
    ensures Item(EmptyAction(), "type") == Ok(Str(Ascii("order"))) && Item(EmptyAction(), "orders") == Ok(List([]))
    ensures Item(EmptyAction(), "grouping") == Ok(Null) && Ask(EmptyAction(), "builder") == Ok(Null)
  {
    hide Get, Ascii, Single;
    var t, o, g := Single("type", Str(Ascii("order"))), Single("orders", List([])), Single("grouping", Null);
    assert EmptyAction().entries == t + (o + g) && g + [] == g;
    GetAt("type", Str(Ascii("order")), o + g, "orders");
    GetAt("type", Str(Ascii("order")), o + g, "grouping");
    GetAt("type", Str(Ascii("order")), o + g, "builder");
    GetAt("orders", List([]), g, "grouping");
    GetAt("orders", List([]), g, "builder");
    GetAt("grouping", Null, [], "builder");
    GetNothing(Ascii("builder"));
  }

  lemma GetNothing(key: bytes)
    ensures Get([], key) == None
  {
  }
}
