/**
 Proving a candidate order body against the commitments a Broker approved: the canonical
 action is packed, bound to nonce, vault, expiry and network by two rounds of hashing, and
 the first candidate whose five commitments all match is the proof. `keccak` and `sha` stand
 for the two hash functions.
 */
module OrderProof {
  import opened Bytes
  import opened Identity
  import opened MsgPack

  type Hash = bytes -> bytes

  /** `Caught` is an error the search skips over; `Crash` is an AttributeError, which it does not catch. */
  datatype Outcome<+T> = Ok(value: T) | Caught | Crash {
    predicate IsFailure() { !Ok? }

    function PropagateFailure<U>(): Outcome<U>
      requires !Ok?
    {
      if Caught? then Caught else Crash
    }

    function Extract(): T
      requires Ok?
    {
      value
    }
  }

  datatype Network = Testnet | Mainnet

  // ----- Python's view of a JSON value -----

  function Get(entries: seq<Entry>, key: bytes): (r: Option<Json>) {
    if entries == [] then None else if entries[0].key == key then Some(entries[0].value) else Get(entries[1..], key)
  }

  /** Subscription by a string: a KeyError or a TypeError when it fails. */
  function Item(v: Json, key: string): (r: Outcome<Json>)
    requires IsAscii(key)
  {
    if v.Dict? && Get(v.entries, Ascii(key)).Some? then Ok(Get(v.entries, Ascii(key)).value) else Caught
  }

  /** The `get` method: null when the key is missing, and no method at all on anything but a dict. */
  function Ask(v: Json, key: string): (r: Outcome<Json>)
    requires IsAscii(key)
  {
    if !v.Dict? then Crash else
    if Get(v.entries, Ascii(key)).Some? then Ok(Get(v.entries, Ascii(key)).value) else Ok(Null)
  }

  predicate IsAscii(s: string) {
    forall i :: 0 <= i < |s| ==> s[i] < 128 as char
  }

  predicate Truthy(v: Json) {
    match v
    case Null => false
    case Bool(b) => b
    case Int(i) => i != 0
    case Float(bits) => exists k :: 0 <= k < |bits| && bits[k] != 0 && (k > 0 || bits[k] != 0x80)
    case Str(s) => s != []
    case List(items) => items != []
    case Dict(entries) => entries != []
  }

  function Pick(v: Json, keys: seq<string>): (r: Outcome<seq<Entry>>)
    requires forall k <- keys :: IsAscii(k)
  {
    if keys == [] then Ok([]) else
      var item :- Item(v, keys[0]);
      var rest :- Pick(v, keys[1..]);
      Ok([Entry(Ascii(keys[0]), item)] + rest)
  }

  function Single(key: string, value: Json): (r: seq<Entry>)
    requires IsAscii(key)
  {
    [Entry(Ascii(key), value)]
  }

  // ----- The canonical action -----

  function Limit(kind: Json): (r: Outcome<seq<Entry>>) {
    var limit :- Ask(kind, "limit");
    if limit.Null? then Ok([]) else
      var tif :- Item(limit, "tif");
      Ok(Single("limit", Dict(Single("tif", tif))))
  }

  function Trigger(kind: Json): (r: Outcome<seq<Entry>>) {
    var trigger :- Ask(kind, "trigger");
    if trigger.Null? then Ok([]) else
      var picked :- Pick(trigger, ["isMarket", "triggerPx", "tpsl"]);
      Ok(Single("trigger", Dict(picked)))
  }

  function Normalized(order: Json): (r: Outcome<Json>) {
    var base :- Pick(order, ["a", "b", "p", "s", "r"]);
    var kind :- Item(order, "t");
    var limit :- Limit(kind);
    var trigger :- Trigger(kind);
    var c :- Ask(order, "c");
    Ok(Dict(base + Single("t", Dict(limit + trigger)) + if c.Null? then [] else Single("c", c)))
  }

  function AllNormalized(orders: seq<Json>): (r: Outcome<seq<Json>>) {
    if orders == [] then Ok([]) else
      var first :- Normalized(orders[0]);
      var rest :- AllNormalized(orders[1..]);
      Ok([first] + rest)
  }

  /** Iterating a string or a dict yields strings, which cannot be subscripted; a number cannot be iterated. */
  function Orders(v: Json): (r: Outcome<seq<Json>>) {
    match v
    case List(items) => AllNormalized(items)
    case Str(s) => if s == [] then Ok([]) else Caught
    case Dict(entries) => if entries == [] then Ok([]) else Caught
    case _ => Caught
  }

  function Builder(source: Json): (r: Outcome<seq<Entry>>) {
    var builder :- Ask(source, "builder");
    if builder.Null? then Ok([]) else
      var picked :- Pick(builder, ["b", "f"]);
      Ok(Single("builder", Dict(picked)))
  }

  function CanonicalAction(body: Json): (r: Outcome<Json>) {
    var source :- Item(body, "action");
    var kind :- Item(source, "type");
    if kind != Str(Ascii("order")) then Caught else
    var listed :- Item(source, "orders");
    var orders :- Orders(listed);
    var grouping :- Item(source, "grouping");
    var builder :- Builder(source);
    Ok(Dict(Single("type", kind) + Single("orders", List(orders)) + Single("grouping", grouping) + builder))
  }

  // ----- What is signed -----

  predicate IsSpace(b: byte) {
    b == 32 || 9 <= b <= 13
  }

  function HexDigit(b: byte): (r: Option<byte>) {
    if 48 <= b <= 57 then Some(b - 48) else if 97 <= b <= 102 then Some(b - 87) else if 65 <= b <= 70 then Some(b - 55) else None
  }

  /** Pairs of hex digits, with white space allowed between pairs. */
  function FromHex(s: bytes): (r: Option<bytes>) {
    if s == [] then Some([]) else
    if IsSpace(s[0]) then FromHex(s[1..]) else
    if |s| < 2 || HexDigit(s[0]).None? || HexDigit(s[1]).None? then None else
      var rest :- FromHex(s[2..]);
      Some([HexDigit(s[0]).value * 16 + HexDigit(s[1]).value] + rest)
  }

  function WithoutPrefix(s: bytes): (r: bytes) {
    if |s| >= 2 && s[0] == 48 && s[1] == 120 then s[2..] else s
  }

  function Vault(body: Json): (r: Outcome<Option<bytes>>) {
    var vault :- Ask(body, "vaultAddress");
    if !Truthy(vault) then Ok(None) else
    if !vault.Str? then Crash else
    if FromHex(WithoutPrefix(vault.s)).None? then Caught else Ok(FromHex(WithoutPrefix(vault.s)))
  }

  /** Python's booleans are integers here too. */
  function Expiry(body: Json): (r: Outcome<Option<nat>>) {
    var expiry :- Ask(body, "expiresAfter");
    match expiry
    case Null => Ok(None)
    case Bool(b) => Ok(Some(if b then 1 else 0))
    case Int(i) => if 0 <= i < U64 then Ok(Some(i)) else Caught
    case _ => Crash
  }

  /** Everything a signature binds besides the network. */
  datatype Terms = Terms(action: Json, nonce: nat, vault: Option<bytes>, expiry: Option<nat>)

  function TermsOf(body: Json, nonce: Json): (r: Outcome<Terms>)
    ensures r.Ok? ==> Packable(r.value.action) && r.value.nonce < U64 && (r.value.expiry.Some? ==> r.value.expiry.value < U64)
  {
    if !(nonce.Int? && 0 <= nonce.i < U64) then Caught else
    var action :- CanonicalAction(body);
    if !Packable(action) then Caught else
    var vault :- Vault(body);
    var expiry :- Expiry(body);
    Ok(Terms(action, nonce.i, vault, expiry))
  }

  function VaultPart(t: Terms): (r: bytes) {
    if t.vault.Some? then [1] + t.vault.value else [0]
  }

  function ExpiryPart(t: Terms): (r: bytes) {
    if t.expiry.Some? then [0] + BigEndian(t.expiry.value, 8) else []
  }

  function Encoded(t: Terms): (r: bytes)
    requires Packable(t.action)
  {
    Pack(t.action) + BigEndian(t.nonce, 8) + VaultPart(t) + ExpiryPart(t)
  }

  function Source(network: Network): (r: bytes) {
    if network.Mainnet? then Ascii("a") else Ascii("b")
  }

  function Spaced(kind: string, name: string): (r: bytes)
    requires IsAscii(kind) && IsAscii(name)
  {
    Ascii(kind) + Ascii(" ") + Ascii(name)
  }

  const DOMAIN_TYPE: bytes :=
    Ascii("EIP712Domain") + Ascii("(") + Spaced("string", "name") + Ascii(",") + Spaced("string", "version") + Ascii(",")
    + Spaced("uint256", "chainId") + Ascii(",") + Spaced("address", "verifyingContract") + Ascii(")")
  const AGENT_TYPE: bytes :=
    Ascii("Agent") + Ascii("(") + Spaced("string", "source") + Ascii(",") + Spaced("bytes32", "connectionId") + Ascii(")")

  function Domain(keccak: Hash): (r: bytes) {
    keccak(keccak(DOMAIN_TYPE) + keccak(Ascii("Exchange")) + keccak(Ascii("1")) + BigEndian(1337, 32) + seq(32, _ => 0))
  }

  function AgentInput(keccak: Hash, t: Terms, network: Network): (r: bytes)
    requires Packable(t.action)
  {
    keccak(AGENT_TYPE) + keccak(Source(network)) + keccak(Encoded(t))
  }

  function Preimage(keccak: Hash, t: Terms, network: Network): (r: bytes)
    requires Packable(t.action)
  {
    [0x19, 0x01] + Domain(keccak) + keccak(AgentInput(keccak, t, network))
  }

  datatype Commitment = Commitment(payload: bytes, signing: bytes, batch: bytes)

  /** The prover spells the one-payload batch out by hand. */
  function HandBatch(preimage: bytes): (r: bytes) {
    Ascii("bloom.petal.payload-batch.v1") + [0] + BigEndian(1, 8) + (BigEndian(|preimage|, 8) + preimage)
  }

  function Commitments(keccak: Hash, sha: Hash, body: Json, nonce: Json, network: Network): (r: Outcome<Commitment>) {
    var terms :- TermsOf(body, nonce);
    var preimage := Preimage(keccak, terms, network);
    Ok(Commitment(sha(preimage), keccak(preimage), sha(HandBatch(preimage))))
  }

  /** It is exactly the batch the daemon hashes when it is given that one payload. */
  lemma HandBatchIsBatch(preimage: part)
    ensures HandBatch(preimage) == Batch([preimage])
  {
    hide BigEndian;
    assert [preimage][..0] == [];
    assert Parts([preimage]) == Prefixed(preimage);
  }

  // ----- What a commitment determines -----

  predicate Bounded(t: Terms) {
    Packable(t.action) && t.nonce < U64 && (t.expiry.Some? ==> t.expiry.value < U64)
  }

  /** The end of `t`'s vault can be read as `u`'s expiry: vault lengths are not checked. */
  predicate Shadows(t: Terms, u: Terms) {
    && t.action == u.action && t.nonce == u.nonce
    && t.vault.Some? && t.expiry.None? && u.vault.Some? && u.expiry.Some?
    && t.vault.value == u.vault.value + [0] + BigEndian(u.expiry.value, 8)
  }

  predicate Confusable(t: Terms, u: Terms) {
    t == u || Shadows(t, u) || Shadows(u, t)
  }

  function Tail(t: Terms): (r: bytes) {
    VaultPart(t) + ExpiryPart(t)
  }

  lemma SameLengthTails(t: Terms, u: Terms)
    requires Bounded(t) && Bounded(u) && t.expiry.Some? == u.expiry.Some? && t.vault.Some? == u.vault.Some?
    ensures Tail(t) == Tail(u) <==> t.vault == u.vault && t.expiry == u.expiry
  {
    hide BigEndian;
    if Tail(t) == Tail(u) {
      SplitEqual(VaultPart(t), VaultPart(u), ExpiryPart(t), ExpiryPart(u));
      if t.vault.Some? {
        SplitEqual([1], [1], t.vault.value, u.vault.value);
      }
      if t.expiry.Some? {
        SplitEqual([0], [0], BigEndian(t.expiry.value, 8), BigEndian(u.expiry.value, 8));
        BigEndianInjective(t.expiry.value, u.expiry.value);
      }
    }
  }

  /** One tail ends in an expiry and the other does not. */
  lemma ShadowTails(t: Terms, u: Terms)
    requires t.vault.Some? == u.vault.Some? && t.expiry.None? && u.expiry.Some?
    ensures Tail(t) == Tail(u) <==>
      t.vault.Some? && t.vault.value == u.vault.value + [0] + BigEndian(u.expiry.value, 8)
  {
    hide BigEndian;
    var expiry := BigEndian(u.expiry.value, 8);
    if t.vault.Some? {
      assert Tail(t) == [1] + t.vault.value;
      Regroup(u.vault.value, expiry);
      if Tail(t) == Tail(u) {
        SplitEqual([1], [1], t.vault.value, u.vault.value + [0] + expiry);
      }
    } else {
      assert |Tail(t)| == 1 && |Tail(u)| == 10;
    }
  }

  lemma Regroup(vault: bytes, expiry: bytes)
    ensures [1] + vault + ([0] + expiry) == [1] + (vault + [0] + expiry)
  {
  }

  lemma TailsExactly(t: Terms, u: Terms)
    requires Bounded(t) && Bounded(u) && t.action == u.action && t.nonce == u.nonce
    ensures Tail(t) == Tail(u) <==> Confusable(t, u)
  {
    hide BigEndian;
    if t.vault.Some? != u.vault.Some? {
      assert Tail(t)[0] == VaultPart(t)[0] != VaultPart(u)[0] == Tail(u)[0];
    } else if t.expiry.Some? == u.expiry.Some? {
      SameLengthTails(t, u);
    } else if t.expiry.None? {
      ShadowTails(t, u);
    } else {
      ShadowTails(u, t);
    }
  }

  /** What is hashed determines action, nonce, vault and expiry, except for a vault that ends like another's expiry. */
  lemma EncodedExactly(t: Terms, u: Terms)
    requires Bounded(t) && Bounded(u)
    ensures Encoded(t) == Encoded(u) <==> Confusable(t, u)
  {
    hide BigEndian, Pack, Tail, VaultPart, ExpiryPart;
    EncodedIs(t);
    EncodedIs(u);
    if Encoded(t) == Encoded(u) {
      PackSplit(t.action, u.action, BigEndian(t.nonce, 8) + Tail(t), BigEndian(u.nonce, 8) + Tail(u));
      SplitEqual(BigEndian(t.nonce, 8), BigEndian(u.nonce, 8), Tail(t), Tail(u));
      BigEndianInjective(t.nonce, u.nonce);
    }
    if t.action == u.action && t.nonce == u.nonce {
      TailsExactly(t, u);
    }
  }

  lemma EncodedIs(t: Terms)
    requires Packable(t.action)
    ensures Encoded(t) == Pack(t.action) + (BigEndian(t.nonce, 8) + Tail(t))
  {
    hide BigEndian, Pack, VaultPart, ExpiryPart;
  }

  predicate TwentyByteVault(t: Terms) {
    t.vault.Some? ==> |t.vault.value| == 20
  }

  /** Vaults of one length, as real addresses have, leave nothing to confuse. */
  lemma EncodedInjective(t: Terms, u: Terms)
    requires Bounded(t) && Bounded(u) && TwentyByteVault(t) && TwentyByteVault(u) && Encoded(t) == Encoded(u)
    ensures t == u
  {
    hide BigEndian, Encoded;
    EncodedExactly(t, u);
  }

  /** Every vault with an expiry has its shadow: a vault nine bytes longer, without one, signed alike. */
  lemma LongVaultIsAmbiguous(t: Terms, vault: bytes, expiry: nat)
    requires Bounded(t) && expiry < U64
    ensures var long := t.(vault := Some(vault + [0] + BigEndian(expiry, 8)), expiry := None);
      var short := t.(vault := Some(vault), expiry := Some(expiry));
      long != short && Encoded(long) == Encoded(short)
  {
    hide BigEndian, Encoded;
    var long := t.(vault := Some(vault + [0] + BigEndian(expiry, 8)), expiry := None);
    EncodedExactly(long, t.(vault := Some(vault), expiry := Some(expiry)));
  }

  ghost predicate Fixed(h: Hash) {
    forall x :: |h(x)| == 32
  }

  predicate NoCollision(h: Hash, x: bytes, y: bytes) {
    h(x) == h(y) ==> x == y
  }

  /** The four pairs of hash calls on the way to two payload digests. */
  predicate NoCollisionsBetween(keccak: Hash, sha: Hash, t: Terms, n: Network, u: Terms, m: Network)
    requires Packable(t.action) && Packable(u.action)
  {
    && NoCollision(sha, Preimage(keccak, t, n), Preimage(keccak, u, m))
    && NoCollision(keccak, AgentInput(keccak, t, n), AgentInput(keccak, u, m))
    && NoCollision(keccak, Source(n), Source(m))
    && NoCollision(keccak, Encoded(t), Encoded(u))
  }

  /** Without a collision on the way, one payload digest stands for one network and for terms that are signed alike. */
  lemma WitnessExactly(keccak: Hash, sha: Hash, t: Terms, u: Terms, n: Network, m: Network)
    requires Bounded(t) && Bounded(u) && Fixed(keccak) && NoCollisionsBetween(keccak, sha, t, n, u, m)
    ensures sha(Preimage(keccak, t, n)) == sha(Preimage(keccak, u, m)) <==> n == m && Confusable(t, u)
  {
    hide Encoded, Source, Domain, Confusable;
    EncodedExactly(t, u);
    if sha(Preimage(keccak, t, n)) == sha(Preimage(keccak, u, m)) {
      var a, b := AgentInput(keccak, t, n), AgentInput(keccak, u, m);
      var front := [0x19, 0x01] + Domain(keccak);
      SplitEqual(front, front, keccak(a), keccak(b));
      assert |keccak(Source(n))| == 32 && |keccak(Source(m))| == 32;
      SplitEqual(keccak(AGENT_TYPE) + keccak(Source(n)), keccak(AGENT_TYPE) + keccak(Source(m)), keccak(Encoded(t)), keccak(Encoded(u)));
      SplitEqual(keccak(AGENT_TYPE), keccak(AGENT_TYPE), keccak(Source(n)), keccak(Source(m)));
      SourceInjective(n, m);
    }
  }

  /** With vaults of 20 bytes the digest determines everything. */
  lemma WitnessIsUnique(keccak: Hash, sha: Hash, t: Terms, u: Terms, n: Network, m: Network)
    requires Bounded(t) && Bounded(u) && TwentyByteVault(t) && TwentyByteVault(u) && Fixed(keccak)
    requires NoCollisionsBetween(keccak, sha, t, n, u, m)
    requires sha(Preimage(keccak, t, n)) == sha(Preimage(keccak, u, m))
    ensures t == u && n == m
  {
    hide Preimage, NoCollisionsBetween, BigEndian;
    WitnessExactly(keccak, sha, t, u, n, m);
  }

  lemma SourceInjective(n: Network, m: Network)
    requires Source(n) == Source(m)
    ensures n == m
  {
    assert Source(n)[0] == Source(m)[0];
  }
}
