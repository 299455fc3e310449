/**
 What an accepted order attempt commits to, in plain terms: which values of the candidate body
 reach the signed action, under which keys and in which order, and which digests must match.
 */
module OrderForm {
  import opened Bytes
  import opened HexText
  import opened Identity
  import opened MsgPack
  import opened OrderProof
  import opened TypedData
  import opened OrderSearch

  // ---- looking things up

  /** The first entry under the key, which is the only one a parsed object has. */
  ghost predicate Under(entries: seq<Entry>, key: bytes, v: Json) {
    exists i :: 0 <= i < |entries| && entries[i] == Entry(key, v) && forall j :: 0 <= j < i ==> entries[j].key != key
  }

  lemma {:induction false} GetExactly(entries: seq<Entry>, key: bytes, v: Json)
    ensures Get(entries, key) == Some(v) <==> Under(entries, key, v)
  {
    if entries != [] {
      var rest := entries[1..];
      GetExactly(rest, key, v);
      if i :| 0 <= i < |rest| && rest[i] == Entry(key, v) && forall j :: 0 <= j < i ==> rest[j].key != key {
        assert entries[i + 1] == rest[i] && forall j :: 0 < j < i + 1 ==> entries[j] == rest[j - 1];
      }
      if i :| 0 <= i < |entries| && entries[i] == Entry(key, v) && forall j :: 0 <= j < i ==> entries[j].key != key {
        assert i > 0 ==> rest[i - 1] == entries[i] && forall j :: 0 <= j < i - 1 ==> rest[j] == entries[j + 1];
      }
    }
  }

  predicate Has(v: Json, key: bytes) {
    v.Dict? && Get(v.entries, key).Some?
  }

  /** What an object holds under a key; null stands for a missing key. */
  function Field(v: Json, key: bytes): (r: Json) {
    if Has(v, key) then Get(v.entries, key).value else Null
  }

  const A: bytes := [97]
  const B: bytes := [98]
  const C: bytes := [99]
  const F: bytes := [102]
  const P: bytes := [112]
  const R: bytes := [114]
  const S: bytes := [115]
  const T: bytes := [116]

  // ---- one order

  predicate LimitFits(kind: Json, part: seq<Entry>) {
    var limit := Field(kind, Ascii("limit"));
    if limit == Null then part == [] else
      Has(limit, Ascii("tif")) && part == [Entry(Ascii("limit"), Dict([Entry(Ascii("tif"), Field(limit, Ascii("tif")))]))]
  }

  predicate TriggerFits(kind: Json, part: seq<Entry>) {
    var trigger := Field(kind, Ascii("trigger"));
    if trigger == Null then part == [] else
      && Has(trigger, Ascii("isMarket")) && Has(trigger, Ascii("triggerPx")) && Has(trigger, Ascii("tpsl"))
      && part == [Entry(Ascii("trigger"), Dict([
           Entry(Ascii("isMarket"), Field(trigger, Ascii("isMarket"))), Entry(Ascii("triggerPx"), Field(trigger, Ascii("triggerPx"))),
           Entry(Ascii("tpsl"), Field(trigger, Ascii("tpsl")))]))]
  }

  /** The type of an order keeps its limit and its trigger, in this order. */
  ghost predicate KindFits(kind: Json, kept: Json) {
    kind.Dict? && exists limit, trigger :: LimitFits(kind, limit) && TriggerFits(kind, trigger) && kept == Dict(limit + trigger)
  }

  function Canonical(order: Json, kind: Json): (kept: Json) {
    Dict([Entry(A, Field(order, A)), Entry(B, Field(order, B)), Entry(P, Field(order, P)), Entry(S, Field(order, S)), Entry(R, Field(order, R)),
          Entry(T, kind)] + if Field(order, C) == Null then [] else [Entry(C, Field(order, C))])
  }

  /** A canonical order holds what the order holds under a, b, p, s, r, t and, unless null, c, in this order and nothing else. */
  ghost predicate OrderFits(order: Json, kept: Json) {
    && Has(order, A) && Has(order, B) && Has(order, P) && Has(order, S) && Has(order, R) && Has(order, T)
    && exists kind :: KindFits(Field(order, T), kind) && kept == Canonical(order, kind)
  }

  lemma ItemIs(v: Json, key: string)
    requires IsAscii(key)
    ensures Item(v, key) == if Has(v, Ascii(key)) then Ok(Field(v, Ascii(key))) else Caught
    ensures Ask(v, key) == if v.Dict? then Ok(Field(v, Ascii(key))) else Crash
  {
  }

  /** Whoever picks keys finds them all and copies them in the order asked for. */
  lemma {:induction false} PickExactly(v: Json, keys: seq<string>, es: seq<Entry>)
    requires forall k <- keys :: IsAscii(k)
    ensures Pick(v, keys) == Ok(es) <==>
      && |es| == |keys|
      && forall i :: 0 <= i < |keys| ==> IsAscii(keys[i]) && Has(v, Ascii(keys[i])) && es[i] == Entry(Ascii(keys[i]), Field(v, Ascii(keys[i])))
  {
    hide Ascii, Has, Field;
    if keys != [] {
      ItemIs(v, keys[0]);
      var rest := keys[1..];
      assert forall i :: 0 < i < |keys| ==> keys[i] == rest[i - 1];
      if |es| == |keys| {
        PickExactly(v, rest, es[1..]);
        assert es == [es[0]] + es[1..];
        assert forall i :: 0 < i < |keys| ==> es[i] == es[1..][i - 1];
        assert forall i :: 0 <= i < |rest| ==> rest[i] == keys[i + 1] && es[1..][i] == es[i + 1];
      } else if Pick(v, rest).Ok? {
        PickExactly(v, rest, Pick(v, rest).value);
      }
    }
  }

  lemma Letters()
    ensures Ascii("a") == A && Ascii("b") == B && Ascii("c") == C && Ascii("f") == F && Ascii("p") == P
    ensures Ascii("r") == R && Ascii("s") == S && Ascii("t") == T
  {
  }

  lemma LimitExactly(kind: Json, part: seq<Entry>)
    ensures Limit(kind) == Ok(part) <==> kind.Dict? && LimitFits(kind, part)
  {
    hide Ascii, Get;
    ItemIs(kind, "limit");
    if kind.Dict? {
      ItemIs(Field(kind, Ascii("limit")), "tif");
    }
  }

  lemma TriggerExactly(kind: Json, part: seq<Entry>)
    ensures Trigger(kind) == Ok(part) <==> kind.Dict? && TriggerFits(kind, part)
  {
    hide Ascii, Get, Pick;
    ItemIs(kind, "trigger");
    if kind.Dict? && Field(kind, Ascii("trigger")) != Null {
      PickThree(Field(kind, Ascii("trigger")), part);
    }
  }

  lemma PickThree(trigger: Json, part: seq<Entry>)
    ensures var picked := Pick(trigger, ["isMarket", "triggerPx", "tpsl"]);
      (picked.Ok? && part == Single("trigger", Dict(picked.value))) <==>
        && Has(trigger, Ascii("isMarket")) && Has(trigger, Ascii("triggerPx")) && Has(trigger, Ascii("tpsl"))
        && part == [Entry(Ascii("trigger"), Dict([
           Entry(Ascii("isMarket"), Field(trigger, Ascii("isMarket"))), Entry(Ascii("triggerPx"), Field(trigger, Ascii("triggerPx"))),
           Entry(Ascii("tpsl"), Field(trigger, Ascii("tpsl")))]))]
  {
    hide Ascii, Has, Field, Pick;
    var keys := ["isMarket", "triggerPx", "tpsl"];
    var picked := Pick(trigger, keys);
    if picked.Ok? {
      PickExactly(trigger, keys, picked.value);
      assert keys[0] == "isMarket" && keys[1] == "triggerPx" && keys[2] == "tpsl";
    }
    if Has(trigger, Ascii("isMarket")) && Has(trigger, Ascii("triggerPx")) && Has(trigger, Ascii("tpsl")) {
      var es := [Entry(Ascii("isMarket"), Field(trigger, Ascii("isMarket"))), Entry(Ascii("triggerPx"), Field(trigger, Ascii("triggerPx"))),
                 Entry(Ascii("tpsl"), Field(trigger, Ascii("tpsl")))];
      PickExactly(trigger, keys, es);
    }
  }

  lemma PickFive(order: Json, es: seq<Entry>)
    ensures Pick(order, ["a", "b", "p", "s", "r"]) == Ok(es) <==>
      && Has(order, A) && Has(order, B) && Has(order, P) && Has(order, S) && Has(order, R)
      && es == [Entry(A, Field(order, A)), Entry(B, Field(order, B)), Entry(P, Field(order, P)), Entry(S, Field(order, S)), Entry(R, Field(order, R))]
  {
    var keys := ["a", "b", "p", "s", "r"];
    assert keys[0] == "a" && keys[1] == "b" && keys[2] == "p" && keys[3] == "s" && keys[4] == "r";
    PickExactly(order, keys, es);
    Letters();
    hide Ascii, Has, Field, Pick;
    if |es| == 5 {
      assert es == [es[0], es[1], es[2], es[3], es[4]];
    }
  }

  /** An order is normalised exactly to the canonical order its values make, and fails exactly if they make none. */
  lemma NormalizedExactly(order: Json, kept: Json)
    ensures Normalized(order) == Ok(kept) <==> OrderFits(order, kept)
  {
    hide Ascii, Get, Pick, Limit, Trigger, LimitFits, TriggerFits, Item, Ask;
    Letters();
    ItemIs(order, "t");
    ItemIs(order, "c");
    var base, kind := Pick(order, ["a", "b", "p", "s", "r"]), Field(order, T);
    if Normalized(order).Ok? {
      PickFive(order, base.value);
      LimitExactly(kind, Limit(kind).value);
      TriggerExactly(kind, Trigger(kind).value);
      var t := Dict(Limit(kind).value + Trigger(kind).value);
      assert KindFits(kind, t);
      assert Normalized(order).value == Canonical(order, t);
      KindUnique(kind, t);
    }
    if OrderFits(order, kept) {
      var t :| KindFits(kind, t) && kept == Canonical(order, t);
      var limit, trigger :| LimitFits(kind, limit) && TriggerFits(kind, trigger) && t == Dict(limit + trigger);
      LimitExactly(kind, limit);
      TriggerExactly(kind, trigger);
      PickFive(order, Canonical(order, t).entries[..5]);
    }
  }

  lemma KindUnique(kind: Json, kept: Json)
    requires KindFits(kind, kept)
    ensures forall other :: KindFits(kind, other) ==> other == kept
  {
    hide Ascii, Get;
  }

  // ---- the whole action

  /** All orders of a list, in order; an empty text or object lists none. */
  ghost predicate OrdersFit(listed: Json, kept: seq<Json>) {
    match listed
    case List(items) => |kept| == |items| && forall i :: 0 <= i < |items| ==> OrderFits(items[i], kept[i])
    case Str(s) => s == [] && kept == []
    case Dict(entries) => entries == [] && kept == []
    case _ => false
  }

  predicate BuilderFits(source: Json, part: seq<Entry>) {
    var builder := Field(source, Ascii("builder"));
    if builder == Null then part == [] else
      Has(builder, B) && Has(builder, F) && part == [Entry(Ascii("builder"), Dict([Entry(B, Field(builder, B)), Entry(F, Field(builder, F))]))]
  }

  function Action(orders: seq<Json>, grouping: Json, builder: seq<Entry>): (action: Json) {
    Dict([Entry(Ascii("type"), Str(Ascii("order"))), Entry(Ascii("orders"), List(orders)), Entry(Ascii("grouping"), grouping)] + builder)
  }

  /** The canonical action keeps type, orders, grouping and builder of an order action, in this order and nothing else. */
  ghost predicate ActionFits(body: Json, action: Json) {
    var source := Field(body, Ascii("action"));
    && Has(body, Ascii("action")) && Has(source, Ascii("type")) && Has(source, Ascii("orders")) && Has(source, Ascii("grouping"))
    && Field(source, Ascii("type")) == Str(Ascii("order"))
    && exists orders, builder :: OrdersFit(Field(source, Ascii("orders")), orders) && BuilderFits(source, builder)
         && action == Action(orders, Field(source, Ascii("grouping")), builder)
  }

  lemma {:induction false} AllNormalizedExactly(items: seq<Json>, kept: seq<Json>)
    ensures AllNormalized(items) == Ok(kept) <==> |kept| == |items| && forall i :: 0 <= i < |items| ==> OrderFits(items[i], kept[i])
  {
    hide Normalized, OrderFits;
    if items != [] {
      var rest := items[1..];
      if |kept| == |items| {
        NormalizedExactly(items[0], kept[0]);
        AllNormalizedExactly(rest, kept[1..]);
        assert kept == [kept[0]] + kept[1..];
        assert forall i :: 0 <= i < |rest| ==> rest[i] == items[i + 1] && kept[1..][i] == kept[i + 1];
        assert forall i :: 0 < i < |items| ==> items[i] == rest[i - 1] && kept[i] == kept[1..][i - 1];
      } else if AllNormalized(rest).Ok? {
        AllNormalizedExactly(rest, AllNormalized(rest).value);
      }
    }
  }

  lemma OrdersExactly(listed: Json, kept: seq<Json>)
    ensures Orders(listed) == Ok(kept) <==> OrdersFit(listed, kept)
  {
    if listed.List? {
      AllNormalizedExactly(listed.items, kept);
    }
  }

  lemma BuilderExactly(source: Json, part: seq<Entry>)
    ensures Builder(source) == Ok(part) <==> source.Dict? && BuilderFits(source, part)
  {
    hide Ascii, Get, Pick;
    ItemIs(source, "builder");
    if source.Dict? && Field(source, Ascii("builder")) != Null {
      PickTwo(Field(source, Ascii("builder")), part);
    }
  }

  lemma PickTwo(builder: Json, part: seq<Entry>)
    ensures var picked := Pick(builder, ["b", "f"]);
      (picked.Ok? && part == Single("builder", Dict(picked.value))) <==>
        Has(builder, B) && Has(builder, F) && part == [Entry(Ascii("builder"), Dict([Entry(B, Field(builder, B)), Entry(F, Field(builder, F))]))]
  {
    var keys := ["b", "f"];
    assert keys[0] == "b" && keys[1] == "f";
    Letters();
    var es := [Entry(B, Field(builder, B)), Entry(F, Field(builder, F))];
    PickExactly(builder, keys, es);
    var picked := Pick(builder, keys);
    if picked.Ok? {
      PickExactly(builder, keys, picked.value);
      assert picked.value == [picked.value[0], picked.value[1]];
    }
  }

  /** A body has a canonical action exactly if its values make one, and then that one. */
  lemma CanonicalExactly(body: Json, action: Json)
    ensures CanonicalAction(body) == Ok(action) <==> ActionFits(body, action)
  {
    hide Ascii, Get, Orders, Builder, OrdersFit, BuilderFits, Item, Ask;
    var source := Field(body, Ascii("action"));
    ItemIs(body, "action");
    ItemIs(source, "type");
    ItemIs(source, "orders");
    ItemIs(source, "grouping");
    var listed := Field(source, Ascii("orders"));
    if CanonicalAction(body).Ok? {
      OrdersExactly(listed, Orders(listed).value);
      BuilderExactly(source, Builder(source).value);
      assert CanonicalAction(body).value == Action(Orders(listed).value, Field(source, Ascii("grouping")), Builder(source).value);
      assert ActionFits(body, CanonicalAction(body).value);
    }
    if ActionFits(body, action) {
      var orders, builder :| OrdersFit(listed, orders) && BuilderFits(source, builder)
         && action == Action(orders, Field(source, Ascii("grouping")), builder);
      OrdersExactly(listed, orders);
      BuilderExactly(source, builder);
      assert CanonicalAction(body) == Ok(action);
    }
  }

  // ---- vault and expiry

  const ZERO: bytes := [0, 0, 0, 0, 0, 0, 0, 0]
  const NEGATIVE_ZERO: bytes := [0x80, 0, 0, 0, 0, 0, 0, 0]

  /** The values Python takes for false. */
  predicate Falsy(v: Json) {
    v == Null || v == Bool(false) || v == Int(0) || v == Float(ZERO) || v == Float(NEGATIVE_ZERO) || v == Str([]) || v == List([]) || v == Dict([])
  }

  lemma ZerosExactly(bits: bytes)
    requires |bits| == 8
    ensures bits == ZERO || bits == NEGATIVE_ZERO <==> forall k :: 0 <= k < |bits| ==> bits[k] == 0 || (k == 0 && bits[k] == 0x80)
  {
    if forall k :: 0 <= k < |bits| ==> bits[k] == 0 || (k == 0 && bits[k] == 0x80) {
      assert bits == [bits[0], bits[1], bits[2], bits[3], bits[4], bits[5], bits[6], bits[7]];
    }
  }

  lemma TruthyExactly(v: Json)
    requires v.Float? ==> |v.bits| == 8
    ensures Truthy(v) <==> !Falsy(v)
  {
    if v.Float? {
      ZerosExactly(v.bits);
    }
  }

  lemma HexDigitExactly(b: byte, n: int)
    ensures HexDigit(b) == Some(n) <==> Digit(b, n)
    ensures HexDigit(b).Some? ==> HexDigit(b).value < 16
    ensures IsSpace(b) <==> White(b)
    ensures White(b) ==> HexDigit(b).None?
  {
  }

  lemma FromHexPair(s: bytes, v: bytes)
    requires |s| >= 2 && !IsSpace(s[0])
    ensures FromHex(s) == Some(v) <==>
      v != [] && HexDigit(s[0]) == Some(v[0] / 16) && HexDigit(s[1]) == Some(v[0] % 16) && FromHex(s[2..]) == Some(v[1..])
  {
    hide HexDigit, IsSpace;
    HexDigitExactly(s[0], 0);
    HexDigitExactly(s[1], 0);
    if v != [] {
      assert v == [v[0]] + v[1..];
      if HexDigit(s[0]).Some? && HexDigit(s[1]).Some? {
        TwoDigits(HexDigit(s[0]).value, HexDigit(s[1]).value, 16);
      }
    }
  }

  /** The vault's text gives exactly the bytes it spells. */
  lemma {:induction false} FromHexExactly(s: bytes, v: bytes)
    ensures FromHex(s) == Some(v) <==> Spells(s, v)
    decreases |s|
  {
    hide Digit, HexDigit, BetweenPairs, Spells, IsSpace, White;
    if s == [] {
      NothingSpelled(v);
    } else {
      HexDigitExactly(s[0], 0);
      if White(s[0]) {
        SpellsSkips(s, v);
        FromHexExactly(s[1..], v);
      } else if |s| == 1 || White(s[1]) {
        SolidLone(s);
        if |s| > 1 {
          HexDigitExactly(s[1], 0);
        }
      } else {
        SpellsPair(s, v);
        FromHexPair(s, v);
        if v != [] {
          HexDigitExactly(s[0], v[0] / 16);
          HexDigitExactly(s[1], v[0] % 16);
          FromHexExactly(s[2..], v[1..]);
        }
      }
    }
  }

  /** No vault for a false value, else the bytes its text spells after an optional 0x. */
  ghost predicate VaultFits(body: Json, vault: Option<bytes>) {
    var v := Field(body, Ascii("vaultAddress"));
    if Falsy(v) then vault == None else
      && v.Str? && vault.Some?
      && Spells(if |v.s| >= 2 && v.s[..2] == [48, 120] then v.s[2..] else v.s, vault.value)
  }

  predicate ExpiryFits(body: Json, expiry: Option<nat>) {
    match Field(body, Ascii("expiresAfter"))
    case Null => expiry == None
    case Bool(b) => expiry == Some(if b then 1 else 0)
    case Int(i) => 0 <= i < 0x1_0000_0000_0000_0000 && expiry == Some(i)
    case _ => false
  }

  lemma VaultExactly(body: Json, vault: Option<bytes>)
    requires var v := Field(body, Ascii("vaultAddress")); v.Float? ==> |v.bits| == 8
    ensures Vault(body) == Ok(vault) <==> body.Dict? && VaultFits(body, vault)
  {
    hide Ascii, Get, FromHex, Spells, Truthy, Falsy;
    ItemIs(body, "vaultAddress");
    var v := Field(body, Ascii("vaultAddress"));
    TruthyExactly(v);
    if v.Str? {
      var text := WithoutPrefix(v.s);
      if vault.Some? {
        FromHexExactly(text, vault.value);
      }
    }
  }

  lemma ExpiryExactly(body: Json, expiry: Option<nat>)
    ensures Expiry(body) == Ok(expiry) <==> body.Dict? && ExpiryFits(body, expiry)
  {
    hide Ascii, Get;
    ItemIs(body, "expiresAfter");
  }

  // ---- what an attempt commits to

  /** The terms of a body: its canonical action, a 64-bit nonce, its vault and its expiry. */
  ghost predicate TermsFit(body: Json, nonce: Json, t: Terms) {
    && body.Dict? && nonce == Int(t.nonce) && t.nonce < 0x1_0000_0000_0000_0000
    && ActionFits(body, t.action) && Packable(t.action) && VaultFits(body, t.vault) && ExpiryFits(body, t.expiry)
  }

  /** A vault given as a number has the eight bytes of one. */
  predicate PlainVault(body: Json) {
    var v := Field(body, Ascii("vaultAddress")); v.Float? ==> |v.bits| == 8
  }

  lemma TermsExactly(body: Json, nonce: Json, t: Terms)
    requires PlainVault(body)
    ensures TermsOf(body, nonce) == Ok(t) <==> TermsFit(body, nonce, t)
  {
    hide CanonicalAction, ActionFits, Packable, Vault, VaultFits, Expiry, ExpiryFits, Ascii;
    CanonicalExactly(body, t.action);
    VaultExactly(body, t.vault);
    ExpiryExactly(body, t.expiry);
    if TermsOf(body, nonce).Ok? && ActionFits(body, t.action) {
      assert CanonicalAction(body) == Ok(t.action);
    }
    ActionNeedsBody(body, t.action);
  }

  lemma ActionNeedsBody(body: Json, action: Json)
    ensures ActionFits(body, action) ==> body.Dict?
  {
    hide Ascii;
  }

  /** The manifest and the claim inside it carry the payload's two digests and its batch's. */
  predicate Carried(g: Setting, payload: bytes) {
    && g.request.payload == g.sha(payload)
    && g.manifest == Manifest(g.manifest.approval, Some([g.sha(payload)]), Some([g.keccak(payload)]),
                              g.manifest.claimPackage, g.manifest.claimRoute, Some(g.sha(HandBatch(payload))), Some([g.keccak(payload)]))
  }

  /** An attempt hits exactly if the body makes terms whose typed data, on that network, all five digests stand for. */
  lemma HitExactly(g: Setting, a: Attempt)
    requires PlainVault(a.candidate.body)
    ensures Hit(g, a) <==> exists t :: TermsFit(a.candidate.body, a.nonce, t) && Carried(g, Typed(g.keccak, t, a.network))
  {
    hide TermsOf, TermsFit, Preimage, Typed, HandBatch, PlainVault, Packable;
    var body := a.candidate.body;
    forall t ensures TermsOf(body, a.nonce) == Ok(t) <==> TermsFit(body, a.nonce, t) {
      TermsExactly(body, a.nonce, t);
    }
    if TermsOf(body, a.nonce).Ok? {
      var t := TermsOf(body, a.nonce).value;
      PreimageIsTypedData(g.keccak, t, a.network);
      assert TermsFit(body, a.nonce, t);
    }
  }

  // ---- what is tried, and what a proof says

  /** Attempt `2 i` is nonce `i` on the test network, attempt `2 i + 1` the same on the main network. */
  lemma {:induction false} AttemptsExactly(c: Candidate, nonces: seq<(Json, Option<bytes>)>, i: nat)
    requires i < |nonces|
    ensures |AttemptsOn(c, nonces)| == 2 * |nonces|
    ensures AttemptsOn(c, nonces)[2 * i] == Attempt(c, nonces[i].0, nonces[i].1, Testnet)
    ensures AttemptsOn(c, nonces)[2 * i + 1] == Attempt(c, nonces[i].0, nonces[i].1, Mainnet)
    decreases |nonces|
  {
    var front := nonces[..|nonces| - 1];
    if front != [] {
      AttemptsExactly(c, front, if i < |front| then i else 0);
      assert i < |front| ==> front[i] == nonces[i];
    }
  }

  /** A pending record counts if it names this request and is not done. */
  predicate Open(request: Request, p: Pending) {
    p == Pending(p.nonce, p.bodyHash, Some(request.id), Some(false))
  }

  function Opened(request: Request, pending: seq<Pending>): (r: seq<Pending>) {
    if pending == [] then [] else if Open(request, pending[0]) then [pending[0]] + Opened(request, pending[1..]) else Opened(request, pending[1..])
  }

  lemma {:induction false} OpenedSnoc(request: Request, pending: seq<Pending>, p: Pending)
    ensures Opened(request, pending + [p]) == Opened(request, pending) + if Open(request, p) then [p] else []
  {
    if pending == [] {
      assert [p][1..] == [] && pending + [p] == [p];
    } else {
      assert (pending + [p])[1..] == pending[1..] + [p];
      OpenedSnoc(request, pending[1..], p);
    }
  }

  /** A body's own nonce is the only one tried; without one, those of the open records of the request, in order. */
  lemma NoncesExactly(request: Request, c: Candidate, pending: seq<Pending>)
    requires c.body.Dict?
    ensures var own, open := Field(c.body, Ascii("nonce")), Opened(request, pending);
      Nonces(request, c, pending) ==
        if own != Null then [(own, None)] else seq(|open|, i requires 0 <= i < |open| => (open[i].nonce, open[i].bodyHash))
  {
    hide Ascii, Get;
    ItemIs(c.body, "nonce");
    LinkedExactly(request, pending);
  }

  lemma {:induction false} LinkedExactly(request: Request, pending: seq<Pending>)
    ensures var open := Opened(request, pending);
      LinkedNonces(request, pending) == seq(|open|, i requires 0 <= i < |open| => (open[i].nonce, open[i].bodyHash))
  {
    if pending != [] {
      var front, last := pending[..|pending| - 1], pending[|pending| - 1];
      LinkedExactly(request, front);
      assert front + [last] == pending;
      OpenedSnoc(request, front, last);
      assert Linked(request, last) <==> Open(request, last);
    }
  }

  /** A proof names its attempt and digests, and says whether the body's text has the hash on record, if both are known. */
  lemma ProofExactly(g: Setting, a: Attempt, t: Terms)
    requires Hit(g, a) && PlainVault(a.candidate.body) && TermsFit(a.candidate.body, a.nonce, t)
    ensures var p, payload := ProofOf(g, a), Typed(g.keccak, t, a.network);
      && p.attempt == a && p.commitment == Commitment(g.sha(payload), g.keccak(payload), g.sha(HandBatch(payload)))
      && (p.rawMatches.Some? <==> a.candidate.raw.Some? && a.bodyHash.Some?)
      && (p.rawMatches.Some? ==> (p.rawMatches.value <==> g.keccak(a.candidate.raw.value) == a.bodyHash.value))
  {
    hide TermsOf, TermsFit, Preimage, Typed, HandBatch, PlainVault, Packable;
    TermsExactly(a.candidate.body, a.nonce, t);
    PreimageIsTypedData(g.keccak, t, a.network);
  }
}
