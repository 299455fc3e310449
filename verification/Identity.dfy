/**
 The byte strings the daemon hashes to name signing requests, payload batches and Petal
 sessions. What is hashed must determine what is named: every encoding here is proved to be
 read back in one way only.
 */
module Identity {
  import opened Bytes

  const U64: nat := 0x1_0000_0000_0000_0000

  /** A string short enough for its length to be counted in 64 bits. */
  type part = p: bytes | |p| < U64

  // ----- Big-endian numbers -----

  function BigEndian(n: nat, k: nat): (r: bytes)
    ensures |r| == k
  {
    if k == 0 then [] else BigEndian(n / 256, k - 1) + [n % 256]
  }

  function Number(s: bytes): (n: nat) {
    if s == [] then 0 else Number(s[..|s| - 1]) * 256 + s[|s| - 1]
  }

  predicate Fits(n: nat, k: nat) {
    if k == 0 then n == 0 else Fits(n / 256, k - 1)
  }

  lemma {:induction false} NumberOfBigEndian(n: nat, k: nat)
    requires Fits(n, k)
    ensures Number(BigEndian(n, k)) == n
  {
    if k > 0 {
      NumberOfBigEndian(n / 256, k - 1);
      assert BigEndian(n, k)[..k - 1] == BigEndian(n / 256, k - 1);
    }
  }

  lemma FitsEight(n: nat)
    requires n < U64
    ensures Fits(n, 8)
  {
    var a := n / 256;
    var b := a / 256;
    var c := b / 256;
    var d := c / 256;
    var e := d / 256;
    var f := e / 256;
    var g := f / 256;
    assert g / 256 == 0;
    assert Fits(g, 1);
    assert Fits(e, 3);
    assert Fits(c, 5);
    assert Fits(a, 7);
  }

  lemma BigEndianInjective(n: nat, m: nat)
    requires n < U64 && m < U64 && BigEndian(n, 8) == BigEndian(m, 8)
    ensures n == m
  {
    FitsEight(n);
    FitsEight(m);
    NumberOfBigEndian(n, 8);
    NumberOfBigEndian(m, 8);
  }

  // ----- Length-prefixed parts -----

  function Prefixed(p: part): (r: bytes) {
    BigEndian(|p|, 8) + p
  }

  lemma PrefixedSplit(p: part, q: part, x: bytes, y: bytes)
    requires Prefixed(p) + x == Prefixed(q) + y
    ensures p == q && x == y
  {
    hide BigEndian;
    assert BigEndian(|p|, 8) + (p + x) == Prefixed(p) + x;
    assert BigEndian(|q|, 8) + (q + y) == Prefixed(q) + y;
    SplitEqual(BigEndian(|p|, 8), BigEndian(|q|, 8), p + x, q + y);
    BigEndianInjective(|p|, |q|);
    SplitEqual(p, q, x, y);
  }

  function Parts(ps: seq<part>): (r: bytes) {
    if ps == [] then [] else Parts(ps[..|ps| - 1]) + Prefixed(ps[|ps| - 1])
  }

  /** Parts as read from the front. */
  lemma {:induction false} PartsFront(ps: seq<part>)
    requires ps != []
    ensures Parts(ps) == Prefixed(ps[0]) + Parts(ps[1..])
  {
    hide Prefixed;
    if |ps| == 1 {
      assert ps[..0] == [] && ps[1..] == [];
    } else {
      PartsFront(ps[..|ps| - 1]);
      assert ps[..|ps| - 1][1..] == ps[1..][..|ps| - 2];
    }
  }

  /** However many bytes follow, equally many parts are read back in one way only. */
  lemma {:induction false} PartsSplit(ps: seq<part>, qs: seq<part>, x: bytes, y: bytes)
    requires |ps| == |qs| && Parts(ps) + x == Parts(qs) + y
    ensures ps == qs && x == y
  {
    hide Prefixed;
    if ps != [] {
      PartsFront(ps);
      PartsFront(qs);
      assert Parts(ps) + x == Prefixed(ps[0]) + (Parts(ps[1..]) + x);
      assert Parts(qs) + y == Prefixed(qs[0]) + (Parts(qs[1..]) + y);
      PrefixedSplit(ps[0], qs[0], Parts(ps[1..]) + x, Parts(qs[1..]) + y);
      PartsSplit(ps[1..], qs[1..], x, y);
      assert ps == [ps[0]] + ps[1..] && qs == [qs[0]] + qs[1..];
    } else {
      assert Parts(ps) + x == x && Parts(qs) + y == y;
    }
  }

  /** A hasher, as far as its input is concerned. */
  class Hasher {
    var fed: bytes

    constructor ()
      ensures fed == []
    {
      fed := [];
    }

    method Update(more: bytes)
      modifies this
      ensures fed == old(fed) + more
    {
      fed := fed + more;
    }

    method UpdateParts(ps: seq<part>)
      modifies this
      ensures fed == old(fed) + Parts(ps)
    {
      for i := 0 to |ps|
        invariant fed == old(fed) + Parts(ps[..i])
      {
        assert ps[..i + 1][..i] == ps[..i];
        Update(BigEndian(|ps[i]|, 8));
        Update(ps[i]);
      }
      assert ps[..|ps|] == ps;
    }
  }

  // ----- Payload batches -----

  const BATCH_DOMAIN: bytes := Ascii("bloom.petal.payload-batch.v1") + [0]

  function Batch(payloads: seq<part>): (r: bytes) {
    BATCH_DOMAIN + BigEndian(|payloads|, 8) + Parts(payloads)
  }

  method BatchPreimage(payloads: seq<part>) returns (r: bytes)
    ensures r == Batch(payloads)
  {
    var hasher := new Hasher();
    hasher.Update(BATCH_DOMAIN);
    hasher.Update(BigEndian(|payloads|, 8));
    hasher.UpdateParts(payloads);
    return hasher.fed;
  }

  /** Two batches of any lengths feed the same bytes only if they are the same batch. */
  lemma BatchInjective(ps: seq<part>, qs: seq<part>)
    requires |ps| < U64 && |qs| < U64 && Batch(ps) == Batch(qs)
    ensures ps == qs
  {
    hide BigEndian, Parts;
    SplitEqual(BATCH_DOMAIN + BigEndian(|ps|, 8), BATCH_DOMAIN + BigEndian(|qs|, 8), Parts(ps), Parts(qs));
    SplitEqual(BATCH_DOMAIN, BATCH_DOMAIN, BigEndian(|ps|, 8), BigEndian(|qs|, 8));
    BigEndianInjective(|ps|, |qs|);
    PartsSplit(ps, qs, [], []);
  }

  // ----- Signing requests -----

  const EXACT_DOMAIN: bytes := Ascii("bloom-petal-exact-signing/v2") + [0]
  const REUSABLE_DOMAIN: bytes := Ascii("bloom-petal-reusable-batch-signing/v2") + [0]
  const REVIEW_DOMAIN: bytes := Ascii("solana-message-review/v1") + [0]

  /** `key` is the canonical JSON of the optional account key. */
  datatype Exact = Exact(package: part, route: part, wallet: part, class_: part, claimed: part, claim: part, key: part)

  datatype Reusable = Reusable(package: part, route: part, wallet: part, class_: part, count: nat, key: part, review: Option<bytes>)

  function ExactParts(e: Exact): (ps: seq<part>) {
    [e.package, e.route, e.wallet, e.class_, e.claimed, e.claim, e.key]
  }

  function ExactIdentity(e: Exact): (r: bytes) {
    EXACT_DOMAIN + Parts(ExactParts(e))
  }

  function ReusableParts(u: Reusable): (ps: seq<part>) {
    [u.package, u.route, u.wallet, u.class_, BigEndian(u.count, 8), u.key]
  }

  function Review(u: Reusable): (r: bytes) {
    if u.review.Some? then REVIEW_DOMAIN + u.review.value else []
  }

  function ReusableIdentity(u: Reusable): (r: bytes) {
    REUSABLE_DOMAIN + (Parts(ReusableParts(u)) + Review(u))
  }

  method PetalSigningPreimage(e: Exact) returns (r: bytes)
    ensures r == ExactIdentity(e)
  {
    var hasher := new Hasher();
    hasher.Update(EXACT_DOMAIN);
    hasher.UpdateParts(ExactParts(e));
    return hasher.fed;
  }

  method PetalReusableSigningPreimage(u: Reusable) returns (r: bytes)
    ensures r == ReusableIdentity(u)
  {
    hide Parts, ReusableParts, Ascii;
    var hasher := new Hasher();
    hasher.Update(REUSABLE_DOMAIN);
    hasher.UpdateParts(ReusableParts(u));
    if u.review.Some? {
      hasher.Update(REVIEW_DOMAIN);
      hasher.Update(u.review.value);
    }
    assert hasher.fed == REUSABLE_DOMAIN + Parts(ReusableParts(u)) + Review(u);
    return hasher.fed;
  }

  lemma ExactInjective(e: Exact, g: Exact)
    requires ExactIdentity(e) == ExactIdentity(g)
    ensures e == g
  {
    hide Parts;
    SplitEqual(EXACT_DOMAIN, EXACT_DOMAIN, Parts(ExactParts(e)), Parts(ExactParts(g)));
    var ps, qs := ExactParts(e), ExactParts(g);
    PartsSplit(ps, qs, [], []);
    assert ps[0] == qs[0] && ps[1] == qs[1] && ps[2] == qs[2] && ps[3] == qs[3];
    assert ps[4] == qs[4] && ps[5] == qs[5] && ps[6] == qs[6];
  }

  /** Also the review binding, and whether there is one, is determined. */
  lemma ReusableInjective(u: Reusable, v: Reusable)
    requires u.count < U64 && v.count < U64 && ReusableIdentity(u) == ReusableIdentity(v)
    ensures u == v
  {
    hide Parts, BigEndian;
    var ps, qs := ReusableParts(u), ReusableParts(v);
    SplitEqual(REUSABLE_DOMAIN, REUSABLE_DOMAIN, Parts(ps) + Review(u), Parts(qs) + Review(v));
    PartsSplit(ps, qs, Review(u), Review(v));
    assert ps[0] == qs[0] && ps[1] == qs[1] && ps[2] == qs[2] && ps[3] == qs[3];
    assert ps[4] == qs[4] && ps[5] == qs[5];
    BigEndianInjective(u.count, v.count);
    if u.review.Some? && v.review.Some? {
      SplitEqual(REVIEW_DOMAIN, REVIEW_DOMAIN, u.review.value, v.review.value);
    }
  }

  /** No exact request is ever named like a reusable one. */
  lemma SigningIdentitiesDisjoint(e: Exact, u: Reusable)
    ensures ExactIdentity(e) != ReusableIdentity(u)
  {
    hide Parts, Review;
    assert ExactIdentity(e)[12] == 'e' as int;
    assert ReusableIdentity(u)[12] == 'r' as int;
  }

  // ----- Petal sessions -----

  const NUMBERED_DOMAIN: bytes := Ascii("bloom-numbered-petal-identity/v1") + [0]
  const CUSTODY: bytes := Ascii("bloom-petal-key-custody-operation/v2")
  const STATE: bytes := Ascii("bloom-petal-key-request-state/v3")
  const STOP: bytes := Ascii("bloom-session-stop/v1")

  function Legacy(domain: bytes, wallet: bytes, lineage: bytes, slot: bytes): (r: bytes) {
    domain + [0] + wallet + [0] + lineage + [0] + slot
  }

  /** `key` is the canonical JSON of the parent key of an additional account. */
  function Scoped(domain: bytes, wallet: bytes, lineage: bytes, slot: bytes, key: Option<bytes>): (r: bytes) {
    var legacy := Legacy(domain, wallet, lineage, slot);
    if key.None? then legacy else NUMBERED_DOMAIN + (BigEndian(|legacy|, 8) + (legacy + key.value))
  }

  predicate UsedDomain(domain: bytes) {
    domain == CUSTODY || domain == STATE || domain == STOP
  }

  predicate NulFree(s: bytes) {
    0 !in s
  }

  lemma UpToNul(a: bytes, b: bytes, x: bytes, y: bytes)
    requires NulFree(a) && NulFree(b) && a + [0] + x == b + [0] + y
    ensures a == b && x == y
  {
    var s := a + [0] + x;
    assert s == a + ([0] + x) == b + ([0] + y);
    assert forall i :: 0 <= i < |a| ==> s[i] == a[i] != 0;
    assert forall i :: 0 <= i < |b| ==> s[i] == b[i] != 0;
    assert s[|a|] == 0 && s[|b|] == 0;
    SplitEqual(a, b, [0] + x, [0] + y);
    SplitEqual([0], [0], x, y);
  }

  lemma LegacyInjective(d: bytes, w: bytes, l: bytes, s: bytes, d': bytes, w': bytes, l': bytes, s': bytes)
    requires NulFree(d) && NulFree(w) && NulFree(l) && NulFree(d') && NulFree(w') && NulFree(l')
    requires Legacy(d, w, l, s) == Legacy(d', w', l', s')
    ensures d == d' && w == w' && l == l' && s == s'
  {
    var x, x' := w + [0] + (l + [0] + s), w' + [0] + (l' + [0] + s');
    assert Legacy(d, w, l, s) == d + [0] + x && Legacy(d', w', l', s') == d' + [0] + x';
    UpToNul(d, d', x, x');
    UpToNul(w, w', l + [0] + s, l' + [0] + s');
    UpToNul(l, l', s, s');
  }

  function Nuls(s: bytes): (n: nat)
    ensures n == 0 <==> NulFree(s)
  {
    if s == [] then 0 else Nuls(s[1..]) + if s[0] == 0 then 1 else 0
  }

  lemma {:induction false} NulsAppend(a: bytes, b: bytes)
    ensures Nuls(a + b) == Nuls(a) + Nuls(b)
  {
    if a == [] {
      assert a + b == b;
    } else {
      assert (a + b)[1..] == a[1..] + b;
      NulsAppend(a[1..], b);
    }
  }

  lemma LegacyNuls(d: bytes, w: bytes, l: bytes, s: bytes)
    ensures Nuls(Legacy(d, w, l, s)) == Nuls(d) + Nuls(w) + Nuls(l) + Nuls(s) + 3
  {
    hide Nuls;
    NulsAppend(d, [0]);
    NulsAppend(d + [0], w);
    NulsAppend(d + [0] + w, [0]);
    NulsAppend(d + [0] + w + [0], l);
    NulsAppend(d + [0] + w + [0] + l, [0]);
    NulsAppend(d + [0] + w + [0] + l + [0], s);
    OneNul();
  }

  lemma OneNul()
    ensures Nuls([0]) == 1
  {
    assert [0][1..] == [];
  }

  lemma CutAtNul(s: bytes) returns (a: bytes, b: bytes)
    requires !NulFree(s)
    ensures s == a + [0] + b
  {
    var i :| 0 <= i < |s| && s[i] == 0;
    a, b := s[..i], s[i + 1..];
  }

  /** A NUL in any part moves the boundary between two of them. */
  lemma NulMovesBoundary(d: bytes, w: bytes, l: bytes, s: bytes) returns (w': bytes, l': bytes, s': bytes)
    requires !NulFree(w) || !NulFree(l) || !NulFree(s)
    ensures Legacy(d, w, l, s) == Legacy(d, w', l', s') && !(w == w' && l == l' && s == s')
  {
    if !NulFree(w) {
      var a, b := CutAtNul(w);
      w', l', s' := a, b, l + [0] + s;
      assert |a| < |w|;
    } else if !NulFree(l) {
      var a, b := CutAtNul(l);
      w', l', s' := w, a, b + [0] + s;
      assert |a| < |l|;
    } else {
      var a, b := CutAtNul(s);
      w', l', s' := w + [0] + l, a, b;
      assert |w'| > |w|;
    }
  }

  lemma NulFreeTwins(d: bytes, w: bytes, l: bytes, s: bytes, d': bytes, w': bytes, l': bytes, s': bytes)
    requires NulFree(d) && NulFree(w) && NulFree(l) && NulFree(s) && NulFree(d')
    requires Legacy(d, w, l, s) == Legacy(d', w', l', s')
    ensures d == d' && w == w' && l == l' && s == s'
  {
    hide Legacy;
    LegacyNuls(d, w, l, s);
    LegacyNuls(d', w', l', s');
    LegacyInjective(d, w, l, s, d', w', l', s');
  }

  /** A session's legacy name is its own exactly when wallet, lineage and slot are free of NUL. */
  lemma LegacyUniqueExactly(d: bytes, w: bytes, l: bytes, s: bytes)
    requires NulFree(d)
    ensures (forall d': bytes, w': bytes, l': bytes, s': bytes ::
               NulFree(d') && Legacy(d', w', l', s') == Legacy(d, w, l, s) ==> d == d' && w == w' && l == l' && s == s')
            <==> NulFree(w) && NulFree(l) && NulFree(s)
  {
    hide Legacy, NulFree;
    if NulFree(w) && NulFree(l) && NulFree(s) {
      forall d': bytes, w': bytes, l': bytes, s': bytes | NulFree(d') && Legacy(d', w', l', s') == Legacy(d, w, l, s)
        ensures d == d' && w == w' && l == l' && s == s'
      {
        NulFreeTwins(d, w, l, s, d', w', l', s');
      }
    } else {
      var w', l', s' := NulMovesBoundary(d, w, l, s);
    }
  }

  lemma NumberedNeverLegacy(domain: bytes, wallet: bytes, lineage: bytes, slot: bytes, numbered: bytes)
    requires UsedDomain(domain)
    ensures Legacy(domain, wallet, lineage, slot) != NUMBERED_DOMAIN + numbered
  {
    var s := Legacy(domain, wallet, lineage, slot);
    assert s[6] == domain[6];
    assert (NUMBERED_DOMAIN + numbered)[6] == 'n' as int;
  }

  /** Numbered identities determine the key bytes and the whole legacy name, whatever the components contain. */
  lemma NumberedDetermines(legacy: part, key: bytes, legacy': part, key': bytes)
    requires NUMBERED_DOMAIN + (BigEndian(|legacy|, 8) + (legacy + key))
          == NUMBERED_DOMAIN + (BigEndian(|legacy'|, 8) + (legacy' + key'))
    ensures legacy == legacy' && key == key'
  {
    hide BigEndian;
    SplitEqual(NUMBERED_DOMAIN, NUMBERED_DOMAIN, BigEndian(|legacy|, 8) + (legacy + key), BigEndian(|legacy'|, 8) + (legacy' + key'));
    SplitEqual(BigEndian(|legacy|, 8), BigEndian(|legacy'|, 8), legacy + key, legacy' + key');
    BigEndianInjective(|legacy|, |legacy'|);
    SplitEqual(legacy, legacy', key, key');
  }

  /** Whatever the parts contain, a preimage determines the legacy name, the key and whether there is one. */
  lemma ScopedTwins(d: bytes, w: bytes, l: bytes, s: bytes, k: Option<bytes>,
                    d': bytes, w': bytes, l': bytes, s': bytes, k': Option<bytes>)
    requires UsedDomain(d) && UsedDomain(d')
    requires |Legacy(d, w, l, s)| < U64 && |Legacy(d', w', l', s')| < U64
    requires Scoped(d, w, l, s, k) == Scoped(d', w', l', s', k')
    ensures Legacy(d, w, l, s) == Legacy(d', w', l', s') && k == k'
  {
    hide BigEndian, Legacy, UsedDomain;
    var a, b := Legacy(d, w, l, s), Legacy(d', w', l', s');
    if k.Some? {
      NumberedNeverLegacy(d', w', l', s', BigEndian(|a|, 8) + (a + k.value));
    }
    if k'.Some? {
      NumberedNeverLegacy(d, w, l, s, BigEndian(|b|, 8) + (b + k'.value));
    }
    if k.Some? && k'.Some? {
      NumberedDetermines(a, k.value, b, k'.value);
    }
  }

  /** With wallet and lineage free of NUL on both sides, it also determines every part, whatever the slot contains. */
  lemma ScopedInjective(d: bytes, w: bytes, l: bytes, s: bytes, k: Option<bytes>,
                        d': bytes, w': bytes, l': bytes, s': bytes, k': Option<bytes>)
    requires UsedDomain(d) && UsedDomain(d') && NulFree(w) && NulFree(l) && NulFree(w') && NulFree(l')
    requires |Legacy(d, w, l, s)| < U64 && |Legacy(d', w', l', s')| < U64
    requires Scoped(d, w, l, s, k) == Scoped(d', w', l', s', k')
    ensures d == d' && w == w' && l == l' && s == s' && k == k'
  {
    hide Scoped, Legacy, UsedDomain;
    ScopedTwins(d, w, l, s, k, d', w', l', s', k');
    DomainsNulFree(d);
    DomainsNulFree(d');
    LegacyInjective(d, w, l, s, d', w', l', s');
  }

  lemma DomainsNulFree(d: bytes)
    requires UsedDomain(d)
    ensures NulFree(d)
  {
  }

  /** Numbered or not, a session's preimage names it alone exactly when wallet, lineage and slot are free of NUL. */
  lemma ScopedUniqueExactly(d: bytes, w: bytes, l: bytes, s: bytes, k: Option<bytes>)
    requires UsedDomain(d) && |Legacy(d, w, l, s)| < U64
    ensures (forall d': bytes, w': bytes, l': bytes, s': bytes, k': Option<bytes> ::
               UsedDomain(d') && |Legacy(d', w', l', s')| < U64 && Scoped(d', w', l', s', k') == Scoped(d, w, l, s, k)
               ==> d == d' && w == w' && l == l' && s == s' && k == k')
            <==> NulFree(w) && NulFree(l) && NulFree(s)
  {
    hide Legacy, NulFree, UsedDomain, Scoped;
    if NulFree(w) && NulFree(l) && NulFree(s) {
      forall d': bytes, w': bytes, l': bytes, s': bytes, k': Option<bytes>
        | UsedDomain(d') && |Legacy(d', w', l', s')| < U64 && Scoped(d', w', l', s', k') == Scoped(d, w, l, s, k)
        ensures d == d' && w == w' && l == l' && s == s' && k == k'
      {
        ScopedTwins(d, w, l, s, k, d', w', l', s', k');
        DomainsNulFree(d);
        DomainsNulFree(d');
        NulFreeTwins(d, w, l, s, d', w', l', s');
      }
    } else {
      var w', l', s' := NulMovesBoundary(d, w, l, s);
      SameLegacySameScoped(d, w, l, s, w', l', s', k);
    }
  }

  lemma SameLegacySameScoped(d: bytes, w: bytes, l: bytes, s: bytes, w': bytes, l': bytes, s': bytes, k: Option<bytes>)
    requires Legacy(d, w, l, s) == Legacy(d, w', l', s')
    ensures Scoped(d, w, l, s, k) == Scoped(d, w', l', s', k)
  {
    hide Legacy, BigEndian;
  }
}
