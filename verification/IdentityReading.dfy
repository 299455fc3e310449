/**
 The byte strings of `Identity` read back: text up to a NUL byte, then parts that each follow
 their length. What a name was made of comes back part by part, in the documented order.
 */
module IdentityReading {
  import opened Bytes
  import opened Identity

  const BATCH_NAME: bytes := Ascii("bloom.petal.payload-batch.v1")
  const EXACT_NAME: bytes := Ascii("bloom-petal-exact-signing/v2")
  const REUSABLE_NAME: bytes := Ascii("bloom-petal-reusable-batch-signing/v2")
  const REVIEW_NAME: bytes := Ascii("solana-message-review/v1")
  const CUSTODY_NAME: bytes := Ascii("bloom-petal-key-custody-operation/v2")
  const STATE_NAME: bytes := Ascii("bloom-petal-key-request-state/v3")
  const STOP_NAME: bytes := Ascii("bloom-session-stop/v1")
  const NUMBERED_NAME: bytes := Ascii("bloom-numbered-petal-identity/v1")

  /** The text before the first NUL byte and what follows it. */
  function TakeText(s: bytes): (r: Option<(bytes, bytes)>) {
    if s == [] then None
    else if s[0] == 0 then Some(([], s[1..]))
    else
      var t :- TakeText(s[1..]);
      Some(([s[0]] + t.0, t.1))
  }

  /** `n` parts, each after its length in eight bytes, and what follows them. */
  function TakeParts(s: bytes, n: nat): (r: Option<(seq<bytes>, bytes)>)
    decreases n
  {
    if n == 0 then Some(([], s))
    else if |s| < 8 || |s| - 8 < Number(s[..8]) then None
    else
      var k := 8 + Number(s[..8]);
      var t :- TakeParts(s[k..], n - 1);
      Some(([s[8..k]] + t.0, t.1))
  }

  /** A text, then parts. */
  function TakeNamed(s: bytes, n: nat): (r: Option<(bytes, seq<bytes>, bytes)>) {
    var t :- TakeText(s);
    var p :- TakeParts(t.1, n);
    Some((t.0, p.0, p.1))
  }

  lemma {:induction false} TextIsTaken(text: bytes, rest: bytes)
    requires NulFree(text)
    ensures TakeText(text + [0] + rest) == Some((text, rest))
  {
    var s := text + [0] + rest;
    if text == [] {
      assert s[1..] == rest;
    } else {
      assert s[1..] == text[1..] + [0] + rest;
      TextIsTaken(text[1..], rest);
      assert [text[0]] + text[1..] == text;
    }
  }

  lemma NumberIs(n: nat)
    requires n < U64
    ensures Number(BigEndian(n, 8)) == n
  {
    FitsEight(n);
    NumberOfBigEndian(n, 8);
  }

  lemma Sliced(length: bytes, p: bytes, more: bytes)
    requires |length| == 8
    ensures var s := length + (p + more); s[..8] == length && s[8..8 + |p|] == p && s[8 + |p|..] == more
  {
  }

  lemma OneTaken(p: part, more: bytes, n: nat, taken: (seq<bytes>, bytes))
    requires TakeParts(more, n) == Some(taken)
    ensures TakeParts(BigEndian(|p|, 8) + (p + more), n + 1) == Some(([p] + taken.0, taken.1))
  {
    hide BigEndian, Number;
    Sliced(BigEndian(|p|, 8), p, more);
    NumberIs(|p|);
  }

  lemma Regrouped(p: part, more: bytes, rest: bytes)
    ensures Prefixed(p) + more + rest == BigEndian(|p|, 8) + (p + (more + rest))
  {
    hide BigEndian;
  }

  lemma {:induction false} PartsAreTaken(ps: seq<part>, rest: bytes)
    ensures TakeParts(Parts(ps) + rest, |ps|) == Some((ps, rest))
  {
    if ps == [] {
      assert Parts(ps) + rest == rest;
    } else {
      var first, others := ps[0], ps[1..];
      assert [first] + others == ps && |others| + 1 == |ps|;
      PartsFront(ps);
      Regrouped(first, Parts(others), rest);
      hide *;
      PartsAreTaken(others, rest);
      OneTaken(first, Parts(others) + rest, |others|, (others, rest));
    }
  }

  lemma NamesAreText()
    ensures NulFree(BATCH_NAME) && NulFree(EXACT_NAME) && NulFree(REUSABLE_NAME) && NulFree(REVIEW_NAME) && NulFree(NUMBERED_NAME)
  {
    SigningNamesAreText();
  }

  lemma SigningNamesAreText()
    ensures NulFree(EXACT_NAME) && NulFree(REUSABLE_NAME)
  {
  }

  /** An exact signing request is read back as its domain and seven parts. */
  lemma ExactIsRead(e: Exact)
    ensures TakeNamed(ExactIdentity(e), 7) == Some((EXACT_NAME,
      [e.package, e.route, e.wallet, e.class_, e.claimed, e.claim, e.key], []))
  {
    NamesAreText();
    hide Ascii, Parts, TakeParts, TakeText;
    var ps: seq<part> := [e.package, e.route, e.wallet, e.class_, e.claimed, e.claim, e.key];
    TextIsTaken(EXACT_NAME, Parts(ps));
    PartsAreTaken(ps, []);
    assert Parts(ps) + [] == Parts(ps);
  }

  /** A reusable one as its domain, six parts of which the fifth is the count, and the review binding, if any. */
  lemma ReusableIsRead(u: Reusable)
    requires u.count < U64
    ensures TakeNamed(ReusableIdentity(u), 6) == Some((REUSABLE_NAME,
      [u.package, u.route, u.wallet, u.class_, BigEndian(u.count, 8), u.key], Review(u)))
    ensures Number(BigEndian(u.count, 8)) == u.count
    ensures if u.review.None? then Review(u) == [] else TakeText(Review(u)) == Some((REVIEW_NAME, u.review.value))
  {
    NamesAreText();
    hide Ascii, Parts, TakeParts, TakeText, BigEndian, Number;
    NumberIs(u.count);
    var ps: seq<part> := [u.package, u.route, u.wallet, u.class_, BigEndian(u.count, 8), u.key];
    TextIsTaken(REUSABLE_NAME, Parts(ps) + Review(u));
    PartsAreTaken(ps, Review(u));
    if u.review.Some? {
      TextIsTaken(REVIEW_NAME, u.review.value);
    }
  }

  /** A batch as its domain, the number of payloads and the payloads. */
  lemma BatchIsRead(ps: seq<part>)
    requires |ps| < U64
    ensures var t := TakeText(Batch(ps));
      && t.Some? && t.value.0 == BATCH_NAME
      && |t.value.1| >= 8 && Number(t.value.1[..8]) == |ps| && TakeParts(t.value.1[8..], |ps|) == Some((ps, []))
  {
    NamesAreText();
    hide Ascii, Parts, TakeParts, TakeText, BigEndian, Number;
    var rest := BigEndian(|ps|, 8) + Parts(ps);
    assert Batch(ps) == BATCH_NAME + [0] + rest;
    TextIsTaken(BATCH_NAME, rest);
    NumberIs(|ps|);
    assert rest[..8] == BigEndian(|ps|, 8) && rest[8..] == Parts(ps) + [];
    PartsAreTaken(ps, []);
  }

  /** A session's name as domain, wallet, lineage and slot; a numbered one holds that name as a part, then its key. */
  lemma ScopedIsRead(d: bytes, w: bytes, l: bytes, s: bytes, k: Option<bytes>)
    requires NulFree(d) && NulFree(w) && NulFree(l) && |Legacy(d, w, l, s)| < U64
    ensures
      var plain := Scoped(d, w, l, s, None);
      && TakeText(plain) == Some((d, w + [0] + (l + [0] + s)))
      && TakeText(w + [0] + (l + [0] + s)) == Some((w, l + [0] + s)) && TakeText(l + [0] + s) == Some((l, s))
      && (k.Some? ==> TakeNamed(Scoped(d, w, l, s, k), 1) == Some((NUMBERED_NAME, [plain], k.value)))
  {
    NamesAreText();
    hide Ascii, Parts, TakeParts, TakeText, BigEndian, Number;
    assert Scoped(d, w, l, s, None) == d + [0] + (w + [0] + (l + [0] + s));
    TextIsTaken(d, w + [0] + (l + [0] + s));
    TextIsTaken(w, l + [0] + s);
    TextIsTaken(l, s);
    if k.Some? {
      var legacy: part := Scoped(d, w, l, s, None);
      OnePart(legacy);
      TextIsTaken(NUMBERED_NAME, Parts([legacy]) + k.value);
      PartsAreTaken([legacy], k.value);
      assert BigEndian(|legacy|, 8) + (legacy + k.value) == Parts([legacy]) + k.value;
    }
  }

  /** The three names of a session begin with what each is for. */
  lemma SessionNamesAreRead(w: bytes, l: bytes, s: bytes)
    ensures forall d, name :: (d, name) in {(CUSTODY, CUSTODY_NAME), (STATE, STATE_NAME), (STOP, STOP_NAME)} ==>
      TakeText(Scoped(d, w, l, s, None)) == Some((name, w + [0] + (l + [0] + s)))
  {
    forall d, name | (d, name) in {(CUSTODY, CUSTODY_NAME), (STATE, STATE_NAME), (STOP, STOP_NAME)}
      ensures TakeText(Scoped(d, w, l, s, None)) == Some((name, w + [0] + (l + [0] + s)))
    {
      assert d == name;
      DomainsNulFree(d);
      assert Scoped(d, w, l, s, None) == d + [0] + (w + [0] + (l + [0] + s));
      TextIsTaken(d, w + [0] + (l + [0] + s));
    }
  }

  lemma OnePart(p: part)
    ensures Parts([p]) == BigEndian(|p|, 8) + p
  {
    assert [p][..0] == [];
  }
}
