/** Byte strings and the few sequence facts the other modules share. */
module Bytes {

  type byte = b: int | 0 <= b < 256

  type bytes = seq<byte>

  datatype Option<+T> = None | Some(value: T) {
    predicate IsFailure() { None? }

    function PropagateFailure<U>(): Option<U>
      requires None?
    {
      None
    }

    function Extract(): T
      requires Some?
    {
      value
    }
  }

  const NEWLINE: byte := 10

  /** The bytes of an ASCII literal. */
  function Ascii(s: string): (r: bytes)
    requires forall i :: 0 <= i < |s| ==> s[i] < 128 as char
    ensures |r| == |s|
    ensures forall i :: 0 <= i < |s| ==> r[i] == s[i] as int
  {
    seq(|s|, i requires 0 <= i < |s| => s[i] as int)
  }

  /** Two concatenations whose first halves are equally long are equal only piecewise. */
  lemma SplitEqual<T>(a: seq<T>, b: seq<T>, x: seq<T>, y: seq<T>)
    requires |a| == |b|
    requires a + x == b + y
    ensures a == b && x == y
  {
    assert a == (a + x)[..|a|] && b == (b + y)[..|b|];
    assert x == (a + x)[|a|..] && y == (b + y)[|b|..];
  }

  function Flatten<T>(parts: seq<seq<T>>): (r: seq<T>)
  {
    if parts == [] then [] else parts[0] + Flatten(parts[1..])
  }

  lemma {:induction false} FlattenAppend<T>(a: seq<seq<T>>, b: seq<seq<T>>)
    ensures Flatten(a + b) == Flatten(a) + Flatten(b)
  {
    if a == [] {
      assert a + b == b;
    } else {
      assert (a + b)[0] == a[0] && (a + b)[1..] == a[1..] + b;
      FlattenAppend(a[1..], b);
      assert a[0] + (Flatten(a[1..]) + Flatten(b)) == (a[0] + Flatten(a[1..])) + Flatten(b);
    }
  }

  lemma FlattenSnoc<T>(a: seq<seq<T>>, x: seq<T>)
    ensures Flatten(a + [x]) == Flatten(a) + x
  {
    FlattenAppend(a, [x]);
    assert Flatten([x]) == x;
  }

  /** `chunks(size)` of a slice: full pieces and one shorter last piece. */
  function Chunks<T>(s: seq<T>, size: nat): (r: seq<seq<T>>)
    requires size > 0
    ensures Flatten(r) == s
    ensures forall i :: 0 <= i < |r| ==> 0 < |r[i]| <= size
    ensures |r| == (|s| + size - 1) / size
    decreases |s|
  {
    if s == [] then
      DivideSmall(size - 1, size);
      []
    else if |s| <= size then
      DivideShift(|s| - 1, size);
      DivideSmall(|s| - 1, size);
      [s]
    else
      DivideShift(|s| - 1, size);
      [s[..size]] + Chunks(s[size..], size)
  }

  lemma DivideSmall(a: nat, d: nat)
    requires a < d
    ensures a / d == 0
  {
  }

  lemma DivideShift(a: nat, d: nat)
    requires d > 0
    ensures (a + d) / d == a / d + 1
  {
    var q := a / d;
    assert a == q * d + a % d;
    assert a + d == (q + 1) * d + a % d by {
      assert (q + 1) * d == q * d + d;
    }
    QuotientUnique(a + d, d, q + 1, a % d);
  }

  lemma MultipleAtLeast(k: int, d: nat)
    requires k >= 1
    ensures k * d >= d
  {
    assert k * d == (k - 1) * d + d;
  }

  lemma QuotientUnique(n: int, d: nat, q: int, r: int)
    requires d > 0
    requires n == q * d + r
    requires 0 <= r < d
    ensures n / d == q && n % d == r
  {
    var q', r' := n / d, n % d;
    assert n == q' * d + r';
    if q > q' {
      assert (q - q') * d == q * d - q' * d;
      MultipleAtLeast(q - q', d);
    } else if q < q' {
      assert (q' - q) * d == q' * d - q * d;
      MultipleAtLeast(q' - q, d);
    }
  }

  /** Digits `h` and `l` of a two-digit number in base `d`. */
  lemma TwoDigits(h: nat, l: nat, d: nat)
    requires l < d
    ensures (h * d + l) / d == h && (h * d + l) % d == l
  {
    QuotientUnique(h * d + l, d, h, l);
  }
}
