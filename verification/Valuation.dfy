/**
 The micro-dollar value of a token amount: a 64-bit float price is taken as the exact
 binary rational it stands for (IEEE 754-2019 section 3.4) and the product is rounded up
 in 256-bit integer arithmetic.
 */
module Valuation {
  import opened Bytes

  const U256: nat := 0x1_0000000000000000_0000000000000000_0000000000000000_0000000000000000
  const I128_MAX: nat := 0x7FFFFFFFFFFFFFFF_FFFFFFFFFFFFFFFF
  const HIDDEN: nat := 0x10_0000_0000_0000
  const SIGN: nat := 0x8000_0000_0000_0000
  const MICRO: nat := 1_000_000

  type Float = bits: nat | bits < 0x1_0000_0000_0000_0000

  function Pow(b: nat, k: nat): (p: nat)
    requires b > 0
    ensures p >= 1
  {
    if k == 0 then 1 else b * Pow(b, k - 1)
  }

  function Field(f: Float): (e: nat) { f / HIDDEN % 2048 }

  function Fraction(f: Float): (m: nat) { f % HIDDEN }

  /** Neither an infinity, a NaN, a negative number nor zero. */
  predicate PositiveFinite(f: Float) {
    f < SIGN && Field(f) != 2047 && (Field(f) != 0 || Fraction(f) != 0)
  }

  function Mantissa(f: Float): (m: nat) {
    if Field(f) == 0 then Fraction(f) else HIDDEN + Fraction(f)
  }

  function Exponent(f: Float): (e: int) {
    if Field(f) == 0 then 1 - 1023 - 52 else Field(f) - 1023 - 52
  }

  // ----- The reference: exact real arithmetic -----

  ghost function Scale(e: int): (r: real)
    ensures r > 0.0
  {
    if e >= 0 then Pow(2, e) as real else 1.0 / Pow(2, -e) as real
  }

  ghost function Price(f: Float): (r: real) {
    Mantissa(f) as real * Scale(Exponent(f))
  }

  /** The exact value in micro-dollars of `amount` base units of a token with `d` decimals. */
  ghost function Exact(f: Float, d: nat, amount: nat): (x: real) {
    amount as real * Price(f) * 1_000_000.0 / Pow(10, d) as real
  }

  ghost predicate RoundsUpTo(x: real, c: nat) {
    c as real - 1.0 < x <= c as real
  }

  // ----- The valuation as computed -----

  function Rounded(n: nat, w: nat): (r: Option<nat>)
    requires w > 0
  {
    var q := n / w + if n % w > 0 then 1 else 0;
    if q > I128_MAX then None else Some(q)
  }

  /** The power of ten the code divides by: it wraps for 78 decimals and more. */
  function Tens(d: nat): (w: nat)
    requires d <= 255
    ensures 0 < w < U256
  {
    WrappedIsPositive(d);
    Pow(10, d) % U256
  }

  /** `n / w` scaled by 2^e and rounded up. */
  function Scaled(n: nat, w: nat, e: int): (r: Option<nat>)
    requires w > 0
  {
    if e >= 0 then
      var shifted := n * Pow(2, e);
      if shifted >= U256 then None else Rounded(shifted, w)
    else
      var shifted := w * Pow(2, -e);
      if shifted >= U256 then Some(1) else Rounded(n, shifted)
  }

  /** None is every refusal: a bad price, an unreadable amount, or a value too large to represent. */
  function Micros(f: Float, d: nat, amount: Option<nat>): (r: Option<nat>)
    requires d <= 255 && (amount.Some? ==> amount.value < U256)
  {
    if !PositiveFinite(f) || amount.None? then None else
    if amount.value == 0 then Some(0) else
    var n := amount.value * Mantissa(f) * MICRO;
    if n >= U256 then None else Scaled(n, Tens(d), Exponent(f))
  }

  /** Multiplication that refuses to overflow 256 bits. */
  function CheckedMul(a: nat, b: nat): (r: Option<nat>) {
    if a * b < U256 then Some(a * b) else None
  }

  /** `amount` is None when the text is not a decimal number below 2^256. */
  method AmountToUsdMicro(f: Float, d: nat, amount: Option<nat>) returns (r: Option<nat>)
    requires d <= 255 && (amount.Some? ==> amount.value < U256)
    ensures r == Micros(f, d, amount)
  {
    hide Pow, Mantissa, Exponent, PositiveFinite, Tens, Rounded;
    if !PositiveFinite(f) || amount.None? {
      return None;
    }
    if amount.value == 0 {
      return Some(0);
    }
    var mantissa, e := Mantissa(f), Exponent(f);
    var product := CheckedMul(amount.value, mantissa);
    MultipleAtLeast(MICRO, amount.value * mantissa);
    if product.None? {
      return None;
    }
    product := CheckedMul(product.value, MICRO);
    if product.None? {
      return None;
    }
    var numerator := product.value;
    var denominator := Tens(d);
    if e >= 0 {
      product := CheckedMul(numerator, Pow(2, e));
      if product.None? {
        return None;
      }
      numerator := product.value;
    } else {
      product := CheckedMul(denominator, Pow(2, -e));
      if product.None? {
        return Some(1);
      }
      denominator := product.value;
    }
    r := RoundUp(numerator, denominator);
  }

  method RoundUp(numerator: nat, denominator: nat) returns (r: Option<nat>)
    requires denominator > 0
    ensures r == Rounded(numerator, denominator)
  {
    var quotient, remainder := numerator / denominator, numerator % denominator;
    var rounded := if remainder > 0 then quotient + 1 else quotient;
    return if rounded > I128_MAX then None else Some(rounded);
  }

  // ----- Powers -----

  /** The wrapping power of ten is never zero for a one-byte exponent. */
  lemma WrappedIsPositive(d: nat)
    requires d <= 255
    ensures Pow(10, d) % U256 > 0
  {
    hide Pow;
    TenIsTwoFive(d);
    PowAdd(2, d, 256 - d);
    PowAdd(2, 1, 255 - d);
    PowSmall();
    PowLiterals();
    ModScale(Pow(2, d), Pow(5, d), Pow(2, 256 - d));
    FiveIsOdd(d);
    OddRemainder(Pow(5, d), Pow(2, 255 - d));
  }

  lemma ModScale(p: nat, x: nat, m: nat)
    requires p > 0 && m > 0
    ensures p * m > 0 && (p * x) % (p * m) == p * (x % m)
  {
    var q, r := x / m, x % m;
    assert p * x == p * (q * m + r) == q * (p * m) + p * r;
    assert 0 <= p * r < p * m;
    QuotientUnique(p * x, p * m, q, p * r);
  }

  lemma OddRemainder(x: nat, h: nat)
    requires x % 2 == 1 && h > 0
    ensures x % (2 * h) > 0
  {
    var q, r := x / (2 * h), x % (2 * h);
    assert x == q * (2 * h) + r == 2 * (q * h) + r;
  }

  lemma TenIsTwoFive(k: nat)
    ensures Pow(10, k) == Pow(2, k) * Pow(5, k)
  {
    if k > 0 {
      TenIsTwoFive(k - 1);
      assert Pow(10, k) == 10 * (Pow(2, k - 1) * Pow(5, k - 1)) == (2 * Pow(2, k - 1)) * (5 * Pow(5, k - 1));
    }
  }

  lemma FiveIsOdd(k: nat)
    ensures Pow(5, k) % 2 == 1
  {
  }

  lemma PowAdd(b: nat, j: nat, k: nat)
    requires b > 0
    ensures Pow(b, j) * Pow(b, k) == Pow(b, j + k)
  {
    if j > 0 {
      PowAdd(b, j - 1, k);
      assert Pow(b, j) * Pow(b, k) == b * (Pow(b, j - 1) * Pow(b, k));
    }
  }

  lemma PowSmall()
    ensures Pow(2, 0) == 1 && Pow(2, 1) == 2 && Pow(2, 2) == 4 && Pow(2, 4) == 16 && Pow(10, 1) == 10 && Pow(10, 4) == 10000
  {
  }

  lemma PowLiterals()
    ensures Pow(2, 52) == HIDDEN && Pow(2, 78) == 0x4000_0000000000000000 && Pow(2, 256) == U256
  {
    hide Pow;
    PowSmall();
    PowAdd(2, 4, 4);
    PowAdd(2, 8, 8);
    PowAdd(2, 16, 16);
    PowAdd(2, 32, 32);
    PowAdd(2, 64, 64);
    PowAdd(2, 128, 128);
    PowAdd(2, 32, 16);
    PowAdd(2, 48, 4);
    PowAdd(2, 64, 8);
    PowAdd(2, 72, 4);
    PowAdd(2, 76, 2);
  }

  lemma TensLiteral()
    ensures Pow(10, 77) < U256 < Pow(10, 78)
  {
    hide Pow;
    PowSmall();
    PowAdd(10, 4, 4);
    PowAdd(10, 8, 8);
    PowAdd(10, 16, 16);
    PowAdd(10, 32, 32);
    PowAdd(10, 64, 8);
    PowAdd(10, 72, 4);
    PowAdd(10, 76, 1);
    PowAdd(10, 77, 1);
  }

  lemma PowMonotone(b: nat, j: nat, k: nat)
    requires b > 0 && j <= k
    ensures Pow(b, j) <= Pow(b, k)
  {
    if j < k {
      PowMonotone(b, j, k - 1);
      MultipleAtLeast(b, Pow(b, k - 1));
    }
  }

  /** The power of ten does not wrap exactly up to 77 decimals. */
  lemma TensExactly(d: nat)
    requires d <= 255
    ensures Tens(d) == Pow(10, d) <==> d <= 77
  {
    hide Pow;
    TensLiteral();
    if d <= 77 {
      PowMonotone(10, d, 77);
      QuotientUnique(Pow(10, d), U256, 0, Pow(10, d));
    } else {
      PowMonotone(10, 78, d);
    }
  }

  // ----- Rounding up -----

  predicate IsCeiling(c: int, n: nat, w: nat) {
    (c - 1) * w < n <= c * w
  }

  lemma CeilingUnique(n: nat, w: nat, c: int, k: int)
    requires w > 0 && IsCeiling(c, n, w) && IsCeiling(k, n, w)
    ensures c == k
  {
    LessFactor(c - 1, k, w);
    LessFactor(k - 1, c, w);
  }

  lemma LessFactor(a: int, b: int, w: nat)
    requires w > 0 && a * w < b * w
    ensures a < b
  {
    FactorKeepsOrder(b, a, w);
  }

  lemma FactorKeepsOrder(a: int, b: int, w: nat)
    ensures a <= b ==> a * w <= b * w
  {
    if a <= b {
      assert b * w - a * w == (b - a) * w;
    }
  }

  lemma RoundedExactly(n: nat, w: nat, c: nat)
    requires w > 0
    ensures Rounded(n, w) == Some(c) <==> c <= I128_MAX && IsCeiling(c, n, w)
  {
    var q, r := n / w, n % w;
    var k := q + if r > 0 then 1 else 0;
    assert n == q * w + r && (q + 1) * w == q * w + w && (q - 1) * w == q * w - w;
    assert IsCeiling(k, n, w);
    if IsCeiling(c, n, w) {
      CeilingUnique(n, w, c, k);
    }
  }

  /** Numerator and denominator of the exact value. */
  function Numerator(f: Float, amount: nat): (n: nat) {
    var e := Exponent(f);
    amount * Mantissa(f) * MICRO * Pow(2, if e >= 0 then e else 0)
  }

  function Denominator(f: Float, d: nat): (n: nat)
    ensures n > 0
  {
    var e := Exponent(f);
    Pow(10, d) * Pow(2, if e >= 0 then 0 else -e)
  }

  lemma ScaledExactly(n: nat, w: nat, e: int, c: nat)
    requires 0 < n < U256 && w > 0
    ensures Scaled(n, w, e) == Some(c) <==>
      && n * Pow(2, if e >= 0 then e else 0) < U256
      && c <= I128_MAX
      && IsCeiling(c, n * Pow(2, if e >= 0 then e else 0), w * Pow(2, if e >= 0 then 0 else -e))
  {
    hide Pow, Rounded;
    PowSmall();
    if e >= 0 {
      RoundedExactly(n * Pow(2, e), w, c);
    } else {
      var v := w * Pow(2, -e);
      RoundedExactly(n, v, c);
      if v >= U256 && IsCeiling(c, n, v) {
        CeilingUnique(n, v, c, 1);
      }
    }
  }

  lemma MantissaPositive(f: Float)
    requires PositiveFinite(f)
    ensures Mantissa(f) > 0
  {
  }

  lemma ProductPositive(a: nat, b: nat)
    requires a > 0 && b > 0
    ensures a * b > 0
  {
  }

  /** The integer form of the main theorem. */
  lemma CeilingExactly(f: Float, d: nat, amount: nat, c: nat)
    requires d <= 77 && PositiveFinite(f) && amount < U256
    ensures Micros(f, d, Some(amount)) == Some(c) <==>
      Numerator(f, amount) < U256 && c <= I128_MAX && IsCeiling(c, Numerator(f, amount), Denominator(f, d))
  {
    hide Pow, Mantissa, Exponent, PositiveFinite, Tens, Scaled;
    var n, up := amount * Mantissa(f) * MICRO, Pow(2, if Exponent(f) >= 0 then Exponent(f) else 0);
    if amount == 0 {
      ZeroCeiling(c, Denominator(f, d));
    } else {
      MantissaPositive(f);
      ProductPositive(amount, Mantissa(f));
      TensExactly(d);
      MultipleAtLeast(up, n);
      if n < U256 {
        ScaledExactly(n, Tens(d), Exponent(f), c);
      }
    }
  }

  lemma ZeroCeiling(c: nat, w: nat)
    requires w > 0
    ensures IsCeiling(c, 0, w) <==> c == 0
  {
    if IsCeiling(c, 0, w) {
      CeilingUnique(0, w, c, 0);
    }
  }

  lemma DivideBy(x: real, p: real, t: real)
    requires p > 0.0 && t > 0.0
    ensures t * p > 0.0 && x * (1.0 / p) / t == x / (t * p)
  {
    var z := x / (t * p);
    assert z * (t * p) == x;
    assert z * t == x * (1.0 / p) by {
      assert (z * t) * p == x;
      assert (x * (1.0 / p)) * p == x;
    }
  }

  lemma ExactIsFraction(f: Float, d: nat, amount: nat)
    ensures Exact(f, d, amount) == Numerator(f, amount) as real / Denominator(f, d) as real
  {
    hide Pow, Mantissa, Exponent;
    PowSmall();
    var a, m, t, e := amount as real, Mantissa(f) as real, Pow(10, d) as real, Exponent(f);
    var x := a * m * MICRO as real;
    if e >= 0 {
      var p := Pow(2, e) as real;
      assert a * (m * p) * MICRO as real == x * p;
    } else {
      var p := Pow(2, -e) as real;
      assert a * (m * (1.0 / p)) * MICRO as real == x * (1.0 / p);
      DivideBy(x, p, t);
    }
  }

  lemma CeilingOfFraction(n: nat, w: nat, c: nat)
    requires w > 0
    ensures IsCeiling(c, n, w) <==> RoundsUpTo(n as real / w as real, c)
  {
    var low: real, high: real := c as real - 1.0, c as real;
    AgainstFraction(low, n as real, w as real);
    AgainstFraction(high, n as real, w as real);
    assert low * w as real == ((c - 1) * w) as real;
    assert high * w as real == (c * w) as real;
  }

  lemma AgainstFraction(a: real, n: real, v: real)
    requires v > 0.0
    ensures a < n / v <==> a * v < n
  {
    var x := n / v;
    assert x * v == n;
    RealOrder(a, x, v);
  }

  lemma RealOrder(a: real, b: real, v: real)
    requires v > 0.0
    ensures a < b <==> a * v < b * v
    ensures a <= b <==> a * v <= b * v
  {
    assert (b - a) * v == b * v - a * v;
  }

  /**
   Up to 77 decimals the valuation answers `c` exactly when the numerator fits 256 bits, `c`
   fits a signed 128-bit integer, and `c` is the exact real value rounded up.
   */
  lemma ValuationIsExact(f: Float, d: nat, amount: nat, c: nat)
    requires d <= 77 && PositiveFinite(f) && amount < U256
    ensures Micros(f, d, Some(amount)) == Some(c) <==>
      Numerator(f, amount) < U256 && c < 0x80000000000000000000000000000000 && RoundsUpTo(Exact(f, d, amount), c)
  {
    hide Micros, Numerator, Denominator, IsCeiling, RoundsUpTo, Exact, PositiveFinite;
    CeilingExactly(f, d, amount, c);
    ExactIsFraction(f, d, amount);
    CeilingOfFraction(Numerator(f, amount), Denominator(f, d), c);
  }

  /** It refuses a good price and amount exactly when the numerator or the exact value does not fit. */
  lemma SucceedsExactly(f: Float, d: nat, amount: nat)
    requires d <= 77 && PositiveFinite(f) && amount < U256
    ensures Micros(f, d, Some(amount)).Some? <==> Numerator(f, amount) < U256 && Exact(f, d, amount) <= I128_MAX as real
  {
    hide Micros, Numerator, Denominator, Exact, PositiveFinite;
    var n, w := Numerator(f, amount), Denominator(f, d);
    var c := n / w + if n % w > 0 then 1 else 0;
    CeilingOfDivision(n, w);
    ExactIsFraction(f, d, amount);
    CeilingOfFraction(n, w, c);
    var r := Micros(f, d, Some(amount));
    ValuationIsExact(f, d, amount, c);
    if r.Some? {
      ValuationIsExact(f, d, amount, r.value);
    }
    assert Exact(f, d, amount) <= I128_MAX as real ==> c as real - 1.0 < I128_MAX as real;
  }

  lemma CeilingOfDivision(n: nat, w: nat)
    requires w > 0
    ensures IsCeiling(n / w + if n % w > 0 then 1 else 0, n, w)
  {
    var q, r := n / w, n % w;
    assert n == q * w + r && (q + 1) * w == q * w + w && (q - 1) * w == q * w - w;
  }

  /** More of the same token is never valued lower. */
  lemma Monotone(f: Float, d: nat, a: nat, b: nat)
    requires d <= 77 && PositiveFinite(f) && a <= b < U256 && Micros(f, d, Some(b)).Some?
    ensures Micros(f, d, Some(a)).Some? && Micros(f, d, Some(a)).value <= Micros(f, d, Some(b)).value
  {
    hide Micros, Numerator, Denominator, PositiveFinite, Mantissa, Exponent, Pow;
    var w, high := Denominator(f, d), Micros(f, d, Some(b)).value;
    var n, m := Numerator(f, a), Numerator(f, b);
    NumeratorAdds(f, a, b - a);
    CeilingExactly(f, d, b, high);
    CeilingOfDivision(n, w);
    var low: int := n / w + if n % w > 0 then 1 else 0;
    LessFactor(low - 1, high, w);
    CeilingExactly(f, d, a, low);
  }

  lemma NumeratorAdds(f: Float, a: nat, b: nat)
    ensures Numerator(f, a + b) == Numerator(f, a) + Numerator(f, b)
  {
    hide Mantissa, Exponent, Pow;
    var e := Exponent(f);
    var k := Mantissa(f) * (MICRO * Pow(2, if e >= 0 then e else 0));
    ProductOf(a, Mantissa(f), Pow(2, if e >= 0 then e else 0));
    ProductOf(b, Mantissa(f), Pow(2, if e >= 0 then e else 0));
    ProductOf(a + b, Mantissa(f), Pow(2, if e >= 0 then e else 0));
    assert (a + b) * k == a * k + b * k;
  }

  lemma ProductOf(a: nat, m: nat, p: nat)
    ensures a * m * MICRO * p == a * (m * (MICRO * p))
  {
    assert a * m * MICRO * p == (a * m) * (MICRO * p);
  }

  /** Splitting an amount never lowers the total value and raises it by at most one micro-dollar. */
  lemma SplitCostsAtMostOne(f: Float, d: nat, a: nat, b: nat)
    requires d <= 77 && PositiveFinite(f) && a + b < U256 && Micros(f, d, Some(a + b)).Some?
    ensures Micros(f, d, Some(a)).Some? && Micros(f, d, Some(b)).Some?
    ensures Micros(f, d, Some(a + b)).value <= Micros(f, d, Some(a)).value + Micros(f, d, Some(b)).value
    ensures Micros(f, d, Some(a)).value + Micros(f, d, Some(b)).value <= Micros(f, d, Some(a + b)).value + 1
  {
    hide Micros, Numerator, Denominator, PositiveFinite;
    Monotone(f, d, a, a + b);
    Monotone(f, d, b, a + b);
    var whole, x, y := Micros(f, d, Some(a + b)).value, Micros(f, d, Some(a)).value, Micros(f, d, Some(b)).value;
    CeilingExactly(f, d, a + b, whole);
    CeilingExactly(f, d, a, x);
    CeilingExactly(f, d, b, y);
    NumeratorAdds(f, a, b);
    CeilingsAdd(Numerator(f, a), Numerator(f, b), Denominator(f, d), x, y, whole);
  }

  lemma CeilingsAdd(n: nat, m: nat, w: nat, x: int, y: int, c: int)
    requires w > 0 && IsCeiling(x, n, w) && IsCeiling(y, m, w) && IsCeiling(c, n + m, w)
    ensures c <= x + y <= c + 1
  {
    assert (x + y) * w == x * w + y * w;
    assert (x + y - 2) * w == (x - 1) * w + (y - 1) * w;
    LessFactor(c - 1, x + y, w);
    LessFactor(x + y - 2, c, w);
  }

  // ----- Prices in order -----

  lemma ScaleDoubles(e: int)
    ensures Scale(e + 1) == 2.0 * Scale(e)
  {
    if e < 0 {
      var p := Pow(2, -e - 1) as real;
      assert Pow(2, -e) as real == 2.0 * p;
      assert 2.0 * (1.0 / (2.0 * p)) == 1.0 / p;
      assert e == -1 ==> p == 1.0;
    }
  }

  lemma ScaleMonotone(e: int, k: int)
    requires e <= k
    ensures Scale(e) <= Scale(k)
    decreases k - e
  {
    if e < k {
      ScaleDoubles(e);
      ScaleMonotone(e + 1, k);
    }
  }

  lemma FieldOrder(f: Float, g: Float)
    requires f <= g < SIGN
    ensures Field(f) <= Field(g) && (Field(f) == Field(g) ==> Fraction(f) <= Fraction(g))
  {
    assert f / HIDDEN <= g / HIDDEN < 2048;
  }

  /** Positive floats are ordered as their bit patterns are. */
  lemma PriceOrder(f: Float, g: Float)
    requires PositiveFinite(f) && PositiveFinite(g) && f <= g
    ensures Price(f) <= Price(g)
  {
    hide Scale, Field, Fraction;
    FieldOrder(f, g);
    var m, n := Mantissa(f) as real, Mantissa(g) as real;
    var s, t := Scale(Exponent(f)), Scale(Exponent(g));
    MantissaRange(f);
    MantissaRange(g);
    if Exponent(f) == Exponent(g) {
      assert m <= n;
      RealOrder(m, n, t);
    } else {
      ScaleDoubles(Exponent(f));
      ScaleMonotone(Exponent(f) + 1, Exponent(g));
      ScaledOrder(m, n, s, t, HIDDEN as real);
    }
  }

  lemma ScaledOrder(m: real, n: real, s: real, t: real, h: real)
    requires m <= 2.0 * h && 0.0 < h <= n && 0.0 < s && 2.0 * s <= t
    ensures m * s <= n * t
  {
    assert (2.0 * h - m) * s >= 0.0;
    assert h * (t - 2.0 * s) >= 0.0;
    assert (n - h) * t >= 0.0;
  }

  lemma MantissaRange(f: Float)
    ensures Mantissa(f) < 2 * HIDDEN
    ensures if Field(f) == 0 then Mantissa(f) < HIDDEN else HIDDEN <= Mantissa(f)
    ensures Mantissa(f) == Fraction(f) + if Field(f) == 0 then 0 else HIDDEN
  {
  }

  /** A higher price never yields a lower value, when both are answered. */
  lemma MonotoneInPrice(f: Float, g: Float, d: nat, amount: nat)
    requires d <= 77 && PositiveFinite(f) && PositiveFinite(g) && f <= g && amount < U256
    requires Micros(f, d, Some(amount)).Some? && Micros(g, d, Some(amount)).Some?
    ensures Micros(f, d, Some(amount)).value <= Micros(g, d, Some(amount)).value
  {
    hide Micros, Numerator, Pow, Price, PositiveFinite;
    var x, y := Micros(f, d, Some(amount)).value, Micros(g, d, Some(amount)).value;
    ValuationIsExact(f, d, amount, x);
    ValuationIsExact(g, d, amount, y);
    PriceOrder(f, g);
    ExactOrder(f, g, d, amount);
    assert x as real - 1.0 < y as real;
  }

  lemma ExactOrder(f: Float, g: Float, d: nat, amount: nat)
    requires Price(f) <= Price(g)
    ensures Exact(f, d, amount) <= Exact(g, d, amount)
  {
    hide Pow, Price;
    var p, q, a, t := Price(f), Price(g), amount as real, Pow(10, d) as real;
    assert a * q - a * p == a * (q - p) >= 0.0;
    var u, v := a * p * MICRO as real, a * q * MICRO as real;
    assert (u / t) * t == u && (v / t) * t == v;
    RealOrder(u / t, v / t, t);
  }

  // ----- What a bit pattern stands for -----

  lemma ScaleAdd(e: int, k: nat)
    ensures Scale(e + k) == Pow(2, k) as real * Scale(e)
  {
    hide Scale;
    if k > 0 {
      ScaleAdd(e, k - 1);
      ScaleDoubles(e + k - 1);
      var p := Pow(2, k - 1) as real;
      assert Pow(2, k) as real == 2.0 * p;
      assert 2.0 * (p * Scale(e)) == 2.0 * p * Scale(e);
    }
  }

  /** Exactly the patterns strictly between zero and infinity are accepted as prices. */
  lemma PricesExactly(f: Float)
    ensures PositiveFinite(f) <==> 0 < f < 0x7FF0_0000_0000_0000
  {
    assert f == f / HIDDEN * HIDDEN + f % HIDDEN;
    if f < SIGN {
      assert f / HIDDEN < 2048;
    }
  }

  /**
   With biased exponent `e` and fraction `m` of 52 bits the price is (1 + m / 2^52) 2^(e - 1023), and
   m / 2^52 2^(-1022) when the biased exponent is zero; `Scale(k)` is 2^k.
   */
  lemma PriceExactly(e: nat, m: nat)
    requires e <= 2046 && m < 0x10_0000_0000_0000
    ensures var f: Float := e * 0x10_0000_0000_0000 + m; var t := m as real / 4_503_599_627_370_496.0;
      Price(f) == if e == 0 then t * Scale(-1022) else (1.0 + t) * Scale(e - 1023)
    ensures Scale(0) == 1.0 && forall k: int :: Scale(k + 1) == 2.0 * Scale(k)
  {
    hide Field, Fraction, Mantissa, Exponent, Pow;
    var f: Float := e * 0x10_0000_0000_0000 + m;
    FieldsOf(e, m);
    PowLiterals();
    ScaleLaw();
    var k := if e == 0 then -1074 else e - 1075;
    ScaleAdd(k, 52);
    hide Scale;
    Fractional(m as real, 4_503_599_627_370_496.0, Scale(k));
  }

  lemma ScaleLaw()
    ensures Scale(0) == 1.0 && forall k: int :: Scale(k + 1) == 2.0 * Scale(k)
  {
    forall k: int ensures Scale(k + 1) == 2.0 * Scale(k) {
      ScaleDoubles(k);
    }
  }

  lemma FieldsOf(e: nat, m: nat)
    requires e <= 2046 && m < 0x10_0000_0000_0000
    ensures var f: Float := e * 0x10_0000_0000_0000 + m;
      && Mantissa(f) == (if e == 0 then m else 0x10_0000_0000_0000 + m)
      && Exponent(f) == (if e == 0 then -1074 else e - 1075)
  {
    TwoDigits(e, m, HIDDEN);
  }

  lemma Fractional(m: real, h: real, s: real)
    requires h > 0.0
    ensures m / h * (h * s) == m * s && (1.0 + m / h) * (h * s) == (h + m) * s
  {
    assert m / h * h == m;
    assert (1.0 + m / h) * h == h + m;
  }

  // ----- Beyond 77 decimals -----

  /** The float 2^52: its exponent is 0, so the price scales neither side. */
  const BIG_PRICE: Float := 0x4330_0000_0000_0000

  /** The most base units whose numerator at that price fits 256 bits. */
  const BIG_AMOUNT: nat := 25_711_008_708_143_844_408_671_393_477_458_601_640_355_247_900_524_685_364

  ghost predicate Agrees(f: Float, d: nat, amount: nat)
    requires d <= 255 && amount < U256
  {
    forall c: nat :: Micros(f, d, Some(amount)) == Some(c) <==>
      Numerator(f, amount) < U256 && c <= I128_MAX && RoundsUpTo(Exact(f, d, amount), c)
  }

  lemma BigPrice()
    ensures PositiveFinite(BIG_PRICE) && Mantissa(BIG_PRICE) == HIDDEN && Exponent(BIG_PRICE) == 0
    ensures 0 < BIG_AMOUNT < U256
    ensures Numerator(BIG_PRICE, BIG_AMOUNT) == BIG_AMOUNT * HIDDEN * MICRO
    ensures U256 - 0x4000_0000000000000000 < Numerator(BIG_PRICE, BIG_AMOUNT) < U256
  {
  }

  /** From 78 decimals on the wrapped divisor leaves room for a larger numerator. */
  lemma WrappedLeavesRoom(d: nat)
    requires 78 <= d <= 255
    ensures Tens(d) <= U256 - 0x4000_0000000000000000
  {
    hide Pow;
    PowLiterals();
    PowAdd(10, 78, d - 78);
    TenIsTwoFive(78);
    PowAdd(2, 78, 178);
    var x := Pow(5, 78) * Pow(10, d - 78);
    assert Pow(10, d) == Pow(2, 78) * x;
    ModScale(Pow(2, 78), x, Pow(2, 178));
    var r, m := x % Pow(2, 178), Pow(2, 178);
    assert r + 1 <= m;
    assert Pow(2, 78) * (r + 1) <= Pow(2, 78) * m by { FactorKeepsOrder(r + 1, m, Pow(2, 78)); }
  }

  lemma ManyDecimalsDisagree(d: nat)
    requires 78 <= d <= 255
    ensures RoundsUpTo(Exact(BIG_PRICE, d, BIG_AMOUNT), 1) && Micros(BIG_PRICE, d, Some(BIG_AMOUNT)) != Some(1)
  {
    hide Pow, Tens, Rounded, RoundsUpTo, Exact, Numerator, Denominator, PositiveFinite, Mantissa, Exponent;
    BigPrice();
    PowSmall();
    var n := Numerator(BIG_PRICE, BIG_AMOUNT);
    WrappedLeavesRoom(d);
    RoundedExactly(n, Tens(d), 1);
    BigDenominator(d);
    ExactIsFraction(BIG_PRICE, d, BIG_AMOUNT);
    CeilingOfFraction(n, Denominator(BIG_PRICE, d), 1);
  }

  lemma BigDenominator(d: nat)
    requires 78 <= d
    ensures Denominator(BIG_PRICE, d) > U256
  {
    hide Pow;
    PowSmall();
    TensLiteral();
    PowMonotone(10, 78, d);
  }

  /** The valuation is exact on every price and amount exactly for tokens of at most 77 decimals. */
  lemma ExactUpTo77Decimals(d: nat)
    requires d <= 255
    ensures d <= 77 <==> forall f: Float, amount: nat :: PositiveFinite(f) && amount < U256 ==> Agrees(f, d, amount)
  {
    hide PositiveFinite, Micros, RoundsUpTo, Exact, Numerator;
    if d <= 77 {
      forall f: Float, amount: nat | PositiveFinite(f) && amount < U256 ensures Agrees(f, d, amount) {
        forall c: nat { ValuationIsExact(f, d, amount, c); }
      }
    } else {
      BigPrice();
      ManyDecimalsDisagree(d);
      assert !Agrees(BIG_PRICE, d, BIG_AMOUNT);
    }
  }
}
