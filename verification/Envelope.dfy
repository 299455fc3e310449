/**
 The chunk envelope as it appears on the wire: one JSON object holding a decimal
 sequence number, a boolean and an escape-free string, in that order and without
 white space, exactly as the daemon's serializer prints it.
 */
module Envelope {
  import opened Bytes

  datatype Chunk = Chunk(sequence: nat, last: bool, text: bytes)

  const U32_LIMIT: nat := 0x1_0000_0000

  const QUOTE: byte := 34
  const OPEN: bytes := Ascii("{\"bloom_chunk\":{\"sequence\":")
  const FINAL: bytes := Ascii(",\"final_chunk\":")
  const TEXT: bytes := Ascii(",\"bytes_b64\":\"")
  const CLOSE: bytes := Ascii("\"}}")
  const TRUE: bytes := Ascii("true")
  const FALSE: bytes := Ascii("false")

  // ---- printing

  predicate IsDigit(b: byte) { 48 <= b <= 57 }

  /** A byte a JSON string holds unescaped. */
  predicate IsPlain(b: byte) { 32 <= b < 128 && b != QUOTE && b != 92 }

  predicate Plain(s: bytes) { forall i :: 0 <= i < |s| ==> IsPlain(s[i]) }

  predicate Printable(c: Chunk) { c.sequence < U32_LIMIT && Plain(c.text) }

  function Decimal(n: nat): (s: bytes)
    ensures s != [] && forall i :: 0 <= i < |s| ==> IsDigit(s[i])
  {
    if n < 10 then [48 + n] else Decimal(n / 10) + [48 + n % 10]
  }

  function BoolText(b: bool): bytes { if b then TRUE else FALSE }

  function Print(c: Chunk): (s: bytes)
  {
    OPEN + (Decimal(c.sequence) + (FINAL + (BoolText(c.last) + (TEXT + (c.text + CLOSE)))))
  }

  // ---- parsing

  function Number(s: bytes): (n: nat)
    requires forall i :: 0 <= i < |s| ==> IsDigit(s[i])
  {
    if s == [] then 0 else
      assert IsDigit(s[|s| - 1]);
      Number(s[..|s| - 1]) * 10 + (s[|s| - 1] - 48)
  }

  /** JSON numbers have no leading zeros. */
  predicate Canonical(s: bytes) {
    && s != []
    && (forall i :: 0 <= i < |s| ==> IsDigit(s[i]))
    && (|s| == 1 || s[0] != 48)
  }

  function DigitRun(s: bytes): (k: nat)
    ensures k <= |s|
    ensures forall i :: 0 <= i < k ==> IsDigit(s[i])
    ensures k < |s| ==> !IsDigit(s[k])
  {
    if s == [] || !IsDigit(s[0]) then 0 else 1 + DigitRun(s[1..])
  }

  function PlainRun(s: bytes): (k: nat)
    ensures k <= |s|
    ensures Plain(s[..k])
    ensures k < |s| ==> !IsPlain(s[k])
  {
    if s == [] || !IsPlain(s[0]) then 0 else
      var k := PlainRun(s[1..]);
      assert s[..k + 1] == [s[0]] + s[1..][..k];
      k + 1
  }

  function Strip(prefix: bytes, s: bytes): (r: Option<bytes>)
    ensures r.Some? <==> prefix <= s
    ensures r.Some? ==> s == prefix + r.value
  {
    if prefix <= s then Some(s[|prefix|..]) else None
  }

  function ParseU32(s: bytes): (r: Option<(nat, bytes)>)
  {
    var k := DigitRun(s);
    if Canonical(s[..k]) && Number(s[..k]) < U32_LIMIT then Some((Number(s[..k]), s[k..])) else None
  }

  function ParseBool(s: bytes): (r: Option<(bool, bytes)>)
  {
    if TRUE <= s then Some((true, s[|TRUE|..]))
    else if FALSE <= s then Some((false, s[|FALSE|..]))
    else None
  }

  function ParseText(s: bytes): (r: Option<bytes>)
  {
    var rest :- Strip(TEXT, s);
    var k := PlainRun(rest);
    if rest[k..] == CLOSE then Some(rest[..k]) else None
  }

  function ParseFields(s: bytes): (r: Option<Chunk>)
  {
    var number :- ParseU32(s);
    var afterFinal :- Strip(FINAL, number.1);
    var flag :- ParseBool(afterFinal);
    var text :- ParseText(flag.1);
    Some(Chunk(number.0, flag.0, text))
  }

  function ParseEnvelope(s: bytes): (r: Option<Chunk>)
  {
    var fields :- Strip(OPEN, s);
    ParseFields(fields)
  }

  // ---- decimal numbers

  lemma {:induction false} NumberOfDecimal(n: nat)
    ensures Canonical(Decimal(n)) && Number(Decimal(n)) == n
    ensures n > 0 ==> Decimal(n)[0] != 48
  {
    if n >= 10 {
      NumberOfDecimal(n / 10);
      var head := Decimal(n / 10);
      assert Decimal(n)[..|Decimal(n)| - 1] == head;
    }
  }

  lemma {:induction false} DecimalOfNumber(s: bytes)
    requires Canonical(s)
    ensures Decimal(Number(s)) == s
    ensures s[0] != 48 ==> Number(s) > 0
  {
    var head, digit := s[..|s| - 1], s[|s| - 1] - 48;
    if head == [] {
      assert Number(head) == 0;
      assert s == [s[0]];
    } else {
      DecimalOfNumber(head);
      assert head[0] == s[0];
      TwoDigits(Number(head), digit, 10);
      assert s == head + [s[|s| - 1]];
    }
  }

  // ---- each token parser inverts its printer

  lemma {:induction false} DigitRunOf(d: bytes, rest: bytes)
    requires forall i :: 0 <= i < |d| ==> IsDigit(d[i])
    requires rest != [] ==> !IsDigit(rest[0])
    ensures DigitRun(d + rest) == |d|
  {
    if d == [] {
      assert d + rest == rest;
    } else {
      assert (d + rest)[1..] == d[1..] + rest;
      DigitRunOf(d[1..], rest);
    }
  }

  lemma {:induction false} PlainRunOf(d: bytes, rest: bytes)
    requires Plain(d)
    requires rest != [] ==> !IsPlain(rest[0])
    ensures PlainRun(d + rest) == |d|
  {
    if d == [] {
      assert d + rest == rest;
    } else {
      assert (d + rest)[1..] == d[1..] + rest;
      PlainRunOf(d[1..], rest);
    }
  }

  lemma ParsePrintedU32(n: nat, rest: bytes)
    requires n < U32_LIMIT
    requires rest != [] && !IsDigit(rest[0])
    ensures ParseU32(Decimal(n) + rest) == Some((n, rest))
  {
    NumberOfDecimal(n);
    DigitRunOf(Decimal(n), rest);
    var s := Decimal(n) + rest;
    assert s[..|Decimal(n)|] == Decimal(n) && s[|Decimal(n)|..] == rest;
  }

  lemma PrintParsedU32(s: bytes)
    requires ParseU32(s).Some?
    ensures ParseU32(s).value.0 < U32_LIMIT
    ensures s == Decimal(ParseU32(s).value.0) + ParseU32(s).value.1
  {
    DecimalOfNumber(s[..DigitRun(s)]);
  }

  lemma ParsePrintedBool(b: bool, rest: bytes)
    ensures ParseBool(BoolText(b) + rest) == Some((b, rest))
  {
    var s := BoolText(b) + rest;
    assert s[0] == BoolText(b)[0];
    assert TRUE[0] != FALSE[0];
    assert BoolText(b) <= s && s[|BoolText(b)|..] == rest;
  }

  lemma PrintParsedBool(s: bytes)
    requires ParseBool(s).Some?
    ensures s == BoolText(ParseBool(s).value.0) + ParseBool(s).value.1
  {
  }

  lemma StripPrefix(prefix: bytes, rest: bytes)
    ensures Strip(prefix, prefix + rest) == Some(rest)
  {
    assert (prefix + rest)[|prefix|..] == rest;
  }

  // ---- the envelope as a whole

  lemma ParsePrintedText(text: bytes)
    requires Plain(text)
    ensures ParseText(TEXT + (text + CLOSE)) == Some(text)
  {
    StripPrefix(TEXT, text + CLOSE);
    PlainRunOf(text, CLOSE);
    assert (text + CLOSE)[..|text|] == text && (text + CLOSE)[|text|..] == CLOSE;
  }

  lemma PrintParsedText(s: bytes)
    requires ParseText(s).Some?
    ensures Plain(ParseText(s).value) && s == TEXT + (ParseText(s).value + CLOSE)
  {
    var rest := Strip(TEXT, s).value;
    var k := PlainRun(rest);
    assert rest == rest[..k] + rest[k..];
  }

  /** Every chunk the daemon prints is read back exactly. */
  lemma ParsePrinted(c: Chunk)
    requires Printable(c)
    ensures ParseEnvelope(Print(c)) == Some(c)
  {
    var s3 := TEXT + (c.text + CLOSE);
    var s2 := BoolText(c.last) + s3;
    var s1 := FINAL + s2;
    StripPrefix(OPEN, Decimal(c.sequence) + s1);
    assert s1[0] == FINAL[0];
    ParsePrintedU32(c.sequence, s1);
    StripPrefix(FINAL, s2);
    ParsePrintedBool(c.last, s3);
    ParsePrintedText(c.text);
  }

  /** Nothing but the printed form of a chunk parses as that chunk. */
  lemma PrintParsed(s: bytes)
    requires ParseEnvelope(s).Some?
    ensures Printable(ParseEnvelope(s).value)
    ensures Print(ParseEnvelope(s).value) == s
  {
    var s0 := Strip(OPEN, s).value;
    PrintParsedU32(s0);
    var number := ParseU32(s0).value;
    var s1 := Strip(FINAL, number.1).value;
    PrintParsedBool(s1);
    PrintParsedText(ParseBool(s1).value.1);
  }

  // ---- what framing needs to know about a printed envelope

  predicate OneLine(s: bytes) { forall i :: 0 <= i < |s| ==> s[i] != NEWLINE }

  lemma PrintedIsOneLine(c: Chunk)
    requires Printable(c)
    ensures OneLine(Print(c))
  {
    LiteralsAreOneLine();
    OneLineAppend(c.text, CLOSE);
    OneLineAppend(TEXT, c.text + CLOSE);
    OneLineAppend(BoolText(c.last), TEXT + (c.text + CLOSE));
    var tail := BoolText(c.last) + (TEXT + (c.text + CLOSE));
    OneLineAppend(FINAL, tail);
    OneLineAppend(Decimal(c.sequence), FINAL + tail);
    OneLineAppend(OPEN, Decimal(c.sequence) + (FINAL + tail));
  }

  lemma LiteralsAreOneLine()
    ensures OneLine(OPEN) && OneLine(FINAL) && OneLine(TEXT) && OneLine(CLOSE) && OneLine(TRUE) && OneLine(FALSE)
  {
  }

  lemma OneLineAppend(a: bytes, b: bytes)
    requires OneLine(a) && OneLine(b)
    ensures OneLine(a + b)
  {
  }

  lemma DecimalLength(n: nat)
    requires n < 100
    ensures |Decimal(n)| <= 2
  {
  }

  lemma PrintedLength(c: Chunk)
    ensures |Print(c)| == 27 + |Decimal(c.sequence)| + 15 + (if c.last then 4 else 5) + 14 + |c.text| + 3
  {
  }
}
