/**
 The standard padded alphabet of section 4 of RFC 4648, decoded strictly: padding
 is mandatory and the unused low bits of the last symbol must be zero.
 */
module Base64 {
  import opened Bytes

  const PAD: byte := 61

  type sextet = i: int | 0 <= i < 64

  function Symbol(i: sextet): (c: byte)
    ensures IsSymbol(c)
  {
    if i < 26 then 65 + i
    else if i < 52 then 71 + i
    else if i < 62 then i - 4
    else if i == 62 then 43
    else 47
  }

  predicate IsSymbol(c: byte) {
    65 <= c <= 90 || 97 <= c <= 122 || 48 <= c <= 57 || c == 43 || c == 47
  }

  function Value(c: byte): (i: sextet)
    requires IsSymbol(c)
    ensures Symbol(i) == c
  {
    if 65 <= c <= 90 then c - 65
    else if 97 <= c <= 122 then c - 71
    else if 48 <= c <= 57 then c + 4
    else if c == 43 then 62
    else 63
  }

  function Encode(b: bytes): (s: bytes)
    ensures |s| == (|b| + 2) / 3 * 4
    ensures forall i :: 0 <= i < |s| ==> IsSymbol(s[i]) || s[i] == PAD
  {
    if |b| < 3 then EncodeTail(b)
    else EncodeTriple(b[0], b[1], b[2]) + Encode(b[3..])
  }

  function EncodeTail(b: bytes): (s: bytes)
    requires |b| < 3
    ensures |s| == if b == [] then 0 else 4
    ensures forall i :: 0 <= i < |s| ==> IsSymbol(s[i]) || s[i] == PAD
  {
    if |b| == 0 then []
    else if |b| == 1 then
      var q := Split(b[0], 0, 0);
      [Symbol(q.0), Symbol(q.1), PAD, PAD]
    else
      var q := Split(b[0], b[1], 0);
      [Symbol(q.0), Symbol(q.1), Symbol(q.2), PAD]
  }

  /** Three bytes regrouped as four sextets, and back. */
  function Split(x: byte, y: byte, z: byte): (sextet, sextet, sextet, sextet)
  {
    (x / 4, x % 4 * 16 + y / 16, y % 16 * 4 + z / 64, z % 64)
  }

  function Join(a: sextet, b: sextet, c: sextet, d: sextet): (byte, byte, byte)
  {
    (a * 4 + b / 16, b % 16 * 16 + c / 4, c % 4 * 64 + d)
  }

  lemma JoinSplit(x: byte, y: byte, z: byte)
    ensures var q := Split(x, y, z); Join(q.0, q.1, q.2, q.3) == (x, y, z)
  {
    TwoDigits(x % 4, y / 16, 16);
    TwoDigits(y % 16, z / 64, 4);
  }

  lemma SplitJoin(a: sextet, b: sextet, c: sextet, d: sextet)
    ensures var t := Join(a, b, c, d); Split(t.0, t.1, t.2) == (a, b, c, d)
  {
    TwoDigits(a, b / 16, 4);
    TwoDigits(b % 16, c / 4, 16);
    TwoDigits(c % 4, d, 64);
  }

  function EncodeTriple(x: byte, y: byte, z: byte): (s: bytes)
    ensures |s| == 4 && AllSymbols(s)
  {
    var q := Split(x, y, z);
    [Symbol(q.0), Symbol(q.1), Symbol(q.2), Symbol(q.3)]
  }

  predicate AllSymbols(s: bytes) {
    forall i :: 0 <= i < |s| ==> IsSymbol(s[i])
  }

  function DecodeQuad(s: bytes): (b: bytes)
    requires |s| == 4 && AllSymbols(s)
    ensures |b| == 3
  {
    var t := Join(Value(s[0]), Value(s[1]), Value(s[2]), Value(s[3]));
    [t.0, t.1, t.2]
  }

  /** The last quad, where padding is allowed and must be canonical. */
  function DecodeLast(s: bytes): (r: Option<bytes>)
    requires |s| == 4
  {
    if AllSymbols(s) then Some(DecodeQuad(s))
    else if AllSymbols(s[..3]) && s[3] == PAD && Value(s[2]) % 4 == 0 then
      Some(DecodeQuad([s[0], s[1], s[2], Symbol(0)])[..2])
    else if AllSymbols(s[..2]) && s[2] == PAD && s[3] == PAD && Value(s[1]) % 16 == 0 then
      Some(DecodeQuad([s[0], s[1], Symbol(0), Symbol(0)])[..1])
    else None
  }

  function Decode(s: bytes): (r: Option<bytes>)
  {
    if s == [] then Some([])
    else if |s| < 4 then None
    else if |s| == 4 then DecodeLast(s)
    else if !AllSymbols(s[..4]) then None
    else
      match Decode(s[4..])
      case None => None
      case Some(tail) => Some(DecodeQuad(s[..4]) + tail)
  }

  lemma SymbolInjective(i: sextet, j: sextet)
    requires Symbol(i) == Symbol(j)
    ensures i == j
  {
  }

  lemma ValueOfSymbol(i: sextet)
    ensures Value(Symbol(i)) == i
  {
    SymbolInjective(Value(Symbol(i)), i);
  }

  lemma EncodeDecodeTriple(x: byte, y: byte, z: byte)
    ensures DecodeQuad(EncodeTriple(x, y, z)) == [x, y, z]
  {
    var q := Split(x, y, z);
    ValueOfSymbol(q.0);
    ValueOfSymbol(q.1);
    ValueOfSymbol(q.2);
    ValueOfSymbol(q.3);
    JoinSplit(x, y, z);
  }

  lemma DecodeEncodeQuad(s: bytes)
    requires |s| == 4 && AllSymbols(s)
    ensures var b := DecodeQuad(s); EncodeTriple(b[0], b[1], b[2]) == s
  {
    SplitJoin(Value(s[0]), Value(s[1]), Value(s[2]), Value(s[3]));
  }

  lemma DecodeEncodeOne(x: byte)
    ensures DecodeLast(EncodeTail([x])) == Some([x])
  {
    var q := Split(x, 0, 0);
    EncodeDecodeTriple(x, 0, 0);
    ValueOfSymbol(q.1);
    var s := EncodeTail([x]);
    assert s[3] == PAD && s[..3][2] == PAD;
    assert s[..2] == [Symbol(q.0), Symbol(q.1)];
    assert [s[0], s[1], Symbol(0), Symbol(0)] == EncodeTriple(x, 0, 0);
    assert [x, 0, 0][..1] == [x];
  }

  lemma DecodeEncodeTwo(x: byte, y: byte)
    ensures DecodeLast(EncodeTail([x, y])) == Some([x, y])
  {
    var q := Split(x, y, 0);
    EncodeDecodeTriple(x, y, 0);
    ValueOfSymbol(q.2);
    var s := EncodeTail([x, y]);
    assert s[3] == PAD;
    assert s[..3] == [Symbol(q.0), Symbol(q.1), Symbol(q.2)];
    assert [s[0], s[1], s[2], Symbol(0)] == EncodeTriple(x, y, 0);
    assert [x, y, 0][..2] == [x, y];
  }

  lemma DecodeEncodeTail(b: bytes)
    requires |b| < 3
    ensures Decode(EncodeTail(b)) == Some(b)
  {
    if |b| == 1 {
      DecodeEncodeOne(b[0]);
      assert b == [b[0]];
    } else if |b| == 2 {
      DecodeEncodeTwo(b[0], b[1]);
      assert b == [b[0], b[1]];
    }
  }

  /** Decoding undoes encoding on every byte string. */
  lemma {:induction false} DecodeEncode(b: bytes)
    ensures Decode(Encode(b)) == Some(b)
  {
    if |b| < 3 {
      DecodeEncodeTail(b);
    } else {
      DecodeEncode(b[3..]);
      DecodeAppend(EncodeTriple(b[0], b[1], b[2]), Encode(b[3..]));
      EncodeDecodeTriple(b[0], b[1], b[2]);
      assert b == [b[0], b[1], b[2]] + b[3..];
    }
  }

  lemma DecodeAppend(quad: bytes, tail: bytes)
    requires |quad| == 4 && AllSymbols(quad) && Decode(tail).Some?
    ensures Decode(quad + tail) == Some(DecodeQuad(quad) + Decode(tail).value)
  {
    assert (quad + tail)[..4] == quad && (quad + tail)[4..] == tail;
    if tail == [] {
      assert quad + tail == quad;
      assert DecodeQuad(quad) + [] == DecodeQuad(quad);
    }
  }

  /** The decoder is strict: the only text it accepts for `b` is the encoder's own. */
  lemma {:induction false} EncodeDecode(s: bytes)
    requires Decode(s).Some?
    ensures Encode(Decode(s).value) == s
  {
    if s == [] {
    } else if |s| == 4 {
      EncodeDecodeLast(s);
    } else {
      EncodeDecode(s[4..]);
      DecodeEncodeQuad(s[..4]);
      var head := DecodeQuad(s[..4]);
      var tail := Decode(s[4..]).value;
      assert (head + tail)[3..] == tail;
      assert s == s[..4] + s[4..];
    }
  }

  lemma EncodeDecodeLast(s: bytes)
    requires |s| == 4 && DecodeLast(s).Some?
    ensures Encode(DecodeLast(s).value) == s
  {
    hide Symbol;
    ValueOfSymbol(0);
    if AllSymbols(s) {
      DecodeEncodeQuad(s);
      assert Encode(DecodeQuad(s)[3..]) == [];
    } else if AllSymbols(s[..3]) && s[3] == PAD && Value(s[2]) % 4 == 0 {
      assert s[..3][0] == s[0] && s[..3][1] == s[1] && s[..3][2] == s[2];
      SplitJoin(Value(s[0]), Value(s[1]), Value(s[2]), 0);
      assert Encode(DecodeLast(s).value) == [s[0], s[1], s[2], PAD];
    } else {
      assert s[..2][0] == s[0] && s[..2][1] == s[1];
      SplitJoin(Value(s[0]), Value(s[1]), 0, 0);
      assert Encode(DecodeLast(s).value) == [s[0], s[1], PAD, PAD];
    }
  }

  lemma DecodedShorter(s: bytes)
    requires Decode(s).Some?
    ensures |Decode(s).value| <= |s|
  {
    EncodeDecode(s);
  }
}
