/**
 JSON values and their MessagePack encoding, shortest form first, as the order prover packs
 them. Strings are held as their UTF-8 bytes and floats as their eight IEEE 754 bytes.
 */
module MsgPack {
  import opened Bytes
  import opened Identity

  datatype Json =
    | Null
    | Bool(b: bool)
    | Int(i: int)
    | Float(bits: bytes)
    | Str(s: bytes)
    | List(items: seq<Json>)
    | Dict(entries: seq<Entry>)

  datatype Entry = Entry(key: bytes, value: Json)

  const U32: nat := 0x1_0000_0000
  const I63: int := 0x8000_0000_0000_0000

  /** Every number and length in the value can be written. */
  predicate Sized(v: Json) {
    match v
    case Null => true
    case Bool(_) => true
    case Int(i) => -I63 <= i < U64
    case Float(bits) => |bits| == 8
    case Str(s) => |s| < U32
    case List(items) => |items| < U32 && forall v <- items :: Sized(v)
    case Dict(entries) => |entries| < U32 && forall e <- entries :: |e.key| < U32 && Sized(e.value)
  }

  /** Containers and what they hold may be nested at most `limit` deep. */
  predicate Shallow(v: Json, limit: int)
    decreases v
  {
    && limit >= 0
    && match v
       case List(items) => forall v <- items :: Shallow(v, limit - 1)
       case Dict(entries) => forall e <- entries :: limit >= 1 && Shallow(e.value, limit - 1)
       case _ => true
  }

  const NESTING: int := 511

  /** What the packer accepts; it raises a ValueError or an OverflowError for anything else. */
  predicate Packable(v: Json) {
    Sized(v) && Shallow(v, NESTING)
  }

  /** Small numbers are their own tag; larger ones follow a tag in as few bytes as they need. */
  function PackInt(i: int): (r: bytes)
    requires -I63 <= i < U64
  {
    if 0 <= i < 0x80 then [i]
    else if -0x20 <= i < 0 then [0x100 + i]
    else if 0x80 <= i < 0x100 then [0xCC] + BigEndian(i, 1)
    else if -0x80 <= i < 0 then [0xD0] + BigEndian(0x100 + i, 1)
    else if 0 <= i < 0x1_0000 then [0xCD] + BigEndian(i, 2)
    else if -0x8000 <= i < 0 then [0xD1] + BigEndian(0x1_0000 + i, 2)
    else if 0 <= i < U32 then [0xCE] + BigEndian(i, 4)
    else if -0x8000_0000 <= i < 0 then [0xD2] + BigEndian(U32 + i, 4)
    else if 0 <= i then [0xCF] + BigEndian(i, 8)
    else [0xD3] + BigEndian(U64 + i, 8)
  }

  function PackStr(s: bytes): (r: bytes)
    requires |s| < U32
  {
    StrHead(|s|) + s
  }

  function StrHead(n: nat): (r: bytes)
    requires n < U32
  {
    if n < 0x20 then [0xA0 + n]
    else if n < 0x100 then [0xD9] + BigEndian(n, 1)
    else if n < 0x1_0000 then [0xDA] + BigEndian(n, 2)
    else [0xDB] + BigEndian(n, 4)
  }

  function ListHead(n: nat): (r: bytes)
    requires n < U32
  {
    if n < 0x10 then [0x90 + n] else if n < 0x1_0000 then [0xDC] + BigEndian(n, 2) else [0xDD] + BigEndian(n, 4)
  }

  function DictHead(n: nat): (r: bytes)
    requires n < U32
  {
    if n < 0x10 then [0x80 + n] else if n < 0x1_0000 then [0xDE] + BigEndian(n, 2) else [0xDF] + BigEndian(n, 4)
  }

  function Pack(v: Json): (r: bytes)
    requires Sized(v)
  {
    match v
    case Null => [0xC0]
    case Bool(b) => [if b then 0xC3 else 0xC2]
    case Int(i) => PackInt(i)
    case Float(bits) => [0xCB] + bits
    case Str(s) => PackStr(s)
    case List(items) => ListHead(|items|) + PackAll(items)
    case Dict(entries) => DictHead(|entries|) + PackEntries(entries)
  }

  function PackAll(vs: seq<Json>): (r: bytes)
    requires forall v <- vs :: Sized(v)
  {
    if vs == [] then [] else Pack(vs[0]) + PackAll(vs[1..])
  }

  function PackEntries(es: seq<Entry>): (r: bytes)
    requires forall e <- es :: |e.key| < U32 && Sized(e.value)
  {
    if es == [] then [] else PackStr(es[0].key) + (Pack(es[0].value) + PackEntries(es[1..]))
  }

  // ----- Reading the first token back -----

  datatype Token =
    | TNull
    | TBool(b: bool)
    | TInt(i: int)
    | TFloat
    | TStr(n: nat)
    | TList(n: nat)
    | TDict(n: nat)

  predicate SizedToken(t: Token) {
    match t
    case TInt(i) => -I63 <= i < U64
    case TStr(n) => n < U32
    case TList(n) => n < U32
    case TDict(n) => n < U32
    case _ => true
  }

  function Head(t: Token): (r: bytes)
    requires SizedToken(t)
  {
    match t
    case TNull => [0xC0]
    case TBool(b) => [if b then 0xC3 else 0xC2]
    case TInt(i) => PackInt(i)
    case TFloat => [0xCB]
    case TStr(n) => StrHead(n)
    case TList(n) => ListHead(n)
    case TDict(n) => DictHead(n)
  }

  /** How many bytes of number follow a tag. */
  function Width(tag: byte): (k: nat) {
    if tag in {0xCC, 0xD0, 0xD9} then 1
    else if tag in {0xCD, 0xD1, 0xDA, 0xDC, 0xDE} then 2
    else if tag in {0xCE, 0xD2, 0xDB, 0xDD, 0xDF} then 4
    else if tag in {0xCF, 0xD3} then 8
    else 0
  }

  /** The token a tag and its number stand for. */
  function TokenOf(tag: byte, n: nat): (t: Token) {
    if tag < 0x80 then TInt(tag)
    else if tag < 0x90 then TDict(tag - 0x80)
    else if tag < 0xA0 then TList(tag - 0x90)
    else if tag < 0xC0 then TStr(tag - 0xA0)
    else if tag >= 0xE0 then TInt(tag - 0x100)
    else if tag == 0xC0 then TNull
    else if tag == 0xC2 || tag == 0xC3 then TBool(tag == 0xC3)
    else if tag == 0xCB then TFloat
    else if 0xCC <= tag <= 0xCF then TInt(n)
    else if tag == 0xD0 then TInt(n - 0x100)
    else if tag == 0xD1 then TInt(n - 0x1_0000)
    else if tag == 0xD2 then TInt(n - U32)
    else if tag == 0xD3 then TInt(n - U64)
    else if 0xD9 <= tag <= 0xDB then TStr(n)
    else if tag == 0xDC || tag == 0xDD then TList(n)
    else TDict(n)
  }

  lemma FitsWidth(n: nat, k: nat)
    requires (k == 1 && n < 0x100) || (k == 2 && n < 0x1_0000) || (k == 4 && n < U32) || (k == 8 && n < U64)
    ensures Fits(n, k)
  {
    if k == 8 {
      FitsEight(n);
    } else if k == 4 {
      var a := n / 256;
      var b := a / 256;
      var c := b / 256;
      assert c / 256 == 0;
      assert Fits(c, 1) && Fits(a, 3);
    } else if k == 2 {
      assert n / 256 / 256 == 0;
      assert Fits(n / 256, 1);
    }
  }

  /** A head is a tag and a number of the width the tag announces. */
  lemma HeadShape(t: Token) returns (tag: byte, n: nat)
    requires SizedToken(t)
    ensures Head(t) == [tag] + BigEndian(n, Width(tag)) && Fits(n, Width(tag)) && TokenOf(tag, n) == t
  {
    hide BigEndian, Fits;
    NoWidth();
    match t
    case TNull => tag, n := 0xC0, 0;
    case TBool(b) => tag, n := if b then 0xC3 else 0xC2, 0;
    case TFloat => tag, n := 0xCB, 0;
    case TInt(i) => tag, n := IntShape(i);
    case TStr(m) =>
      if m < 0x20 { tag, n := 0xA0 + m, 0; }
      else if m < 0x100 { tag, n := 0xD9, m; FitsWidth(m, 1); }
      else if m < 0x1_0000 { tag, n := 0xDA, m; FitsWidth(m, 2); }
      else { tag, n := 0xDB, m; FitsWidth(m, 4); }
    case TList(m) =>
      if m < 0x10 { tag, n := 0x90 + m, 0; }
      else if m < 0x1_0000 { tag, n := 0xDC, m; FitsWidth(m, 2); }
      else { tag, n := 0xDD, m; FitsWidth(m, 4); }
    case TDict(m) =>
      if m < 0x10 { tag, n := 0x80 + m, 0; }
      else if m < 0x1_0000 { tag, n := 0xDE, m; FitsWidth(m, 2); }
      else { tag, n := 0xDF, m; FitsWidth(m, 4); }
  }

  lemma NoWidth()
    ensures BigEndian(0, 0) == [] && Fits(0, 0)
  {
  }

  lemma IntShape(i: int) returns (tag: byte, n: nat)
    requires -I63 <= i < U64
    ensures PackInt(i) == [tag] + BigEndian(n, Width(tag)) && Fits(n, Width(tag)) && TokenOf(tag, n) == TInt(i)
  {
    hide BigEndian, Fits;
    NoWidth();
    if 0 <= i < 0x80 { tag, n := i, 0; }
    else if -0x20 <= i < 0 { tag, n := 0x100 + i, 0; }
    else if 0x80 <= i < 0x100 { tag, n := 0xCC, i; FitsWidth(n, 1); }
    else if -0x80 <= i < 0 { tag, n := 0xD0, 0x100 + i; FitsWidth(n, 1); }
    else if 0 <= i < 0x1_0000 { tag, n := 0xCD, i; FitsWidth(n, 2); }
    else if -0x8000 <= i < 0 { tag, n := 0xD1, 0x1_0000 + i; FitsWidth(n, 2); }
    else if 0 <= i < U32 { tag, n := 0xCE, i; FitsWidth(n, 4); }
    else if -0x8000_0000 <= i < 0 { tag, n := 0xD2, U32 + i; FitsWidth(n, 4); }
    else if 0 <= i { tag, n := 0xCF, i; FitsWidth(n, 8); }
    else { tag, n := 0xD3, U64 + i; FitsWidth(n, 8); }
  }

  /** The first token of a byte string is never in doubt. */
  lemma HeadSplit(t: Token, u: Token, x: bytes, y: bytes)
    requires SizedToken(t) && SizedToken(u) && Head(t) + x == Head(u) + y
    ensures t == u && x == y
  {
    hide BigEndian, Fits, Head, TokenOf, Width;
    var tag, n := HeadShape(t);
    var tag', m := HeadShape(u);
    var k, k' := Width(tag), Width(tag');
    assert Head(t) + x == [tag] + (BigEndian(n, k) + x);
    assert Head(u) + y == [tag'] + (BigEndian(m, k') + y);
    SplitEqual([tag], [tag'], BigEndian(n, k) + x, BigEndian(m, k') + y);
    assert tag == [tag][0] == [tag'][0] == tag';
    SplitEqual(BigEndian(n, k), BigEndian(m, k), x, y);
    NumberOfBigEndian(n, k);
    NumberOfBigEndian(m, k);
  }

  // ----- Whole values -----

  function First(v: Json): (t: Token) {
    match v
    case Null => TNull
    case Bool(b) => TBool(b)
    case Int(i) => TInt(i)
    case Float(_) => TFloat
    case Str(s) => TStr(|s|)
    case List(items) => TList(|items|)
    case Dict(entries) => TDict(|entries|)
  }

  /** What follows the head. */
  function Body(v: Json): (r: bytes)
    requires Sized(v)
  {
    match v
    case Float(bits) => bits
    case Str(s) => s
    case List(items) => PackAll(items)
    case Dict(entries) => PackEntries(entries)
    case _ => []
  }

  lemma PackIsHeadAndBody(v: Json)
    requires Sized(v)
    ensures SizedToken(First(v)) && Pack(v) == Head(First(v)) + Body(v)
  {
    hide PackInt, StrHead, ListHead, DictHead, PackAll, PackEntries;
  }

  /**
   MessagePack is prefix free: whatever follows it, an encoded value is read back in one
   way only.
   */
  lemma {:induction false} PackSplit(v: Json, w: Json, x: bytes, y: bytes)
    requires Sized(v) && Sized(w) && Pack(v) + x == Pack(w) + y
    ensures v == w && x == y
    decreases v, 0
  {
    hide Pack, Head, PackAll, PackEntries;
    PackIsHeadAndBody(v);
    PackIsHeadAndBody(w);
    assert Pack(v) + x == Head(First(v)) + (Body(v) + x);
    assert Pack(w) + y == Head(First(w)) + (Body(w) + y);
    HeadSplit(First(v), First(w), Body(v) + x, Body(w) + y);
    match v
    case Float(bits) => SplitEqual(bits, w.bits, x, y);
    case Str(s) => SplitEqual(s, w.s, x, y);
    case List(items) => PackAllSplit(items, w.items, x, y);
    case Dict(entries) => PackEntriesSplit(entries, w.entries, x, y);
    case _ => assert Body(v) + x == x && Body(w) + y == y;
  }

  lemma {:induction false} PackAllSplit(vs: seq<Json>, ws: seq<Json>, x: bytes, y: bytes)
    requires (forall v <- vs :: Sized(v)) && (forall w <- ws :: Sized(w))
    requires |vs| == |ws| && PackAll(vs) + x == PackAll(ws) + y
    ensures vs == ws && x == y
    decreases vs, 1
  {
    hide Pack, Sized;
    if vs == [] {
      assert PackAll(vs) + x == x && PackAll(ws) + y == y;
    } else {
      assert PackAll(vs) + x == Pack(vs[0]) + (PackAll(vs[1..]) + x);
      assert PackAll(ws) + y == Pack(ws[0]) + (PackAll(ws[1..]) + y);
      PackSplit(vs[0], ws[0], PackAll(vs[1..]) + x, PackAll(ws[1..]) + y);
      PackAllSplit(vs[1..], ws[1..], x, y);
      assert vs == [vs[0]] + vs[1..] && ws == [ws[0]] + ws[1..];
    }
  }

  lemma PackStrSplit(s: bytes, t: bytes, x: bytes, y: bytes)
    requires |s| < U32 && |t| < U32 && PackStr(s) + x == PackStr(t) + y
    ensures s == t && x == y
  {
    hide StrHead;
    assert PackStr(s) + x == Head(TStr(|s|)) + (s + x);
    assert PackStr(t) + y == Head(TStr(|t|)) + (t + y);
    HeadSplit(TStr(|s|), TStr(|t|), s + x, t + y);
    SplitEqual(s, t, x, y);
  }

  lemma {:induction false} PackEntriesSplit(es: seq<Entry>, fs: seq<Entry>, x: bytes, y: bytes)
    requires (forall e <- es :: |e.key| < U32 && Sized(e.value)) && (forall f <- fs :: |f.key| < U32 && Sized(f.value))
    requires |es| == |fs| && PackEntries(es) + x == PackEntries(fs) + y
    ensures es == fs && x == y
    decreases es, 1
  {
    hide Pack, Sized, PackStr;
    if es == [] {
      assert PackEntries(es) + x == x && PackEntries(fs) + y == y;
    } else {
      var e, f := es[0], fs[0];
      var x', y' := PackEntries(es[1..]) + x, PackEntries(fs[1..]) + y;
      assert PackEntries(es) + x == PackStr(e.key) + (Pack(e.value) + x');
      assert PackEntries(fs) + y == PackStr(f.key) + (Pack(f.value) + y');
      PackStrSplit(e.key, f.key, Pack(e.value) + x', Pack(f.value) + y');
      PackSplit(e.value, f.value, x', y');
      PackEntriesSplit(es[1..], fs[1..], x, y);
      assert es == [e] + es[1..] && fs == [f] + fs[1..];
    }
  }
}
