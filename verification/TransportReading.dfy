/**
 What a read of the transport comes to, on any bytes at all: the envelopes it goes through, each
 told by the one before, and the one result that the last of them calls for.
 */
module TransportReading {
  import opened Bytes
  import opened Envelope
  import opened Transport
  import Base64

  /** `line` is the first line of `s`, ended by a newline or by the end of the stream. */
  predicate FirstLine(s: bytes, line: bytes, rest: bytes) {
    s != [] && 10 !in line && (s == line + [10] + rest || (s == line && rest == []))
  }

  lemma {:induction false} LineEndExactly(s: bytes)
    ensures 10 !in s[..LineEnd(s)] && (LineEnd(s) < |s| ==> s[LineEnd(s)] == 10)
  {
    if s != [] && s[0] != NEWLINE {
      LineEndExactly(s[1..]);
      assert s[..LineEnd(s)] == [s[0]] + s[1..][..LineEnd(s) - 1];
    }
  }

  lemma LineEndUnique(s: bytes, k: nat)
    requires k <= |s| && 10 !in s[..k] && (k < |s| ==> s[k] == 10)
    ensures LineEnd(s) == k
  {
    LineEndExactly(s);
    var n := LineEnd(s);
    assert forall i :: 0 <= i < k ==> s[..k][i] == s[i] != 10;
    assert forall i :: 0 <= i < n ==> s[..n][i] == s[i] != 10;
  }

  lemma FirstLineSlices(s: bytes, line: bytes, rest: bytes)
    requires FirstLine(s, line, rest)
    ensures |line| <= |s| && s[..|line|] == line
    ensures if |line| < |s| then s[|line|] == 10 && s[|line| + 1..] == rest else rest == []
  {
  }

  lemma FirstLineIs(s: bytes, line: bytes, rest: bytes)
    ensures FirstLine(s, line, rest) <==>
      s != [] && line == s[..LineEnd(s)] && rest == if LineEnd(s) < |s| then s[LineEnd(s) + 1..] else []
  {
    hide LineEnd;
    LineEndExactly(s);
    var k := LineEnd(s);
    if FirstLine(s, line, rest) {
      FirstLineSlices(s, line, rest);
      LineEndUnique(s, |line|);
    }
    if k < |s| {
      assert s == s[..k] + [s[k]] + s[k + 1..];
    } else {
      assert s[..k] == s;
    }
  }

  /** A frame is the first line, if it has at most 4 MiB; a longer one is refused, and only nothing is the end. */
  lemma ReadFrameExactly(s: bytes, line: bytes, rest: bytes)
    ensures ReadFrame(s) == Frame(line, rest) <==> FirstLine(s, line, rest) && |line| <= 4_194_304
    ensures ReadFrame(s).Oversized? && FirstLine(s, line, rest) ==> |line| > 4_194_304
    ensures ReadFrame(s).EndOfStream? <==> s == []
  {
    FirstLineIs(s, line, rest);
  }

  // ---- going through envelopes

  /** About to judge envelope `c` as number `k`, with `acc` collected before it and `s` after it. */
  datatype Point = Point(c: Chunk, k: nat, acc: bytes, s: bytes)

  /** The envelope has its turn, decodes, and does not make the message longer than 64 MiB. */
  predicate Fits(p: Point) {
    p.c.sequence == p.k && Base64.Decode(p.c.text).Some? && |p.acc| + |Base64.Decode(p.c.text).value| <= 67_108_864
  }

  /** More must follow, and there is a number left for it. */
  predicate GoesOn(p: Point) {
    Fits(p) && !p.c.last && p.k + 1 < 4_294_967_296
  }

  predicate Next(parse: Parser, p: Point, line: bytes, q: Point) {
    && GoesOn(p) && FirstLine(p.s, line, q.s) && |line| <= 4_194_304 && parse(line) == Some(q.c)
    && q.k == p.k + 1 && q.acc == p.acc + Base64.Decode(p.c.text).value
  }

  ghost predicate Leads(parse: Parser, p: Point, q: Point) {
    exists line :: Next(parse, p, line, q)
  }

  ghost predicate Trail(parse: Parser, ps: seq<Point>) {
    ps != [] && forall i :: 0 <= i < |ps| - 1 ==> Leads(parse, ps[i], ps[i + 1])
  }

  /** The line after the envelope is too long, or no envelope. */
  ghost predicate Follows(p: Point, line: bytes) {
    exists rest :: FirstLine(p.s, line, rest)
  }

  /** What an envelope at this point calls for; one line a result. */
  ghost predicate CallsFor(parse: Parser, p: Point, r: MessageResult) {
    match r
    case End => false
    case Message(m, rest) => Fits(p) && p.c.last && m == p.acc + Base64.Decode(p.c.text).value && rest == p.s
    case Failed(why) =>
      match why
      case NotContiguous => p.c.sequence != p.k
      case BadBase64 => p.c.sequence == p.k && Base64.Decode(p.c.text).None?
      case MessageTooLarge =>
        p.c.sequence == p.k && Base64.Decode(p.c.text).Some? && |p.acc| + |Base64.Decode(p.c.text).value| > 67_108_864
      case SequenceOverflow => Fits(p) && !p.c.last && p.k + 1 >= 4_294_967_296
      case UnexpectedEof => GoesOn(p) && p.s == []
      case FrameTooLarge => GoesOn(p) && exists line :: Follows(p, line) && |line| > 4_194_304
      case BadEnvelope => GoesOn(p) && exists line :: Follows(p, line) && |line| <= 4_194_304 && parse(line).None?
  }

  lemma LineFollows(p: Point) returns (line: bytes, rest: bytes)
    requires p.s != []
    ensures FirstLine(p.s, line, rest) && Follows(p, line)
    ensures ReadFrame(p.s) == if |line| <= 4_194_304 then Frame(line, rest) else Oversized
  {
    var k := LineEnd(p.s);
    line, rest := p.s[..k], if k < |p.s| then p.s[k + 1..] else [];
    FirstLineIs(p.s, line, rest);
    ReadFrameExactly(p.s, line, rest);
  }

  /** Whatever the bytes, reassembly goes through envelopes that lead on and returns what the last one calls for. */
  lemma {:induction false} ReassemblyExactly(parse: Parser, p: Point) returns (ps: seq<Point>)
    ensures Trail(parse, ps) && ps[0] == p
    ensures CallsFor(parse, ps[|ps| - 1], ReadChunks(parse, p.c, p.k, p.acc, p.s))
    decreases |p.s|
  {
    hide FirstLine, Base64.Decode, ReadFrame, Follows;
    ps := [p];
    if GoesOn(p) && p.s != [] {
      var line, rest := LineFollows(p);
      if |line| <= 4_194_304 && parse(line).Some? {
        var q := Point(parse(line).value, p.k + 1, p.acc + Base64.Decode(p.c.text).value, rest);
        assert Next(parse, p, line, q);
        Shorter(p.s, line, rest);
        var more := ReassemblyExactly(parse, q);
        ps := [p] + more;
        TrailCons(parse, p, more);
      }
    } else if p.s == [] {
      ReadFrameExactly(p.s, [], []);
    }
  }

  lemma Shorter(s: bytes, line: bytes, rest: bytes)
    requires FirstLine(s, line, rest)
    ensures |rest| < |s|
  {
  }

  lemma TrailCons(parse: Parser, p: Point, more: seq<Point>)
    requires Trail(parse, more) && Leads(parse, p, more[0])
    ensures Trail(parse, [p] + more)
  {
    hide Leads;
    var ps := [p] + more;
    forall i | 0 <= i < |ps| - 1 ensures Leads(parse, ps[i], ps[i + 1]) {
      assert i > 0 ==> ps[i] == more[i - 1] && ps[i + 1] == more[i];
    }
  }

  lemma OneLineOnly(s: bytes, a: bytes, x: bytes, b: bytes, y: bytes)
    requires FirstLine(s, a, x) && FirstLine(s, b, y)
    ensures a == b && x == y
  {
    FirstLineIs(s, a, x);
    FirstLineIs(s, b, y);
  }

  /** An envelope calls for one result at most, and for none if it leads on. */
  lemma OneResult(parse: Parser, p: Point, r: MessageResult, r': MessageResult)
    requires CallsFor(parse, p, r) && CallsFor(parse, p, r')
    ensures r == r' && forall q :: !Leads(parse, p, q)
  {
    hide Base64.Decode, FirstLine;
    forall a, x, b, y | FirstLine(p.s, a, x) && FirstLine(p.s, b, y) ensures a == b && x == y {
      OneLineOnly(p.s, a, x, b, y);
    }
    forall a, x | FirstLine(p.s, a, x) ensures p.s != [] {
      Shorter(p.s, a, x);
    }
  }

  /**
   A read ends exactly at the end of the stream, refuses exactly a first line over 4 MiB, returns a
   first line that is no envelope as it is, and otherwise reassembles from number 0 on.
   */
  lemma ReadMessageExactly(parse: Parser, s: bytes, line: bytes, rest: bytes)
    ensures ReadMessage(parse, s) == End <==> s == []
    ensures FirstLine(s, line, rest) ==>
      ReadMessage(parse, s) ==
        if |line| > 4_194_304 then Failed(FrameTooLarge)
        else if parse(line).None? then Message(line, rest)
        else ReadChunks(parse, parse(line).value, 0, [], rest)
  {
    hide FirstLine, ReadFrame;
    ReadFrameExactly(s, line, rest);
    if s != [] {
      var a, x := LineFollows(Point(Chunk(0, true, []), 0, [], s));
      if FirstLine(s, line, rest) {
        OneLineOnly(s, a, x, line, rest);
      }
    } else if FirstLine(s, line, rest) {
      Shorter(s, line, rest);
    }
  }
}
