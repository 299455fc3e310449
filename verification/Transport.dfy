/**
 Newline framing and chunked messages of the daemon's socket protocol, as functions
 of the byte stream. `Channel` holds the loops that compute them from buffer fills.
 */
module Transport {
  import opened Bytes
  import opened Envelope
  import Base64

  const MAX_FRAME: nat := 4 * 1024 * 1024
  const MAX_MESSAGE: nat := 64 * 1024 * 1024
  const CHUNK: nat := 2 * 1024 * 1024

  /** How the receiver decides that a frame is a chunk envelope. */
  type Parser = bytes -> Option<Chunk>

  /**
   All that is asked of the receiver's JSON parser: it reads the daemon's own output,
   sequence numbers are 32 bits wide, and a string is at least its two quotes
   shorter than the document it came from.
   */
  ghost predicate ReadsPrinted(parse: Parser) {
    && (forall c: Chunk | Printable(c) :: parse(Print(c)) == Some(c))
    && (forall s: bytes :: parse(s).Some? ==> parse(s).value.sequence < U32_LIMIT && |parse(s).value.text| + 2 <= |s|)
  }

  lemma FixedShapeReadsPrinted()
    ensures ReadsPrinted(ParseEnvelope)
  {
    forall c: Chunk | Printable(c) ensures ParseEnvelope(Print(c)) == Some(c) {
      ParsePrinted(c);
    }
    forall s: bytes | ParseEnvelope(s).Some?
      ensures ParseEnvelope(s).value.sequence < U32_LIMIT && |ParseEnvelope(s).value.text| + 2 <= |s|
    {
      PrintParsed(s);
      PrintedLength(ParseEnvelope(s).value);
    }
  }

  // ---- frames

  datatype FrameResult = EndOfStream | Oversized | Frame(payload: bytes, rest: bytes)

  function LineEnd(s: bytes): (k: nat)
    ensures k <= |s| && OneLine(s[..k])
    ensures k < |s| ==> s[k] == NEWLINE
  {
    if s == [] || s[0] == NEWLINE then 0 else
      var k := LineEnd(s[1..]);
      assert s[..k + 1] == [s[0]] + s[1..][..k];
      k + 1
  }

  function ReadFrame(s: bytes): (r: FrameResult)
    ensures r.Frame? ==> |r.payload| <= MAX_FRAME && |r.payload| + |r.rest| <= |s| && |r.rest| < |s|
  {
    var k := LineEnd(s);
    if s == [] then EndOfStream
    else if k > MAX_FRAME then Oversized
    else Frame(s[..k], if k < |s| then s[k + 1..] else [])
  }

  lemma {:induction false} LineEndAppend(a: bytes, b: bytes)
    requires OneLine(a)
    ensures LineEnd(a + b) == |a| + LineEnd(b)
  {
    if a == [] {
      assert a + b == b;
    } else {
      assert (a + b)[1..] == a[1..] + b;
      LineEndAppend(a[1..], b);
    }
  }

  lemma ReadTerminated(line: bytes, rest: bytes)
    requires OneLine(line) && |line| <= MAX_FRAME
    ensures ReadFrame(line + [NEWLINE] + rest) == Frame(line, rest)
  {
    var s := line + [NEWLINE] + rest;
    assert s == line + ([NEWLINE] + rest);
    LineEndAppend(line, [NEWLINE] + rest);
    assert s[..|line|] == line && s[|line| + 1..] == rest;
  }

  // ---- messages

  datatype Failure =
    | FrameTooLarge | NotContiguous | BadBase64 | MessageTooLarge | SequenceOverflow | UnexpectedEof | BadEnvelope

  datatype MessageResult = End | Failed(why: Failure) | Message(payload: bytes, rest: bytes)

  /** The reassembly loop, entered with the envelope `c` just parsed. */
  function ReadChunks(parse: Parser, c: Chunk, expected: nat, acc: bytes, s: bytes): (r: MessageResult)
    ensures !r.End?
    ensures r.Message? ==> |r.rest| <= |s|
    decreases |s|
  {
    if c.sequence != expected then Failed(NotContiguous) else
    match Base64.Decode(c.text)
    case None => Failed(BadBase64)
    case Some(b) =>
      if |acc| + |b| > MAX_MESSAGE then Failed(MessageTooLarge)
      else if c.last then Message(acc + b, s)
      else if expected + 1 >= U32_LIMIT then Failed(SequenceOverflow)
      else
        match ReadFrame(s)
        case EndOfStream => Failed(UnexpectedEof)
        case Oversized => Failed(FrameTooLarge)
        case Frame(p, rest) =>
          match parse(p)
          case None => Failed(BadEnvelope)
          case Some(next) => ReadChunks(parse, next, expected + 1, acc + b, rest)
  }

  function ReadMessage(parse: Parser, s: bytes): (r: MessageResult)
    ensures r.End? <==> s == []
    ensures r.Message? ==> |r.rest| < |s|
  {
    match ReadFrame(s)
    case EndOfStream => End
    case Oversized => Failed(FrameTooLarge)
    case Frame(p, rest) =>
      match parse(p)
      case None => Message(p, rest)
      case Some(c) => ReadChunks(parse, c, 0, [], rest)
  }

  datatype Session = Session(messages: seq<bytes>, ending: MessageResult)

  /** Reading message after message until the stream ends or a read fails. */
  function ReadAll(parse: Parser, s: bytes): (r: Session)
    decreases |s|
  {
    match ReadMessage(parse, s)
    case Message(m, rest) =>
      var tail := ReadAll(parse, rest);
      Session([m] + tail.messages, tail.ending)
    case other => Session([], other)
  }

  // ---- what the writer puts on the wire

  function EnvelopeFor(chunk: bytes, sequence: nat, last: bool): (c: Chunk)
  {
    Chunk(sequence % U32_LIMIT, last, Base64.Encode(chunk))
  }

  function Envelopes(chunks: seq<bytes>, sequence: nat): (s: bytes)
  {
    if chunks == [] then [] else
      Print(EnvelopeFor(chunks[0], sequence, |chunks| == 1)) + [NEWLINE] + Envelopes(chunks[1..], sequence + 1)
  }

  function Wire(m: bytes): (s: Option<bytes>)
  {
    if |m| > MAX_MESSAGE then None
    else if |m| <= MAX_FRAME then Some(m + [NEWLINE])
    else Some(Envelopes(Chunks(m, CHUNK), 0))
  }

  function WireAll(ms: seq<bytes>): (s: bytes)
    requires forall i :: 0 <= i < |ms| ==> |ms[i]| <= MAX_MESSAGE
  {
    if ms == [] then [] else Wire(ms[0]).value + WireAll(ms[1..])
  }

  /** The messages that survive the trip; see `RoundTripsExactly`. */
  predicate Sendable(parse: Parser, m: bytes) {
    |m| <= MAX_MESSAGE && (|m| <= MAX_FRAME ==> OneLine(m) && parse(m).None?)
  }

  // ---- round trip

  lemma EnvelopeFits(chunk: bytes, sequence: nat, last: bool)
    requires |chunk| <= CHUNK && sequence < 100
    ensures var c := EnvelopeFor(chunk, sequence, last);
            Printable(c) && c.sequence == sequence && OneLine(Print(c)) && |Print(c)| <= MAX_FRAME
  {
    var c := EnvelopeFor(chunk, sequence, last);
    assert Plain(c.text) by {
      forall i | 0 <= i < |c.text| ensures IsPlain(c.text[i]) {
        assert Base64.IsSymbol(c.text[i]) || c.text[i] == Base64.PAD;
      }
    }
    PrintedIsOneLine(c);
    DecimalLength(sequence);
    PrintedLength(c);
  }

  lemma ChunkCount(m: bytes)
    requires |m| <= MAX_MESSAGE
    ensures |Chunks(m, CHUNK)| <= 32
    ensures |m| > MAX_FRAME ==> Chunks(m, CHUNK) != []
  {
  }

  /** Every frame of a chunked message fits, and no sequence number is truncated. */
  lemma FramesFit(m: bytes, i: nat)
    requires |m| <= MAX_MESSAGE && i < |Chunks(m, CHUNK)|
    ensures var c := EnvelopeFor(Chunks(m, CHUNK)[i], i, i + 1 == |Chunks(m, CHUNK)|);
            c.sequence == i < 32 && |Print(c)| <= 4_194_304 && OneLine(Print(c))
    ensures |Chunks(m, CHUNK)| == (|m| + 2_097_151) / 2_097_152
  {
    ChunkCount(m);
    EnvelopeFits(Chunks(m, CHUNK)[i], i, i + 1 == |Chunks(m, CHUNK)|);
  }

  predicate Fitting(chunks: seq<bytes>, sequence: nat) {
    sequence + |chunks| <= 99 && forall i :: 0 <= i < |chunks| ==> |chunks[i]| <= CHUNK
  }

  lemma ReadFirstEnvelope(chunks: seq<bytes>, k: nat, rest: bytes)
    requires chunks != [] && Fitting(chunks, k)
    ensures ReadFrame(Envelopes(chunks, k) + rest)
         == Frame(Print(EnvelopeFor(chunks[0], k, |chunks| == 1)), Envelopes(chunks[1..], k + 1) + rest)
  {
    hide Print, ReadFrame, EnvelopeFor;
    var line := Print(EnvelopeFor(chunks[0], k, |chunks| == 1));
    var tail := Envelopes(chunks[1..], k + 1);
    EnvelopeFits(chunks[0], k, |chunks| == 1);
    ReadTerminated(line, tail + rest);
    assert Envelopes(chunks, k) + rest == line + [NEWLINE] + (tail + rest);
  }

  /** One turn of the reassembly loop, on a chunk that arrives intact. */
  lemma ReadOneChunk(parse: Parser, c: Chunk, b: bytes, acc: bytes, s: bytes, line: bytes, next: Chunk, rest: bytes)
    requires Base64.Decode(c.text) == Some(b) && |acc| + |b| <= MAX_MESSAGE && c.sequence + 1 < U32_LIMIT
    ensures c.last ==> ReadChunks(parse, c, c.sequence, acc, s) == Message(acc + b, s)
    ensures !c.last && ReadFrame(s) == Frame(line, rest) && parse(line) == Some(next) ==>
      ReadChunks(parse, c, c.sequence, acc, s) == ReadChunks(parse, next, c.sequence + 1, acc + b, rest)
  {
    hide Base64.Decode, ReadFrame;
  }

  lemma ParsesEnvelope(parse: Parser, chunk: bytes, k: nat, last: bool)
    requires ReadsPrinted(parse) && |chunk| <= CHUNK && k < 99
    ensures var c := EnvelopeFor(chunk, k, last);
            c.sequence == k && c.last == last && parse(Print(c)) == Some(c) && Base64.Decode(c.text) == Some(chunk)
  {
    EnvelopeFits(chunk, k, last);
    Base64.DecodeEncode(chunk);
  }

  lemma {:induction false} ReadEnvelopes(parse: Parser, chunks: seq<bytes>, k: nat, acc: bytes, rest: bytes)
    requires ReadsPrinted(parse)
    requires chunks != [] && Fitting(chunks, k)
    requires |acc| + |Flatten(chunks)| <= MAX_MESSAGE
    ensures ReadChunks(parse, EnvelopeFor(chunks[0], k, |chunks| == 1), k, acc, Envelopes(chunks[1..], k + 1) + rest)
         == Message(acc + Flatten(chunks), rest)
  {
    hide Print, ReadFrame, ReadChunks, Base64.Decode, Base64.Encode, EnvelopeFor, ReadsPrinted, Envelopes, Fitting, Flatten;
    FirstChunk(chunks, k);
    var c := EnvelopeFor(chunks[0], k, |chunks| == 1);
    var tail := chunks[1..];
    var s := Envelopes(tail, k + 1) + rest;
    ParsesEnvelope(parse, chunks[0], k, |chunks| == 1);
    if tail == [] {
      NoEnvelopes(k + 1, rest);
      ReadOneChunk(parse, c, chunks[0], acc, s, [], c, rest);
    } else {
      FirstChunk(tail, k + 1);
      ParsesEnvelope(parse, tail[0], k + 1, |tail| == 1);
      ReadFirstEnvelope(tail, k + 1, rest);
      var next := EnvelopeFor(tail[0], k + 1, |tail| == 1);
      ReadOneChunk(parse, c, chunks[0], acc, s, Print(next), next, Envelopes(tail[1..], k + 2) + rest);
      ReadEnvelopes(parse, tail, k + 1, acc + chunks[0], rest);
      assert (acc + chunks[0]) + Flatten(tail) == acc + Flatten(chunks);
    }
  }

  lemma FirstChunk(chunks: seq<bytes>, k: nat)
    requires chunks != [] && Fitting(chunks, k)
    ensures |chunks[0]| <= CHUNK && k < 99 && Fitting(chunks[1..], k + 1)
    ensures Flatten(chunks) == chunks[0] + Flatten(chunks[1..])
    ensures |chunks| == 1 ==> Flatten(chunks) == chunks[0]
  {
  }

  lemma NoEnvelopes(k: nat, rest: bytes)
    ensures Envelopes([], k) + rest == rest
  {
  }

  lemma ChunkedRoundTrip(parse: Parser, m: bytes, rest: bytes)
    requires ReadsPrinted(parse) && MAX_FRAME < |m| <= MAX_MESSAGE
    ensures ReadMessage(parse, Wire(m).value + rest) == Message(m, rest)
  {
    hide Print, ReadFrame, ReadChunks, Base64.Decode, Base64.Encode, ReadsPrinted, Chunks;
    var chunks := Chunks(m, CHUNK);
    ChunkCount(m);
    ReadFirstEnvelope(chunks, 0, rest);
    ParsesEnvelope(parse, chunks[0], 0, |chunks| == 1);
    ReadEnvelopes(parse, chunks, 0, [], rest);
    assert [] + m == m;
  }

  /** One message, whatever follows it on the stream. */
  lemma RoundTrip(parse: Parser, m: bytes, rest: bytes)
    requires ReadsPrinted(parse) && Sendable(parse, m)
    ensures ReadMessage(parse, Wire(m).value + rest) == Message(m, rest)
  {
    if |m| <= MAX_FRAME {
      ReadTerminated(m, rest);
    } else {
      ChunkedRoundTrip(parse, m, rest);
    }
  }

  lemma EmptyStream(parse: Parser)
    ensures ReadAll(parse, []) == Session([], End)
  {
  }

  predicate AllSendable(parse: Parser, ms: seq<bytes>) {
    forall i :: 0 <= i < |ms| ==> Sendable(parse, ms[i])
  }

  /** Any list of sendable messages is read back in order, and then the stream ends. */
  lemma {:induction false} RoundTripAll(parse: Parser, ms: seq<bytes>)
    requires ReadsPrinted(parse) && AllSendable(parse, ms)
    ensures ReadAll(parse, WireAll(ms)) == Session(ms, End)
  {
    hide ReadMessage, Wire, ReadsPrinted;
    if ms == [] {
      EmptyStream(parse);
    } else {
      RoundTrip(parse, ms[0], WireAll(ms[1..]));
      RoundTripAll(parse, ms[1..]);
      assert ms == [ms[0]] + ms[1..];
    }
  }

  // ---- the condition is exact

  lemma {:induction false} ReassemblyShrinks(parse: Parser, c: Chunk, k: nat, acc: bytes, s: bytes)
    requires ReadsPrinted(parse)
    ensures var r := ReadChunks(parse, c, k, acc, s);
            r.Message? ==> |r.payload| + |r.rest| <= |acc| + |c.text| + |s|
    decreases |s|
  {
    hide Base64.Decode, ReadFrame;
    if Base64.Decode(c.text).Some? {
      Base64.DecodedShorter(c.text);
      var f := ReadFrame(s);
      if f.Frame? && parse(f.payload).Some? {
        ReassemblyShrinks(parse, parse(f.payload).value, k + 1, acc + Base64.Decode(c.text).value, f.rest);
      }
    }
  }

  /** A short message with a newline, or one that reads as an envelope, comes back as something else. */
  lemma UnsendableIsLost(parse: Parser, m: bytes)
    requires ReadsPrinted(parse) && |m| <= MAX_MESSAGE && !Sendable(parse, m)
    ensures ReadMessage(parse, Wire(m).value) != Message(m, [])
  {
    var s := m + [NEWLINE];
    var f := ReadFrame(s);
    if f.Frame? {
      match parse(f.payload)
      case None => assert OneLine(f.payload);
      case Some(c) => ReassemblyShrinks(parse, c, 0, [], f.rest);
    }
  }

  /** A message is written exactly up to 64 MiB, and comes back exactly if it is over 4 MiB or a line that is no envelope. */
  lemma RoundTripsExactly(parse: Parser, m: bytes)
    requires ReadsPrinted(parse)
    ensures Wire(m).Some? <==> |m| <= 67_108_864
    ensures Wire(m).Some? ==>
      (|m| > 4_194_304 || (OneLine(m) && parse(m).None?) <==> forall rest: bytes :: ReadMessage(parse, Wire(m).value + rest) == Message(m, rest))
  {
    if |m| > MAX_MESSAGE {
      return;
    }
    if Sendable(parse, m) {
      forall rest: bytes ensures ReadMessage(parse, Wire(m).value + rest) == Message(m, rest) {
        RoundTrip(parse, m, rest);
      }
    } else {
      UnsendableIsLost(parse, m);
      assert Wire(m).value + [] == Wire(m).value;
    }
  }

  // ---- bounded look-ahead: the readers decide even on an endless stream

  function Outcome(r: MessageResult): (o: MessageResult)
  {
    match r case Message(m, _) => Message(m, []) case other => other
  }

  lemma {:induction false} LineEndExtend(s: bytes, t: bytes)
    ensures LineEnd(s) < |s| ==> LineEnd(s + t) == LineEnd(s)
    ensures LineEnd(s) == |s| ==> LineEnd(s + t) == |s| + LineEnd(t)
  {
    if s == [] {
      assert s + t == t;
    } else {
      assert (s + t)[1..] == s[1..] + t;
      LineEndExtend(s[1..], t);
    }
  }

  lemma FrameLookahead(s: bytes, t: bytes)
    requires |s| > MAX_FRAME
    ensures var f, g := ReadFrame(s), ReadFrame(s + t);
            || (f.Oversized? && g.Oversized?)
            || (f.Frame? && g == Frame(f.payload, f.rest + t) && |f.rest| >= |s| - MAX_FRAME - 1)
  {
    LineEndExtend(s, t);
    var k := LineEnd(s);
    if k <= MAX_FRAME {
      assert (s + t)[..k] == s[..k] && (s + t)[k + 1..] == s[k + 1..] + t;
    }
  }

  /** Bytes that decide a message whose next expected sequence number is `k`. */
  function Horizon(k: nat): (n: nat)
  {
    if k >= U32_LIMIT then 0 else (U32_LIMIT - k) * (MAX_FRAME + 1)
  }

  lemma HorizonStep(k: nat)
    requires k + 1 < U32_LIMIT
    ensures Horizon(k) == Horizon(k + 1) + MAX_FRAME + 1
    ensures Horizon(k + 1) > MAX_FRAME
  {
  }

  lemma {:induction false} ChunksLookahead(parse: Parser, c: Chunk, k: nat, acc: bytes, s: bytes, t: bytes)
    requires k < U32_LIMIT && |s| >= Horizon(k)
    ensures Outcome(ReadChunks(parse, c, k, acc, s + t)) == Outcome(ReadChunks(parse, c, k, acc, s))
    decreases |s|
  {
    hide ReadFrame, Base64.Decode, Horizon;
    if k + 1 < U32_LIMIT && Base64.Decode(c.text).Some? {
      var b := Base64.Decode(c.text).value;
      HorizonStep(k);
      FrameLookahead(s, t);
      var f := ReadFrame(s);
      if f.Frame? && parse(f.payload).Some? {
        var next := parse(f.payload).value;
        ChunksLookahead(parse, next, k + 1, acc + b, f.rest, t);
        if c.sequence == k && |acc| + |b| <= MAX_MESSAGE {
          ReadOneChunk(parse, c, b, acc, s, f.payload, next, f.rest);
          ReadOneChunk(parse, c, b, acc, s + t, f.payload, next, f.rest + t);
        }
      }
    }
  }

  /**
   The 32-bit sequence check bounds how far a read can look: once `2^32 + 1` maximal
   frames are there, nothing that follows, however long, changes the outcome.
   */
  lemma BoundedLookahead(parse: Parser, s: bytes, t: bytes)
    requires |s| >= Horizon(0) + MAX_FRAME + 1
    ensures Outcome(ReadMessage(parse, s + t)) == Outcome(ReadMessage(parse, s))
  {
    FrameLookahead(s, t);
    var f := ReadFrame(s);
    if f.Frame? && parse(f.payload).Some? {
      ChunksLookahead(parse, parse(f.payload).value, 0, [], f.rest, t);
    }
  }

  // ---- what an accepted message was made of

  function Decoded(cs: seq<Chunk>): (b: bytes)
    requires forall i :: 0 <= i < |cs| ==> Base64.Decode(cs[i].text).Some?
  {
    if cs == [] then [] else Base64.Decode(cs[0].text).value + Decoded(cs[1..])
  }

  /** Chunks numbered consecutively from `k`, all decodable, with the final mark on the last one only. */
  predicate InOrder(cs: seq<Chunk>, k: nat) {
    && cs != []
    && (forall i :: 0 <= i < |cs| ==> Base64.Decode(cs[i].text).Some?)
    && (forall i :: 0 <= i < |cs| ==> cs[i].sequence == k + i)
    && (forall i :: 0 <= i < |cs| ==> (cs[i].last <==> i == |cs| - 1))
  }

  /** A reassembled message is exactly the payloads of chunks `k, k + 1, ...` up to the final one. */
  lemma {:induction false} AcceptedInOrder(parse: Parser, c: Chunk, k: nat, acc: bytes, s: bytes) returns (cs: seq<Chunk>)
    requires ReadChunks(parse, c, k, acc, s).Message?
    ensures InOrder(cs, k) && cs[0] == c
    ensures ReadChunks(parse, c, k, acc, s).payload == acc + Decoded(cs)
    ensures |ReadChunks(parse, c, k, acc, s).payload| <= MAX_MESSAGE
    decreases |s|
  {
    hide Base64.Decode, ReadFrame;
    var b := Base64.Decode(c.text).value;
    if c.last {
      cs := [c];
      assert Decoded(cs[1..]) == [] && Decoded(cs) == b;
    } else {
      var f := ReadFrame(s);
      var tail := AcceptedInOrder(parse, parse(f.payload).value, k + 1, acc + b, f.rest);
      cs := [c] + tail;
      assert cs[1..] == tail;
      assert (acc + b) + Decoded(tail) == acc + Decoded(cs);
    }
  }
}
