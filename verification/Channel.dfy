/** The daemon's frame and message loops, over a reader that delivers bytes in arbitrary fills. */
module Channel {
  import opened Bytes
  import opened Envelope
  import opened Transport
  import Base64

  /** A buffered reader: each fill is non-empty, and no fill is left at end of stream. */
  class FillReader {
    var fills: seq<bytes>

    constructor (fills: seq<bytes>)
      requires forall i :: 0 <= i < |fills| ==> fills[i] != []
      ensures Valid() && this.fills == fills
    {
      this.fills := fills;
    }

    ghost predicate Valid()
      reads this
    {
      forall i :: 0 <= i < |fills| ==> fills[i] != []
    }

    /** The bytes still to come, whatever their division into fills. */
    ghost function Remaining(): bytes
      reads this
    {
      Flatten(fills)
    }

    method FillBuf() returns (available: bytes)
      requires Valid()
      ensures available == if fills == [] then [] else fills[0]
      ensures available == [] <==> Remaining() == []
      ensures available != [] ==> Remaining() == available + Flatten(fills[1..])
    {
      available := if fills == [] then [] else fills[0];
    }

    method Consume(n: nat)
      requires Valid() && fills != [] && n <= |fills[0]|
      modifies this
      ensures Valid() && Remaining() == old(Remaining())[n..]
    {
      var left := fills[0][n..];
      ghost var tail := Flatten(fills[1..]);
      assert (fills[0] + tail)[n..] == left + tail;
      if left == [] {
        fills := fills[1..];
        assert left + tail == tail;
      } else {
        fills := [left] + fills[1..];
        assert fills[1..] == old(fills)[1..];
      }
    }
  }

  class Sink {
    var written: bytes

    constructor ()
      ensures written == []
    {
      written := [];
    }

    method WriteAll(b: bytes)
      modifies this
      ensures written == old(written) + b
    {
      written := written + b;
    }
  }

  datatype FrameRead = NoFrame | FrameOversized | GotFrame(payload: bytes)

  ghost predicate FrameAgrees(read: FrameRead, left: bytes, spec: FrameResult) {
    match spec
    case EndOfStream => read.NoFrame? && left == []
    case Oversized => read.FrameOversized?
    case Frame(payload, rest) => read == GotFrame(payload) && left == rest
  }

  // ---- one frame

  lemma FrameAtEnd(frame: bytes)
    requires OneLine(frame) && |frame| <= MAX_FRAME
    ensures ReadFrame(frame) == if frame == [] then EndOfStream else Frame(frame, [])
  {
    LineEndAppend(frame, []);
    assert frame + [] == frame && frame[..|frame|] == frame;
  }

  lemma FrameAtFill(frame: bytes, available: bytes, tail: bytes)
    requires OneLine(frame) && available != []
    ensures var k, s := LineEnd(available), frame + (available + tail);
            && (|frame| + k > MAX_FRAME ==> ReadFrame(s).Oversized?)
            && (|frame| + k <= MAX_FRAME && k < |available| ==>
                  ReadFrame(s) == Frame(frame + available[..k], (available + tail)[k + 1..]))
  {
    hide LineEnd;
    var k, s := LineEnd(available), frame + (available + tail);
    LineEndAppend(frame, available + tail);
    LineEndExtend(available, tail);
    if k < |available| {
      Slices(frame, available, tail, k);
    }
  }

  lemma Slices(a: bytes, b: bytes, c: bytes, k: nat)
    requires k < |b|
    ensures (a + (b + c))[..|a| + k] == a + b[..k]
    ensures (a + (b + c))[|a| + k + 1..] == (b + c)[k + 1..]
  {
  }

  method ReadBoundedFrame(reader: FillReader) returns (read: FrameRead, ghost peak: nat)
    requires reader.Valid()
    modifies reader
    ensures reader.Valid()
    ensures FrameAgrees(read, reader.Remaining(), ReadFrame(old(reader.Remaining())))
    ensures peak <= MAX_FRAME
  {
    hide ReadFrame, LineEnd, Flatten;
    ghost var stream := reader.Remaining();
    var frame: bytes := [];
    peak := 0;
    while true
      invariant reader.Valid()
      invariant stream == frame + reader.Remaining()
      invariant OneLine(frame) && |frame| <= MAX_FRAME && peak <= MAX_FRAME
      decreases |reader.Remaining()|
    {
      ghost var before := reader.Remaining();
      var available := reader.FillBuf();
      if available == [] {
        FrameAtEnd(frame);
        assert stream == frame;
        return if frame == [] then NoFrame else GotFrame(frame), peak;
      }
      FrameAtFill(frame, available, Flatten(reader.fills[1..]));
      var payloadLength := LineEnd(available);
      var newline := payloadLength < |available|;
      if |frame| + payloadLength > MAX_FRAME {
        return FrameOversized, peak;
      }
      frame := frame + available[..payloadLength];
      peak := if |frame| > peak then |frame| else peak;
      reader.Consume(payloadLength + if newline then 1 else 0);
      if newline {
        return GotFrame(frame), peak;
      }
      assert available[..payloadLength] == available;
      assert before == available + before[|available|..];
    }
  }

  // ---- one message

  datatype MessageRead = NoMessage | Broken(why: Failure) | GotMessage(payload: bytes)

  ghost predicate MessageAgrees(read: MessageRead, left: bytes, spec: MessageResult) {
    match spec
    case End => read.NoMessage? && left == []
    case Failed(why) => read == Broken(why)
    case Message(payload, rest) => read == GotMessage(payload) && left == rest
  }

  method ReadIpcMessage(reader: FillReader, parse: Parser)
    returns (read: MessageRead, ghost frames: nat, ghost peak: nat)
    requires reader.Valid()
    modifies reader
    ensures reader.Valid()
    ensures MessageAgrees(read, reader.Remaining(), ReadMessage(parse, old(reader.Remaining())))
    ensures frames <= U32_LIMIT && peak <= MAX_MESSAGE
  {
    hide ReadFrame, Base64.Decode;
    frames, peak := 1, 0;
    var first, firstPeak := ReadBoundedFrame(reader);
    match first {
      case NoFrame => return NoMessage, frames, peak;
      case FrameOversized => return Broken(FrameTooLarge), frames, peak;
      case GotFrame(_) =>
    }
    var parsed := parse(first.payload);
    if parsed.None? {
      return GotMessage(first.payload), frames, peak;
    }
    var envelope := parsed.value;
    var message: bytes := [];
    var expected: nat := 0;
    while true
      invariant reader.Valid()
      invariant expected < U32_LIMIT && frames == expected + 1
      invariant |message| <= MAX_MESSAGE && peak <= MAX_MESSAGE
      invariant ReadMessage(parse, old(reader.Remaining()))
             == ReadChunks(parse, envelope, expected, message, reader.Remaining())
      decreases U32_LIMIT - expected
    {
      if envelope.sequence != expected {
        return Broken(NotContiguous), frames, peak;
      }
      var chunk := Base64.Decode(envelope.text);
      if chunk.None? {
        return Broken(BadBase64), frames, peak;
      }
      if |message| + |chunk.value| > MAX_MESSAGE {
        return Broken(MessageTooLarge), frames, peak;
      }
      message := message + chunk.value;
      peak := if |message| > peak then |message| else peak;
      if envelope.last {
        return GotMessage(message), frames, peak;
      }
      if expected + 1 == U32_LIMIT {
        return Broken(SequenceOverflow), frames, peak;
      }
      expected := expected + 1;
      var next, nextPeak := ReadBoundedFrame(reader);
      frames := frames + 1;
      match next {
        case NoFrame => return Broken(UnexpectedEof), frames, peak;
        case FrameOversized => return Broken(FrameTooLarge), frames, peak;
        case GotFrame(_) =>
      }
      var reopened := parse(next.payload);
      if reopened.None? {
        return Broken(BadEnvelope), frames, peak;
      }
      envelope := reopened.value;
    }
  }

  // ---- writing

  method WriteIpcMessage(sink: Sink, message: bytes) returns (ok: bool)
    modifies sink
    ensures ok <==> |message| <= MAX_MESSAGE
    ensures sink.written == old(sink.written) + if ok then Wire(message).value else []
  {
    hide Print, EnvelopeFor, Envelopes, Chunks;
    if |message| > MAX_MESSAGE {
      return false;
    }
    if |message| <= MAX_FRAME {
      sink.WriteAll(message);
      sink.WriteAll([NEWLINE]);
      assert sink.written == old(sink.written) + (message + [NEWLINE]);
      return true;
    }
    var chunks := Chunks(message, CHUNK);
    assert chunks[0..] == chunks;
    for i := 0 to |chunks|
      invariant sink.written + Envelopes(chunks[i..], i) == old(sink.written) + Envelopes(chunks, 0)
    {
      NextEnvelope(chunks, i);
      ghost var before := sink.written;
      var frame := Print(EnvelopeFor(chunks[i], i, i + 1 == |chunks|));
      sink.WriteAll(frame);
      sink.WriteAll([NEWLINE]);
      Regroup(before, frame, [NEWLINE], Envelopes(chunks[i + 1..], i + 1));
    }
    NoMoreEnvelopes(chunks);
    assert sink.written + [] == sink.written;
    return true;
  }

  lemma Regroup(a: bytes, b: bytes, c: bytes, d: bytes)
    ensures a + (b + c + d) == ((a + b) + c) + d
  {
  }

  lemma NoMoreEnvelopes(chunks: seq<bytes>)
    ensures Envelopes(chunks[|chunks|..], |chunks|) == []
  {
  }

  lemma NextEnvelope(chunks: seq<bytes>, i: nat)
    requires i < |chunks|
    ensures Envelopes(chunks[i..], i)
         == Print(EnvelopeFor(chunks[i], i, i + 1 == |chunks|)) + [NEWLINE] + Envelopes(chunks[i + 1..], i + 1)
  {
    assert chunks[i..][0] == chunks[i] && chunks[i..][1..] == chunks[i + 1..];
  }
}
