/**
 A `read` request on one connection: the handler emits a long file through a bounded
 channel while the connection loop forwards it, drains it and answers; the client
 reassembles. Producer and connection loop are interleaved step by step.
 */
module StreamedRead {
  import opened Bytes
  import Base64

  const DATA_CHUNK: nat := 1024 * 1024
  const CAPACITY: nat := 8

  datatype Reply = Inline(text: bytes, len: nat) | Streamed(len: nat)

  /** What the client receives: data notifications, then the response. */
  datatype Item = Notification(text: bytes) | Response(reply: Reply)

  /**
   The request handler. `Emitting` is about to test the cancel flag for its next chunk;
   `Sending` has passed the test and waits for a free channel slot.
   */
  datatype Producer =
    | Reading
    | Emitting(left: seq<bytes>)
    | Sending(chunk: bytes, left: seq<bytes>)
    | Done(reply: Reply)
    | Stopped

  /** The connection loop; `Aborting` awaits the handler after the client went away. */
  datatype Phase = Serving | Draining | Aborting | Closed(answered: bool)

  datatype State = State(
    contents: bytes, producer: Producer, queue: seq<bytes>, wire: seq<Item>, phase: Phase, cancelled: bool)

  predicate Init(s: State) {
    s.producer.Reading? && s.queue == [] && s.wire == [] && s.phase.Serving? && !s.cancelled
  }

  /** The reply of the inline path, which is what a client asks for. */
  function InlineReply(contents: bytes): (r: Reply)
  {
    Inline(Base64.Encode(contents), |contents|)
  }

  // ---- handler steps

  predicate Live(s: State) { s.phase.Serving? || s.phase.Aborting? }

  predicate Read(s: State, t: State) {
    && Live(s) && s.producer.Reading?
    && t == s.(producer := if |s.contents| > DATA_CHUNK then Emitting(Chunks(s.contents, DATA_CHUNK))
                           else Done(InlineReply(s.contents)))
  }

  predicate Check(s: State, t: State) {
    && Live(s) && s.producer.Emitting? && s.producer.left != []
    && t == s.(producer := if s.cancelled then Stopped else Sending(s.producer.left[0], s.producer.left[1..]))
  }

  predicate Send(s: State, t: State) {
    && Live(s) && s.producer.Sending? && |s.queue| < CAPACITY
    && t == s.(producer := Emitting(s.producer.left), queue := s.queue + [s.producer.chunk])
  }

  predicate Finish(s: State, t: State) {
    && Live(s) && s.producer.Emitting? && s.producer.left == []
    && t == s.(producer := Done(Streamed(|s.contents|)))
  }

  // ---- connection-loop steps

  predicate Forward(s: State, t: State) {
    && (s.phase.Serving? || s.phase.Draining?) && s.queue != []
    && t == s.(queue := s.queue[1..], wire := s.wire + [Notification(Base64.Encode(s.queue[0]))])
  }

  /** Writing a notification fails: while serving, the handler is cancelled and awaited. */
  predicate ForwardFails(s: State, t: State) {
    && (s.phase.Serving? || s.phase.Draining?) && s.queue != []
    && t == s.(queue := s.queue[1..],
               cancelled := s.cancelled || s.phase.Serving?,
               phase := if s.phase.Serving? then Aborting else Closed(false))
  }

  predicate Break(s: State, t: State) {
    s.phase.Serving? && s.producer.Done? && t == s.(phase := Draining)
  }

  predicate Respond(s: State, t: State) {
    && s.phase.Draining? && s.producer.Done? && s.queue == []
    && (t == s.(phase := Closed(true), wire := s.wire + [Response(s.producer.reply)]) || t == s.(phase := Closed(false)))
  }

  /** End of the client's stream: cancel, then await the handler without draining. */
  predicate Disconnect(s: State, t: State) {
    s.phase.Serving? && t == s.(cancelled := true, phase := Aborting)
  }

  /** Pipelined bytes or a read error: cancel and drop the handler. */
  predicate Drop(s: State, t: State) {
    s.phase.Serving? && t == s.(cancelled := true, phase := Closed(false))
  }

  predicate Aborted(s: State, t: State) {
    s.phase.Aborting? && (s.producer.Done? || s.producer.Stopped?) && t == s.(phase := Closed(false))
  }

  predicate Step(s: State, t: State) {
    || Read(s, t) || Check(s, t) || Send(s, t) || Finish(s, t)
    || Forward(s, t) || ForwardFails(s, t) || Break(s, t) || Respond(s, t)
    || Disconnect(s, t) || Drop(s, t) || Aborted(s, t)
  }

  ghost predicate Run(states: seq<State>) {
    states != [] && Init(states[0]) && forall i :: 0 <= i < |states| - 1 ==> Step(states[i], states[i + 1])
  }

  // ---- the client

  datatype ClientResult = Reply(reply: Reply) | CountMismatch | Malformed | NoResponse

  function Client(wire: seq<Item>, data: bytes): (r: ClientResult)
  {
    if wire == [] then NoResponse else
    match wire[0]
    case Notification(text) =>
      (match Base64.Decode(text)
       case None => Malformed
       case Some(b) => Client(wire[1..], data + b))
    case Response(Inline(text, len)) => Reply(Inline(text, len))
    case Response(Streamed(len)) => if |data| == len then Reply(Inline(Base64.Encode(data), len)) else CountMismatch
  }

  /** The client's receive loop, accumulating stream data until the response. */
  method CallWithProtocol(wire: seq<Item>) returns (r: ClientResult)
    ensures r == Client(wire, [])
  {
    var data: bytes := [];
    var i := 0;
    while i < |wire|
      invariant 0 <= i <= |wire|
      invariant Client(wire, []) == Client(wire[i..], data)
    {
      assert wire[i..][0] == wire[i] && wire[i..][1..] == wire[i + 1..];
      match wire[i] {
        case Notification(text) =>
          var bytes := Base64.Decode(text);
          if bytes.None? {
            return Malformed;
          }
          data := data + bytes.value;
        case Response(Inline(text, len)) =>
          return Reply(Inline(text, len));
        case Response(Streamed(len)) =>
          if |data| != len {
            return CountMismatch;
          }
          return Reply(Inline(Base64.Encode(data), len));
      }
      i := i + 1;
    }
    return NoResponse;
  }

  // ---- conservation

  /** The stream data carried by the notifications on the wire. */
  function Received(wire: seq<Item>): (data: bytes)
  {
    if wire == [] then [] else
      Received(wire[..|wire| - 1]) +
      match wire[|wire| - 1] {
        case Notification(text) => (match Base64.Decode(text) case Some(b) => b case None => [])
        case Response(_) => []
      }
  }

  predicate DataOnly(wire: seq<Item>) {
    forall i :: 0 <= i < |wire| ==> wire[i].Notification? && Base64.Decode(wire[i].text).Some?
  }

  /** What the handler still has to hand over: an inline reply carries the whole file. */
  function Unsent(s: State): (data: bytes)
  {
    match s.producer
    case Reading => s.contents
    case Emitting(left) => Flatten(left)
    case Sending(chunk, left) => chunk + Flatten(left)
    case Done(Inline(_, _)) => s.contents
    case Done(Streamed(_)) => []
    case Stopped => []
  }

  predicate Conserved(s: State) {
    Received(s.wire) + Flatten(s.queue) + Unsent(s) == s.contents
  }

  predicate Serves(s: State) { s.phase.Serving? || s.phase.Draining? }

  /** Chunks somewhere between the file and the wire. */
  function InFlight(s: State): (n: nat)
  {
    |s.queue| + match s.producer { case Emitting(left) => |left| case Sending(_, left) => |left| + 1 case _ => 0 }
  }

  predicate Inv(s: State) {
    && |s.queue| <= CAPACITY
    && (s.producer.Reading? ==> s.queue == [])
    && InFlight(s) <= |Chunks(s.contents, DATA_CHUNK)|
    && (s.producer.Done? ==> s.producer.reply == InlineReply(s.contents) || s.producer.reply == Streamed(|s.contents|))
    && (Serves(s) ==> !s.cancelled && !s.producer.Stopped? && DataOnly(s.wire) && Conserved(s))
    && (s.phase.Aborting? ==> s.cancelled)
    && (s.phase.Draining? ==> s.producer.Done?)
    && (s.phase.Closed? && s.phase.answered ==> Client(s.wire, []) == Reply(InlineReply(s.contents)))
  }

  lemma ReceivedSnoc(wire: seq<Item>, b: bytes)
    requires DataOnly(wire)
    ensures DataOnly(wire + [Notification(Base64.Encode(b))])
    ensures Received(wire + [Notification(Base64.Encode(b))]) == Received(wire) + b
  {
    hide Base64.Encode, Base64.Decode;
    Base64.DecodeEncode(b);
    var longer := wire + [Notification(Base64.Encode(b))];
    assert longer[..|longer| - 1] == wire;
  }

  lemma {:induction false} ClientFolds(wire: seq<Item>, data: bytes, reply: Reply)
    requires DataOnly(wire)
    ensures Client(wire + [Response(reply)], data) == Client([Response(reply)], data + Received(wire))
    decreases |wire|
  {
    hide Base64.Encode, Base64.Decode;
    if wire == [] {
      assert wire + [Response(reply)] == [Response(reply)];
      assert data + [] == data;
    } else {
      var b := Base64.Decode(wire[0].text).value;
      assert (wire + [Response(reply)])[1..] == wire[1..] + [Response(reply)];
      ClientFolds(wire[1..], data + b, reply);
      ReceivedCons(wire);
      assert (data + b) + Received(wire[1..]) == data + Received(wire);
    }
  }

  /** The client read `n` notifications that decode. */
  predicate ReadData(wire: seq<Item>, n: nat) {
    n <= |wire| && DataOnly(wire[..n])
  }

  /** What the item after `n` notifications makes of the call; without one there is no response. */
  predicate Settles(wire: seq<Item>, n: nat, data: bytes, r: ClientResult)
    requires n <= |wire|
  {
    if n == |wire| then r == NoResponse else
    match wire[n]
    case Notification(text) => Base64.Decode(text).None? && r == Malformed
    case Response(Inline(text, len)) => r == Reply(Inline(text, len))
    case Response(Streamed(len)) =>
      r == if |data + Received(wire[..n])| == len then Reply(Inline(Base64.Encode(data + Received(wire[..n])), len)) else CountMismatch
  }

  /** Whatever arrives, the client goes through the notifications that decode and answers by the first other item. */
  lemma {:induction false} ClientExactly(wire: seq<Item>, data: bytes) returns (n: nat)
    ensures ReadData(wire, n) && Settles(wire, n, data, Client(wire, data))
    decreases |wire|
  {
    hide Base64.Encode, Base64.Decode;
    n := 0;
    assert wire[..0] == [] && data + [] == data;
    if wire != [] && wire[0].Notification? && Base64.Decode(wire[0].text).Some? {
      var b := Base64.Decode(wire[0].text).value;
      var k := ClientExactly(wire[1..], data + b);
      n := k + 1;
      var read := wire[..n];
      assert read[0] == wire[0] && read[1..] == wire[1..][..k];
      assert forall i :: 1 <= i < n ==> read[i] == wire[1..][..k][i - 1];
      ReceivedCons(read);
      assert (data + b) + Received(read[1..]) == data + Received(read);
    }
  }

  /** A connection that ends unanswered has cancelled its handler, unless the handler was done. */
  lemma UnansweredExactly(s: State, t: State)
    requires Inv(s) && !s.phase.Closed?
    ensures Step(s, t) && t.phase == Closed(false) ==> t.cancelled || s.producer.Done?
  {
    hide Chunks, Base64.Encode, Client, Received;
  }

  /** The client may go away or break the protocol whenever its read is served, and a write to it may fail whenever there is one. */
  lemma ClientMayFail(s: State)
    ensures s.phase.Serving? ==> Step(s, s.(cancelled := true, phase := Closed(false))) && Step(s, s.(cancelled := true, phase := Aborting))
    ensures s.phase.Serving? && s.queue != [] ==> Step(s, s.(queue := s.queue[1..], cancelled := true, phase := Aborting))
    ensures s.phase.Draining? && s.queue != [] ==> Step(s, s.(queue := s.queue[1..], phase := Closed(false)))
  {
    hide Chunks, Base64.Encode;
    assert s.phase.Serving? ==> Drop(s, s.(cancelled := true, phase := Closed(false)));
    assert s.phase.Serving? ==> Disconnect(s, s.(cancelled := true, phase := Aborting));
    assert s.phase.Serving? && s.queue != [] ==> ForwardFails(s, s.(queue := s.queue[1..], cancelled := true, phase := Aborting));
    assert s.phase.Draining? && s.queue != [] ==> ForwardFails(s, s.(queue := s.queue[1..], phase := Closed(false)));
  }

  lemma {:induction false} ReceivedCons(wire: seq<Item>)
    requires wire != [] && DataOnly(wire)
    ensures Received(wire) == Base64.Decode(wire[0].text).value + Received(wire[1..])
    decreases |wire|
  {
    hide Base64.Decode;
    if |wire| == 1 {
      assert wire[..0] == [] && wire[1..] == [];
    } else {
      var front := wire[..|wire| - 1];
      ReceivedCons(front);
      assert front[1..] == wire[1..][..|wire[1..]| - 1];
      var last := Base64.Decode(wire[|wire| - 1].text).value;
      assert (Base64.Decode(wire[0].text).value + Received(front[1..])) + last
          == Base64.Decode(wire[0].text).value + (Received(front[1..]) + last);
    }
  }

  // ---- every step keeps the invariant

  lemma HandlerKeeps(s: State, t: State)
    requires Inv(s)
    requires Read(s, t) || Check(s, t) || Send(s, t) || Finish(s, t)
    ensures Inv(t)
  {
    hide Base64.Encode, Received, DataOnly, Client, Chunks;
    if Check(s, t) {
      var left := s.producer.left;
      assert Flatten(left) == left[0] + Flatten(left[1..]);
    } else if Send(s, t) {
      FlattenSnoc(s.queue, s.producer.chunk);
      assert Received(s.wire) + Flatten(s.queue) + (s.producer.chunk + Flatten(s.producer.left))
          == Received(s.wire) + (Flatten(s.queue) + s.producer.chunk) + Flatten(s.producer.left);
    }
  }

  lemma ForwardKeeps(s: State, t: State)
    requires Inv(s) && Forward(s, t)
    ensures Inv(t)
  {
    hide Base64.Encode, Received, DataOnly, Client, Chunks;
    ReceivedSnoc(s.wire, s.queue[0]);
    assert Flatten(s.queue) == s.queue[0] + Flatten(s.queue[1..]);
    assert Received(s.wire) + (s.queue[0] + Flatten(s.queue[1..])) + Unsent(s)
        == Received(s.wire) + s.queue[0] + Flatten(s.queue[1..]) + Unsent(s);
  }

  lemma RespondKeeps(s: State, t: State)
    requires Inv(s) && Respond(s, t)
    ensures Inv(t)
  {
    hide Base64.Encode, Received, DataOnly, Chunks;
    ClientFolds(s.wire, [], s.producer.reply);
    assert [] + Received(s.wire) == Received(s.wire) && Received(s.wire) + Flatten([]) == Received(s.wire);
    if s.producer.reply.Streamed? {
      assert Received(s.wire) + [] == Received(s.wire);
    }
  }

  lemma LoopKeeps(s: State, t: State)
    requires Inv(s)
    requires ForwardFails(s, t) || Break(s, t) || Disconnect(s, t) || Drop(s, t) || Aborted(s, t)
    ensures Inv(t)
  {
    hide Base64.Encode, Received, DataOnly, Client, Chunks;
  }

  lemma StepKeeps(s: State, t: State)
    requires Inv(s) && Step(s, t)
    ensures Inv(t) && t.contents == s.contents
  {
    hide Inv;
    if Read(s, t) || Check(s, t) || Send(s, t) || Finish(s, t) {
      HandlerKeeps(s, t);
    } else if Forward(s, t) {
      ForwardKeeps(s, t);
    } else if Respond(s, t) {
      RespondKeeps(s, t);
    } else {
      LoopKeeps(s, t);
    }
  }

  /**
   In every run, while the connection is served nothing is lost, repeated or reordered,
   and the client of an answered connection holds the reply of the inline path.
   */
  lemma {:induction false} StreamingRefinesInline(states: seq<State>, i: nat)
    requires Run(states) && i < |states|
    ensures Inv(states[i]) && states[i].contents == states[0].contents
  {
    if i == 0 {
      assert Flatten<byte>([]) == [] && Received([]) == [];
    } else {
      StreamingRefinesInline(states, i - 1);
      assert Step(states[i - 1], states[i - 1 + 1]);
      StepKeeps(states[i - 1], states[i]);
    }
  }

  // ---- progress

  /** The handler waits for a slot that nobody will free. */
  predicate Stuck(s: State) {
    s.phase.Aborting? && s.producer.Sending? && |s.queue| == CAPACITY
  }

  /** The steps that need neither a departing client nor a failing write. */
  predicate Quiet(s: State, t: State) {
    || Read(s, t) || Check(s, t) || Send(s, t) || Finish(s, t) || Forward(s, t) || Break(s, t)
    || (Respond(s, t) && t.phase == Closed(true))
  }

  /** The steps of handler and connection loop alone. */
  predicate Own(s: State, t: State) {
    Quiet(s, t) || Aborted(s, t)
  }

  ghost predicate CanStep(s: State) { exists t :: Step(s, t) }

  ghost predicate CanAdvance(s: State) { exists t :: Own(s, t) }

  /** A step that needs neither the client nor a failure. */
  function Advance(s: State): (t: State)
    requires Inv(s) && !s.phase.Closed? && !Stuck(s)
    ensures Step(s, t) && Own(s, t)
    ensures s.phase.Serving? ==> t.phase.Serving? || t.phase.Draining?
    ensures s.phase.Draining? ==> t.phase.Draining? || t.phase == Closed(true)
  {
    if Serves(s) && s.queue != [] then
      s.(queue := s.queue[1..], wire := s.wire + [Notification(Base64.Encode(s.queue[0]))])
    else if s.phase.Draining? then
      s.(phase := Closed(true), wire := s.wire + [Response(s.producer.reply)])
    else
      match s.producer
      case Reading => s.(producer := if |s.contents| > DATA_CHUNK then Emitting(Chunks(s.contents, DATA_CHUNK))
                                     else Done(InlineReply(s.contents)))
      case Emitting(left) =>
        if left == [] then s.(producer := Done(Streamed(|s.contents|)))
        else s.(producer := if s.cancelled then Stopped else Sending(left[0], left[1..]))
      case Sending(chunk, left) => s.(producer := Emitting(left), queue := s.queue + [chunk])
      case Done(_) => if s.phase.Serving? then s.(phase := Draining) else s.(phase := Closed(false))
      case Stopped => s.(phase := Closed(false))
  }

  /**
   Handler and loop can move on by themselves unless the connection is closed or the handler
   waits on the abort path; there nothing can move at all.
   */
  lemma StopsOnlyWhenStuck(s: State)
    requires Inv(s)
    ensures CanAdvance(s) <==> !s.phase.Closed? && !Stuck(s)
    ensures CanStep(s) <==> CanAdvance(s)
  {
    hide Base64.Encode, Received, DataOnly, Client, Chunks, Conserved;
    if !s.phase.Closed? && !Stuck(s) {
      var t := Advance(s);
      assert Step(s, t) && Own(s, t);
    }
  }

  // ---- a client that stays

  ghost predicate QuietRun(states: seq<State>) {
    states != [] && Init(states[0]) && forall i :: 0 <= i < |states| - 1 ==> Quiet(states[i], states[i + 1])
  }

  ghost predicate CanGoOn(s: State) { exists t :: Quiet(s, t) }

  /** While the client stays, the connection serves, drains or has answered. */
  predicate Staying(s: State) {
    s.phase.Serving? || s.phase.Draining? || s.phase == Closed(true)
  }

  lemma QuietKeeps(s: State, t: State)
    requires Inv(s) && Staying(s) && Quiet(s, t)
    ensures Inv(t) && Staying(t) && t.contents == s.contents
  {
    hide Inv;
    assert Step(s, t);
    StepKeeps(s, t);
  }

  lemma {:induction false} QuietRunKeeps(states: seq<State>, i: nat)
    requires QuietRun(states) && i < |states|
    ensures Inv(states[i]) && Staying(states[i]) && states[i].contents == states[0].contents
  {
    hide Quiet;
    if i == 0 {
      assert Flatten<byte>([]) == [] && Received([]) == [];
    } else {
      hide Inv;
      QuietRunKeeps(states, i - 1);
      assert Quiet(states[i - 1], states[i - 1 + 1]);
      QuietKeeps(states[i - 1], states[i]);
    }
  }

  lemma AdvanceIsQuiet(s: State)
    requires Inv(s) && (s.phase.Serving? || s.phase.Draining?)
    ensures CanGoOn(s)
  {
    hide Base64.Encode, Received, DataOnly, Client, Chunks, Conserved;
    var t := Advance(s);
    assert Quiet(s, t);
  }

  lemma AnsweredHoldsReply(s: State)
    requires Inv(s) && s.phase == Closed(true)
    ensures Client(s.wire, []) == Reply(InlineReply(s.contents))
  {
  }

  /**
   The pipe is free of deadlock as long as the client stays: a run of such steps that cannot
   go on has answered, with the reply of the inline path.
   */
  lemma StayingClientIsAnswered(states: seq<State>)
    requires QuietRun(states) && !CanGoOn(states[|states| - 1])
    ensures states[|states| - 1].phase == Closed(true)
    ensures Client(states[|states| - 1].wire, []) == Reply(InlineReply(states[0].contents))
  {
    hide CanGoOn, Inv, Quiet;
    var s := states[|states| - 1];
    QuietRunKeeps(states, |states| - 1);
    if s.phase.Serving? || s.phase.Draining? {
      AdvanceIsQuiet(s);
    } else {
      AnsweredHoldsReply(s);
    }
  }

  function Rank(s: State): (n: nat)
  {
    |s.queue|
    + (match s.producer
       case Reading => 3 * |Chunks(s.contents, DATA_CHUNK)| + 3
       case Emitting(left) => 3 * |left| + 2
       case Sending(_, left) => 3 * |left| + 4
       case Done(_) => 1
       case Stopped => 0)
    + (match s.phase case Serving => 3 case Draining => 2 case Aborting => 1 case Closed(_) => 0)
  }

  lemma StepDescends(s: State, t: State)
    requires Step(s, t)
    ensures Rank(t) < Rank(s)
  {
    hide Base64.Encode, Chunks;
  }

  /** No run goes on for ever. */
  lemma {:induction false} RunsAreBounded(states: seq<State>, i: nat)
    requires Run(states) && i < |states|
    ensures i + Rank(states[i]) <= Rank(states[0])
  {
    if i > 0 {
      RunsAreBounded(states, i - 1);
      assert Step(states[i - 1], states[i - 1 + 1]);
      StepDescends(states[i - 1], states[i]);
    }
  }

  // ---- the deadlock, exactly

  ghost predicate Reaches(contents: bytes, s: State) {
    exists states: seq<State> ::
      Run(states) && states[0].contents == contents && states[|states| - 1] == s
  }

  lemma ReachesStep(contents: bytes, s: State, t: State)
    requires Reaches(contents, s) && Step(s, t)
    ensures Reaches(contents, t)
  {
    var states: seq<State> :| Run(states) && states[0].contents == contents && states[|states| - 1] == s;
    var longer := states + [t];
    forall i | 0 <= i < |longer| - 1 ensures Step(longer[i], longer[i + 1]) {
      if i == |states| - 1 {
        assert longer[i] == s && longer[i + 1] == t;
      } else {
        assert longer[i] == states[i] && longer[i + 1] == states[i + 1];
      }
    }
    assert Run(longer) && longer[|longer| - 1] == t;
  }

  /** The handler fills the channel before the connection loop takes anything out. */
  lemma {:induction false} FillsQueue(contents: bytes, s: State) returns (t: State)
    requires Reaches(contents, s)
    requires s.phase.Serving? && !s.cancelled && s.producer.Emitting?
    requires |s.queue| <= CAPACITY && |s.producer.left| > CAPACITY - |s.queue|
    ensures Reaches(contents, t) && t.phase.Serving? && t.producer.Sending? && |t.queue| == CAPACITY
    decreases CAPACITY - |s.queue|
  {
    hide Reaches, Chunks, Base64.Encode;
    var left := s.producer.left;
    var sending := s.(producer := Sending(left[0], left[1..]));
    ReachesStep(contents, s, sending);
    if |s.queue| == CAPACITY {
      t := sending;
    } else {
      var next := sending.(producer := Emitting(left[1..]), queue := s.queue + [left[0]]);
      ReachesStep(contents, sending, next);
      t := FillsQueue(contents, next);
    }
  }

  lemma StuckReachable(contents: bytes) returns (s: State)
    requires |contents| > CAPACITY * DATA_CHUNK
    ensures Reaches(contents, s) && Stuck(s)
  {
    hide Chunks, Base64.Encode, Step;
    var start := State(contents, Reading, [], [], Serving, false);
    assert Run([start]) && [start][|[start]| - 1] == start;
    var read := start.(producer := Emitting(Chunks(contents, DATA_CHUNK)));
    ReadStep(start, read);
    ReachesStep(contents, start, read);
    var full := FillsQueue(contents, read);
    s := full.(cancelled := true, phase := Aborting);
    DisconnectStep(full, s);
    ReachesStep(contents, full, s);
  }

  lemma ReadStep(s: State, t: State)
    requires Read(s, t)
    ensures Step(s, t)
  {
  }

  lemma DisconnectStep(s: State, t: State)
    requires Disconnect(s, t)
    ensures Step(s, t)
  {
  }

  /**
   A client that goes away can leave the handler waiting for ever exactly when the
   file does not fit the channel: nine chunks or more.
   */
  lemma DeadlockExactly(contents: bytes)
    ensures (exists s :: Reaches(contents, s) && Stuck(s)) <==> |contents| > 8_388_608
  {
    if |contents| > CAPACITY * DATA_CHUNK {
      var s := StuckReachable(contents);
    }
    if s :| Reaches(contents, s) && Stuck(s) {
      var states: seq<State> :| Run(states) && states[0].contents == contents && states[|states| - 1] == s;
      StreamingRefinesInline(states, |states| - 1);
      StuckNeedsNine(s);
    }
  }

  lemma StuckNeedsNine(s: State)
    requires Inv(s) && Stuck(s)
    ensures |s.contents| > CAPACITY * DATA_CHUNK
  {
    hide Base64.Encode, Received, DataOnly, Client, Chunks, Conserved;
    assert |Chunks(s.contents, DATA_CHUNK)| == (|s.contents| + DATA_CHUNK - 1) / DATA_CHUNK;
  }
}
