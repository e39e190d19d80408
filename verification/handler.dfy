/** The per-connection loop of the `/ws/transcribe` WebSocket endpoint
    (main.py:110-159) as a pure state machine over the events it waits for. */
module Handler {
  import opened Wrappers
  import opened Chunks
  import opened Pcm
  import opened Flushing

  /** Why the handler's loop ended: every exception leaves the `while True`. */
  datatype Exit =
    | ReceiveError        // receive_bytes raised: disconnect or a non-binary message
    | DecodeError         // the payload was not a whole number of int16 samples
    | TranscriptionError  // the Whisper call, or sending its text back, raised

  /** What the handler is waiting for. */
  datatype Phase =
    | Receiving                       // awaiting the next binary message
    | Transcribing(samples: seq<int16>) // awaiting Whisper's answer on these samples
    | Closed(exit: Exit)              // the loop has ended

  /** What the outside world hands the handler: a received binary message, a
      failed receive, or the outcome of the transcription call. */
  datatype Event =
    | Chunk(data: seq<byte>)
    | Disconnect
    | TranscribeOk(text: string)
    | TranscribeFail

  /** One connection's state: the `audio_buffer` list and the phase, plus the
      record of what the handler has received, flushed and sent so far. Each
      entry of `flushes` is the buffer list one flush joined. */
  datatype Connection = Connection(
    buffer: seq<seq<byte>>,
    phase: Phase,
    received: seq<seq<byte>>,
    flushes: seq<seq<seq<byte>>>,
    sent: seq<string>)

  /** The state right after `accept`: an empty buffer, waiting for audio. */
  function Open(): Connection
  {
    Connection([], Receiving, [], [], [])
  }

  /** The joined bytes of flush `i`. */
  function Payload(c: Connection, i: nat): seq<byte>
    requires i < |c.flushes|
  {
    Flatten(c.flushes[i])
  }

  /** Handling one received chunk: append it, then either go back to waiting or
      join and clear the buffer and reinterpret the payload as samples. */
  function Receive(c: Connection, data: seq<byte>): Connection
    requires c.phase.Receiving?
  {
    var buffer := c.buffer + [data];
    var received := c.received + [data];
    if BelowThreshold(buffer) then
      c.(buffer := buffer, received := received)
    else
      var flushed := c.(buffer := [], received := received, flushes := c.flushes + [buffer]);
      match Decode(Flatten(buffer))
      case Some(samples) => flushed.(phase := Transcribing(samples))
      case None => flushed.(phase := Closed(DecodeError))
  }

  /** One event. An event the handler is not waiting for cannot be delivered
      and leaves the state as it is; so does every event once the loop ended. */
  function Step(c: Connection, e: Event): Connection
  {
    match c.phase
    case Closed(_) => c
    case Receiving =>
      (match e
       case Chunk(data) => Receive(c, data)
       case Disconnect => c.(phase := Closed(ReceiveError))
       case _ => c)
    case Transcribing(_) =>
      (match e
       case TranscribeOk(text) => c.(phase := Receiving, sent := c.sent + [text])
       case TranscribeFail => c.(phase := Closed(TranscriptionError))
       case _ => c)
  }

  /** The state after the handler has seen the events in order. */
  function Run(events: seq<Event>): Connection
  {
    if |events| == 0 then Open() else Step(Run(events[..|events| - 1]), events[|events| - 1])
  }

  /** Extending a trace by one event takes one more step. */
  lemma RunAppend(events: seq<Event>, e: Event)
    ensures Run(events + [e]) == Step(Run(events), e)
  {
    assert (events + [e])[..|events|] == events;
  }

  /** What holds of every reachable state: the received chunks split into the
      flushed groups followed by the buffer, which is below the threshold; one
      message per finished flush; the samples under transcription are the last
      flush's payload. */
  ghost predicate Inv(c: Connection)
  {
    && IsSegmentation(c.received, c.flushes, c.buffer)
    && match c.phase
       case Receiving => |c.sent| == |c.flushes|
       case Transcribing(samples) =>
         && |c.flushes| == |c.sent| + 1
         && c.buffer == []
         && Encode(samples) == Payload(c, |c.flushes| - 1)
       case Closed(exit) =>
         if exit == ReceiveError then |c.sent| == |c.flushes|
         else |c.flushes| == |c.sent| + 1 && c.buffer == []
  }

  /** A chunk received while waiting is appended at the end of the buffer and
      recorded; the handler flushes on it exactly when the joined buffer
      reaches 160,000 bytes. A flush takes the whole buffer, final chunk
      included, empties the buffer and either starts transcribing samples
      that encode that payload or, on an odd byte count, ends the handler. */
  lemma ReceiveChunk(c: Connection, data: seq<byte>)
    requires c.phase.Receiving?
    ensures var c' := Step(c, Chunk(data));
      var joined := Flatten(c.buffer + [data]);
      && c'.received == c.received + [data]
      && c'.sent == c.sent
      && (|c'.flushes| == |c.flushes| + 1 <==> |joined| >= FlushBytes)
      && (|joined| < FlushBytes ==>
            c'.buffer == c.buffer + [data] && c'.flushes == c.flushes && c'.phase == Receiving)
      && (|joined| >= FlushBytes ==>
            && c'.buffer == []
            && c'.flushes == c.flushes + [c.buffer + [data]]
            && Payload(c', |c.flushes|) == joined
            && (c'.phase.Transcribing? <==> |joined| % 2 == 0)
            && (c'.phase.Transcribing? ==> Encode(c'.phase.samples) == joined)
            && (!c'.phase.Transcribing? ==> c'.phase == Closed(DecodeError)))
  {
    BelowThresholdInBytes(c.buffer + [data]);
  }

  /** A message goes out only when Whisper answers a pending flush, and it is
      that answer unchanged, at the index of the flush it answers; a failed
      transcription ends the handler without a message. Every event other than
      a chunk received while waiting leaves the buffer, the received chunks and
      the flushes as they are. */
  lemma ReplyToFlush(c: Connection, e: Event)
    requires Inv(c)
    ensures var c' := Step(c, e);
      && (c.phase.Transcribing? && e.TranscribeOk? ==>
            && c'.sent == c.sent + [e.text]
            && c'.sent[|c.flushes| - 1] == e.text
            && c'.phase == Receiving)
      && (!(c.phase.Transcribing? && e.TranscribeOk?) ==> c'.sent == c.sent)
      && (c.phase.Transcribing? && e.TranscribeFail? ==>
            c'.phase == Closed(TranscriptionError) && c'.buffer == [])
      && (!(c.phase.Receiving? && e.Chunk?) ==>
            c'.buffer == c.buffer && c'.received == c.received && c'.flushes == c.flushes)
  {
  }

  /** A failed receive while waiting ends the handler with everything else as
      it was: the remainder in the buffer is dropped, not flushed. */
  lemma DisconnectCloses(c: Connection)
    requires c.phase.Receiving?
    ensures Step(c, Disconnect) == c.(phase := Closed(ReceiveError))
  {
  }

  /** Every step keeps the invariant. */
  lemma StepKeepsInv(c: Connection, e: Event)
    requires Inv(c)
    ensures Inv(Step(c, e))
  {
    var c' := Step(c, e);
    if c.phase.Receiving? && e.Chunk? {
      var buffer := c.buffer + [e.data];
      assert Flatten(c.flushes) + buffer == c.received + [e.data];
      if !BelowThreshold(buffer) {
        assert buffer[..|buffer| - 1] == c.buffer;
        assert IsFlushGroup(buffer);
        assert (c.flushes + [buffer])[..|c.flushes|] == c.flushes;
        assert Flatten(c'.flushes) == Flatten(c.flushes) + buffer;
        forall i | 0 <= i < |c'.flushes| ensures IsFlushGroup(c'.flushes[i]) {
          if i < |c.flushes| {
            assert c'.flushes[i] == c.flushes[i];
          }
        }
        assert TotalBytes([]) == 0;
      }
    }
  }

  /** Every reachable state satisfies the invariant. */
  lemma {:induction false} RunKeepsInv(events: seq<Event>)
    ensures Inv(Run(events))
    decreases |events|
  {
    if |events| == 0 {
      assert TotalBytes([]) == 0;
    } else {
      RunKeepsInv(events[..|events| - 1]);
      StepKeepsInv(Run(events[..|events| - 1]), events[|events| - 1]);
    }
  }

  /** Bounds that hold after any trace: the buffer, as the next receive finds
      it, is below 160,000 bytes; every flushed payload is at least 160,000
      bytes; messages trail flushes by at most one, and by none while waiting. */
  lemma RunBounds(events: seq<Event>)
    ensures var c := Run(events);
      && |Flatten(c.buffer)| < FlushBytes
      && (forall i :: 0 <= i < |c.flushes| ==> |Payload(c, i)| >= FlushBytes)
      && |c.sent| <= |c.flushes| <= |c.sent| + 1
      && (c.phase.Receiving? ==> |c.sent| == |c.flushes|)
  {
    var c := Run(events);
    RunKeepsInv(events);
    BelowThresholdInBytes(c.buffer);
    forall i | 0 <= i < |c.flushes| ensures |Payload(c, i)| >= FlushBytes {
      assert IsFlushGroup(c.flushes[i]);
      BelowThresholdInBytes(c.flushes[i]);
    }
  }

  /** Nothing is lost, duplicated or reordered: the flushed payloads in order,
      followed by the buffered bytes, are exactly the bytes received so far. */
  lemma Conservation(events: seq<Event>)
    ensures var c := Run(events);
      Flatten(FlattenEach(c.flushes)) + Flatten(c.buffer) == Flatten(c.received)
  {
    var c := Run(events);
    RunKeepsInv(events);
    FlattenAppend(Flatten(c.flushes), c.buffer);
    FlattenNested(c.flushes);
  }

  /** Where the flushes fall depends only on the chunks received: two traces
      that delivered the same chunks flushed the same groups and hold the same
      buffer, whatever the transcription outcomes. */
  lemma FlushesFollowChunks(events1: seq<Event>, events2: seq<Event>)
    requires Run(events1).received == Run(events2).received
    ensures Run(events1).flushes == Run(events2).flushes
    ensures Run(events1).buffer == Run(events2).buffer
  {
    var c1, c2 := Run(events1), Run(events2);
    RunKeepsInv(events1);
    RunKeepsInv(events2);
    SegmentationIsUnique(c1.received, c1.flushes, c1.buffer, c2.flushes, c2.buffer);
  }

  /** Once the loop has ended, later events change nothing: no message is
      sent, the remainder is never flushed and a failed flush is not retried. */
  lemma {:induction false} ClosedIsFinal(events: seq<Event>, k: nat)
    requires k <= |events|
    requires Run(events[..k]).phase.Closed?
    ensures Run(events) == Run(events[..k])
    decreases |events|
  {
    if k < |events| {
      var init := events[..|events| - 1];
      assert init[..k] == events[..k];
      ClosedIsFinal(init, k);
    } else {
      assert events[..k] == events;
    }
  }

  /** The handler's `while True` loop: it consumes events until the loop ends
      or the events run out. */
  method Serve(events: seq<Event>) returns (c: Connection, consumed: nat)
    ensures consumed <= |events|
    ensures c == Run(events[..consumed])
    ensures consumed < |events| ==> c.phase.Closed?
    ensures Run(events) == c
  {
    c := Open();
    consumed := 0;
    while consumed < |events| && !c.phase.Closed?
      invariant consumed <= |events|
      invariant c == Run(events[..consumed])
    {
      assert events[..consumed + 1][..consumed] == events[..consumed];
      c := Step(c, events[consumed]);
      consumed := consumed + 1;
    }
    if consumed < |events| {
      ClosedIsFinal(events, consumed);
    } else {
      assert events[..consumed] == events;
    }
  }
}
