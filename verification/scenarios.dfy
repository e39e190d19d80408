/** Concrete connections, stated over chunks of given sizes with any content. */
module Scenarios {
  import opened Chunks
  import opened Pcm
  import opened Flushing
  import opened Handler

  /** The first two chunks of `ThreeChunks`, 60,000 samples together, are
      only buffered. */
  lemma TwoChunksBuffered(a: seq<byte>, b: seq<byte>)
    requires |a| == 80000 && |b| == 40000
    ensures Run([Chunk(a), Chunk(b)]) == Connection([a, b], Receiving, [a, b], [], [])
  {
    RunAppend([], Chunk(a));
    assert [] + [Chunk(a)] == [Chunk(a)];
    ReceiveChunk(Open(), a);
    assert Flatten([a]) == Flatten([]) + a;
    var c1 := Run([Chunk(a)]);
    assert c1 == Connection([a], Receiving, [a], [], []);

    RunAppend([Chunk(a)], Chunk(b));
    assert [Chunk(a)] + [Chunk(b)] == [Chunk(a), Chunk(b)];
    ReceiveChunk(c1, b);
    assert [a] + [b] == [a, b];
    assert Flatten([a, b]) == Flatten([a]) + b;
  }

  /** Chunks of 40,000, 20,000 and 30,000 samples: the first two stay below the
      threshold, the third triggers one flush of all 90,000 samples, the buffer
      is emptied and Whisper's answer is awaited. */
  lemma ThreeChunks(a: seq<byte>, b: seq<byte>, d: seq<byte>)
    requires |a| == 80000 && |b| == 40000 && |d| == 60000
    ensures var c := Run([Chunk(a), Chunk(b), Chunk(d)]);
      && c.flushes == [[a, b, d]]
      && c.buffer == []
      && c.phase.Transcribing?
      && |c.phase.samples| == 90000
      && c.sent == []
  {
    TwoChunksBuffered(a, b);
    var c2 := Run([Chunk(a), Chunk(b)]);
    RunAppend([Chunk(a), Chunk(b)], Chunk(d));
    assert [Chunk(a), Chunk(b)] + [Chunk(d)] == [Chunk(a), Chunk(b), Chunk(d)];
    ReceiveChunk(c2, d);
    assert [a, b] + [d] == [a, b, d];
    assert Flatten([a]) == Flatten([]) + a;
    assert Flatten([a, b]) == Flatten([a]) + b;
    assert Flatten([a, b, d]) == Flatten([a, b]) + d;
    assert |Flatten([a, b, d])| == 180000;
  }

  /** Whisper's answer to the flush of `ThreeChunks` is the one message sent. */
  lemma ThreeChunksReply(a: seq<byte>, b: seq<byte>, d: seq<byte>, text: string)
    requires |a| == 80000 && |b| == 40000 && |d| == 60000
    ensures Run([Chunk(a), Chunk(b), Chunk(d), TranscribeOk(text)]).sent == [text]
  {
    ThreeChunks(a, b, d);
    RunAppend([Chunk(a), Chunk(b), Chunk(d)], TranscribeOk(text));
    assert [Chunk(a), Chunk(b), Chunk(d)] + [TranscribeOk(text)]
        == [Chunk(a), Chunk(b), Chunk(d), TranscribeOk(text)];
  }

  /** A connection that sends 50,000 samples and disconnects flushes nothing,
      sends nothing and ends quietly with the audio discarded. */
  lemma ShortConnection(a: seq<byte>)
    requires |a| == 100000
    ensures var c := Run([Chunk(a), Disconnect]);
      && c.flushes == []
      && c.sent == []
      && c.phase == Closed(ReceiveError)
  {
    RunAppend([], Chunk(a));
    assert [] + [Chunk(a)] == [Chunk(a)];
    ReceiveChunk(Open(), a);
    assert Flatten([a]) == Flatten([]) + a;
    RunAppend([Chunk(a)], Disconnect);
    assert [Chunk(a)] + [Disconnect] == [Chunk(a), Disconnect];
  }

  /** One chunk of 160,000 samples, twice the threshold, is flushed once as a
      whole: a flush takes the whole buffer, not 80,000-sample slices. */
  lemma OneLargeChunk(a: seq<byte>)
    requires |a| == 2 * FlushBytes
    ensures var c := Run([Chunk(a)]);
      && c.flushes == [[a]]
      && c.buffer == []
      && c.phase.Transcribing?
      && |c.phase.samples| == 2 * BufferSizeSamples
  {
    RunAppend([], Chunk(a));
    assert [] + [Chunk(a)] == [Chunk(a)];
    ReceiveChunk(Open(), a);
    assert Flatten([a]) == Flatten([]) + a;
  }

  /** When Whisper fails on the first flush the handler ends: no message goes
      out, later chunks are not read, and the flushed audio is not retried. */
  lemma FailedTranscription(a: seq<byte>, later: seq<byte>)
    requires |a| == FlushBytes
    ensures var c := Run([Chunk(a), TranscribeFail, Chunk(later)]);
      && c.phase == Closed(TranscriptionError)
      && c.sent == []
      && c.flushes == [[a]]
      && c.received == [a]
      && c.buffer == []
  {
    RunAppend([], Chunk(a));
    assert [] + [Chunk(a)] == [Chunk(a)];
    ReceiveChunk(Open(), a);
    assert Flatten([a]) == Flatten([]) + a;
    RunAppend([Chunk(a)], TranscribeFail);
    assert [Chunk(a)] + [TranscribeFail] == [Chunk(a), TranscribeFail];
    RunAppend([Chunk(a), TranscribeFail], Chunk(later));
    assert [Chunk(a), TranscribeFail] + [Chunk(later)] == [Chunk(a), TranscribeFail, Chunk(later)];
  }

  /** A flushed payload with an odd byte count is not a whole number of
      samples: decoding raises and the handler ends without a message. */
  lemma OddPayload(a: seq<byte>)
    requires |a| == FlushBytes + 1
    ensures var c := Run([Chunk(a)]);
      && c.phase == Closed(DecodeError)
      && c.flushes == [[a]]
      && c.sent == []
  {
    RunAppend([], Chunk(a));
    assert [] + [Chunk(a)] == [Chunk(a)];
    ReceiveChunk(Open(), a);
    assert Flatten([a]) == Flatten([]) + a;
  }
}
