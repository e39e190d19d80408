/** The flush threshold of the transcription handler and a declarative account
    of where flushes fall in a stream of chunks. */
module Flushing {
  import opened Chunks
  import Pcm

  /** Audio rate the client captures at and the handler assumes (main.py:119). */
  const SampleRate: nat := 16000

  /** Seconds of audio the handler collects before transcribing (main.py:119). */
  const BufferSeconds: nat := 5

  /** BUFFER_SIZE_SAMPLES: the flush threshold in samples, 80,000. */
  const BufferSizeSamples: nat := SampleRate * BufferSeconds

  /** The same threshold in bytes of 16-bit audio, 160,000. */
  const FlushBytes: nat := BufferSizeSamples * Pcm.BytesPerSample

  /** The handler's sample count of a buffer: its byte count halved, rounded down. */
  function SampleCount(buffer: seq<seq<byte>>): nat
  {
    TotalBytes(buffer) / Pcm.BytesPerSample
  }

  /** The handler's test for going back to waiting instead of flushing. */
  predicate BelowThreshold(buffer: seq<seq<byte>>)
  {
    SampleCount(buffer) < BufferSizeSamples
  }

  /** The sample test is the same as comparing the joined payload's length with
      160,000 bytes; halving and rounding down loses nothing at this boundary. */
  lemma BelowThresholdInBytes(buffer: seq<seq<byte>>)
    ensures FlushBytes == 160000
    ensures BelowThreshold(buffer) <==> |Flatten(buffer)| < FlushBytes
  {
    TotalBytesIsLength(buffer);
  }

  /** A list of chunks that one flush consumes: it reaches the threshold, and
      without its final chunk it stays below it. */
  ghost predicate IsFlushGroup(group: seq<seq<byte>>)
  {
    && |group| > 0
    && BelowThreshold(group[..|group| - 1])
    && !BelowThreshold(group)
  }

  /** `chunks` splits into the flush groups `groups`, in order and with no chunk
      cut, followed by a remainder that stays below the threshold. */
  ghost predicate IsSegmentation(chunks: seq<seq<byte>>, groups: seq<seq<seq<byte>>>, rest: seq<seq<byte>>)
  {
    && Flatten(groups) + rest == chunks
    && (forall i :: 0 <= i < |groups| ==> IsFlushGroup(groups[i]))
    && BelowThreshold(rest)
  }

  /** A prefix of a list below the threshold is below it too. */
  lemma PrefixBelowThreshold(chunks: seq<seq<byte>>, k: nat)
    requires k <= |chunks|
    requires BelowThreshold(chunks)
    ensures BelowThreshold(chunks[..k])
  {
    TotalBytesOfPrefix(chunks, k);
  }

  /** The chunk stream alone fixes the flush groups and the remainder: there is
      at most one way to split it, so every flush happens at the first chunk on
      which the running count reaches the threshold. */
  lemma {:induction false} SegmentationIsUnique(
    chunks: seq<seq<byte>>,
    groups1: seq<seq<seq<byte>>>, rest1: seq<seq<byte>>,
    groups2: seq<seq<seq<byte>>>, rest2: seq<seq<byte>>)
    requires IsSegmentation(chunks, groups1, rest1)
    requires IsSegmentation(chunks, groups2, rest2)
    ensures groups1 == groups2 && rest1 == rest2
    decreases |chunks|
  {
    if |groups1| == 0 && |groups2| == 0 {
      assert rest1 == chunks == rest2;
    } else if |groups1| == 0 {
      assert chunks == rest1;
      GroupedChunksReachThreshold(chunks, groups2, rest2);
      assert false;
    } else if |groups2| == 0 {
      assert chunks == rest2;
      GroupedChunksReachThreshold(chunks, groups1, rest1);
      assert false;
    } else {
      var g1, g2 := groups1[0], groups2[0];
      var tail1, tail2 := groups1[1..], groups2[1..];
      assert groups1 == [g1] + tail1;
      assert groups2 == [g2] + tail2;
      FlattenCons(g1, tail1);
      FlattenCons(g2, tail2);
      assert chunks == g1 + (Flatten(tail1) + rest1);
      assert chunks == g2 + (Flatten(tail2) + rest2);
      assert IsFlushGroup(g1) && IsFlushGroup(g2);
      assert g1 == chunks[..|g1|] && g2 == chunks[..|g2|];
      if |g1| < |g2| {
        assert g1 == g2[..|g1|];
        GroupNotInsideGroup(g1, g2);
        assert false;
      } else if |g2| < |g1| {
        assert g2 == g1[..|g2|];
        GroupNotInsideGroup(g2, g1);
        assert false;
      }
      assert g1 == g2;
      var after := chunks[|g1|..];
      assert after == Flatten(tail1) + rest1;
      assert after == Flatten(tail2) + rest2;
      forall i | 0 <= i < |tail1| ensures IsFlushGroup(tail1[i]) {
        assert tail1[i] == groups1[i + 1];
      }
      forall i | 0 <= i < |tail2| ensures IsFlushGroup(tail2[i]) {
        assert tail2[i] == groups2[i + 1];
      }
      SegmentationIsUnique(after, tail1, rest1, tail2, rest2);
    }
  }

  /** A flush group cannot sit strictly inside the list part of another one. */
  lemma GroupNotInsideGroup(short: seq<seq<byte>>, long: seq<seq<byte>>)
    requires IsFlushGroup(short) && IsFlushGroup(long)
    requires |short| < |long|
    ensures short != long[..|short|]
  {
    if short == long[..|short|] {
      var init := long[..|long| - 1];
      assert short == init[..|short|];
      PrefixBelowThreshold(init, |short|);
    }
  }

  /** A list that holds at least one flush group is not below the threshold. */
  lemma GroupedChunksReachThreshold(chunks: seq<seq<byte>>, groups: seq<seq<seq<byte>>>, rest: seq<seq<byte>>)
    requires IsSegmentation(chunks, groups, rest)
    requires |groups| > 0
    ensures !BelowThreshold(chunks)
  {
    var g := groups[0];
    assert IsFlushGroup(g);
    assert groups == [g] + groups[1..];
    FlattenCons(g, groups[1..]);
    assert chunks == g + (Flatten(groups[1..]) + rest);
    assert g == chunks[..|g|];
    if BelowThreshold(chunks) {
      PrefixBelowThreshold(chunks, |g|);
    }
  }
}
