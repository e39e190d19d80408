/** Signed 16-bit little-endian PCM: the reinterpretation of the joined payload
    as int16 samples (main.py:137) and its inverse. */
module Pcm {
  import opened Wrappers
  import opened Chunks

  /** One audio sample. */
  newtype int16 = x: int | -0x8000 <= x < 0x8000

  /** Width of one sample in the byte stream. */
  const BytesPerSample: nat := 2

  /** The sample stored little-endian, two's complement, in the bytes `lo`, `hi`. */
  function SampleOf(lo: byte, hi: byte): int16
  {
    var u := lo as int + 0x100 * hi as int;
    (if u < 0x8000 then u else u - 0x1_0000) as int16
  }

  /** The two bytes, low first, that store `s`. */
  function BytesOf(s: int16): (r: seq<byte>)
    ensures |r| == BytesPerSample
  {
    var u := if s < 0 then s as int + 0x1_0000 else s as int;
    [(u % 0x100) as byte, (u / 0x100) as byte]
  }

  /** Reading back the bytes written for a sample gives that sample. */
  lemma SampleOfBytesOf(s: int16)
    ensures SampleOf(BytesOf(s)[0], BytesOf(s)[1]) == s
  {
  }

  /** Writing the sample read from two bytes gives those bytes back. */
  lemma BytesOfSampleOf(lo: byte, hi: byte)
    ensures BytesOf(SampleOf(lo, hi)) == [lo, hi]
  {
  }

  /** The samples of an even-length byte string, sample `i` taken from bytes
      `2i` and `2i + 1`. */
  function Samples(b: seq<byte>): (s: seq<int16>)
    requires |b| % BytesPerSample == 0
    ensures |s| * BytesPerSample == |b|
    ensures forall i :: 0 <= i < |s| ==> s[i] == SampleOf(b[2 * i], b[2 * i + 1])
    decreases |b|
  {
    if |b| == 0 then [] else [SampleOf(b[0], b[1])] + Samples(b[2..])
  }

  /** Reinterprets a byte string as int16 samples. A length that is not a
      whole number of samples raises (numpy's ValueError), modelled as `None`;
      otherwise the samples are exactly the ones the bytes store. */
  function Decode(b: seq<byte>): (r: Option<seq<int16>>)
    ensures r.Some? <==> |b| % BytesPerSample == 0
    ensures r.Some? ==> Encode(r.value) == b
  {
    if |b| % BytesPerSample != 0 then None
    else
      EncodeSamples(b);
      Some(Samples(b))
  }

  /** The byte string that stores the samples, in order. */
  function Encode(s: seq<int16>): (b: seq<byte>)
    ensures |b| == |s| * BytesPerSample
    ensures forall i :: 0 <= i < |s| ==> b[2 * i] == BytesOf(s[i])[0] && b[2 * i + 1] == BytesOf(s[i])[1]
    decreases |s|
  {
    if |s| == 0 then [] else BytesOf(s[0]) + Encode(s[1..])
  }

  /** Encoding then decoding returns the samples unchanged. */
  lemma DecodeEncode(s: seq<int16>)
    ensures Decode(Encode(s)) == Some(s)
  {
    var b := Encode(s);
    var s' := Samples(b);
    forall i | 0 <= i < |s|
      ensures s'[i] == s[i]
    {
      SampleOfBytesOf(s[i]);
    }
    assert s' == s;
  }

  /** The samples read from an even-length payload store back into exactly
      that payload. */
  lemma EncodeSamples(b: seq<byte>)
    requires |b| % BytesPerSample == 0
    ensures Encode(Samples(b)) == b
  {
    var b' := Encode(Samples(b));
    forall i | 0 <= i < |b| / 2
      ensures b'[2 * i] == b[2 * i] && b'[2 * i + 1] == b[2 * i + 1]
    {
      EncodeSampleAt(b, i);
    }
    forall j | 0 <= j < |b|
      ensures b'[j] == b[j]
    {
      var i := j / 2;
      assert j == 2 * i || j == 2 * i + 1;
    }
  }

  /** Sample `i` of a payload stores back into bytes `2i` and `2i + 1`. */
  lemma EncodeSampleAt(b: seq<byte>, i: nat)
    requires |b| % BytesPerSample == 0
    requires i < |b| / 2
    ensures Encode(Samples(b))[2 * i] == b[2 * i]
    ensures Encode(Samples(b))[2 * i + 1] == b[2 * i + 1]
  {
    var s := Samples(b);
    assert s[i] == SampleOf(b[2 * i], b[2 * i + 1]);
    BytesOfSampleOf(b[2 * i], b[2 * i + 1]);
  }
}
