/** Byte chunks as the WebSocket handler receives them, and the two ways the
    handler looks at a list of them: their summed length and their joined bytes. */
module Chunks {

  /** One octet of a binary WebSocket message. */
  newtype byte = x: int | 0 <= x < 0x100

  /** In-order concatenation of a list of sequences. On a list of byte chunks
      this is the joined payload of main.py:133. */
  function Flatten<T>(xss: seq<seq<T>>): seq<T>
  {
    if |xss| == 0 then [] else Flatten(xss[..|xss| - 1]) + xss[|xss| - 1]
  }

  /** The joined form of each element of a list of chunk lists. */
  function FlattenEach<T>(xsss: seq<seq<seq<T>>>): seq<seq<T>>
  {
    seq(|xsss|, i requires 0 <= i < |xsss| => Flatten(xsss[i]))
  }

  /** The handler's byte count of a buffer: the sum, chunk by chunk, of the
      chunk lengths (main.py:126). */
  function TotalBytes(chunks: seq<seq<byte>>): nat
  {
    if |chunks| == 0 then 0 else TotalBytes(chunks[..|chunks| - 1]) + |chunks[|chunks| - 1]|
  }

  /** Joining two lists is joining each and concatenating the results. */
  lemma {:induction false} FlattenAppend<T>(xss: seq<seq<T>>, yss: seq<seq<T>>)
    ensures Flatten(xss + yss) == Flatten(xss) + Flatten(yss)
    decreases |yss|
  {
    if |yss| == 0 {
      assert xss + yss == xss;
    } else {
      var init := yss[..|yss| - 1];
      assert (xss + yss)[..|xss + yss| - 1] == xss + init;
      FlattenAppend(xss, init);
    }
  }

  /** Joining a list that starts with `x` yields `x` followed by the rest joined. */
  lemma FlattenCons<T>(x: seq<T>, xss: seq<seq<T>>)
    ensures Flatten([x] + xss) == x + Flatten(xss)
  {
    FlattenAppend([x], xss);
    assert [x][..0] == [];
  }

  /** Joining twice is joining each element and then joining the results: the
      bytes of all groups, in order. */
  lemma {:induction false} FlattenNested<T>(xsss: seq<seq<seq<T>>>)
    ensures Flatten(Flatten(xsss)) == Flatten(FlattenEach(xsss))
    decreases |xsss|
  {
    if |xsss| > 0 {
      var init := xsss[..|xsss| - 1];
      var last := xsss[|xsss| - 1];
      FlattenNested(init);
      FlattenAppend(Flatten(init), last);
      assert FlattenEach(xsss)[..|xsss| - 1] == FlattenEach(init);
    }
  }

  /** The summed chunk lengths are exactly the length of the joined payload. */
  lemma {:induction false} TotalBytesIsLength(chunks: seq<seq<byte>>)
    ensures TotalBytes(chunks) == |Flatten(chunks)|
    decreases |chunks|
  {
    if |chunks| > 0 {
      TotalBytesIsLength(chunks[..|chunks| - 1]);
    }
  }

  /** A prefix of a chunk list never holds more bytes than the whole list. */
  lemma TotalBytesOfPrefix(chunks: seq<seq<byte>>, k: nat)
    requires k <= |chunks|
    ensures TotalBytes(chunks[..k]) <= TotalBytes(chunks)
  {
    assert chunks == chunks[..k] + chunks[k..];
    FlattenAppend(chunks[..k], chunks[k..]);
    TotalBytesIsLength(chunks[..k]);
    TotalBytesIsLength(chunks);
  }

  /** The byte count loop of main.py:126, written as a loop over the buffer. */
  method BufferedBytes(buffer: seq<seq<byte>>) returns (n: nat)
    ensures n == |Flatten(buffer)|
  {
    n := 0;
    var i := 0;
    while i < |buffer|
      invariant 0 <= i <= |buffer|
      invariant n == TotalBytes(buffer[..i])
    {
      assert buffer[..i + 1][..i] == buffer[..i];
      n := n + |buffer[i]|;
      i := i + 1;
    }
    assert buffer[..i] == buffer;
    TotalBytesIsLength(buffer);
  }
}
