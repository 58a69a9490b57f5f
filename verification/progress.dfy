/** The `displayProgress` pass-through: re-emits every chunk unchanged and
    advances the progress bar by the chunk's length. */
module Progress {

  newtype byte = b: int | 0 <= b < 256

  type Chunk = seq<byte>

  /** Reference definition: the total number of bytes in the chunks. */
  function TotalLength(chunks: seq<Chunk>): nat {
    if |chunks| == 0 then 0 else TotalLength(chunks[..|chunks| - 1]) + |chunks[|chunks| - 1]|
  }

  /** The byte total of a concatenation is the sum of the parts' totals. */
  lemma {:induction false} TotalLengthAppend(a: seq<Chunk>, b: seq<Chunk>)
    ensures TotalLength(a + b) == TotalLength(a) + TotalLength(b)
    decreases |b|
  {
    if |b| == 0 {
      assert a + b == a;
    } else {
      var b' := b[..|b| - 1];
      assert (a + b)[..|a + b| - 1] == a + b';
      TotalLengthAppend(a, b');
    }
  }

  /** The pass-through over a whole byte stream. `counts[i]` is the bar's
      value after chunk `i`: the chunks come out unchanged, and the counter
      never decreases and always equals the bytes seen so far. */
  method PassThrough(chunks: seq<Chunk>) returns (out: seq<Chunk>, counts: seq<nat>, total: nat)
    ensures out == chunks
    ensures total == TotalLength(chunks)
    ensures |counts| == |chunks|
    ensures forall i :: 0 <= i < |chunks| ==> counts[i] == TotalLength(chunks[..i + 1])
    ensures forall i, j :: 0 <= i <= j < |counts| ==> counts[i] <= counts[j]
  {
    out, counts, total := [], [], 0;
    var i := 0;
    while i < |chunks|
      invariant 0 <= i <= |chunks|
      invariant out == chunks[..i]
      invariant total == TotalLength(chunks[..i])
      invariant |counts| == i
      invariant forall j :: 0 <= j < i ==> counts[j] == TotalLength(chunks[..j + 1])
      invariant forall j, l :: 0 <= j <= l < i ==> counts[j] <= counts[l]
      invariant i > 0 ==> counts[i - 1] == total
    {
      assert chunks[..i + 1][..i] == chunks[..i];
      total := total + |chunks[i]|;
      out := out + [chunks[i]];
      counts := counts + [total];
      i := i + 1;
    }
    assert chunks[..i] == chunks;
  }
}
