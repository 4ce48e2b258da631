/**
 * `chunkDocument` (src/app/api/generate-embeddings/route.js:162-172): a document's text cut into
 * consecutive pieces of at most `maxChunkSize` characters.
 */
module Chunking {

  /** The size the embedding loop asks for (line 80). */
  const MaxChunkSize: nat := 25000

  /** The chunks of `content`: the whole text when it fits, otherwise a full chunk and the chunks of the rest. */
  function Chunks(content: string, maxChunkSize: nat): (chunks: seq<string>)
    requires maxChunkSize > 0
    ensures |chunks| >= 1
    decreases |content|
  {
    if |content| <= maxChunkSize then [content]
    else [content[..maxChunkSize]] + Chunks(content[maxChunkSize..], maxChunkSize)
  }

  /** The chunks of the text from `i` on, for any `i`; nothing once `i` has passed the end. */
  function ChunksFrom(content: string, maxChunkSize: nat, i: nat): seq<string>
    requires maxChunkSize > 0
  {
    if i < |content| then Chunks(content[i..], maxChunkSize) else []
  }

  /**
   * The loop of lines 167-171: `content.substring(i, i + maxChunkSize)` for `i` = 0, `maxChunkSize`,
   * ... while `i` is below the length, or the whole content when it fits.
   */
  method ChunkDocument(content: string, maxChunkSize: nat) returns (chunks: seq<string>)
    requires maxChunkSize > 0
    ensures chunks == Chunks(content, maxChunkSize)
  {
    if |content| <= maxChunkSize {
      return [content];
    }
    chunks := [];
    var i := 0;
    assert content[0..] == content;
    while i < |content|
      invariant chunks + ChunksFrom(content, maxChunkSize, i) == Chunks(content, maxChunkSize)
      decreases |content| - i
    {
      var end := if i + maxChunkSize <= |content| then i + maxChunkSize else |content|;
      var rest := content[i..];
      if |rest| > maxChunkSize {
        assert rest[..maxChunkSize] == content[i..end];
        assert rest[maxChunkSize..] == content[end..];
        assert ChunksFrom(content, maxChunkSize, i) == [content[i..end]] + ChunksFrom(content, maxChunkSize, end);
      } else {
        assert rest == content[i..end];
        assert ChunksFrom(content, maxChunkSize, i) == [content[i..end]];
      }
      chunks := chunks + [content[i..end]];
      i := end;
    }
  }

  /** The concatenation of strings, in order. */
  function Concat(parts: seq<string>): string {
    if parts == [] then "" else parts[0] + Concat(parts[1..])
  }

  /** Gluing the chunks back together in order gives the content exactly. */
  lemma {:induction false} ChunksConcatenate(content: string, maxChunkSize: nat)
    requires maxChunkSize > 0
    ensures Concat(Chunks(content, maxChunkSize)) == content
    decreases |content|
  {
    if |content| > maxChunkSize {
      ChunksConcatenate(content[maxChunkSize..], maxChunkSize);
      assert content[..maxChunkSize] + content[maxChunkSize..] == content;
    }
  }

  /** Content that fits, the empty content included, is one chunk: the content itself. */
  lemma ShortContentIsOneChunk(content: string, maxChunkSize: nat)
    requires maxChunkSize > 0 && |content| <= maxChunkSize
    ensures Chunks(content, maxChunkSize) == [content]
  {
  }

  /**
   * Longer content is cut into `ceil(length / maxChunkSize)` chunks: all but the last are exactly
   * `maxChunkSize` long, and the last has between 1 and `maxChunkSize` characters.
   */
  lemma {:induction false} LongContentChunkSizes(content: string, maxChunkSize: nat)
    requires maxChunkSize > 0 && |content| > maxChunkSize
    ensures var chunks := Chunks(content, maxChunkSize);
      |chunks| == (|content| + maxChunkSize - 1) / maxChunkSize &&
      (forall k :: 0 <= k < |chunks| - 1 ==> |chunks[k]| == maxChunkSize) &&
      1 <= |chunks[|chunks| - 1]| <= maxChunkSize
    decreases |content|
  {
    var rest := content[maxChunkSize..];
    var chunks := Chunks(content, maxChunkSize);
    if |rest| > maxChunkSize {
      LongContentChunkSizes(rest, maxChunkSize);
      DivStep(|rest|, maxChunkSize);
    } else {
      assert chunks == [content[..maxChunkSize], rest];
      DivOfTwoBlocks(|content|, maxChunkSize);
    }
  }

  lemma DivStep(n: nat, m: nat)
    requires m > 0
    ensures (n + m + m - 1) / m == (n + m - 1) / m + 1
  {
    var x := n + m - 1;
    DivUnique(x + m, m, x / m + 1, x % m);
  }

  lemma DivOfTwoBlocks(n: nat, m: nat)
    requires 0 < m < n <= m + m
    ensures (n + m - 1) / m == 2
  {
    DivUnique(n + m - 1, m, 2, n - m - 1);
  }

  /** Euclidean division has one quotient and remainder. */
  lemma DivUnique(x: int, m: int, q: int, r: int)
    requires m > 0 && 0 <= r < m && x == q * m + r
    ensures x / m == q
  {
    var q' := x / m;
    var r' := x % m;
    assert (q - q') * m == r' - r;
    if q > q' {
      MulAtLeast(q - q', m);
    } else if q < q' {
      MulAtLeast(q' - q, m);
    }
  }

  lemma MulAtLeast(a: int, m: int)
    requires a >= 1 && m > 0
    ensures a * m >= m
  {
    assert a * m == (a - 1) * m + m;
  }
}
