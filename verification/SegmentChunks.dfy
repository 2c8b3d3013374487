/** `segments_in_chunk`: the row groups or stripes that one of several chunked reads takes. */
module SegmentChunks {
  import opened Arithmetic
  import opened Outcomes
  import opened Sequences

  /** Division of C++ integers, which truncates. */
  function Truncated(a: int, b: int): int
    requires b != 0
  {
    if a >= 0 then a / b else -(-a / b)
  }

  /** Dividing back leaves less than one divisor, with the sign of the dividend. */
  lemma TruncatedIs(a: int, b: int)
    requires b != 0
    ensures var rest := a - b * Truncated(a, b);
            -Max(b, -b) < rest < Max(b, -b) && if a >= 0 then rest >= 0 else rest <= 0
  {
    if a >= 0 {
      assert a - b * Truncated(a, b) == a % b;
    } else {
      assert b * Truncated(a, b) == -(b * (-a / b));
      assert -a == b * (-a / b) + -a % b;
    }
  }

  /** `div_rounding_up_unsafe`. */
  function DivRoundingUp(n: int, k: int): int
    requires k != 0
  {
    Truncated(n + k - 1, k)
  }

  function Span(begin: int, end: int): (r: seq<int>)
    requires begin <= end
    ensures |r| == end - begin && forall i :: 0 <= i < |r| ==> r[i] == begin + i
  {
    seq(end - begin, i => begin + i)
  }

  /** The segments of chunk `idx` when each takes `size`. */
  function Chunk(n: int, size: nat, idx: int): seq<int> {
    var begin := Min(idx * size, n);
    Span(begin, Min(begin + size, n))
  }

  /**
    The segments of one chunk. Too many chunks and too large a chunk number throw; so
    does the vector's constructor when a negative number of chunks makes its length
    negative. Zero chunks, where the code divides by zero, count as a failure too.
   */
  method SegmentsInChunk(numSegments: int, numChunks: int, chunkIdx: int) returns (r: Result<seq<int>>)
    ensures r.Failure? <==>
        numSegments < numChunks || chunkIdx >= numChunks || numChunks == 0 || DivRoundingUp(numSegments, numChunks) < 0
    ensures r.Success? ==> r.value == Chunk(numSegments, DivRoundingUp(numSegments, numChunks), chunkIdx)
  {
    if numSegments < numChunks || chunkIdx >= numChunks || numChunks == 0 {
      return Failure;
    }
    var segmentsInChunk := DivRoundingUp(numSegments, numChunks);
    var begin := Min(chunkIdx * segmentsInChunk, numSegments);
    var end := Min(begin + segmentsInChunk, numSegments);
    if end - begin < 0 {
      return Failure;
    }
    var selected := new int[end - begin];
    for i := 0 to selected.Length
      invariant forall j :: 0 <= j < i ==> selected[j] == begin + j
    {
      selected[i] := begin + i;
    }
    assert selected[..] == Span(begin, end);
    r := Success(selected[..]);
  }

  /**
    With chunks to choose from, the segments are segments of the file exactly when the
    chunk number is not negative.
   */
  lemma SegmentsOfFileIff(n: int, k: int, idx: int)
    requires n >= k >= 1 && idx < k
    ensures DivRoundingUp(n, k) >= 1
    ensures (forall i :: 0 <= i < |Chunk(n, DivRoundingUp(n, k), idx)| ==>
             0 <= Chunk(n, DivRoundingUp(n, k), idx)[i] < n) <==> idx >= 0
  {
    RoundedUp(n, k);
    var size := DivRoundingUp(n, k);
    if idx >= 0 {
      NotNegative(size, idx);
      assert idx * size >= 0;
    } else {
      TimesAtLeast(size, -idx);
      assert idx * size == -(size * -idx) <= -size;
      assert Chunk(n, size, idx)[0] == idx * size;
    }
  }

  function Chunks(n: nat, size: nat, k: nat): (r: seq<seq<int>>)
    ensures |r| == k && forall i :: 0 <= i < k ==> r[i] == Chunk(n, size, i)
  {
    seq(k, i requires 0 <= i < k => Chunk(n, size, i))
  }

  lemma NextProduct(k: nat, size: nat)
    requires k > 0
    ensures k * size == (k - 1) * size + size
  {
  }

  /** The first chunks cover a prefix. */
  lemma {:induction false} ChunksCoverPrefix(n: nat, size: nat, k: nat)
    ensures 0 <= Min(k * size, n) && Flatten(Chunks(n, size, k)) == Span(0, Min(k * size, n))
  {
    if k > 0 {
      ChunksCoverPrefix(n, size, k - 1);
      NextProduct(k, size);
      assert Chunks(n, size, k) == Chunks(n, size, k - 1) + [Chunk(n, size, k - 1)];
      FlattenSnoc(Chunks(n, size, k - 1), Chunk(n, size, k - 1));
      SpansJoin(Min((k - 1) * size, n), Min(k * size, n));
    }
  }

  lemma SpansJoin(b: int, c: int)
    requires 0 <= b <= c
    ensures Span(0, b) + Span(b, c) == Span(0, c)
  {
  }

  lemma RoundedUp(n: nat, k: nat)
    requires k > 0
    ensures DivRoundingUp(n, k) >= 0 && n <= k * DivRoundingUp(n, k) < n + k
    ensures n > 0 ==> DivRoundingUp(n, k) > 0
  {
    var q, r := (n + k - 1) / k, (n + k - 1) % k;
    assert n + k - 1 == k * q + r;
    assert q == DivRoundingUp(n, k);
    if q <= 0 {
      assert k * q <= 0;
    }
  }

  /** All chunks together are all segments, in order, each once. */
  lemma ChunksPartition(n: nat, k: nat)
    requires n >= k >= 1
    ensures DivRoundingUp(n, k) >= 0
    ensures Flatten(Chunks(n, DivRoundingUp(n, k), k)) == Span(0, n)
  {
    RoundedUp(n, k);
    ChunksCoverPrefix(n, DivRoundingUp(n, k), k);
  }

  /** Five segments in four chunks: the last one gets nothing. */
  lemma EmptyChunkExample()
    ensures DivRoundingUp(5, 4) == 2 && Chunk(5, 2, 2) == [4] && Chunk(5, 2, 3) == []
  {
  }
}
