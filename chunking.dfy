/** Splitting the reference stream into request batches. */
module Chunking {
  import opened Records
  import opened Streams

  /**
    `chunk(size, xs)`: consecutive slices of `size` items, the last one
    possibly shorter. A size of zero or less zips no iterators at all and so
    yields no chunk, whatever `xs` holds.
   */
  function Chunk<T>(size: int, xs: seq<T>): seq<seq<T>>
    decreases |xs|
  {
    if size <= 0 || xs == [] then []
    else if |xs| <= size then [xs]
    else [xs[..size]] + Chunk(size, xs[size..])
  }

  /** The documented example: five items in chunks of three. */
  lemma ChunkExample()
    ensures Chunk(3, [1, 2, 3, 4, 5]) == [[1, 2, 3], [4, 5]]
  {
    var xs := [1, 2, 3, 4, 5];
    assert xs[..3] == [1, 2, 3] && xs[3..] == [4, 5];
  }

  /** Concatenating the chunks gives back the input, in order. */
  lemma {:induction false} ChunkFlatten<T>(size: int, xs: seq<T>)
    requires size > 0
    ensures Flatten(Chunk(size, xs)) == xs
    decreases |xs|
  {
    if |xs| > size {
      ChunkFlatten(size, xs[size..]);
      assert xs == xs[..size] + xs[size..];
    }
  }

  /** Every chunk is non-empty and holds at most `size` items; all but the last hold exactly `size`. */
  lemma {:induction false} ChunkSizes<T>(size: int, xs: seq<T>)
    requires size > 0
    ensures forall i :: 0 <= i < |Chunk(size, xs)| ==> 0 < |Chunk(size, xs)[i]| <= size
    ensures forall i :: 0 <= i < |Chunk(size, xs)| - 1 ==> |Chunk(size, xs)[i]| == size
    decreases |xs|
  {
    if |xs| > size {
      ChunkSizes(size, xs[size..]);
      var r := Chunk(size, xs);
      assert forall i :: 1 <= i < |r| ==> r[i] == Chunk(size, xs[size..])[i - 1];
    }
  }

  /** There are ceil(|xs| / size) chunks; an empty input gives none. */
  lemma {:induction false} ChunkCount<T>(size: int, xs: seq<T>)
    requires size > 0
    ensures |Chunk(size, xs)| == (|xs| + size - 1) / size
    decreases |xs|
  {
    if xs == [] {
      DivUnique(size - 1, size, 0, size - 1);
    } else if |xs| <= size {
      DivUnique(|xs| + size - 1, size, 1, |xs| - 1);
    } else {
      ChunkCount(size, xs[size..]);
      var m := |xs| - 1;
      DivUnique(m, size, m / size, m % size);
      DivUnique(m + size, size, m / size + 1, m % size);
    }
  }

  /** Quotient and remainder are determined by the division equation. */
  lemma DivUnique(n: int, d: int, q: int, r: int)
    requires d > 0 && 0 <= r < d && n == q * d + r
    ensures n / d == q && n % d == r
  {
    var k := n / d - q;
    assert k * d == r - n % d;
    if k > 0 {
      MulAtLeast(k, d);
    } else if k < 0 {
      MulAtLeast(-k, d);
    }
  }

  lemma MulAtLeast(k: int, d: int)
    requires k > 0 && d > 0
    ensures k * d >= d
  {
  }

  /** Every item of every chunk is an item of the input. */
  lemma {:induction false} ChunkMember<T>(size: int, xs: seq<T>, b: seq<T>, x: T)
    requires b in Chunk(size, xs) && x in b
    ensures x in xs
    decreases |xs|
  {
    if b != xs && b != xs[..size] {
      ChunkMember(size, xs[size..], b, x);
    }
  }

  /**
    Batching an upstream stage. An exhausted upstream has all its items
    batched; when the upstream raises, the batch that was being filled is
    lost and only the full batches before it are passed on.
   */
  function ChunkStream<T>(size: int, s: Stream<T>): Stream<seq<T>> {
    if size <= 0 then Stream([], Complete)
    else if s.status.Complete? then Stream(Chunk(size, s.items), Complete)
    else Stream(Chunk(size, s.items[..|s.items| - |s.items| % size]), s.status)
  }

  /**
    The batches pass on the upstream's items in order, losing at most the
    fewer than `size` items of the batch in flight when the upstream raised.
   */
  lemma ChunkStreamLoss<T>(size: int, s: Stream<T>)
    requires size > 0
    ensures ChunkStream(size, s).status == s.status
    ensures Flatten(ChunkStream(size, s).items) <= s.items
    ensures s.status.Complete? ==> Flatten(ChunkStream(size, s).items) == s.items
    ensures |s.items| - |Flatten(ChunkStream(size, s).items)| < size
    ensures s.status.Raised? ==> forall b :: b in ChunkStream(size, s).items ==> |b| == size
  {
    var n := |s.items| - |s.items| % size;
    if s.status.Complete? {
      ChunkFlatten(size, s.items);
    } else {
      DivUnique(|s.items|, size, |s.items| / size, |s.items| % size);
      DivUnique(n, size, |s.items| / size, 0);
      ChunkFlatten(size, s.items[..n]);
      FullChunks(size, s.items[..n]);
    }
  }

  /** A multiple of `size` items is split into full chunks only. */
  lemma {:induction false} FullChunks<T>(size: int, ys: seq<T>)
    requires size > 0 && |ys| % size == 0
    ensures forall b :: b in Chunk(size, ys) ==> |b| == size
    decreases |ys|
  {
    if |ys| > size {
      DivUnique(|ys|, size, |ys| / size, 0);
      DivUnique(|ys| - size, size, |ys| / size - 1, 0);
      FullChunks(size, ys[size..]);
    } else if 0 < |ys| < size {
      DivUnique(|ys|, size, 0, |ys|);
    }
  }

  /** Every item of every batch passed on is an item the upstream yielded. */
  lemma ChunkStreamMember<T>(size: int, s: Stream<T>, b: seq<T>, x: T)
    requires b in ChunkStream(size, s).items && x in b
    ensures x in s.items
  {
    if s.status.Complete? {
      ChunkMember(size, s.items, b, x);
    } else {
      var full := s.items[..|s.items| - |s.items| % size];
      ChunkMember(size, full, b, x);
    }
  }
}
