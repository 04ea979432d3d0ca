/** Splitting a list into consecutive chunks of bounded size, as both the search handler
    (100 keys per batch-get) and the ingestion function (25 items per batch-write, 40 calls
    per group) do with a loop whose index steps by the chunk size. */
module Chunking {
  import opened Seqs

  /** The number of chunks of at most `size` elements needed for `n` elements: ceil(n / size),
      counted the way the loop counts them. */
  function CeilDiv(n: nat, size: nat): nat
    requires size > 0
    decreases n
  {
    if n == 0 then 0 else if n <= size then 1 else 1 + CeilDiv(n - size, size)
  }

  /** For the literal chunk sizes of the source the count is the usual integer ceiling. */
  lemma {:induction false} CeilDivIsCeiling(n: nat, size: nat)
    requires size == 25 || size == 40 || size == 100
    ensures CeilDiv(n, size) == (n + size - 1) / size
    decreases n
  {
    if n > size {
      CeilDivIsCeiling(n - size, size);
    }
  }

  /** The chunks that loop produces: the first `size` elements (or all of them), then the
      chunks of the rest. */
  function Chunks<T>(xs: seq<T>, size: nat): seq<seq<T>>
    requires size > 0
    decreases |xs|
  {
    if xs == [] then []
    else if |xs| <= size then [xs]
    else [xs[..size]] + Chunks(xs[size..], size)
  }

  /** The chunks partition the input: they concatenate back to `xs` exactly, each holds
      between 1 and `size` elements, and there are ceil(|xs| / size) of them. */
  lemma {:induction false} ChunksPartition<T>(xs: seq<T>, size: nat)
    requires size > 0
    ensures Flatten(Chunks(xs, size)) == xs
    ensures forall k :: 0 <= k < |Chunks(xs, size)| ==> 1 <= |Chunks(xs, size)[k]| <= size
    ensures |Chunks(xs, size)| == CeilDiv(|xs|, size)
    decreases |xs|
  {
    if xs == [] {
    } else if |xs| <= size {
      FlattenSingleton(xs);
    } else {
      var rest := Chunks(xs[size..], size);
      ChunksPartition(xs[size..], size);
      assert ([xs[..size]] + rest)[1..] == rest;
      assert xs[..size] + xs[size..] == xs;
    }
  }

  /** Chunk `k` is the window `xs[k * size .. min(k * size + size, |xs|)]`. */
  lemma {:induction false} ChunkAt<T>(xs: seq<T>, size: nat, k: nat)
    requires size > 0 && k < |Chunks(xs, size)|
    ensures k * size < |xs|
    ensures Chunks(xs, size)[k] == xs[k * size .. Min(k * size + size, |xs|)]
  {
    if k > 0 {
      assert |xs| > size;
      var rest := xs[size..];
      assert Chunks(xs, size)[k] == Chunks(rest, size)[k - 1];
      ChunkAt(rest, size, k - 1);
      var a := (k - 1) * size;
      MulStep(k - 1, size);
      assert k * size == a + size;
      assert rest[a .. Min(a + size, |rest|)] == xs[a + size .. Min(a + size + size, |xs|)];
    } else {
      assert k * size == 0;
    }
  }

  /** What is left of `xs` once the loop index has reached `i`. */
  function Drop<T>(xs: seq<T>, i: nat): seq<T>
  {
    if i <= |xs| then xs[i..] else []
  }

  /** One step of the loop: the first chunk is the first `size` elements (or all of them). */
  lemma ChunksUnfold<T>(xs: seq<T>, size: nat)
    requires size > 0 && xs != []
    ensures Chunks(xs, size) == [xs[..Min(size, |xs|)]] + Chunks(Drop(xs, size), size)
  {
    if |xs| <= size {
      assert Drop(xs, size) == [] && xs[..Min(size, |xs|)] == xs;
      assert Chunks(Drop(xs, size), size) == [];
    } else {
      assert Drop(xs, size) == xs[size..] && Min(size, |xs|) == size;
    }
  }

  /** The stepped `for` loop that builds the chunks. */
  method Chunk<T>(xs: seq<T>, size: nat) returns (chunks: seq<seq<T>>)
    requires size > 0
    ensures chunks == Chunks(xs, size)
  {
    chunks := [];
    var i := 0;
    assert Drop(xs, i) == xs;
    while i < |xs|
      invariant chunks + Chunks(Drop(xs, i), size) == Chunks(xs, size)
      decreases |xs| - i
    {
      var end := Min(|xs|, i + size);
      ghost var rest := xs[i..];
      ChunksUnfold(rest, size);
      assert rest[..Min(size, |rest|)] == xs[i..end];
      assert Drop(rest, size) == Drop(xs, i + size);
      ghost var later := Chunks(Drop(xs, i + size), size);
      assert (chunks + [xs[i..end]]) + later == chunks + ([xs[i..end]] + later);
      chunks := chunks + [xs[i..end]];
      i := i + size;
    }
  }

  lemma MulStep(c: nat, w: nat)
    ensures c * w + w == (c + 1) * w
  {
  }

  /** `count` windows of width `w` over `xs`, window `k` holding the elements at positions
      `k * w` up to `k * w + w` (clamped); windows that start past the end are empty. */
  function Windows<T>(xs: seq<T>, count: nat, w: nat): seq<seq<T>>
  {
    seq(count, k requires 0 <= k < count => Slice(xs, k * w, k * w + w))
  }

  /** A prefix followed by the window that starts where it ends is a longer prefix. */
  lemma PrefixThenSlice<T>(xs: seq<T>, a: nat, b: nat)
    requires a <= b
    ensures xs[..Min(a, |xs|)] + Slice(xs, a, b) == xs[..Min(b, |xs|)]
  {
    if Min(a, |xs|) < Min(b, |xs|) {
      assert xs[..Min(b, |xs|)] == xs[..Min(a, |xs|)] + xs[Min(a, |xs|)..Min(b, |xs|)];
    }
  }

  /** The windows concatenate to the first `count * w` elements of `xs` (all of it when long enough). */
  lemma {:induction false} FlattenWindows<T>(xs: seq<T>, count: nat, w: nat)
    ensures Flatten(Windows(xs, count, w)) == xs[..Min(count * w, |xs|)]
  {
    if count > 0 {
      var c := count - 1;
      var last := Slice(xs, c * w, c * w + w);
      FlattenWindows(xs, c, w);
      assert Windows(xs, count, w) == Windows(xs, c, w) + [last];
      FlattenAppend(Windows(xs, c, w), [last]);
      FlattenSingleton(last);
      MulStep(c, w);
      PrefixThenSlice(xs, c * w, c * w + w);
    } else {
      assert Windows(xs, count, w) == [];
    }
  }
}
