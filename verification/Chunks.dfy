/** Rows saved in chunk files: what both collectors do with `buffer`, `chunk_files` and the
    final concatenation of the files. */
module Chunks {

  /** pd.concat over the chunk files, in the order they were saved. */
  function Concat<T>(chunks: seq<seq<T>>): seq<T> {
    if chunks == [] then [] else Concat(chunks[..|chunks| - 1]) + chunks[|chunks| - 1]
  }

  /** Every chunk is full. */
  predicate Full<T>(chunks: seq<seq<T>>, size: nat) {
    forall i :: 0 <= i < |chunks| ==> |chunks[i]| == size
  }

  lemma {:induction false} ConcatFull<T>(chunks: seq<seq<T>>, size: nat)
    requires Full(chunks, size)
    ensures |Concat(chunks)| == |chunks| * size
  {
    if chunks != [] {
      ConcatFull(chunks[..|chunks| - 1], size);
      assert (|chunks| - 1) * size + size == |chunks| * size;
    }
  }

  /** The saved chunks followed by the buffer are the rows so far, and the chunk sizes are
      those of a run toward `target` rows: all chunks full, except that the last one may be
      shorter once the target is reached. */
  ghost predicate Layout<T>(chunks: seq<seq<T>>, buffer: seq<T>, rows: seq<T>, size: nat, target: int) {
    && Concat(chunks) + buffer == rows
    && (Full(chunks, size)
        || (chunks != [] && Full(chunks[..|chunks| - 1], size) && 0 < |chunks[|chunks| - 1]| <= size
            && buffer == [] && |rows| >= target))
  }

  /** What an early stop can cost: the saved rows are a prefix, at most one chunk short. */
  lemma {:induction false} PrefixLoss<T>(chunks: seq<seq<T>>, buffer: seq<T>, rows: seq<T>, size: nat, target: int)
    requires Layout(chunks, buffer, rows, size, target) && |buffer| <= size
    ensures Concat(chunks) <= rows && |rows| - |Concat(chunks)| <= size
  {
    assert rows[..|Concat(chunks)|] == Concat(chunks);
  }

  /** A completed run leaves ceil(target / size) chunk files. */
  lemma {:induction false} ChunkCount<T>(chunks: seq<seq<T>>, rows: seq<T>, size: nat, target: nat)
    requires size >= 1 && Layout(chunks, [], rows, size, target) && |rows| == target
    ensures |chunks| == (target + size - 1) / size
  {
    if Full(chunks, size) {
      ConcatFull(chunks, size);
      CeilExact(|chunks|, size, size);
    } else {
      ConcatFull(chunks[..|chunks| - 1], size);
      CeilExact(|chunks|, size, |chunks[|chunks| - 1]|);
    }
  }

  lemma {:induction false} CeilExact(n: nat, size: nat, last: nat)
    requires size >= 1 && 0 < last <= size
    ensures n >= 1 ==> ((n - 1) * size + last + size - 1) / size == n
    ensures (n * size + size - 1) / size == n
  {
    DivUnique(n * size + size - 1, n, size);
    if n >= 1 {
      assert (n - 1) * size == n * size - size;
      DivUnique((n - 1) * size + last + size - 1, n, size);
    }
  }

  lemma {:induction false} DivUnique(x: int, q: int, d: int)
    requires d >= 1 && q * d <= x < q * d + d
    ensures x / d == q
  {
    MultiplesApart(x / d, q, d);
    MultiplesApart(q, x / d, d);
  }

  lemma {:induction false} MultiplesApart(p: int, q: int, d: int)
    requires d >= 1
    ensures p < q ==> (p + 1) * d <= q * d
  {
    if p < q {
      assert (q - p - 1) * d >= 0;
    }
  }
}
