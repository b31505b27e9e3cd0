/** Batching: the list comprehension that cuts the URL list into slices of
    at most MAX_URLS. */
module Chunking {
  import opened Seqs

  /** The largest number of URLs in one sitemap file. */
  const MAX_URLS: nat := 2000

  /** len(range(0, n, size)): the number of slice starts below n. */
  function NumChunks(n: nat, size: nat): nat
    requires size > 0
  {
    (n + size - 1) / size
  }

  /** [s[i:i + size] for i in range(0, len(s), size)]. The slice of the
      comprehension is Python's, which stops at the end of `s`. */
  function Chunks<T>(s: seq<T>, size: nat): seq<seq<T>>
    requires size > 0
  {
    seq(NumChunks(|s|, size), k requires 0 <= k < NumChunks(|s|, size) => PySlice(s, k * size, k * size + size))
  }

  lemma MulLe(a: nat, b: nat, c: nat)
    requires a <= b
    ensures a * c <= b * c
  {
  }

  /** `m / size` is at least every `a` with `a * size <= m`. */
  lemma DivAtLeast(m: nat, size: nat, a: nat)
    requires size > 0 && a * size <= m
    ensures a <= m / size
  {
    var q := m / size;
    assert m == q * size + m % size;
    if q < a {
      assert (q + 1) * size == q * size + size;
      MulLe(q + 1, a, size);
    }
  }

  /** Where the k-th slice starts and ends: it starts inside the list, and
      only the last slice reaches its end. */
  lemma ChunkBounds(n: nat, size: nat, k: nat)
    requires size > 0 && k < NumChunks(n, size)
    ensures k * size < n
    ensures k + 1 < NumChunks(n, size) ==> k * size + size < n
    ensures k + 1 == NumChunks(n, size) ==> n <= k * size + size
  {
    var m, q := n + size - 1, NumChunks(n, size);
    assert m == q * size + m % size;
    MulLe(k, q - 1, size);
    assert (q - 1) * size == q * size - size;
    if k + 1 < q {
      MulLe(k + 1, q - 1, size);
      assert (k + 1) * size == k * size + size;
    }
    if k + 1 == q {
      assert (k + 1) * size == k * size + size;
    }
  }

  /** The number of chunks is n / size rounded up: enough slices to hold
      the whole list and not one more, and no chunk at all for an empty
      list. */
  lemma {:induction false} ChunkCount<T>(s: seq<T>, size: nat)
    requires size > 0
    ensures |s| <= |Chunks(s, size)| * size < |s| + size
    ensures Chunks(s, size) == [] <==> s == []
  {
    var m, q := |s| + size - 1, NumChunks(|s|, size);
    assert m == q * size + m % size;
    if s != [] {
      DivAtLeast(m, size, 1);
    }
  }

  /** Every chunk holds between 1 and size URLs, and every chunk but the
      last holds exactly size. */
  lemma ChunkSizes<T>(s: seq<T>, size: nat)
    requires size > 0
    ensures forall k :: 0 <= k < |Chunks(s, size)| ==> 1 <= |Chunks(s, size)[k]| <= size
    ensures forall k :: 0 <= k < |Chunks(s, size)| - 1 ==> |Chunks(s, size)[k]| == size
  {
    forall k | 0 <= k < |Chunks(s, size)|
      ensures 1 <= |Chunks(s, size)[k]| <= size
      ensures k < |Chunks(s, size)| - 1 ==> |Chunks(s, size)[k]| == size
    {
      ChunkBounds(|s|, size, k);
    }
  }

  /** Chunk k, starting at lo = k * size, runs to the next multiple of size
      or to the end of the list. */
  lemma ChunkAt<T>(s: seq<T>, size: nat, k: nat, lo: nat)
    requires size > 0 && k < |Chunks(s, size)| && lo == k * size
    ensures lo < |s| && Chunks(s, size)[k] == s[lo..Min(lo + size, |s|)]
  {
    ChunkBounds(|s|, size, k);
    assert Chunks(s, size)[k] == PySlice(s, lo, lo + size);
  }

  lemma {:induction false} FlattenChunksPrefix<T>(s: seq<T>, size: nat, j: nat)
    requires size > 0 && j <= |Chunks(s, size)|
    ensures Flatten(Chunks(s, size)[..j]) == s[..Min(j * size, |s|)]
  {
    var r := Chunks(s, size);
    if j == 0 {
      assert r[..0] == [];
    } else {
      var lo := (j - 1) * size;
      assert j * size == lo + size;
      var hi := Min(lo + size, |s|);
      FlattenChunksPrefix(s, size, j - 1);
      ChunkAt(s, size, j - 1, lo);
      FlattenPrefixSnoc(r, j);
      assert s[..lo] + s[lo..hi] == s[..hi];
    }
  }

  /** Concatenating the chunks in order gives back the list: nothing is
      lost, reordered or repeated. */
  lemma ChunksConcat<T>(s: seq<T>, size: nat)
    requires size > 0
    ensures Flatten(Chunks(s, size)) == s
  {
    var r := Chunks(s, size);
    FlattenChunksPrefix(s, size, |r|);
    ChunkCount(s, size);
    assert r[..|r|] == r;
  }

  /** The i-th URL is at offset i % size of chunk i / size. */
  lemma ChunkOf<T>(s: seq<T>, size: nat, i: nat)
    requires size > 0 && i < |s|
    ensures i / size < |Chunks(s, size)|
    ensures i % size < |Chunks(s, size)[i / size]|
    ensures Chunks(s, size)[i / size][i % size] == s[i]
  {
    var k, o := i / size, i % size;
    assert i == k * size + o;
    DivAtLeast(|s| + size - 1, size, k + 1);
    ChunkBounds(|s|, size, k);
  }

  /** Offset o of chunk k is the URL at k * size + o: every chunk is a
      stretch of the list itself. */
  lemma ChunkElement<T>(s: seq<T>, size: nat, k: nat, o: nat)
    requires size > 0 && k < |Chunks(s, size)| && o < |Chunks(s, size)[k]|
    ensures k * size + o < |s|
    ensures Chunks(s, size)[k][o] == s[k * size + o]
  {
    ChunkBounds(|s|, size, k);
  }
}
