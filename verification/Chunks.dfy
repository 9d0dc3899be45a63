/** How the chunk store lays a file's bytes out: consecutive pieces of `cs` bytes, the last possibly short.
    A char stands for one byte throughout the project. */
module Chunks {
  import opened CTypes

  function NumChunks(len: nat, cs: nat): nat
    requires cs > 0
  {
    (len + cs - 1) / cs
  }

  function ChunkAt(data: string, cs: nat, n: nat): (chunk: string)
    requires cs > 0 && n < NumChunks(|data|, cs)
    ensures 0 < |chunk| <= cs
  {
    ChunkBounds(|data|, cs, n);
    data[n * cs..Min(n * cs + cs, |data|)]
  }

  lemma ChunkBounds(len: nat, cs: nat, n: nat)
    requires cs > 0
    ensures n < NumChunks(len, cs) <==> n * cs < len
  {
    var q := NumChunks(len, cs);
    var r := (len + cs - 1) % cs;
    assert len + cs - 1 == q * cs + r;
    if n < q {
      assert n * cs <= (q - 1) * cs;
    } else {
      assert n * cs >= q * cs;
    }
  }

  function Split(data: string, cs: nat): (chunks: seq<string>)
    requires cs > 0
    ensures |chunks| == NumChunks(|data|, cs)
  {
    seq(NumChunks(|data|, cs), n requires 0 <= n < NumChunks(|data|, cs) => ChunkAt(data, cs, n))
  }

  function Concat(chunks: seq<string>): string {
    if chunks == [] then "" else Concat(chunks[..|chunks| - 1]) + chunks[|chunks| - 1]
  }

  lemma SplitAt(data: string, cs: nat, n: nat)
    requires cs > 0 && n < NumChunks(|data|, cs)
    ensures 0 <= n * cs < |data|
    ensures |Split(data, cs)| == NumChunks(|data|, cs) && Split(data, cs)[n] == data[n * cs..Min(n * cs + cs, |data|)]
  {
    hide NumChunks;
    ChunkBounds(|data|, cs, n);
  }

  lemma {:induction false} ConcatPrefix(data: string, cs: nat, n: nat)
    requires cs > 0 && n <= NumChunks(|data|, cs)
    ensures Concat(Split(data, cs)[..n]) == data[..Min(n * cs, |data|)]
  {
    hide NumChunks, Split;
    if n > 0 {
      ConcatPrefix(data, cs, n - 1);
      SplitAt(data, cs, n - 1);
      NextMultiple(cs, n);
      var s := Split(data, cs)[..n];
      assert s[..n - 1] == Split(data, cs)[..n - 1];
      var lo, hi := (n - 1) * cs, Min(n * cs, |data|);
      assert data[..lo] + data[lo..hi] == data[..hi];
    }
  }

  lemma NextMultiple(cs: nat, n: nat)
    requires n > 0
    ensures n * cs == (n - 1) * cs + cs
  {
  }

  /** Storing loses nothing: the chunks of a file, put back together, are the file. */
  lemma ConcatSplit(data: string, cs: nat)
    requires cs > 0
    ensures Concat(Split(data, cs)) == data
  {
    var n := NumChunks(|data|, cs);
    ConcatPrefix(data, cs, n);
    ChunkBounds(|data|, cs, n);
    assert Split(data, cs)[..n] == Split(data, cs);
    assert data[..|data|] == data;
  }

  /** The flat reading of a file: what a read at `offset` of `size` bytes must return. */
  function Slice(data: string, offset: int, size: nat): string {
    if 0 <= offset <= |data| then data[offset..Min(offset + size, |data|)] else ""
  }

  /** A byte range inside one chunk is the same range of the file. */
  lemma SliceOfChunk(data: string, cs: nat, n: nat, lo: nat, hi: nat)
    requires cs > 0 && n < NumChunks(|data|, cs) && lo <= hi <= cs && n * cs + hi <= |data|
    ensures hi <= |ChunkAt(data, cs, n)|
    ensures ChunkAt(data, cs, n)[lo..hi] == data[n * cs + lo..n * cs + hi]
  {
    ChunkBounds(|data|, cs, n);
    SliceSlice(data, n * cs, Min(n * cs + cs, |data|), lo, hi);
  }

  lemma SliceSlice(s: string, a: nat, b: nat, lo: nat, hi: nat)
    requires a <= b <= |s| && lo <= hi <= b - a
    ensures s[a..b][lo..hi] == s[a + lo..a + hi]
  {
    var t, u := s[a..b][lo..hi], s[a + lo..a + hi];
    assert |t| == |u| && forall i :: 0 <= i < |t| ==> t[i] == u[i];
  }
}
