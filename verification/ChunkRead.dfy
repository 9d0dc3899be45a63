/** File::read: the loop that cuts a read into pieces inside one chunk, and the one-chunk cache. */
module ChunkRead {
  import opened CTypes
  import opened Chunks

  /** theCachedChunkN and theCachedChunk, and the chunk numbers asked of the store so far. */
  datatype ChunkCache = ChunkCache(n: int, chunk: string, fetches: seq<int>)

  const EMPTY_CACHE := ChunkCache(-1, "", [])

  /** Fault: an assert fails or memory outside the chunk would be copied. */
  datatype Outcome = Done(bytes: string) | Eio | Fault

  /** The chunk a position lies in, as the code computes it: both operands cut down to int, then C division. */
  function ChunkNumber(pos: nat, cs: nat): int
    requires 0 < cs < TWO_31
  {
    CDiv(ToInt32(pos), ToInt32(cs))
  }

  /** Where in that chunk: the C remainder, which may be negative, widened to size_t. */
  function ChunkOffset(pos: nat, cs: nat): nat
    requires 0 < cs < TWO_31
  {
    SizeT(CMod(ToInt32(pos), ToInt32(cs)))
  }

  /** How many bytes to take next when `got` are there: no more than the file has, and no more than the chunk has. */
  function PieceSize(length: nat, cs: nat, offset: nat, size: nat, got: nat, chunkOffset: nat): nat {
    var toLength := if SizeT(offset + size) > length then SizeT(length - offset) else size;
    var rest := SizeT(toLength - got);
    if SizeT(rest + chunkOffset) > cs then SizeT(cs - chunkOffset) else rest
  }

  /** The inner read. `chunks` is what the store holds for the file, None once the file was removed. */
  function ReadPiece(chunks: Option<seq<string>>, length: nat, cs: nat, c: ChunkCache, n: int, size: nat, chunkOffset: nat)
    : (r: (ChunkCache, Outcome))
    ensures r.1.Done? ==> |r.1.bytes| == size && OffT(chunkOffset) >= 0
  {
    if cs == 0 || SizeT(chunkOffset + size) > cs || SizeT(chunkOffset + size) > length then
      (c, Fault)
    else if n != c.n && (chunks.None? || !(0 <= n < |chunks.value|)) then
      (c.(fetches := c.fetches + [n]), Eio)
    else
      var c' := if n != c.n then ChunkCache(n, chunks.value[n], c.fetches + [n]) else c;
      var o := OffT(chunkOffset);
      if 0 <= o && o + size <= |c'.chunk| then (c', Done(c'.chunk[o..o + size])) else (c', Fault)
  }

  /** The while loop, from the point where `got` has been read. */
  function ReadFrom(chunks: Option<seq<string>>, length: nat, cs: nat, c: ChunkCache, offset: nat, size: nat, got: string)
    : (ChunkCache, Outcome)
    requires 0 < cs < TWO_31 && length < TWO_63 && size < TWO_63 && offset <= length
    requires |got| <= size && offset + |got| <= length
    decreases size - |got|
  {
    if |got| == size || offset + |got| >= length then (c, Done(got)) else
    var pos := offset + |got|;
    var chunkOffset := ChunkOffset(pos, cs);
    var piece := PieceSize(length, cs, offset, size, |got|, chunkOffset);
    var (c', out) := ReadPiece(chunks, length, cs, c, ChunkNumber(pos, cs), piece, chunkOffset);
    match out
    case Done(bytes) =>
      OffsetInChunk(pos, cs);
      PieceClips(length, cs, offset, size, |got|, chunkOffset);
      ReadFrom(chunks, length, cs, c', offset, size, got + bytes)
    case _ => (c', out)
  }

  /** File::read once theChunkSize and theFileLength are known. */
  function Read(chunks: Option<seq<string>>, length: nat, cs: nat, c: ChunkCache, offset: int, size: nat)
    : (ChunkCache, Outcome)
    requires 0 < cs < TWO_31 && length < TWO_63 && size < TWO_63 && -TWO_63 <= offset < TWO_63
  {
    if length < SizeT(offset) then (c, Done("")) else ReadFrom(chunks, length, cs, c, offset, size, "")
  }

  // ---- where a position lands -------------------------------------------------------------

  lemma DivisionBounds(a: nat, b: nat)
    requires b > 0
    ensures a == b * (a / b) + a % b && 0 <= a / b && 0 <= a % b < b
    ensures a < b <==> a / b == 0
  {
    if a >= b {
      assert a / b != 0;
    }
  }

  /** The remainder of the casts, as the inner read's off_t sees it. */
  lemma OffsetInChunk(pos: nat, cs: int)
    requires 0 < cs < TWO_31
    ensures -cs < CMod(ToInt32(pos), cs) < cs
    ensures OffT(ChunkOffset(pos, cs)) == CMod(ToInt32(pos), cs)
    ensures OffT(ChunkOffset(pos, cs)) >= 0 ==> ChunkOffset(pos, cs) == CMod(ToInt32(pos), cs)
    ensures ChunkNumber(pos, cs) * cs + CMod(ToInt32(pos), cs) == ToInt32(pos)
  {
    assert ToInt32(cs) == cs;
    hide ToInt32, CDiv, CMod, SizeT, OffT;
    Truncation(ToInt32(pos), cs);
    OffTOfSizeT(CMod(ToInt32(pos), cs));
  }

  /** C division and remainder fit together. */
  lemma Truncation(p: int, cs: int)
    requires cs > 0
    ensures CDiv(p, cs) * cs + CMod(p, cs) == p
    ensures -cs < CMod(p, cs) < cs
    ensures (p >= 0 ==> CMod(p, cs) >= 0) && (p <= 0 ==> CMod(p, cs) <= 0)
  {
    if p >= 0 {
      DivisionBounds(p, cs);
    } else {
      DivisionBounds(-p, cs);
      Negate(cs, -p / cs);
    }
    Commute(cs, CDiv(p, cs));
  }

  lemma TruncationBelow(p: nat, cs: int)
    requires cs > 0
    ensures CDiv(p, cs) == p / cs && CMod(p, cs) == p % cs
  {
    DivisionBounds(p, cs);
  }

  lemma OffTOfSizeT(x: int)
    requires -TWO_31 < x < TWO_31
    ensures OffT(SizeT(x)) == x
    ensures x >= 0 ==> SizeT(x) == x
  {
  }

  lemma Negate(a: int, b: int)
    ensures a * -b == -(a * b)
  {
  }

  lemma Commute(a: int, b: int)
    ensures a * b == b * a
  {
  }

  /** The two clipping rules together: a piece stops at the end of the request, of the file, and of the chunk. */
  lemma PieceClips(length: nat, cs: nat, offset: nat, size: nat, got: nat, chunkOffset: nat)
    requires 0 < cs < TWO_31 && length < TWO_63 && size < TWO_63
    requires got < size && offset + got < length && chunkOffset < cs
    ensures PieceSize(length, cs, offset, size, got, chunkOffset)
         == Min(Min(offset + size, length) - offset - got, cs - chunkOffset)
  {
    hide SizeT;
    SizeTSmall(offset + size);
    SizeTSmall(length - offset);
    var toLength := Min(size, length - offset);
    SizeTSmall(toLength - got);
    SizeTSmall(toLength - got + chunkOffset);
    SizeTSmall(cs - chunkOffset);
  }

  lemma SizeTSmall(x: nat)
    requires x < TWO_64
    ensures SizeT(x) == x
  {
  }

  lemma OffTSmall(x: nat)
    requires x < TWO_63
    ensures OffT(x) == x
  {
  }

  lemma AddressBelow(pos: nat, cs: nat)
    requires 0 < cs < TWO_31 && pos < TWO_31
    ensures ChunkNumber(pos, cs) == pos / cs && ChunkOffset(pos, cs) == pos % cs
  {
    assert ToInt32(cs) == cs && ToInt32(pos) == pos;
    hide SizeT, ToInt32, CDiv, CMod;
    TruncationBelow(pos, cs);
    DivisionBounds(pos, cs);
    SizeTSmall(pos % cs);
  }

  lemma Recombine(pos: nat, cs: nat, n: int, o: int)
    requires cs > 0 && n == pos / cs && o == pos % cs
    ensures n * cs + o == pos && 0 <= o < cs
  {
    DivisionBounds(pos, cs);
    Commute(cs, n);
  }

  /** Below 2^31 the casts are harmless; from 2^31 on they never give the right chunk and offset. */
  lemma AddressExact(pos: nat, cs: nat)
    requires 0 < cs < TWO_31
    ensures (ChunkNumber(pos, cs) == pos / cs && ChunkOffset(pos, cs) == pos % cs) <==> pos < 2147483648
  {
    assert ToInt32(pos) < TWO_31;
    hide ChunkNumber, ChunkOffset, ToInt32, CMod, OffT;
    OffsetInChunk(pos, cs);
    var n, o := ChunkNumber(pos, cs), ChunkOffset(pos, cs);
    if pos < TWO_31 {
      AddressBelow(pos, cs);
    } else if n == pos / cs && o == pos % cs {
      Recombine(pos, cs, n, o);
      OffTSmall(o);
    }
  }

  // ---- what a read returns ----------------------------------------------------------------

  /** The cache is empty or holds the chunk it says it holds. */
  predicate CacheOk(c: ChunkCache, content: string, cs: nat)
    requires cs > 0
  {
    || (c.n == -1 && c.chunk == "")
    || (0 <= c.n < NumChunks(|content|, cs) && c.chunk == ChunkAt(content, cs, c.n))
  }

  /** The store holds the content's chunks, or nothing at all after a removal. */
  predicate Stored(chunks: Option<seq<string>>, content: string, cs: nat)
    requires cs > 0
  {
    chunks.Some? ==> chunks.value == Split(content, cs)
  }

  /** Where the last piece of a read starts. */
  function LastStart(cs: nat, offset: nat, end: nat): nat
    requires 0 < cs && offset < end
  {
    Max(offset, (end - 1) / cs * cs)
  }

  /** No piece of the read starts at or beyond 2^31; in particular every read of a file of at most 2^31 bytes. */
  predicate Addressable(length: nat, cs: nat, offset: int, size: nat)
    requires cs > 0
  {
    var end := Min(offset + size, length);
    0 <= offset < end ==> LastStart(cs, offset, end) < 2147483648
  }

  lemma SmallFilesAddressable(length: nat, cs: nat, offset: int, size: nat)
    requires cs > 0 && length <= 2147483648
    ensures Addressable(length, cs, offset, size)
  {
    var end := Min(offset + size, length);
    if 0 <= offset < end {
      DivisionBounds(end - 1, cs);
      Commute(cs, (end - 1) / cs);
    }
  }

  lemma PieceKeepsCache(content: string, chunks: Option<seq<string>>, cs: nat, c: ChunkCache, n: int, size: nat, o: nat)
    requires 0 < cs < TWO_31 && Stored(chunks, content, cs) && CacheOk(c, content, cs)
    ensures CacheOk(ReadPiece(chunks, |content|, cs, c, n, size, o).0, content, cs)
    ensures ReadPiece(chunks, |content|, cs, c, n, size, o).1.Done? && size > 0 ==>
              && 0 <= n < NumChunks(|content|, cs)
              && OffT(o) + size <= |ChunkAt(content, cs, n)|
              && ReadPiece(chunks, |content|, cs, c, n, size, o).1.bytes == ChunkAt(content, cs, n)[OffT(o)..OffT(o) + size]
    ensures ReadPiece(chunks, |content|, cs, c, n, size, o).1.Done? && size > 0 ==>
              ReadPiece(chunks, |content|, cs, c, n, size, o).0.n == n
  {
  }

  /** The chunk holding `pos`, and how far a piece may reach into it. */
  lemma ChunkHolds(content: string, cs: nat, pos: nat, size: nat)
    requires 0 < cs && pos + size <= |content| && size <= cs - pos % cs && size > 0
    ensures pos / cs < NumChunks(|content|, cs)
    ensures pos % cs + size <= |ChunkAt(content, cs, pos / cs)|
    ensures ChunkAt(content, cs, pos / cs)[pos % cs..pos % cs + size] == content[pos..pos + size]
  {
    DivisionBounds(pos, cs);
    Commute(cs, pos / cs);
    ChunkBounds(|content|, cs, pos / cs);
    SliceOfChunk(content, cs, pos / cs, pos % cs, pos % cs + size);
  }

  lemma PieceFits(content: string, chunks: Option<seq<string>>, cs: nat, c: ChunkCache, n: nat, size: nat, o: nat)
    requires 0 < cs < TWO_31 && Stored(chunks, content, cs) && CacheOk(c, content, cs) && |content| < TWO_63
    requires n < NumChunks(|content|, cs) && 0 < size && o + size <= |ChunkAt(content, cs, n)| && o + size <= |content|
    ensures
      var (c', out) := ReadPiece(chunks, |content|, cs, c, n, size, o);
      && out == (if chunks.Some? || c.n == n then Done(ChunkAt(content, cs, n)[o..o + size]) else Eio)
      && c'.fetches == c.fetches + (if c.n == n then [] else [n])
      && (out.Done? ==> c'.n == n)
  {
    assert SizeT(o + size) == o + size;
    assert OffT(o) == o;
  }

  /** One round of the loop below 2^31: the bytes at `pos`, asking the store only when the cache holds another chunk. */
  lemma RoundIsSlice(content: string, chunks: Option<seq<string>>, cs: nat, c: ChunkCache,
                     offset: nat, size: nat, got: string, pos: nat, piece: nat) returns (c': ChunkCache, out: Outcome)
    requires 0 < cs < TWO_31 && |content| < TWO_63 && size < TWO_63
    requires |got| < size && pos == offset + |got| < |content| && pos < TWO_31
    requires Stored(chunks, content, cs) && CacheOk(c, content, cs)
    requires piece == Min(Min(offset + size, |content|) - pos, cs - pos % cs) && piece > 0
    ensures out == if chunks.Some? || c.n == pos / cs then Done(content[pos..pos + piece]) else Eio
    ensures ReadFrom(chunks, |content|, cs, c, offset, size, got)
         == if out.Done? then ReadFrom(chunks, |content|, cs, c', offset, size, got + out.bytes) else (c', out)
    ensures CacheOk(c', content, cs)
    ensures out.Done? ==> c'.n == pos / cs && c'.fetches == c.fetches + (if c.n == pos / cs then [] else [pos / cs])
  {
    hide ReadPiece, PieceSize, CacheOk, Stored, ChunkNumber, ChunkOffset, ChunkAt, NumChunks, OffT;
    var n, o := pos / cs, pos % cs;
    AddressBelow(pos, cs);
    OffTSmall(o);
    DivisionBounds(pos, cs);
    PieceClips(|content|, cs, offset, size, |got|, o);
    ChunkHolds(content, cs, pos, piece);
    PieceFits(content, chunks, cs, c, n, piece, o);
    PieceKeepsCache(content, chunks, cs, c, n, piece, o);
    var r := ReadPiece(chunks, |content|, cs, c, n, piece, o);
    c', out := r.0, r.1;
  }

  function Range(lo: int, hi: int): seq<int> {
    if lo < hi then seq(hi - lo, i requires 0 <= i < hi - lo => lo + i) else []
  }

  lemma DivisionUnique(a: nat, b: nat, q: nat)
    requires b > 0 && q * b <= a < q * b + b
    ensures a / b == q && a % b == a - q * b
  {
    DivisionBounds(a, b);
    var d := a / b - q;
    assert b * (a / b) == b * q + b * d by { assert a / b == q + d; Distribute(b, q, d); }
    Commute(b, q);
    MultipleOf(b, d);
  }

  lemma MultipleOf(b: int, d: int)
    requires b > 0
    ensures d >= 1 ==> b * d >= b
    ensures d <= -1 ==> b * d <= -b
    ensures d >= 0 ==> b * d >= 0
  {
  }

  lemma Distribute(a: int, b: int, c: int)
    ensures a * (b + c) == a * b + a * c
  {
  }

  lemma DivisionMonotone(a: nat, b: nat, cs: nat)
    requires cs > 0 && a <= b
    ensures a / cs <= b / cs && a / cs * cs <= b / cs * cs
  {
    DivisionBounds(a, cs);
    DivisionBounds(b, cs);
    var d := b / cs - a / cs;
    Distribute(cs, a / cs, d);
    MultipleOf(cs, d);
    Commute(cs, a / cs);
    Commute(cs, b / cs);
  }

  /** Where one piece leads: to the end of the request inside the same chunk, or to the start of the next chunk. */
  lemma NextPosition(cs: nat, pos: nat, end: nat)
    requires 0 < cs && pos < end
    ensures
      var piece := Min(end - pos, cs - pos % cs);
      && 0 < piece
      && (piece == end - pos ==> (end - 1) / cs == pos / cs)
      && (piece < end - pos ==> (pos + piece) % cs == 0 && (pos + piece) / cs == pos / cs + 1)
  {
    DivisionBounds(pos, cs);
    Commute(cs, pos / cs);
    var piece := Min(end - pos, cs - pos % cs);
    if piece == end - pos {
      DivisionUnique(end - 1, cs, pos / cs);
    } else {
      Distribute(cs, pos / cs, 1);
      Commute(cs, pos / cs + 1);
      DivisionUnique(pos + piece, cs, pos / cs + 1);
    }
  }

  /** The chunks the loop still has to ask the store for, standing at `pos`: each once, in order. */
  function Fetches(cs: nat, c: ChunkCache, pos: nat, end: nat): seq<int>
    requires cs > 0
  {
    if pos >= end then [] else
    Range(if c.n == pos / cs then pos / cs + 1 else pos / cs, (end - 1) / cs + 1)
  }

  predicate AtPieceStart(cs: nat, offset: nat, end: nat, got: nat)
    requires cs > 0
  {
    got == 0 || offset + got == end || (offset + got) % cs == 0
  }

  lemma PieceStartBelow(cs: nat, offset: nat, end: nat, got: nat)
    requires 0 < cs && offset + got < end && AtPieceStart(cs, offset, end, got)
    ensures offset + got <= LastStart(cs, offset, end)
  {
    if got > 0 {
      DivisionMonotone(offset + got, end - 1, cs);
      DivisionBounds(offset + got, cs);
      Commute(cs, (offset + got) / cs);
    }
  }

  lemma LoopEnds(chunks: Option<seq<string>>, length: nat, cs: nat, c: ChunkCache, offset: nat, size: nat, got: string)
    requires 0 < cs < TWO_31 && length < TWO_63 && size < TWO_63 && offset <= length
    requires |got| <= size && offset + |got| == Min(offset + size, length)
    ensures ReadFrom(chunks, length, cs, c, offset, size, got) == (c, Done(got))
  {
  }

  lemma NoFetches(cs: nat, c: ChunkCache, pos: nat)
    requires 0 < cs
    ensures Fetches(cs, c, pos, pos) == []
  {
  }

  lemma FirstFetch(cs: nat, c: ChunkCache, pos: nat, end: nat)
    requires 0 < cs && pos < end && c.n != pos / cs
    ensures Fetches(cs, c, pos, end) != []
  {
    DivisionMonotone(pos, end - 1, cs);
  }

  lemma FetchesJoin(cs: nat, c: ChunkCache, c': ChunkCache, pos: nat, piece: nat, end: nat)
    requires 0 < cs && pos < end && piece == Min(end - pos, cs - pos % cs) && c'.n == pos / cs
    ensures (if c.n == pos / cs then [] else [pos / cs]) + Fetches(cs, c', pos + piece, end) == Fetches(cs, c, pos, end)
  {
    NextPosition(cs, pos, end);
    if pos + piece < end {
      DivisionMonotone(pos + piece, end - 1, cs);
    }
  }

  lemma SliceGrows(content: string, a: nat, b: nat, c: nat)
    requires a <= b <= c <= |content|
    ensures content[a..b] + content[b..c] == content[a..c]
  {
  }

  lemma {:induction false} LoopIsSlice(content: string, chunks: Option<seq<string>>, cs: nat, c: ChunkCache,
                                       offset: nat, size: nat, got: string)
    requires 0 < cs < TWO_31 && |content| < TWO_63 && size < TWO_63 && offset <= |content|
    requires |got| <= size && offset + |got| <= |content|
    requires Stored(chunks, content, cs) && CacheOk(c, content, cs)
    requires got == content[offset..offset + |got|]
    requires Addressable(|content|, cs, offset, size)
    requires AtPieceStart(cs, offset, Min(offset + size, |content|), |got|)
    ensures
      var end := Min(offset + size, |content|);
      var (c', out) := ReadFrom(chunks, |content|, cs, c, offset, size, got);
      && out == (if chunks.Some? || Fetches(cs, c, offset + |got|, end) == [] then Done(content[offset..end]) else Eio)
      && (out.Done? ==> c'.fetches == c.fetches + Fetches(cs, c, offset + |got|, end))
      && (out.Done? && offset + |got| < end ==> c'.n == (end - 1) / cs)
    decreases size - |got|
  {
    hide ReadFrom, Stored, CacheOk, Fetches, LastStart;
    var end := Min(offset + size, |content|);
    var pos := offset + |got|;
    if pos == end {
      LoopEnds(chunks, |content|, cs, c, offset, size, got);
      NoFetches(cs, c, pos);
    } else {
      PieceStartBelow(cs, offset, end, |got|);
      NextPosition(cs, pos, end);
      var piece := Min(end - pos, cs - pos % cs);
      var c', out := RoundIsSlice(content, chunks, cs, c, offset, size, got, pos, piece);
      if out.Done? {
        var got' := got + out.bytes;
        SliceGrows(content, offset, pos, pos + piece);
        LoopIsSlice(content, chunks, cs, c', offset, size, got');
        FetchesJoin(cs, c, c', pos, piece, end);
        if pos + piece == end {
          LoopEnds(chunks, |content|, cs, c', offset, size, got');
        }
      } else {
        FirstFetch(cs, c, pos, end);
      }
    }
  }

  /** Whatever the position, the cache never comes to hold a chunk under the wrong number. */
  lemma {:induction false} LoopKeepsCache(content: string, chunks: Option<seq<string>>, cs: nat, c: ChunkCache,
                                          offset: nat, size: nat, got: string)
    requires 0 < cs < TWO_31 && |content| < TWO_63 && size < TWO_63 && offset <= |content|
    requires |got| <= size && offset + |got| <= |content|
    requires Stored(chunks, content, cs) && CacheOk(c, content, cs)
    ensures CacheOk(ReadFrom(chunks, |content|, cs, c, offset, size, got).0, content, cs)
    decreases size - |got|
  {
    hide ChunkNumber, ChunkOffset, PieceSize, ReadPiece, CacheOk, Stored;
    var pos := offset + |got|;
    if |got| < size && pos < |content| {
      var o := ChunkOffset(pos, cs);
      var piece := PieceSize(|content|, cs, offset, size, |got|, o);
      PieceKeepsCache(content, chunks, cs, c, ChunkNumber(pos, cs), piece, o);
      var (c', out) := ReadPiece(chunks, |content|, cs, c, ChunkNumber(pos, cs), piece, o);
      if out.Done? {
        OffsetInChunk(pos, cs);
        PieceClips(|content|, cs, offset, size, |got|, o);
        LoopKeepsCache(content, chunks, cs, c', offset, size, got + out.bytes);
      }
    }
  }

  /** The read takes bytes from a chunk other than the cached one. */
  predicate Needs(content: string, cs: nat, c: ChunkCache, offset: int, size: nat)
    requires cs > 0
  {
    0 <= offset <= |content| && Fetches(cs, c, offset, Min(offset + size, |content|)) != []
  }

  lemma SizeTOfOffT(x: int)
    requires -TWO_63 <= x < TWO_63
    ensures SizeT(x) == if x >= 0 then x else x + TWO_64
  {
  }

  /** A read returns the flat slice of the file's bytes, short only at the end of the file, and nothing past the end.
      When the file's chunks are gone it fails exactly if it needs a chunk other than the cached one. */
  lemma ReadIsSlice(content: string, chunks: Option<seq<string>>, cs: nat, c: ChunkCache, offset: int, size: nat)
    requires 0 < cs < TWO_31 && |content| < TWO_63 && size < TWO_63 && -TWO_63 <= offset < TWO_63
    requires Stored(chunks, content, cs) && CacheOk(c, content, cs)
    ensures CacheOk(Read(chunks, |content|, cs, c, offset, size).0, content, cs)
    ensures Addressable(|content|, cs, offset, size) ==>
              var out := Read(chunks, |content|, cs, c, offset, size).1;
              out == if chunks.Some? || !Needs(content, cs, c, offset, size) then Done(Slice(content, offset, size)) else Eio
  {
    hide ReadFrom, Stored, CacheOk, SizeT, Fetches;
    SizeTOfOffT(offset);
    if 0 <= offset <= |content| {
      LoopKeepsCache(content, chunks, cs, c, offset, size, "");
      if Addressable(|content|, cs, offset, size) {
        LoopIsSlice(content, chunks, cs, c, offset, size, "");
      }
    }
  }

  /** Only a range inside the cached chunk needs nothing. */
  lemma NeedsIff(content: string, cs: nat, c: ChunkCache, offset: nat, size: nat)
    requires cs > 0
    ensures
      var end := Min(offset + size, |content|);
      Needs(content, cs, c, offset, size) <==> offset < end && !(c.n == offset / cs == (end - 1) / cs)
  {
    var end := Min(offset + size, |content|);
    if offset < end {
      DivisionMonotone(offset, end - 1, cs);
    }
  }

  /** With the chunks gone, the first read of any byte fails, although the same read would have succeeded before. */
  lemma GoneFails(content: string, cs: nat, offset: nat, size: nat)
    requires 0 < cs < TWO_31 && |content| <= TWO_31 && size < TWO_63
    requires offset < |content| && size > 0
    ensures Read(None, |content|, cs, EMPTY_CACHE, offset, size).1 == Eio
    ensures Read(Some(Split(content, cs)), |content|, cs, EMPTY_CACHE, offset, size).1 == Done(Slice(content, offset, size))
  {
    hide Read, Split, Needs, Stored;
    StoredSplit(content, cs);
    assert Stored(None, content, cs) by { NothingStored(content, cs); }
    EmptyCacheOk(content, cs);
    SmallFilesAddressable(|content|, cs, offset, size);
    DivisionBounds(offset, cs);
    NeedsIff(content, cs, EMPTY_CACHE, offset, size);
    ReadIsSlice(content, None, cs, EMPTY_CACHE, offset, size);
    ReadIsSlice(content, Some(Split(content, cs)), cs, EMPTY_CACHE, offset, size);
  }

  lemma NothingStored(content: string, cs: nat)
    requires cs > 0
    ensures Stored(None, content, cs)
  {
  }

  // ---- sequential reads -------------------------------------------------------------------

  /** What a non-negative off_t or a request size can be. */
  type Offset = x: int | 0 <= x < TWO_63

  /** The cache after reading on from `offset` with requests of these sizes, each starting where the last one ended. */
  function ReadOn(chunks: Option<seq<string>>, length: nat, cs: nat, c: ChunkCache, offset: Offset, sizes: seq<Offset>)
    : ChunkCache
    requires 0 < cs < TWO_31 && length < TWO_63
    decreases |sizes|
  {
    if sizes == [] then c else
    var (c', out) := Read(chunks, length, cs, c, offset, sizes[0]);
    var end := offset + if out.Done? then |out.bytes| else 0;
    if out.Done? && end < TWO_63 then ReadOn(chunks, length, cs, c', end, sizes[1..]) else c'
  }

  function Sum(sizes: seq<Offset>): nat {
    if sizes == [] then 0 else sizes[0] + Sum(sizes[1..])
  }

  lemma ChunkCount(x: nat, cs: nat)
    requires cs > 0
    ensures x > 0 ==> NumChunks(x, cs) == (x - 1) / cs + 1
    ensures NumChunks(x, cs) == if x % cs == 0 then x / cs else x / cs + 1
  {
    DivisionBounds(x, cs);
    Commute(cs, x / cs);
    if x > 0 {
      DivisionBounds(x - 1, cs);
      Commute(cs, (x - 1) / cs);
      Distribute(cs, (x - 1) / cs, 1);
      Commute(cs, (x - 1) / cs + 1);
      DivisionUnique(x + cs - 1, cs, (x - 1) / cs + 1);
    } else {
      DivisionUnique(cs - 1, cs, 0);
    }
    if x % cs == 0 {
      DivisionUnique(x + cs - 1, cs, x / cs);
    } else {
      Distribute(cs, x / cs, 1);
      Commute(cs, x / cs + 1);
      DivisionUnique(x + cs - 1, cs, x / cs + 1);
    }
  }

  /** Reading a file front to back asks the store for every chunk once, in order, however the requests are cut. */
  lemma {:induction false} SequentialReadsFetchOnce(content: string, cs: nat, c: ChunkCache, offset: Offset,
                                                    sizes: seq<Offset>)
    requires 0 < cs < TWO_31 && offset <= |content| <= TWO_31
    requires CacheOk(c, content, cs) && c.n == NumChunks(offset, cs) - 1 && c.fetches == Range(0, NumChunks(offset, cs))
    ensures ReadOn(Some(Split(content, cs)), |content|, cs, c, offset, sizes).fetches
         == Range(0, NumChunks(Min(offset + Sum(sizes), |content|), cs))
    decreases |sizes|
  {
    hide CacheOk, NumChunks, Split, Range, Read, ReadFrom;
    if sizes != [] {
      SequentialRound(content, cs, c, offset, sizes[0]);
      var (c', out) := Read(Some(Split(content, cs)), |content|, cs, c, offset, sizes[0]);
      SequentialReadsFetchOnce(content, cs, c', offset + |out.bytes|, sizes[1..]);
    }
  }

  lemma SequentialRound(content: string, cs: nat, c: ChunkCache, offset: nat, size: nat)
    requires 0 < cs < TWO_31 && offset <= |content| <= TWO_31 && size < TWO_63
    requires CacheOk(c, content, cs) && c.n == NumChunks(offset, cs) - 1 && c.fetches == Range(0, NumChunks(offset, cs))
    ensures
      var (c', out) := Read(Some(Split(content, cs)), |content|, cs, c, offset, size);
      && out.Done? && offset + |out.bytes| == Min(offset + size, |content|)
      && CacheOk(c', content, cs)
      && c'.n == NumChunks(offset + |out.bytes|, cs) - 1
      && c'.fetches == Range(0, NumChunks(offset + |out.bytes|, cs))
  {
    hide CacheOk, NumChunks, Split, Range, ReadFrom, Stored, LastStart, Fetches;
    var chunks := Some(Split(content, cs));
    var end := Min(offset + size, |content|);
    assert Stored(chunks, content, cs) by { StoredSplit(content, cs); }
    SmallFilesAddressable(|content|, cs, offset, size);
    ReadIsSlice(content, chunks, cs, c, offset, size);
    LoopIsSlice(content, chunks, cs, c, offset, size, "");
    ChunkCount(offset, cs);
    ChunkCount(end, cs);
    if offset == end {
      LoopEnds(chunks, |content|, cs, c, offset, size, "");
    } else {
      SequentialFetches(cs, c, offset, end);
    }
  }

  lemma StoredSplit(content: string, cs: nat)
    requires cs > 0
    ensures Stored(Some(Split(content, cs)), content, cs)
  {
  }

  lemma SequentialFetches(cs: nat, c: ChunkCache, offset: nat, end: nat)
    requires cs > 0 && offset < end && c.n == NumChunks(offset, cs) - 1
    ensures Range(0, NumChunks(offset, cs)) + Fetches(cs, c, offset, end) == Range(0, NumChunks(end, cs))
  {
    ChunkCount(offset, cs);
    ChunkCount(end, cs);
    DivisionMonotone(offset, end - 1, cs);
  }

  // ---- exactly when a read is right -------------------------------------------------------

  /** The first piece start at or beyond 2^31. */
  function FirstBad(cs: nat, offset: nat): nat
    requires cs > 0
  {
    if offset >= TWO_31 then offset else NumChunks(TWO_31, cs) * cs
  }

  /** A file that tells position `p` from every other position. */
  function Marked(length: nat, p: nat): string {
    seq(length, q => if q == p then 'a' else 'b')
  }

  lemma FirstBadReached(cs: nat, offset: nat, end: nat)
    requires 0 < cs < TWO_31 && offset < end && LastStart(cs, offset, end) >= TWO_31
    ensures offset <= FirstBad(cs, offset) < end && FirstBad(cs, offset) >= TWO_31
    ensures offset < TWO_31 ==> FirstBad(cs, offset) % cs == 0
    ensures offset < TWO_31 ==> FirstBad(cs, offset) < TWO_31 + cs
  {
    if offset < TWO_31 {
      var n := NumChunks(TWO_31, cs);
      var last := (end - 1) / cs;
      DivisionBounds(end - 1, cs);
      Commute(cs, last);
      ChunkBounds(TWO_31, cs, n);
      ChunkBounds(TWO_31, cs, n - 1);
      ChunkBounds(TWO_31, cs, last);
      NextMultiple(cs, n);
      assert n <= last;
      Distribute(cs, n, last - n);
      Commute(cs, n);
      MultipleOf(cs, last - n);
      DivisionUnique(n * cs, cs, n);
    }
  }

  /** Before the first bad start every piece start is below 2^31, and pieces do not step over it. */
  lemma StopsAtBad(cs: nat, offset: nat, end: nat, got: nat)
    requires 0 < cs < TWO_31 && offset < end && LastStart(cs, offset, end) >= TWO_31
    requires offset + got < FirstBad(cs, offset) && (got == 0 || (offset + got) % cs == 0)
    ensures
      var pos := offset + got;
      var piece := Min(end - pos, cs - pos % cs);
      pos < TWO_31 && pos < end && 0 < piece && pos + piece <= FirstBad(cs, offset) && (pos + piece) % cs == 0
  {
    FirstBadReached(cs, offset, end);
    var pos, bad := offset + got, FirstBad(cs, offset);
    NextPosition(cs, pos, end);
    DivisionBounds(pos, cs);
    DivisionBounds(bad, cs);
    var d := bad / cs - pos / cs;
    Distribute(cs, pos / cs, d);
    MultipleOf(cs, d);
    MultipleOf(cs, d - 1);
    Distribute(cs, d - 1, 1);
    if pos + cs - pos % cs < end {
      assert Min(end - pos, cs - pos % cs) == cs - pos % cs;
    }
  }

  lemma {:induction false} LoopExtends(chunks: Option<seq<string>>, length: nat, cs: nat, c: ChunkCache,
                                       offset: nat, size: nat, got: string)
    requires 0 < cs < TWO_31 && length < TWO_63 && size < TWO_63 && offset <= length
    requires |got| <= size && offset + |got| <= length
    ensures var out := ReadFrom(chunks, length, cs, c, offset, size, got).1; out.Done? ==> got <= out.bytes
    decreases size - |got|
  {
    hide ChunkNumber, ChunkOffset, PieceSize, ReadPiece;
    var pos := offset + |got|;
    if |got| < size && pos < length {
      var o := ChunkOffset(pos, cs);
      var piece := PieceSize(length, cs, offset, size, |got|, o);
      var (c', out) := ReadPiece(chunks, length, cs, c, ChunkNumber(pos, cs), piece, o);
      if out.Done? {
        OffsetInChunk(pos, cs);
        PieceClips(length, cs, offset, size, |got|, o);
        LoopExtends(chunks, length, cs, c', offset, size, got + out.bytes);
      }
    }
  }

  /** At a piece start beyond 2^31 the inner read, if it returns at all, starts with the byte of another position. */
  lemma WrongByte(content: string, cs: nat, c: ChunkCache, pos: nat, piece: nat)
    requires 0 < cs < TWO_31 && TWO_31 <= pos < |content| < TWO_63 && piece > 0 && CacheOk(c, content, cs)
    ensures
      var out := ReadPiece(Some(Split(content, cs)), |content|, cs, c, ChunkNumber(pos, cs), piece, ChunkOffset(pos, cs)).1;
      out.Done? ==> 0 <= ToInt32(pos) < |content| && ToInt32(pos) < TWO_31 && out.bytes[0] == content[ToInt32(pos)]
  {
    hide ReadPiece, ChunkNumber, ChunkOffset, CacheOk, Split, ChunkAt;
    var n, o := ChunkNumber(pos, cs), ChunkOffset(pos, cs);
    var chunks := Some(Split(content, cs));
    StoredSplit(content, cs);
    OffsetInChunk(pos, cs);
    PieceKeepsCache(content, chunks, cs, c, n, piece, o);
    if ReadPiece(chunks, |content|, cs, c, n, piece, o).1.Done? {
      FirstOfChunk(content, cs, n, o);
    }
  }

  lemma FirstOfChunk(content: string, cs: nat, n: nat, o: nat)
    requires cs > 0 && n < NumChunks(|content|, cs) && o < |ChunkAt(content, cs, n)|
    ensures n * cs + o < |content| && ChunkAt(content, cs, n)[o] == content[n * cs + o]
  {
    ChunkBounds(|content|, cs, n);
  }

  lemma {:induction false} LoopMisses(length: nat, cs: nat, c: ChunkCache, offset: nat, size: nat, got: string)
    requires 0 < cs < TWO_31 && length < TWO_63 && size < TWO_63 && offset < Min(offset + size, length)
    requires !Addressable(length, cs, offset, size)
    requires
      var content := Marked(length, FirstBad(cs, offset));
      && CacheOk(c, content, cs)
      && offset + |got| <= FirstBad(cs, offset) < length
      && got == content[offset..offset + |got|]
    requires got == "" || (offset + |got|) % cs == 0
    requires |got| < size
    ensures
      var content := Marked(length, FirstBad(cs, offset));
      var end := Min(offset + size, length);
      ReadFrom(Some(Split(content, cs)), length, cs, c, offset, size, got).1 != Done(content[offset..end])
    decreases size - |got|
  {
    hide CacheOk, FirstBad, Stored, ReadPiece, PieceSize, ChunkNumber, ChunkOffset, Marked;
    var end := Min(offset + size, length);
    FirstBadReached(cs, offset, end);
    var bad := FirstBad(cs, offset);
    var content := Marked(length, bad);
    MarkedAt(length, bad);
    var chunks := Some(Split(content, cs));
    var pos := offset + |got|;
    if pos < bad {
      StopsAtBad(cs, offset, end, |got|);
      var piece := Min(end - pos, cs - pos % cs);
      StoredSplit(content, cs);
      var c', out := RoundIsSlice(content, chunks, cs, c, offset, size, got, pos, piece);
      if out.Done? {
        var got' := got + out.bytes;
        assert got' == content[offset..offset + |got'|];
        LoopMisses(length, cs, c', offset, size, got');
      }
    } else {
      BadRound(length, cs, c, offset, size, got, bad);
    }
  }

  lemma MarkedAt(length: nat, p: nat)
    ensures |Marked(length, p)| == length
    ensures forall q :: 0 <= q < length ==> (Marked(length, p)[q] == 'a' <==> q == p)
  {
  }

  lemma BadRound(length: nat, cs: nat, c: ChunkCache, offset: nat, size: nat, got: string, bad: nat)
    requires 0 < cs < TWO_31 && length < TWO_63 && size < TWO_63 && |got| < size
    requires TWO_31 <= bad == offset + |got| < length && CacheOk(c, Marked(length, bad), cs)
    ensures
      var content := Marked(length, bad);
      var end := Min(offset + size, length);
      ReadFrom(Some(Split(content, cs)), length, cs, c, offset, size, got).1 != Done(content[offset..end])
  {
    hide CacheOk, ReadPiece, PieceSize, ChunkNumber, ChunkOffset, Marked, Split;
    var content := Marked(length, bad);
    MarkedAt(length, bad);
    var chunks := Some(Split(content, cs));
    var o := ChunkOffset(bad, cs);
    var piece := PieceSize(length, cs, offset, size, |got|, o);
    var (c', out) := ReadPiece(chunks, length, cs, c, ChunkNumber(bad, cs), piece, o);
    if out.Done? {
      OffsetInChunk(bad, cs);
      PieceClips(length, cs, offset, size, |got|, o);
      WrongByte(content, cs, c, bad, piece);
      LoopExtends(chunks, length, cs, c', offset, size, got + out.bytes);
      assert (got + out.bytes)[|got|] != 'a';
    }
  }

  /** For a file of a given length, a read is right for all contents exactly when no piece starts at or beyond 2^31. */
  lemma ReadRightIffAddressable(length: nat, cs: nat, offset: int, size: nat)
    requires 0 < cs < TWO_31 && length < TWO_63 && size < TWO_63 && -TWO_63 <= offset < TWO_63
    ensures Addressable(length, cs, offset, size) <==>
            forall content: string :: |content| == length ==> ReadsRight(content, cs, offset, size)
  {
    hide Read, Split, FirstBad, CacheOk, LastStart;
    forall content: string | |content| == length && Addressable(length, cs, offset, size)
      ensures ReadsRight(content, cs, offset, size)
    {
      StoredSplit(content, cs);
      EmptyCacheOk(content, cs);
      ReadIsSlice(content, Some(Split(content, cs)), cs, EMPTY_CACHE, offset, size);
    }
    if !Addressable(length, cs, offset, size) {
      FirstBadReached(cs, offset, Min(offset + size, length));
      var content := Marked(length, FirstBad(cs, offset));
      EmptyCacheOk(content, cs);
      LoopMisses(length, cs, EMPTY_CACHE, offset, size, "");
      ReadUnfolds(Some(Split(content, cs)), length, cs, offset, size);
      assert |content| == length && !ReadsRight(content, cs, offset, size);
    }
  }

  lemma EmptyCacheOk(content: string, cs: nat)
    requires cs > 0
    ensures CacheOk(EMPTY_CACHE, content, cs)
  {
  }

  lemma ReadUnfolds(chunks: Option<seq<string>>, length: nat, cs: nat, offset: nat, size: nat)
    requires 0 < cs < TWO_31 && length < TWO_63 && size < TWO_63 && offset <= length
    ensures Read(chunks, length, cs, EMPTY_CACHE, offset, size)
         == ReadFrom(chunks, length, cs, EMPTY_CACHE, offset, size, "")
  {
    hide ReadFrom, SizeT;
    SizeTSmall(offset);
  }

  /** The first read on a fresh handle gives the flat slice. */
  predicate ReadsRight(content: string, cs: nat, offset: int, size: nat)
    requires 0 < cs < TWO_31 && |content| < TWO_63 && size < TWO_63 && -TWO_63 <= offset < TWO_63
  {
    Read(Some(Split(content, cs)), |content|, cs, EMPTY_CACHE, offset, size).1 == Done(Slice(content, offset, size))
  }
}
