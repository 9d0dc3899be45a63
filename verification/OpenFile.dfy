/** The File object: growing write buffer, publishing, truncating, and chunked reading into the caller's buffer. */
module OpenFile {
  import opened CTypes
  import opened Chunks
  import opened GridStore
  import opened Entries
  import CR = ChunkRead
  import H = Handles

  /** How a call ends: normally, by an exception, or outside what C++ defines. */
  datatype Ending = Returned | Threw | Faulted

  class File {
    const entry: FilesystemEntry
    var theFileLength: nat
    var theChunkSize: nat
    var theWritten: nat
    var theCurrentDataSize: nat
    var theData: array<char>
    var theHasChanges: bool
    var theCachedChunkN: int
    var theCachedChunk: string
    ghost var fetches: seq<int>

    ghost predicate Valid()
      reads this, entry
    {
      && theData.Length == theCurrentDataSize && theWritten <= theCurrentDataSize
      && (theCurrentDataSize > 0 ==> theChunkSize > 0)
      && (theFileLength > 0 ==> entry.theGridFile.Loaded? && entry.theGridFile.doc.Some?)
    }

    ghost function Cache(): CR.ChunkCache
      reads this
    {
      CR.ChunkCache(theCachedChunkN, theCachedChunk, fetches)
    }

    /** The object as a value. */
    ghost function State(): H.Handle
      requires Valid()
      reads this, entry, theData
    {
      H.Handle(entry.path, entry.theGridFile, theChunkSize, theFileLength, theWritten, theData[..], theHasChanges, Cache())
    }

    constructor (entry: FilesystemEntry)
      requires entry.theGridFile == H.NotLoaded
      ensures Valid() && fresh(theData) && this.entry == entry
      ensures State() == H.NewHandle(entry.path)
    {
      this.entry := entry;
      theFileLength, theChunkSize, theWritten, theCurrentDataSize := 0, 0, 0, 0;
      theData := new char[0];
      theHasChanges := false;
      theCachedChunkN, theCachedChunk, fetches := -1, "", [];
    }

    // ---- the write buffer -----------------------------------------------------------------

    method InitMemory()
      requires Valid() && theChunkSize > 0 && theCurrentDataSize == 0
      modifies this
      ensures Valid() && fresh(theData)
      ensures State() == old(State()).(data := H.Zeros(theChunkSize))
    {
      theData := new char[theChunkSize](_ => '\0');
      theCurrentDataSize := theChunkSize;
      assert theData[..] == H.Zeros(theChunkSize);
    }

    method ExtendMemory()
      requires Valid() && theChunkSize > 0
      modifies this
      ensures Valid() && fresh(theData)
      ensures State() == old(State()).(data := old(theData[..]) + H.Zeros(theChunkSize))
    {
      var size := theCurrentDataSize;
      var extended := new char[size + theChunkSize](_ => '\0');
      forall i | 0 <= i < size {
        extended[i] := theData[i];
      }
      theData := extended;
      theCurrentDataSize := size + theChunkSize;
      assert theData[..] == old(theData[..]) + H.Zeros(theChunkSize);
    }

    method FreeMemory()
      requires Valid()
      modifies this
      ensures Valid() && (theData == old(theData) || fresh(theData))
      ensures State() == if old(theCurrentDataSize) == 0 then old(State())
                         else old(State()).(written := 0, data := "", hasChanges := false)
    {
      if theCurrentDataSize != 0 {
        theData := new char[0];
        theWritten := 0;
        theHasChanges := false;
        theCurrentDataSize := 0;
      }
    }

    /** Make the mapping large enough, one chunk at a time. */
    method Reserve(need: nat)
      requires Valid() && theChunkSize > 0
      modifies this
      ensures Valid() && (theData == old(theData) || fresh(theData)) && theChunkSize == old(theChunkSize)
      ensures
        var before := old(theData[..]);
        State() == old(State()).(data := before + H.Zeros(H.Capacity(|before|, theChunkSize, need) - |before|))
    {
      hide H.Capacity, NumChunks, H.Zeros;
      ghost var before := theData[..];
      NoZeros(before);
      if theCurrentDataSize == 0 {
        InitMemory();
        assert theData[..] == before + H.Zeros(theCurrentDataSize);
      }
      ghost var base := theCurrentDataSize;
      ghost var rounds: nat := 0;
      while theCurrentDataSize < need
        invariant Valid() && (theData == old(theData) || fresh(theData))
        invariant State() == old(State()).(data := theData[..]) && theChunkSize == old(theChunkSize)
        invariant theCurrentDataSize == base + rounds * theChunkSize >= |before|
        invariant rounds > 0 ==> base + (rounds - 1) * theChunkSize < need
        invariant theData[..] == before + H.Zeros(theCurrentDataSize - |before|)
        decreases need - theCurrentDataSize
      {
        ghost var n := theCurrentDataSize - |before|;
        ExtendMemory();
        ZerosJoin(before, n, theChunkSize);
        rounds := rounds + 1;
        RoundsStep(rounds, theChunkSize);
      }
      GrowthLoop(|before|, theChunkSize, need, base, rounds);
    }

    /** The memcpy into the mapping. */
    method CopyIn(at: nat, data: string)
      requires at + |data| <= theData.Length
      modifies theData
      ensures theData[..] == H.Put(old(theData[..]), at, data)
    {
      forall i | 0 <= i < |data| {
        theData[at + i] := data[i];
      }
      CopiedIn(old(theData[..]), theData[..], at, data);
    }

    /** Write: None is the exception for an offset other than the end of what was written. */
    method Write(data: string, offset: int) returns (r: Option<nat>)
      requires Valid() && entry.cfg.chunkSize > 0
      modifies this, theData
      ensures Valid() && (theData == old(theData) || fresh(theData))
      ensures (State(), r) == H.Write(old(State()), entry.cfg.chunkSize, data, offset)
    {
      hide H.Capacity, NumChunks, H.Zeros, H.Put, SizeT;
      if theChunkSize == 0 {
        theChunkSize := entry.cfg.chunkSize;
      }
      if theWritten != SizeT(offset) {
        return None;
      }
      var need := theWritten + |data|;
      Reserve(need);
      CopyIn(theWritten, data);
      theHasChanges := true;
      theWritten := need;
      return Some(|data|);
    }

    static lemma CopiedIn(before: string, after: string, at: nat, data: string)
      requires at + |data| <= |before| == |after|
      requires forall i :: 0 <= i < |data| ==> after[at + i] == data[i]
      requires forall i :: 0 <= i < |after| && !(at <= i < at + |data|) ==> after[i] == before[i]
      ensures after == H.Put(before, at, data)
    {
      assert forall i :: at <= i < at + |data| ==> after[i] == data[i - at] by {
        forall i | at <= i < at + |data|
          ensures after[i] == data[i - at]
        {
          assert after[at + (i - at)] == data[i - at];
        }
      }
    }

    static lemma NoZeros(before: string)
      ensures before + H.Zeros(0) == before
      ensures before == "" ==> forall n: nat :: before + H.Zeros(n) == H.Zeros(n)
    {
    }

    static lemma ZerosJoin(before: string, n: nat, m: nat)
      ensures before + H.Zeros(n) + H.Zeros(m) == before + H.Zeros(n + m)
    {
    }

    static lemma RoundsStep(rounds: nat, cs: nat)
      requires rounds > 0
      ensures rounds * cs == (rounds - 1) * cs + cs
    {
    }

    /** The loop stops at the first multiple that is enough, which is the capacity in closed form. */
    static lemma GrowthLoop(current: nat, cs: nat, need: nat, base: nat, rounds: nat)
      requires cs > 0 && base == (if current == 0 then cs else current)
      requires need <= base + rounds * cs && (rounds > 0 ==> base + (rounds - 1) * cs < need)
      ensures base + rounds * cs == H.Capacity(current, cs, need)
    {
      if need > base {
        var gap := need - base;
        ChunkBounds(gap, cs, rounds);
        ChunkBounds(gap, cs, rounds - 1);
        assert rounds == NumChunks(gap, cs);
      }
    }

    /** store: false where there is no version to take the contentType from; the driver throws or its answer is undefined. */
    method Store() returns (ok: bool)
      requires Valid() && entry.cfg.chunkSize > 0
      modifies this, entry, entry.mongo
      ensures Valid() && (theData == old(theData) || fresh(theData))
      ensures
        var (h, s) := H.Publish(old(State()), old(entry.mongo.store), entry.cfg.chunkSize);
        State() == h && ok == s.Some? && entry.mongo.store == if s.Some? then s.value else old(entry.mongo.store)
    {
      var doc := entry.Gridfile();
      if doc.None? {
        return false;
      }
      entry.mongo.store :=
        StoreFile(entry.mongo.store, theData[..theWritten], entry.path, doc.value.contentType, entry.cfg.chunkSize);
      FreeMemory();
      theFileLength := theWritten;
      return true;
    }

    /** truncate: the newest version's length becomes zero, its chunks stay. */
    method Truncate()
      requires entry.theGridFile.Loaded? && entry.theGridFile.doc.Some?
      modifies entry.mongo
      ensures entry.mongo.store == SetLengthZero(old(entry.mongo.store), entry.theGridFile.doc.value.id)
    {
      entry.mongo.store := SetLengthZero(entry.mongo.store, entry.theGridFile.doc.value.id);
    }

    // ---- reading --------------------------------------------------------------------------

    /** The inner read: `size` bytes of one chunk into buf at `at`. */
    method ReadPiece(chunkN: int, buf: array<char>, at: nat, size: nat, chunkOffset: nat) returns (ending: Ending)
      requires entry.theGridFile.Loaded? && buf != theData
      requires OffT(chunkOffset) >= 0 ==> at + size <= buf.Length
      modifies this`theCachedChunkN, this`theCachedChunk, this`fetches, buf
      ensures
        var (c, out) := CR.ReadPiece(H.SnapChunks(entry.theGridFile, entry.mongo.store), theFileLength, theChunkSize,
                                     old(Cache()), chunkN, size, chunkOffset);
        && Cache() == c
        && (ending.Returned? <==> out.Done?) && (ending.Threw? <==> out.Eio?)
        && buf[..] == if out.Done? then H.Put(old(buf[..]), at, out.bytes) else old(buf[..])
    {
      hide SizeT, OffT, H.SnapChunks;
      if theChunkSize == 0 || SizeT(chunkOffset + size) > theChunkSize || SizeT(chunkOffset + size) > theFileLength {
        return Faulted;
      }
      if chunkN != theCachedChunkN {
        fetches := fetches + [chunkN];
        var chunks := H.SnapChunks(entry.theGridFile, entry.mongo.store);
        if chunks.None? || !(0 <= chunkN < |chunks.value|) {
          return Threw;
        }
        theCachedChunk := chunks.value[chunkN];
        theCachedChunkN := chunkN;
      }
      var o := OffT(chunkOffset);
      if !(0 <= o && o + size <= |theCachedChunk|) {
        return Faulted;
      }
      ghost var before := buf[..];
      forall i | 0 <= i < size {
        buf[at + i] := theCachedChunk[o + i];
      }
      CopiedIn(before, buf[..], at, theCachedChunk[o..o + size]);
      return Returned;
    }

    /** The lazy initialisation of the chunk size and the length; false is the driver's exception. */
    method Prepare() returns (ok: bool)
      requires Valid()
      modifies this, entry
      ensures Valid() && theData == old(theData)
      ensures (State(), ok) == H.Prepare(old(State()), entry.mongo.store, entry.cfg.missingThrows)
      ensures ok && theFileLength > 0 ==> entry.theGridFile.Loaded?
    {
      hide FindFile;
      if theChunkSize == 0 {
        var doc := entry.Gridfile();
        if doc.None? && entry.cfg.missingThrows {
          return false;
        }
        theChunkSize := if doc.Some? then doc.value.chunkSize else 0;
      }
      if theFileLength == 0 {
        var doc := entry.Gridfile();
        if doc.None? && entry.cfg.missingThrows {
          return false;
        }
        theFileLength := if doc.Some? then doc.value.length else 0;
      }
      return true;
    }

    /** read: fills buf[..n] and nothing beyond the `size` bytes asked for. */
    method Read(buf: array<char>, size: nat, offset: int) returns (n: nat, ending: Ending)
      requires Valid() && buf != theData && size <= buf.Length < TWO_63 && -TWO_63 <= offset < TWO_63
      modifies this, entry, buf
      ensures Valid() && theData == old(theData) && theData[..] == old(theData[..])
      ensures
        var (h, out) := H.ReadHandle(old(State()), entry.mongo.store, entry.cfg.missingThrows, offset, size);
        && State() == h
        && (ending.Returned? <==> out.Done?) && (ending.Threw? <==> out.Eio?)
        && (out.Done? ==> n == |out.bytes| <= size && buf[..n] == out.bytes && buf[n..] == old(buf[n..]))
      ensures buf[size..] == old(buf[size..])
    {
      hide CR.Read, H.Prepare;
      var ok := Prepare();
      if !ok {
        return 0, Threw;
      }
      if theFileLength == 0 {
        assert buf[..0] == "";
        return 0, Returned;
      }
      if !(0 < theChunkSize < TWO_31 && theFileLength < TWO_63) {
        return 0, Faulted;
      }
      n, ending := ReadLoop(buf, size, offset);
    }

    /** The part of read after the lazy initialisation. */
    method ReadLoop(buf: array<char>, size: nat, offset: int) returns (n: nat, ending: Ending)
      requires Valid() && buf != theData && size <= buf.Length < TWO_63 && -TWO_63 <= offset < TWO_63
      requires entry.theGridFile.Loaded? && 0 < theChunkSize < TWO_31 && theFileLength < TWO_63
      modifies this`theCachedChunkN, this`theCachedChunk, this`fetches, buf
      ensures
        var (c, out) := CR.Read(H.SnapChunks(entry.theGridFile, entry.mongo.store), theFileLength, theChunkSize,
                                old(Cache()), offset, size);
        && Cache() == c
        && (ending.Returned? <==> out.Done?) && (ending.Threw? <==> out.Eio?)
        && (out.Done? ==> n == |out.bytes| <= size && buf[..n] == out.bytes && buf[n..] == old(buf[n..]))
      ensures buf[size..] == old(buf[size..])
    {
      hide CR.ChunkNumber, CR.ChunkOffset, CR.PieceSize, CR.ReadPiece, CR.ReadFrom;
      n := 0;
      if theFileLength < SizeT(offset) {
        return 0, Returned;
      }
      ghost var chunks := H.SnapChunks(entry.theGridFile, entry.mongo.store);
      ending := Returned;
      while n != size && offset + n < theFileLength
        invariant n <= size && 0 <= offset && offset + n <= theFileLength
        invariant CR.Read(chunks, theFileLength, theChunkSize, old(Cache()), offset, size)
               == CR.ReadFrom(chunks, theFileLength, theChunkSize, Cache(), offset, size, buf[..n])
        invariant ending.Returned? && buf[n..] == old(buf[n..])
        decreases size - n
      {
        ghost var c, got := Cache(), buf[..n];
        var chunkN := CR.ChunkNumber(offset + n, theChunkSize);
        var chunkOffset := CR.ChunkOffset(offset + n, theChunkSize);
        var piece := CR.PieceSize(theFileLength, theChunkSize, offset, size, n, chunkOffset);
        CR.OffsetInChunk(offset + n, theChunkSize);
        if OffT(chunkOffset) >= 0 {
          CR.PieceClips(theFileLength, theChunkSize, offset, size, n, chunkOffset);
        }
        ghost var c', out := LoopUnfolds(chunks, theFileLength, theChunkSize, c, offset, size, got);
        ghost var whole := buf[..];
        ending := ReadPiece(chunkN, buf, n, piece, chunkOffset);
        if !ending.Returned? {
          SameTail(old(buf[..]), buf[..], n, size);
          return n, ending;
        }
        FilledTo(whole, buf[..], n, piece);
        n := n + piece;
      }
      SameTail(old(buf[..]), buf[..], n, size);
      CR.LoopEnds(chunks, theFileLength, theChunkSize, Cache(), offset, size, buf[..n]);
    }

    static lemma LoopUnfolds(chunks: Option<seq<string>>, length: nat, cs: nat, c: CR.ChunkCache,
                             offset: nat, size: nat, got: string) returns (c': CR.ChunkCache, out: CR.Outcome)
      requires 0 < cs < TWO_31 && length < TWO_63 && size < TWO_63 && offset + |got| < length && |got| < size
      ensures out.Done? ==> |got + out.bytes| <= size && offset + |got + out.bytes| <= length
      ensures CR.ReadFrom(chunks, length, cs, c, offset, size, got)
           == if out.Done? then CR.ReadFrom(chunks, length, cs, c', offset, size, got + out.bytes) else (c', out)
      ensures
        var o := CR.ChunkOffset(offset + |got|, cs);
        (c', out) == CR.ReadPiece(chunks, length, cs, c, CR.ChunkNumber(offset + |got|, cs),
                                  CR.PieceSize(length, cs, offset, size, |got|, o), o)
    {
      hide CR.ChunkNumber, CR.ChunkOffset, CR.PieceSize, CR.ReadPiece;
      var o := CR.ChunkOffset(offset + |got|, cs);
      var r := CR.ReadPiece(chunks, length, cs, c, CR.ChunkNumber(offset + |got|, cs),
                            CR.PieceSize(length, cs, offset, size, |got|, o), o);
      c', out := r.0, r.1;
      CR.OffsetInChunk(offset + |got|, cs);
      if OffT(o) >= 0 {
        CR.PieceClips(length, cs, offset, size, |got|, o);
      }
    }

    static lemma SameTail(before: string, after: string, n: nat, size: nat)
      requires n <= size <= |before| == |after| && after[n..] == before[n..]
      ensures after[size..] == before[size..]
    {
      assert after[size..] == after[n..][size - n..];
    }

    static lemma FilledTo(before: string, after: string, n: nat, piece: nat)
      requires n + piece <= |before| == |after| && after == H.Put(before, n, after[n..n + piece])
      ensures after[..n + piece] == before[..n] + after[n..n + piece] && after[n + piece..] == before[n + piece..]
    {
    }
  }
}
