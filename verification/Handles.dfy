/** Open files as values: the lazily loaded version, the write buffer and the chunk cache of one File object. */
module Handles {
  import opened CTypes
  import opened Chunks
  import opened ChunkRead
  import opened GridStore

  /** theGridFile: not fetched yet, or what findFile returned, which may be no file. */
  datatype Snap = NotLoaded | Loaded(doc: Option<Doc>)

  /** `data` is the whole mapping behind theData, so |data| is theCurrentDataSize. */
  datatype RawHandle = Handle(path: string, snap: Snap, chunkSize: nat, fileLength: nat,
                              written: nat, data: string, hasChanges: bool, cache: ChunkCache)

  type Handle = h: RawHandle | h.written <= |h.data| witness Handle("", NotLoaded, 0, 0, 0, "", false, EMPTY_CACHE)

  function NewHandle(path: string): Handle {
    Handle(path, NotLoaded, 0, 0, 0, "", false, EMPTY_CACHE)
  }

  /** gridfile(): fetch once, keep for ever. */
  function LoadSnap(snap: Snap, s: Store, path: string): (r: Snap)
    ensures r.Loaded?
  {
    if snap.NotLoaded? then Loaded(FindFile(s, path)) else snap
  }

  function Load(h: Handle, s: Store): (h': Handle)
    ensures h'.snap.Loaded?
  {
    h.(snap := LoadSnap(h.snap, s, h.path))
  }

  // ---- writing ----------------------------------------------------------------------------

  function Zeros(n: nat): (z: string)
    ensures |z| == n
  {
    seq(n, _ => '\0')
  }

  /** The mapping's size once it has to hold `need` bytes: it starts at one chunk and grows chunk by chunk. */
  function Capacity(current: nat, cs: nat, need: nat): (cap: nat)
    requires cs > 0
    ensures cap >= need && cap >= current
  {
    var base := if current == 0 then cs else current;
    if need <= base then base else
    GrowthSuffices(need - base, cs);
    base + NumChunks(need - base, cs) * cs
  }

  lemma GrowthSuffices(gap: nat, cs: nat)
    requires cs > 0
    ensures NumChunks(gap, cs) * cs >= gap
  {
    ChunkBounds(gap, cs, NumChunks(gap, cs));
  }

  function Put(buf: string, at: nat, data: string): string
    requires at + |data| <= |buf|
  {
    buf[..at] + data + buf[at + |data|..]
  }

  /** File::write; None when it throws because the offset is not the end of what was written. */
  function Write(h: Handle, configChunkSize: nat, data: string, offset: int): (Handle, Option<nat>)
    requires configChunkSize > 0
  {
    var h1 := if h.chunkSize == 0 then h.(chunkSize := configChunkSize) else h;
    if h1.written != SizeT(offset) then (h1, None) else
    var need := h1.written + |data|;
    var cap := Capacity(|h1.data|, h1.chunkSize, need);
    var buf := h1.data + Zeros(cap - |h1.data|);
    (h1.(data := Put(buf, h1.written, data), written := need, hasChanges := true), Some(|data|))
  }

  /** The buffer holds `accepted`; its capacity is zero before the first write and then the smallest multiple of the
      chunk size that holds the bytes, but at least one chunk. */
  predicate BufferOk(h: Handle, accepted: string) {
    && h.written == |accepted|
    && h.data[..h.written] == accepted
    && (h.hasChanges <==> h.data != "")
    && (h.data != "" ==> h.chunkSize > 0 && |h.data| == Max(h.chunkSize, NumChunks(h.written, h.chunkSize) * h.chunkSize))
  }

  lemma GrowthIsRounding(cs: nat, written: nat, need: nat)
    requires cs > 0 && written <= need
    ensures
      var cap := Max(cs, NumChunks(written, cs) * cs);
      Capacity(cap, cs, need) == Max(cs, NumChunks(need, cs) * cs)
    ensures Capacity(0, cs, need) == Max(cs, NumChunks(need, cs) * cs)
  {
    var w := NumChunks(written, cs);
    var n := NumChunks(need, cs);
    GrowthSuffices(written, cs);
    GrowthSuffices(need, cs);
    ChunkCount(written, cs);
    ChunkCount(need, cs);
    RoundFrom(cs, 1, need);
    RoundFrom(cs, w, need);
    if written > 0 && need > 0 {
      DivisionMonotone(written - 1, need - 1, cs);
    }
    MultipleOf(cs, w - 1);
    MultipleOf(cs, n - 1);
    Distribute(cs, w, -1);
    Distribute(cs, n, -1);
    Commute(cs, w);
    Commute(cs, n);
    DivisionUnique(0, cs, 0);
    if need <= w * cs {
      MultipleOf(cs, n - w - 1);
      NumChunksAtMost(need, cs, w);
      MultipleOf(cs, w - n);
      Distribute(cs, n, w - n);
    }
    if need <= cs {
      NumChunksAtMost(need, cs, 1);
    }
  }

  lemma NumChunksAtMost(len: nat, cs: nat, n: nat)
    requires cs > 0 && len <= n * cs
    ensures NumChunks(len, cs) <= n
  {
    ChunkBounds(len, cs, n);
  }

  /** Growing from a multiple of the chunk size lands on the next multiple that is enough. */
  lemma RoundFrom(cs: nat, k: nat, need: nat)
    requires cs > 0
    ensures need > k * cs ==> k * cs + NumChunks(need - k * cs, cs) * cs == NumChunks(need, cs) * cs
  {
    if need > k * cs {
      var gap := need - k * cs;
      var q := NumChunks(gap, cs);
      ChunkCount(gap, cs);
      ChunkCount(need, cs);
      DivisionBounds(gap - 1, cs);
      Commute(cs, (gap - 1) / cs);
      Distribute(cs, k, (gap - 1) / cs);
      Commute(cs, k);
      Commute(cs, k + (gap - 1) / cs);
      DivisionUnique(need - 1, cs, k + (gap - 1) / cs);
      Distribute(cs, k, q);
      Commute(cs, k + q);
      Commute(cs, q);
    }
  }

  lemma PutPrefix(buf: string, at: nat, data: string)
    requires at + |data| <= |buf|
    ensures |Put(buf, at, data)| == |buf| && Put(buf, at, data)[..at + |data|] == buf[..at] + data
  {
  }

  /** A write is accepted exactly when it starts where the last one ended, and then appends; a rejected write loses
      nothing. */
  lemma WriteAppends(h: Handle, configChunkSize: nat, data: string, offset: int, accepted: string)
    requires configChunkSize > 0 && BufferOk(h, accepted)
    ensures
      var (h', r) := Write(h, configChunkSize, data, offset);
      && BufferOk(h', if r.Some? then accepted + data else accepted)
      && (r.Some? <==> SizeT(offset) == |accepted|)
      && (r.Some? ==> r.value == |data| && h'.hasChanges)
      && (r.None? ==> h' == h.(chunkSize := h'.chunkSize))
      && h' == h.(chunkSize := h'.chunkSize, data := h'.data, written := h'.written, hasChanges := h'.hasChanges)
      && h'.chunkSize == (if h.chunkSize == 0 then configChunkSize else h.chunkSize)
  {
    hide NumChunks, Capacity, Put;
    var (h', r) := Write(h, configChunkSize, data, offset);
    if r.Some? {
      var cs, need := h'.chunkSize, h.written + |data|;
      GrowthIsRounding(cs, h.written, need);
      var cap := Capacity(|h.data|, cs, need);
      var buf := h.data + Zeros(cap - |h.data|);
      PutPrefix(buf, h.written, data);
      assert buf[..h.written] == accepted;
    }
  }

  datatype WriteCall = WriteCall(data: string, offset: int)

  function WriteAll(h: Handle, configChunkSize: nat, calls: seq<WriteCall>): Handle
    requires configChunkSize > 0
  {
    if calls == [] then h else
    var n := |calls| - 1;
    Write(WriteAll(h, configChunkSize, calls[..n]), configChunkSize, calls[n].data, calls[n].offset).0
  }

  /** The data of the accepted calls, in order: those that start where the accepted data ends. */
  function Accepted(calls: seq<WriteCall>): string {
    if calls == [] then "" else
    var n := |calls| - 1;
    var before := Accepted(calls[..n]);
    if SizeT(calls[n].offset) == |before| then before + calls[n].data else before
  }

  /** Call i starts where the data accepted before it ends. */
  predicate IsAccepted(calls: seq<WriteCall>, i: nat)
    requires i < |calls|
  {
    SizeT(calls[i].offset) == |Accepted(calls[..i])|
  }

  predicate AnyAccepted(calls: seq<WriteCall>) {
    exists i :: 0 <= i < |calls| && IsAccepted(calls, i)
  }

  lemma AnyAcceptedStep(calls: seq<WriteCall>)
    requires calls != []
    ensures AnyAccepted(calls) <==> AnyAccepted(calls[..|calls| - 1]) || IsAccepted(calls, |calls| - 1)
  {
    var front := calls[..|calls| - 1];
    forall i | 0 <= i < |front|
      ensures IsAccepted(front, i) == IsAccepted(calls, i)
    {
      assert front[..i] == calls[..i];
    }
    if AnyAccepted(front) {
      var i :| 0 <= i < |front| && IsAccepted(front, i);
      assert IsAccepted(calls, i);
    }
  }

  /** After any sequence of accepted and rejected writes the buffer is the concatenation of the accepted data. There is
      no mapping as long as all were rejected; then its size is the data's, rounded up to whole chunks. */
  lemma {:induction false} BufferIsAccepted(path: string, cs: nat, calls: seq<WriteCall>)
    requires cs > 0
    ensures
      var h := WriteAll(NewHandle(path), cs, calls);
      && BufferOk(h, Accepted(calls))
      && h.hasChanges == AnyAccepted(calls)
      && h.chunkSize == (if calls == [] then 0 else cs)
      && |h.data| == if AnyAccepted(calls) then Max(cs, NumChunks(|Accepted(calls)|, cs) * cs) else 0
  {
    hide Write, NumChunks, AnyAccepted;
    if calls == [] {
      assert !AnyAccepted(calls) by { NoneAccepted(); }
    } else {
      var n := |calls| - 1;
      BufferIsAccepted(path, cs, calls[..n]);
      AnyAcceptedStep(calls);
      WriteAppends(WriteAll(NewHandle(path), cs, calls[..n]), cs, calls[n].data, calls[n].offset, Accepted(calls[..n]));
    }
  }

  lemma NoneAccepted()
    ensures !AnyAccepted([])
  {
  }

  // ---- publishing and reading -------------------------------------------------------------

  /** File::store; None when the version whose contentType is reused does not exist. */
  function Publish(h: Handle, s: Store, cs: nat): (r: (Handle, Option<Store>))
    requires cs > 0
    ensures r.0.snap.Loaded?
  {
    var h1 := Load(h, s);
    if h1.snap.doc.None? then (h1, None) else
    var s' := StoreFile(s, h.data[..h.written], h.path, h1.snap.doc.value.contentType, cs);
    // free_memory resets theWritten before it is copied into theFileLength
    var h2 := if h.data == "" then h1 else h1.(written := 0, data := "", hasChanges := false);
    (h2.(fileLength := h2.written), Some(s'))
  }

  /** The length remembered after publishing is that of the published bytes if and only if there were none. */
  lemma RememberedLengthIff(h: Handle, s: Store, cs: nat)
    requires cs > 0 && Publish(h, s, cs).1.Some?
    ensures Publish(h, s, cs).0.fileLength == |h.data[..h.written]| <==> h.written == 0
  {
  }

  /** The lazy initialisation in File::read; false when the driver throws. */
  function Prepare(h: Handle, s: Store, missingThrows: bool): (Handle, bool) {
    var asks := h.chunkSize == 0 || h.fileLength == 0;
    var h1 := if asks then Load(h, s) else h;
    if asks && h1.snap.doc.None? && missingThrows then (h1, false) else
    var h2 := if h.chunkSize == 0 then h1.(chunkSize := if h1.snap.doc.Some? then h1.snap.doc.value.chunkSize else 0) else h1;
    (if h.fileLength == 0 then h2.(fileLength := if h2.snap.doc.Some? then h2.snap.doc.value.length else 0) else h2, true)
  }

  /** File::read. With a length of 0 neither the range check nor the loop reads anything. */
  function ReadHandle(h: Handle, s: Store, missingThrows: bool, offset: int, size: nat): (Handle, Outcome)
    requires size < TWO_63 && -TWO_63 <= offset < TWO_63
  {
    var (h', ok) := Prepare(h, s, missingThrows);
    if !ok then (h', Eio)
    else if h'.fileLength == 0 then (h', Done(""))
    else if !(0 < h'.chunkSize < TWO_31 && h'.fileLength < TWO_63) then (h', Fault)
    else
      var (c, out) := Read(SnapChunks(h'.snap, s), h'.fileLength, h'.chunkSize, h'.cache, offset, size);
      (h'.(cache := c), out)
  }

  /** What the store still holds of the loaded version. */
  function SnapChunks(snap: Snap, s: Store): Option<seq<string>> {
    if snap.Loaded? && snap.doc.Some? then ChunksOf(s, snap.doc.value.id) else None
  }
}
