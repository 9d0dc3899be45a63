/** Every run of the file system is a run of the flat map. */
module Refinement {
  import opened CTypes
  import opened Chunks
  import opened ContentType
  import opened GridStore
  import opened PathRegex
  import opened FlatSpec
  import CR = ChunkRead
  import Directory
  import F = FuseSpec
  import H = Handles
  import P = Paths
  import PS = ProcServers

  /** `procs` are the open proc paths. */
  datatype State = State(sys: F.Sys, handles: map<nat, H.Handle>, procs: map<nat, string>)

  /** The kernel keeps what open left behind only if the call succeeded. */
  function KeepProc(s: State, made: (F.Sys, F.Reply, bool), p: string, h: nat): (State, F.Reply) {
    var (sys, r, left) := made;
    (s.(sys := sys, procs := if r.Success? && left then s.procs[h := p] else s.procs), r)
  }

  /** One call. Calls on handles that nothing stands behind have no specified reply. */
  function Step(cfg: P.Config, s: State, op: Op): (State, F.Reply)
    requires P.ConfigOk(cfg)
  {
    match op
    case Getattr(p) => var (sys, r) := F.Getattr(cfg, s.sys, p); (s.(sys := sys), r)
    case Readdir(p) => (s, F.Readdir(cfg, s.sys, p))
    case Evict(p) => (s.(sys := s.sys.(cache := s.sys.cache - {p})), F.Success)
    case Mkdir(p, mode, now) => (s.(sys := F.Mkdir(cfg, s.sys, p, mode, now)), F.Success)
    case Symlink(target, p, now) => var (sys, r) := F.Symlink(cfg, s.sys, target, p, now); (s.(sys := sys), r)
    case Rmdir(p) => var (sys, r) := F.Rmdir(s.sys, p); (s.(sys := sys), r)
    case Unlink(p) => var (sys, r) := F.Unlink(s.sys, p); (s.(sys := sys), r)
    case Chmod(p, mode) => var (sys, r) := F.Chmod(cfg, s.sys, p, mode); (s.(sys := sys), r)
    case Chown(p, uid, gid) => var (sys, r) := F.Chown(cfg, s.sys, p, uid, gid); (s.(sys := sys), r)
    case Utimens(p, time) => var (sys, r) := F.Utimens(cfg, s.sys, p, time); (s.(sys := sys), r)
    case Truncate(p, offset) => var (sys, r) := F.Truncate(s.sys, p, offset); (s.(sys := sys), r)
    case Create(p, mode, now, h) =>
      if P.IsProc(cfg, p) then var (sys, r) := F.CreateProc(cfg, s.sys, p); (s.(sys := sys), r) else
      var (sys, r, file) := F.Create(cfg, s.sys, p, mode, now);
      (s.(sys := sys, handles := if r.Success? then s.handles[h := file] else s.handles), r)
    case Open(p, h) =>
      if P.IsProc(cfg, p) then KeepProc(s, F.OpenProc(cfg, s.sys, p), p, h) else
      var (r, file) := F.Open(cfg, s.sys, p);
      (s.(handles := if file.Some? then s.handles[h := file.value] else s.handles), r)
    case Write(h, data, offset) =>
      if h in s.procs then (s, F.WriteProc(cfg)) else
      if h !in s.handles then (s, F.Unspecified) else
      var (file, r) := F.Write(cfg, s.handles[h], data, offset);
      (s.(handles := s.handles[h := file]), r)
    case Read(h, offset, size) =>
      if h in s.procs then (s, F.ReadProc(cfg)) else
      if h !in s.handles || size >= TWO_63 || !(-TWO_63 <= offset < TWO_63) then (s, F.Unspecified) else
      var (file, r) := F.Read(cfg, s.sys, s.handles[h], offset, size);
      (s.(handles := s.handles[h := file]), r)
    case Release(h) =>
      if h in s.procs then
        var (sys, r) := F.ReleaseProc(s.sys, s.procs[h]);
        (s.(sys := sys, procs := s.procs - {h}), r)
      else
      if h !in s.handles then (s, F.Unspecified) else
      var (sys, r) := F.Release(cfg, s.sys, s.handles[h]);
      (s.(sys := sys, handles := s.handles - {h}), r)
  }

  // ---- the simulation relation ------------------------------------------------------------

  function FlatOf(s: Store, d: Doc): FlatFile {
    FlatFile(MetaOf(d.contentType), Bytes(s, d))
  }

  /** The flat files are the newest versions. */
  predicate FileRel(s: Store, files: map<string, FlatFile>, p: string) {
    match FindFile(s, p)
    case None => p !in files
    case Some(d) => p in files && files[p] == FlatOf(s, d)
  }

  ghost predicate FilesRel(s: Store, files: map<string, FlatFile>) {
    forall p :: FileRel(s, files, p)
  }

  /** Every cached path is live, outside proc and readable, and its attributes are those of the newest version. */
  predicate CacheRel(cfg: P.Config, cache: map<string, F.Stat>, files: map<string, FlatFile>) {
    forall p :: p in cache ==>
      p in files && !P.IsProc(cfg, p) && InRange(files[p].meta) && cache[p] == FlatSpec.StatOf(files[p])
  }

  /** A loaded version: its document as fetched, and its chunks as long as the store has them. */
  predicate SnapRel(cs: nat, s: Store, h: H.Handle, d: Doc, fh: FlatHandle)
    requires cs > 0 && fh.snap.Snap?
  {
    var bytes := fh.snap.file.bytes;
    && d.length == |bytes| < TWO_63 && d.chunkSize == cs && d.id < s.nextId
    && Printed(d.contentType) && fh.snap.file.meta == MetaOf(d.contentType)
    && (h.fileLength == 0 || h.fileLength == d.length)
    && CR.CacheOk(h.cache, bytes, cs)
    && (d.id in s.chunks && d.length > 0 ==> s.chunks[d.id] == Split(bytes, cs))
    && (!fh.revoked ==> d.id in s.chunks)
    && (forall e :: e in s.docs && e.id == d.id ==> e.name == h.path)
  }

  predicate HandleRel(cs: nat, s: Store, h: H.Handle, fh: FlatHandle)
    requires cs > 0
  {
    && h.path == fh.path && H.BufferOk(h, fh.buf) && h.hasChanges == fh.dirty && |fh.buf| < TWO_63
    && (h.chunkSize == 0 || h.chunkSize == cs)
    && match h.snap
       case NotLoaded => fh.snap.Unread? && !fh.revoked && h.fileLength == 0 && CR.CacheOk(h.cache, "", cs)
       case Loaded(None) => fh.snap.Missing? && h.fileLength == 0 && CR.CacheOk(h.cache, "", cs)
       case Loaded(Some(d)) => fh.snap.Snap? && SnapRel(cs, s, h, d, fh)
  }

  predicate HandlesRel(cs: nat, s: Store, handles: map<nat, H.Handle>, fhs: map<nat, FlatHandle>)
    requires cs > 0
  {
    handles.Keys == fhs.Keys && forall h :: h in handles ==> HandleRel(cs, s, handles[h], fhs[h])
  }

  /** Open files lie outside proc. */
  predicate FilePaths(cfg: P.Config, f: Flat) {
    forall h :: h in f.handles ==> !P.IsProc(cfg, f.handles[h].path)
  }

  ghost predicate Rel(cfg: P.Config, s: State, f: Flat)
    requires P.ConfigOk(cfg)
  {
    && StoreOk(cfg.chunkSize, s.sys.store)
    && FilesRel(s.sys.store, f.files)
    && CacheRel(cfg, s.sys.cache, f.files)
    && HandlesRel(cfg.chunkSize, s.sys.store, s.handles, f.handles)
    && FilePaths(cfg, f) && s.sys.servers == f.servers && s.procs == f.procs && f.procs.Keys !! f.handles.Keys
  }

  // ---- storing a version ------------------------------------------------------------------

  lemma StoreKeepsHandles(cs: nat, s: Store, data: string, p: string, text: string,
                          handles: map<nat, H.Handle>, fhs: map<nat, FlatHandle>)
    requires cs > 0 && StoreOk(cs, s) && |data| < TWO_63 && Printed(text)
    requires HandlesRel(cs, s, handles, fhs)
    ensures HandlesRel(cs, StoreFile(s, data, p, text, cs), handles, fhs)
  {
    hide Split, Concat, Printed, H.BufferOk, CR.CacheOk;
    var s' := StoreFile(s, data, p, text, cs);
    StoreFileOk(cs, s, data, p, text);
    forall h | h in handles
      ensures HandleRel(cs, s', handles[h], fhs[h])
    {
      assert HandleRel(cs, s, handles[h], fhs[h]);
    }
  }

  lemma StoreRel(cs: nat, s: Store, files: map<string, FlatFile>, data: string, p: string, m: Meta)
    requires cs > 0 && StoreOk(cs, s) && FilesRel(s, files) && |data| < TWO_63 && Typed(m)
    ensures
      var s' := StoreFile(s, data, p, Print(m), cs);
      StoreOk(cs, s') && FilesRel(s', files[p := FlatFile(m, data)])
  {
    hide Split, Concat, Printed, Print, MetaOf;
    PrintedPrint(m);
    StoreFileOk(cs, s, data, p, Print(m));
    var s' := StoreFile(s, data, p, Print(m), cs);
    var files' := files[p := FlatFile(m, data)];
    forall q
      ensures FileRel(s', files', q)
    {
      assert FileRel(s, files, q);
      if q != p && FindFile(s, q).Some? {
        NewestIn(s.docs, q);
        OldBytes(cs, s, data, p, Print(m), FindFile(s, q).value);
      }
    }
  }

  lemma OldBytes(cs: nat, s: Store, data: string, p: string, text: string, d: Doc)
    requires cs > 0 && StoreOk(cs, s) && d in s.docs
    ensures Bytes(StoreFile(s, data, p, text, cs), d) == Bytes(s, d)
  {
    hide Split, Concat, Printed;
    assert DocOk(cs, s, d);
  }

  // ---- removing a path --------------------------------------------------------------------

  lemma RemoveFilesRel(cs: nat, s: Store, files: map<string, FlatFile>, p: string)
    requires cs > 0 && StoreOk(cs, s) && FilesRel(s, files)
    ensures StoreOk(cs, RemoveFile(s, p)) && FilesRel(RemoveFile(s, p), files - {p})
  {
    hide Split, Concat, Printed, MetaOf;
    RemoveFileOk(cs, s, p);
    var s' := RemoveFile(s, p);
    forall q
      ensures FileRel(s', files - {p}, q)
    {
      assert FileRel(s, files, q);
      if q != p && FindFile(s, q).Some? {
        NewestIn(s.docs, q);
        var d := FindFile(s, q).value;
        assert DocOk(cs, s, d);
        assert d in s'.docs;
        assert DocOk(cs, s', d);
      }
    }
  }

  lemma RemoveHandle(cs: nat, s: Store, p: string, h: H.Handle, fh: FlatHandle)
    requires cs > 0 && StoreOk(cs, s) && HandleRel(cs, s, h, fh)
    ensures HandleRel(cs, RemoveFile(s, p), h, if fh.path == p && fh.snap.Snap? then fh.(revoked := true) else fh)
  {
    hide Split, Concat, Printed, MetaOf, H.BufferOk, CR.CacheOk;
    RemoveFileOk(cs, s, p);
  }

  lemma RemoveRel(cs: nat, s: State, f: Flat, p: string)
    requires cs > 0 && StoreOk(cs, s.sys.store) && FilesRel(s.sys.store, f.files)
    requires HandlesRel(cs, s.sys.store, s.handles, f.handles)
    ensures
      var store := RemoveFile(s.sys.store, p);
      var f' := RemovePath(f, p);
      StoreOk(cs, store) && FilesRel(store, f'.files) && HandlesRel(cs, store, s.handles, f'.handles)
  {
    hide StoreOk, FilesRel, SnapRel;
    RemoveFilesRel(cs, s.sys.store, f.files, p);
    var store, handles, fhs, fhs' := s.sys.store, s.handles, f.handles, Revoke(f.handles, p);
    forall h | h in handles
      ensures HandleRel(cs, RemoveFile(store, p), handles[h], fhs'[h])
    {
      RemoveHandle(cs, store, p, handles[h], fhs[h]);
    }
  }

  // ---- patching the newest version --------------------------------------------------------

  lemma PatchKeepsHandles(cs: nat, s: Store, id: nat, text: Option<string>, length: Option<nat>,
                          handles: map<nat, H.Handle>, fhs: map<nat, FlatHandle>)
    requires cs > 0 && HandlesRel(cs, s, handles, fhs)
    ensures HandlesRel(cs, s.(docs := Patch(s.docs, id, text, length)), handles, fhs)
  {
    hide Split, Concat, Printed, MetaOf, H.BufferOk, CR.CacheOk;
    var s' := s.(docs := Patch(s.docs, id, text, length));
    PatchMembers(s.docs, id, text, length);
    forall h | h in handles
      ensures HandleRel(cs, s', handles[h], fhs[h])
    {
      assert HandleRel(cs, s, handles[h], fhs[h]);
    }
  }

  /** Rewriting the newest version of a path changes that path only, and of it only the patched part. */
  lemma PatchRel(cs: nat, s: Store, files: map<string, FlatFile>, p: string, text: Option<string>, length: Option<nat>)
    requires cs > 0 && StoreOk(cs, s) && FilesRel(s, files) && p in files
    requires text.Some? ==> Printed(text.value)
    requires length.Some? ==> length.value == 0
    ensures Live(s, p)
    ensures
      var s' := s.(docs := Patch(s.docs, FindFile(s, p).value.id, text, length));
      var file := files[p];
      var file' := FlatFile(if text.Some? then MetaOf(text.value) else file.meta, if length.Some? then "" else file.bytes);
      StoreOk(cs, s') && FilesRel(s', files[p := file'])
  {
    hide Split, Concat, Printed, MetaOf;
    assert FileRel(s, files, p);
    var d := FindFile(s, p).value;
    PatchOk(cs, s, d.id, text, length);
    NewestIn(s.docs, p);
    var s' := s.(docs := Patch(s.docs, d.id, text, length));
    var file := files[p];
    var file' := FlatFile(if text.Some? then MetaOf(text.value) else file.meta, if length.Some? then "" else file.bytes);
    var files' := files[p := file'];
    forall q
      ensures FileRel(s', files', q)
    {
      assert FileRel(s, files, q);
      NewestIn(s.docs, q);
      if q == p {
        assert DocOk(cs, s, d);
      } else if FindFile(s, q).Some? {
        var e := FindFile(s, q).value;
        assert e.id != d.id;
      }
    }
  }

  // ---- reading through a handle -----------------------------------------------------------

  lemma ReadNothing(chunks: Option<seq<string>>, cs: nat, c: CR.ChunkCache, offset: int, size: nat)
    requires 0 < cs < TWO_31 && size < TWO_63 && -TWO_63 <= offset < TWO_63
    ensures CR.Read(chunks, 0, cs, c, offset, size) == (c, CR.Done(""))
  {
    hide SizeT, CR.ReadFrom;
    CR.SizeTOfOffT(offset);
    if offset == 0 {
      CR.LoopEnds(chunks, 0, cs, c, 0, size, "");
    }
  }

  lemma LoadRel(cs: nat, s: Store, files: map<string, FlatFile>, h: H.Handle, fh: FlatHandle, f: Flat)
    requires cs > 0 && StoreOk(cs, s) && FilesRel(s, files) && HandleRel(cs, s, h, fh) && f.files == files
    ensures HandleRel(cs, s, H.Load(h, s), fh.(snap := Look(f, fh.snap, fh.path)))
  {
    hide Split, Concat, Printed, MetaOf, CR.CacheOk, NumChunks;
    if h.snap.NotLoaded? {
      assert FileRel(s, files, h.path);
      NewestIn(s.docs, h.path);
      if FindFile(s, h.path).Some? {
        var d := FindFile(s, h.path).value;
        assert DocOk(cs, s, d);
        LoadedBytes(cs, s, d);
        NothingCached(h.cache, Bytes(s, d), cs);
      }
    }
  }

  lemma LoadedBytes(cs: nat, s: Store, d: Doc)
    requires cs > 0 && DocOk(cs, s, d)
    ensures |Bytes(s, d)| == d.length < TWO_63
    ensures d.length > 0 ==> s.chunks[d.id] == Split(Bytes(s, d), cs)
  {
    var all := Concat(s.chunks[d.id]);
    assert all[..|all|] == all;
  }

  lemma NothingCached(c: CR.ChunkCache, bytes: string, cs: nat)
    requires cs > 0 && CR.CacheOk(c, "", cs)
    ensures CR.CacheOk(c, bytes, cs)
  {
    NoChunks(cs);
  }

  lemma NoChunks(cs: nat)
    requires cs > 0
    ensures NumChunks(0, cs) == 0
  {
    ChunkBounds(0, cs, 0);
  }

  predicate ReadAllowed(cs: nat, fh: FlatHandle, missingThrows: bool, offset: int, size: nat, out: CR.Outcome)
    requires cs > 0
  {
    match fh.snap
    case Snap(file) =>
      CR.Addressable(|file.bytes|, cs, offset, size) ==>
        out == CR.Done(Slice(file.bytes, offset, size)) || (fh.revoked && out == CR.Eio)
    case _ => out == if missingThrows then CR.Eio else CR.Done("")
  }

  lemma ReadLoaded(cs: nat, s: Store, h: H.Handle, fh: FlatHandle, d: Doc, missingThrows: bool,
                   offset: int, size: nat)
    requires 0 < cs < TWO_31 && size < TWO_63 && -TWO_63 <= offset < TWO_63
    requires HandleRel(cs, s, h, fh) && h.snap == H.Loaded(Some(d))
    requires h.fileLength == d.length && h.chunkSize == cs
    ensures
      var (c, out) := CR.Read(H.SnapChunks(h.snap, s), h.fileLength, cs, h.cache, offset, size);
      HandleRel(cs, s, h.(cache := c), fh) && ReadAllowed(cs, fh, missingThrows, offset, size, out)
  {
    hide Split, Concat, Printed, MetaOf, CR.CacheOk, CR.Read, CR.Addressable, CR.Needs;
    var bytes := fh.snap.file.bytes;
    var chunks := H.SnapChunks(h.snap, s);
    if d.length == 0 {
      ReadNothing(chunks, cs, h.cache, offset, size);
    } else {
      CR.ReadIsSlice(bytes, chunks, cs, h.cache, offset, size);
    }
  }

  /** What a read through a loaded handle returns is determined: it fails exactly if the version's chunks are gone and the
      range is not all in the cached chunk. */
  lemma ReadDetermined(cs: nat, s: Store, h: H.Handle, fh: FlatHandle, d: Doc, missingThrows: bool,
                       offset: int, size: nat)
    requires 0 < cs < TWO_31 && size < TWO_63 && -TWO_63 <= offset < TWO_63
    requires HandleRel(cs, s, h, fh) && h.snap == H.Loaded(Some(d))
    requires CR.Addressable(|fh.snap.file.bytes|, cs, offset, size)
    ensures
      var bytes := fh.snap.file.bytes;
      H.ReadHandle(h, s, missingThrows, offset, size).1
      == if d.id in s.chunks || !CR.Needs(bytes, cs, h.cache, offset, size) then CR.Done(Slice(bytes, offset, size))
         else CR.Eio
  {
    hide Split, Concat, Printed, MetaOf, CR.CacheOk, CR.Read, CR.Addressable, CR.Needs, CR.Fetches;
    var bytes := fh.snap.file.bytes;
    var chunks := H.SnapChunks(h.snap, s);
    if d.length == 0 {
      ReadNothing(chunks, cs, h.cache, offset, size);
      NothingNeeded(cs, h.cache, offset, size);
    } else {
      CR.ReadIsSlice(bytes, chunks, cs, h.cache, offset, size);
    }
  }

  lemma NothingNeeded(cs: nat, c: CR.ChunkCache, offset: int, size: nat)
    requires cs > 0
    ensures !CR.Needs("", cs, c, offset, size)
  {
  }

  lemma ReadRefines(cs: nat, s: Store, f: Flat, h: H.Handle, fh: FlatHandle, missingThrows: bool, offset: int, size: nat)
    requires 0 < cs < TWO_31 && size < TWO_63 && -TWO_63 <= offset < TWO_63
    requires StoreOk(cs, s) && FilesRel(s, f.files) && HandleRel(cs, s, h, fh)
    ensures
      var (h', out) := H.ReadHandle(h, s, missingThrows, offset, size);
      var fh' := fh.(snap := Look(f, fh.snap, fh.path));
      HandleRel(cs, s, h', fh') && ReadAllowed(cs, fh', missingThrows, offset, size, out)
  {
    hide Split, Concat, Printed, MetaOf, CR.CacheOk, CR.Read, CR.Addressable, StoreOk, FilesRel;
    LoadRel(cs, s, f.files, h, fh, f);
    var h1, fh' := H.Load(h, s), fh.(snap := Look(f, fh.snap, fh.path));
    if h1.snap.doc.Some? {
      var d := h1.snap.doc.value;
      var h3 := h1.(chunkSize := cs, fileLength := d.length);
      Initialised(cs, s, h1, fh', d);
      ReadNothing(H.SnapChunks(h3.snap, s), cs, h.cache, offset, size);
      ReadLoaded(cs, s, h3, fh', d, missingThrows, offset, size);
    }
  }

  lemma Initialised(cs: nat, s: Store, h: H.Handle, fh: FlatHandle, d: Doc)
    requires 0 < cs && HandleRel(cs, s, h, fh) && h.snap == H.Loaded(Some(d))
    ensures HandleRel(cs, s, h.(chunkSize := cs, fileLength := d.length), fh)
  {
  }

  lemma ModeBound(mode: nat)
    ensures mode < TWO_32 ==> OrBit(mode, F.S_IFDIR) < TWO_32 && OrBit(mode, F.S_IFREG) < TWO_32
    ensures F.SYMLINK_MODE < TWO_32
  {
  }

  // ---- one step ---------------------------------------------------------------------------

  ghost predicate Refines(cfg: P.Config, s: State, f: Flat, op: Op)
    requires P.ConfigOk(cfg)
  {
    var (s', r) := Step(cfg, s, op);
    Rel(cfg, s', Next(cfg, f, op)) && Allows(cfg, f, op, r)
  }

  /** The newest version of a live path, seen from both sides. */
  lemma LiveBothSides(cfg: P.Config, s: State, f: Flat, p: string)
    requires P.ConfigOk(cfg) && Rel(cfg, s, f)
    ensures p in f.files <==> Live(s.sys.store, p)
    ensures p in f.files ==>
              var d := FindFile(s.sys.store, p).value;
              var m := f.files[p].meta;
              && Typed(m) && d.contentType == Print(m)
              && Parse(d.contentType, Defaults(cfg.uid, cfg.gid))
                 == (if InRange(m) then Parsed(Fields(m.mode, m.uid, m.gid, Some(m.time))) else Undefined)
              && F.StatOf(cfg, d) == (if InRange(m) then Some(FlatSpec.StatOf(f.files[p])) else None)
  {
    hide Split, Concat, Parse, Print, MetaOf, HandlesRel;
    assert FileRel(s.sys.store, f.files, p);
    NewestIn(s.sys.store.docs, p);
    if p in f.files {
      var d := FindFile(s.sys.store, p).value;
      assert DocOk(cfg.chunkSize, s.sys.store, d);
      ParsePrinted(d.contentType, cfg.uid, cfg.gid);
      LoadedBytes(cfg.chunkSize, s.sys.store, d);
    }
  }

  lemma KeepsFilePaths(cfg: P.Config, f: Flat, op: Op)
    requires FilePaths(cfg, f) && Admissible(cfg, f, op)
    ensures FilePaths(cfg, Next(cfg, f, op))
  {
    hide P.IsProc, HasChild, HasRepeat, PS.Add, PS.Definite, InRange;
  }

  lemma GetattrRefines(cfg: P.Config, s: State, f: Flat, op: Op)
    requires P.ConfigOk(cfg) && Rel(cfg, s, f) && (op.Getattr? || op.Evict?) && Admissible(cfg, f, op)
    ensures Refines(cfg, s, f, op)
  {
    hide StoreOk, FilesRel, HandlesRel, F.StatOf, FlatSpec.StatOf, P.IsProc, FilePaths, PS.Classify, HasKind, Below;
    Kinds(cfg, op.path);
    KeepsFilePaths(cfg, f, op);
    LiveBothSides(cfg, s, f, op.path);
  }

  /** The program's classification of proc paths, in the flat map's terms. */
  lemma Kinds(cfg: P.Config, p: string)
    ensures PS.InstancesPrefix(cfg) == cfg.pathPrefix + "/proc/instances/"
    ensures HasKind(cfg, p) <==> PS.Classify(cfg, p).Some?
    ensures Below(cfg.pathPrefix + "/proc/instances", p) <==> PS.Classify(cfg, p) == Some(PS.ListInstances)
    ensures PS.Classify(cfg, p) == Some(PS.Root) <==> p == cfg.pathPrefix + "/proc"
    ensures PS.Classify(cfg, p) == Some(PS.Instances) <==> p == cfg.pathPrefix + "/proc/instances"
  {
    PS.ClassifiedIsProc(cfg, p);
    var prefix := cfg.pathPrefix + "/proc/instances/";
    assert PS.InstancesPrefix(cfg) == prefix && cfg.pathPrefix + "/proc/instances" + "/" == prefix;
    if prefix <= p {
      assert p == prefix + p[|prefix|..];
    }
  }

  lemma ReaddirRefines(cfg: P.Config, s: State, f: Flat, op: Op)
    requires P.ConfigOk(cfg) && Rel(cfg, s, f) && op.Readdir? && Admissible(cfg, f, op)
    ensures Refines(cfg, s, f, op)
  {
    hide StoreOk, FilesRel, HandlesRel, CacheRel, P.IsProc, PS.Names, HasRepeat, IsChild, Live, Directory.Listing, FilePaths,
         F.ProcList, HasKind, Below;
    KeepsFilePaths(cfg, f, op);
    if P.IsProc(cfg, op.path) {
      ProcListIs(cfg, f.servers, op.path);
    } else {
      LiveBothSides(cfg, s, f, op.path);
      if op.path in f.files {
        ListingBothSides(cfg, s, f, op.path);
      }
    }
  }

  lemma ProcListIs(cfg: P.Config, servers: seq<PS.Server>, p: string)
    ensures HasKind(cfg, p) && (Below(cfg.pathPrefix + "/proc/instances", p) ==> !cfg.asserts) ==>
              F.ProcList(cfg, servers, p)
              == F.Names([".", ".."] + if p == cfg.pathPrefix + "/proc" then ["instances"]
                                       else if p == cfg.pathPrefix + "/proc/instances" then PS.Names(servers)
                                       else [])
  {
    hide PS.Classify, HasKind, Below, PS.Names;
    Kinds(cfg, p);
  }

  lemma ListingBothSides(cfg: P.Config, s: State, f: Flat, p: string)
    requires P.ConfigOk(cfg) && Rel(cfg, s, f) && !HasRepeat(p)
    ensures Directory.Listing(s.sys.store.docs, p).Some?
    ensures
      var names := Directory.Listing(s.sys.store.docs, p).value;
      && |names| >= 2 && names[..2] == [".", ".."] && Directory.NoDuplicates(names[2..])
      && (forall n :: n in names[2..] ==> '/' !in n && p + "/" + n in f.files)
      && (forall x :: x in f.files && IsChild(p, x) ==> x[|p| + 1..] in names[2..])
  {
    hide Rel, HasRepeat, Directory.Listing, Live;
    Directory.ListingIsChildren(s.sys.store, p);
    var names := Directory.Listing(s.sys.store.docs, p).value;
    forall n
      ensures p + "/" + n in f.files <==> Live(s.sys.store, p + "/" + n)
    {
      LiveBothSides(cfg, s, f, p + "/" + n);
    }
    forall x | x in f.files && IsChild(p, x)
      ensures x[|p| + 1..] in names[2..]
    {
      assert x == p + "/" + x[|p| + 1..];
    }
  }

  /** create and open on proc paths, and calls on open proc paths. */
  predicate OnProc(cfg: P.Config, f: Flat, op: Op) {
    match op
    case Create(p, _, _, _) => P.IsProc(cfg, p)
    case Open(p, _) => P.IsProc(cfg, p)
    case Write(h, _, _) => h in f.procs
    case Read(h, _, _) => h in f.procs
    case Release(h) => h in f.procs
    case _ => false
  }

  lemma LessCached(cfg: P.Config, cache: map<string, F.Stat>, files: map<string, FlatFile>, p: string)
    requires CacheRel(cfg, cache, files)
    ensures CacheRel(cfg, cache - {p}, files)
  {
  }

  lemma ProcRefines(cfg: P.Config, s: State, f: Flat, op: Op)
    requires P.ConfigOk(cfg) && Rel(cfg, s, f) && OnProc(cfg, f, op) && Admissible(cfg, f, op)
    ensures Refines(cfg, s, f, op)
  {
    hide StoreOk, FilesRel, HandlesRel, CacheRel, P.IsProc, PS.Stored, PS.ParseServer, PS.InstancesPrefix, FilePaths;
    if op.Create? || op.Open? {
      Kinds(cfg, op.path);
    }
    KeepsFilePaths(cfg, f, op);
    match op
    case Create(p, _, _, _) =>
    case Open(p, _) =>
    case Write(h, _, _) =>
    case Read(h, _, _) =>
    case Release(h) => LessCached(cfg, s.sys.cache, f.files, s.procs[h]);
    case _ =>
  }

  lemma CreateRefines(cfg: P.Config, s: State, f: Flat, op: Op)
    requires P.ConfigOk(cfg) && Rel(cfg, s, f) && (op.Mkdir? || op.Symlink? || op.Create?) && Admissible(cfg, f, op)
    requires !OnProc(cfg, f, op)
    ensures Refines(cfg, s, f, op)
  {
    hide StoreOk, FilesRel, HandlesRel, Print, MetaOf, Printed, FlatSpec.StatOf, OrBit, P.IsProc, Newest, FilePaths;
    KeepsFilePaths(cfg, f, op);
    var p := op.path;
    LiveBothSides(cfg, s, f, p);
    if p !in f.files {
      var mode := if op.Mkdir? then OrBit(op.mode, F.S_IFDIR)
                  else if op.Symlink? then F.SYMLINK_MODE
                  else OrBit(op.mode, F.S_IFREG);
      ModeBound(if op.Symlink? then 0 else op.mode);
      var m := Meta(mode, cfg.uid, cfg.gid, op.now);
      var content := if op.Symlink? then op.target else "";
      PrintedPrint(m);
      StoreRel(cfg.chunkSize, s.sys.store, f.files, content, p, m);
      StoreKeepsHandles(cfg.chunkSize, s.sys.store, content, p, Print(m), s.handles, f.handles);
      if op.Create? {
        var store := StoreFile(s.sys.store, content, p, Print(m), cfg.chunkSize);
        AddHandle(cfg.chunkSize, store, s.handles, f.handles, op.h, H.NewHandle(p), FlatHandle(p, Unread, "", false, false));
      }
    }
  }

  lemma AddHandle(cs: nat, s: Store, handles: map<nat, H.Handle>, fhs: map<nat, FlatHandle>,
                  h: nat, file: H.Handle, fh: FlatHandle)
    requires cs > 0 && HandlesRel(cs, s, handles, fhs)
    requires
      || HandleRel(cs, s, file, fh)
      || (file == H.NewHandle(fh.path) && fh == FlatHandle(fh.path, Unread, "", false, false))
    ensures HandlesRel(cs, s, handles[h := file], fhs[h := fh])
  {
  }

  lemma UnlinkRefines(cfg: P.Config, s: State, f: Flat, op: Op)
    requires P.ConfigOk(cfg) && Rel(cfg, s, f) && op.Unlink?
    ensures Refines(cfg, s, f, op)
  {
    hide StoreOk, FilesRel, HandlesRel, FlatSpec.StatOf, P.IsProc, HasRepeat, RemoveFile, Newest, Live,
         F.UpdateMeta, F.CreateEntry, F.Release, F.Read, F.Write, F.Open, F.Create, FilePaths;
    KeepsFilePaths(cfg, f, op);
    LiveBothSides(cfg, s, f, op.path);
    RemoveRel(cfg.chunkSize, s, f, op.path);
  }

  lemma RmdirRefines(cfg: P.Config, s: State, f: Flat, op: Op)
    requires P.ConfigOk(cfg) && Rel(cfg, s, f) && op.Rmdir? && Admissible(cfg, f, op)
    ensures Refines(cfg, s, f, op)
  {
    hide StoreOk, FilesRel, HandlesRel, FlatSpec.StatOf, P.IsProc, HasRepeat, RemoveFile, Newest, Live, HasChild,
         F.UpdateMeta, F.CreateEntry, F.Release, F.Read, F.Write, F.Open, F.Create, Directory.IsEmpty, FilePaths;
    KeepsFilePaths(cfg, f, op);
    var p := op.path;
    LiveBothSides(cfg, s, f, p);
    EmptyBothSides(cfg, s, f, p);
    RemoveRel(cfg.chunkSize, s, f, p);
  }

  lemma EmptyBothSides(cfg: P.Config, s: State, f: Flat, p: string)
    requires P.ConfigOk(cfg) && Rel(cfg, s, f) && !HasRepeat(p)
    ensures HasChild(f.files, p) <==> !Directory.IsEmpty(s.sys.store.docs, p)
  {
    hide Rel, HasRepeat, Directory.IsEmpty, IsChild, Live;
    Directory.EmptyIffNoChild(s.sys.store, p);
    forall x
      ensures x in f.files <==> Live(s.sys.store, x)
    {
      LiveBothSides(cfg, s, f, x);
    }
  }

  lemma TruncateRefines(cfg: P.Config, s: State, f: Flat, op: Op)
    requires P.ConfigOk(cfg) && Rel(cfg, s, f) && op.Truncate? && Admissible(cfg, f, op)
    ensures Refines(cfg, s, f, op)
  {
    hide StoreOk, FilesRel, HandlesRel, P.IsProc, Print, MetaOf, Printed, Parse, InRange, FilePaths;
    KeepsFilePaths(cfg, f, op);
    LiveBothSides(cfg, s, f, op.path);
    if op.path in f.files {
      var d := FindFile(s.sys.store, op.path).value;
      PatchRel(cfg.chunkSize, s.sys.store, f.files, op.path, None, Some(0));
      PatchKeepsHandles(cfg.chunkSize, s.sys.store, d.id, None, Some(0), s.handles, f.handles);
    }
  }

  lemma ChangeRefines(cfg: P.Config, s: State, f: Flat, op: Op)
    requires P.ConfigOk(cfg) && Rel(cfg, s, f) && (op.Chmod? || op.Chown? || op.Utimens?) && Admissible(cfg, f, op)
    ensures Refines(cfg, s, f, op)
  {
    hide StoreOk, FilesRel, HandlesRel, FlatSpec.StatOf, P.IsProc, Print, MetaOf, Printed, Parse, FilePaths,
         F.CreateEntry, F.Release, F.Read, F.Write, F.Open, F.Create, F.Remove;
    KeepsFilePaths(cfg, f, op);
    var p := op.path;
    LiveBothSides(cfg, s, f, p);
    if p in f.files {
      var was := f.files[p].meta;
      var m := match op
        case Chmod(_, mode) => was.(mode := mode)
        case Chown(_, uid, gid) => was.(uid := uid, gid := gid)
        case Utimens(_, time) => was.(time := time)
        case _ => was;
      var d := FindFile(s.sys.store, p).value;
      PrintedPrint(m);
      PatchRel(cfg.chunkSize, s.sys.store, f.files, p, Some(Print(m)), None);
      PatchKeepsHandles(cfg.chunkSize, s.sys.store, d.id, Some(Print(m)), None, s.handles, f.handles);
    }
  }

  lemma OpenRefines(cfg: P.Config, s: State, f: Flat, op: Op)
    requires P.ConfigOk(cfg) && Rel(cfg, s, f) && op.Open? && Admissible(cfg, f, op) && !OnProc(cfg, f, op)
    ensures Refines(cfg, s, f, op)
  {
    hide StoreOk, FilesRel, CacheRel, HandleRel, P.IsProc, HandlesRel, AddServer, AddReply, FilePaths;
    KeepsFilePaths(cfg, f, op);
    var cs, store, p := cfg.chunkSize, s.sys.store, op.path;
    LiveBothSides(cfg, s, f, p);
    var fh := FlatHandle(p, Unread, "", false, false);
    NewHandleRel(cs, store, p);
    LoadRel(cs, store, f.files, H.NewHandle(p), fh, f);
    AddHandle(cs, store, s.handles, f.handles, op.h, if cfg.asserts then H.Load(H.NewHandle(p), store) else H.NewHandle(p),
              if cfg.asserts then fh.(snap := Look(f, Unread, p)) else fh);
  }

  lemma WriteRefines(cfg: P.Config, s: State, f: Flat, op: Op)
    requires P.ConfigOk(cfg) && Rel(cfg, s, f) && op.Write? && Admissible(cfg, f, op) && !OnProc(cfg, f, op)
    ensures Refines(cfg, s, f, op)
  {
    hide StoreOk, FilesRel, CacheRel, HandleRel, H.Write, HandlesRel, FilePaths, HasRepeat, P.IsProc;
    KeepsFilePaths(cfg, f, op);
    var cs, store := cfg.chunkSize, s.sys.store;
    HandleAt(cs, store, s.handles, f.handles, op.h);
    WriteRel(cs, store, s.handles[op.h], f.handles[op.h], op.data, op.offset);
    var (file, r) := F.Write(cfg, s.handles[op.h], op.data, op.offset);
    var fh := f.handles[op.h];
    var fh' := if SizeT(op.offset) == |fh.buf| then fh.(buf := fh.buf + op.data, dirty := true) else fh;
    AddHandle(cs, store, s.handles, f.handles, op.h, file, fh');
    assert f.handles[op.h := fh] == f.handles;
  }

  lemma ReadStepRefines(cfg: P.Config, s: State, f: Flat, op: Op)
    requires P.ConfigOk(cfg) && Rel(cfg, s, f) && op.Read? && Admissible(cfg, f, op) && !OnProc(cfg, f, op)
    ensures Refines(cfg, s, f, op)
  {
    hide StoreOk, FilesRel, CacheRel, HandleRel, CR.Addressable, H.ReadHandle, HandlesRel, FilePaths, HasRepeat, P.IsProc;
    KeepsFilePaths(cfg, f, op);
    var cs, store := cfg.chunkSize, s.sys.store;
    HandleAt(cs, store, s.handles, f.handles, op.h);
    ReadRefines(cs, store, f, s.handles[op.h], f.handles[op.h], cfg.missingThrows, op.offset, op.size);
    var (file, r) := F.Read(cfg, s.sys, s.handles[op.h], op.offset, op.size);
    var fh := f.handles[op.h];
    AddHandle(cs, store, s.handles, f.handles, op.h, file, fh.(snap := Look(f, fh.snap, fh.path)));
  }

  lemma HandleAt(cs: nat, s: Store, handles: map<nat, H.Handle>, fhs: map<nat, FlatHandle>, h: nat)
    requires cs > 0 && HandlesRel(cs, s, handles, fhs) && h in fhs
    ensures h in handles && HandleRel(cs, s, handles[h], fhs[h])
  {
  }

  lemma NewHandleRel(cs: nat, s: Store, p: string)
    requires cs > 0
    ensures HandleRel(cs, s, H.NewHandle(p), FlatHandle(p, Unread, "", false, false))
  {
  }

  lemma WriteRel(cs: nat, s: Store, h: H.Handle, fh: FlatHandle, data: string, offset: int)
    requires cs > 0 && HandleRel(cs, s, h, fh) && |fh.buf| + |data| < TWO_63
    ensures
      var (h', r) := H.Write(h, cs, data, offset);
      var accepted := SizeT(offset) == |fh.buf|;
      && r == (if accepted then Some(|data|) else None)
      && HandleRel(cs, s, h', if accepted then fh.(buf := fh.buf + data, dirty := true) else fh)
  {
    hide H.Write, H.BufferOk, CR.CacheOk, Printed, Split;
    H.WriteAppends(h, cs, data, offset, fh.buf);
  }

  /** Publishing: the buffer becomes the newest version, under the metadata of the handle's own snapshot. */
  lemma ReleaseRefines(cfg: P.Config, s: State, f: Flat, op: Op)
    requires P.ConfigOk(cfg) && Rel(cfg, s, f) && op.Release? && Admissible(cfg, f, op) && !OnProc(cfg, f, op)
    ensures Refines(cfg, s, f, op)
  {
    hide StoreOk, FilesRel, HandleRel, FlatSpec.StatOf, Printed, Print, MetaOf, P.IsProc, FilePaths;
    KeepsFilePaths(cfg, f, op);
    var cs, store := cfg.chunkSize, s.sys.store;
    HandleAt(cs, store, s.handles, f.handles, op.h);
    var h, fh := s.handles[op.h], f.handles[op.h];
    Published(cs, store, f, h, fh);
    RemoveHandleEntry(cs, store, s.handles, f.handles, op.h);
    var snap := Look(f, fh.snap, fh.path);
    if fh.dirty && snap.Snap? {
      var m := snap.file.meta;
      StoreRel(cs, store, f.files, fh.buf, fh.path, m);
      PrintedPrint(m);
      StoreKeepsHandles(cs, store, fh.buf, fh.path, Print(m), s.handles - {op.h}, f.handles - {op.h});
    }
  }

  lemma Published(cs: nat, s: Store, f: Flat, h: H.Handle, fh: FlatHandle)
    requires cs > 0 && StoreOk(cs, s) && FilesRel(s, f.files) && HandleRel(cs, s, h, fh)
    ensures h.path == fh.path && h.hasChanges == fh.dirty && |fh.buf| < TWO_63
    ensures
      var snap := Look(f, fh.snap, fh.path);
      && (snap.Snap? ==> Typed(snap.file.meta))
      && H.Publish(h, s, cs).1
         == if snap.Snap? then Some(StoreFile(s, fh.buf, fh.path, Print(snap.file.meta), cs)) else None
  {
    hide StoreOk, FilesRel, MetaOf, Print, Split, CR.CacheOk;
    LoadRel(cs, s, f.files, h, fh, f);
  }

  lemma RemoveHandleEntry(cs: nat, s: Store, handles: map<nat, H.Handle>, fhs: map<nat, FlatHandle>, h: nat)
    requires cs > 0 && HandlesRel(cs, s, handles, fhs)
    ensures HandlesRel(cs, s, handles - {h}, fhs - {h})
  {
  }

  lemma StepRefines(cfg: P.Config, s: State, f: Flat, op: Op)
    requires P.ConfigOk(cfg) && Rel(cfg, s, f) && Admissible(cfg, f, op)
    ensures Refines(cfg, s, f, op)
  {
    hide *;
    if OnProc(cfg, f, op) {
      ProcRefines(cfg, s, f, op);
      return;
    }
    match op
    case Getattr(_) => GetattrRefines(cfg, s, f, op);
    case Evict(_) => GetattrRefines(cfg, s, f, op);
    case Readdir(_) => ReaddirRefines(cfg, s, f, op);
    case Mkdir(_, _, _) => CreateRefines(cfg, s, f, op);
    case Symlink(_, _, _) => CreateRefines(cfg, s, f, op);
    case Create(_, _, _, _) => CreateRefines(cfg, s, f, op);
    case Rmdir(_) => RmdirRefines(cfg, s, f, op);
    case Unlink(_) => UnlinkRefines(cfg, s, f, op);
    case Chmod(_, _) => ChangeRefines(cfg, s, f, op);
    case Chown(_, _, _) => ChangeRefines(cfg, s, f, op);
    case Utimens(_, _) => ChangeRefines(cfg, s, f, op);
    case Truncate(_, _) => TruncateRefines(cfg, s, f, op);
    case Open(_, _) => OpenRefines(cfg, s, f, op);
    case Write(_, _, _) => WriteRefines(cfg, s, f, op);
    case Read(_, _, _) => ReadStepRefines(cfg, s, f, op);
    case Release(_) => ReleaseRefines(cfg, s, f, op);
  }

  // ---- whole runs -------------------------------------------------------------------------

  /** What follows an unspecified reply in a run says nothing about the program; Theorems.RunDefined is about runs without
      any. */
  function Run(cfg: P.Config, s: State, ops: seq<Op>): State
    requires P.ConfigOk(cfg)
    decreases |ops|
  {
    if ops == [] then s else Run(cfg, Step(cfg, s, ops[0]).0, ops[1..])
  }

  function Replies(cfg: P.Config, s: State, ops: seq<Op>): (rs: seq<F.Reply>)
    requires P.ConfigOk(cfg)
    ensures |rs| == |ops|
    decreases |ops|
  {
    if ops == [] then [] else [Step(cfg, s, ops[0]).1] + Replies(cfg, Step(cfg, s, ops[0]).0, ops[1..])
  }

  /** Whole-run refinement: from related states every admissible run ends in related states, and every reply along the
      way is one the flat map allows. */
  lemma {:induction false} RunRefines(cfg: P.Config, s: State, f: Flat, ops: seq<Op>)
    requires P.ConfigOk(cfg) && Rel(cfg, s, f) && AdmissibleAll(cfg, f, ops)
    ensures Rel(cfg, Run(cfg, s, ops), NextAll(cfg, f, ops))
    ensures AllowsAll(cfg, f, ops, Replies(cfg, s, ops))
    decreases |ops|
  {
    hide Rel, Admissible, Allows, Step, Next;
    if ops != [] {
      StepRefines(cfg, s, f, ops[0]);
      assert Rel(cfg, Step(cfg, s, ops[0]).0, Next(cfg, f, ops[0])) && Allows(cfg, f, ops[0], Step(cfg, s, ops[0]).1);
      RunRefines(cfg, Step(cfg, s, ops[0]).0, Next(cfg, f, ops[0]), ops[1..]);
      assert Replies(cfg, s, ops)[1..] == Replies(cfg, Step(cfg, s, ops[0]).0, ops[1..]);
    }
  }

  const EMPTY_STATE := State(F.Sys(EMPTY, map[], []), map[], map[])
  const EMPTY_FLAT := Flat(map[], map[], [], map[])

  lemma EmptyRel(cfg: P.Config)
    requires P.ConfigOk(cfg)
    ensures Rel(cfg, EMPTY_STATE, EMPTY_FLAT)
  {
  }
}
