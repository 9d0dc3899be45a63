/** What the refinement gives a user of the file system: statements about every run. */
module Theorems {
  import opened CTypes
  import opened Chunks
  import opened ContentType
  import opened Decimal
  import opened GridStore
  import opened PathRegex
  import opened FlatSpec
  import opened Refinement
  import CR = ChunkRead
  import F = FuseSpec
  import H = Handles
  import P = Paths
  import PS = ProcServers

  /** createRootDir on an empty store. */
  function RootState(cfg: P.Config, now: int): State
    requires P.ConfigOk(cfg)
  {
    EMPTY_STATE.(sys := F.CreateRootDir(cfg, EMPTY_STATE.sys, now))
  }

  function RootOp(cfg: P.Config, now: int): Op {
    Mkdir(P.ConfigurePath(cfg, ""), F.ROOT_MODE, now)
  }

  function RootFlat(cfg: P.Config, now: int): Flat {
    Next(cfg, EMPTY_FLAT, RootOp(cfg, now))
  }

  lemma RootRel(cfg: P.Config, now: int)
    requires P.ConfigOk(cfg)
    ensures Rel(cfg, RootState(cfg, now), RootFlat(cfg, now))
  {
    hide Next, Rel, F.Mkdir;
    EmptyRel(cfg);
    StepRefines(cfg, EMPTY_STATE, EMPTY_FLAT, RootOp(cfg, now));
  }

  /** Mounting again leaves the store alone exactly when the path prefix has no slash at its end. */
  lemma RemountIffNoSlash(cfg: P.Config, now: int, later: int)
    requires P.ConfigOk(cfg)
    ensures
      var sys := RootState(cfg, now).sys;
      F.CreateRootDir(cfg, sys, later) == sys <==> cfg.pathPrefix == "" || cfg.pathPrefix[|cfg.pathPrefix| - 1] != '/'
  {
    hide Print;
    assert cfg.pathPrefix + "" == cfg.pathPrefix;
    NewestAppend([], RootState(cfg, now).sys.store.docs[0], cfg.pathPrefix);
  }

  // ---- metadata ---------------------------------------------------------------------------

  /** From createRootDir on, every stored version's contentType is the printer's image of four values, so the parser never
      meets a text it has to guess about; it reads all four exactly if they fit an int. */
  lemma MetadataWellFormed(cfg: P.Config, now: int, ops: seq<Op>, d: Doc)
    requires P.ConfigOk(cfg) && AdmissibleAll(cfg, RootFlat(cfg, now), ops)
    requires d in Run(cfg, RootState(cfg, now), ops).sys.store.docs
    ensures Printed(d.contentType)
    ensures
      var m := MetaOf(d.contentType);
      Parse(d.contentType, Defaults(cfg.uid, cfg.gid))
      == if InRange(m) then Parsed(Fields(m.mode, m.uid, m.gid, Some(m.time))) else Undefined
  {
    hide RootState, RootFlat, Run, Printed, Parse, FilesRel, CacheRel, HandlesRel;
    RootRel(cfg, now);
    RunRefines(cfg, RootState(cfg, now), RootFlat(cfg, now), ops);
    assert DocOk(cfg.chunkSize, Run(cfg, RootState(cfg, now), ops).sys.store, d);
    ParsePrinted(d.contentType, cfg.uid, cfg.gid);
  }

  datatype MetaChange = SetMode(mode: nat) | SetOwner(uid: nat, gid: nat) | SetTime(time: int)

  function ApplyToRecord(m: Meta, c: MetaChange): Meta {
    match c
    case SetMode(mode) => m.(mode := mode)
    case SetOwner(uid, gid) => m.(uid := uid, gid := gid)
    case SetTime(time) => m.(time := time)
  }

  function ApplyAllToRecord(m: Meta, cs: seq<MetaChange>): Meta
    decreases |cs|
  {
    if cs == [] then m else ApplyAllToRecord(ApplyToRecord(m, cs[0]), cs[1..])
  }

  function ApplyToSys(cfg: P.Config, sys: F.Sys, p: string, c: MetaChange): F.Sys {
    match c
    case SetMode(mode) => F.Chmod(cfg, sys, p, mode).0
    case SetOwner(uid, gid) => F.Chown(cfg, sys, p, uid, gid).0
    case SetTime(time) => F.Utimens(cfg, sys, p, time).0
  }

  function ApplyAllToSys(cfg: P.Config, sys: F.Sys, p: string, cs: seq<MetaChange>): F.Sys
    decreases |cs|
  {
    if cs == [] then sys else ApplyAllToSys(cfg, ApplyToSys(cfg, sys, p, cs[0]), p, cs[1..])
  }

  predicate ChangeOk(c: MetaChange) {
    match c
    case SetMode(mode) => mode < TWO_31
    case SetOwner(uid, gid) => uid < TWO_31 && gid < TWO_31
    case SetTime(time) => -TWO_31 <= time < TWO_31
  }

  lemma OneChange(cfg: P.Config, sys: F.Sys, p: string, d: Doc, m: Meta, c: MetaChange)
    requires FindFile(sys.store, p) == Some(d) && d.contentType == Print(m) && InRange(m)
    requires ChangeOk(c) && !P.IsProc(cfg, p)
    ensures ApplyToSys(cfg, sys, p, c).store == SetContentType(sys.store, d.id, Print(ApplyToRecord(m, c)))
    ensures InRange(ApplyToRecord(m, c))
  {
    hide Print, Parse, P.IsProc;
    RoundTripIffInRange(m, cfg.uid, cfg.gid);
  }

  /** What the C types allow of a change: chown may pass (uid_t) -1, and times may lie outside int. */
  predicate ChangeTyped(c: MetaChange) {
    match c
    case SetMode(mode) => mode < TWO_32
    case SetOwner(uid, gid) => uid < TWO_32 && gid < TWO_32
    case SetTime(_) => true
  }

  /** After a change getattr answers with the changed attributes exactly when the new values fit an int; otherwise the path
      has no defined attributes any more. */
  lemma ChangeReadableIff(cfg: P.Config, sys: F.Sys, p: string, d: Doc, m: Meta, c: MetaChange)
    requires FindFile(sys.store, p) == Some(d) && d.contentType == Print(m) && InRange(m)
    requires ChangeTyped(c) && !P.IsProc(cfg, p)
    ensures
      var r := F.Getattr(cfg, ApplyToSys(cfg, sys, p, c), p).1;
      var m' := ApplyToRecord(m, c);
      var dir := HasBit(ToUint32(m'.mode), F.S_IFDIR);
      var stat := F.Stat(m'.mode, m'.uid, m'.gid, m'.time, if dir then 2 else 1, if dir then 4096 else d.length);
      && (r == F.Attr(stat) <==> ChangeOk(c))
      && (r == F.Unspecified <==> !ChangeOk(c))
  {
    hide Print, Parse, P.IsProc, HasBit;
    var m' := ApplyToRecord(m, c);
    RoundTripIffInRange(m, cfg.uid, cfg.gid);
    RoundTripIffInRange(m', cfg.uid, cfg.gid);
    NewestPatch(sys.store.docs, d.id, Some(Print(m')), None, p);
  }

  lemma PatchTwice(docs: seq<Doc>, id: nat, t: string, u: string)
    ensures Patch(Patch(docs, id, Some(t), None), id, Some(u), None) == Patch(docs, id, Some(u), None)
  {
  }

  lemma PatchSame(docs: seq<Doc>, d: Doc)
    requires forall e :: e in docs && e.id == d.id ==> e == d
    ensures Patch(docs, d.id, Some(d.contentType), None) == docs
  {
    forall i | 0 <= i < |docs|
      ensures PatchDoc(docs[i], d.id, Some(d.contentType), None) == docs[i]
    {
      assert docs[i] in docs;
    }
  }

  /** Any sequence of chmod, chown and utimens through parse, print and update is the same sequence of plain record
      updates: it rewrites the contentType of the newest version and touches nothing else in the store. */
  lemma {:induction false} MetadataFrame(cfg: P.Config, sys: F.Sys, p: string, d: Doc, m: Meta, cs: seq<MetaChange>)
    requires FindFile(sys.store, p) == Some(d) && d.contentType == Print(m) && InRange(m) && !P.IsProc(cfg, p)
    requires forall e :: e in sys.store.docs && e.id == d.id ==> e == d
    requires forall i :: 0 <= i < |cs| ==> ChangeOk(cs[i])
    ensures ApplyAllToSys(cfg, sys, p, cs).store
         == sys.store.(docs := Patch(sys.store.docs, d.id, Some(Print(ApplyAllToRecord(m, cs))), None))
    decreases |cs|
  {
    hide Print, P.IsProc, ApplyToSys, ChangeOk;
    if cs == [] {
      PatchSame(sys.store.docs, d);
    } else {
      OneChange(cfg, sys, p, d, m, cs[0]);
      var m' := ApplyToRecord(m, cs[0]);
      var sys' := ApplyToSys(cfg, sys, p, cs[0]);
      var d' := d.(contentType := Print(m'));
      NewestPatch(sys.store.docs, d.id, Some(Print(m')), None, p);
      PatchMembers(sys.store.docs, d.id, Some(Print(m')), None);
      MetadataFrame(cfg, sys', p, d', m', cs[1..]);
      PatchTwice(sys.store.docs, d.id, Print(m'), Print(ApplyAllToRecord(m', cs[1..])));
    }
  }

  // ---- the attribute cache, one call at a time --------------------------------------------

  /** Every cached path is live, outside proc, and cached with the attributes of its newest version. */
  ghost predicate Coherent(cfg: P.Config, sys: F.Sys) {
    forall p :: p in sys.cache ==>
      !P.IsProc(cfg, p) && Live(sys.store, p) && F.StatOf(cfg, FindFile(sys.store, p).value) == Some(sys.cache[p])
  }

  lemma CoherentOfRel(cfg: P.Config, s: State, f: Flat)
    requires P.ConfigOk(cfg) && Rel(cfg, s, f)
    ensures Coherent(cfg, s.sys)
  {
    hide StoreOk, FilesRel, HandlesRel, FlatSpec.StatOf, F.StatOf, Parse, Printed;
    forall p | p in s.sys.cache
      ensures !P.IsProc(cfg, p) && Live(s.sys.store, p)
      ensures F.StatOf(cfg, FindFile(s.sys.store, p).value) == Some(s.sys.cache[p])
    {
      LiveBothSides(cfg, s, f, p);
    }
  }

  /** The cache is transparent: in every reachable state, whatever was evicted on the way, it is coherent and getattr
      answers as it would with an empty cache. */
  lemma CacheTransparent(cfg: P.Config, now: int, ops: seq<Op>, p: string)
    requires P.ConfigOk(cfg) && AdmissibleAll(cfg, RootFlat(cfg, now), ops)
    ensures
      var sys := Run(cfg, RootState(cfg, now), ops).sys;
      Coherent(cfg, sys) && F.Getattr(cfg, sys, p).1 == F.Getattr(cfg, sys.(cache := map[]), p).1
  {
    hide RootState, RootFlat, Run, Rel, F.StatOf;
    RootRel(cfg, now);
    RunRefines(cfg, RootState(cfg, now), RootFlat(cfg, now), ops);
    CoherentOfRel(cfg, Run(cfg, RootState(cfg, now), ops), NextAll(cfg, RootFlat(cfg, now), ops));
  }

  /** mkdir neither looks whether its path exists nor drops cached attributes: it keeps a coherent cache coherent exactly
      when the path is not cached, or happens to be cached with the new directory's attributes. */
  lemma MkdirCoherentIff(cfg: P.Config, sys: F.Sys, p: string, mode: nat, now: int)
    requires P.ConfigOk(cfg) && Coherent(cfg, sys)
    requires InRange(Meta(OrBit(mode, F.S_IFDIR), cfg.uid, cfg.gid, now))
    ensures Coherent(cfg, F.Mkdir(cfg, sys, p, mode, now)) <==>
            (p in sys.cache ==> sys.cache[p] == F.Stat(OrBit(mode, F.S_IFDIR), cfg.uid, cfg.gid, now, 2, 4096))
  {
    hide Print, Parse, P.IsProc, Newest;
    var m := Meta(OrBit(mode, F.S_IFDIR), cfg.uid, cfg.gid, now);
    var sys' := F.Mkdir(cfg, sys, p, mode, now);
    var d := Doc(sys.store.nextId, p, Print(m), 0, cfg.chunkSize);
    RoundTripIffInRange(m, cfg.uid, cfg.gid);
    OrBitSets(mode);
    assert |""| == 0;
    assert F.StatOf(cfg, d) == Some(F.Stat(m.mode, m.uid, m.gid, now, 2, 4096));
    forall q
      ensures FindFile(sys'.store, q) == if q == p then Some(d) else FindFile(sys.store, q)
    {
      NewestAppend(sys.store.docs, d, q);
    }
    if p in sys.cache && F.StatOf(cfg, d) == Some(sys.cache[p]) {
      assert Coherent(cfg, sys');
    }
  }

  lemma OrBitSets(mode: nat)
    ensures HasBit(OrBit(mode, F.S_IFDIR), F.S_IFDIR)
    ensures OrBit(mode, F.S_IFDIR) < TWO_32 ==> ToUint32(OrBit(mode, F.S_IFDIR)) == OrBit(mode, F.S_IFDIR)
  {
  }

  // ---- open files over whole runs ---------------------------------------------------------

  lemma HandleOfRel(cfg: P.Config, s: State, f: Flat, h: nat)
    requires P.ConfigOk(cfg) && Rel(cfg, s, f) && h in f.handles
    ensures h !in f.procs && !P.IsProc(cfg, f.handles[h].path)
  {
    hide StoreOk, FilesRel, CacheRel, HandlesRel, P.IsProc;
  }

  predicate Removes(op: Op, p: string) {
    (op.Unlink? || op.Rmdir?) && op.path == p
  }

  /** What a later run can do to an open file: its path and snapshot stay, and only a removal of its path revokes it. */
  lemma {:induction false} HandleKept(cfg: P.Config, f: Flat, ops: seq<Op>, h: nat)
    requires AdmissibleAll(cfg, f, ops) && h in f.handles && h !in f.procs
    requires forall i :: 0 <= i < |ops| ==> ops[i] != Release(h)
    ensures
      var f' := NextAll(cfg, f, ops);
      && h in f'.handles && h !in f'.procs
      && f'.handles[h].path == f.handles[h].path
      && (f.handles[h].snap.Snap? ==> f'.handles[h].snap == f.handles[h].snap)
      && (f.handles[h].snap.Snap? && f'.handles[h].revoked ==>
            f.handles[h].revoked || exists i :: 0 <= i < |ops| && Removes(ops[i], f.handles[h].path))
    decreases |ops|
  {
    hide HasChild, IsChild, P.IsProc, HasRepeat, AddServer, InRange, PS.Classify, ReadablePort;
    if ops != [] {
      var f1 := Next(cfg, f, ops[0]);
      assert h in f1.handles && f1.handles[h].path == f.handles[h].path;
      assert f.handles[h].snap.Snap? ==> f1.handles[h].snap == f.handles[h].snap;
      assert f.handles[h].snap.Snap? && f1.handles[h].revoked ==> f.handles[h].revoked || Removes(ops[0], f.handles[h].path);
      HandleKept(cfg, f1, ops[1..], h);
    }
  }

  lemma {:induction false} RunAppend(cfg: P.Config, s: State, f: Flat, ops: seq<Op>, op: Op)
    requires P.ConfigOk(cfg) && AdmissibleAll(cfg, f, ops + [op])
    ensures AdmissibleAll(cfg, f, ops) && Admissible(cfg, NextAll(cfg, f, ops), op)
    ensures Run(cfg, s, ops + [op]) == Step(cfg, Run(cfg, s, ops), op).0
    ensures NextAll(cfg, f, ops + [op]) == Next(cfg, NextAll(cfg, f, ops), op)
    decreases |ops|
  {
    hide Step, Next, Admissible;
    if ops == [] {
      assert (ops + [op])[0] == op && (ops + [op])[1..] == [];
    } else {
      assert (ops + [op])[0] == ops[0] && (ops + [op])[1..] == ops[1..] + [op];
      RunAppend(cfg, Step(cfg, s, ops[0]).0, Next(cfg, f, ops[0]), ops[1..], op);
    }
  }

  /** Snapshot isolation: an open file that has loaded a version returns slices of that version's bytes for as long as it
      is open, whatever else happens; only after a removal of its path may a read fail instead. */
  lemma SnapshotIsolation(cfg: P.Config, s: State, f: Flat, ops: seq<Op>, h: nat, offset: int, size: nat)
    requires P.ConfigOk(cfg) && Rel(cfg, s, f)
    requires h in f.handles && f.handles[h].snap.Snap? && !f.handles[h].revoked
    requires forall i :: 0 <= i < |ops| ==> ops[i] != Release(h)
    requires AdmissibleAll(cfg, f, ops + [Read(h, offset, size)])
    requires CR.Addressable(|f.handles[h].snap.file.bytes|, cfg.chunkSize, offset, size)
    ensures
      var r := Step(cfg, Run(cfg, s, ops), Read(h, offset, size)).1;
      || r == F.Data(Slice(f.handles[h].snap.file.bytes, offset, size))
      || (r == F.Err(F.EIO) && exists i :: 0 <= i < |ops| && Removes(ops[i], f.handles[h].path))
  {
    hide Rel, Step, Run, NextAll, CR.Addressable, AdmissibleAll, Next;
    var op := Read(h, offset, size);
    RunAppend(cfg, s, f, ops, op);
    RunRefines(cfg, s, f, ops);
    HandleOfRel(cfg, s, f, h);
    HandleKept(cfg, f, ops, h);
    StepRefines(cfg, Run(cfg, s, ops), NextAll(cfg, f, ops), op);
  }

  /** What the writes on one open file add up to: those accepted, in order. */
  function AcceptedBy(h: nat, ops: seq<Op>, before: string): string
    decreases |ops|
  {
    if ops == [] then before else
    AcceptedBy(h, ops[1..],
               if ops[0].Write? && ops[0].h == h && SizeT(ops[0].offset) == |before| then before + ops[0].data else before)
  }

  predicate AcceptsSome(h: nat, ops: seq<Op>, before: string)
    decreases |ops|
  {
    && ops != []
    && var hit := ops[0].Write? && ops[0].h == h && SizeT(ops[0].offset) == |before|;
       hit || AcceptsSome(h, ops[1..], before)
  }

  /** Two writers never mix: a buffer depends on the writes to its own open file only. */
  lemma {:induction false} BufferIsOwnWrites(cfg: P.Config, f: Flat, ops: seq<Op>, h: nat)
    requires AdmissibleAll(cfg, f, ops) && h in f.handles && h !in f.procs
    requires forall i :: 0 <= i < |ops| ==> ops[i] != Release(h)
    ensures
      var f' := NextAll(cfg, f, ops);
      && h in f'.handles && h !in f'.procs
      && f'.handles[h].buf == AcceptedBy(h, ops, f.handles[h].buf)
      && (f'.handles[h].dirty <==> f.handles[h].dirty || AcceptsSome(h, ops, f.handles[h].buf))
    decreases |ops|
  {
    hide HasChild, IsChild, P.IsProc, HasRepeat, AddServer, InRange, PS.Classify, ReadablePort;
    if ops != [] {
      var f1 := Next(cfg, f, ops[0]);
      var before := f.handles[h].buf;
      var hit := ops[0].Write? && ops[0].h == h && SizeT(ops[0].offset) == |before|;
      assert h in f1.handles;
      assert f1.handles[h].buf == if hit then before + ops[0].data else before;
      assert f1.handles[h].dirty <==> f.handles[h].dirty || hit;
      BufferIsOwnWrites(cfg, f1, ops[1..], h);
    }
  }

  /** End to end: whatever is interleaved, once an open file with accepted writes is released, opening its path again and
      reading anywhere returns the slice of exactly those writes. The last release wins, with its own snapshot's metadata. */
  lemma EndToEnd(cfg: P.Config, s: State, f: Flat, ops: seq<Op>, h: nat, h2: nat, offset: int, size: nat)
    requires P.ConfigOk(cfg) && Rel(cfg, s, f)
    requires h in f.handles && f.handles[h].buf == "" && !f.handles[h].dirty
    requires forall i :: 0 <= i < |ops| ==> ops[i] != Release(h)
    requires AcceptsSome(h, ops, "")
    requires
      var p := f.handles[h].path;
      AdmissibleAll(cfg, f, ops + [Release(h)] + [Open(p, h2)] + [Read(h2, offset, size)])
    requires
      var f1 := NextAll(cfg, f, ops);
      h in f1.handles && Look(f1, f1.handles[h].snap, f.handles[h].path).Snap?
    requires CR.Addressable(|AcceptedBy(h, ops, "")|, cfg.chunkSize, offset, size)
    ensures
      var p := f.handles[h].path;
      var f1 := NextAll(cfg, f, ops);
      var files := NextAll(cfg, f, ops + [Release(h)]).files;
      p in files && files[p] == FlatFile(Look(f1, f1.handles[h].snap, p).file.meta, AcceptedBy(h, ops, ""))
    ensures
      var p := f.handles[h].path;
      var s' := Run(cfg, s, ops + [Release(h)] + [Open(p, h2)]);
      Step(cfg, s', Read(h2, offset, size)).1 == F.Data(Slice(AcceptedBy(h, ops, ""), offset, size))
  {
    hide Rel, Step, Run, Next, NextAll, Allows, CR.Addressable, AdmissibleAll, Admissible, P.IsProc;
    var p := f.handles[h].path;
    var ops1, ops2 := ops + [Release(h)], ops + [Release(h)] + [Open(p, h2)];
    RunAppend(cfg, s, f, ops2, Read(h2, offset, size));
    RunAppend(cfg, s, f, ops1, Open(p, h2));
    RunAppend(cfg, s, f, ops, Release(h));
    HandleOfRel(cfg, s, f, h);
    BufferIsOwnWrites(cfg, f, ops, h);
    HandleKept(cfg, f, ops, h);
    RunRefines(cfg, s, f, ops2);
    StepRefines(cfg, Run(cfg, s, ops2), NextAll(cfg, f, ops2), Read(h2, offset, size));
    ReleaseThenOpen(cfg, NextAll(cfg, f, ops), h, h2, offset, size, Step(cfg, Run(cfg, s, ops2), Read(h2, offset, size)).1);
  }

  lemma ReleaseThenOpen(cfg: P.Config, f: Flat, h: nat, h2: nat, offset: int, size: nat, r: F.Reply)
    requires P.ConfigOk(cfg) && h in f.handles && h !in f.procs && f.handles[h].dirty
    requires Look(f, f.handles[h].snap, f.handles[h].path).Snap? && !P.IsProc(cfg, f.handles[h].path)
    requires
      var f1 := Next(cfg, f, Release(h));
      var f2 := Next(cfg, f1, Open(f.handles[h].path, h2));
      Admissible(cfg, f1, Open(f.handles[h].path, h2)) && Allows(cfg, f2, Read(h2, offset, size), r)
    ensures
      var p, fh := f.handles[h].path, f.handles[h];
      var f1 := Next(cfg, f, Release(h));
      && p in f1.files && f1.files[p] == FlatFile(Look(f, fh.snap, p).file.meta, fh.buf)
      && (CR.Addressable(|fh.buf|, cfg.chunkSize, offset, size) ==> r == F.Data(Slice(fh.buf, offset, size)))
  {
    hide P.IsProc, HasChild, IsChild, AddServer, AddReply, CR.Addressable, Slice;
  }

  /** From a fresh mount: create a file, write it in two calls, release it, open it again and read anywhere. */
  lemma WriteThenRead(cfg: P.Config, now: int, p: string, mode: nat, a: string, b: string, offset: int, size: nat)
    requires P.ConfigOk(cfg) && mode < TWO_31 && !P.IsProc(cfg, p) && p != P.ConfigurePath(cfg, "")
    requires |a| + |b| <= TWO_31 && size < TWO_63 && -TWO_63 <= offset < TWO_63
    ensures
      var s := Step(cfg, RootState(cfg, now), Create(p, mode, now, 0)).0;
      var s' := Run(cfg, s, [Write(0, a, 0), Write(0, b, |a|)] + [Release(0)] + [Open(p, 1)]);
      Step(cfg, s', Read(1, offset, size)).1 == F.Data(Slice(a + b, offset, size))
  {
    hide Rel, Step, Run, P.IsProc, CR.Addressable, RootState, RootFlat, Next, AdmissibleAll, NextAll, P.ConfigurePath;
    var f0 := RootFlat(cfg, now);
    var create := Create(p, mode, now, 0);
    var f := Next(cfg, f0, create);
    RootRel(cfg, now);
    CreateFirst(cfg, now, p, mode, now);
    StepRefines(cfg, RootState(cfg, now), f0, create);
    var w1, w2 := Write(0, a, 0), Write(0, b, |a|);
    TwoCalls(cfg, f, w1, w2, p, offset, size);
    CR.SmallFilesAddressable(|a + b|, cfg.chunkSize, offset, size);
    AcceptedTwo(a, b);
    EndToEnd(cfg, Step(cfg, RootState(cfg, now), create).0, f, [w1, w2], 0, 1, offset, size);
  }

  lemma CreateFirst(cfg: P.Config, now: int, p: string, mode: nat, later: int)
    requires P.ConfigOk(cfg) && mode < TWO_32 && !P.IsProc(cfg, p) && p != P.ConfigurePath(cfg, "")
    ensures Admissible(cfg, RootFlat(cfg, now), Create(p, mode, later, 0))
    ensures
      var f := Next(cfg, RootFlat(cfg, now), Create(p, mode, later, 0));
      && p in f.files && f.files[p] == FlatFile(Meta(OrBit(mode, F.S_IFREG), cfg.uid, cfg.gid, later), "")
      && f.handles == map[0 := FlatHandle(p, Unread, "", false, false)] && f.procs == map[]
  {
    hide P.IsProc, P.ConfigurePath, HasChild, HasRepeat, AddServer, PS.Classify, ReadablePort, InRange;
  }

  lemma AcceptedTwo(a: string, b: string)
    requires |a| < TWO_63
    ensures
      var ops := [Write(0, a, 0), Write(0, b, |a|)];
      AcceptedBy(0, ops, "") == a + b && AcceptsSome(0, ops, "")
  {
    var w1, w2 := Write(0, a, 0), Write(0, b, |a|);
    assert [w1, w2][1..] == [w2] && [w2][1..] == [];
    assert "" + a == a;
    assert AcceptedBy(0, [w2], a) == a + b;
  }

  /** Two writes on file 0, its release, and a look at the result are admissible when each is in its turn. */
  lemma TwoCalls(cfg: P.Config, f: Flat, w1: Op, w2: Op, p: string, offset: int, size: nat)
    requires w1.Write? && w2.Write? && w1.h == 0 && w2.h == 0 && SizeT(w1.offset) == 0 && SizeT(w2.offset) == |w1.data|
    requires f.handles == map[0 := FlatHandle(p, Unread, "", false, false)] && f.procs == map[]
    requires p in f.files && !P.IsProc(cfg, p)
    requires |w1.data| + |w2.data| < TWO_63 && size < TWO_63 && -TWO_63 <= offset < TWO_63
    ensures AdmissibleAll(cfg, f, [w1, w2] + [Release(0)] + [Open(p, 1)] + [Read(1, offset, size)])
    ensures
      var f2 := NextAll(cfg, f, [w1, w2]);
      0 in f2.handles && Look(f2, f2.handles[0].snap, p).Snap?
  {
    hide P.IsProc, HasChild, HasRepeat, AdmissibleAll, NextAll;
    var f1 := Next(cfg, f, w1);
    assert "" + w1.data == w1.data;
    var f2 := Next(cfg, f1, w2);
    var f3 := Next(cfg, f2, Release(0));
    InTurn(cfg, f, w1, w2, Release(0), Open(p, 1), Read(1, offset, size));
    assert [w1, w2] + [Release(0)] + [Open(p, 1)] + [Read(1, offset, size)]
        == [w1, w2, Release(0), Open(p, 1), Read(1, offset, size)];
  }

  lemma InTurn(cfg: P.Config, f: Flat, a: Op, b: Op, c: Op, d: Op, e: Op)
    requires
      var f1 := Next(cfg, f, a);
      var f2 := Next(cfg, f1, b);
      var f3 := Next(cfg, f2, c);
      && Admissible(cfg, f, a) && Admissible(cfg, f1, b) && Admissible(cfg, f2, c) && Admissible(cfg, f3, d)
      && Admissible(cfg, Next(cfg, f3, d), e)
    ensures AdmissibleAll(cfg, f, [a, b, c, d, e])
    ensures NextAll(cfg, f, [a, b]) == Next(cfg, Next(cfg, f, a), b)
    ensures NextAll(cfg, f, [a, b, c, d, e]) == Next(cfg, Next(cfg, Next(cfg, Next(cfg, Next(cfg, f, a), b), c), d), e)
  {
    hide Admissible, Next, AdmissibleAll, NextAll;
    var f1 := Next(cfg, f, a);
    var f2 := Next(cfg, f1, b);
    var f3 := Next(cfg, f2, c);
    var f4 := Next(cfg, f3, d);
    assert [a] + [b, c, d, e] == [a, b, c, d, e] && [b] + [c, d, e] == [b, c, d, e] && [c] + [d, e] == [c, d, e];
    assert [d] + [e] == [d, e] && [e] + [] == [e] && [a] + [b] == [a, b] && [b] + [] == [b];
    OneMore(cfg, f4, e, []);
    OneMore(cfg, f3, d, [e]);
    OneMore(cfg, f2, c, [d, e]);
    OneMore(cfg, f1, b, [c, d, e]);
    OneMore(cfg, f, a, [b, c, d, e]);
    OneMore(cfg, f1, b, []);
    OneMore(cfg, f, a, [b]);
  }

  lemma OneMore(cfg: P.Config, f: Flat, op: Op, rest: seq<Op>)
    ensures AdmissibleAll(cfg, f, [op] + rest) <==>
            Admissible(cfg, f, op) && (rest == [] || AdmissibleAll(cfg, Next(cfg, f, op), rest))
    ensures NextAll(cfg, f, [op] + rest) == if rest == [] then Next(cfg, f, op) else NextAll(cfg, Next(cfg, f, op), rest)
  {
    hide Admissible, Next;
    assert ([op] + rest)[1..] == rest;
  }

  // ---- replies are defined ----------------------------------------------------------------

  /** A read asks for nothing at or beyond 2^31 of what its open file shows. */
  predicate TameRead(cfg: P.Config, f: Flat, op: Op)
    requires P.ConfigOk(cfg)
  {
    op.Read? && op.h in f.handles && op.h !in f.procs ==>
      var fh := f.handles[op.h];
      match Look(f, fh.snap, fh.path)
      case Snap(file) => CR.Addressable(|file.bytes|, cfg.chunkSize, op.offset, op.size)
      case _ => true
  }

  predicate TameAll(cfg: P.Config, f: Flat, ops: seq<Op>)
    requires P.ConfigOk(cfg)
    decreases |ops|
  {
    ops == [] || (TameRead(cfg, f, ops[0]) && TameAll(cfg, Next(cfg, f, ops[0]), ops[1..]))
  }

  lemma AllowedIsDefined(cfg: P.Config, f: Flat, op: Op, r: F.Reply)
    requires P.ConfigOk(cfg) && Admissible(cfg, f, op) && TameRead(cfg, f, op) && Allows(cfg, f, op, r)
    ensures !r.Unspecified?
  {
    hide P.IsProc, HasChild, IsChild, InRange, CR.Addressable, PS.Add, FlatSpec.StatOf, Slice;
  }

  lemma {:induction false} AllAllowedDefined(cfg: P.Config, f: Flat, ops: seq<Op>, rs: seq<F.Reply>, i: nat)
    requires P.ConfigOk(cfg) && AdmissibleAll(cfg, f, ops) && TameAll(cfg, f, ops) && AllowsAll(cfg, f, ops, rs) && i < |rs|
    ensures !rs[i].Unspecified?
    decreases |ops|
  {
    hide Admissible, TameRead, Allows, Next;
    if i == 0 {
      AllowedIsDefined(cfg, f, ops[0], rs[0]);
    } else {
      AllAllowedDefined(cfg, Next(cfg, f, ops[0]), ops[1..], rs[1..], i - 1);
    }
  }

  /** A run in which no read reaches 2^31 never comes to an assert, an out-of-bounds copy or a value C++ leaves open. */
  lemma RunDefined(cfg: P.Config, now: int, ops: seq<Op>, i: nat)
    requires P.ConfigOk(cfg) && AdmissibleAll(cfg, RootFlat(cfg, now), ops) && TameAll(cfg, RootFlat(cfg, now), ops)
    requires i < |ops|
    ensures !Replies(cfg, RootState(cfg, now), ops)[i].Unspecified?
  {
    hide RootState, RootFlat, Rel, AdmissibleAll, TameAll, AllowsAll, Replies;
    RootRel(cfg, now);
    RunRefines(cfg, RootState(cfg, now), RootFlat(cfg, now), ops);
    AllAllowedDefined(cfg, RootFlat(cfg, now), ops, Replies(cfg, RootState(cfg, now), ops), i);
  }

  // ---- the servers below proc -------------------------------------------------------------

  lemma AddServerKeepsPlain(cfg: P.Config, f: Flat, path: string, opener: Option<nat>)
    requires P.ConfigOk(cfg) && PS.AllPlain(f.servers)
    ensures PS.AllPlain(AddServer(cfg, f, path, opener).servers)
  {
    hide PS.ParseServer, PS.Stored, PS.Plain;
    var text := ServerText(cfg, path);
    if text.Some? && PS.ParseServer(text.value).Parsed? {
      PS.StoredIffPlain(cfg.library, PS.ParseServer(text.value).server);
    }
  }

  lemma {:induction false} ServersStayPlain(cfg: P.Config, f: Flat, ops: seq<Op>)
    requires P.ConfigOk(cfg) && PS.AllPlain(f.servers)
    ensures PS.AllPlain(NextAll(cfg, f, ops).servers)
    decreases |ops|
  {
    hide PS.AllPlain, AddServer, HasChild, P.IsProc;
    if ops != [] {
      var op := ops[0];
      if op.Create? {
        AddServerKeepsPlain(cfg, f, op.path, None);
      } else if op.Open? {
        AddServerKeepsPlain(cfg, f, op.path, Some(op.h));
      }
      ServersStayPlain(cfg, Next(cfg, f, op), ops[1..]);
    }
  }

  /** In every reachable state, opening any name that the listing of the instances shows is refused and changes nothing. */
  lemma ListedServerRefused(cfg: P.Config, now: int, ops: seq<Op>, name: string, h: nat)
    requires P.ConfigOk(cfg) && AdmissibleAll(cfg, RootFlat(cfg, now), ops)
    requires name in PS.Names(Run(cfg, RootState(cfg, now), ops).sys.servers)
    ensures
      var s := Run(cfg, RootState(cfg, now), ops);
      Step(cfg, s, Open(cfg.pathPrefix + "/proc/instances/" + name, h)) == (s, F.Err(F.ENAMETOOLONG))
  {
    hide RootState, RootFlat, Run, NextAll, AdmissibleAll, StoreOk, FilesRel, CacheRel, HandlesRel, P.IsProc, PS.Add,
         PS.PrintServer, PS.AllPlain, PS.InstancesPrefix;
    var s, f := Run(cfg, RootState(cfg, now), ops), NextAll(cfg, RootFlat(cfg, now), ops);
    var path := PS.InstancesPrefix(cfg) + name;
    Kinds(cfg, "");
    RootRel(cfg, now);
    RunRefines(cfg, RootState(cfg, now), RootFlat(cfg, now), ops);
    assert RootFlat(cfg, now).servers == [] by { NoServersYet(cfg, now); }
    assert PS.AllPlain([]) by { NothingPlain(); }
    ServersStayPlain(cfg, RootFlat(cfg, now), ops);
    var k :| 0 <= k < |f.servers| && PS.Names(f.servers)[k] == name;
    PS.ListedNameRefused(cfg.library, f.servers, f.servers[k]);
    InstancesAreProc(cfg, name);
    assert path[|PS.InstancesPrefix(cfg)|..] == name;
  }

  /** Opening a bare host below the instances, in any state: refused if it is listed on port 11211, and appended with that
      port otherwise. */
  lemma OpenBareHost(cfg: P.Config, s: State, text: string, h: nat)
    requires P.ConfigOk(cfg) && ':' !in text && text != ""
    ensures
      var path := cfg.pathPrefix + "/proc/instances/" + text;
      Step(cfg, s, Open(path, h))
      == if PS.Server(text, 11211) in s.sys.servers then (s, F.Err(F.ENAMETOOLONG))
         else (s.(sys := s.sys.(servers := s.sys.servers + [PS.Server(text, 11211)]), procs := s.procs[h := path]), F.Success)
  {
    hide P.IsProc, PS.Add, PS.InstancesPrefix;
    Kinds(cfg, "");
    InstancesAreProc(cfg, text);
    assert (PS.InstancesPrefix(cfg) + text)[|PS.InstancesPrefix(cfg)|..] == text;
    PS.BareHostAdds(cfg.library, s.sys.servers, text);
  }

  /** And a host with a port in 1..65535, whatever the host contains. */
  lemma OpenHostAndPort(cfg: P.Config, s: State, host: string, port: nat, h: nat)
    requires P.ConfigOk(cfg) && host != "" && 1 <= port <= 65535
    ensures
      var path := cfg.pathPrefix + "/proc/instances/" + (host + ":" + PrintNat(port));
      Step(cfg, s, Open(path, h))
      == if PS.Server(host, port) in s.sys.servers then (s, F.Err(F.ENAMETOOLONG))
         else (s.(sys := s.sys.(servers := s.sys.servers + [PS.Server(host, port)]), procs := s.procs[h := path]), F.Success)
  {
    hide P.IsProc, PS.Add, PS.InstancesPrefix, PrintNat;
    var text := host + ":" + PrintNat(port);
    Kinds(cfg, "");
    InstancesAreProc(cfg, text);
    assert (PS.InstancesPrefix(cfg) + text)[|PS.InstancesPrefix(cfg)|..] == text;
    PS.HostAndPortAdds(cfg.library, s.sys.servers, host, port);
  }

  lemma InstancesAreProc(cfg: P.Config, name: string)
    ensures P.IsProc(cfg, PS.InstancesPrefix(cfg) + name)
  {
    P.IsProcMeansBelow(cfg, PS.InstancesPrefix(cfg) + name);
    assert PS.InstancesPrefix(cfg) + name == P.ProcPrefix(cfg) + "/" + ("instances/" + name);
  }

  lemma NoServersYet(cfg: P.Config, now: int)
    ensures RootFlat(cfg, now).servers == [] && RootFlat(cfg, now).handles == map[] && RootFlat(cfg, now).procs == map[]
  {
  }

  lemma NothingPlain()
    ensures PS.AllPlain([])
  {
  }

  // ---- what create hands to the kernel ----------------------------------------------------

  /** A read, a write or the release of an open file, with arguments the C types hold. */
  predicate CallOn(op: Op, h: nat) {
    match op
    case Write(k, data, _) => k == h && |data| < TWO_63
    case Read(k, offset, size) => k == h && size < TWO_63 && -TWO_63 <= offset < TWO_63
    case Release(k) => k == h
    case _ => false
  }

  /** After a successful create every call on what it hands to the kernel is defined if and only if the path lies outside
      proc: on proc paths the handle stays 0. */
  lemma CreateUsableIff(cfg: P.Config, s: State, f: Flat, p: string, mode: nat, now: int, h: nat, call: Op)
    requires P.ConfigOk(cfg) && Rel(cfg, s, f) && Admissible(cfg, f, Create(p, mode, now, h)) && CallOn(call, h)
    requires Step(cfg, s, Create(p, mode, now, h)).1.Success?
    ensures
      var s' := Step(cfg, s, Create(p, mode, now, h)).0;
      !Step(cfg, s', call).1.Unspecified? <==> !P.IsProc(cfg, p)
  {
    hide Rel, Step, Allows, Next, Admissible, TameRead, P.IsProc, CallOn;
    var create := Create(p, mode, now, h);
    var s', f' := Step(cfg, s, create).0, Next(cfg, f, create);
    StepRefines(cfg, s, f, create);
    if P.IsProc(cfg, p) {
      NothingBehind(cfg, s, f, p, mode, now, h, call);
    } else {
      FreshUsable(cfg, s, f, p, mode, now, h, call);
      StepRefines(cfg, s', f', call);
      AllowedIsDefined(cfg, f', call, Step(cfg, s', call).1);
    }
  }

  lemma NothingBehind(cfg: P.Config, s: State, f: Flat, p: string, mode: nat, now: int, h: nat, call: Op)
    requires P.ConfigOk(cfg) && Rel(cfg, s, f) && Admissible(cfg, f, Create(p, mode, now, h)) && CallOn(call, h)
    requires P.IsProc(cfg, p)
    ensures Step(cfg, Step(cfg, s, Create(p, mode, now, h)).0, call).1.Unspecified?
  {
    hide StoreOk, FilesRel, CacheRel, P.IsProc, F.CreateProc, FilePaths;
  }

  lemma FreshUsable(cfg: P.Config, s: State, f: Flat, p: string, mode: nat, now: int, h: nat, call: Op)
    requires P.ConfigOk(cfg) && Rel(cfg, s, f) && Admissible(cfg, f, Create(p, mode, now, h)) && CallOn(call, h)
    requires Step(cfg, s, Create(p, mode, now, h)).1.Success? && !P.IsProc(cfg, p)
    ensures
      var f' := Next(cfg, f, Create(p, mode, now, h));
      Admissible(cfg, f', call) && TameRead(cfg, f', call)
  {
    hide StoreOk, FilesRel, CacheRel, HandlesRel, P.IsProc, FilePaths, Live, HasRepeat;
    LiveBothSides(cfg, s, f, p);
  }

  /** A run the code does not survive: create below the instances, then the release that the kernel always sends. */
  lemma CreatedServerCrashes(cfg: P.Config, now: int, mode: nat, later: int)
    requires P.ConfigOk(cfg) && mode < TWO_32
    ensures
      var ops := [Create(cfg.pathPrefix + "/proc/instances/" + "h", mode, later, 0), Release(0)];
      Replies(cfg, RootState(cfg, now), ops) == [F.Success, F.Unspecified]
  {
    hide RootState, RootFlat, Next, PS.InstancesPrefix, P.IsProc, PS.Stored;
    Kinds(cfg, "");
    var path := PS.InstancesPrefix(cfg) + "h";
    var s, f, create := RootState(cfg, now), RootFlat(cfg, now), Create(path, mode, later, 0);
    RootRel(cfg, now);
    NoServersYet(cfg, now);
    InstancesAreProc(cfg, "h");
    assert path[|PS.InstancesPrefix(cfg)|..] == "h";
    assert PS.ParseServer("h") == PS.Parsed(PS.Server("h", PS.DEFAULT_PORT)) by { PlainName(); }
    NothingBehind(cfg, s, f, path, mode, later, 0, Release(0));
    TwoReplies(cfg, s, create, Release(0));
  }

  lemma PlainName()
    ensures PS.ParseServer("h") == PS.Parsed(PS.Server("h", PS.DEFAULT_PORT))
  {
  }

  lemma TwoReplies(cfg: P.Config, s: State, a: Op, b: Op)
    requires P.ConfigOk(cfg)
    ensures Replies(cfg, s, [a, b]) == [Step(cfg, s, a).1, Step(cfg, Step(cfg, s, a).0, b).1]
  {
    hide Step;
    assert [a, b][1..] == [b] && [b][1..] == [];
    assert Replies(cfg, Step(cfg, s, a).0, [b]) == [Step(cfg, Step(cfg, s, a).0, b).1];
  }

  // ---- what publishing leaves behind ------------------------------------------------------

  /** Reads on the object that published the buffer are right for it. */
  ghost predicate ReadsBack(h: H.Handle, s: Store, missingThrows: bool, bytes: string) {
    forall offset: int, size: nat :: -TWO_63 <= offset < TWO_63 && size < TWO_63 ==>
      H.ReadHandle(h, s, missingThrows, offset, size).1 == CR.Done(Slice(bytes, offset, size))
  }

  /** After store, reads on the same object, which asks its snapshot for the length again, give the published bytes if and
      only if the snapshot had the same bytes. */
  lemma SameObjectReadsIff(cs: nat, s: Store, f: Flat, h: H.Handle, fh: FlatHandle, missingThrows: bool)
    requires 0 < cs < TWO_31 && StoreOk(cs, s) && FilesRel(s, f.files) && HandleRel(cs, s, h, fh)
    requires fh.dirty && fh.snap.Snap? && !fh.revoked
    requires |fh.buf| <= TWO_31 && |fh.snap.file.bytes| <= TWO_31
    ensures
      var (h', s') := H.Publish(h, s, cs);
      s'.Some? && (ReadsBack(h', s'.value, missingThrows, fh.buf) <==> fh.snap.file.bytes == fh.buf)
  {
    hide StoreOk, FilesRel, HandleRel, H.ReadHandle, Slice, StoreFile;
    var (h', s') := H.Publish(h, s, cs);
    var bytes := fh.snap.file.bytes;
    var fh' := fh.(buf := "", dirty := false);
    var d := PublishedRel(cs, s, f, h, fh);
    forall offset: int, size: nat | -TWO_63 <= offset < TWO_63 && size < TWO_63
      ensures H.ReadHandle(h', s'.value, missingThrows, offset, size).1 == CR.Done(Slice(bytes, offset, size))
    {
      CR.SmallFilesAddressable(|bytes|, cs, offset, size);
      ReadDetermined(cs, s'.value, h', fh', d, missingThrows, offset, size);
    }
    if ReadsBack(h', s'.value, missingThrows, fh.buf) {
      var n := if |bytes| >= |fh.buf| then |bytes| else |fh.buf|;
      WholeSlice(bytes, n);
      WholeSlice(fh.buf, n);
      assert H.ReadHandle(h', s'.value, missingThrows, 0, n).1 == CR.Done(Slice(fh.buf, 0, n));
    }
  }

  lemma WholeSlice(bytes: string, n: nat)
    requires |bytes| <= n
    ensures Slice(bytes, 0, n) == bytes
  {
  }

  /** The object after publishing: an empty buffer over the same snapshot. */
  lemma PublishedRel(cs: nat, s: Store, f: Flat, h: H.Handle, fh: FlatHandle) returns (d: Doc)
    requires 0 < cs < TWO_31 && StoreOk(cs, s) && FilesRel(s, f.files) && HandleRel(cs, s, h, fh)
    requires fh.dirty && fh.snap.Snap? && !fh.revoked
    ensures
      var (h', s') := H.Publish(h, s, cs);
      && s'.Some? && h'.snap == H.Loaded(Some(d)) && d.id in s'.value.chunks
      && HandleRel(cs, s'.value, h', fh.(buf := "", dirty := false))
  {
    hide StoreOk, FilesRel, Split, Concat, Printed, MetaOf, CR.CacheOk, Print, NumChunks;
    d := h.snap.doc.value;
    var s' := StoreFile(s, fh.buf, fh.path, d.contentType, cs);
    Published(cs, s, f, h, fh);
    StoreKeepsHandles(cs, s, fh.buf, fh.path, d.contentType, map[0 := h], map[0 := fh]);
    assert HandleRel(cs, s', map[0 := h][0], map[0 := fh][0]);
    assert H.Publish(h, s, cs).1 == Some(s');
  }

  /** release leaves the metadata of a live path as it was if and only if nothing was written, or the open file's snapshot has
      the path's current metadata. */
  lemma ReleaseKeepsMetaIff(cfg: P.Config, s: State, f: Flat, h: nat)
    requires P.ConfigOk(cfg) && Rel(cfg, s, f) && Admissible(cfg, f, Release(h)) && h in f.handles
    requires f.handles[h].path in f.files
    ensures
      var p := f.handles[h].path;
      var snap := Look(f, f.handles[h].snap, p);
      var s' := Step(cfg, s, Release(h)).0;
      && Live(s.sys.store, p) && Live(s'.sys.store, p)
      && (FindFile(s'.sys.store, p).value.contentType == FindFile(s.sys.store, p).value.contentType <==>
          f.handles[h].dirty && snap.Snap? ==> snap.file.meta == f.files[p].meta)
  {
    hide Rel, Step, Live, Print, MetaOf, Printed, Parse, F.StatOf, Newest;
    var p := f.handles[h].path;
    HandleOfRel(cfg, s, f, h);
    StepRefines(cfg, s, f, Release(h));
    var s', f' := Step(cfg, s, Release(h)).0, Next(cfg, f, Release(h));
    LiveBothSides(cfg, s, f, p);
    LiveBothSides(cfg, s', f', p);
    PrintedPrint(f.files[p].meta);
    PrintedPrint(f'.files[p].meta);
  }

  /** A run that loses a chmod: the open file has read, and so loaded its version, before the mode changes; its release puts
      the old mode back. */
  lemma ChmodLost(cfg: P.Config, now: int, later: int, p: string, mode: nat, newMode: nat, data: string)
    requires P.ConfigOk(cfg) && !P.IsProc(cfg, p) && p != P.ConfigurePath(cfg, "") && mode < TWO_31 && newMode < TWO_32
    requires |data| < TWO_63 && cfg.uid < TWO_31 && cfg.gid < TWO_31 && -TWO_31 <= later < TWO_31
    ensures
      var ops := [Create(p, mode, later, 0), Read(0, 0, 0), Write(0, data, 0), Chmod(p, newMode), Release(0)];
      var store := Run(cfg, RootState(cfg, now), ops).sys.store;
      Live(store, p) && FindFile(store, p).value.contentType == Print(Meta(OrBit(mode, F.S_IFREG), cfg.uid, cfg.gid, later))
  {
    hide Rel, RootState, RootFlat, Run, Print, Parse, F.StatOf, Newest, Live, NextAll, AdmissibleAll, P.IsProc,
         P.ConfigurePath;
    var f := RootFlat(cfg, now);
    var ops := [Create(p, mode, later, 0), Read(0, 0, 0), Write(0, data, 0), Chmod(p, newMode), Release(0)];
    RootRel(cfg, now);
    LostInFlat(cfg, now, later, p, mode, newMode, data);
    RunRefines(cfg, RootState(cfg, now), f, ops);
    LiveBothSides(cfg, Run(cfg, RootState(cfg, now), ops), NextAll(cfg, f, ops), p);
  }

  lemma LostInFlat(cfg: P.Config, now: int, later: int, p: string, mode: nat, newMode: nat, data: string)
    requires P.ConfigOk(cfg) && !P.IsProc(cfg, p) && p != P.ConfigurePath(cfg, "") && mode < TWO_31 && newMode < TWO_32
    requires |data| < TWO_63 && cfg.uid < TWO_31 && cfg.gid < TWO_31 && -TWO_31 <= later < TWO_31
    ensures
      var f := RootFlat(cfg, now);
      var ops := [Create(p, mode, later, 0), Read(0, 0, 0), Write(0, data, 0), Chmod(p, newMode), Release(0)];
      && AdmissibleAll(cfg, f, ops)
      && p in NextAll(cfg, f, ops).files
      && NextAll(cfg, f, ops).files[p].meta == Meta(OrBit(mode, F.S_IFREG), cfg.uid, cfg.gid, later)
  {
    hide P.IsProc, P.ConfigurePath, RootFlat, HasChild, IsChild, HasRepeat, AddServer, PS.Classify, ReadablePort, OrBit,
         AdmissibleAll, NextAll;
    CreateFirst(cfg, now, p, mode, later);
    var f1 := Next(cfg, RootFlat(cfg, now), Create(p, mode, later, 0));
    RegularMode(mode);
    var f2 := Next(cfg, f1, Read(0, 0, 0));
    var f3 := Next(cfg, f2, Write(0, data, 0));
    var f4 := Next(cfg, f3, Chmod(p, newMode));
    assert f4.handles[0].snap == Snap(f1.files[p]) && f4.handles[0].dirty;
    InTurn(cfg, RootFlat(cfg, now), Create(p, mode, later, 0), Read(0, 0, 0), Write(0, data, 0), Chmod(p, newMode),
           Release(0));
  }

  lemma RegularMode(mode: nat)
    requires mode < TWO_31
    ensures OrBit(mode, F.S_IFREG) < TWO_31
  {
  }
}
