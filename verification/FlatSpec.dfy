/** What the file system is for: a map from paths to metadata and bytes, with no versions, chunks or caches. */
module FlatSpec {
  import opened CTypes
  import opened Chunks
  import opened ContentType
  import opened PathRegex
  import ChunkRead
  import Directory
  import F = FuseSpec
  import P = Paths
  import PS = ProcServers

  /** The operations of a mounted file system, on configured paths; Evict is memcached dropping an entry. */
  datatype Op =
    | Getattr(path: string)
    | Readdir(path: string)
    | Evict(path: string)
    | Mkdir(path: string, mode: nat, now: int)
    | Symlink(target: string, path: string, now: int)
    | Rmdir(path: string)
    | Unlink(path: string)
    | Chmod(path: string, mode: nat)
    | Chown(path: string, uid: nat, gid: nat)
    | Utimens(path: string, time: int)
    | Truncate(path: string, offset: int)
    | Create(path: string, mode: nat, now: int, h: nat)
    | Open(path: string, h: nat)
    | Write(h: nat, data: string, offset: int)
    | Read(h: nat, offset: int, size: nat)
    | Release(h: nat)

  datatype FlatFile = FlatFile(meta: Meta, bytes: string)

  /** What an open file has seen: nothing yet, that its path was missing, or one state of the file. */
  datatype FlatSnap = Unread | Missing | Snap(file: FlatFile)

  /** `revoked`: the path was removed after the snapshot was taken. */
  datatype FlatHandle = FlatHandle(path: string, snap: FlatSnap, buf: string, dirty: bool, revoked: bool)

  /** `procs` are the open proc paths. */
  datatype Flat = Flat(files: map<string, FlatFile>, handles: map<nat, FlatHandle>,
                       servers: seq<PS.Server>, procs: map<nat, string>)

  function Look(f: Flat, snap: FlatSnap, path: string): FlatSnap {
    if !snap.Unread? then snap else if path in f.files then Snap(f.files[path]) else Missing
  }

  predicate HasChild(files: map<string, FlatFile>, path: string) {
    exists x :: x in files && IsChild(path, x)
  }

  function Revoke(handles: map<nat, FlatHandle>, path: string): map<nat, FlatHandle> {
    map h | h in handles ::
      if handles[h].path == path && handles[h].snap.Snap? then handles[h].(revoked := true) else handles[h]
  }

  function RemovePath(f: Flat, path: string): Flat {
    f.(files := f.files - {path}, handles := Revoke(f.handles, path))
  }

  function SetMeta(f: Flat, path: string, meta: Meta): Flat
    requires path in f.files
  {
    f.(files := f.files[path := f.files[path].(meta := meta)])
  }

  function IsDir(file: FlatFile): bool {
    HasBit(ToUint32(file.meta.mode), F.S_IFDIR)
  }

  function StatOf(file: FlatFile): F.Stat {
    var m := file.meta;
    var dir := IsDir(file);
    F.Stat(m.mode, m.uid, m.gid, m.time, if dir then 2 else 1, if dir then 4096 else |file.bytes|)
  }

  predicate Below(dir: string, path: string) {
    dir + "/" <= path
  }

  /** The proc paths the code knows. */
  predicate HasKind(cfg: P.Config, path: string) {
    || path == cfg.pathPrefix + "/proc"
    || path == cfg.pathPrefix + "/proc/instances"
    || Below(cfg.pathPrefix + "/proc/instances", path)
  }

  /** The text behind the instances prefix, which proc paths are cut at whatever directory they lie in, names a server. */
  function ServerText(cfg: P.Config, path: string): Option<string> {
    var n := |cfg.pathPrefix + "/proc/instances/"|;
    if n <= |path| then Some(path[n..]) else None
  }

  /** create and open on a proc path: the server is added unless it is listed; only open minds if it is, and only open
      leaves an open path behind. */
  function AddServer(cfg: P.Config, f: Flat, path: string, opener: Option<nat>): (f': Flat)
    ensures f'.files == f.files && f'.handles == f.handles
    ensures forall k :: opener != Some(k) ==> (k in f'.procs <==> k in f.procs)
  {
    var text := ServerText(cfg, path);
    if text.None? then f else
    var (servers, outcome) := PS.Add(cfg.library, f.servers, text.value);
    f.(servers := servers, procs := if outcome.Added? && opener.Some? then f.procs[opener.value := path] else f.procs)
  }

  function AddReply(cfg: P.Config, f: Flat, path: string, tolerant: bool): F.Reply {
    var text := ServerText(cfg, path);
    if text.None? then F.Err(F.EIO)
    else if PS.Add(cfg.library, f.servers, text.value).1.Added? || tolerant then F.Success
    else F.Err(F.ENAMETOOLONG)
  }

  function Next(cfg: P.Config, f: Flat, op: Op): Flat {
    match op
    case Getattr(_) | Readdir(_) | Evict(_) => f
    case Mkdir(p, mode, now) =>
      f.(files := f.files[p := FlatFile(Meta(OrBit(mode, F.S_IFDIR), cfg.uid, cfg.gid, now), "")])
    case Symlink(target, p, now) =>
      if p in f.files then f else
      f.(files := f.files[p := FlatFile(Meta(F.SYMLINK_MODE, cfg.uid, cfg.gid, now), target)])
    case Rmdir(p) => if p in f.files && !HasChild(f.files, p) then RemovePath(f, p) else f
    case Unlink(p) => if p in f.files then RemovePath(f, p) else f
    case Chmod(p, mode) => if p in f.files then SetMeta(f, p, f.files[p].meta.(mode := mode)) else f
    case Chown(p, uid, gid) => if p in f.files then SetMeta(f, p, f.files[p].meta.(uid := uid, gid := gid)) else f
    case Utimens(p, time) =>
      if p in f.files && !P.IsProc(cfg, p) then SetMeta(f, p, f.files[p].meta.(time := time)) else f
    case Truncate(p, offset) =>
      if p in f.files && offset == 0 then f.(files := f.files[p := f.files[p].(bytes := "")]) else f
    case Create(p, mode, now, h) =>
      if P.IsProc(cfg, p) then AddServer(cfg, f, p, None) else
      if p in f.files then f else
      f.(files := f.files[p := FlatFile(Meta(OrBit(mode, F.S_IFREG), cfg.uid, cfg.gid, now), "")],
         handles := f.handles[h := FlatHandle(p, Unread, "", false, false)])
    case Open(p, h) =>
      if P.IsProc(cfg, p) then AddServer(cfg, f, p, Some(h)) else
      f.(handles := f.handles[h := FlatHandle(p, if cfg.asserts then Look(f, Unread, p) else Unread, "", false, false)])
    case Write(h, data, offset) =>
      if h !in f.handles then f else
      var fh := f.handles[h];
      if SizeT(offset) == |fh.buf| then f.(handles := f.handles[h := fh.(buf := fh.buf + data, dirty := true)]) else f
    case Read(h, _, _) =>
      if h !in f.handles then f else
      var fh := f.handles[h];
      f.(handles := f.handles[h := fh.(snap := Look(f, fh.snap, fh.path))])
    case Release(h) =>
      if h in f.procs then f.(procs := f.procs - {h}) else
      if h !in f.handles then f else
      var fh := f.handles[h];
      var snap := Look(f, fh.snap, fh.path);
      f.(files := if fh.dirty && snap.Snap? then f.files[fh.path := FlatFile(snap.file.meta, fh.buf)] else f.files,
         handles := f.handles - {h})
  }

  /** Which replies are right. Two things are left open here: a read after the path's removal may fail instead, because the
      flat map has no chunk cache to tell (Refinement.ReadDetermined says when it does), and nothing is said of a read that
      reaches 2^31, after which the program may no longer be running. */
  predicate Allows(cfg: P.Config, f: Flat, op: Op, r: F.Reply)
    requires P.ConfigOk(cfg)
  {
    match op
    case Getattr(p) =>
      if P.IsProc(cfg, p) then
        r == F.ProcAttr(if Below(cfg.pathPrefix + "/proc/instances", p) then 0x8000 else 0x4000, cfg.uid, cfg.gid)
      else
      r == if p in f.files then F.Attr(StatOf(f.files[p]))
           else F.Err(F.ENOENT)
    case Readdir(p) =>
      if P.IsProc(cfg, p) then
        r == F.Names([".", ".."] + if p == cfg.pathPrefix + "/proc" then ["instances"]
                                   else if p == cfg.pathPrefix + "/proc/instances" then PS.Names(f.servers)
                                   else [])
      else if p !in f.files then r == F.Err(F.ENOENT) else
      && r.Names? && |r.names| >= 2 && r.names[..2] == [".", ".."] && Directory.NoDuplicates(r.names[2..])
      && (forall n :: n in r.names[2..] ==> '/' !in n && p + "/" + n in f.files)
      && (forall x :: x in f.files && IsChild(p, x) ==> x[|p| + 1..] in r.names[2..])
    case Evict(_) => r == F.Success
    case Mkdir(_, _, _) => r == F.Success
    case Symlink(_, p, _) => r == if p in f.files then F.Err(F.EEXIST) else F.Success
    case Rmdir(p) =>
      r == if p !in f.files then F.Err(F.ENOENT) else if HasChild(f.files, p) then F.Err(F.ENOTEMPTY) else F.Success
    case Unlink(p) => r == if p in f.files then F.Success else F.Err(F.ENOENT)
    case Chmod(p, _) => r == if p in f.files then F.Success else F.Err(F.ENOENT)
    case Chown(p, _, _) => r == if p in f.files then F.Success else F.Err(F.ENOENT)
    case Utimens(p, _) => r == if P.IsProc(cfg, p) || p in f.files then F.Success else F.Err(F.ENOENT)
    case Truncate(p, offset) =>
      r == if p !in f.files then F.Err(F.ENOENT) else if offset == 0 then F.Success else F.Err(F.EIO)
    case Create(p, _, _, _) =>
      r == if P.IsProc(cfg, p) then AddReply(cfg, f, p, true) else if p in f.files then F.Err(F.EEXIST) else F.Success
    case Open(p, _) => r == if P.IsProc(cfg, p) then AddReply(cfg, f, p, false) else F.Success
    case Write(h, data, offset) =>
      if h in f.procs then r == F.Count(0) else
      h in f.handles ==> r == if SizeT(offset) == |f.handles[h].buf| then F.Count(|data|) else F.Err(F.EIO)
    case Read(h, offset, size) =>
      if h in f.procs then r == F.Data("") else
      h in f.handles ==>
        var fh := f.handles[h];
        var snap := Look(f, fh.snap, fh.path);
        if !snap.Snap? then r == (if cfg.missingThrows then F.Err(F.EIO) else F.Data("")) else
        ChunkRead.Addressable(|snap.file.bytes|, cfg.chunkSize, offset, size) ==>
          || r == F.Data(Slice(snap.file.bytes, offset, size))
          || (fh.revoked && r == F.Err(F.EIO))
    case Release(h) =>
      if h in f.procs then r == F.Success else
      h in f.handles ==>
        var fh := f.handles[h];
        r == if fh.dirty && !Look(f, fh.snap, fh.path).Snap? then F.Err(F.EIO) else F.Success
  }

  /** The metadata of a path, if it exists, fits an int each, so that the parser can read it. */
  predicate Readable(f: Flat, p: string) {
    p in f.files ==> InRange(f.files[p].meta)
  }

  /** What was written has a version to take its metadata from. */
  predicate Publishable(f: Flat, fh: FlatHandle) {
    fh.dirty ==> Look(f, fh.snap, fh.path).Snap?
  }

  predicate FreeHandle(f: Flat, h: nat) {
    h !in f.handles && h !in f.procs
  }

  /** create and open on this proc path: whatever port the text names, atoi can read it. */
  predicate ReadablePort(cfg: P.Config, path: string) {
    ServerText(cfg, path).Some? ==> PS.Definite(ServerText(cfg, path).value)
  }

  /** What is assumed of a call. The C types bound modes, ids and sizes. The kernel names open files that exist, and calls
      mkdir on absent paths and, with asserts, open on existing ones. The rest is assumed because the code does not
      answer otherwise: what it parses fits an int, listed proc paths have a kind, and, so that queries are exact, listed
      and removed directories have no counted repeat in their paths. */
  predicate Admissible(cfg: P.Config, f: Flat, op: Op) {
    match op
    case Evict(_) | Truncate(_, _) | Unlink(_) => true
    case Getattr(p) => if P.IsProc(cfg, p) then HasKind(cfg, p) else Readable(f, p)
    case Readdir(p) =>
      if P.IsProc(cfg, p) then HasKind(cfg, p) && (Below(cfg.pathPrefix + "/proc/instances", p) ==> !cfg.asserts)
      else !HasRepeat(p)
    case Rmdir(p) => !HasRepeat(p)
    case Mkdir(p, mode, _) => p !in f.files && mode < TWO_32
    case Symlink(target, _, _) => |target| < TWO_63
    case Chmod(p, mode) => Readable(f, p) && mode < TWO_32
    case Chown(p, uid, gid) => Readable(f, p) && uid < TWO_32 && gid < TWO_32
    case Utimens(p, _) => P.IsProc(cfg, p) || Readable(f, p)
    case Create(p, mode, _, h) => FreeHandle(f, h) && mode < TWO_32 && (P.IsProc(cfg, p) ==> ReadablePort(cfg, p))
    case Open(p, h) =>
      && FreeHandle(f, h)
      && if P.IsProc(cfg, p) then ReadablePort(cfg, p) else cfg.asserts ==> p in f.files
    case Write(h, data, _) =>
      if h in f.procs then !cfg.asserts else h in f.handles && |f.handles[h].buf| + |data| < TWO_63
    case Read(h, offset, size) =>
      && size < TWO_63 && -TWO_63 <= offset < TWO_63
      && if h in f.procs then !cfg.asserts else h in f.handles
    case Release(h) => h in f.procs || (h in f.handles && (cfg.missingThrows || Publishable(f, f.handles[h])))
  }

  /** The flat state after a run, and a run every call of which is admissible when it is made. */
  function NextAll(cfg: P.Config, f: Flat, ops: seq<Op>): Flat
    decreases |ops|
  {
    if ops == [] then f else NextAll(cfg, Next(cfg, f, ops[0]), ops[1..])
  }

  predicate AdmissibleAll(cfg: P.Config, f: Flat, ops: seq<Op>)
    decreases |ops|
  {
    ops == [] || (Admissible(cfg, f, ops[0]) && AdmissibleAll(cfg, Next(cfg, f, ops[0]), ops[1..]))
  }

  predicate AllowsAll(cfg: P.Config, f: Flat, ops: seq<Op>, rs: seq<F.Reply>)
    requires P.ConfigOk(cfg)
    decreases |ops|
  {
    && |rs| == |ops|
    && (ops == [] || (Allows(cfg, f, ops[0], rs[0]) && AllowsAll(cfg, Next(cfg, f, ops[0]), ops[1..], rs[1..])))
  }
}
