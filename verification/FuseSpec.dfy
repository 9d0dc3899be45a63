/** The file-system operations as functions on the store, the attribute cache and one open file. */
module FuseSpec {
  import opened CTypes
  import opened ChunkRead
  import opened ContentType
  import opened GridStore
  import opened Paths
  import Directory
  import PS = ProcServers
  import H = Handles

  const S_IFREG := 0x8000
  const S_IFDIR := 0x4000
  const ROOT_MODE := 0x41ED     // S_IFDIR | 0755
  const SYMLINK_MODE := 0xA1FF  // S_IFLNK | 0777

  /** struct stat; atime and ctime repeat mtime. */
  datatype Stat = Stat(mode: int, uid: int, gid: int, mtime: int, nlink: nat, size: nat)

  /** Mongo, memcached, and the list of memcached servers. The cache key of a path is "a:" + path, so paths stand for
      keys. */
  datatype Sys = Sys(store: Store, cache: map<string, Stat>, servers: seq<PS.Server>)

  datatype Errno = ENOENT | EEXIST | ENOTEMPTY | ENAMETOOLONG | EIO

  /** Unspecified: an assert fails, or C++ leaves the outcome open. */
  datatype Reply = Success | Err(errno: Errno) | Attr(stat: Stat) | ProcAttr(mode: nat, uid: nat, gid: nat)
                 | Count(n: nat) | Data(bytes: string) | Names(names: seq<string>) | Unspecified

  // ---- attributes -------------------------------------------------------------------------

  function StatOf(cfg: Config, d: Doc): Option<Stat> {
    match Parse(d.contentType, Defaults(cfg.uid, cfg.gid))
    case Parsed(Fields(mode, uid, gid, Some(time))) =>
      var dir := HasBit(ToUint32(mode), S_IFDIR);
      Some(Stat(mode, uid, gid, time, if dir then 2 else 1, if dir then 4096 else d.length))
    case _ => None
  }

  function Getattr(cfg: Config, sys: Sys, path: string): (Sys, Reply) {
    if path in sys.cache then (sys, Attr(sys.cache[path]))
    else if IsProc(cfg, path) then (sys, ProcStat(cfg, path))
    else match FindFile(sys.store, path)
      case None => (sys, Err(ENOENT))
      case Some(d) =>
        match StatOf(cfg, d)
        case None => (sys, Unspecified)
        case Some(stat) => (sys.(cache := sys.cache[path := stat]), Attr(stat))
  }

  /** Write back the four values with some of them replaced, and drop the cached attributes. */
  function UpdateMeta(cfg: Config, sys: Sys, path: string, change: Fields -> Fields): (Sys, Reply) {
    match FindFile(sys.store, path)
    case None => (sys, Err(ENOENT))
    case Some(d) =>
      match Parse(d.contentType, Defaults(cfg.uid, cfg.gid))
      case Undefined => (sys, Unspecified)
      case Parsed(fields) =>
        var f := change(fields);
        if f.time.None? then (sys, Unspecified) else
        var text := Print(Meta(f.mode, f.uid, f.gid, f.time.value));
        (sys.(store := SetContentType(sys.store, d.id, text), cache := sys.cache - {path}), Success)
  }

  function Chmod(cfg: Config, sys: Sys, path: string, mode: nat): (Sys, Reply) {
    UpdateMeta(cfg, sys, path, (f: Fields) => f.(mode := mode))
  }

  function Chown(cfg: Config, sys: Sys, path: string, uid: nat, gid: nat): (Sys, Reply) {
    UpdateMeta(cfg, sys, path, (f: Fields) => f.(uid := uid, gid := gid))
  }

  function Utimens(cfg: Config, sys: Sys, path: string, time: int): (Sys, Reply) {
    if IsProc(cfg, path) then (sys, Success) else
    UpdateMeta(cfg, sys, path, (f: Fields) => f.(time := Some(time)))
  }

  function Truncate(sys: Sys, path: string, offset: int): (Sys, Reply) {
    match FindFile(sys.store, path)
    case None => (sys, Err(ENOENT))
    case Some(d) =>
      if offset != 0 then (sys, Err(EIO))
      else (sys.(store := SetLengthZero(sys.store, d.id), cache := sys.cache - {path}), Success)
  }

  // ---- proc -------------------------------------------------------------------------------

  /** Proc::stat; nothing is defined for a path that has no kind. */
  function ProcStat(cfg: Config, path: string): Reply {
    match PS.Classify(cfg, path)
    case None => Unspecified
    case Some(kind) => ProcAttr(if kind.ListInstances? then S_IFREG else S_IFDIR, cfg.uid, cfg.gid)
  }

  /** opendir and readdir on a proc path. */
  function ProcList(cfg: Config, servers: seq<PS.Server>, path: string): Reply {
    match PS.Classify(cfg, path)
    case None => Unspecified
    case Some(kind) =>
      match PS.ListOf(kind, servers, cfg.asserts)
      case None => Unspecified
      case Some(names) => Names(names)
  }

  /** open on a proc path; the flag tells whether an open object is left behind. */
  function OpenProc(cfg: Config, sys: Sys, path: string): (Sys, Reply, bool) {
    var (servers, outcome) := PS.CreateOn(cfg, sys.servers, path);
    var sys' := sys.(servers := servers);
    match outcome
    case Added => (sys', Success, true)
    case Refused => (sys', Err(ENAMETOOLONG), true)
    case Threw => (sys', Err(EIO), false)
    case Unspecified => (sys', Unspecified, false)
  }

  /** create on a proc path does not look at what became of the server, and hands nothing to the kernel: the file handle
      stays 0. */
  function CreateProc(cfg: Config, sys: Sys, path: string): (Sys, Reply) {
    var (sys', r, _) := OpenProc(cfg, sys, path);
    (sys', if r == Err(ENAMETOOLONG) then Success else r)
  }

  /** write and read on an open proc path: an assert, and nothing behind it. */
  function WriteProc(cfg: Config): Reply {
    if cfg.asserts then Unspecified else Count(0)
  }

  function ReadProc(cfg: Config): Reply {
    if cfg.asserts then Unspecified else Data("")
  }

  function ReleaseProc(sys: Sys, path: string): (Sys, Reply) {
    (sys.(cache := sys.cache - {path}), Success)
  }

  // ---- names ------------------------------------------------------------------------------

  /** FilesystemEntry::create: a new version, and nothing done to the cache. */
  function CreateEntry(cfg: Config, sys: Sys, path: string, mode: nat, now: int, content: string): Sys
    requires cfg.chunkSize > 0
  {
    sys.(store := StoreFile(sys.store, content, path, Print(Meta(mode, cfg.uid, cfg.gid, now)), cfg.chunkSize))
  }

  function Mkdir(cfg: Config, sys: Sys, path: string, mode: nat, now: int): Sys
    requires cfg.chunkSize > 0
  {
    CreateEntry(cfg, sys, path, OrBit(mode, S_IFDIR), now, "")
  }

  /** createRootDir: looks for the prefix itself, but makes the directory at the configured path. */
  function CreateRootDir(cfg: Config, sys: Sys, now: int): Sys
    requires cfg.chunkSize > 0
  {
    if Live(sys.store, cfg.pathPrefix) then sys else Mkdir(cfg, sys, ConfigurePath(cfg, ""), ROOT_MODE, now)
  }

  function Symlink(cfg: Config, sys: Sys, target: string, path: string, now: int): (Sys, Reply)
    requires cfg.chunkSize > 0
  {
    if Live(sys.store, path) then (sys, Err(EEXIST))
    else (CreateEntry(cfg, sys, path, SYMLINK_MODE, now, target), Success)
  }

  function Remove(sys: Sys, path: string): Sys {
    sys.(store := RemoveFile(sys.store, path), cache := sys.cache - {path})
  }

  function Unlink(sys: Sys, path: string): (Sys, Reply) {
    if Live(sys.store, path) then (Remove(sys, path), Success) else (sys, Err(ENOENT))
  }

  function Rmdir(sys: Sys, path: string): (Sys, Reply) {
    if !Live(sys.store, path) then (sys, Err(ENOENT))
    else if !Directory.IsEmpty(sys.store.docs, path) then (sys, Err(ENOTEMPTY))
    else (Remove(sys, path), Success)
  }

  /** opendir, which loads the entry, then readdir. Proc paths are not looked up. */
  function Readdir(cfg: Config, sys: Sys, path: string): Reply {
    if IsProc(cfg, path) then ProcList(cfg, sys.servers, path)
    else if !Live(sys.store, path) then Err(ENOENT) else
    match Directory.Listing(sys.store.docs, path)
    case None => Err(EIO)
    case Some(names) => Names(names)
  }

  // ---- open files -------------------------------------------------------------------------

  /** create on a path outside proc. The open file is left behind also where the call fails. */
  function Create(cfg: Config, sys: Sys, path: string, mode: nat, now: int): (Sys, Reply, H.Handle)
    requires cfg.chunkSize > 0
  {
    if Live(sys.store, path) then (sys, Err(EEXIST), H.Load(H.NewHandle(path), sys.store))
    else (CreateEntry(cfg, sys, path, OrBit(mode, S_IFREG), now, ""), Success, H.NewHandle(path))
  }

  /** open outside proc: the version is loaded here only because an assert looks at it. */
  function Open(cfg: Config, sys: Sys, path: string): (Reply, Option<H.Handle>) {
    if !cfg.asserts then (Success, Some(H.NewHandle(path)))
    else if Live(sys.store, path) then (Success, Some(H.Load(H.NewHandle(path), sys.store)))
    else (Unspecified, None)
  }

  function Write(cfg: Config, h: H.Handle, data: string, offset: int): (H.Handle, Reply)
    requires cfg.chunkSize > 0
  {
    var (h', r) := H.Write(h, cfg.chunkSize, data, offset);
    (h', if r.Some? then Count(r.value) else Err(EIO))
  }

  function Read(cfg: Config, sys: Sys, h: H.Handle, offset: int, size: nat): (H.Handle, Reply)
    requires size < TWO_63 && -TWO_63 <= offset < TWO_63
  {
    var (h', out) := H.ReadHandle(h, sys.store, cfg.missingThrows, offset, size);
    (h', match out case Done(bytes) => Data(bytes) case Eio => Err(EIO) case Fault => Unspecified)
  }

  /** release: publish if anything was written, then drop the cached attributes. */
  function Release(cfg: Config, sys: Sys, h: H.Handle): (Sys, Reply)
    requires cfg.chunkSize > 0
  {
    if !h.hasChanges then (sys, Success) else
    match H.Publish(h, sys.store, cfg.chunkSize).1
    case None => (sys, if cfg.missingThrows then Err(EIO) else Unspecified)
    case Some(s') => (sys.(store := s', cache := sys.cache - {h.path}), Success)
  }
}
