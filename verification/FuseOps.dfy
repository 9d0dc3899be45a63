/** The callbacks of filesystem_operations.cpp on the connection, the attribute cache and open files. */
module FuseOps {
  import opened CTypes
  import opened ContentType
  import opened GridStore
  import opened Entries
  import opened OpenFile
  import opened PathRegex
  import F = FuseSpec
  import H = Handles
  import D = Directory
  import P = Paths
  import PS = ProcServers

  /** What fileinfo->fh points to: an open file or an open proc path. */
  datatype FileInfo = FileOf(file: File) | ProcOf(proc: PS.Proc)

  class Fuse {
    const cfg: P.Config
    const mongo: Mongo
    const memcache: Memcache
    const master: PS.Master

    ghost predicate Valid() {
      P.ConfigOk(cfg) && master.lib == cfg.library
    }

    ghost function Sys(): F.Sys
      reads mongo, memcache, master
    {
      F.Sys(mongo.store, memcache.entries, master.servers)
    }

    /** The open object belongs to this mount and to the path. */
    ghost predicate Opened(fh: FileInfo, path: string)
      reads if fh.FileOf? then {fh.file, fh.file.entry} else {}
    {
      match fh
      case FileOf(file) => file.Valid() && file.entry.mongo == mongo && file.entry.cfg == cfg && file.entry.path == path
      case ProcOf(proc) => proc.Valid() && proc.cfg == cfg && proc.thePath == path
    }

    ghost function Parts(fh: FileInfo): set<object>
      reads if fh.FileOf? then {fh.file} else {}
    {
      match fh
      case FileOf(file) => {file, file.entry, file.theData}
      case ProcOf(proc) => {proc}
    }

    constructor (cfg: P.Config)
      requires P.ConfigOk(cfg)
      ensures Valid() && this.cfg == cfg && Sys() == F.Sys(EMPTY, map[], [])
      ensures fresh(mongo) && fresh(memcache) && fresh(master)
    {
      this.cfg := cfg;
      mongo := new Mongo();
      memcache := new Memcache();
      master := new PS.Master(cfg.library);
    }

    /** configure_path: append to the prefix, then cut one trailing slash. */
    method ConfigurePath(path: string) returns (res: string)
      ensures res == P.ConfigurePath(cfg, path)
    {
      res := cfg.pathPrefix;
      res := res + path;
      if |res| != 0 && res[|res| - 1] == '/' {
        res := res[..|res| - 1];
      }
    }

    method NewEntry(path: string) returns (entry: FilesystemEntry)
      ensures fresh(entry) && entry.path == path && entry.cfg == cfg && entry.mongo == mongo
      ensures entry.theGridFile == H.NotLoaded
    {
      entry := new FilesystemEntry(path, cfg, mongo);
    }

    method Getattr(aPath: string) returns (r: F.Reply)
      modifies memcache
      ensures (Sys(), r) == F.Getattr(cfg, old(Sys()), P.ConfigurePath(cfg, aPath))
    {
      var path := ConfigurePath(aPath);
      var hit := memcache.Get(path);
      if hit.Some? {
        return F.Attr(hit.value);
      }
      if P.IsProc(cfg, path) {
        var proc := new PS.Proc(cfg, path);
        r := ProcStat(proc);
        return;
      }
      var entry := NewEntry(path);
      var found := entry.Exists();
      if !found {
        return F.Err(F.ENOENT);
      }
      var stat := entry.Stat();
      if stat.None? {
        return F.Unspecified;
      }
      memcache.Set(path, stat.value);
      return F.Attr(stat.value);
    }

    /** Proc::stat */
    method ProcStat(proc: PS.Proc) returns (r: F.Reply)
      requires proc.Valid() && proc.cfg == cfg
      ensures r == F.ProcStat(cfg, proc.thePath)
    {
      if proc.theType == Some(PS.Root) || proc.theType == Some(PS.Instances) {
        return F.ProcAttr(F.S_IFDIR, cfg.uid, cfg.gid);
      } else if proc.theType == Some(PS.ListInstances) {
        return F.ProcAttr(F.S_IFREG, cfg.uid, cfg.gid);
      }
      return F.Unspecified;
    }

    method Mkdir(aPath: string, mode: nat, now: int) returns (r: F.Reply)
      requires Valid()
      modifies mongo
      ensures r == F.Success && Sys() == F.Mkdir(cfg, old(Sys()), P.ConfigurePath(cfg, aPath), mode, now)
    {
      var path := ConfigurePath(aPath);
      var dir := NewEntry(path);
      dir.Create(OrBit(mode, F.S_IFDIR), cfg.uid, cfg.gid, now, "");
      return F.Success;
    }

    method CreateRootDir(now: int)
      requires Valid()
      modifies mongo
      ensures Sys() == F.CreateRootDir(cfg, old(Sys()), now)
    {
      var entry := NewEntry(cfg.pathPrefix);
      var found := entry.Exists();
      if !found {
        var _ := Mkdir("", F.ROOT_MODE, now);
      }
    }

    method Rmdir(aPath: string) returns (r: F.Reply)
      modifies mongo, memcache
      ensures (Sys(), r) == F.Rmdir(old(Sys()), P.ConfigurePath(cfg, aPath))
    {
      var path := ConfigurePath(aPath);
      var dir := NewEntry(path);
      var found := dir.Exists();
      if !found {
        return F.Err(F.ENOENT);
      }
      var cursor := ListQuery(path);
      if cursor != [] {
        return F.Err(F.ENOTEMPTY);
      }
      dir.Remove();
      memcache.Remove(path);
      return F.Success;
    }

    /** Directory::list(): build the regular expression and open a cursor on it. */
    method ListQuery(path: string) returns (cursor: seq<string>)
      ensures cursor == D.Query(mongo.store.docs, Pattern(path))
    {
      var escaped := EscapePath(path);
      var regex := "^" + escaped + "/[^/]*$";
      cursor := D.Query(mongo.store.docs, regex);
    }

    method Readdir(aPath: string) returns (r: F.Reply)
      ensures r == F.Readdir(cfg, Sys(), P.ConfigurePath(cfg, aPath))
    {
      var path := ConfigurePath(aPath);
      if P.IsProc(cfg, path) {
        var proc := new PS.Proc(cfg, path);
        if proc.theType.None? {
          return F.Unspecified;
        }
        var listed := proc.List(master);
        return if listed.Some? then F.Names(listed.value) else F.Unspecified;
      }
      var dir := NewEntry(path);
      var found := dir.Exists();
      if !found {
        return F.Err(F.ENOENT);
      }
      var cursor := ListQuery(path);
      var filled := D.List(cursor, path);
      if filled.None? {
        return F.Err(F.EIO);
      }
      return F.Names(filled.value);
    }

    method Unlink(aPath: string) returns (r: F.Reply)
      modifies mongo, memcache
      ensures (Sys(), r) == F.Unlink(old(Sys()), P.ConfigurePath(cfg, aPath))
    {
      var path := ConfigurePath(aPath);
      var entry := NewEntry(path);
      var found := entry.Exists();
      if !found {
        return F.Err(F.ENOENT);
      }
      entry.Remove();
      memcache.Remove(path);
      return F.Success;
    }

    method Symlink(target: string, aPath: string, now: int) returns (r: F.Reply)
      requires Valid()
      modifies mongo
      ensures (Sys(), r) == F.Symlink(cfg, old(Sys()), target, P.ConfigurePath(cfg, aPath), now)
    {
      var path := ConfigurePath(aPath);
      var link := NewEntry(path);
      var found := link.Exists();
      if found {
        return F.Err(F.EEXIST);
      }
      link.Create(F.SYMLINK_MODE, cfg.uid, cfg.gid, now, target);
      return F.Success;
    }

    method Chmod(aPath: string, mode: nat) returns (r: F.Reply)
      modifies mongo, memcache
      ensures (Sys(), r) == F.Chmod(cfg, old(Sys()), P.ConfigurePath(cfg, aPath), mode)
    {
      var path := ConfigurePath(aPath);
      var entry := NewEntry(path);
      var found := entry.Exists();
      if !found {
        return F.Err(F.ENOENT);
      }
      var ok := entry.Chmod(mode);
      if !ok {
        return F.Unspecified;
      }
      memcache.Remove(path);
      return F.Success;
    }

    method Chown(aPath: string, uid: nat, gid: nat) returns (r: F.Reply)
      modifies mongo, memcache
      ensures (Sys(), r) == F.Chown(cfg, old(Sys()), P.ConfigurePath(cfg, aPath), uid, gid)
    {
      var path := ConfigurePath(aPath);
      var entry := NewEntry(path);
      var found := entry.Exists();
      if !found {
        return F.Err(F.ENOENT);
      }
      var ok := entry.Chown(uid, gid);
      if !ok {
        return F.Unspecified;
      }
      memcache.Remove(path);
      return F.Success;
    }

    method Utimens(aPath: string, time: int) returns (r: F.Reply)
      modifies mongo, memcache
      ensures (Sys(), r) == F.Utimens(cfg, old(Sys()), P.ConfigurePath(cfg, aPath), time)
    {
      var path := ConfigurePath(aPath);
      if P.IsProc(cfg, path) {
        return F.Success;
      }
      var entry := NewEntry(path);
      var found := entry.Exists();
      if !found {
        return F.Err(F.ENOENT);
      }
      var ok := entry.Utimes(time);
      if !ok {
        return F.Unspecified;
      }
      memcache.Remove(path);
      return F.Success;
    }

    method Truncate(aPath: string, offset: int) returns (r: F.Reply)
      modifies mongo, memcache
      ensures (Sys(), r) == F.Truncate(old(Sys()), P.ConfigurePath(cfg, aPath), offset)
    {
      var path := ConfigurePath(aPath);
      var entry := NewEntry(path);
      var file := new File(entry);
      var found := entry.Exists();
      if !found {
        return F.Err(F.ENOENT);
      }
      if offset != 0 {
        return F.Err(F.EIO);
      }
      file.Truncate();
      memcache.Remove(path);
      return F.Success;
    }

    /** create. None is a file handle of 0, also where the call succeeds on a proc path. */
    method Create(aPath: string, mode: nat, now: int) returns (r: F.Reply, fh: Option<FileInfo>)
      requires Valid()
      modifies mongo, master
      ensures fh.Some? ==> Opened(fh.value, P.ConfigurePath(cfg, aPath)) && fresh(Parts(fh.value))
      ensures
        var path := P.ConfigurePath(cfg, aPath);
        if P.IsProc(cfg, path) then
          fh.None? && (Sys(), r) == F.CreateProc(cfg, old(Sys()), path)
        else
          fh.Some? && fh.value.FileOf? && (Sys(), r, fh.value.file.State()) == F.Create(cfg, old(Sys()), path, mode, now)
    {
      var path := ConfigurePath(aPath);
      if P.IsProc(cfg, path) {
        var proc := new PS.Proc(cfg, path);
        var outcome := proc.Create(master);
        match outcome
        case Threw => return F.Err(F.EIO), None;
        case Unspecified => return F.Unspecified, None;
        case _ => return F.Success, None;
      }
      var entry := NewEntry(path);
      var file := new File(entry);
      var found := entry.Exists();
      if found {
        r := F.Err(F.EEXIST);
      } else {
        entry.Create(OrBit(mode, F.S_IFREG), cfg.uid, cfg.gid, now, "");
        r := F.Success;
      }
      fh := Some(FileOf(file));
    }

    /** open; outside proc the existence check is an assert. */
    method Open(aPath: string) returns (r: F.Reply, fh: Option<FileInfo>)
      requires Valid()
      modifies master
      ensures fh.Some? ==> Opened(fh.value, P.ConfigurePath(cfg, aPath)) && fresh(Parts(fh.value))
      ensures
        var path := P.ConfigurePath(cfg, aPath);
        if P.IsProc(cfg, path) then
          (Sys(), r, fh.Some?) == F.OpenProc(cfg, old(Sys()), path) && (fh.Some? ==> fh.value.ProcOf?)
        else
          && Sys() == old(Sys()) && (fh.Some? ==> fh.value.FileOf?)
          && (r, if fh.Some? then Some(fh.value.file.State()) else None) == F.Open(cfg, Sys(), path)
    {
      var path := ConfigurePath(aPath);
      if P.IsProc(cfg, path) {
        var proc := new PS.Proc(cfg, path);
        var outcome := proc.Create(master);
        match outcome
        case Added => return F.Success, Some(ProcOf(proc));
        case Refused => return F.Err(F.ENAMETOOLONG), Some(ProcOf(proc));
        case Threw => return F.Err(F.EIO), None;
        case Unspecified => return F.Unspecified, None;
      }
      var entry := NewEntry(path);
      var file := new File(entry);
      if cfg.asserts {
        var found := entry.Exists();
        if !found {
          return F.Unspecified, None;
        }
      }
      return F.Success, Some(FileOf(file));
    }

    method Write(aPath: string, fh: FileInfo, data: string, offset: int) returns (r: F.Reply)
      requires Valid() && Opened(fh, P.ConfigurePath(cfg, aPath))
      modifies if fh.FileOf? then {fh.file, fh.file.theData} else {}
      ensures
        match fh
        case FileOf(file) => file.Valid() && (file.State(), r) == F.Write(cfg, old(file.State()), data, offset)
        case ProcOf(_) => r == F.WriteProc(cfg)
    {
      match fh
      case FileOf(file) =>
        var written := file.Write(data, offset);
        return if written.Some? then F.Count(written.value) else F.Err(F.EIO);
      case ProcOf(_) =>
        return if cfg.asserts then F.Unspecified else F.Count(0);
    }

    method Read(aPath: string, fh: FileInfo, buf: array<char>, size: nat, offset: int) returns (r: F.Reply)
      requires Valid() && Opened(fh, P.ConfigurePath(cfg, aPath))
      requires size <= buf.Length < TWO_63 && -TWO_63 <= offset < TWO_63
      requires fh.FileOf? ==> buf != fh.file.theData
      modifies if fh.FileOf? then {fh.file, fh.file.entry} else {}, buf
      ensures
        match fh
        case FileOf(file) => file.Valid() && (file.State(), r) == F.Read(cfg, Sys(), old(file.State()), offset, size)
        case ProcOf(_) => r == F.ReadProc(cfg)
      ensures r.Data? ==> r.bytes <= buf[..size] && buf[|r.bytes|..] == old(buf[|r.bytes|..])
      ensures buf[size..] == old(buf[size..])
    {
      match fh
      case FileOf(file) =>
        var n, ending := file.Read(buf, size, offset);
        match ending {
          case Returned =>
            assert buf[..n] == buf[..size][..n];
            return F.Data(buf[..n]);
          case Threw => return F.Err(F.EIO);
          case Faulted => return F.Unspecified;
        }
      case ProcOf(_) =>
        return if cfg.asserts then F.Unspecified else F.Data("");
    }

    method Release(aPath: string, fh: FileInfo) returns (r: F.Reply)
      requires Valid() && Opened(fh, P.ConfigurePath(cfg, aPath))
      modifies if fh.FileOf? then {fh.file, fh.file.entry} else {}, mongo, memcache
      ensures
        match fh
        case FileOf(file) => (Sys(), r) == F.Release(cfg, old(Sys()), old(file.State()))
        case ProcOf(_) => (Sys(), r) == F.ReleaseProc(old(Sys()), P.ConfigurePath(cfg, aPath))
    {
      var path := ConfigurePath(aPath);
      match fh
      case FileOf(file) =>
        if file.theHasChanges {
          var ok := file.Store();
          if !ok {
            return if cfg.missingThrows then F.Err(F.EIO) else F.Unspecified;
          }
          memcache.Remove(path);
        }
        return F.Success;
      case ProcOf(_) =>
        memcache.Remove(path);
        return F.Success;
    }
  }
}
