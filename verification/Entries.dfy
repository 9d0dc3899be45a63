/** The objects that operations work on: the connection, the attribute cache, entries and open files. */
module Entries {
  import opened CTypes
  import opened ContentType
  import opened GridStore
  import F = FuseSpec
  import H = Handles
  import P = Paths

  /** The database connection. */
  class Mongo {
    var store: Store

    constructor ()
      ensures store == EMPTY
    {
      store := EMPTY;
    }
  }

  /** A call on the attribute cache, or memcached dropping an entry on its own. */
  datatype CacheCall = Set(path: string, stat: F.Stat) | Remove(path: string) | Evict(path: string)

  function After(entries: map<string, F.Stat>, call: CacheCall): map<string, F.Stat> {
    if call.Set? then entries[call.path := call.stat] else entries - {call.path}
  }

  function AfterAll(entries: map<string, F.Stat>, calls: seq<CacheCall>): map<string, F.Stat> {
    if calls == [] then entries else After(AfterAll(entries, calls[..|calls| - 1]), calls[|calls| - 1])
  }

  /** Call i is the last about `path`. */
  predicate LastAbout(calls: seq<CacheCall>, path: string, i: nat) {
    i < |calls| && calls[i].path == path && forall j :: i < j < |calls| ==> calls[j].path != path
  }

  /** After any calls and evictions the cache answers for a path exactly if the last of them about it was a set, and then
      with what was set; calls about other paths never matter. */
  lemma {:induction false} LastCallDecides(calls: seq<CacheCall>, path: string)
    ensures
      path in AfterAll(map[], calls) <==> exists i: nat :: LastAbout(calls, path, i) && calls[i].Set?
    ensures
      forall i: nat :: LastAbout(calls, path, i) && calls[i].Set? ==>
        path in AfterAll(map[], calls) && AfterAll(map[], calls)[path] == calls[i].stat
  {
    if calls != [] {
      var n := |calls| - 1;
      var front := calls[..n];
      LastCallDecides(front, path);
      if calls[n].path == path {
        assert LastAbout(calls, path, n);
      } else {
        forall i: nat
          ensures LastAbout(calls, path, i) <==> LastAbout(front, path, i)
        {
          if LastAbout(front, path, i) {
            assert forall j :: i < j < n ==> calls[j] == front[j];
          }
          if LastAbout(calls, path, i) {
            assert forall j :: i < j < n ==> calls[j] == front[j];
          }
        }
      }
    }
  }

  /** Memcache, by path. */
  class Memcache {
    var entries: map<string, F.Stat>

    constructor ()
      ensures entries == map[]
    {
      entries := map[];
    }

    method Get(path: string) returns (hit: Option<F.Stat>)
      ensures hit == if path in entries then Some(entries[path]) else None
    {
      hit := if path in entries then Some(entries[path]) else None;
    }

    method Set(path: string, stat: F.Stat)
      modifies this
      ensures entries == After(old(entries), CacheCall.Set(path, stat))
    {
      entries := entries[path := stat];
    }

    method Remove(path: string)
      modifies this
      ensures entries == After(old(entries), CacheCall.Remove(path))
    {
      entries := entries - {path};
    }
  }

  /** FilesystemEntry: a path and the lazily fetched newest version. */
  class FilesystemEntry {
    const path: string
    const cfg: P.Config
    const mongo: Mongo
    var theGridFile: H.Snap

    constructor (path: string, cfg: P.Config, mongo: Mongo)
      ensures this.path == path && this.cfg == cfg && this.mongo == mongo && theGridFile == H.NotLoaded
    {
      this.path, this.cfg, this.mongo, theGridFile := path, cfg, mongo, H.NotLoaded;
    }

    method Gridfile() returns (doc: Option<Doc>)
      modifies this
      ensures theGridFile == H.LoadSnap(old(theGridFile), mongo.store, path) && doc == theGridFile.doc
    {
      if theGridFile.NotLoaded? {
        theGridFile := H.Loaded(FindFile(mongo.store, path));
      }
      doc := theGridFile.doc;
    }

    method Exists() returns (exists_: bool)
      modifies this
      ensures theGridFile == H.LoadSnap(old(theGridFile), mongo.store, path) && exists_ == theGridFile.doc.Some?
    {
      var doc := Gridfile();
      exists_ := doc.Some?;
    }

    method ForceReload()
      modifies this
      ensures theGridFile == H.NotLoaded
    {
      theGridFile := H.NotLoaded;
    }

    /** stat of the loaded version; None where a field would be read before it is set. */
    method Stat() returns (stat: Option<F.Stat>)
      requires theGridFile.Loaded? && theGridFile.doc.Some?
      ensures stat == F.StatOf(cfg, theGridFile.doc.value)
    {
      var doc := theGridFile.doc.value;
      var parsed := StatFields(doc.contentType, cfg.uid, cfg.gid);
      if parsed.Undefined? || parsed.fields.time.None? {
        return None;
      }
      var f := parsed.fields;
      if HasBit(ToUint32(f.mode), F.S_IFDIR) {
        return Some(F.Stat(f.mode, f.uid, f.gid, f.time.value, 2, 4096));
      }
      return Some(F.Stat(f.mode, f.uid, f.gid, f.time.value, 1, doc.length));
    }

    method Create(mode: nat, uid: nat, gid: nat, now: int, content: string)
      requires cfg.chunkSize > 0
      modifies this, mongo
      ensures mongo.store == StoreFile(old(mongo.store), content, path, Print(Meta(mode, uid, gid, now)), cfg.chunkSize)
      ensures theGridFile == H.NotLoaded
    {
      var text := Print(Meta(mode, uid, gid, now));
      mongo.store := StoreFile(mongo.store, content, path, text, cfg.chunkSize);
      ForceReload();
    }

    method Remove()
      modifies mongo
      ensures mongo.store == RemoveFile(old(mongo.store), path)
    {
      mongo.store := RemoveFile(mongo.store, path);
    }

    method UpdateContentType(id: nat, mode: int, uid: int, gid: int, time: int)
      modifies mongo
      ensures mongo.store == SetContentType(old(mongo.store), id, Print(Meta(mode, uid, gid, time)))
    {
      mongo.store := SetContentType(mongo.store, id, Print(Meta(mode, uid, gid, time)));
    }

    /** The text written back by chmod, chown and utimes, if all it keeps was readable. */
    ghost function Rewritten(change: Fields -> Fields): Option<string>
      requires theGridFile.Loaded? && theGridFile.doc.Some?
      reads this
    {
      match Parse(theGridFile.doc.value.contentType, Defaults(cfg.uid, cfg.gid))
      case Undefined => None
      case Parsed(fields) =>
        var f := change(fields);
        if f.time.None? then None else Some(Print(Meta(f.mode, f.uid, f.gid, f.time.value)))
    }

    ghost predicate Updates(before: Store, after: Store, text: Option<string>, ok: bool)
      requires theGridFile.Loaded? && theGridFile.doc.Some?
      reads this
    {
      && ok == text.Some?
      && after == if text.Some? then SetContentType(before, theGridFile.doc.value.id, text.value) else before
    }

    method Chown(uid: nat, gid: nat) returns (ok: bool)
      requires theGridFile.Loaded? && theGridFile.doc.Some?
      modifies mongo
      ensures Updates(old(mongo.store), mongo.store, Rewritten((f: Fields) => f.(uid := uid, gid := gid)), ok)
    {
      var doc := theGridFile.doc.value;
      var parsed := StatFields(doc.contentType, cfg.uid, cfg.gid);
      if parsed.Undefined? || parsed.fields.time.None? {
        return false;
      }
      UpdateContentType(doc.id, parsed.fields.mode, uid, gid, parsed.fields.time.value);
      return true;
    }

    method Chmod(mode: nat) returns (ok: bool)
      requires theGridFile.Loaded? && theGridFile.doc.Some?
      modifies mongo
      ensures Updates(old(mongo.store), mongo.store, Rewritten((f: Fields) => f.(mode := mode)), ok)
    {
      var doc := theGridFile.doc.value;
      var parsed := StatFields(doc.contentType, cfg.uid, cfg.gid);
      if parsed.Undefined? || parsed.fields.time.None? {
        return false;
      }
      UpdateContentType(doc.id, mode, parsed.fields.uid, parsed.fields.gid, parsed.fields.time.value);
      return true;
    }

    method Utimes(time: int) returns (ok: bool)
      requires theGridFile.Loaded? && theGridFile.doc.Some?
      modifies mongo
      ensures Updates(old(mongo.store), mongo.store, Rewritten((f: Fields) => f.(time := Some(time))), ok)
    {
      var doc := theGridFile.doc.value;
      var parsed := StatFields(doc.contentType, cfg.uid, cfg.gid);
      if parsed.Undefined? {
        return false;
      }
      UpdateContentType(doc.id, parsed.fields.mode, parsed.fields.uid, parsed.fields.gid, time);
      return true;
    }
  }
}
