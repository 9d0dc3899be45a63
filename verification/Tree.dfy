/** The directory tree: which calls keep every live path below a live directory. */
module Tree {
  import opened CTypes
  import opened ContentType
  import opened GridStore
  import opened PathRegex
  import opened FlatSpec
  import opened Refinement
  import opened Theorems
  import F = FuseSpec
  import P = Paths
  import PS = ProcServers

  predicate HasDirParent(files: map<string, FlatFile>, p: string) {
    exists d :: d in files && IsChild(d, p) && IsDir(files[d])
  }

  /** Every path but the root lies in a live directory. */
  predicate TreeOk(root: string, files: map<string, FlatFile>) {
    forall p :: p in files && p != root ==> HasDirParent(files, p)
  }

  predicate HasChildBelow(root: string, files: map<string, FlatFile>, p: string) {
    exists x :: x in files && x != root && IsChild(p, x)
  }

  lemma OneParent(d: string, e: string, p: string)
    requires IsChild(d, p) && IsChild(e, p)
    ensures d == e
  {
    var name := p[|e| + 1..];
    assert p == e + "/" + name;
    ParentUnique(d, e, name);
  }

  /** What a caller can check before the call. A release publishes a file at its path: the path must still be live or
      belong in the tree, and must not have become a directory with children meanwhile. */
  predicate TreeSafe(root: string, cfg: P.Config, f: Flat, op: Op) {
    match op
    case Mkdir(p, _, _) => p in f.files || p == root || HasDirParent(f.files, p)
    case Symlink(_, p, _) => p in f.files || p == root || HasDirParent(f.files, p)
    case Create(p, _, _, _) => P.IsProc(cfg, p) || p in f.files || p == root || HasDirParent(f.files, p)
    case Unlink(p) => p in f.files ==> !HasChildBelow(root, f.files, p)
    case Chmod(p, mode) => p in f.files && !HasBit(mode % TWO_32, F.S_IFDIR) ==> !HasChildBelow(root, f.files, p)
    case Release(h) =>
      h !in f.procs && h in f.handles && f.handles[h].dirty && Look(f, f.handles[h].snap, f.handles[h].path).Snap? ==>
        var p := f.handles[h].path;
        var file := Look(f, f.handles[h].snap, p).file;
        && (p in f.files || p == root || HasDirParent(f.files, p))
        && (IsDir(file) || !HasChildBelow(root, f.files, p))
    case _ => true
  }

  /** Putting a file at a path keeps the tree exactly when the path belongs there and no directory with children is lost. */
  lemma PutKeepsTreeIff(root: string, files: map<string, FlatFile>, p: string, file: FlatFile)
    requires TreeOk(root, files)
    ensures TreeOk(root, files[p := file]) <==>
            && (p in files || p == root || HasDirParent(files, p))
            && (IsDir(file) || !HasChildBelow(root, files, p))
  {
    hide IsDir, IsChild;
    var files' := files[p := file];
    if TreeOk(root, files') {
      if p !in files && p != root {
        assert HasDirParent(files', p);
        var d :| d in files' && IsChild(d, p) && IsDir(files'[d]);
        NotOwnChild(p);
        assert d in files && IsChild(d, p) && IsDir(files[d]);
      }
      if HasChildBelow(root, files, p) {
        var x :| x in files && x != root && IsChild(p, x);
        assert HasDirParent(files', x);
        var d :| d in files' && IsChild(d, x) && IsDir(files'[d]);
        OneParent(d, p, x);
      }
    }
    if (p in files || p == root || HasDirParent(files, p)) && (IsDir(file) || !HasChildBelow(root, files, p)) {
      forall x | x in files' && x != root
        ensures HasDirParent(files', x)
      {
        assert HasDirParent(files, x);
        var d :| d in files && IsChild(d, x) && IsDir(files[d]);
        assert d == p && x in files ==> HasChildBelow(root, files, p);
        if x == p {
          NotOwnChild(p);
        }
        assert d in files' && IsChild(d, x) && IsDir(files'[d]);
      }
    }
  }

  lemma NotOwnChild(p: string)
    ensures !IsChild(p, p)
  {
  }

  /** Taking a path away keeps the tree exactly when nothing lies below it. */
  lemma RemoveKeepsTreeIff(root: string, files: map<string, FlatFile>, p: string)
    requires TreeOk(root, files)
    ensures TreeOk(root, files - {p}) <==> (p in files ==> !HasChildBelow(root, files, p))
  {
    hide IsDir, IsChild;
    var files' := files - {p};
    NotOwnChild(p);
    if TreeOk(root, files') && HasChildBelow(root, files, p) {
      var x :| x in files && x != root && IsChild(p, x);
      assert HasDirParent(files', x);
      var d :| d in files' && IsChild(d, x) && IsDir(files'[d]);
      OneParent(d, p, x);
    }
    if p in files ==> !HasChildBelow(root, files, p) {
      forall x | x in files' && x != root
        ensures HasDirParent(files', x)
      {
        assert HasDirParent(files, x);
        var d :| d in files && IsChild(d, x) && IsDir(files[d]);
        assert d == p ==> HasChildBelow(root, files, p);
        assert d in files' && IsChild(d, x) && IsDir(files'[d]);
      }
    }
  }

  /** One admissible call keeps the tree if and only if it was safe. */
  lemma StepKeepsTreeIff(root: string, cfg: P.Config, f: Flat, op: Op)
    requires P.ConfigOk(cfg) && TreeOk(root, f.files) && Admissible(cfg, f, op)
    ensures TreeOk(root, Next(cfg, f, op).files) <==> TreeSafe(root, cfg, f, op)
  {
    hide TreeOk, HasDirParent, HasChildBelow, HasRepeat, P.IsProc, PS.Add;
    match op
    case Mkdir(p, mode, now) =>
      var file := FlatFile(Meta(OrBit(mode, F.S_IFDIR), cfg.uid, cfg.gid, now), "");
      PutKeepsTreeIff(root, f.files, p, file);
      OrBitIsDir(mode);
    case Symlink(target, p, now) =>
      NoChildOfAbsent(root, f.files, p);
      PutKeepsTreeIff(root, f.files, p, FlatFile(Meta(F.SYMLINK_MODE, cfg.uid, cfg.gid, now), target));
    case Create(p, mode, now, _) =>
      NoChildOfAbsent(root, f.files, p);
      PutKeepsTreeIff(root, f.files, p, FlatFile(Meta(OrBit(mode, F.S_IFREG), cfg.uid, cfg.gid, now), ""));
    case Unlink(p) => RemoveKeepsTreeIff(root, f.files, p);
    case Rmdir(p) =>
      RemoveKeepsTreeIff(root, f.files, p);
      FewerChildren(root, f.files, p);
    case Chmod(p, mode) =>
      if p in f.files {
        PutKeepsTreeIff(root, f.files, p, f.files[p].(meta := f.files[p].meta.(mode := mode)));
      }
    case Chown(p, uid, gid) =>
      if p in f.files {
        SameKind(root, f.files, p, f.files[p].(meta := f.files[p].meta.(uid := uid, gid := gid)));
      }
    case Utimens(p, time) =>
      if p in f.files {
        SameKind(root, f.files, p, f.files[p].(meta := f.files[p].meta.(time := time)));
      }
    case Truncate(p, _) =>
      if p in f.files {
        SameKind(root, f.files, p, f.files[p].(bytes := ""));
      }
    case Release(h) =>
      if h !in f.procs {
        var fh := f.handles[h];
        var snap := Look(f, fh.snap, fh.path);
        if fh.dirty && snap.Snap? {
          PutKeepsTreeIff(root, f.files, fh.path, FlatFile(snap.file.meta, fh.buf));
        }
      }
    case _ =>
  }

  lemma OrBitIsDir(mode: nat)
    requires mode < TWO_32
    ensures HasBit(ToUint32(OrBit(mode, F.S_IFDIR)), F.S_IFDIR)
  {
  }

  lemma FewerChildren(root: string, files: map<string, FlatFile>, p: string)
    ensures HasChildBelow(root, files, p) ==> HasChild(files, p)
  {
  }

  lemma NoChildOfAbsent(root: string, files: map<string, FlatFile>, p: string)
    requires TreeOk(root, files)
    ensures p !in files ==> !HasChildBelow(root, files, p)
  {
    hide IsChild, IsDir;
    if HasChildBelow(root, files, p) {
      var x :| x in files && x != root && IsChild(p, x);
      assert HasDirParent(files, x);
      var d :| d in files && IsChild(d, x) && IsDir(files[d]);
      OneParent(d, p, x);
    }
  }

  lemma SameKind(root: string, files: map<string, FlatFile>, p: string, file: FlatFile)
    requires TreeOk(root, files) && p in files && IsDir(file) == IsDir(files[p])
    ensures TreeOk(root, files[p := file])
  {
    hide IsChild, IsDir;
    PutKeepsTreeIff(root, files, p, file);
    if HasChildBelow(root, files, p) {
      var x :| x in files && x != root && IsChild(p, x);
      assert HasDirParent(files, x);
      var d :| d in files && IsChild(d, x) && IsDir(files[d]);
      OneParent(d, p, x);
    }
  }

  predicate TreeSafeAll(root: string, cfg: P.Config, f: Flat, ops: seq<Op>)
    decreases |ops|
  {
    ops == [] || (TreeSafe(root, cfg, f, ops[0]) && TreeSafeAll(root, cfg, Next(cfg, f, ops[0]), ops[1..]))
  }

  lemma {:induction false} RunKeepsTree(root: string, cfg: P.Config, f: Flat, ops: seq<Op>)
    requires P.ConfigOk(cfg) && TreeOk(root, f.files) && AdmissibleAll(cfg, f, ops) && TreeSafeAll(root, cfg, f, ops)
    ensures TreeOk(root, NextAll(cfg, f, ops).files)
    decreases |ops|
  {
    hide TreeOk, TreeSafe, Admissible, Next;
    if ops != [] {
      StepKeepsTreeIff(root, cfg, f, ops[0]);
      RunKeepsTree(root, cfg, Next(cfg, f, ops[0]), ops[1..]);
    }
  }

  // ---- what the kernel guarantees suffices ------------------------------------------------

  /** The kernel's side of a call: new paths go to a live directory or to the root, unlink is for what is not a directory,
      chmod keeps the file type, and no open file with changes is released after its path was removed. */
  predicate Vfs(root: string, cfg: P.Config, f: Flat, op: Op) {
    match op
    case Mkdir(p, _, _) => p !in f.files && (p == root || HasDirParent(f.files, p))
    case Symlink(_, p, _) => p in f.files || p == root || HasDirParent(f.files, p)
    case Create(p, _, _, _) => P.IsProc(cfg, p) || p in f.files || p == root || HasDirParent(f.files, p)
    case Unlink(p) => p in f.files ==> !IsDir(f.files[p])
    case Chmod(p, mode) => p in f.files ==> HasBit(mode % TWO_32, F.S_IFDIR) == IsDir(f.files[p])
    case Release(h) => h !in f.procs && h in f.handles && f.handles[h].dirty ==> !f.handles[h].revoked
    case _ => true
  }

  predicate VfsAll(root: string, cfg: P.Config, f: Flat, ops: seq<Op>)
    decreases |ops|
  {
    ops == [] || (Vfs(root, cfg, f, ops[0]) && VfsAll(root, cfg, Next(cfg, f, ops[0]), ops[1..]))
  }

  /** What an open file has loaded, unless its path was removed since, is live and still of the same kind. */
  predicate KindOk(files: map<string, FlatFile>, fh: FlatHandle) {
    fh.snap.Snap? && !fh.revoked ==> fh.path in files && IsDir(files[fh.path]) == IsDir(fh.snap.file)
  }

  predicate KindsOk(f: Flat) {
    forall h :: h in f.handles ==> KindOk(f.files, f.handles[h])
  }

  lemma PutKeepsKinds(f: Flat, p: string, file: FlatFile)
    requires KindsOk(f) && (p in f.files ==> IsDir(file) == IsDir(f.files[p]))
    ensures forall h :: h in f.handles ==> KindOk(f.files[p := file], f.handles[h])
  {
    hide IsDir;
    forall h | h in f.handles
      ensures KindOk(f.files[p := file], f.handles[h])
    {
      assert KindOk(f.files, f.handles[h]);
    }
  }

  lemma RemoveKeepsKinds(f: Flat, p: string)
    requires KindsOk(f)
    ensures KindsOk(RemovePath(f, p))
  {
    hide IsDir;
    forall h | h in f.handles
      ensures KindOk(f.files - {p}, Revoke(f.handles, p)[h])
    {
      assert KindOk(f.files, f.handles[h]);
    }
  }

  /** The file a release publishes is of the kind its path has now. */
  lemma PublishedKind(f: Flat, h: nat)
    requires KindsOk(f) && h in f.handles && !f.handles[h].revoked && Look(f, f.handles[h].snap, f.handles[h].path).Snap?
    ensures
      var p := f.handles[h].path;
      p in f.files && IsDir(Look(f, f.handles[h].snap, p).file) == IsDir(f.files[p])
  {
    hide IsDir;
    assert KindOk(f.files, f.handles[h]);
  }

  lemma SameKindMeta(file: FlatFile, uid: nat, gid: nat, time: int)
    ensures IsDir(file) == IsDir(file.(meta := file.meta.(uid := uid, gid := gid)))
    ensures IsDir(file) == IsDir(file.(meta := file.meta.(time := time)))
    ensures IsDir(file) == IsDir(file.(bytes := ""))
  {
  }

  /** Every admissible call of the kernel keeps the kinds. */
  lemma VfsKeepsKinds(root: string, cfg: P.Config, f: Flat, op: Op)
    requires P.ConfigOk(cfg) && KindsOk(f) && Admissible(cfg, f, op) && Vfs(root, cfg, f, op)
    ensures KindsOk(Next(cfg, f, op))
  {
    hide IsDir, HasDirParent, HasChild, HasRepeat, P.IsProc, PS.Add, RemovePath, InRange;
    match op
    case Mkdir(p, mode, now) =>
      PutKeepsKinds(f, p, FlatFile(Meta(OrBit(mode, F.S_IFDIR), cfg.uid, cfg.gid, now), ""));
    case Symlink(target, p, now) =>
      if p !in f.files {
        PutKeepsKinds(f, p, FlatFile(Meta(F.SYMLINK_MODE, cfg.uid, cfg.gid, now), target));
      }
    case Create(p, mode, now, _) =>
      if p !in f.files {
        PutKeepsKinds(f, p, FlatFile(Meta(OrBit(mode, F.S_IFREG), cfg.uid, cfg.gid, now), ""));
      }
    case Unlink(p) => RemoveKeepsKinds(f, p);
    case Rmdir(p) => RemoveKeepsKinds(f, p);
    case Chmod(p, mode) =>
      if p in f.files {
        var file := f.files[p].(meta := f.files[p].meta.(mode := mode));
        assert IsDir(file) == HasBit(mode % TWO_32, F.S_IFDIR) by { KindIsBit(file); }
        PutKeepsKinds(f, p, file);
      }
    case Chown(p, uid, gid) =>
      if p in f.files {
        SameKindMeta(f.files[p], uid, gid, 0);
        PutKeepsKinds(f, p, f.files[p].(meta := f.files[p].meta.(uid := uid, gid := gid)));
      }
    case Utimens(p, time) =>
      if p in f.files {
        SameKindMeta(f.files[p], 0, 0, time);
        PutKeepsKinds(f, p, f.files[p].(meta := f.files[p].meta.(time := time)));
      }
    case Truncate(p, _) =>
      if p in f.files {
        SameKindMeta(f.files[p], 0, 0, 0);
        PutKeepsKinds(f, p, f.files[p].(bytes := ""));
      }
    case Release(h) =>
      if h !in f.procs {
        var fh := f.handles[h];
        if fh.dirty && Look(f, fh.snap, fh.path).Snap? {
          var meta := Look(f, fh.snap, fh.path).file.meta;
          PublishedKind(f, h);
          KindIsMeta(Look(f, fh.snap, fh.path).file, fh.buf);
          PutKeepsKinds(f, fh.path, FlatFile(meta, fh.buf));
        }
      }
    case _ =>
  }

  lemma KindIsBit(file: FlatFile)
    ensures IsDir(file) == HasBit(file.meta.mode % TWO_32, F.S_IFDIR)
  {
  }

  lemma KindIsMeta(file: FlatFile, bytes: string)
    ensures IsDir(FlatFile(file.meta, bytes)) == IsDir(file)
  {
  }

  /** In a right tree nothing lies below what is not a directory. */
  lemma NothingBelowFile(root: string, files: map<string, FlatFile>, p: string)
    requires TreeOk(root, files) && p in files && !IsDir(files[p])
    ensures !HasChildBelow(root, files, p)
  {
    hide IsChild, IsDir;
    if HasChildBelow(root, files, p) {
      var x :| x in files && x != root && IsChild(p, x);
      assert HasDirParent(files, x);
      var d :| d in files && IsChild(d, x) && IsDir(files[d]);
      OneParent(d, p, x);
    }
  }

  /** What the kernel guarantees is safe for the tree. */
  lemma VfsIsSafe(root: string, cfg: P.Config, f: Flat, op: Op)
    requires TreeOk(root, f.files) && KindsOk(f) && Vfs(root, cfg, f, op)
    ensures TreeSafe(root, cfg, f, op)
  {
    hide TreeOk, HasDirParent, HasChildBelow, P.IsProc, KindsOk, IsDir;
    match op
    case Unlink(p) =>
      if p in f.files {
        NothingBelowFile(root, f.files, p);
      }
    case Chmod(p, mode) =>
      if p in f.files && !IsDir(f.files[p]) {
        NothingBelowFile(root, f.files, p);
      }
    case Release(h) =>
      if h !in f.procs && h in f.handles && f.handles[h].dirty && Look(f, f.handles[h].snap, f.handles[h].path).Snap? {
        PublishedKind(f, h);
        if !IsDir(f.files[f.handles[h].path]) {
          NothingBelowFile(root, f.files, f.handles[h].path);
        }
      }
    case _ =>
  }

  /** A run of admissible calls that the kernel makes is safe all along. */
  lemma {:induction false} VfsRunIsSafe(root: string, cfg: P.Config, f: Flat, ops: seq<Op>)
    requires P.ConfigOk(cfg) && TreeOk(root, f.files) && KindsOk(f)
    requires AdmissibleAll(cfg, f, ops) && VfsAll(root, cfg, f, ops)
    ensures TreeSafeAll(root, cfg, f, ops)
    decreases |ops|
  {
    hide TreeOk, KindsOk, TreeSafe, Vfs, Admissible, Next;
    if ops != [] {
      VfsIsSafe(root, cfg, f, ops[0]);
      StepKeepsTreeIff(root, cfg, f, ops[0]);
      VfsKeepsKinds(root, cfg, f, ops[0]);
      VfsRunIsSafe(root, cfg, Next(cfg, f, ops[0]), ops[1..]);
    }
  }

  lemma RootTree(cfg: P.Config, now: int)
    ensures TreeOk(P.ConfigurePath(cfg, ""), RootFlat(cfg, now).files) && KindsOk(RootFlat(cfg, now))
  {
    hide P.ConfigurePath;
  }

  /** Tree closure: after any admissible run of calls the kernel makes, from createRootDir on, every live path other than the
      root has a live parent whose newest version is a directory. */
  lemma TreeClosed(cfg: P.Config, now: int, ops: seq<Op>, p: string)
    requires P.ConfigOk(cfg)
    requires AdmissibleAll(cfg, RootFlat(cfg, now), ops)
    requires VfsAll(P.ConfigurePath(cfg, ""), cfg, RootFlat(cfg, now), ops)
    ensures
      var store := Run(cfg, RootState(cfg, now), ops).sys.store;
      Live(store, p) && p != P.ConfigurePath(cfg, "") ==>
        exists d :: && IsChild(d, p) && Live(store, d)
                    && HasBit(ToUint32(MetaOf(FindFile(store, d).value.contentType).mode), F.S_IFDIR)
  {
    hide RootState, RootFlat, Run, NextAll, AdmissibleAll, TreeSafeAll, VfsAll, KindsOk, Rel, IsChild, MetaOf, P.ConfigurePath,
         Print, Parse, Newest,
         F.StatOf, Printed;
    var root := P.ConfigurePath(cfg, "");
    var f := RootFlat(cfg, now);
    RootRel(cfg, now);
    RunRefines(cfg, RootState(cfg, now), f, ops);
    RootTree(cfg, now);
    VfsRunIsSafe(root, cfg, f, ops);
    RunKeepsTree(root, cfg, f, ops);
    var s, f' := Run(cfg, RootState(cfg, now), ops), NextAll(cfg, f, ops);
    LiveBothSides(cfg, s, f', p);
    if Live(s.sys.store, p) && p != root {
      assert HasDirParent(f'.files, p);
      var d :| d in f'.files && IsChild(d, p) && IsDir(f'.files[d]);
      LiveBothSides(cfg, s, f', d);
      PrintedPrint(f'.files[d].meta);
      assert IsChild(d, p) && Live(s.sys.store, d);
    }
  }
}
