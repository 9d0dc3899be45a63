/** What single calls do, in the numbers and texts a user of the file system sees. */
module Numbers {
  import opened CTypes
  import opened ContentType
  import opened Decimal
  import opened GridStore
  import opened PathRegex
  import opened FlatSpec
  import opened Refinement
  import opened Theorems
  import Directory
  import F = FuseSpec
  import P = Paths
  import PS = ProcServers
  import R = Regex

  // ---- modes and attributes in numbers ----------------------------------------------------

  /** getattr of a live path: the four stored values, two links and one block for a directory, and otherwise one link and
      the number of bytes. */
  lemma GetattrInNumbers(cfg: P.Config, s: State, f: Flat, p: string)
    requires P.ConfigOk(cfg) && Rel(cfg, s, f) && p in f.files && InRange(f.files[p].meta) && !P.IsProc(cfg, p)
    ensures
      var m := f.files[p].meta;
      var dir := m.mode % 0x8000 >= 0x4000;
      Step(cfg, s, Getattr(p)).1
      == F.Attr(F.Stat(m.mode, m.uid, m.gid, m.time, if dir then 2 else 1, if dir then 4096 else |f.files[p].bytes|))
  {
    hide Rel, Step, HasBit, P.IsProc;
    StepRefines(cfg, s, f, Getattr(p));
    TypeBits(f.files[p].meta.mode);
  }

  /** getattr on proc: the proc directory and its instances are directories, what lies below those is a file. */
  lemma ProcGetattrInNumbers(cfg: P.Config, sys: F.Sys, p: string)
    requires p !in sys.cache && P.IsProc(cfg, p)
    ensures p == cfg.pathPrefix + "/proc" || p == cfg.pathPrefix + "/proc/instances" ==>
              F.Getattr(cfg, sys, p) == (sys, F.ProcAttr(0x4000, cfg.uid, cfg.gid))
    ensures cfg.pathPrefix + "/proc/instances/" <= p ==>
              F.Getattr(cfg, sys, p) == (sys, F.ProcAttr(0x8000, cfg.uid, cfg.gid))
    ensures
      || p == cfg.pathPrefix + "/proc" || p == cfg.pathPrefix + "/proc/instances"
      || cfg.pathPrefix + "/proc/instances/" <= p
      || F.Getattr(cfg, sys, p).1 == F.Unspecified
  {
    hide P.IsProc, PS.Classify;
    Kinds(cfg, p);
    assert cfg.pathPrefix + "/proc/instances" + "/" == cfg.pathPrefix + "/proc/instances/";
  }

  /** The newest version of a path holds these values. */
  predicate Holds(s: State, p: string, m: Meta) {
    FindFile(s.sys.store, p).Some? && FindFile(s.sys.store, p).value.contentType == Print(m)
  }

  predicate Answers(cfg: P.Config, s: State, p: string, stat: F.Stat)
    requires P.ConfigOk(cfg)
  {
    Step(cfg, s, Getattr(p)).1 == F.Attr(stat)
  }

  predicate NewPath(cfg: P.Config, f: Flat, p: string, now: int) {
    && p !in f.files && !P.IsProc(cfg, p) && -2147483648 <= now <= 2147483647
    && cfg.uid <= 2147483647 && cfg.gid <= 2147483647
  }

  /** create, mkdir and symlink on a new path, for permission bits below 0x1000: what they store, and what getattr answers. */
  lemma CreatedInNumbers(cfg: P.Config, s: State, f: Flat, p: string, mode: nat, now: int, h: nat)
    requires P.ConfigOk(cfg) && Rel(cfg, s, f) && NewPath(cfg, f, p, now) && mode < 0x1000 && FreeHandle(f, h)
    ensures
      var s' := Step(cfg, s, Create(p, mode, now, h)).0;
      && Holds(s', p, Meta(0x8000 + mode, cfg.uid, cfg.gid, now))
      && Answers(cfg, s', p, F.Stat(0x8000 + mode, cfg.uid, cfg.gid, now, 1, 0))
  {
    TypeBits(mode);
    hide Rel, Step, Holds, Answers, P.IsProc, HasBit, OrBit, AddServer, HasChild, HasRepeat;
    assert Next(cfg, f, Create(p, mode, now, h)).files[p] == FlatFile(Meta(0x8000 + mode, cfg.uid, cfg.gid, now), "");
    NewInNumbers(cfg, s, f, Create(p, mode, now, h), Meta(0x8000 + mode, cfg.uid, cfg.gid, now), "");
  }

  lemma MadeInNumbers(cfg: P.Config, s: State, f: Flat, p: string, mode: nat, now: int)
    requires P.ConfigOk(cfg) && Rel(cfg, s, f) && NewPath(cfg, f, p, now) && mode < 0x1000
    ensures
      var s' := Step(cfg, s, Mkdir(p, mode, now)).0;
      && Holds(s', p, Meta(0x4000 + mode, cfg.uid, cfg.gid, now))
      && Answers(cfg, s', p, F.Stat(0x4000 + mode, cfg.uid, cfg.gid, now, 2, 4096))
  {
    TypeBits(mode);
    hide Rel, Step, Holds, Answers, P.IsProc, HasBit, OrBit, AddServer, HasChild, HasRepeat;
    assert Next(cfg, f, Mkdir(p, mode, now)).files[p] == FlatFile(Meta(0x4000 + mode, cfg.uid, cfg.gid, now), "");
    NewInNumbers(cfg, s, f, Mkdir(p, mode, now), Meta(0x4000 + mode, cfg.uid, cfg.gid, now), "");
  }

  lemma LinkedInNumbers(cfg: P.Config, s: State, f: Flat, target: string, p: string, now: int)
    requires P.ConfigOk(cfg) && Rel(cfg, s, f) && NewPath(cfg, f, p, now) && |target| < TWO_63
    ensures
      var s' := Step(cfg, s, Symlink(target, p, now)).0;
      && Holds(s', p, Meta(0xA1FF, cfg.uid, cfg.gid, now))
      && Answers(cfg, s', p, F.Stat(0xA1FF, cfg.uid, cfg.gid, now, 1, |target|))
  {
    hide Rel, Step, Holds, Answers, P.IsProc, AddServer, HasChild, HasRepeat;
    NewInNumbers(cfg, s, f, Symlink(target, p, now), Meta(0xA1FF, cfg.uid, cfg.gid, now), target);
  }

  lemma NewInNumbers(cfg: P.Config, s: State, f: Flat, op: Op, m: Meta, bytes: string)
    requires P.ConfigOk(cfg) && Rel(cfg, s, f) && Admissible(cfg, f, op) && (op.Create? || op.Mkdir? || op.Symlink?)
    requires
      var f' := Next(cfg, f, op);
      op.path in f'.files && f'.files[op.path] == FlatFile(m, bytes) && InRange(m) && !P.IsProc(cfg, op.path)
    ensures
      var s' := Step(cfg, s, op).0;
      var dir := m.mode % 0x8000 >= 0x4000;
      && Holds(s', op.path, m)
      && Answers(cfg, s', op.path,
                 F.Stat(m.mode, m.uid, m.gid, m.time, if dir then 2 else 1, if dir then 4096 else |bytes|))
  {
    hide Rel, Step, Next, Print, Newest, Live, P.IsProc;
    StepRefines(cfg, s, f, op);
    var s', f' := Step(cfg, s, op).0, Next(cfg, f, op);
    LiveBothSides(cfg, s', f', op.path);
    GetattrInNumbers(cfg, s', f', op.path);
    assert Live(s'.sys.store, op.path) ==> FindFile(s'.sys.store, op.path).Some? by { LiveIsFound(s'.sys.store, op.path); }
  }

  lemma LiveIsFound(s: Store, p: string)
    ensures Live(s, p) <==> FindFile(s, p).Some?
  {
  }

  /** The root that createRootDir makes. */
  lemma RootInNumbers(cfg: P.Config, now: int)
    requires P.ConfigOk(cfg) && cfg.uid <= 2147483647 && cfg.gid <= 2147483647 && -2147483648 <= now <= 2147483647
    requires !P.IsProc(cfg, P.ConfigurePath(cfg, ""))
    ensures
      var root := P.ConfigurePath(cfg, "");
      && Holds(RootState(cfg, now), root, Meta(0x41ED, cfg.uid, cfg.gid, now))
      && Answers(cfg, RootState(cfg, now), root, F.Stat(0x41ED, cfg.uid, cfg.gid, now, 2, 4096))
  {
    hide Rel, Step, Print, Newest, Live, P.IsProc, P.ConfigurePath, RootState;
    var f, root := RootFlat(cfg, now), P.ConfigurePath(cfg, "");
    RootRel(cfg, now);
    TypeBits(F.ROOT_MODE);
    assert f.files[root] == FlatFile(Meta(0x41ED, cfg.uid, cfg.gid, now), "");
    LiveBothSides(cfg, RootState(cfg, now), f, root);
    GetattrInNumbers(cfg, RootState(cfg, now), f, root);
    LiveIsFound(RootState(cfg, now).sys.store, root);
  }

  // ---- directories with counted repeats ---------------------------------------------------

  /** rmdir of a live directory with one character repeated {n} times in its path looks into another directory. */
  lemma CountedRmdir(sys: F.Sys, p: string, c: char, a: string, q: string)
    requires '{' !in p && c != '{' && '{' !in q && R.Numeral(a) && Digits(a, 0) <= 65535
    requires Live(sys.store, p + [c] + "{" + a + "}" + q)
    ensures F.Rmdir(sys, p + [c] + "{" + a + "}" + q).1
         == if Directory.NoLiveChild(sys.store, p + Times([c], Digits(a, 0)) + q) then F.Success else F.Err(F.ENOTEMPTY)
  {
    hide Live, Directory.IsEmpty, Directory.NoLiveChild, Digits, Times;
    Directory.CountedEmptyIff(sys.store, p, c, a, q);
  }

  /** readdir of such a live directory fails with EIO exactly when the other one has a live child no longer than the path. */
  lemma CountedReaddir(cfg: P.Config, sys: F.Sys, p: string, c: char, a: string, q: string)
    requires '{' !in p && c != '{' && '{' !in q && R.Numeral(a) && Digits(a, 0) <= 65535
    requires
      var path := p + [c] + "{" + a + "}" + q;
      Live(sys.store, path) && !P.IsProc(cfg, path)
    ensures
      var path, other := p + [c] + "{" + a + "}" + q, p + Times([c], Digits(a, 0)) + q;
      F.Readdir(cfg, sys, path) == F.Err(F.EIO) <==> exists x :: IsChild(other, x) && Live(sys.store, x) && |x| <= |path|
  {
    hide Live, Directory.Listing, IsChild, Digits, Times, P.IsProc;
    Directory.CountedListingThrows(sys.store, p, c, a, q);
  }

  /** So a directory that is not empty is removed. */
  lemma CountedRmdirExample(cs: nat, cache: map<string, F.Stat>, servers: seq<PS.Server>)
    requires cs > 0
    ensures
      var sys := F.Sys(Directory.TwoPaths("/d{2}", "/d{2}/x", cs), cache, servers);
      Live(sys.store, "/d{2}/x") && IsChild("/d{2}", "/d{2}/x") && F.Rmdir(sys, "/d{2}").1 == F.Success
  {
    hide Live, Directory.IsEmpty, Directory.TwoPaths;
    Directory.CountedExample(cs);
    Directory.TwoPathsLive("/d{2}", "/d{2}/x", cs);
  }
}
