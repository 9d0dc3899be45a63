/** What a mount is configured with, and the paths it derives from that. */
module Paths {
  import opened CTypes

  /** What memcached_server_add puts in place of an empty host name and of port 0. */
  datatype Library = Library(emptyHost: string, zeroPort: int)

  predicate LibraryOk(lib: Library) {
    lib.emptyHost != "" && 1 <= lib.zeroPort <= 65535
  }

  /** `asserts` tells whether assert() is compiled in, `missingThrows` whether the driver throws when a grid file that does
      not exist is asked for a field; otherwise it answers 0 for the length and the chunk size, and nothing defined for the
      content type. */
  datatype Config = Config(pathPrefix: string, uid: nat, gid: nat, chunkSize: nat, asserts: bool, missingThrows: bool,
                           library: Library)

  predicate ConfigOk(cfg: Config) {
    cfg.uid < TWO_32 && cfg.gid < TWO_32 && 0 < cfg.chunkSize < TWO_31 && LibraryOk(cfg.library)
  }

  /** configure_path */
  function ConfigurePath(cfg: Config, path: string): string {
    var p := cfg.pathPrefix + path;
    if p != "" && p[|p| - 1] == '/' then p[..|p| - 1] else p
  }

  function ProcPrefix(cfg: Config): string {
    cfg.pathPrefix + "/proc"
  }

  /** is_proc, with std::string::compare(0, n, prefix) against the whole prefix. */
  predicate IsProc(cfg: Config, path: string) {
    var prefix := ProcPrefix(cfg);
    var min := Min(|path|, |prefix|);
    && path != ""
    && path[..min] == prefix
    && (|path| > |prefix| ==> path[|prefix|] == '/')
  }

  /** The proc tree is the proc directory and everything below it. */
  lemma IsProcMeansBelow(cfg: Config, path: string)
    ensures IsProc(cfg, path) <==> path == ProcPrefix(cfg) || ProcPrefix(cfg) + "/" <= path
  {
    var prefix := ProcPrefix(cfg);
    if prefix + "/" <= path {
      assert path[|prefix|] == (prefix + "/")[|prefix|];
      assert path[..|prefix|] == (prefix + "/")[..|prefix|];
    }
    if IsProc(cfg, path) && path != prefix {
      assert |path| > |prefix|;
      assert path[..|prefix| + 1] == prefix + "/";
    }
  }

  /** A path as the kernel passes it: the root, or a slash and something that does not end in one. */
  predicate KernelPath(p: string) {
    p == "/" || (p != "" && p[0] == '/' && p[|p| - 1] != '/')
  }

  /** Different paths of the kernel are different paths in the store. */
  lemma ConfigurePathInjective(cfg: Config, p: string, q: string)
    requires KernelPath(p) && KernelPath(q) && ConfigurePath(cfg, p) == ConfigurePath(cfg, q)
    ensures p == q
  {
    ConfiguredIs(cfg, p);
    ConfiguredIs(cfg, q);
    var a, b := if p == "/" then "" else p, if q == "/" then "" else q;
    assert a == (cfg.pathPrefix + a)[|cfg.pathPrefix|..] == (cfg.pathPrefix + b)[|cfg.pathPrefix|..] == b;
  }

  lemma ConfiguredIs(cfg: Config, p: string)
    requires KernelPath(p)
    ensures ConfigurePath(cfg, p) == cfg.pathPrefix + if p == "/" then "" else p
  {
    var whole := cfg.pathPrefix + p;
    assert whole[|whole| - 1] == p[|p| - 1];
    if p == "/" {
      assert whole[..|whole| - 1] == cfg.pathPrefix + "";
    }
  }

  /** Whatever the prefix, the kernel sees the proc tree at /proc and below. */
  lemma ProcSeenByKernel(cfg: Config, p: string)
    requires KernelPath(p)
    ensures IsProc(cfg, ConfigurePath(cfg, p)) <==> p == "/proc" || "/proc/" <= p
  {
    hide IsProc, ConfigurePath;
    ConfiguredIs(cfg, p);
    var rest := if p == "/" then "" else p;
    IsProcMeansBelow(cfg, cfg.pathPrefix + rest);
    assert ProcPrefix(cfg) + "/" == cfg.pathPrefix + "/proc/";
    SamePrefix(cfg.pathPrefix, "/proc", rest);
    SamePrefix(cfg.pathPrefix, "/proc/", rest);
  }

  lemma SamePrefix(pre: string, x: string, y: string)
    ensures pre + x == pre + y <==> x == y
    ensures pre + x <= pre + y <==> x <= y
  {
    assert (pre + x)[|pre|..] == x && (pre + y)[|pre|..] == y;
    if pre + x <= pre + y {
      assert (pre + y)[..|pre + x|][|pre|..] == x && (pre + y)[..|pre + x|][|pre|..] == y[..|x|];
    }
    if x <= y {
      assert (pre + y)[..|pre + x|] == pre + y[..|x|];
    }
  }
}
