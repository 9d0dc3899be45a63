/** The memcached servers shown and added below /proc/instances (proc.h, proc.cpp). */
module ProcServers {
  import opened CTypes
  import opened Decimal
  import opened Paths

  const DEFAULT_PORT := 11211
  const PORTS := 0x1_0000

  datatype Server = Server(host: string, port: int)

  /** The entry memcached_server_add makes; its port parameter has 16 bits. */
  function Stored(lib: Library, s: Server): Server {
    var port := s.port % PORTS;
    Server(if s.host == "" then lib.emptyHost else s.host, if port == 0 then lib.zeroPort else port)
  }

  /** A host and a port that the library keeps as they are. */
  predicate Plain(s: Server) {
    s.host != "" && 1 <= s.port <= 65535
  }

  // ---- names ------------------------------------------------------------------------------

  function PrintServer(s: Server): string {
    s.host + ":" + PrintInt(s.port)
  }

  /** find_last_of(':') */
  function LastColon(s: string): (r: Option<nat>)
    ensures r.Some? ==> r.value < |s| && s[r.value] == ':' && forall i :: r.value < i < |s| ==> s[i] != ':'
    ensures r.None? ==> forall i :: 0 <= i < |s| ==> s[i] != ':'
  {
    if s == "" then None
    else if s[|s| - 1] == ':' then Some(|s| - 1)
    else LastColon(s[..|s| - 1])
  }

  /** Undefined: atoi on a number that does not fit an int. */
  datatype Parse = NoServer | Parsed(server: Server) | Undefined

  function ParseServer(text: string): Parse {
    match LastColon(text)
    case None => Parsed(Server(text, DEFAULT_PORT))
    case Some(i) =>
      if i + 1 == |text| then NoServer else
      match Atoi(text[i + 1..])
      case None => Undefined
      case Some(port) => Parsed(Server(text[..i], port))
  }

  lemma PrintIntHasNoColon(n: int)
    ensures PrintInt(n) != "" && forall i :: 0 <= i < |PrintInt(n)| ==> PrintInt(n)[i] != ':'
  {
    PrintNatDigits(if n >= 0 then n else -n);
  }

  /** Parsing a printed server gives it back, whatever the host contains, exactly when its port fits an int. */
  lemma ServerRoundTrip(s: Server)
    ensures ParseServer(PrintServer(s)) == if -TWO_31 <= s.port < TWO_31 then Parsed(s) else Undefined
  {
    hide PrintInt, Atoi;
    var text := PrintServer(s);
    PrintIntHasNoColon(s.port);
    AtoiPrint(s.port);
    assert text[|s.host|] == ':';
    assert text[|s.host| + 1..] == PrintInt(s.port);
    assert LastColon(text) == Some(|s.host|) by {
      forall i | |s.host| < i < |text|
        ensures text[i] != ':'
      {
        assert text[i] == PrintInt(s.port)[i - |s.host| - 1];
      }
    }
    assert text[..|s.host|] == s.host;
  }

  // ---- adding -----------------------------------------------------------------------------

  datatype Outcome = Added | Refused | Threw | Unspecified

  function Add(lib: Library, servers: seq<Server>, text: string): (seq<Server>, Outcome) {
    match ParseServer(text)
    case NoServer => (servers, Refused)
    case Undefined => (servers, Unspecified)
    case Parsed(s) => if s in servers then (servers, Refused) else (servers + [Stored(lib, s)], Added)
  }

  function AddAll(lib: Library, servers: seq<Server>, texts: seq<string>): seq<Server>
    decreases |texts|
  {
    if texts == [] then servers else AddAll(lib, Add(lib, servers, texts[0]).0, texts[1..])
  }

  predicate Distinct<T(==)>(s: seq<T>) {
    forall i, j :: 0 <= i < j < |s| ==> s[i] != s[j]
  }

  predicate AllPlain(servers: seq<Server>) {
    forall i :: 0 <= i < |servers| ==> Plain(servers[i])
  }

  /** The library keeps a server as it is exactly when it is plain, and what it keeps is always plain. */
  lemma StoredIffPlain(lib: Library, s: Server)
    requires LibraryOk(lib)
    ensures Stored(lib, s) == s <==> Plain(s)
    ensures Plain(Stored(lib, s))
  {
  }

  /** The name of a listed server adds nothing. */
  lemma ListedNameRefused(lib: Library, servers: seq<Server>, s: Server)
    requires AllPlain(servers) && s in servers
    ensures Add(lib, servers, PrintServer(s)) == (servers, Refused)
  {
    hide PrintServer, ParseServer;
    ServerRoundTrip(s);
  }

  /** A second attempt with the same text is refused exactly when the parsed host and port are plain. */
  lemma SecondAddRefusedIffPlain(lib: Library, servers: seq<Server>, text: string)
    requires LibraryOk(lib) && Add(lib, servers, text).1 == Added
    ensures
      var (after, _) := Add(lib, servers, text);
      Add(lib, after, text) == (after, Refused) <==> Plain(ParseServer(text).server)
  {
    hide ParseServer, Stored, Plain;
    StoredIffPlain(lib, ParseServer(text).server);
  }

  /** A text whose port atoi can read. */
  predicate Definite(text: string) {
    !ParseServer(text).Undefined?
  }

  /** A text that either names no server or names a plain one. */
  predicate Harmless(text: string) {
    Definite(text) && (ParseServer(text).Parsed? ==> Plain(ParseServer(text).server))
  }

  /** The outcome is defined and the list has no duplicates. */
  predicate KeepsDistinct(lib: Library, servers: seq<Server>, text: string) {
    var (after, outcome) := Add(lib, servers, text);
    outcome != Unspecified && Distinct(after)
  }

  /** The duplicate check works on every list exactly for the harmless texts. */
  lemma KeepsDistinctIffHarmless(lib: Library, text: string)
    requires LibraryOk(lib)
    ensures
      (forall servers: seq<Server> :: AllPlain(servers) && Distinct(servers) ==> KeepsDistinct(lib, servers, text))
      <==> Harmless(text)
  {
    hide ParseServer, Stored, Plain;
    assert AllPlain([]) && Distinct<Server>([]);
    if ParseServer(text).Parsed? {
      var s := ParseServer(text).server;
      StoredIffPlain(lib, s);
      if !Plain(s) {
        var servers := [Stored(lib, s)];
        assert AllPlain(servers) && Distinct(servers);
        assert Add(lib, servers, text).0 == servers + servers;
        assert (servers + servers)[0] == (servers + servers)[1];
      }
    }
  }

  /** Over any run of texts with readable ports every listed server is plain, and servers are only appended. */
  lemma {:induction false} RunKeepsPlain(lib: Library, servers: seq<Server>, texts: seq<string>)
    requires LibraryOk(lib) && AllPlain(servers) && forall i :: 0 <= i < |texts| ==> Definite(texts[i])
    ensures AllPlain(AddAll(lib, servers, texts))
    ensures servers <= AddAll(lib, servers, texts)
    decreases |texts|
  {
    hide ParseServer, Stored, Plain;
    if texts != [] {
      var p := ParseServer(texts[0]);
      if p.Parsed? {
        StoredIffPlain(lib, p.server);
      }
      RunKeepsPlain(lib, Add(lib, servers, texts[0]).0, texts[1..]);
    }
  }

  /** Over any run of harmless adds the list stays free of duplicates, and each text that names a server ends up listed
      exactly once. */
  lemma {:induction false} RunKeepsDistinct(lib: Library, servers: seq<Server>, texts: seq<string>)
    requires LibraryOk(lib) && AllPlain(servers) && Distinct(servers)
    requires forall i :: 0 <= i < |texts| ==> Harmless(texts[i])
    ensures Distinct(AddAll(lib, servers, texts))
    ensures forall s :: s in AddAll(lib, servers, texts)
                        <==> s in servers || exists i :: 0 <= i < |texts| && ParseServer(texts[i]) == Parsed(s)
    decreases |texts|
  {
    hide ParseServer, Stored, Plain;
    if texts != [] {
      var next := Add(lib, servers, texts[0]).0;
      var p := ParseServer(texts[0]);
      if p.Parsed? {
        StoredIffPlain(lib, p.server);
      }
      RunKeepsDistinct(lib, next, texts[1..]);
      assert forall s :: s in next <==> s in servers || p == Parsed(s);
      assert forall i :: 0 < i < |texts| ==> texts[i] == texts[1..][i - 1];
      assert forall i :: 0 <= i < |texts| - 1 ==> texts[1..][i] == texts[i + 1];
    }
  }

  /** Port 65537 is kept as port 1, so the duplicate check misses it. */
  lemma WrappedPortDuplicates(lib: Library)
    ensures AddAll(lib, [], ["h:1", "h:65537"]) == [Server("h", 1), Server("h", 1)]
  {
    hide PrintServer, ParseServer, PrintInt;
    var a, b := Server("h", 1), Server("h", 65537);
    ServerRoundTrip(a);
    ServerRoundTrip(b);
    Spelling();
    assert ["h:1", "h:65537"][1..] == ["h:65537"];
    assert ["h:65537"][1..] == [];
    assert Add(lib, [], "h:1").0 == [a];
    assert Add(lib, [a], "h:65537").0 == [a, a];
    assert AddAll(lib, [a], ["h:65537"]) == AddAll(lib, [a, a], []);
  }

  lemma Spelling()
    ensures PrintServer(Server("h", 1)) == "h:1" && PrintServer(Server("h", 65537)) == "h:65537"
  {
    assert PrintNat(6) == "6";
    assert PrintNat(65) == "65";
    assert PrintNat(655) == "655";
    assert PrintNat(6553) == "6553";
  }

  // ---- listing ----------------------------------------------------------------------------

  function Names(servers: seq<Server>): (names: seq<string>)
    ensures |names| == |servers|
  {
    seq(|servers|, i requires 0 <= i < |servers| => PrintServer(servers[i]))
  }

  /** Different servers are listed under different names. */
  lemma NamesDistinct(servers: seq<Server>)
    requires AllPlain(servers)
    ensures Distinct(Names(servers)) <==> Distinct(servers)
  {
    hide PrintServer, ParseServer, AllPlain;
    var names := Names(servers);
    forall i, j | 0 <= i < j < |servers|
      ensures names[i] == names[j] <==> servers[i] == servers[j]
    {
      assert Plain(servers[i]) && Plain(servers[j]) by { PlainAt(servers, i); PlainAt(servers, j); }
      ServerRoundTrip(servers[i]);
      ServerRoundTrip(servers[j]);
    }
  }

  lemma PlainAt(servers: seq<Server>, i: nat)
    requires AllPlain(servers) && i < |servers|
    ensures Plain(servers[i])
  {
  }

  /** Opening every listed name, in any order and any number of times, changes nothing. */
  lemma {:induction false} ListedNamesChangeNothing(lib: Library, servers: seq<Server>, texts: seq<string>)
    requires AllPlain(servers)
    requires forall i :: 0 <= i < |texts| ==> texts[i] in Names(servers)
    ensures AddAll(lib, servers, texts) == servers
    decreases |texts|
  {
    hide PrintServer, Add;
    if texts != [] {
      assert texts[0] in Names(servers);
      var k :| 0 <= k < |servers| && Names(servers)[k] == texts[0];
      ListedNameRefused(lib, servers, servers[k]);
      ListedNamesChangeNothing(lib, servers, texts[1..]);
    }
  }

  /** A text without a colon names a server on port 11211: refused if listed, and appended otherwise. */
  lemma BareHostAdds(lib: Library, servers: seq<Server>, text: string)
    requires ':' !in text && text != ""
    ensures Add(lib, servers, text)
         == if Server(text, 11211) in servers then (servers, Refused) else (servers + [Server(text, 11211)], Added)
  {
    hide Atoi;
    assert ParseServer(text) == Parsed(Server(text, 11211));
  }

  /** The last colon separates host and port: with a port in 1..65535 the server is refused if listed, and appended
      otherwise. */
  lemma HostAndPortAdds(lib: Library, servers: seq<Server>, host: string, port: nat)
    requires host != "" && 1 <= port <= 65535
    ensures Add(lib, servers, host + ":" + PrintNat(port))
         == if Server(host, port) in servers then (servers, Refused) else (servers + [Server(host, port)], Added)
  {
    hide ParseServer;
    ServerRoundTrip(Server(host, port));
  }

  // ---- paths ------------------------------------------------------------------------------

  datatype Kind = Root | Instances | ListInstances

  function InstancesPrefix(cfg: Config): string {
    ProcPrefix(cfg) + "/instances/"
  }

  /** None: the constructor sets no type. */
  function Classify(cfg: Config, path: string): Option<Kind> {
    if path == ProcPrefix(cfg) then Some(Root)
    else if path == ProcPrefix(cfg) + "/instances" then Some(Instances)
    else if InstancesPrefix(cfg) <= path then Some(ListInstances)
    else None
  }

  /** Only proc paths are classified: the proc directory, instances in it, and whatever lies below that. */
  lemma ClassifiedIsProc(cfg: Config, path: string)
    ensures Classify(cfg, path) == Some(Root) <==> path == cfg.pathPrefix + "/proc"
    ensures Classify(cfg, path) == Some(Instances) <==> path == cfg.pathPrefix + "/proc/instances"
    ensures Classify(cfg, path) == Some(ListInstances) <==> exists text :: path == cfg.pathPrefix + "/proc/instances/" + text
    ensures Classify(cfg, path).Some? ==> IsProc(cfg, path)
  {
    IsProcMeansBelow(cfg, path);
    var proc := ProcPrefix(cfg);
    assert proc + "/instances/" == proc + "/" + "instances/" && proc + "/instances" == proc + "/" + "instances";
    assert cfg.pathPrefix + "/proc/instances" == proc + "/instances";
    assert cfg.pathPrefix + "/proc/instances/" == InstancesPrefix(cfg);
    if InstancesPrefix(cfg) <= path {
      assert path == InstancesPrefix(cfg) + path[|InstancesPrefix(cfg)|..];
    }
    assert |InstancesPrefix(cfg)| > |proc + "/instances"| > |proc|;
  }

  /** Proc::list; None where it comes to the assert. */
  function ListOf(kind: Kind, servers: seq<Server>, asserts: bool): Option<seq<string>> {
    match kind
    case Root => Some([".", "..", "instances"])
    case Instances => Some([".", ".."] + Names(servers))
    case ListInstances => if asserts then None else Some([".", ".."])
  }

  /** What Proc::create does on a path: substr throws past the end, and the kind of the path is not looked at. */
  function CreateOn(cfg: Config, servers: seq<Server>, path: string): (seq<Server>, Outcome) {
    var n := |InstancesPrefix(cfg)|;
    if n > |path| then (servers, Threw) else Add(cfg.library, servers, path[n..])
  }

  /** The call does something defined and leaves the list alone. */
  predicate AddsNothing(cfg: Config, servers: seq<Server>, path: string) {
    CreateOn(cfg, servers, path).1 != Unspecified && CreateOn(cfg, servers, path).0 == servers
  }

  /** A path of whatever kind adds nothing to any list if and only if it is shorter than the prefix of the instances, or
      what stands behind that many characters ends in a colon. */
  lemma AddsNothingIff(cfg: Config, path: string)
    ensures
      (forall servers :: AddsNothing(cfg, servers, path)) <==>
      var n := |InstancesPrefix(cfg)|;
      |path| < n || (|path| > n && path[|path| - 1] == ':')
  {
    hide InstancesPrefix, Atoi;
    var n := |InstancesPrefix(cfg)|;
    if n <= |path| {
      NoServerIff(path[n..]);
      if !ParseServer(path[n..]).NoServer? {
        assert !AddsNothing(cfg, [], path);
      }
    }
  }

  lemma NoServerIff(text: string)
    ensures ParseServer(text).NoServer? <==> text != "" && text[|text| - 1] == ':'
  {
    hide Atoi;
  }

  /** So a path in another directory of proc adds a server too, when the directory's name is as long as "instances". */
  lemma OtherDirectoryAdds(cfg: Config, servers: seq<Server>, dir: string, text: string)
    requires |dir| == |"instances"| && dir != "instances"
    ensures
      var path := ProcPrefix(cfg) + "/" + dir + "/" + text;
      && IsProc(cfg, path) && Classify(cfg, path) == None
      && CreateOn(cfg, servers, path) == CreateOn(cfg, servers, InstancesPrefix(cfg) + text)
      && CreateOn(cfg, servers, path) == Add(cfg.library, servers, text)
  {
    var proc := ProcPrefix(cfg);
    var path := proc + "/" + dir + "/" + text;
    assert path == proc + "/" + (dir + "/" + text);
    IsProcMeansBelow(cfg, path);
    assert path[|proc| + 1..|proc| + 1 + |dir|] == dir;
    ListedDirectory(cfg, path);
    assert |path| > |proc| + |"/instances"|;
    assert path[|InstancesPrefix(cfg)|..] == text;
    assert (InstancesPrefix(cfg) + text)[|InstancesPrefix(cfg)|..] == text;
  }

  lemma ListedDirectory(cfg: Config, path: string)
    requires |path| >= |InstancesPrefix(cfg)|
    ensures
      var n := |ProcPrefix(cfg)| + 1;
      InstancesPrefix(cfg) <= path ==> path[n..n + |"instances"|] == "instances"
  {
    var n := |ProcPrefix(cfg)| + 1;
    var prefix := InstancesPrefix(cfg);
    assert prefix[n..n + |"instances"|] == "instances";
    assert path[..|prefix|][n..n + |"instances"|] == path[n..n + |"instances"|];
  }

  // ---- the objects ------------------------------------------------------------------------

  /** memcached_st, the master list of servers. */
  class Master {
    const lib: Library
    var servers: seq<Server>

    constructor (lib: Library)
      ensures this.lib == lib && servers == []
    {
      this.lib := lib;
      servers := [];
    }

    method ServerAdd(host: string, port: int)
      modifies this
      ensures servers == old(servers) + [Stored(lib, Server(host, port))]
    {
      servers := servers + [Stored(lib, Server(host, port))];
    }
  }

  class Proc {
    const cfg: Config
    const thePath: string
    const theType: Option<Kind>
    const thePrefixLength: nat

    ghost predicate Valid() {
      thePrefixLength == |InstancesPrefix(cfg)| && theType == Classify(cfg, thePath)
    }

    constructor (cfg: Config, path: string)
      ensures Valid() && this.cfg == cfg && thePath == path
    {
      this.cfg := cfg;
      thePath := path;
      thePrefixLength := |InstancesPrefix(cfg)|;
      if path == ProcPrefix(cfg) {
        theType := Some(Root);
      } else if path == ProcPrefix(cfg) + "/instances" {
        theType := Some(Instances);
      } else if InstancesPrefix(cfg) <= path {
        theType := Some(ListInstances);
      } else {
        theType := None;
      }
    }

    method Create(master: Master) returns (r: Outcome)
      requires Valid() && master.lib == cfg.library
      modifies master
      ensures (master.servers, r) == CreateOn(cfg, old(master.servers), thePath)
    {
      if thePrefixLength > |thePath| {
        return Threw;
      }
      var newServer := thePath[thePrefixLength..];
      var newPort := DEFAULT_PORT;
      var colon := LastColon(newServer);
      if colon.Some? {
        if colon.value >= |newServer| - 1 {
          return Refused;
        }
        var tmp := newServer[colon.value + 1..];
        newServer := newServer[..colon.value];
        var port := Atoi(tmp);
        if port.None? {
          return Unspecified;
        }
        newPort := port.value;
      }
      var i := 0;
      while i < |master.servers|
        invariant 0 <= i <= |master.servers|
        invariant Server(newServer, newPort) !in master.servers[..i]
      {
        if newServer == master.servers[i].host && newPort == master.servers[i].port {
          return Refused;
        }
        i := i + 1;
      }
      master.ServerAdd(newServer, newPort);
      return Added;
    }

    /** list on a path that has a kind. */
    method List(master: Master) returns (filled: Option<seq<string>>)
      requires Valid() && theType.Some?
      ensures filled == ListOf(theType.value, master.servers, cfg.asserts)
    {
      var out := [".", ".."];
      if theType == Some(Root) {
        out := out + ["instances"];
        assert out == [".", "..", "instances"];
      } else if theType == Some(Instances) {
        var names := ListServers(master);
        out := out + names;
      } else if cfg.asserts {
        return None;
      }
      return Some(out);
    }

    method ListServers(master: Master) returns (names: seq<string>)
      ensures names == Names(master.servers)
    {
      names := [];
      var i := 0;
      while i < |master.servers|
        invariant 0 <= i <= |master.servers|
        invariant names == Names(master.servers)[..i]
      {
        names := names + [master.servers[i].host + ":" + PrintInt(master.servers[i].port)];
        i := i + 1;
      }
    }
  }
}
