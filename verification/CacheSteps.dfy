/** One caller alone: run without interruption, the steps of ConcurrentCache are the sequential operations of FuseSpec. */
module CacheSteps {
  import opened CTypes
  import opened Chunks
  import opened ContentType
  import opened GridStore
  import opened ConcurrentCache
  import F = FuseSpec
  import H = Handles
  import P = Paths

  /** The attributes a store has for a path, if its newest version can be read. */
  function StatIn(cfg: P.Config, store: Store, p: string): Option<F.Stat> {
    match FindFile(store, p)
    case None => None
    case Some(d) => F.StatOf(cfg, d)
  }

  predicate Shows(m: map<string, F.Stat>, p: string, stat: Option<F.Stat>) {
    if stat.Some? then p in m && m[p] == stat.value else p !in m
  }

  /** The concurrent state shows the store's readable paths and the same cache. */
  ghost predicate Abstracts(cfg: P.Config, sys: F.Sys, s: State) {
    s.cache == sys.cache && forall p :: Shows(s.store, p, StatIn(cfg, sys.store, p))
  }

  lemma OneStep(s: State, a: Step)
    requires Enabled(s, a)
    ensures EnabledAll(s, [a]) && Run(s, [a]) == Next(s, a)
  {
    hide Enabled, Next;
    assert [a][1..] == [];
  }

  lemma TwoSteps(s: State, a: Step, b: Step)
    requires Enabled(s, a)
    requires var s1 := Next(s, a); Enabled(s1, b)
    ensures EnabledAll(s, [a, b]) && Run(s, [a, b]) == Next(Next(s, a), b)
  {
    hide Enabled, Next, Run, EnabledAll, Disciplined;
    OneStep(Next(s, a), b);
    RunOne(s, a, [b], "");
    assert [a] + [b] == [a, b];
  }

  /** getattr outside proc is a lookup and, on a miss, a store read and a fill. */
  lemma GetattrIsSteps(cfg: P.Config, sys: F.Sys, s: State, p: string, t: nat) returns (steps: seq<Step>)
    requires Abstracts(cfg, sys, s) && At(s, t).Idle? && !P.IsProc(cfg, p)
    ensures EnabledAll(s, steps) && At(Run(s, steps), t).Idle?
    ensures
      var (sys', r) := F.Getattr(cfg, sys, p);
      var s' := Run(s, steps);
      && Abstracts(cfg, sys', s')
      && (r.Attr? <==> p in s.cache || p in s.store)
      && (r.Attr? ==> p in s'.cache && s'.cache[p] == r.stat)
  {
    hide F.StatOf, P.IsProc, Run, EnabledAll, Newest;
    assert Shows(s.store, p, StatIn(cfg, sys.store, p));
    var look := Lookup(t, p);
    if p in s.cache {
      steps := [look];
      OneStep(s, look);
    } else if p !in s.store {
      steps := [look, ReadStore(t)];
      TwoSteps(s, look, ReadStore(t));
    } else {
      steps := [look, ReadStore(t)] + [Fill(t)];
      var s2 := Next(Next(s, look), ReadStore(t));
      OneStep(s2, Fill(t));
      TwoSteps(Next(s, look), ReadStore(t), Fill(t));
      RunOne(s, look, [ReadStore(t), Fill(t)], p);
      assert [look] + [ReadStore(t), Fill(t)] == steps;
    }
  }

  /** A call that changes the newest version of one path and drops what is cached for it. */
  ghost predicate WritesOne(sys: F.Sys, sys': F.Sys, p: string) {
    sys'.cache == sys.cache - {p} && forall q :: q != p ==> FindFile(sys'.store, q) == FindFile(sys.store, q)
  }

  /** Such a call is a store write and a cache delete. */
  lemma MutatorIsSteps(cfg: P.Config, sys: F.Sys, sys': F.Sys, s: State, p: string, t: nat)
    requires Abstracts(cfg, sys, s) && At(s, t).Idle? && WritesOne(sys, sys', p)
    ensures
      var steps := [Mutate(t, p, StatIn(cfg, sys'.store, p)), Delete(t)];
      EnabledAll(s, steps) && Abstracts(cfg, sys', Run(s, steps)) && At(Run(s, steps), t).Idle?
  {
    hide F.StatOf, Run, EnabledAll, Newest, Cross;
    var write := Mutate(t, p, StatIn(cfg, sys'.store, p));
    TwoSteps(s, write, Delete(t));
    var s' := Next(Next(s, write), Delete(t));
    forall q
      ensures Shows(s'.store, q, StatIn(cfg, sys'.store, q))
    {
      assert Shows(s.store, q, StatIn(cfg, sys.store, q));
    }
  }

  /** unlink, rmdir, chmod, chown, utimens and truncate are such calls when they succeed, and so is a release that has
      something to publish. */
  lemma MutatorsWriteOne(cfg: P.Config, sys: F.Sys, p: string, mode: nat, uid: nat, gid: nat, time: int)
    requires P.ConfigOk(cfg) && StoreOk(cfg.chunkSize, sys.store) && !P.IsProc(cfg, p)
    ensures F.Unlink(sys, p).1.Success? ==> WritesOne(sys, F.Unlink(sys, p).0, p)
    ensures F.Rmdir(sys, p).1.Success? ==> WritesOne(sys, F.Rmdir(sys, p).0, p)
    ensures F.Chmod(cfg, sys, p, mode).1.Success? ==> WritesOne(sys, F.Chmod(cfg, sys, p, mode).0, p)
    ensures F.Chown(cfg, sys, p, uid, gid).1.Success? ==> WritesOne(sys, F.Chown(cfg, sys, p, uid, gid).0, p)
    ensures F.Utimens(cfg, sys, p, time).1.Success? ==> WritesOne(sys, F.Utimens(cfg, sys, p, time).0, p)
    ensures F.Truncate(sys, p, 0).1.Success? ==> WritesOne(sys, F.Truncate(sys, p, 0).0, p)
  {
    hide StoreOk, RemoveFile, Parse, Print, P.IsProc;
    RemoveFileOk(cfg.chunkSize, sys.store, p);
    if Live(sys.store, p) {
      var id := FindFile(sys.store, p).value.id;
      forall text: Option<string>, length: Option<nat>
        ensures forall q :: q != p ==>
                  FindFile(sys.store.(docs := Patch(sys.store.docs, id, text, length)), q) == FindFile(sys.store, q)
      {
        PatchOthers(cfg.chunkSize, sys.store, p, text, length);
      }
    }
  }

  lemma PatchOthers(cs: nat, s: Store, p: string, text: Option<string>, length: Option<nat>)
    requires cs > 0 && StoreOk(cs, s) && Live(s, p)
    ensures
      var s' := s.(docs := Patch(s.docs, FindFile(s, p).value.id, text, length));
      forall q :: q != p ==> FindFile(s', q) == FindFile(s, q)
  {
    hide Split, Concat, Printed;
    var id := FindFile(s, p).value.id;
    NewestIn(s.docs, p);
    forall q | q != p
      ensures Newest(Patch(s.docs, id, text, length), q) == Newest(s.docs, q)
    {
      NewestPatch(s.docs, id, text, length, q);
      NewestIn(s.docs, q);
    }
  }

  lemma ReleaseWritesOne(cfg: P.Config, sys: F.Sys, h: H.Handle)
    requires P.ConfigOk(cfg) && h.hasChanges && F.Release(cfg, sys, h).1.Success?
    ensures WritesOne(sys, F.Release(cfg, sys, h).0, h.path)
  {
    hide Split, Newest;
    var d := H.Load(h, sys.store).snap.doc.value;
    var data := h.data[..h.written];
    forall q | q != h.path
      ensures FindFile(F.Release(cfg, sys, h).0.store, q) == FindFile(sys.store, q)
    {
      NewestAppend(sys.store.docs, Doc(sys.store.nextId, h.path, d.contentType, |data|, cfg.chunkSize), q);
    }
  }

  /** And so is the release of an open proc path. */
  lemma ProcReleaseWritesOne(sys: F.Sys, p: string)
    ensures F.ReleaseProc(sys, p).1.Success? && WritesOne(sys, F.ReleaseProc(sys, p).0, p)
    ensures F.ReleaseProc(sys, p).0.store == sys.store && F.ReleaseProc(sys, p).0.servers == sys.servers
  {
  }

  /** create, mkdir and symlink on an absent path are a look that finds nothing and a store write. */
  lemma CreatorIsSteps(cfg: P.Config, sys: F.Sys, s: State, p: string, mode: nat, now: int, content: string, t: nat)
    requires P.ConfigOk(cfg) && Abstracts(cfg, sys, s) && At(s, t).Idle?
    requires FindFile(sys.store, p).None? && InRange(Meta(mode, cfg.uid, cfg.gid, now))
    ensures
      var sys' := F.CreateEntry(cfg, sys, p, mode, now, content);
      && StatIn(cfg, sys'.store, p).Some?
      && var steps := [FindNone(t, p), CreateNew(t, p, StatIn(cfg, sys'.store, p).value)];
         EnabledAll(s, steps) && Abstracts(cfg, sys', Run(s, steps)) && At(Run(s, steps), t).Idle?
  {
    hide Run, EnabledAll, Newest, Cross, Parse, Print, Split;
    var m := Meta(mode, cfg.uid, cfg.gid, now);
    var sys' := F.CreateEntry(cfg, sys, p, mode, now, content);
    var d := Doc(sys.store.nextId, p, Print(m), |content|, cfg.chunkSize);
    RoundTripIffInRange(m, cfg.uid, cfg.gid);
    forall q
      ensures FindFile(sys'.store, q) == if q == p then Some(d) else FindFile(sys.store, q)
    {
      NewestAppend(sys.store.docs, d, q);
    }
    hide F.StatOf;
    var stat := StatIn(cfg, sys'.store, p).value;
    assert Shows(s.store, p, StatIn(cfg, sys.store, p));
    TwoSteps(s, FindNone(t, p), CreateNew(t, p, stat));
    var s' := Next(Next(s, FindNone(t, p)), CreateNew(t, p, stat));
    forall q
      ensures Shows(s'.store, q, StatIn(cfg, sys'.store, q))
    {
      assert Shows(s.store, q, StatIn(cfg, sys.store, q));
    }
  }
}
