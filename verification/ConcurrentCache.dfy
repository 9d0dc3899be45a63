/** The attribute cache with concurrent callers: getattr is lookup, store read, fill; a mutator is store write, cache
    delete; create, mkdir and symlink are a look that finds nothing and a store write, and never delete. What a mutator
    writes may be anything, so the time of its own look does not matter. */
module ConcurrentCache {
  import opened CTypes
  import F = FuseSpec

  /** `crossed`: the path was written in the store since this thread read it. */
  datatype Thread =
    | Idle
    | Missed(p: string)
    | Filling(p: string, value: F.Stat, crossed: bool)
    | Owes(p: string)
    | Creating(p: string)

  /** `store` maps live paths to the attributes of their newest version. `tainted` is bookkeeping: the paths whose cached
      value was filled in by a crossed window, or that a create wrote although they had come to exist since it looked. */
  datatype State = State(store: map<string, F.Stat>, cache: map<string, F.Stat>,
                         threads: map<nat, Thread>, tainted: set<string>)

  datatype Step =
    | Lookup(t: nat, p: string)
    | ReadStore(t: nat)
    | Fill(t: nat)
    | Mutate(t: nat, p: string, after: Option<F.Stat>)
    | FindNone(t: nat, p: string)
    | CreateNew(t: nat, p: string, stat: F.Stat)
    | Delete(t: nat)
    | Evict(p: string)

  function At(s: State, t: nat): Thread {
    if t in s.threads then s.threads[t] else Idle
  }

  /** create and symlink look whether the path exists, the kernel does for mkdir; the write comes later, whatever happened
      in between. */
  predicate Enabled(s: State, step: Step) {
    match step
    case Lookup(t, _) => At(s, t).Idle?
    case ReadStore(t) => At(s, t).Missed?
    case Fill(t) => At(s, t).Filling?
    case Mutate(t, _, _) => At(s, t).Idle?
    case FindNone(t, p) => At(s, t).Idle? && p !in s.store
    case CreateNew(t, p, _) => At(s, t) == Creating(p)
    case Delete(t) => At(s, t).Owes?
    case Evict(_) => true
  }

  function Cross(threads: map<nat, Thread>, p: string): map<nat, Thread> {
    map t | t in threads :: if threads[t].Filling? && threads[t].p == p then threads[t].(crossed := true) else threads[t]
  }

  function Next(s: State, step: Step): State
    requires Enabled(s, step)
  {
    match step
    case Lookup(t, p) => s.(threads := s.threads[t := if p in s.cache then Idle else Missed(p)])
    case ReadStore(t) =>
      var p := At(s, t).p;
      s.(threads := s.threads[t := if p in s.store then Filling(p, s.store[p], false) else Idle])
    case Fill(t) =>
      var th := At(s, t);
      State(s.store, s.cache[th.p := th.value], s.threads[t := Idle],
            if th.crossed then s.tainted + {th.p} else s.tainted - {th.p})
    case Mutate(t, p, after) =>
      s.(store := if after.Some? then s.store[p := after.value] else s.store - {p},
         threads := Cross(s.threads, p)[t := Owes(p)])
    case FindNone(t, p) => s.(threads := s.threads[t := Creating(p)])
    case CreateNew(t, p, stat) =>
      s.(store := s.store[p := stat],
         threads := Cross(s.threads, p)[t := Idle],
         tainted := if p in s.store && p in s.cache then s.tainted + {p} else s.tainted)
    case Delete(t) =>
      var p := At(s, t).p;
      State(s.store, s.cache - {p}, s.threads[t := Idle], s.tainted - {p})
    case Evict(p) => s.(cache := s.cache - {p}, tainted := s.tainted - {p})
  }

  predicate Fresh(s: State, p: string) {
    p in s.cache ==> p in s.store && s.cache[p] == s.store[p]
  }

  predicate Owed(s: State, p: string) {
    exists t :: t in s.threads && s.threads[t] == Owes(p)
  }

  ghost predicate Inv(s: State) {
    && (forall p :: Fresh(s, p) || Owed(s, p) || p in s.tainted)
    && s.tainted <= s.cache.Keys
    && (forall t :: t in s.threads && s.threads[t].Filling? && !s.threads[t].crossed ==>
          s.threads[t].p in s.store && s.store[s.threads[t].p] == s.threads[t].value)
  }

  lemma OwedAfter(s: State, step: Step, p: string)
    requires Enabled(s, step) && Owed(s, p) && !(step.Delete? && At(s, step.t).p == p)
    ensures Owed(Next(s, step), p)
  {
    var t :| t in s.threads && s.threads[t] == Owes(p);
    var s' := Next(s, step);
    assert t in s'.threads && s'.threads[t] == Owes(p);
  }

  lemma StepKeepsInv(s: State, step: Step)
    requires Inv(s) && Enabled(s, step)
    ensures Inv(Next(s, step))
  {
    hide Owed;
    var s' := Next(s, step);
    forall p
      ensures Fresh(s', p) || Owed(s', p) || p in s'.tainted
    {
      assert Fresh(s, p) || Owed(s, p) || p in s.tainted;
      if Owed(s, p) && !(step.Delete? && At(s, step.t).p == p) {
        OwedAfter(s, step, p);
      }
      if step.Mutate? && step.p == p {
        NewDebt(s, step);
      }
    }
  }

  lemma NewDebt(s: State, step: Step)
    requires Enabled(s, step) && step.Mutate?
    ensures Owed(Next(s, step), step.p)
  {
    assert Next(s, step).threads[step.t] == Owes(step.p);
  }

  predicate EnabledAll(s: State, steps: seq<Step>)
    decreases |steps|
  {
    steps == [] || (Enabled(s, steps[0]) && EnabledAll(Next(s, steps[0]), steps[1..]))
  }

  function Run(s: State, steps: seq<Step>): State
    requires EnabledAll(s, steps)
    decreases |steps|
  {
    if steps == [] then s else Run(Next(s, steps[0]), steps[1..])
  }

  lemma {:induction false} RunKeepsInv(s: State, steps: seq<Step>)
    requires Inv(s) && EnabledAll(s, steps)
    ensures Inv(Run(s, steps))
    decreases |steps|
  {
    hide Inv, Enabled, Next;
    if steps != [] {
      StepKeepsInv(s, steps[0]);
      RunKeepsInv(Next(s, steps[0]), steps[1..]);
    }
  }

  /** Nobody is doing anything and nothing is cached. */
  function Start(store: map<string, F.Stat>): State {
    State(store, map[], map[], {})
  }

  /** For any number of threads and any interleaving: a stale cached value is still owed a delete, or was filled in by a
      getattr whose path was written between its store read and its fill, or its path was written by a create that had
      found nothing before something else created it. */
  lemma StaleIsOwedOrRaced(store: map<string, F.Stat>, steps: seq<Step>, p: string)
    requires EnabledAll(Start(store), steps)
    ensures
      var s := Run(Start(store), steps);
      (Fresh(s, p) || Owed(s, p) || p in s.tainted) && (p in s.tainted ==> p in s.cache)
  {
    hide Owed, Enabled, Next;
    RunKeepsInv(Start(store), steps);
  }

  // ---- exactly when a path stays coherent -------------------------------------------------

  predicate Good(s: State, p: string) {
    Fresh(s, p) || Owed(s, p)
  }

  predicate Writes(step: Step, p: string) {
    (step.Mutate? || step.CreateNew?) && step.p == p
  }

  /** The attributes a write leaves in the store. */
  function Written(step: Step): Option<F.Stat>
    requires step.Mutate? || step.CreateNew?
  {
    if step.Mutate? then step.after else Some(step.stat)
  }

  predicate InWindow(s: State, t: nat, p: string) {
    t in s.threads && s.threads[t].Filling? && s.threads[t].p == p
  }

  /** If the step writes `p`, every getattr between its store read of `p` and its fill carries exactly what is written; and
      a create, which never deletes, finds nothing else cached, unless somebody owes a delete. */
  predicate SafeWrite(s: State, step: Step, p: string) {
    Writes(step, p) ==>
      && (forall t :: t in s.threads && InWindow(s, t, p) ==> Written(step) == Some(s.threads[t].value))
      && (step.CreateNew? && p in s.cache ==> s.cache[p] == step.stat || Owed(s, p))
  }

  /** No write on `p` in the run contradicts an open window on `p`. */
  predicate Disciplined(s: State, steps: seq<Step>, p: string)
    requires EnabledAll(s, steps)
    decreases |steps|
  {
    steps == [] || (SafeWrite(s, steps[0], p) && Disciplined(Next(s, steps[0]), steps[1..], p))
  }

  /** Every open window on `p` carries what the store has. */
  predicate Settled(s: State, p: string) {
    forall t :: t in s.threads && InWindow(s, t, p) ==> p in s.store && s.store[p] == s.threads[t].value
  }

  lemma StepKeepsSettled(s: State, step: Step, p: string)
    requires Enabled(s, step) && SafeWrite(s, step, p) && Settled(s, p)
    ensures Settled(Next(s, step), p)
  {
  }

  lemma StepKeepsGood(s: State, step: Step, p: string)
    requires Enabled(s, step) && SafeWrite(s, step, p) && Settled(s, p) && Good(s, p)
    ensures Good(Next(s, step), p)
  {
    hide Owed;
    if Owed(s, p) && !(step.Delete? && At(s, step.t).p == p) {
      OwedAfter(s, step, p);
    }
    if step.Mutate? && step.p == p {
      NewDebt(s, step);
    }
    assert step.Fill? ==> InWindow(s, step.t, At(s, step.t).p);
  }

  lemma {:induction false} RunKeepsGood(s: State, steps: seq<Step>, p: string)
    requires EnabledAll(s, steps) && Disciplined(s, steps, p) && Settled(s, p) && Good(s, p)
    ensures Good(Run(s, steps), p)
    decreases |steps|
  {
    hide Enabled, Next, Settled, Good, SafeWrite;
    if steps != [] {
      StepKeepsSettled(s, steps[0], p);
      StepKeepsGood(s, steps[0], p);
      RunKeepsGood(Next(s, steps[0]), steps[1..], p);
    }
  }

  function Owers(s: State, p: string): set<nat> {
    set t | t in s.threads && s.threads[t] == Owes(p)
  }

  /** From a window that carries something else, a stale value can be reached without any write: every owing caller
      deletes, then the getattr fills. */
  lemma {:induction false} StaleRun(s: State, p: string, t: nat) returns (steps: seq<Step>)
    requires InWindow(s, t, p) && !(p in s.store && s.store[p] == s.threads[t].value)
    ensures EnabledAll(s, steps) && Disciplined(s, steps, p) && !Good(Run(s, steps), p)
    decreases |Owers(s, p)|
  {
    if u :| u in Owers(s, p) {
      var s' := Next(s, Delete(u));
      assert Owers(s', p) == Owers(s, p) - {u};
      var rest := StaleRun(s', p, t);
      RunOne(s, Delete(u), rest, p);
      steps := [Delete(u)] + rest;
    } else {
      FillStale(s, p, t);
      RunOne(s, Fill(t), [], p);
      steps := [Fill(t)] + [];
    }
  }

  lemma FillStale(s: State, p: string, t: nat)
    requires InWindow(s, t, p) && !(p in s.store && s.store[p] == s.threads[t].value)
    requires Owers(s, p) == {}
    ensures !Good(Next(s, Fill(t)), p)
  {
    var s' := Next(s, Fill(t));
    forall u | u in s'.threads
      ensures s'.threads[u] != Owes(p)
    {
      assert u in Owers(s, p) <==> u in s.threads && s.threads[u] == Owes(p);
    }
  }

  /** Whatever the callers go on to do, as long as they write safely, `p` is cached as stored or owed a delete. */
  ghost predicate StaysGood(s: State, p: string) {
    forall steps :: EnabledAll(s, steps) && Disciplined(s, steps, p) ==> Good(Run(s, steps), p)
  }

  /** From a coherent state `p` stays coherent if and only if every open window on it carries what the store has. */
  lemma StaysGoodIffSettled(s: State, p: string)
    requires Good(s, p)
    ensures StaysGood(s, p) <==> Settled(s, p)
  {
    hide Good, Enabled, Next, Run, EnabledAll, Disciplined;
    if Settled(s, p) {
      forall steps | EnabledAll(s, steps) && Disciplined(s, steps, p)
        ensures Good(Run(s, steps), p)
      {
        RunKeepsGood(s, steps, p);
      }
    } else {
      var t :| InWindow(s, t, p) && !(p in s.store && s.store[p] == s.threads[t].value);
      var steps := StaleRun(s, p, t);
    }
  }

  /** A mutator's write owes a delete; a create's leaves the path coherent exactly if what is cached is what it writes. */
  lemma WriteKeepsGoodIff(s: State, step: Step, p: string)
    requires Enabled(s, step) && Writes(step, p) && Good(s, p)
    ensures Good(Next(s, step), p) <==> (step.CreateNew? && p in s.cache ==> s.cache[p] == step.stat || Owed(s, p))
  {
    if step.Mutate? {
      NewDebt(s, step);
    } else {
      hide Fresh;
      var s' := Next(s, step);
      assert Owed(s', p) <==> Owed(s, p) by {
        if Owed(s, p) {
          OwedAfter(s, step, p);
        }
        if Owed(s', p) {
          var t :| t in s'.threads && s'.threads[t] == Owes(p);
          assert t in s.threads && s.threads[t] == Owes(p);
        }
      }
      CreatedFresh(s, step, p);
    }
  }

  lemma CreatedFresh(s: State, step: Step, p: string)
    requires Enabled(s, step) && Writes(step, p) && step.CreateNew?
    ensures Fresh(Next(s, step), p) <==> (p in s.cache ==> s.cache[p] == step.stat)
  {
  }

  /** Write by write: a store write on a coherent path leaves it safe for good if and only if every getattr caught between
      its store read and its fill carries exactly the attributes just written, and, for a create, nothing else is cached
      unless somebody owes a delete. */
  lemma WriteSafeIff(s: State, step: Step, p: string)
    requires Enabled(s, step) && Writes(step, p) && Good(s, p)
    ensures StaysGood(Next(s, step), p) <==> SafeWrite(s, step, p)
  {
    hide Good, StaysGood, Owed;
    var s' := Next(s, step);
    WriteKeepsGoodIff(s, step, p);
    StaysGoodNow(s', p);
    if Good(s', p) {
      StaysGoodIffSettled(s', p);
    }
    forall t
      ensures InWindow(s', t, p) <==> InWindow(s, t, p)
      ensures InWindow(s, t, p) ==> s'.threads[t].value == s.threads[t].value
    {
    }
  }

  lemma StaysGoodNow(s: State, p: string)
    ensures StaysGood(s, p) ==> Good(s, p)
  {
    assert EnabledAll(s, []) && Disciplined(s, [], p) && Run(s, []) == s;
  }

  /** From an idle start, a path whose writes are safe is cached as the store has it, or a mutator of it still owes its
      delete; what happens on other paths does not matter. */
  lemma DisciplinedIsCoherent(store: map<string, F.Stat>, steps: seq<Step>, p: string)
    requires EnabledAll(Start(store), steps) && Disciplined(Start(store), steps, p)
    ensures
      var s := Run(Start(store), steps);
      Fresh(s, p) || Owed(s, p)
  {
    hide Enabled, Next;
    RunKeepsGood(Start(store), steps, p);
  }

  /** An unsafe write: getattr reads, chmod writes and deletes, getattr fills. The stale value stays and nobody
      owes a delete. */
  lemma CrossedWindowGoesStale(p: string, before: F.Stat, after: F.Stat)
    requires before != after
    ensures
      var steps := [Lookup(0, p), ReadStore(0), Mutate(1, p, Some(after)), Delete(1), Fill(0)];
      && EnabledAll(Start(map[p := before]), steps)
      && var s := Run(Start(map[p := before]), steps);
         !Fresh(s, p) && !Owed(s, p) && p in s.cache && s.cache[p] == before && p in s.store && s.store[p] == after
  {
    hide Disciplined, SafeWrite, Cross, EnabledAll, Run;
    var s0 := Start(map[p := before]);
    var s1 := Next(s0, Lookup(0, p));
    var s2 := Next(s1, ReadStore(0));
    assert s2.threads == map[0 := Filling(p, before, false)];
    var s3 := Next(s2, Mutate(1, p, Some(after)));
    CrossAt(s2.threads, p, 0);
    assert s3.threads == map[0 := Filling(p, before, true), 1 := Owes(p)];
    var s4 := Next(s3, Delete(1));
    assert s4.threads == map[0 := Filling(p, before, true), 1 := Idle] && s4.cache == map[];
    FiveSteps(s0, Lookup(0, p), ReadStore(0), Mutate(1, p, Some(after)), Delete(1), Fill(0), p);
  }

  lemma FiveSteps(s: State, a: Step, b: Step, c: Step, d: Step, e: Step, p: string)
    requires Enabled(s, a)
    requires var s1 := Next(s, a); Enabled(s1, b)
    requires var s2 := Next(Next(s, a), b); Enabled(s2, c)
    requires var s3 := Next(Next(Next(s, a), b), c); Enabled(s3, d)
    requires var s4 := Next(Next(Next(Next(s, a), b), c), d); Enabled(s4, e)
    ensures EnabledAll(s, [a, b, c, d, e])
    ensures Run(s, [a, b, c, d, e]) == Next(Next(Next(Next(Next(s, a), b), c), d), e)
  {
    hide Enabled, Next, Disciplined;
    var s1 := Next(s, a);
    var s2 := Next(s1, b);
    var s3 := Next(s2, c);
    FourSteps(s1, b, c, d, e, p);
    RunOne(s, a, [b, c, d, e], p);
  }

  /** Two creates at once: both find nothing, one writes and is read into the cache, and the other writes without a delete. */
  lemma RacedCreateGoesStale(p: string, first: F.Stat, second: F.Stat)
    requires first != second
    ensures
      var steps := [FindNone(0, p), FindNone(1, p), CreateNew(1, p, first), Lookup(1, p), ReadStore(1), Fill(1),
                    CreateNew(0, p, second)];
      && EnabledAll(Start(map[]), steps)
      && var s := Run(Start(map[]), steps);
         !Fresh(s, p) && !Owed(s, p) && p in s.cache && s.cache[p] == first && p in s.store && s.store[p] == second
  {
    hide Disciplined, SafeWrite, Cross, EnabledAll, Run;
    var s0 := Start(map[]);
    var s2 := Next(Next(s0, FindNone(0, p)), FindNone(1, p));
    assert s2.threads == map[0 := Creating(p), 1 := Creating(p)];
    var s3 := Next(s2, CreateNew(1, p, first));
    NoneCrossed(s2.threads, p);
    assert s3.threads == map[0 := Creating(p), 1 := Idle];
    var s5 := Next(Next(s3, Lookup(1, p)), ReadStore(1));
    assert s5.threads == map[0 := Creating(p), 1 := Filling(p, first, false)];
    var s6 := Next(s5, Fill(1));
    assert s6.threads == map[0 := Creating(p), 1 := Idle] && s6.cache == map[p := first];
    NoneCrossed(s6.threads, p);
    var rest := [Lookup(1, p), ReadStore(1), Fill(1), CreateNew(0, p, second)];
    FourSteps(s3, Lookup(1, p), ReadStore(1), Fill(1), CreateNew(0, p, second), p);
    RunOne(s2, CreateNew(1, p, first), rest, p);
    RunOne(Next(s0, FindNone(0, p)), FindNone(1, p), [CreateNew(1, p, first)] + rest, p);
    RunOne(s0, FindNone(0, p), [FindNone(1, p)] + ([CreateNew(1, p, first)] + rest), p);
    assert [FindNone(0, p)] + ([FindNone(1, p)] + ([CreateNew(1, p, first)] + rest))
        == [FindNone(0, p), FindNone(1, p), CreateNew(1, p, first), Lookup(1, p), ReadStore(1), Fill(1),
            CreateNew(0, p, second)];
  }

  lemma NoneCrossed(threads: map<nat, Thread>, p: string)
    requires forall t :: t in threads ==> !threads[t].Filling?
    ensures Cross(threads, p) == threads
  {
  }

  lemma FourSteps(s: State, a: Step, b: Step, c: Step, d: Step, p: string)
    requires Enabled(s, a)
    requires var s1 := Next(s, a); Enabled(s1, b)
    requires var s2 := Next(Next(s, a), b); Enabled(s2, c)
    requires var s3 := Next(Next(Next(s, a), b), c); Enabled(s3, d)
    ensures EnabledAll(s, [a, b, c, d])
    ensures Run(s, [a, b, c, d]) == Next(Next(Next(Next(s, a), b), c), d)
  {
    hide Enabled, Next, Disciplined;
    var s1 := Next(s, a);
    var s2 := Next(s1, b);
    var s3 := Next(s2, c);
    RunOne(s3, d, [], p);
    RunOne(s2, c, [d], p);
    RunOne(s1, b, [c, d], p);
    RunOne(s, a, [b, c, d], p);
  }

  lemma CrossAt(threads: map<nat, Thread>, p: string, t: nat)
    ensures Cross(threads, p).Keys == threads.Keys
    ensures t in threads && threads[t].Filling? && threads[t].p == p ==> Cross(threads, p)[t] == threads[t].(crossed := true)
  {
  }

  lemma RunOne(s: State, step: Step, rest: seq<Step>, p: string)
    requires Enabled(s, step) && EnabledAll(Next(s, step), rest)
    ensures EnabledAll(s, [step] + rest) && Run(s, [step] + rest) == Run(Next(s, step), rest)
    ensures Disciplined(s, [step] + rest, p) <==> SafeWrite(s, step, p) && Disciplined(Next(s, step), rest, p)
  {
    hide Enabled, Next, SafeWrite;
    assert ([step] + rest)[1..] == rest;
  }
}
