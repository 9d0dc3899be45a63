/** Any number of threads reading through one open file: the chunk cache under its mutex, one step at a time. */
module ConcurrentRead {
  import opened CTypes
  import opened Chunks
  import CR = ChunkRead

  /** The initialised open file: its bytes, and the chunk size. */
  datatype Open = Open(content: string, cs: nat)

  datatype Request = Request(offset: nat, size: nat, got: string)

  datatype Piece = Piece(n: int, size: nat, o: nat)

  /** Where a thread stands. Locked to Failing lie between the Lock's constructor and its destructor. Faulted: an assert
      has failed or memory outside the chunk would be copied, with the lock held. */
  datatype Thread =
    | Idle
    | AtLoop(req: Request)
    | Waiting(req: Request, piece: Piece)
    | Locked(req: Request, piece: Piece)
    | MustFetch(req: Request, piece: Piece)
    | ChunkSet(req: Request, piece: Piece)
    | Ready(req: Request, piece: Piece)
    | Copied(req: Request, piece: Piece, bytes: string)
    | Failing(req: Request, piece: Piece)
    | Returned(req: Request)
    | Threw(req: Request)
    | Faulted(req: Request)
  {
    predicate Inside() {
      Locked? || MustFetch? || ChunkSet? || Ready? || Copied? || Failing? || Faulted?
    }
  }

  /** theCachedChunkN and theCachedChunk are two variables, assigned one after the other. */
  datatype State = State(cachedN: int, cachedChunk: string, holder: Option<nat>, threads: map<nat, Thread>)

  datatype Step =
    | Call(t: nat, offset: nat, size: nat)
    | Head(t: nat)        // the loop condition and the piece arithmetic
    | Lock(t: nat)
    | Check(t: nat)       // is the wanted chunk the cached one?
    | Fetch(t: nat)       // replace the cached bytes
    | FetchFails(t: nat)  // the store throws instead
    | SetIndex(t: nat)    // record which chunk they are
    | Copy(t: nat)
    | Unlock(t: nat)
    | Fault(t: nat)

  function At(s: State, t: nat): Thread {
    if t in s.threads then s.threads[t] else Idle
  }

  predicate OpenOk(f: Open) {
    0 < f.cs < TWO_31 && |f.content| < TWO_63
  }

  /** The inner read's asserts. */
  predicate AssertsHold(f: Open, piece: Piece) {
    SizeT(piece.o + piece.size) <= f.cs && SizeT(piece.o + piece.size) <= |f.content|
  }

  predicate InChunk(s: State, piece: Piece) {
    OffT(piece.o) >= 0 && OffT(piece.o) + piece.size <= |s.cachedChunk|
  }

  /** Calls with any offset and size are let in, also beyond 2^31. */
  predicate Enabled(f: Open, s: State, step: Step)
    requires OpenOk(f)
  {
    var th := At(s, step.t);
    match step
    case Call(_, offset, size) => (th.Idle? || th.Returned? || th.Threw?) && size < TWO_63 && offset < TWO_63
    case Head(_) => th.AtLoop?
    case Lock(_) => th.Waiting? && s.holder.None?
    case Check(_) => th.Locked? && AssertsHold(f, th.piece)
    case Fetch(_) => th.MustFetch? && 0 <= th.piece.n < NumChunks(|f.content|, f.cs)
    case FetchFails(_) => th.MustFetch?
    case SetIndex(_) => th.ChunkSet?
    case Copy(_) => th.Ready? && InChunk(s, th.piece)
    case Unlock(_) => th.Copied? || th.Failing?
    case Fault(_) => (th.Locked? && !AssertsHold(f, th.piece)) || (th.Ready? && !InChunk(s, th.piece))
  }

  function NextPiece(f: Open, req: Request): Piece
    requires OpenOk(f)
  {
    var pos := req.offset + |req.got|;
    var o := CR.ChunkOffset(pos, f.cs);
    Piece(CR.ChunkNumber(pos, f.cs), CR.PieceSize(|f.content|, f.cs, req.offset, req.size, |req.got|, o), o)
  }

  function Next(f: Open, s: State, step: Step): State
    requires OpenOk(f) && Enabled(f, s, step)
  {
    var t := step.t;
    var th := At(s, t);
    match step
    case Call(_, offset, size) => s.(threads := s.threads[t := AtLoop(Request(offset, size, ""))])
    case Head(_) =>
      var req := th.req;
      var more := req.offset <= |f.content| && |req.got| != req.size && req.offset + |req.got| < |f.content|;
      s.(threads := s.threads[t := if more then Waiting(req, NextPiece(f, req)) else Returned(req)])
    case Lock(_) => s.(holder := Some(t), threads := s.threads[t := Locked(th.req, th.piece)])
    case Check(_) =>
      s.(threads := s.threads[t := if th.piece.n != s.cachedN then MustFetch(th.req, th.piece) else Ready(th.req, th.piece)])
    case Fetch(_) =>
      s.(cachedChunk := ChunkAt(f.content, f.cs, th.piece.n), threads := s.threads[t := ChunkSet(th.req, th.piece)])
    case FetchFails(_) => s.(threads := s.threads[t := Failing(th.req, th.piece)])
    case SetIndex(_) => s.(cachedN := th.piece.n, threads := s.threads[t := Ready(th.req, th.piece)])
    case Copy(_) =>
      var o := OffT(th.piece.o);
      var bytes := s.cachedChunk[o..o + th.piece.size];
      s.(threads := s.threads[t := Copied(th.req, th.piece, bytes)])
    case Unlock(_) =>
      s.(holder := None,
         threads := s.threads[t := if th.Failing? then Threw(th.req) else AtLoop(th.req.(got := th.req.got + th.bytes))])
    case Fault(_) => s.(threads := s.threads[t := Faulted(th.req)])
  }

  const START := State(-1, "", None, map[])

  // ---- the invariant ----------------------------------------------------------------------

  function End(f: Open, req: Request): int {
    Min(req.offset + req.size, |f.content|)
  }

  /** A request in progress: what it has is the flat slice so far, and it stands at a piece start. */
  predicate RequestOk(f: Open, req: Request)
    requires OpenOk(f)
  {
    && req.size < TWO_63 && req.offset < TWO_63 && CR.Addressable(|f.content|, f.cs, req.offset, req.size)
    && |req.got| <= req.size
    && if req.offset > |f.content| then req.got == "" else
       && req.offset + |req.got| <= End(f, req)
       && req.got == f.content[req.offset..req.offset + |req.got|]
       && CR.AtPieceStart(f.cs, req.offset, End(f, req), |req.got|)
  }

  /** The piece a request is after: inside one chunk, inside the file, not empty; the inner read's asserts. */
  predicate PieceOk(f: Open, req: Request, piece: Piece)
    requires OpenOk(f)
  {
    var pos := req.offset + |req.got|;
    && RequestOk(f, req) && req.offset <= |f.content| && pos < End(f, req)
    && piece == Piece(pos / f.cs, Min(End(f, req) - pos, f.cs - pos % f.cs), pos % f.cs)
    && piece.o + piece.size <= f.cs && piece.o + piece.size <= |f.content|
    && 0 <= piece.n < NumChunks(|f.content|, f.cs)
    && piece.o + piece.size <= |ChunkAt(f.content, f.cs, piece.n)|
  }

  /** No piece of the request starts at or beyond 2^31. */
  predicate Tame(f: Open, req: Request)
    requires OpenOk(f)
  {
    CR.Addressable(|f.content|, f.cs, req.offset, req.size)
  }

  predicate TameOk(f: Open, s: State, th: Thread)
    requires OpenOk(f)
  {
    match th
    case Idle => true
    case AtLoop(req) => RequestOk(f, req)
    case Threw(req) => RequestOk(f, req)
    case Faulted(_) => false
    case Returned(req) => req.got == Slice(f.content, req.offset, req.size)
    case Copied(req, piece, bytes) =>
      && PieceOk(f, req, piece)
      && var pos := req.offset + |req.got|; bytes == f.content[pos..pos + piece.size]
    case Ready(req, piece) => PieceOk(f, req, piece) && s.cachedN == piece.n
    case _ => PieceOk(f, th.req, th.piece)
  }

  /** Of a thread that reads beyond 2^31 nothing is known but that it fetches existing chunks. */
  predicate ThreadOk(f: Open, s: State, th: Thread)
    requires OpenOk(f)
  {
    && (th.ChunkSet? ==> 0 <= th.piece.n < NumChunks(|f.content|, f.cs))
    && (!th.Idle? && Tame(f, th.req) ==> TameOk(f, s, th))
  }

  /** The cached index and chunk match, except while the lock holder is between the two assignments. */
  predicate CacheMatches(f: Open, s: State)
    requires OpenOk(f)
  {
    if s.holder.Some? && At(s, s.holder.value).ChunkSet? then
      var n := At(s, s.holder.value).piece.n;
      0 <= n < NumChunks(|f.content|, f.cs) && s.cachedChunk == ChunkAt(f.content, f.cs, n)
    else
      CR.CacheOk(CR.ChunkCache(s.cachedN, s.cachedChunk, []), f.content, f.cs)
  }

  /** Exactly the thread that holds the lock is inside. */
  predicate Exclusive(s: State) {
    && (forall t :: t in s.threads ==> (s.threads[t].Inside() <==> s.holder == Some(t)))
    && (s.holder.Some? ==> s.holder.value in s.threads)
  }

  predicate ThreadsOk(f: Open, s: State)
    requires OpenOk(f)
  {
    forall t :: t in s.threads ==> ThreadOk(f, s, s.threads[t])
  }

  predicate Inv(f: Open, s: State)
    requires OpenOk(f)
  {
    Exclusive(s) && ThreadsOk(f, s) && CacheMatches(f, s)
  }

  lemma HeadOk(f: Open, req: Request)
    requires OpenOk(f) && RequestOk(f, req)
    requires req.offset <= |f.content| && |req.got| != req.size && req.offset + |req.got| < |f.content|
    ensures PieceOk(f, req, NextPiece(f, req))
  {
    hide CR.ChunkNumber, CR.ChunkOffset, CR.PieceSize, NumChunks, ChunkAt, CR.LastStart;
    var pos, end := req.offset + |req.got|, End(f, req);
    CR.PieceStartBelow(f.cs, req.offset, end, |req.got|);
    CR.AddressExact(pos, f.cs);
    CR.DivisionBounds(pos, f.cs);
    CR.PieceClips(|f.content|, f.cs, req.offset, req.size, |req.got|, pos % f.cs);
    CR.NextPosition(f.cs, pos, end);
    CR.ChunkHolds(f.content, f.cs, pos, Min(end - pos, f.cs - pos % f.cs));
  }

  lemma ReturnOk(f: Open, req: Request)
    requires OpenOk(f) && RequestOk(f, req)
    requires !(req.offset <= |f.content| && |req.got| != req.size && req.offset + |req.got| < |f.content|)
    ensures req.got == Slice(f.content, req.offset, req.size)
  {
  }

  lemma UnlockOk(f: Open, req: Request, piece: Piece, bytes: string)
    requires OpenOk(f) && PieceOk(f, req, piece)
    requires var pos := req.offset + |req.got|; bytes == f.content[pos..pos + piece.size]
    ensures RequestOk(f, req.(got := req.got + bytes))
  {
    hide NumChunks, ChunkAt, CR.Addressable;
    CR.NextPosition(f.cs, req.offset + |req.got|, End(f, req));
  }

  lemma PieceInside(f: Open, req: Request, piece: Piece)
    requires OpenOk(f) && PieceOk(f, req, piece)
    ensures AssertsHold(f, piece) && OffT(piece.o) == piece.o
  {
    hide NumChunks, ChunkAt, CR.Addressable, RequestOk, SizeT, OffT;
    CR.SizeTSmall(piece.o + piece.size);
    CR.OffTSmall(piece.o);
  }

  lemma CopyOk(f: Open, s: State, req: Request, piece: Piece)
    requires OpenOk(f) && PieceOk(f, req, piece) && s.cachedN == piece.n
    requires CR.CacheOk(CR.ChunkCache(s.cachedN, s.cachedChunk, []), f.content, f.cs)
    ensures InChunk(s, piece) && OffT(piece.o) == piece.o
    ensures
      var pos := req.offset + |req.got|;
      s.cachedChunk[piece.o..piece.o + piece.size] == f.content[pos..pos + piece.size]
  {
    hide NumChunks, ChunkAt, CR.Addressable;
    var pos := req.offset + |req.got|;
    PieceInside(f, req, piece);
    CR.NextPosition(f.cs, pos, End(f, req));
    CR.ChunkHolds(f.content, f.cs, pos, piece.size);
  }

  /** Every step of every thread keeps the invariant. */
  lemma StepKeepsInv(f: Open, s: State, step: Step)
    requires OpenOk(f) && Inv(f, s) && Enabled(f, s, step)
    ensures Inv(f, Next(f, s, step))
  {
    hide ThreadsOk, ThreadOk, CacheMatches, Enabled, Next;
    StepKeepsExclusive(f, s, step);
    StepKeepsThreads(f, s, step);
    StepKeepsCache(f, s, step);
  }

  lemma StepKeepsExclusive(f: Open, s: State, step: Step)
    requires OpenOk(f) && Exclusive(s) && Enabled(f, s, step)
    ensures Exclusive(Next(f, s, step))
  {
    hide CR.Addressable, NextPiece, NumChunks, ChunkAt;
  }

  lemma StepKeepsCache(f: Open, s: State, step: Step)
    requires OpenOk(f) && Inv(f, s) && Enabled(f, s, step)
    ensures CacheMatches(f, Next(f, s, step))
  {
    hide TameOk, NumChunks, ChunkAt, CR.Addressable, CR.CacheOk, NextPiece, AssertsHold, InChunk;
    var th := At(s, step.t);
    if step.SetIndex? {
      IndexSet(f, th.piece);
    }
  }

  lemma StepKeepsThreads(f: Open, s: State, step: Step)
    requires OpenOk(f) && Inv(f, s) && Enabled(f, s, step)
    ensures ThreadsOk(f, Next(f, s, step))
  {
    hide TameOk, CR.Addressable, CR.CacheOk, NextPiece, AssertsHold, InChunk, NumChunks, ChunkAt;
    var s' := Next(f, s, step);
    forall t | t in s'.threads
      ensures ThreadOk(f, s', s'.threads[t])
    {
      if t == step.t {
        if Tame(f, s'.threads[t].req) {
          TameStep(f, s, step);
        }
      } else {
        OthersKept(f, s, step, t);
      }
    }
  }

  lemma OthersKept(f: Open, s: State, step: Step, t: nat)
    requires OpenOk(f) && Inv(f, s) && Enabled(f, s, step) && t != step.t && t in s.threads
    ensures ThreadOk(f, Next(f, s, step), s.threads[t])
  {
    hide RequestOk, PieceOk, CR.Addressable, CR.CacheOk, NextPiece, AssertsHold, InChunk, NumChunks, ChunkAt, Slice;
    assert ThreadOk(f, s, s.threads[t]);
  }

  lemma TameStep(f: Open, s: State, step: Step)
    requires OpenOk(f) && Inv(f, s) && Enabled(f, s, step)
    requires Tame(f, Next(f, s, step).threads[step.t].req)
    ensures TameOk(f, Next(f, s, step), Next(f, s, step).threads[step.t])
  {
    hide RequestOk, PieceOk, NumChunks, ChunkAt, CR.Addressable, CR.CacheOk, NextPiece, Slice, AssertsHold, InChunk;
    var th := At(s, step.t);
    assert !step.Call? ==> step.t in s.threads && ThreadOk(f, s, th);
    match step
    case Call(_, offset, size) => FreshRequest(f, Request(offset, size, ""));
    case Head(_) =>
      var req := th.req;
      if req.offset <= |f.content| && |req.got| != req.size && req.offset + |req.got| < |f.content| {
        HeadOk(f, req);
      } else {
        ReturnOk(f, req);
      }
    case Copy(_) => CopyOk(f, s, th.req, th.piece);
    case Fault(_) =>
      PieceInside(f, th.req, th.piece);
      if th.Ready? {
        CopyOk(f, s, th.req, th.piece);
      }
    case Unlock(_) =>
      if th.Copied? {
        UnlockOk(f, th.req, th.piece, th.bytes);
      } else {
        PieceRequest(f, th.req, th.piece);
      }
    case _ =>
  }

  lemma FreshRequest(f: Open, req: Request)
    requires OpenOk(f) && req.got == "" && req.size < TWO_63 && req.offset < TWO_63
    requires CR.Addressable(|f.content|, f.cs, req.offset, req.size)
    ensures RequestOk(f, req)
  {
  }

  lemma PieceRequest(f: Open, req: Request, piece: Piece)
    requires OpenOk(f) && PieceOk(f, req, piece)
    ensures RequestOk(f, req)
  {
  }

  lemma IndexSet(f: Open, piece: Piece)
    requires OpenOk(f) && 0 <= piece.n < NumChunks(|f.content|, f.cs)
    ensures CR.CacheOk(CR.ChunkCache(piece.n, ChunkAt(f.content, f.cs, piece.n), []), f.content, f.cs)
  {
  }

  // ---- every interleaving -----------------------------------------------------------------

  predicate EnabledAll(f: Open, s: State, steps: seq<Step>)
    requires OpenOk(f)
    decreases |steps|
  {
    steps == [] || (Enabled(f, s, steps[0]) && EnabledAll(f, Next(f, s, steps[0]), steps[1..]))
  }

  function Run(f: Open, s: State, steps: seq<Step>): State
    requires OpenOk(f) && EnabledAll(f, s, steps)
    decreases |steps|
  {
    if steps == [] then s else Run(f, Next(f, s, steps[0]), steps[1..])
  }

  lemma {:induction false} RunKeepsInv(f: Open, s: State, steps: seq<Step>)
    requires OpenOk(f) && Inv(f, s) && EnabledAll(f, s, steps)
    ensures Inv(f, Run(f, s, steps))
    decreases |steps|
  {
    hide Inv, Enabled, Next;
    if steps != [] {
      StepKeepsInv(f, s, steps[0]);
      RunKeepsInv(f, Next(f, s, steps[0]), steps[1..]);
    }
  }

  lemma StartInv(f: Open)
    requires OpenOk(f)
    ensures Inv(f, START)
  {
  }

  /** For any number of threads, any interleaving, any failing fetches and whatever reads beyond 2^31 other threads make:
      a read that stays below 2^31 never faults, and if it returns, it returns the flat slice. */
  lemma CompletedReadsRight(f: Open, steps: seq<Step>, t: nat)
    requires OpenOk(f) && EnabledAll(f, START, steps)
    ensures
      var th := At(Run(f, START, steps), t);
      !th.Idle? && CR.Addressable(|f.content|, f.cs, th.req.offset, th.req.size) ==>
        && !th.Faulted?
        && (th.Returned? ==> th.req.got == Slice(f.content, th.req.offset, th.req.size))
  {
    hide EnabledAll, Run, Enabled, Slice, CR.Addressable;
    StartInv(f);
    RunKeepsInv(f, START, steps);
  }

  /** Whenever nobody holds the lock, or its holder is not between the two assignments, index and chunk match. */
  lemma CacheMatchesAlways(f: Open, steps: seq<Step>)
    requires OpenOk(f) && EnabledAll(f, START, steps)
    ensures
      var s := Run(f, START, steps);
      || (s.holder.Some? && At(s, s.holder.value).ChunkSet?)
      || (s.cachedN == -1 && s.cachedChunk == "")
      || (0 <= s.cachedN < NumChunks(|f.content|, f.cs) && s.cachedChunk == ChunkAt(f.content, f.cs, s.cachedN))
  {
    hide EnabledAll, Run, Enabled, NumChunks, ChunkAt;
    StartInv(f);
    RunKeepsInv(f, START, steps);
  }

  /** Mutual exclusion: only the lock holder changes the cache, and no two threads are inside at once. */
  lemma OnlyHolderChangesCache(f: Open, s: State, step: Step)
    requires OpenOk(f) && Inv(f, s) && Enabled(f, s, step)
    ensures
      var s' := Next(f, s, step);
      (s'.cachedN, s'.cachedChunk) != (s.cachedN, s.cachedChunk) ==> s.holder == Some(step.t)
    ensures forall t, u :: t in s.threads && u in s.threads && s.threads[t].Inside() && s.threads[u].Inside() ==> t == u
  {
    hide ThreadOk, CacheMatches, NumChunks, ChunkAt;
  }

  /** A step with which thread t can move on. */
  function Move(f: Open, s: State, t: nat): Step
    requires OpenOk(f)
  {
    match At(s, t)
    case AtLoop(_) => Head(t)
    case Waiting(_, _) => Lock(t)
    case Locked(_, piece) => if AssertsHold(f, piece) then Check(t) else Fault(t)
    case MustFetch(_, piece) => if 0 <= piece.n < NumChunks(|f.content|, f.cs) then Fetch(t) else FetchFails(t)
    case ChunkSet(_, _) => SetIndex(t)
    case Ready(_, piece) => if InChunk(s, piece) then Copy(t) else Fault(t)
    case _ => Unlock(t)
  }

  /** No deadlock: a thread in the middle of a read can move, or the lock holder can, or the lock holder has faulted, which
      only a read beyond 2^31 does. */
  lemma SomeoneMoves(f: Open, s: State, t: nat)
    requires OpenOk(f) && Inv(f, s) && !At(s, t).Idle? && !At(s, t).Returned? && !At(s, t).Threw?
    ensures
      || Enabled(f, s, Move(f, s, t))
      || (s.holder.Some? && Enabled(f, s, Move(f, s, s.holder.value)))
      || (s.holder.Some? && At(s, s.holder.value).Faulted? && !Tame(f, At(s, s.holder.value).req))
  {
    hide NumChunks, ChunkAt, RequestOk, PieceOk, CR.Addressable, AssertsHold, InChunk;
    var u := if At(s, t).Waiting? && s.holder.Some? then s.holder.value else t;
    assert ThreadOk(f, s, At(s, u));
  }

  // ---- one thread alone -------------------------------------------------------------------

  lemma RunOn(f: Open, s: State, step: Step, rest: seq<Step>)
    requires OpenOk(f) && Enabled(f, s, step) && EnabledAll(f, Next(f, s, step), rest)
    ensures EnabledAll(f, s, [step] + rest) && Run(f, s, [step] + rest) == Run(f, Next(f, s, step), rest)
  {
    hide Enabled, Next;
    assert ([step] + rest)[1..] == rest;
  }

  lemma RunNothing(f: Open, s: State)
    requires OpenOk(f)
    ensures EnabledAll(f, s, []) && Run(f, s, []) == s
  {
  }

  lemma {:induction false} RunJoin(f: Open, s: State, a: seq<Step>, b: seq<Step>)
    requires OpenOk(f) && EnabledAll(f, s, a) && EnabledAll(f, Run(f, s, a), b)
    ensures EnabledAll(f, s, a + b) && Run(f, s, a + b) == Run(f, Run(f, s, a), b)
    decreases |a|
  {
    hide Enabled, Next;
    if a == [] {
      assert a + b == b;
    } else {
      assert (a + b)[0] == a[0] && (a + b)[1..] == a[1..] + b;
      RunJoin(f, Next(f, s, a[0]), a[1..], b);
    }
  }

  /** The state's cache, and where the thread stands after its piece came to the given outcome. */
  predicate PieceDone(s: State, t: nat, req: Request, c: CR.ChunkCache, out: CR.Outcome) {
    && s.cachedN == c.n && s.cachedChunk == c.chunk
    && match out
       case Done(bytes) => s.holder.None? && At(s, t) == AtLoop(req.(got := req.got + bytes))
       case Eio => s.holder.None? && At(s, t) == Threw(req)
       case Fault => At(s, t) == Faulted(req)
  }

  lemma FromReady(f: Open, s: State, t: nat) returns (steps: seq<Step>)
    requires OpenOk(f) && At(s, t).Ready?
    ensures EnabledAll(f, s, steps)
    ensures
      var req, piece := At(s, t).req, At(s, t).piece;
      var o := OffT(piece.o);
      PieceDone(Run(f, s, steps), t, req, CR.ChunkCache(s.cachedN, s.cachedChunk, []),
                if InChunk(s, piece) then CR.Done(s.cachedChunk[o..o + piece.size]) else CR.Fault)
  {
    hide OffT, Run, EnabledAll, NextPiece, AssertsHold, NumChunks;
    if InChunk(s, At(s, t).piece) {
      var s1 := Next(f, s, Copy(t));
      RunNothing(f, Next(f, s1, Unlock(t)));
      RunOn(f, s1, Unlock(t), []);
      RunOn(f, s, Copy(t), [Unlock(t)] + []);
      steps := [Copy(t)] + ([Unlock(t)] + []);
    } else {
      RunNothing(f, Next(f, s, Fault(t)));
      RunOn(f, s, Fault(t), []);
      steps := [Fault(t)] + [];
    }
  }

  /** From the lock to the end of the inner read. */
  lemma FromLocked(f: Open, s: State, t: nat, c: CR.ChunkCache) returns (steps: seq<Step>)
    requires OpenOk(f) && At(s, t).Locked? && c.n == s.cachedN && c.chunk == s.cachedChunk
    ensures EnabledAll(f, s, steps)
    ensures
      var req, piece := At(s, t).req, At(s, t).piece;
      var (c', out) := CR.ReadPiece(Some(Split(f.content, f.cs)), |f.content|, f.cs, c, piece.n, piece.size, piece.o);
      PieceDone(Run(f, s, steps), t, req, c', out)
  {
    hide SizeT, OffT, Run, EnabledAll, NextPiece, NumChunks, ChunkAt;
    var piece := At(s, t).piece;
    if !AssertsHold(f, piece) {
      RunNothing(f, Next(f, s, Fault(t)));
      RunOn(f, s, Fault(t), []);
      steps := [Fault(t)] + [];
    } else {
      var s1 := Next(f, s, Check(t));
      if At(s1, t).Ready? {
        var rest := FromReady(f, s1, t);
        RunOn(f, s, Check(t), rest);
        steps := [Check(t)] + rest;
      } else if 0 <= piece.n < NumChunks(|f.content|, f.cs) {
        var s2 := Next(f, s1, Fetch(t));
        var s3 := Next(f, s2, SetIndex(t));
        var rest := FromReady(f, s3, t);
        RunOn(f, s2, SetIndex(t), rest);
        RunOn(f, s1, Fetch(t), [SetIndex(t)] + rest);
        RunOn(f, s, Check(t), [Fetch(t)] + ([SetIndex(t)] + rest));
        steps := [Check(t)] + ([Fetch(t)] + ([SetIndex(t)] + rest));
        assert Split(f.content, f.cs)[piece.n] == ChunkAt(f.content, f.cs, piece.n);
      } else {
        var s2 := Next(f, s1, FetchFails(t));
        RunNothing(f, Next(f, s2, Unlock(t)));
        RunOn(f, s2, Unlock(t), []);
        RunOn(f, s1, FetchFails(t), [Unlock(t)] + []);
        RunOn(f, s, Check(t), [FetchFails(t)] + ([Unlock(t)] + []));
        steps := [Check(t)] + ([FetchFails(t)] + ([Unlock(t)] + []));
      }
    }
  }

  /** Where a thread stands when its read has come to the given outcome. */
  predicate ReadDone(s: State, t: nat, c: CR.ChunkCache, out: CR.Outcome) {
    && s.cachedN == c.n && s.cachedChunk == c.chunk
    && match out
       case Done(bytes) => At(s, t).Returned? && At(s, t).req.got == bytes
       case Eio => At(s, t).Threw?
       case Fault => At(s, t).Faulted?
  }

  /** A thread that is not interrupted computes the sequential loop: the same bytes, the same failure, the same cache. */
  lemma {:induction false} AloneIsLoop(f: Open, s: State, t: nat, c: CR.ChunkCache) returns (steps: seq<Step>)
    requires OpenOk(f) && s.holder.None? && At(s, t).AtLoop? && c.n == s.cachedN && c.chunk == s.cachedChunk
    requires
      var req := At(s, t).req;
      && req.size < TWO_63 && req.offset <= |f.content|
      && |req.got| <= req.size && req.offset + |req.got| <= |f.content|
    ensures EnabledAll(f, s, steps)
    ensures
      var req := At(s, t).req;
      var (c', out) := CR.ReadFrom(Some(Split(f.content, f.cs)), |f.content|, f.cs, c, req.offset, req.size, req.got);
      ReadDone(Run(f, s, steps), t, c', out)
    decreases At(s, t).req.size - |At(s, t).req.got|
  {
    hide Run, EnabledAll, CR.ReadPiece, CR.PieceSize, CR.ChunkNumber, CR.ChunkOffset, NumChunks, Split;
    var req := At(s, t).req;
    var s1 := Next(f, s, Head(t));
    if |req.got| == req.size || req.offset + |req.got| >= |f.content| {
      RunNothing(f, s1);
      RunOn(f, s, Head(t), []);
      steps := [Head(t)] + [];
    } else {
      var s2 := Next(f, s1, Lock(t));
      var round := FromLocked(f, s2, t, c);
      RunOn(f, s1, Lock(t), round);
      RunOn(f, s, Head(t), [Lock(t)] + round);
      steps := [Head(t)] + ([Lock(t)] + round);
      var piece := NextPiece(f, req);
      var (c', out) := CR.ReadPiece(Some(Split(f.content, f.cs)), |f.content|, f.cs, c, piece.n, piece.size, piece.o);
      if out.Done? {
        CR.OffsetInChunk(req.offset + |req.got|, f.cs);
        CR.PieceClips(|f.content|, f.cs, req.offset, req.size, |req.got|, piece.o);
        var rest := AloneIsLoop(f, Run(f, s, steps), t, c');
        RunJoin(f, s, steps, rest);
        steps := steps + rest;
      }
    }
  }

  /** And so a whole call is ChunkRead.Read. */
  lemma AloneIsRead(f: Open, s: State, t: nat, c: CR.ChunkCache, offset: nat, size: nat) returns (steps: seq<Step>)
    requires OpenOk(f) && s.holder.None? && At(s, t).Idle? && c.n == s.cachedN && c.chunk == s.cachedChunk
    requires size < TWO_63 && offset < TWO_63
    ensures EnabledAll(f, s, steps)
    ensures
      var (c', out) := CR.Read(Some(Split(f.content, f.cs)), |f.content|, f.cs, c, offset, size);
      ReadDone(Run(f, s, steps), t, c', out)
  {
    hide Run, EnabledAll, CR.ReadFrom, NumChunks, Split, NextPiece, SizeT;
    CR.SizeTSmall(offset);
    var s1 := Next(f, s, Call(t, offset, size));
    if offset <= |f.content| {
      var rest := AloneIsLoop(f, s1, t, c);
      RunOn(f, s, Call(t, offset, size), rest);
      steps := [Call(t, offset, size)] + rest;
    } else {
      RunNothing(f, Next(f, s1, Head(t)));
      RunOn(f, s1, Head(t), []);
      RunOn(f, s, Call(t, offset, size), [Head(t)] + []);
      steps := [Call(t, offset, size)] + ([Head(t)] + []);
    }
  }
}
