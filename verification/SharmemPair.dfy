/** One writer and one reader on a fresh semaphore set: whatever the interleaving and
    whoever is killed, the reader's output is a prefix of the writer's file. */
module SharmemPair {
  import opened Semaphores
  import opened Sharmem

  // The two processes just started, in either order of their first steps.
  function Init(file: seq<Byte>): State {
    State(ZERO, FRESH_PAGE, [Start(Writer, file), Start(Reader, [])])
  }

  predicate NoSpawn(events: seq<Event>) {
    forall i :: 0 <= i < |events| ==> !events[i].Spawn?
  }

  predicate IsPair(s: State) {
    |s.procs| == 2 && s.procs[0].role.Writer? && s.procs[1].role.Reader?
  }

  // How far a program has come; a killed process keeps the counter it died at.
  function Rank(p: Proc): nat {
    match p.pc
    case Gate => 0 case WaitPrev => 1 case SetVal => 2 case Post => 3 case Sync => 4
    case Take => 5 case Check => 6 case Fetch => 7 case Move => 8 case Store => 9
    case Give => 10 case End => 11 case Leave => 12
  }

  // Between P and V: the side that holds the page.
  predicate Holds(p: Proc) { p.alive && 6 <= Rank(p) <= 10 }

  // Past Post and past Sync.
  predicate Posted(p: Proc) { Rank(p) >= 4 }
  predicate Synced(p: Proc) { Rank(p) >= 5 }

  // The EMPTY and FULL tokens, and the two processes that may hold the page in their place.
  function Tokens(v: Vals, w: Proc, r: Proc): int
  {
    v.empty + v.full + ToInt(Holds(w)) + ToInt(Holds(r))
  }

  // ------------------------------------------------------------------ invariant

  // Undo vectors, NUM_PROC and the two rendezvous semaphores.
  predicate Rendezvous(v: Vals, w: Proc, r: Proc)
  {
    && (w.alive ==> w.adj.empty == 0 && w.adj.full == ToInt(InSession(w)))
    && (r.alive ==> r.adj.full == 0 && r.adj.empty == if r.pc == Leave then 2 else ToInt(InSession(r)))
    && (w.alive ==> w.adj.numProc == -ToInt(InSession(w)) && w.adj.syncRd == w.adj.syncWr == 0)
    && (r.alive ==> r.adj.numProc == -ToInt(InSession(r)) && r.adj.syncRd == r.adj.syncWr == 0)
    && v.numProc == ToInt(InSession(w)) + ToInt(InSession(r))
    && v.syncRd == ToInt(Posted(w)) - ToInt(Synced(r)) >= 0
    && v.syncWr == ToInt(Posted(r)) - ToInt(Synced(w)) >= 0
    // Nobody passes the peer check before the peer has joined.
    && (Rank(w) >= 7 ==> Synced(r)) && (Rank(r) >= 7 ==> Synced(w))
    && r.pc != Store
  }

  // Where the EMPTY and FULL tokens are while the two sides are joining, and afterwards.
  predicate TokenPlaces(v: Vals, w: Proc, r: Proc)
  {
    && v.full >= 0 && v.empty >= 0
    && (!Synced(w) ==> v.full == 0)
    && (!Synced(w) ==> v.empty == ToInt(Rank(r) >= 3) || !r.alive)
    && (!Synced(w) ==> Rank(r) <= 5)
    && (!Synced(r) && r.alive && InSession(w) ==> v.full == 0 && Tokens(v, w, r) == 1)
    && (InSession(w) && InSession(r) ==> Tokens(v, w, r) == 1)
  }

  // The writer's current chunk lies in the page and is the next thing to output.
  predicate ChunkReady(page: Page, w: Proc, r: Proc)
  {
    && 0 <= w.num <= CHUNK && w.num <= w.pos <= |w.file|
    && page.size == w.num && |page.data| == CHUNK
    && page.data[..w.num] == w.file[w.pos - w.num..w.pos]
    && r.out == w.file[..w.pos - w.num]
  }

  // Everything the writer has read so far has been output.
  predicate CaughtUp(w: Proc, r: Proc)
  {
    w.pos <= |w.file| && r.out == w.file[..w.pos]
  }

  // What the writer's local variables mean at each of its program counters.
  predicate WriterData(page: Page, w: Proc, r: Proc)
  {
    && |w.tmp| == PAGE_SIZE && |page.data| == CHUNK && w.pos <= |w.file| && w.num <= CHUNK
    && (Rank(w) <= 4 || !Synced(r) ==> w.pos == 0 && r.out == [])
    && (Rank(w) <= 7 ==> w.num != 0)
    && (w.alive && w.pc == Fetch ==> CaughtUp(w, r))
    && (w.alive && 8 <= Rank(w) <= 10 ==>
          && 0 <= w.num <= w.pos
          && (w.num == 0 ==> w.pos == |w.file|)
          && r.out == w.file[..w.pos - w.num])
    && (w.alive && w.pc == Move ==> w.tmp[..w.num] == w.file[w.pos - w.num..w.pos])
    && (w.alive && w.pc == Store ==> page.data[..w.num] == w.file[w.pos - w.num..w.pos])
    && (w.alive && w.pc == Give ==> ChunkReady(page, w, r))
    && (Rank(w) >= 11 ==> w.num == 0 && w.pos == |w.file| && r.out == w.file)
  }

  // What the reader's local variables mean, whether or not the writer is still there.
  predicate ReaderData(page: Page, w: Proc, r: Proc)
  {
    && r.out <= w.file
    && (r.alive && 7 <= Rank(r) <= 8 ==> ChunkReady(page, w, r))
    && (r.alive && 8 <= Rank(r) <= 10 ==> r.num == w.num >= 0)
    && (r.alive && r.pc == Give ==> CaughtUp(w, r))
    && (r.alive && 7 <= Rank(r) <= 10 ==> (w.alive ==> Rank(w) == 5 || Rank(w) >= 11))
    && (r.alive && Rank(r) >= 11 ==> (w.alive ==> Rank(w) >= 11))
  }

  // With both sides in the session, the tokens say what the page holds.
  predicate SharedData(v: Vals, page: Page, w: Proc, r: Proc)
  {
    InSession(w) && InSession(r) ==>
      && (v.empty == 1 || w.pc == Check ==> CaughtUp(w, r))
      && (v.full == 1 || r.pc == Check ==> ChunkReady(page, w, r) && (w.pc == Take || w.pc == End))
  }

  // What a process that joined and is gone, or past its loop, leaves for the other to wake up on,
  // unless the other has just taken it and is about to check for its peer.
  predicate WakeUp(v: Vals, w: Proc, r: Proc)
  {
    && (Synced(w) && !w.alive && Rank(w) <= 11 && r.alive && r.pc != Check ==> v.full >= 1)
    && (Rank(w) >= 11 && r.alive && r.pc == Take ==> v.full >= 1)
    && (Synced(r) && !r.alive && w.alive && w.pc != Check && Rank(w) <= 10 ==> v.empty >= 1)
    && (r.alive && r.pc == End ==> v.empty >= 1)
  }

  predicate Inv(v: Vals, page: Page, w: Proc, r: Proc) {
    && w.role.Writer? && r.role.Reader?
    && Rendezvous(v, w, r) && TokenPlaces(v, w, r) && WakeUp(v, w, r)
    && WriterData(page, w, r) && ReaderData(page, w, r) && SharedData(v, page, w, r)
  }

  predicate PairInv(s: State) {
    IsPair(s) && Inv(s.sem, s.page, s.procs[0], s.procs[1])
  }

  // ------------------------------------------------------------------ preservation

  lemma InitInv(file: seq<Byte>)
    ensures PairInv(Init(file))
  {
  }

  lemma WriterExitKeeps(v: Vals, page: Page, w: Proc, r: Proc)
    requires Inv(v, page, w, r) && w.alive
    ensures Inv(Undo(v, w.adj), page, w.(alive := false, adj := ZERO), r)
  {
  }

  lemma ReaderExitKeeps(v: Vals, page: Page, w: Proc, r: Proc)
    requires Inv(v, page, w, r) && r.alive
    ensures Inv(Undo(v, r.adj), page, w, r.(alive := false, adj := ZERO))
  {
  }

  lemma ExitKeeps(s: State, pid: nat)
    requires PairInv(s) && pid < 2 && s.procs[pid].alive
    ensures PairInv(Exit(s, pid))
  {
    if pid == 0 {
      WriterExitKeeps(s.sem, s.page, s.procs[0], s.procs[1]);
    } else {
      ReaderExitKeeps(s.sem, s.page, s.procs[0], s.procs[1]);
    }
  }

  // The two arrays that join and leave the session, as single updates.
  lemma SyncEffect(v: Vals, a: Vals, role: Role)
    requires v.Get(Theirs(role)) >= 0
    ensures var mine := if role.Writer? then SyncWr else SyncRd;
            Semop(v, a, Ops(role, Sync))
            == if v.Get(mine) < 1 then Blocked
               else Done(v.Set(mine, v.Get(mine) - 1).(numProc := v.numProc + 1),
                         a.Set(Theirs(role), a.Get(Theirs(role)) + 1).(numProc := a.numProc - 1))
  {
    SemopUnrolled(v, a, Ops(role, Sync));
  }

  lemma EndEffect(v: Vals, a: Vals, role: Role)
    requires v.full >= 0
    ensures var r := Semop(v, a, Ops(role, End));
            if role.Writer? then
              r == if v.numProc < 1 || v.aloneWr < 1 then Blocked
                   else Done(v.(numProc := v.numProc - 1, aloneWr := v.aloneWr - 1),
                             a.(full := a.full - 1, numProc := a.numProc + 1, aloneWr := a.aloneWr + 1))
            else
              r == if v.numProc < 1 || v.empty < 1 || v.aloneRd < 1 then Blocked
                   else Done(v.(numProc := v.numProc - 1, empty := v.empty - 1, aloneRd := v.aloneRd - 1),
                             a.(empty := a.empty + 1, numProc := a.numProc + 1, aloneRd := a.aloneRd + 1))
  {
    SemopUnrolled(v, a, Ops(role, End));
  }

  // P and V as single updates.
  lemma TakeEffect(v: Vals, a: Vals, role: Role)
    ensures var x := v.Get(Mine(role));
            Semop(v, a, Ops(role, Take)) == if x >= 1 then Done(v.Set(Mine(role), x - 1), a) else Blocked
  {
    SemopUnrolled(v, a, Ops(role, Take));
  }

  lemma GiveEffect(v: Vals, a: Vals, role: Role)
    ensures Semop(v, a, Ops(role, Give)) == Done(v.Set(Theirs(role), v.Get(Theirs(role)) + 1), a)
  {
    SemopUnrolled(v, a, Ops(role, Give));
  }

  // The operations before the session touch only a gate or a SYNC_* semaphore.
  lemma JoinEffect(v: Vals, a: Vals, role: Role, pc: Pc)
    requires pc in {Gate, WaitPrev, Post}
    ensures var gate := Alone(role);
            var post := if role.Writer? then SyncRd else SyncWr;
            var r := Semop(v, a, Ops(role, pc));
            match pc
            case Gate => r == if v.Get(gate) != 0 then Blocked
                              else Done(v.Set(gate, 1), a.Set(gate, a.Get(gate) - 1))
            case WaitPrev => r == if v.numProc != 0 then Blocked else Done(v, a)
            case _ => r == Done(v.Set(post, v.Get(post) + 1), a)
  {
    SemopUnrolled(v, a, Ops(role, pc));
  }

  lemma WriterJoinKeeps(s: State)
    requires PairInv(s) && s.procs[0].alive && s.procs[0].pc in {Gate, WaitPrev, Post}
    ensures PairInv(SemStep(s, 0))
  {
    JoinEffect(s.sem, s.procs[0].adj, Writer, s.procs[0].pc);
  }

  lemma ReaderJoinKeeps(s: State)
    requires PairInv(s) && s.procs[1].alive && s.procs[1].pc in {Gate, WaitPrev, Post}
    ensures PairInv(SemStep(s, 1))
  {
    JoinEffect(s.sem, s.procs[1].adj, Reader, s.procs[1].pc);
  }

  lemma SyncKeeps(s: State, pid: nat)
    requires PairInv(s) && pid < 2 && s.procs[pid].alive && s.procs[pid].pc == Sync
    ensures PairInv(SemStep(s, pid))
  {
    SyncEffect(s.sem, s.procs[pid].adj, s.procs[pid].role);
  }

  lemma WriterTakeKeeps(s: State)
    requires PairInv(s) && s.procs[0].alive && s.procs[0].pc == Take
    ensures PairInv(SemStep(s, 0))
  {
    SemopUnrolled(s.sem, s.procs[0].adj, Ops(Writer, Take));
  }

  lemma ReaderTakeKeeps(s: State)
    requires PairInv(s) && s.procs[1].alive && s.procs[1].pc == Take
    ensures PairInv(SemStep(s, 1))
  {
    SemopUnrolled(s.sem, s.procs[1].adj, Ops(Reader, Take));
  }

  /** The peer check lets a process through exactly when both are in the session; otherwise
      the process exits with an error, even if the peer is alive and about to join. */
  lemma CheckStep(s: State, pid: nat)
    requires IsPair(s) && Rendezvous(s.sem, s.procs[0], s.procs[1])
    requires pid < 2 && s.procs[pid].alive && s.procs[pid].pc == Check
    ensures InSession(s.procs[1 - pid]) ==>
              SemStep(s, pid) == Put(s, pid, s.procs[pid].(pc := Fetch))
    ensures !InSession(s.procs[1 - pid]) ==> SemStep(s, pid) == Exit(s, pid)
  {
    SemopUnrolled(s.sem, s.procs[pid].adj, Ops(s.procs[pid].role, Check));
  }

  lemma CheckKeeps(s: State, pid: nat)
    requires PairInv(s) && pid < 2 && s.procs[pid].alive && s.procs[pid].pc == Check
    ensures PairInv(SemStep(s, pid))
  {
    CheckStep(s, pid);
    ExitKeeps(s, pid);
  }

  lemma WriterGiveKeeps(s: State)
    requires PairInv(s) && s.procs[0].alive && s.procs[0].pc == Give
    ensures PairInv(SemStep(s, 0))
  {
    SemopUnrolled(s.sem, s.procs[0].adj, Ops(Writer, Give));
  }

  lemma ReaderGiveKeeps(s: State)
    requires PairInv(s) && s.procs[1].alive && s.procs[1].pc == Give
    ensures PairInv(SemStep(s, 1))
  {
    SemopUnrolled(s.sem, s.procs[1].adj, Ops(Reader, Give));
  }

  lemma EndKeeps(s: State, pid: nat)
    requires PairInv(s) && pid < 2 && s.procs[pid].alive && s.procs[pid].pc == End
    ensures PairInv(SemStep(s, pid))
  {
    EndEffect(s.sem, s.procs[pid].adj, s.procs[pid].role);
  }

  lemma WriterSetValKeeps(s: State)
    requires PairInv(s) && s.procs[0].alive && s.procs[0].pc == SetVal
    ensures PairInv(SetValStep(s, 0))
  {
  }

  lemma ReaderSetValKeeps(s: State)
    requires PairInv(s) && s.procs[1].alive && s.procs[1].pc == SetVal
    ensures PairInv(SetValStep(s, 1))
  {
  }

  lemma WriterFetchKeeps(s: State, amount: nat)
    requires PairInv(s) && s.procs[0].alive && s.procs[0].pc == Fetch
    ensures PairInv(WriterStep(s, 0, amount))
  {
  }

  lemma WriterMoveKeeps(s: State, amount: nat)
    requires PairInv(s) && s.procs[0].alive && s.procs[0].pc == Move
    ensures PairInv(WriterStep(s, 0, amount))
  {
  }

  lemma WriterStoreKeeps(s: State, amount: nat)
    requires PairInv(s) && s.procs[0].alive && s.procs[0].pc == Store
    ensures PairInv(WriterStep(s, 0, amount))
  {
  }

  lemma ReaderLoadKeeps(s: State)
    requires PairInv(s) && s.procs[1].alive && s.procs[1].pc == Fetch
    ensures PairInv(ReaderStep(s, 1, 0))
  {
  }

  lemma ReaderOutputKeeps(s: State, amount: nat)
    requires PairInv(s) && s.procs[1].alive && s.procs[1].pc == Move
    ensures PairInv(ReaderStep(s, 1, amount))
  {
    var w, r := s.procs[0], s.procs[1];
    if amount <= r.num <= |s.page.data| {
      var out := r.out + s.page.data[..amount];
      assert out == w.file[..w.pos - w.num + amount] by {
        assert s.page.data[..amount] == s.page.data[..w.num][..amount];
      }
      if amount < r.num {
        ReaderExitKeeps(s.sem, s.page, w, r);
      }
    }
  }

  lemma StepKeeps(s: State, e: Event)
    requires PairInv(s) && !e.Spawn?
    ensures PairInv(Step(s, e))
  {
    var pid := e.pid;
    if pid < 2 && s.procs[pid].alive {
      match e
      case Kill(_) => ExitKeeps(s, pid);
      case Run(_, amount) =>
        match s.procs[pid].pc
        case SetVal => if pid == 0 { WriterSetValKeeps(s); } else { ReaderSetValKeeps(s); }
        case Leave => ExitKeeps(s, pid);
        case Sync => SyncKeeps(s, pid);
        case Take => if pid == 0 { WriterTakeKeeps(s); } else { ReaderTakeKeeps(s); }
        case Check => CheckKeeps(s, pid);
        case Give => if pid == 0 { WriterGiveKeeps(s); } else { ReaderGiveKeeps(s); }
        case End => EndKeeps(s, pid);
        case Gate => if pid == 0 { WriterJoinKeeps(s); } else { ReaderJoinKeeps(s); }
        case WaitPrev => if pid == 0 { WriterJoinKeeps(s); } else { ReaderJoinKeeps(s); }
        case Post => if pid == 0 { WriterJoinKeeps(s); } else { ReaderJoinKeeps(s); }
        case Fetch => if pid == 0 { WriterFetchKeeps(s, amount); } else { ReaderLoadKeeps(s); }
        case Move => if pid == 0 { WriterMoveKeeps(s, amount); } else { ReaderOutputKeeps(s, amount); }
        case Store => if pid == 0 { WriterStoreKeeps(s, amount); }
    }
  }

  lemma FileFixed(s: State, e: Event)
    requires IsPair(s) && !e.Spawn?
    ensures |Step(s, e).procs| == 2 && Step(s, e).procs[0].file == s.procs[0].file
  {
  }

  lemma {:induction false} RunKeeps(s: State, events: seq<Event>)
    requires PairInv(s) && NoSpawn(events)
    ensures PairInv(RunAll(s, events))
    ensures RunAll(s, events).procs[0].file == s.procs[0].file
    decreases |events|
  {
    if events != [] {
      assert !events[0].Spawn?;
      FileFixed(s, events[0]);
      StepKeeps(s, events[0]);
      RunKeeps(Step(s, events[0]), events[1..]);
    }
  }

  // ------------------------------------------------------------------ results

  // Any interleaving, any kills: what the reader has written is a prefix of the file.
  lemma OutputIsPrefix(file: seq<Byte>, events: seq<Event>)
    requires NoSpawn(events)
    ensures var s := RunAll(Init(file), events);
            IsPair(s) && s.procs[1].out <= file
  {
    InitInv(file);
    RunKeeps(Init(file), events);
  }

  /** A writer that has left its loop through the zero-length chunk (it is at the end
      operation or past it) has had its whole file output. */
  lemma WriterLeavesAfterWholeFile(file: seq<Byte>, events: seq<Event>)
    requires NoSpawn(events)
    ensures var s := RunAll(Init(file), events);
            IsPair(s) && (Rank(s.procs[0]) >= 11 ==> s.procs[1].out == file)
  {
    InitInv(file);
    RunKeeps(Init(file), events);
  }

  /** With both sides in the session there is exactly one of: an EMPTY token, a FULL token,
      the writer between P and V, the reader between P and V. So they never both touch the page. */
  lemma PageExclusion(file: seq<Byte>, events: seq<Event>)
    requires NoSpawn(events)
    ensures var s := RunAll(Init(file), events);
            && IsPair(s)
            && (InSession(s.procs[0]) && InSession(s.procs[1]) ==>
                  s.sem.empty >= 0 && s.sem.full >= 0 && Tokens(s.sem, s.procs[0], s.procs[1]) == 1)
  {
    InitInv(file);
    RunKeeps(Init(file), events);
  }

  // ------------------------------------------------------------------ the rest of the page

  // The writer's buffer is clean but for the chunk, and so is the page, but for the moment between
  // the copy and the store of the length.
  predicate Padded(page: Page, w: Proc) {
    && |page.data| == CHUNK && |w.tmp| == PAGE_SIZE
    && (w.pc == Move || w.pc == Store ==> 0 <= w.num <= CHUNK && w.tmp[w.num..] == Zeros(PAGE_SIZE - w.num))
    && (w.pc != Move && w.pc != Store ==> w.tmp == Zeros(PAGE_SIZE))
    && (if w.pc == Store then page.data[w.num..] == Zeros(CHUNK - w.num)
        else 0 <= page.size <= CHUNK && page.data[page.size..] == Zeros(CHUNK - page.size))
  }

  lemma WriterPads(s: State, amount: nat)
    requires IsPair(s) && Padded(s.page, s.procs[0]) && s.procs[0].pc in {Fetch, Move, Store}
    ensures Padded(WriterStep(s, 0, amount).page, WriterStep(s, 0, amount).procs[0])
  {
    var w, t := s.procs[0], WriterStep(s, 0, amount);
    if w.pc == Move {
      assert w.tmp[..CHUNK][w.num..] == w.tmp[w.num..][..CHUNK - w.num];
    } else if w.pc == Fetch && t != s {
      assert t.procs[0].tmp[amount..] == w.tmp[amount..];
    }
  }

  // Every other event leaves the page and the writer's buffer alone.
  lemma OthersKeepPage(s: State, e: Event)
    requires IsPair(s) && !e.Spawn?
    requires e.Run? && e.pid == 0 && s.procs[0].alive ==> s.procs[0].pc !in {Fetch, Move, Store}
    ensures var t := Step(s, e);
            && IsPair(t) && t.page == s.page
            && t.procs[0].tmp == s.procs[0].tmp && t.procs[0].num == s.procs[0].num
            && (t.procs[0].pc == s.procs[0].pc || {s.procs[0].pc, t.procs[0].pc} !! {Move, Store})
  {
    hide Semop;
  }

  lemma StepPads(s: State, e: Event)
    requires IsPair(s) && Padded(s.page, s.procs[0]) && !e.Spawn?
    ensures IsPair(Step(s, e)) && Padded(Step(s, e).page, Step(s, e).procs[0])
  {
    if e.Run? && e.pid == 0 && s.procs[0].alive && s.procs[0].pc in {Fetch, Move, Store} {
      WriterPads(s, e.amount);
    } else {
      hide Step;
      OthersKeepPage(s, e);
    }
  }

  lemma {:induction false} RunPads(s: State, events: seq<Event>)
    requires IsPair(s) && Padded(s.page, s.procs[0]) && NoSpawn(events)
    ensures IsPair(RunAll(s, events)) && Padded(RunAll(s, events).page, RunAll(s, events).procs[0])
    decreases |events|
  {
    hide Padded, Step;
    if events != [] {
      assert !events[0].Spawn?;
      StepPads(s, events[0]);
      RunPads(Step(s, events[0]), events[1..]);
    }
  }

  /** No bytes of an earlier chunk stay in the page: past the stored length it holds zeros, except
      between the writer's copy and its store of the new length. */
  lemma PageIsPadded(file: seq<Byte>, events: seq<Event>)
    requires NoSpawn(events)
    ensures var s := RunAll(Init(file), events);
            && IsPair(s) && |s.page.data| == CHUNK == 4096 - 8
            && (s.procs[0].pc != Store ==>
                  0 <= s.page.size <= CHUNK && s.page.data[s.page.size..] == Zeros(CHUNK - s.page.size))
  {
    RunPads(Init(file), events);
  }

  // ------------------------------------------------------------------ no progress

  // One process runs its first four calls undisturbed, up to its Sync.
  function Joined(s: State, pid: nat): State
    requires pid < |s.procs|
  {
    var p := s.procs[pid];
    var post := if p.role.Writer? then SyncRd else SyncWr;
    var v := s.sem.Set(Alone(p.role), 1).Set(Theirs(p.role), if p.role.Writer? then 0 else 1);
    State(v.Set(post, s.sem.Get(post) + 1), s.page,
          s.procs[pid := p.(pc := Sync, adj := p.adj.Set(Alone(p.role), -1))])
  }

  // A process that starts where `JoinRun` applies.
  predicate CanJoin(s: State, pid: nat) {
    && IsPair(s) && pid < 2 && s.procs[pid].alive && s.procs[pid].pc == Gate
    && s.procs[pid].adj == ZERO && s.sem.Get(Alone(s.procs[pid].role)) == 0 == s.sem.numProc
    && s.procs[1 - pid].adj.full == 0 == s.procs[1 - pid].adj.empty
  }

  lemma JoinRun(s: State, pid: nat)
    requires CanJoin(s, pid)
    ensures var run := Run(pid, 0);
            Step(Step(Step(Step(s, run), run), run), run) == Joined(s, pid)
  {
    var p, run := s.procs[pid], Run(pid, 0);
    JoinEffect(s.sem, p.adj, p.role, Gate);
    var v, a := s.sem.Set(Alone(p.role), 1), p.adj.Set(Alone(p.role), -1);
    var s1 := State(v, s.page, s.procs[pid := p.(pc := WaitPrev, adj := a)]);
    assert Step(s, run) == s1;
    JoinEffect(v, a, p.role, WaitPrev);
    var s2 := State(v, s.page, s.procs[pid := p.(pc := SetVal, adj := a)]);
    assert Step(s1, run) == s2;
    var s3 := State(v.Set(Theirs(p.role), if p.role.Writer? then 0 else 1), s.page,
                    s.procs[pid := p.(pc := Post, adj := a)]);
    assert Step(s2, run).procs == s3.procs;
    assert Step(s2, run) == s3;
    JoinEffect(s3.sem, a, p.role, Post);
  }

  lemma RunCons(s: State, e: Event, rest: seq<Event>)
    ensures RunAll(s, [e] + rest) == RunAll(Step(s, e), rest)
  {
    assert ([e] + rest)[1..] == rest;
  }

  lemma Run4(s: State, e: Event, rest: seq<Event>)
    ensures RunAll(s, [e, e, e, e] + rest) == RunAll(Step(Step(Step(Step(s, e), e), e), e), rest)
  {
    assert [e, e, e, e] + rest == [e] + ([e] + ([e] + ([e] + rest)));
    RunCons(s, e, [e] + ([e] + ([e] + rest)));
    RunCons(Step(s, e), e, [e] + ([e] + rest));
    RunCons(Step(Step(s, e), e), e, [e] + rest);
    RunCons(Step(Step(Step(s, e), e), e), e, rest);
  }

  lemma JoinFour(s: State, pid: nat, rest: seq<Event>)
    requires CanJoin(s, pid)
    ensures var run := Run(pid, 0); RunAll(s, [run, run, run, run] + rest) == RunAll(Joined(s, pid), rest)
  {
    Run4(s, Run(pid, 0), rest);
    JoinRun(s, pid);
  }

  // Both sides have joined and are about to enter the session.
  function BothJoined(file: seq<Byte>): State { Joined(Joined(Init(file), 0), 1) }

  lemma JoinBoth(file: seq<Byte>, rest: seq<Event>)
    ensures var w, r := Run(0, 0), Run(1, 0);
            RunAll(Init(file), [w, w, w, w] + ([r, r, r, r] + rest)) == RunAll(BothJoined(file), rest)
  {
    JoinFour(Init(file), 0, [Run(1, 0), Run(1, 0), Run(1, 0), Run(1, 0)] + rest);
    JoinFour(Joined(Init(file), 0), 1, rest);
  }

  lemma BothJoinedShape(file: seq<Byte>)
    ensures var s := BothJoined(file);
            && IsPair(s) && s.procs[0].alive && s.procs[0].pc == Sync
            && s.procs[1].alive && s.procs[1].pc == Sync && s.procs[1].out == []
            && s.sem.syncWr == 1 && s.sem.numProc == 0 && s.sem.full == 0 && s.sem.empty == 1
  {
  }

  // The peer check with nobody else in the session.
  lemma LonelyCheck(v: Vals, a: Vals, role: Role)
    requires v.numProc == 1
    ensures Semop(v, a, Ops(role, Check)) == Again
  {
    SemopUnrolled(v, a, Ops(role, Check));
  }

  lemma LastThree(s: State)
    requires IsPair(s) && s.procs[0].alive && s.procs[0].pc == Sync && s.procs[1].alive && s.procs[1].pc == Sync
    requires s.sem.syncWr == 1 && s.sem.numProc == 0 && s.sem.full == 0 && s.sem.empty == 1
    ensures var t := RunAll(s, [Run(0, 0), Run(0, 0), Run(0, 0)]);
            && IsPair(t) && !t.procs[0].alive && t.procs[0].pc == Check && t.procs[1] == s.procs[1]
  {
    hide Semop;
    var w := Run(0, 0);
    assert [w, w, w] == [w] + ([w] + ([w] + []));
    RunCons(s, w, [w] + ([w] + []));
    SyncEffect(s.sem, s.procs[0].adj, Writer);
    var s1 := Step(s, w);
    RunCons(s1, w, [w] + []);
    TakeEffect(s1.sem, s1.procs[0].adj, Writer);
    var s2 := Step(s1, w);
    RunCons(s2, w, []);
    LonelyCheck(s2.sem, s2.procs[0].adj, Writer);
  }

  // Both sides join; the writer goes on before the reader's Sync, and its check fails.
  function Hasty(): (events: seq<Event>)
    ensures forall i :: 0 <= i < |events| ==> events[i].Run?
  {
    var w, r := Run(0, 0), Run(1, 0);
    [w, w, w, w] + ([r, r, r, r] + [w, w, w])
  }

  /** Why no progress is claimed: with nobody killed, the writer can exit with an error before
      a single byte is sent, while the reader is alive and has not failed. */
  lemma WriterMayFailEarly(file: seq<Byte>)
    ensures var s := RunAll(Init(file), Hasty());
            && IsPair(s) && !s.procs[0].alive && s.procs[0].pc == Check
            && s.procs[1].alive && s.procs[1].pc == Sync && s.procs[1].out == []
  {
    hide BothJoined, RunAll;
    JoinBoth(file, [Run(0, 0), Run(0, 0), Run(0, 0)]);
    BothJoinedShape(file);
    LastThree(BothJoined(file));
  }
}
