/** What progress the Sharmem pair does make: once both sides are in the session, and as long
    as nobody is killed and no write is short, the transfer goes through to the end. */
module SharmemProgress {
  import opened Semaphores
  import opened Sharmem
  import opened SharmemPair

  // Both sides have joined, and the writer has not seen the end of the file.
  predicate Transferring(s: State) {
    PairInv(s) && InSession(s.procs[0]) && InSession(s.procs[1]) && s.procs[0].pc != End
  }

  // A step of one of the two that gets somewhere, with the reader's write complete.
  predicate Effective(s: State, e: Event)
    requires IsPair(s)
  {
    && e.Run? && e.pid < 2 && Step(s, e) != s
    && (e.pid == 1 && s.procs[1].pc == Move ==> e.amount == s.procs[1].num)
  }

  // The steps left in the current round.
  function Phase(v: Vals, w: Proc, r: Proc): nat {
    match w.pc
    case Check => 5
    case Fetch => 4
    case Move => if w.num == 0 then 3 else 14
    case Store => if w.num == 0 then 2 else 13
    case Give => if w.num == 0 then 1 else 12
    case Take =>
      (match r.pc
       case Take => if v.full == 1 then 11 else 6
       case Check => 10
       case Fetch => 9
       case Move => 8
       case _ => 7)
    case _ => 0
  }

  function Left(s: State): int
    requires IsPair(s)
  {
    12 * (|s.procs[0].file| - s.procs[0].pos) + Phase(s.sem, s.procs[0], s.procs[1])
  }

  lemma LeftBounds(s: State)
    requires PairInv(s)
    ensures 0 <= Left(s) <= 12 * |s.procs[0].file| + 14
  {
  }

  // What the invariant says about the two while they transfer.
  lemma WhileTransferring(s: State)
    requires Transferring(s)
    ensures var w, r := s.procs[0], s.procs[1];
            && w.pc in {Take, Check, Fetch, Move, Store, Give} && r.pc in {Take, Check, Fetch, Move, Give}
            && s.sem.empty >= 0 && s.sem.full >= 0 && Tokens(s.sem, w, r) == 1
            && w.pos <= |w.file| && |w.tmp| == PAGE_SIZE && |s.page.data| == CHUNK
            && (w.pc in {Take, Check, Fetch} ==> w.num != 0)
            && (w.pc in {Move, Store, Give} ==> w.num >= 0)
            && (r.pc in {Move, Give} ==> 0 < r.num <= CHUNK)
            && (r.pc in {Check, Fetch, Move, Give} ==> w.pc == Take)
            && Rendezvous(s.sem, w, r)
  {
  }

  lemma WriterSemAdvances(s: State)
    requires Transferring(s) && s.procs[0].pc in {Take, Check, Give} && SemStep(s, 0) != s
    ensures var t := SemStep(s, 0);
            IsPair(t) && InSession(t.procs[0]) && t.procs[1] == s.procs[1] && Left(t) < Left(s)
  {
    hide Semop, Inv, Rendezvous;
    WhileTransferring(s);
    TakeEffect(s.sem, s.procs[0].adj, Writer);
    GiveEffect(s.sem, s.procs[0].adj, Writer);
    if s.procs[0].pc == Check { CheckStep(s, 0); }
  }

  lemma WriterDataAdvances(s: State, amount: nat)
    requires Transferring(s) && s.procs[0].pc in {Fetch, Move, Store} && WriterStep(s, 0, amount) != s
    ensures var t := WriterStep(s, 0, amount);
            IsPair(t) && InSession(t.procs[0]) && t.procs[1] == s.procs[1] && Left(t) < Left(s)
  {
    hide Inv;
    WhileTransferring(s);
  }

  lemma ReaderTakeAdvances(s: State)
    requires Transferring(s) && s.procs[1].pc == Take && SemStep(s, 1) != s
    ensures var t := SemStep(s, 1);
            IsPair(t) && InSession(t.procs[1]) && t.procs[0] == s.procs[0] && Left(t) < Left(s)
  {
    hide Semop, Inv, Rendezvous;
    WhileTransferring(s);
    TakeEffect(s.sem, s.procs[1].adj, Reader);
  }

  lemma ReaderCheckAdvances(s: State)
    requires Transferring(s) && s.procs[1].pc == Check
    ensures var t := SemStep(s, 1);
            IsPair(t) && InSession(t.procs[1]) && t.procs[0] == s.procs[0] && Left(t) < Left(s)
  {
    hide Semop, Inv, Rendezvous;
    WhileTransferring(s);
    CheckStep(s, 1);
  }

  lemma ReaderGiveAdvances(s: State)
    requires Transferring(s) && s.procs[1].pc == Give
    ensures var t := SemStep(s, 1);
            IsPair(t) && InSession(t.procs[1]) && t.procs[0] == s.procs[0] && Left(t) < Left(s)
  {
    hide Semop, Inv, Rendezvous;
    WhileTransferring(s);
    GiveEffect(s.sem, s.procs[1].adj, Reader);
  }

  lemma ReaderDataAdvances(s: State, amount: nat)
    requires Transferring(s) && s.procs[1].pc in {Fetch, Move} && ReaderStep(s, 1, amount) != s
    requires s.procs[1].pc == Move ==> amount == s.procs[1].num
    ensures var t := ReaderStep(s, 1, amount);
            IsPair(t) && InSession(t.procs[1]) && t.procs[0] == s.procs[0] && Left(t) < Left(s)
  {
    hide Inv;
    WhileTransferring(s);
  }

  // Every effective step keeps both sides in the session and leaves less to do.
  lemma StepAdvances(s: State, e: Event)
    requires Transferring(s) && Effective(s, e)
    ensures var t := Step(s, e);
            PairInv(t) && InSession(t.procs[0]) && InSession(t.procs[1]) && Left(t) < Left(s)
  {
    hide Inv, Phase, Left;
    StepKeeps(s, e);
    WhileTransferring(s);
    var pc := s.procs[e.pid].pc;
    if e.pid == 0 {
      if pc in {Take, Check, Give} { WriterSemAdvances(s); } else { WriterDataAdvances(s, e.amount); }
    } else {
      if pc == Take { ReaderTakeAdvances(s); }
      else if pc == Check { ReaderCheckAdvances(s); }
      else if pc == Give { ReaderGiveAdvances(s); }
      else { ReaderDataAdvances(s, e.amount); }
    }
  }

  // What the writer's next read may return.
  function ReadAmount(p: Proc): nat
    requires p.pos <= |p.file|
  {
    if |p.file| - p.pos < CHUNK then |p.file| - p.pos else CHUNK
  }

  lemma WriterCanRun(s: State)
    requires Transferring(s) && (s.procs[0].pc != Take || s.sem.empty == 1)
    ensures Effective(s, Run(0, ReadAmount(s.procs[0])))
  {
    hide Semop, Inv, Rendezvous;
    WhileTransferring(s);
    TakeEffect(s.sem, s.procs[0].adj, Writer);
    GiveEffect(s.sem, s.procs[0].adj, Writer);
    if s.procs[0].pc == Check { CheckStep(s, 0); }
    assert Step(s, Run(0, ReadAmount(s.procs[0]))).procs[0].pc != s.procs[0].pc;
  }

  lemma ReaderCanRun(s: State)
    requires Transferring(s) && s.procs[0].pc == Take && s.sem.empty == 0
    ensures var n := s.procs[1].num; Effective(s, Run(1, if n >= 0 then n else 0))
  {
    hide Semop, Inv, Rendezvous;
    WhileTransferring(s);
    TakeEffect(s.sem, s.procs[1].adj, Reader);
    GiveEffect(s.sem, s.procs[1].adj, Reader);
    if s.procs[1].pc == Check { CheckStep(s, 1); }
    var n := s.procs[1].num;
    assert Step(s, Run(1, if n >= 0 then n else 0)).procs[1].pc != s.procs[1].pc;
  }

  // Someone can always go on.
  lemma SomeoneCanRun(s: State)
    requires Transferring(s)
    ensures exists e :: Effective(s, e)
  {
    WhileTransferring(s);
    if s.procs[0].pc != Take || s.sem.empty == 1 {
      WriterCanRun(s);
    } else {
      ReaderCanRun(s);
    }
  }

  // A run of effective steps, up to the moment the writer leaves its loop.
  ghost predicate EffectiveRun(s: State, events: seq<Event>)
    decreases |events|
  {
    events == [] || (Transferring(s) && Effective(s, events[0]) && EffectiveRun(Step(s, events[0]), events[1..]))
  }

  lemma {:induction false} RunAdvances(s: State, events: seq<Event>)
    requires PairInv(s) && InSession(s.procs[0]) && InSession(s.procs[1]) && EffectiveRun(s, events)
    ensures var t := RunAll(s, events);
            && PairInv(t) && InSession(t.procs[0]) && InSession(t.procs[1])
            && |events| + Left(t) <= Left(s)
            && t.procs[0].file == s.procs[0].file
    decreases |events|
  {
    hide Inv, Left, InSession;
    if events != [] {
      StepAdvances(s, events[0]);
      FileFixed(s, events[0]);
      RunAdvances(Step(s, events[0]), events[1..]);
    }
  }

  // Both sides join, and neither goes on before both are in the session.
  function Patient(): (events: seq<Event>)
    ensures NoSpawn(events)
  {
    var w, r := Run(0, 0), Run(1, 0);
    [w, w, w, w] + ([r, r, r, r] + ([w] + [r]))
  }

  lemma BothSync(file: seq<Byte>)
    ensures var t := RunAll(BothJoined(file), [Run(0, 0)] + [Run(1, 0)]);
            && IsPair(t) && t.procs[0].alive && t.procs[1].alive
            && t.procs[0].pc == Take && t.procs[1].pc == Take
  {
    var s := BothJoined(file);
    RunCons(s, Run(0, 0), [Run(1, 0)]);
    SyncEffect(s.sem, s.procs[0].adj, Writer);
    var t := Step(s, Run(0, 0));
    assert [Run(1, 0)] == [Run(1, 0)] + [];
    RunCons(t, Run(1, 0), []);
    SyncEffect(t.sem, t.procs[1].adj, Reader);
  }

  // Such a state is reached when both sides get through their Sync first.
  lemma SessionIsReached(file: seq<Byte>)
    ensures Transferring(RunAll(Init(file), Patient()))
  {
    hide Inv;
    var w, r := Run(0, 0), Run(1, 0);
    JoinBoth(file, [w] + [r]);
    BothSync(file);
    InitInv(file);
    RunKeeps(Init(file), Patient());
  }

  // The invariant holds wherever the pair gets to, and the file is still the same.
  lemma ReachedInv(file: seq<Byte>, before: seq<Event>)
    requires NoSpawn(before)
    ensures PairInv(RunAll(Init(file), before)) && RunAll(Init(file), before).procs[0].file == file
  {
    InitInv(file);
    RunKeeps(Init(file), before);
  }

  /** From any reachable state with both sides in the session: whatever the interleaving, if
      nobody is killed and no write is short, the number of further steps is bounded. */
  lemma TransferIsBounded(file: seq<Byte>, before: seq<Event>, events: seq<Event>)
    requires NoSpawn(before)
    requires var s := RunAll(Init(file), before);
             && IsPair(s) && InSession(s.procs[0]) && InSession(s.procs[1])
             && EffectiveRun(s, events)
    ensures |events| <= 12 * |file| + 14
  {
    hide Inv, Left, InSession, Effective, Init;
    var s := RunAll(Init(file), before);
    ReachedInv(file, before);
    RunAdvances(s, events);
    LeftBounds(s);
    LeftBounds(RunAll(s, events));
  }

  lemma EndMeansAll(s: State)
    requires PairInv(s) && s.procs[0].pc == End
    ensures s.procs[1].out == s.procs[0].file
  {
  }

  /** And the two never block or fail before the writer has left its loop, when all is output. */
  lemma TransferCompletes(file: seq<Byte>, before: seq<Event>, events: seq<Event>)
    requires NoSpawn(before)
    requires var s := RunAll(Init(file), before);
             && IsPair(s) && InSession(s.procs[0]) && InSession(s.procs[1])
             && EffectiveRun(s, events)
    ensures var t := RunAll(RunAll(Init(file), before), events);
            && IsPair(t)
            && if t.procs[0].pc == End then t.procs[1].out == file else exists e :: Effective(t, e)
  {
    hide Inv, Left, InSession, Effective, Init;
    var s := RunAll(Init(file), before);
    ReachedInv(file, before);
    RunAdvances(s, events);
    var t := RunAll(s, events);
    if t.procs[0].pc == End { EndMeansAll(t); } else { SomeoneCanRun(t); }
  }

  // ------------------------------------------------------------------ the last peer check

  // Nobody is killed and no program is started.
  predicate OnlyRuns(events: seq<Event>) {
    forall i :: 0 <= i < |events| ==> events[i].Run?
  }

  lemma {:induction false} RunAppend(s: State, a: seq<Event>, b: seq<Event>)
    ensures RunAll(s, a + b) == RunAll(RunAll(s, a), b)
    decreases |a|
  {
    if a == [] {
      assert a + b == b;
    } else {
      assert (a + b)[1..] == a[1..] + b;
      RunAppend(Step(s, a[0]), a[1..], b);
    }
  }

  // The writer has just put the zero-length chunk; the reader is about to take it.
  predicate LastChunkGiven(s: State) {
    && PairInv(s) && s.procs[0].alive && s.procs[0].pc == End && s.sem.numProc == 2
    && s.procs[1].alive && s.procs[1].pc == Take && s.sem.full == 1
    && s.sem.aloneWr >= 1
  }

  lemma SessionCount(s: State)
    requires PairInv(s) && InSession(s.procs[0]) && InSession(s.procs[1])
    ensures s.sem.numProc == 2
  {
  }

  // Only the writer's own V leads it to the end operation.
  lemma WriterGives(s: State, e: Event)
    requires Transferring(s) && Effective(s, e)
    ensures Step(s, e).procs != [] && (Step(s, e).procs[0].pc == End ==> e.pid == 0 && s.procs[0].pc == Give)
  {
    hide Inv;
    WhileTransferring(s);
    SemopUnrolled(s.sem, s.procs[e.pid].adj, Ops(s.procs[e.pid].role, s.procs[e.pid].pc));
  }

  // The step that takes the writer out of its loop leaves the token for the reader.
  lemma LastGive(s: State, e: Event)
    requires Transferring(s) && Effective(s, e)
    ensures IsPair(Step(s, e))
    ensures Step(s, e).procs[0].pc == End && s.sem.aloneWr >= 1 ==> LastChunkGiven(Step(s, e))
  {
    hide Semop, Inv, Rendezvous;
    StepAdvances(s, e);
    WhileTransferring(s);
    WriterGives(s, e);
    GiveEffect(s.sem, s.procs[0].adj, Writer);
    SessionCount(s);
  }

  // A writer in its loop is the one past its gate.
  lemma WriterIsAlone(s: State)
    requires Accounting(s) && IsPair(s) && InSession(s.procs[0])
    ensures s.sem.aloneWr >= 1
  {
    CountPositive(s.procs, 0, GateWriters);
  }

  lemma EffectiveRuns(s: State, e: Event)
    requires IsPair(s) && Effective(s, e)
    ensures e.Run?
  {
  }

  // From the session a run without kills leads to the last chunk.
  lemma {:induction false} RunToLastChunk(s: State) returns (events: seq<Event>)
    requires Transferring(s) && Accounting(s)
    ensures OnlyRuns(events) && LastChunkGiven(RunAll(s, events))
    decreases Left(s)
  {
    hide Inv, Left, Effective, Accounting, InSession, LastChunkGiven;
    SomeoneCanRun(s);
    var e :| Effective(s, e);
    EffectiveRuns(s, e);
    StepAdvances(s, e);
    StepKeepsAccounting(s, e);
    LeftBounds(s);
    LeftBounds(Step(s, e));
    if Step(s, e).procs[0].pc == End {
      WriterIsAlone(s);
      LastGive(s, e);
      events := [e];
      assert [e] == [e] + [];
      RunCons(s, e, []);
    } else {
      var rest := RunToLastChunk(Step(s, e));
      events := [e] + rest;
      RunCons(s, e, rest);
    }
  }

  lemma FullIsThere(s: State)
    requires LastChunkGiven(s)
    ensures s.sem.full >= 0
  {
  }

  lemma RendezvousHolds(s: State)
    requires PairInv(s)
    ensures Rendezvous(s.sem, s.procs[0], s.procs[1])
  {
  }

  // The writer leaves first; then the reader takes the last chunk and checks for its peer.
  lemma WriterLeavesFirst(s: State)
    requires LastChunkGiven(s)
    ensures var t := RunAll(s, [Run(0, 0)] + ([Run(1, 0)] + [Run(1, 0)]));
            && IsPair(t) && t.procs[0].alive && t.procs[0].pc == Leave
            && !t.procs[1].alive && t.procs[1].pc == Check && t.procs[1].out == s.procs[1].out
  {
    hide Semop, Inv, Rendezvous;
    var r := Run(1, 0);
    RunCons(s, Run(0, 0), [r] + [r]);
    FullIsThere(s);
    EndEffect(s.sem, s.procs[0].adj, Writer);
    var s1 := Step(s, Run(0, 0));
    StepKeeps(s, Run(0, 0));
    RunCons(s1, r, [r]);
    TakeEffect(s1.sem, s1.procs[1].adj, Reader);
    var s2 := Step(s1, r);
    StepKeeps(s1, r);
    assert [r] == [r] + [];
    RunCons(s2, r, []);
    RendezvousHolds(s2);
    CheckStep(s2, 1);
  }

  // The pair is what two starts make of the empty world.
  lemma InitAccounting(file: seq<Byte>)
    ensures Accounting(Init(file))
  {
    hide Start;
    var first := Step(EMPTY_WORLD, Spawn(Writer, file));
    StepKeepsAccounting(EMPTY_WORLD, Spawn(Writer, file));
    StepKeepsAccounting(first, Spawn(Reader, []));
    assert Step(first, Spawn(Reader, [])).procs == Init(file).procs;
  }

  lemma PatientRuns()
    ensures OnlyRuns(Patient())
  {
  }

  lemma InitFile(file: seq<Byte>)
    ensures Init(file).procs[0].file == file
  {
  }

  /** Every file can be output in full, with nobody killed, and the reader still exits with an
      error: the writer leaves the session before the reader's last peer check. */
  lemma ReaderMayFailLate(file: seq<Byte>) returns (events: seq<Event>)
    ensures OnlyRuns(events)
    ensures var t := RunAll(Init(file), events);
            && IsPair(t) && t.procs[0].alive && t.procs[0].pc == Leave
            && !t.procs[1].alive && t.procs[1].pc == Check && t.procs[1].out == file
  {
    hide Inv, Accounting, InSession, Init, Patient;
    SessionIsReached(file);
    var s := RunAll(Init(file), Patient());
    InitAccounting(file);
    RunKeepsAccounting(Init(file), Patient());
    InitInv(file);
    RunKeeps(Init(file), Patient());
    var more := RunToLastChunk(s);
    RunKeeps(s, more);
    var t := RunAll(s, more);
    EndMeansAll(t);
    WriterLeavesFirst(t);
    var last := [Run(0, 0)] + ([Run(1, 0)] + [Run(1, 0)]);
    RunAppend(Init(file), Patient(), more + last);
    RunAppend(s, more, last);
    events := Patient() + (more + last);
    PatientRuns();
    InitFile(file);
  }
}
