/** How a session of the Sharmem pair ends: a death wakes the other side up, and once one side is
    gone or past its loop both come to their end and leave the gates free. */
module SharmemEnding {
  import opened Semaphores
  import opened Sharmem
  import opened SharmemPair
  import opened SharmemProgress

  // ------------------------------------------------------------------ a death

  /** A death in the session puts the token the other side waits for, so that it wakes up, and
      takes the dead process out of NUM_PROC, so that the peer check tells. */
  lemma DeathWakesPeer(s: State, pid: nat)
    requires PairInv(s) && InSession(s.procs[0]) && InSession(s.procs[1]) && pid < 2
    ensures var t := Step(s, Kill(pid));
            && IsPair(t) && t.procs[1 - pid] == s.procs[1 - pid]
            && t.procs[pid] == s.procs[pid].(alive := false, adj := ZERO)
            && t.sem.Get(Mine(s.procs[1 - pid].role)) >= 1
            && t.sem.numProc == s.sem.numProc - 1 == 1
  {
  }

  // After it, the other side's next peer check ends it.
  lemma CheckAfterDeath(s: State, pid: nat)
    requires PairInv(s) && pid < 2 && !s.procs[1 - pid].alive
    requires s.procs[pid].alive && s.procs[pid].pc == Check
    ensures Step(s, Run(pid, 0)) == Exit(s, pid)
  {
    hide Semop;
    CheckStep(s, pid);
  }

  /** The zero-length chunk takes the reader out of its loop. */
  lemma ReaderLeavesLoop(s: State)
    requires PairInv(s) && s.procs[1].alive && s.procs[1].pc == Give
    ensures SemStep(s, 1).procs[1].pc == if s.procs[1].num > 0 then Take else End
    ensures Rank(s.procs[0]) >= 11 ==> SemStep(s, 1).procs[1].pc == End
  {
    hide Semop;
    GiveEffect(s.sem, s.procs[1].adj, Reader);
  }

  // ------------------------------------------------------------------ the way out

  // A process that joined the session and is gone or past its loop.
  predicate Done(p: Proc) { Synced(p) && (!p.alive || Rank(p) >= 11) }

  ghost predicate Closing(s: State) {
    PairInv(s) && Accounting(s) && (Done(s.procs[0]) || Done(s.procs[1]))
  }

  predicate Gone(s: State) { IsPair(s) && !s.procs[0].alive && !s.procs[1].alive }

  // Something happens: a step of one of the two, with any result, or a kill.
  predicate Happens(s: State, e: Event) { !e.Spawn? && Step(s, e) != s }

  // The steps left to a writer whose peer is done, and to a reader whose peer is done.
  function WriterLeft(w: Proc): nat {
    if !w.alive then 0 else
    match w.pc
    case Leave => 1
    case End => 2
    case Check => 4
    case Take => 5
    case Sync => 6
    case Give => 6
    case Store => 7
    case Move => 8
    case Fetch => 9
    case _ => 10
  }

  function ReaderLeft(w: Proc, r: Proc): nat {
    if !r.alive then 0 else
    match r.pc
    case Leave => 1
    case End => 2
    case Check => if InSession(w) then 9 else 4
    case Take => if InSession(w) then 10 else 5
    case Sync => 6
    case Give => 6
    case Move => 7
    case Fetch => 8
    case _ => 10
  }

  function ClosingLeft(s: State): nat
    requires IsPair(s)
  {
    WriterLeft(s.procs[0]) + ReaderLeft(s.procs[0], s.procs[1])
  }

  // What the invariant says about the two on the way out.
  lemma WhileClosing(s: State)
    requires Closing(s)
    ensures var w, r, v := s.procs[0], s.procs[1], s.sem;
            && (w.alive ==> Rank(w) >= 4) && (r.alive ==> Rank(r) >= 4 && r.pc != Store)
            && (w.alive && Rank(w) < 11 ==> Synced(r) && !r.alive && (w.pc != Check ==> v.empty >= 1))
            && (r.alive && Rank(r) < 11 ==> Done(w))
            && (r.alive && r.pc == Take ==> v.full >= 1)
            && (r.alive && r.pc == End ==> v.empty >= 1)
            && (w.alive && w.pc == Sync ==> v.syncWr >= 1)
            && (r.alive && r.pc == Sync ==> v.syncRd >= 1 && !w.alive)
            && v.full >= 0 && v.empty >= 0
            && v.numProc == ToInt(InSession(w)) + ToInt(InSession(r))
            && w.pos <= |w.file| && |w.tmp| == PAGE_SIZE && |s.page.data| == CHUNK
            && (r.alive && r.pc in {Move, Give} ==> 0 <= r.num <= CHUNK)
            && (r.alive && r.pc == Give && w.alive ==> r.num == 0)
            && Rendezvous(v, w, r)
  {
  }

  lemma GatesWhileInside(s: State)
    requires Accounting(s) && IsPair(s)
    ensures InGate(s.procs[0]) ==> s.sem.aloneWr >= 1
    ensures InGate(s.procs[1]) ==> s.sem.aloneRd >= 1
  {
    if InGate(s.procs[0]) { CountPositive(s.procs, 0, GateWriters); }
    if InGate(s.procs[1]) { CountPositive(s.procs, 1, GateReaders); }
  }

  // ------------------------------------------------------------------ one step

  // The step of process pid is a step towards its end and leaves the other process alone.
  predicate Closer(s: State, t: State, pid: nat)
    requires IsPair(s) && pid < 2
  {
    && IsPair(t) && t.procs[1 - pid] == s.procs[1 - pid]
    && (Done(s.procs[pid]) ==> Done(t.procs[pid]))
    && (if pid == 0 then WriterLeft(t.procs[0]) < WriterLeft(s.procs[0])
        else ReaderLeft(s.procs[0], t.procs[1]) < ReaderLeft(s.procs[0], s.procs[1]))
  }

  // No call on the semaphores blocks any more.
  lemma WriterCallCloses(s: State)
    requires Closing(s) && s.procs[0].alive && s.procs[0].pc in {Sync, Take, Check, Give, End}
    ensures SemStep(s, 0) != s && Closer(s, SemStep(s, 0), 0)
  {
    hide Semop, Inv, Rendezvous, Accounting;
    var p := s.procs[0];
    WhileClosing(s);
    GatesWhileInside(s);
    SyncEffect(s.sem, p.adj, Writer);
    TakeEffect(s.sem, p.adj, Writer);
    GiveEffect(s.sem, p.adj, Writer);
    EndEffect(s.sem, p.adj, Writer);
    if p.pc == Check { CheckStep(s, 0); }
    assert SemStep(s, 0).procs[0] != p;
  }

  lemma ReaderCallCloses(s: State)
    requires Closing(s) && s.procs[1].alive && s.procs[1].pc in {Sync, Take, Check, Give, End}
    ensures SemStep(s, 1) != s && Closer(s, SemStep(s, 1), 1)
  {
    hide Semop, Inv, Rendezvous, Accounting;
    var p := s.procs[1];
    WhileClosing(s);
    GatesWhileInside(s);
    SyncEffect(s.sem, p.adj, Reader);
    TakeEffect(s.sem, p.adj, Reader);
    GiveEffect(s.sem, p.adj, Reader);
    EndEffect(s.sem, p.adj, Reader);
    if p.pc == Check { CheckStep(s, 1); }
    assert SemStep(s, 1).procs[1] != p;
  }

  lemma DataCloses(s: State, pid: nat, amount: nat)
    requires Closing(s) && pid < 2 && s.procs[pid].alive && s.procs[pid].pc in {Fetch, Move, Store}
    ensures var t := RunStep(s, pid, amount); t == s || Closer(s, t, pid)
  {
    hide Inv, Rendezvous, Accounting;
    WhileClosing(s);
  }

  lemma DeathCloses(s: State, pid: nat)
    requires Closing(s) && pid < 2 && s.procs[pid].alive
    ensures Closer(s, Exit(s, pid), pid)
  {
    hide Inv, Rendezvous, Accounting;
    WhileClosing(s);
  }

  lemma RunCloses(s: State, pid: nat, amount: nat)
    requires Closing(s) && pid < 2 && s.procs[pid].alive
    ensures var t := RunStep(s, pid, amount); t == s || Closer(s, t, pid)
  {
    hide Inv, Accounting, Closer, SemStep;
    WhileClosing(s);
    var pc := s.procs[pid].pc;
    if pc == Leave {
      DeathCloses(s, pid);
    } else if pc in {Fetch, Move, Store} {
      DataCloses(s, pid, amount);
    } else if pid == 0 {
      WriterCallCloses(s);
    } else {
      ReaderCallCloses(s);
    }
  }

  // The other process counts less or the same from there on.
  lemma CloserIsLess(s: State, t: State, pid: nat)
    requires Closing(s) && pid < 2 && Closer(s, t, pid) && s.procs[pid].alive
    ensures ClosingLeft(t) < ClosingLeft(s) && (Done(t.procs[0]) || Done(t.procs[1]))
  {
    hide Accounting, Rendezvous;
    WhileClosing(s);
  }

  lemma StepCloses(s: State, e: Event)
    requires Closing(s) && Happens(s, e)
    ensures Closing(Step(s, e)) && ClosingLeft(Step(s, e)) < ClosingLeft(s)
  {
    hide Inv, Accounting, Closer, ClosingLeft, RunStep;
    StepKeeps(s, e);
    StepKeepsAccounting(s, e);
    if e.Run? { RunCloses(s, e.pid, e.amount); } else { DeathCloses(s, e.pid); }
    CloserIsLess(s, Step(s, e), e.pid);
  }

  lemma ClosingBounds(s: State)
    requires Closing(s)
    ensures 0 <= ClosingLeft(s) <= 19
  {
    hide Inv, Accounting, Rendezvous;
    WhileClosing(s);
  }

  // Nobody sleeps any more.
  lemma SomeoneCloses(s: State)
    requires Closing(s) && !Gone(s)
    ensures exists e :: Happens(s, e) && e.Run?
  {
    hide Inv, Accounting, Rendezvous;
    WhileClosing(s);
    var pid := if s.procs[0].alive then 0 else 1;
    var p := s.procs[pid];
    var e := Run(pid, if p.pc == Fetch && p.role.Writer? then ReadAmount(p) else if p.num >= 0 then p.num else 0);
    if p.pc in {Sync, Take, Check, Give, End} {
      if pid == 0 { WriterCallCloses(s); } else { ReaderCallCloses(s); }
    } else {
      assert Step(s, e).procs[pid] != p;
    }
    assert Happens(s, e);
  }

  // With both gone nobody is past a gate or in the session.
  lemma GoneIsClean(s: State)
    requires Accounting(s) && Gone(s)
    ensures s.sem.aloneRd == 0 && s.sem.aloneWr == 0 && s.sem.numProc == 0
  {
    forall c ensures Count(s.procs, c) == 0 {
      var last := s.procs[1..];
      assert last[0] == s.procs[1] && last[1..] == [];
      assert Count(last, c) == 0;
    }
  }

  // ------------------------------------------------------------------ the whole session

  // Both sides are in the session, or one that was is gone or past its loop.
  ghost predicate Underway(s: State) {
    Closing(s) || (Transferring(s) && Accounting(s))
  }

  ghost function TotalLeft(s: State): int
    requires Underway(s)
  {
    if Closing(s) then ClosingLeft(s) else Left(s) + 20
  }

  lemma UnderwayIsPair(s: State)
    requires Underway(s)
    ensures IsPair(s) && Accounting(s)
  {
  }

  // Out of the session by death.
  lemma DeathBeginsEnd(s: State, e: Event)
    requires Transferring(s) && Accounting(s) && Happens(s, e) && !Effective(s, e)
    ensures Closing(Step(s, e))
  {
    hide Inv, Accounting;
    WhileTransferring(s);
    StepKeeps(s, e);
    StepKeepsAccounting(s, e);
  }

  lemma StepEnds(s: State, e: Event)
    requires Underway(s) && Happens(s, e)
    ensures Underway(Step(s, e)) && TotalLeft(Step(s, e)) < TotalLeft(s)
  {
    hide Inv, Accounting, Left, ClosingLeft, Effective, Step;
    if Closing(s) {
      StepCloses(s, e);
    } else {
      LeftBounds(s);
      if Effective(s, e) {
        StepAdvances(s, e);
        StepKeepsAccounting(s, e);
      } else {
        DeathBeginsEnd(s, e);
      }
      if Closing(Step(s, e)) { ClosingBounds(Step(s, e)); }
    }
  }

  lemma TotalBounds(s: State)
    requires Underway(s)
    ensures 0 <= TotalLeft(s) <= 12 * |s.procs[0].file| + 34
  {
    hide Inv, Accounting, Left, ClosingLeft;
    if Closing(s) { ClosingBounds(s); } else { LeftBounds(s); }
  }

  lemma SomeoneGoesOn(s: State)
    requires Underway(s) && !Gone(s)
    ensures exists e :: Happens(s, e) && e.Run?
  {
    hide Inv, Accounting;
    if Closing(s) {
      SomeoneCloses(s);
    } else {
      SomeoneCanRun(s);
      var e :| Effective(s, e);
      assert Happens(s, e);
    }
  }

  // A run in which every event changes something.
  ghost predicate HappeningRun(s: State, events: seq<Event>)
    decreases |events|
  {
    events == [] || (Happens(s, events[0]) && HappeningRun(Step(s, events[0]), events[1..]))
  }

  lemma {:induction false} RunEnds(s: State, events: seq<Event>)
    requires Underway(s) && HappeningRun(s, events)
    ensures Underway(RunAll(s, events)) && |events| + TotalLeft(RunAll(s, events)) <= TotalLeft(s)
    decreases |events|
  {
    hide Underway, TotalLeft, Happens;
    if events != [] {
      StepEnds(s, events[0]);
      RunEnds(Step(s, events[0]), events[1..]);
    }
  }

  // The pair gets to a state with both sides in the session, or with one that was done.
  ghost predicate HasJoined(s: State) {
    IsPair(s) && ((InSession(s.procs[0]) && InSession(s.procs[1])) || Done(s.procs[0]) || Done(s.procs[1]))
  }

  lemma JoinedIsUnderway(file: seq<Byte>, before: seq<Event>)
    requires NoSpawn(before) && HasJoined(RunAll(Init(file), before))
    ensures Underway(RunAll(Init(file), before)) && RunAll(Init(file), before).procs[0].file == file
  {
    hide Inv, Accounting, Init;
    ReachedInv(file, before);
    InitAccounting(file);
    RunKeepsAccounting(Init(file), before);
  }

  /** Once both sides have been in the session: whatever the interleaving, whoever is killed and
      however short a write is, the number of further steps is bounded. */
  lemma SessionIsBounded(file: seq<Byte>, before: seq<Event>, events: seq<Event>)
    requires NoSpawn(before) && HasJoined(RunAll(Init(file), before))
    requires HappeningRun(RunAll(Init(file), before), events)
    ensures |events| <= 12 * |file| + 34
  {
    hide Underway, TotalLeft, Init, Happens;
    var s := RunAll(Init(file), before);
    JoinedIsUnderway(file, before);
    RunEnds(s, events);
    TotalBounds(s);
    TotalBounds(RunAll(s, events));
  }

  /** And nobody sleeps forever: as long as one of the two is there, one of them can go on; and
      when both are gone, the gates and the session are free. */
  lemma SessionEnds(file: seq<Byte>, before: seq<Event>, events: seq<Event>)
    requires NoSpawn(before) && HasJoined(RunAll(Init(file), before))
    requires HappeningRun(RunAll(Init(file), before), events)
    ensures var t := RunAll(RunAll(Init(file), before), events);
            if Gone(t) then t.sem.aloneRd == 0 && t.sem.aloneWr == 0 && t.sem.numProc == 0
            else exists e :: Happens(t, e) && e.Run?
  {
    hide Inv, Accounting, TotalLeft, Init, Happens;
    var s := RunAll(Init(file), before);
    JoinedIsUnderway(file, before);
    RunEnds(s, events);
    var t := RunAll(s, events);
    if Gone(t) { GoneIsClean(t); } else { SomeoneGoesOn(t); }
  }
}
