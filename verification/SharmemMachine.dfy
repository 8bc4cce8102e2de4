/** The same machine with its state updated in place: the kernel's semaphore set, the shared
    page and the process table are fields, and each call of the two programs is a method. */
module SharmemMachine {
  import opened Semaphores
  import opened Sharmem
  import opened SharmemPair
  import opened SharmemProgress
  import opened SharmemEnding

  class Machine {
    var sem: Vals
    var page: Page
    var procs: seq<Proc>

    function Snapshot(): State
      reads this
    {
      State(sem, page, procs)
    }

    // The gate accounting.
    ghost predicate Valid()
      reads this
    {
      Accounting(Snapshot())
    }

    constructor ()
      ensures Valid() && Snapshot() == EMPTY_WORLD
    {
      sem, page, procs := ZERO, FRESH_PAGE, [];
    }

    // A writer and a reader have been started.
    constructor Pair(file: seq<Byte>)
      ensures Valid() && PairInv(Snapshot()) && Snapshot() == Init(file)
    {
      sem, page, procs := ZERO, FRESH_PAGE, [Start(Writer, file), Start(Reader, [])];
      new;
      hide Accounting, PairInv;
      InitAccounting(file);
      InitInv(file);
    }

    method Exit(pid: nat)
      requires pid < |procs|
      modifies this
      ensures Snapshot() == Sharmem.Exit(old(Snapshot()), pid)
    {
      var p := procs[pid];
      sem := Undo(sem, p.adj);
      procs := procs[pid := p.(alive := false, adj := ZERO)];
    }

    // The kernel tries the operations in order on copies, and commits only if all succeed.
    method Semop(pid: nat, ops: seq<SemBuf>) returns (r: Outcome)
      requires pid < |procs|
      modifies this
      ensures r == Semaphores.Semop(old(sem), old(procs[pid].adj), ops)
      ensures r.Done? ==>
                Snapshot() == Put(old(Snapshot()).(sem := r.vals), pid, old(procs[pid]).(adj := r.adj))
      ensures !r.Done? ==> Snapshot() == old(Snapshot())
    {
      r := Done(sem, procs[pid].adj);
      var i := 0;
      while i < |ops|
        invariant 0 <= i <= |ops|
        invariant Snapshot() == old(Snapshot()) && procs == old(procs)
        invariant Semaphores.Semop(sem, procs[pid].adj, ops) == ApplyAll(r, ops[i..])
      {
        assert ops[i..] == [ops[i]] + ops[i + 1..];
        ApplyCons(r, ops[i], ops[i + 1..]);
        r := Apply(r, ops[i]);
        i := i + 1;
      }
      if r.Done? {
        sem := r.vals;
        procs := procs[pid := procs[pid].(adj := r.adj)];
      }
    }

    // One `semop` call of a program: on success go on, on EAGAIN exit with an error.
    method SemCall(pid: nat)
      requires pid < |procs|
      modifies this
      ensures Snapshot() == SemStep(old(Snapshot()), pid)
    {
      var p := procs[pid];
      var r := Semop(pid, Ops(p.role, p.pc));
      if r.Done? {
        procs := procs[pid := procs[pid].(pc := After(p))];
      } else if r.Again? {
        Exit(pid);
      }
    }

    method SetValCall(pid: nat)
      requires pid < |procs|
      modifies this
      ensures Snapshot() == SetValStep(old(Snapshot()), pid)
    {
      var s := Theirs(procs[pid].role);
      ghost var was := procs;
      sem := sem.Set(s, if s == Full then 0 else 1);
      var i := 0;
      while i < |procs|
        invariant 0 <= i <= |procs| == |was|
        invariant sem == old(sem).Set(s, if s == Full then 0 else 1) && page == old(page)
        invariant forall k :: 0 <= k < |was| ==>
          procs[k] == if k < i then was[k].(adj := was[k].adj.Set(s, 0)) else was[k]
      {
        procs := procs[i := procs[i].(adj := procs[i].adj.Set(s, 0))];
        i := i + 1;
      }
      procs := procs[pid := procs[pid].(pc := Post)];
    }

    // The writer's body between P (EMPTY) and V (FULL).
    method WriterCall(pid: nat, amount: nat)
      requires pid < |procs|
      modifies this
      ensures Snapshot() == WriterStep(old(Snapshot()), pid, amount)
    {
      var p := procs[pid];
      match p.pc {
        case Fetch =>
          if ReadReturns(p, amount) && amount <= |p.tmp| {
            p := p.(tmp := p.file[p.pos..p.pos + amount] + p.tmp[amount..]);
            p := p.(num := amount, pos := p.pos + amount, pc := Move);
          }
        case Move =>
          if CHUNK <= |p.tmp| {
            page := page.(data := p.tmp[..CHUNK]);
            p := p.(pc := Store);
          }
        case _ =>
          page := page.(size := p.num);
          p := p.(tmp := Zeros(PAGE_SIZE), pc := Give);
      }
      procs := procs[pid := p];
    }

    // The reader's body between P (FULL) and V (EMPTY).
    method ReaderCall(pid: nat, amount: nat)
      requires pid < |procs|
      modifies this
      ensures Snapshot() == ReaderStep(old(Snapshot()), pid, amount)
    {
      var p := procs[pid];
      if p.pc == Fetch {
        procs := procs[pid := p.(num := page.size, pc := Move)];
      } else if amount <= p.num <= |page.data| {
        p := p.(out := p.out + page.data[..amount]);
        procs := procs[pid := p];
        if amount == p.num {
          procs := procs[pid := p.(pc := Give)];
        } else {
          Exit(pid);
        }
      }
    }

    method Do(e: Event)
      modifies this
      ensures Snapshot() == Step(old(Snapshot()), e)
      ensures old(Valid()) ==> Valid()
      ensures old(PairInv(Snapshot())) && !e.Spawn? ==> PairInv(Snapshot())
    {
      hide Accounting, PairInv;
      ghost var was := Snapshot();
      if Accounting(was) { StepKeepsAccounting(was, e); }
      if PairInv(was) && !e.Spawn? { StepKeeps(was, e); }
      match e {
        case Spawn(role, file) =>
          procs := procs + [Start(role, file)];
        case Kill(pid) =>
          if pid < |procs| && procs[pid].alive { Exit(pid); }
        case Run(pid, amount) =>
          if pid < |procs| && procs[pid].alive {
            var p := procs[pid];
            if p.pc == SetVal {
              SetValCall(pid);
            } else if p.pc == Leave {
              Exit(pid);
            } else if p.pc == Fetch || p.pc == Move || p.pc == Store {
              if p.role.Writer? {
                WriterCall(pid, amount);
              } else if p.pc != Store {
                ReaderCall(pid, amount);
              }
            } else {
              SemCall(pid);
            }
          }
      }
    }

    /** Any programs started and killed in any order: after every list of events the counters in
        the semaphore set are the numbers of live processes, within their bounds. */
    method Play(events: seq<Event>)
      requires Valid()
      modifies this
      ensures Valid() && Snapshot() == RunAll(old(Snapshot()), events)
      ensures sem.aloneRd == Count(procs, GateReaders) <= 1
      ensures sem.aloneWr == Count(procs, GateWriters) <= 1
      ensures sem.numProc == Count(procs, Session) <= 2
    {
      var i := 0;
      while i < |events|
        invariant 0 <= i <= |events| && Valid()
        invariant RunAll(old(Snapshot()), events) == RunAll(Snapshot(), events[i..])
      {
        hide Valid;
        Do(events[i]);
        i := i + 1;
      }
      SessionBound(procs);
    }

    /** One writer and one reader, any interleaving and any kills: the output is a prefix of the
        file, all of it once the writer has left its loop, and the page has one holder at most. */
    method PlayPair(events: seq<Event>)
      requires PairInv(Snapshot()) && NoSpawn(events)
      modifies this
      ensures |procs| == 2 && procs[0].file == old(procs[0].file)
      ensures procs[1].out <= procs[0].file
      ensures Rank(procs[0]) >= 11 ==> procs[1].out == procs[0].file
      ensures InSession(procs[0]) && InSession(procs[1]) ==> Tokens(sem, procs[0], procs[1]) == 1
      ensures PairInv(Snapshot())
    {
      var i := 0;
      while i < |events|
        invariant 0 <= i <= |events| && PairInv(Snapshot()) && procs[0].file == old(procs[0].file)
      {
        hide Inv, Step;
        FileFixed(Snapshot(), events[i]);
        Do(events[i]);
        i := i + 1;
      }
    }

    /** Both sides are in the session: any scheduler that kills nobody and completes the reader's
        writes comes to the end of the writer's loop, with the whole file output. */
    method Transfer()
      requires PairInv(Snapshot()) && InSession(procs[0]) && InSession(procs[1])
      modifies this
      ensures |procs| == 2 && procs[0].pc == End
      ensures procs[1].out == procs[0].file == old(procs[0].file)
    {
      hide Inv, Left, InSession, Effective;
      LeftBounds(Snapshot());
      while procs[0].pc != End
        invariant PairInv(Snapshot()) && InSession(procs[0]) && InSession(procs[1])
        invariant procs[0].file == old(procs[0].file) && 0 <= Left(Snapshot())
        decreases Left(Snapshot())
      {
        SomeoneCanRun(Snapshot());
        var e :| Effective(Snapshot(), e);
        EffectiveRuns(Snapshot(), e);
        StepAdvances(Snapshot(), e);
        FileFixed(Snapshot(), e);
        Do(e);
        LeftBounds(Snapshot());
      }
      EndMeansAll(Snapshot());
    }

    /** The session has begun: whatever the scheduler does, kills and short writes included, both
        processes come to their end, and the gates and the session are free again. */
    method RunToEnd()
      requires Underway(Snapshot())
      modifies this
      ensures |procs| == 2 && !procs[0].alive && !procs[1].alive
      ensures sem.aloneRd == 0 && sem.aloneWr == 0 && sem.numProc == 0
    {
      hide Underway, TotalLeft, Happens, PairInv, Accounting;
      UnderwayIsPair(Snapshot());
      TotalBounds(Snapshot());
      while procs[0].alive || procs[1].alive
        invariant Underway(Snapshot()) && IsPair(Snapshot()) && 0 <= TotalLeft(Snapshot())
        decreases TotalLeft(Snapshot())
      {
        SomeoneGoesOn(Snapshot());
        var e :| Happens(Snapshot(), e);
        StepEnds(Snapshot(), e);
        Do(e);
        UnderwayIsPair(Snapshot());
        TotalBounds(Snapshot());
      }
      UnderwayIsPair(Snapshot());
      GoneIsClean(Snapshot());
    }
  }
}
