/** The writer and reader programs of 3_sem/Sharmem as processes over one semaphore set
    and one shared page. A program is a program counter per system call; every system call
    (and every access to the page) is one atomic step, and a process may be killed between
    any two of them, which applies its undo vector. */
module Sharmem {
  import opened Semaphores

  type Byte = bv8

  const PAGE_SIZE := 4096
  // The page holds the chunk length in its first sizeof(size_t*) bytes.
  const CHUNK := PAGE_SIZE - 8

  datatype Role = Writer | Reader

  // The two programs have the same skeleton; `Store` is the writer's alone.
  datatype Pc =
    | Gate      // ALONE_*: 0 then +1
    | WaitPrev  // NUM_PROC: 0
    | SetVal    // semctl SETVAL on the semaphore the peer will wait for
    | Post      // V on the peer's SYNC_*
    | Sync      // P on the own SYNC_*, join NUM_PROC, leave an undo for the peer
    | Take      // P (EMPTY) or P (FULL)
    | Check     // NUM_PROC: -2 NOWAIT, +2
    | Fetch     // writer: read the file; reader: load the length
    | Move      // writer: copy the chunk to the page; reader: write the chunk out
    | Store     // writer: store the length, clear tmp_buf
    | Give      // V (FULL) or V (EMPTY), then the loop test
    | End       // leave NUM_PROC and the gate
    | Leave     // return; the process is about to exit

  // `adj` is the undo vector; `pos` and `tmp` are the writer's, `out` the reader's stdout.
  datatype Proc = Proc(role: Role, alive: bool, pc: Pc, adj: Vals, num: int,
                       file: seq<Byte>, pos: nat, tmp: seq<Byte>, out: seq<Byte>)

  datatype Page = Page(size: int, data: seq<Byte>)

  datatype State = State(sem: Vals, page: Page, procs: seq<Proc>)

  // What happens next: a process runs one step, is killed, or a new program starts.
  // `amount` is the byte count a read or write call returns.
  datatype Event = Run(pid: nat, amount: nat) | Kill(pid: nat) | Spawn(role: Role, file: seq<Byte>)

  function Zeros(n: nat): (z: seq<Byte>)
    ensures |z| == n
  {
    seq(n, _ => 0)
  }

  function Start(role: Role, file: seq<Byte>): Proc {
    Proc(role, true, Gate, ZERO, -1, file, 0, Zeros(PAGE_SIZE), [])
  }

  const FRESH_PAGE := Page(0, Zeros(CHUNK))

  // ------------------------------------------------------------------ operation arrays

  function P(s: Sem): SemBuf { SemBuf(s, -1, false, false) }
  function V(s: Sem): SemBuf { SemBuf(s, 1, false, false) }
  function Z(s: Sem): SemBuf { SemBuf(s, 0, false, false) }
  function PUndo(s: Sem): SemBuf { SemBuf(s, -1, true, false) }
  function VUndo(s: Sem): SemBuf { SemBuf(s, 1, true, false) }

  // The semaphore a side waits on in its loop, and the one it signals.
  function Mine(role: Role): Sem { if role.Writer? then Empty else Full }
  function Theirs(role: Role): Sem { if role.Writer? then Full else Empty }
  function Alone(role: Role): Sem { if role.Writer? then AloneWr else AloneRd }

  function Ops(role: Role, pc: Pc): seq<SemBuf> {
    match pc
    case Gate => [Z(Alone(role)), VUndo(Alone(role))]
    case WaitPrev => [Z(NumProc)]
    case Post => if role.Writer? then [V(SyncRd)] else [V(SyncWr)]
    case Sync =>
      [if role.Writer? then P(SyncWr) else P(SyncRd), VUndo(NumProc), V(Theirs(role)), PUndo(Theirs(role))]
    case Take => [P(Mine(role))]
    case Check => [SemBuf(NumProc, -2, false, true), SemBuf(NumProc, 2, false, false)]
    case Give => [V(Theirs(role))]
    case End =>
      if role.Writer? then [VUndo(Full), P(Full), PUndo(NumProc), PUndo(AloneWr)]
      else [PUndo(NumProc), PUndo(Empty), PUndo(AloneRd)]
    case _ => []
  }

  // The next program counter after a successful `semop`.
  function After(p: Proc): Pc {
    match p.pc
    case Gate => WaitPrev
    case WaitPrev => SetVal
    case Post => Sync
    case Sync => Take
    case Take => Check
    case Check => Fetch
    case Give => if p.num > 0 then Take else End
    case _ => Leave
  }

  // ------------------------------------------------------------------ steps

  function Put(s: State, pid: nat, p: Proc): State
    requires pid < |s.procs|
  {
    s.(procs := s.procs[pid := p])
  }

  // Death by signal, `exit` after an error, or the normal end of the program.
  function Exit(s: State, pid: nat): State
    requires pid < |s.procs|
  {
    var p := s.procs[pid];
    s.(sem := Undo(s.sem, p.adj), procs := s.procs[pid := p.(alive := false, adj := ZERO)])
  }

  function SemStep(s: State, pid: nat): State
    requires pid < |s.procs|
  {
    var p := s.procs[pid];
    match Semop(s.sem, p.adj, Ops(p.role, p.pc))
    case Done(vals, adj) => Put(s.(sem := vals), pid, p.(adj := adj, pc := After(p)))
    case Blocked => s
    case Again => Exit(s, pid)
  }

  // semctl SETVAL also clears every process's undo entry for that semaphore.
  function SetValStep(s: State, pid: nat): State
    requires pid < |s.procs|
  {
    var sem := Theirs(s.procs[pid].role);
    var x := if sem == Full then 0 else 1;
    var procs := seq(|s.procs|, i requires 0 <= i < |s.procs| =>
      s.procs[i].(adj := s.procs[i].adj.Set(sem, 0)));
    s.(sem := s.sem.Set(sem, x), procs := procs[pid := procs[pid].(pc := Post)])
  }

  // A `read` may return any positive count up to the request, and 0 exactly at the end.
  predicate ReadReturns(p: Proc, n: nat) {
    p.pos <= |p.file| &&
    if p.pos == |p.file| then n == 0 else 0 < n <= CHUNK && p.pos + n <= |p.file|
  }

  function WriterStep(s: State, pid: nat, amount: nat): State
    requires pid < |s.procs|
  {
    var p := s.procs[pid];
    match p.pc
    case Fetch =>
      if ReadReturns(p, amount) && amount <= |p.tmp| then
        Put(s, pid, p.(tmp := p.file[p.pos..p.pos + amount] + p.tmp[amount..],
                       num := amount, pos := p.pos + amount, pc := Move))
      else s
    case Move =>
      if |p.tmp| < CHUNK then s
      else Put(s.(page := s.page.(data := p.tmp[..CHUNK])), pid, p.(pc := Store))
    case _ => // Store
      Put(s.(page := s.page.(size := p.num)), pid, p.(tmp := Zeros(PAGE_SIZE), pc := Give))
  }

  // A read may be short: the writer goes on with every count that is not past the file or the
  // chunk, and with none at the end of the file.
  lemma ShortReadsToo(s: State, pid: nat, amount: nat)
    requires pid < |s.procs| && s.procs[pid].pc == Fetch && |s.procs[pid].tmp| == PAGE_SIZE
    requires s.procs[pid].pos <= |s.procs[pid].file|
    ensures var rest := |s.procs[pid].file| - s.procs[pid].pos;
            WriterStep(s, pid, amount) != s <==>
            if rest == 0 then amount == 0 else 0 < amount <= rest && amount <= 4096 - 8
  {
    if ReadReturns(s.procs[pid], amount) {
      assert WriterStep(s, pid, amount).procs[pid].pc == Move;
    }
  }

  // A short `write` still delivers its bytes, but the reader then exits with an error.
  function ReaderStep(s: State, pid: nat, amount: nat): State
    requires pid < |s.procs|
  {
    var p := s.procs[pid];
    match p.pc
    case Fetch => Put(s, pid, p.(num := s.page.size, pc := Move))
    case _ => // Move
      if amount <= p.num <= |s.page.data| then
        var q := p.(out := p.out + s.page.data[..amount]);
        if amount == p.num then Put(s, pid, q.(pc := Give)) else Exit(Put(s, pid, q), pid)
      else s
  }

  function RunStep(s: State, pid: nat, amount: nat): State
    requires pid < |s.procs|
  {
    var p := s.procs[pid];
    match p.pc
    case SetVal => SetValStep(s, pid)
    case Leave => Exit(s, pid)
    case Fetch => if p.role.Writer? then WriterStep(s, pid, amount) else ReaderStep(s, pid, amount)
    case Move => if p.role.Writer? then WriterStep(s, pid, amount) else ReaderStep(s, pid, amount)
    case Store => if p.role.Writer? then WriterStep(s, pid, amount) else s
    case _ => SemStep(s, pid)
  }

  /** One event. Events that cannot happen (a blocked call, a dead process) leave the state
      as it is, so a list of events is any interleaving of the processes. */
  function Step(s: State, e: Event): State {
    match e
    case Run(pid, amount) =>
      if pid < |s.procs| && s.procs[pid].alive then RunStep(s, pid, amount) else s
    case Kill(pid) =>
      if pid < |s.procs| && s.procs[pid].alive then Exit(s, pid) else s
    case Spawn(role, file) => s.(procs := s.procs + [Start(role, file)])
  }

  function RunAll(s: State, events: seq<Event>): State
    decreases |events|
  {
    if events == [] then s else RunAll(Step(s, events[0]), events[1..])
  }

  // The semaphore set as first created, and nobody there yet.
  const EMPTY_WORLD := State(ZERO, FRESH_PAGE, [])

  // ------------------------------------------------------------------ gate accounting

  datatype Class = GateReaders | GateWriters | Session

  predicate InGate(p: Proc) { p.alive && p.pc != Gate && p.pc != Leave }

  predicate InSession(p: Proc) {
    p.alive && p.pc in {Take, Check, Fetch, Move, Store, Give, End}
  }

  predicate Belongs(p: Proc, c: Class) {
    match c
    case GateReaders => p.role.Reader? && InGate(p)
    case GateWriters => p.role.Writer? && InGate(p)
    case Session => InSession(p)
  }

  function Count(procs: seq<Proc>, c: Class): nat {
    if procs == [] then 0 else Count(procs[1..], c) + (if Belongs(procs[0], c) then 1 else 0)
  }

  function ToInt(b: bool): int { if b then 1 else 0 }

  // A live process's undo vector takes back exactly what it holds of the three counters.
  predicate UndoMatches(p: Proc) {
    p.alive ==>
      && p.adj.aloneRd == -ToInt(Belongs(p, GateReaders))
      && p.adj.aloneWr == -ToInt(Belongs(p, GateWriters))
      && p.adj.numProc == -ToInt(Belongs(p, Session))
  }

  ghost predicate Accounting(s: State) {
    && (forall i :: 0 <= i < |s.procs| ==> UndoMatches(s.procs[i]))
    && s.sem.aloneRd == Count(s.procs, GateReaders) <= 1
    && s.sem.aloneWr == Count(s.procs, GateWriters) <= 1
    && s.sem.numProc == Count(s.procs, Session)
  }

  lemma {:induction false} CountUpdate(procs: seq<Proc>, i: nat, p: Proc, c: Class)
    requires i < |procs|
    ensures Count(procs[i := p], c)
         == Count(procs, c) - ToInt(Belongs(procs[i], c)) + ToInt(Belongs(p, c))
  {
    if i == 0 {
      assert procs[i := p][1..] == procs[1..];
    } else {
      assert procs[i := p][1..] == procs[1..][i - 1 := p];
      CountUpdate(procs[1..], i - 1, p, c);
    }
  }

  lemma {:induction false} CountAppend(procs: seq<Proc>, p: Proc, c: Class)
    ensures Count(procs + [p], c) == Count(procs, c) + ToInt(Belongs(p, c))
  {
    if procs == [] {
      assert procs + [p] == [p] && [p][1..] == [];
    } else {
      assert (procs + [p])[1..] == procs[1..] + [p];
      CountAppend(procs[1..], p, c);
    }
  }

  lemma {:induction false} CountSame(a: seq<Proc>, b: seq<Proc>, c: Class)
    requires |a| == |b|
    requires forall i :: 0 <= i < |a| ==> Belongs(a[i], c) == Belongs(b[i], c)
    ensures Count(a, c) == Count(b, c)
  {
    if a != [] {
      CountSame(a[1..], b[1..], c);
    }
  }

  // Membership implies the count sees it, so the counters never go negative on exit.
  lemma {:induction false} CountPositive(procs: seq<Proc>, i: nat, c: Class)
    requires i < |procs| && Belongs(procs[i], c)
    ensures Count(procs, c) >= 1
  {
    CountUpdate(procs, i, procs[i].(alive := false), c);
  }

  lemma CountUpdateAll(procs: seq<Proc>, i: nat, p: Proc)
    requires i < |procs|
    ensures forall c :: Count(procs[i := p], c)
                     == Count(procs, c) - ToInt(Belongs(procs[i], c)) + ToInt(Belongs(p, c))
  {
    forall c
      ensures Count(procs[i := p], c) == Count(procs, c) - ToInt(Belongs(procs[i], c)) + ToInt(Belongs(p, c))
    {
      CountUpdate(procs, i, p, c);
    }
  }

  lemma {:induction false} SessionBound(procs: seq<Proc>)
    ensures Count(procs, Session) <= Count(procs, GateReaders) + Count(procs, GateWriters)
  {
    if procs != [] {
      SessionBound(procs[1..]);
    }
  }

  lemma ExitKeepsAccounting(s: State, pid: nat)
    requires Accounting(s) && pid < |s.procs| && s.procs[pid].alive
    ensures Accounting(Exit(s, pid))
  {
    var p := s.procs[pid];
    CountUpdateAll(s.procs, pid, p.(alive := false, adj := ZERO));
    forall c | Belongs(p, c) ensures Count(s.procs, c) >= 1 { CountPositive(s.procs, pid, c); }
    assert UndoMatches(p);
  }

  // What a successful `semop` does to the three counters, whatever the program counter.
  lemma SemopCounters(s: State, pid: nat)
    requires pid < |s.procs| && s.procs[pid].alive && UndoMatches(s.procs[pid])
    requires s.procs[pid].pc !in {SetVal, Fetch, Move, Store, Leave}
    requires Semop(s.sem, s.procs[pid].adj, Ops(s.procs[pid].role, s.procs[pid].pc)).Done?
    ensures var p := s.procs[pid];
            var r := Semop(s.sem, p.adj, Ops(p.role, p.pc));
            var q := p.(adj := r.adj, pc := After(p));
            && UndoMatches(q)
            && r.vals.aloneRd == s.sem.aloneRd - ToInt(Belongs(p, GateReaders)) + ToInt(Belongs(q, GateReaders))
            && r.vals.aloneWr == s.sem.aloneWr - ToInt(Belongs(p, GateWriters)) + ToInt(Belongs(q, GateWriters))
            && r.vals.numProc == s.sem.numProc - ToInt(Belongs(p, Session)) + ToInt(Belongs(q, Session))
            && (p.pc == Gate ==> s.sem.Get(Alone(p.role)) == 0)
  {
    var p := s.procs[pid];
    SemopUnrolled(s.sem, p.adj, Ops(p.role, p.pc));
  }

  /** A gate lets a process through exactly when no live process of its kind is past it. */
  lemma GateOpensIff(s: State, pid: nat)
    requires Accounting(s) && pid < |s.procs| && s.procs[pid].alive && s.procs[pid].pc == Gate
    ensures var t := SemStep(s, pid);
            if Count(s.procs, if s.procs[pid].role.Writer? then GateWriters else GateReaders) == 0
            then t.procs[pid].pc == WaitPrev else t == s
  {
    SemopUnrolled(s.sem, s.procs[pid].adj, Ops(s.procs[pid].role, Gate));
  }

  // Past the gate, a process waits until nobody is in the session.
  lemma JoinsEmptySessionIff(s: State, pid: nat)
    requires Accounting(s) && pid < |s.procs| && s.procs[pid].alive && s.procs[pid].pc == WaitPrev
    ensures var t := SemStep(s, pid);
            if Count(s.procs, Session) == 0 then t.procs[pid].pc == SetVal else t == s
  {
    SemopUnrolled(s.sem, s.procs[pid].adj, Ops(s.procs[pid].role, WaitPrev));
  }

  /** SETVAL gives the semaphore its first value, and no death of a process that was there before,
      whatever it owed that semaphore, takes it away again. */
  lemma SetValIsFinal(s: State, pid: nat, other: nat)
    requires pid < |s.procs| && other < |s.procs|
    ensures var sem, t := Theirs(s.procs[pid].role), SetValStep(s, pid);
            && t.sem.Get(sem) == (if s.procs[pid].role.Writer? then 0 else 1)
            && Exit(t, other).sem.Get(sem) == t.sem.Get(sem)
  {
  }

  lemma SemStepKeepsAccounting(s: State, pid: nat)
    requires Accounting(s) && pid < |s.procs| && s.procs[pid].alive
    requires s.procs[pid].pc !in {SetVal, Fetch, Move, Store, Leave}
    ensures Accounting(SemStep(s, pid))
  {
    var p := s.procs[pid];
    match Semop(s.sem, p.adj, Ops(p.role, p.pc))
    case Done(vals, adj) =>
      SemopCounters(s, pid);
      var q := p.(adj := adj, pc := After(p));
      CountUpdateAll(s.procs, pid, q);
      // Only the gate adds a gate member, and it found the counter at zero.
      assert p.pc == Gate || Belongs(p, GateReaders) || !Belongs(q, GateReaders);
      assert p.pc == Gate || Belongs(p, GateWriters) || !Belongs(q, GateWriters);
    case Blocked =>
    case Again => ExitKeepsAccounting(s, pid);
  }

  lemma PutKeepsAccounting(s: State, pid: nat, q: Proc, page: Page)
    requires Accounting(s) && pid < |s.procs|
    requires UndoMatches(q)
    requires forall c :: Belongs(q, c) == Belongs(s.procs[pid], c)
    ensures Accounting(Put(s.(page := page), pid, q))
  {
    CountUpdateAll(s.procs, pid, q);
  }

  lemma SetValKeepsAccounting(s: State, pid: nat)
    requires Accounting(s) && pid < |s.procs| && s.procs[pid].alive && s.procs[pid].pc == SetVal
    ensures Accounting(SetValStep(s, pid))
  {
    var t := SetValStep(s, pid);
    forall i | 0 <= i < |s.procs|
      ensures UndoMatches(t.procs[i]) && forall c :: Belongs(s.procs[i], c) == Belongs(t.procs[i], c)
    {
      assert UndoMatches(s.procs[i]);
    }
    forall c ensures Count(s.procs, c) == Count(t.procs, c) { CountSame(s.procs, t.procs, c); }
  }

  // The steps on the page, the file and the output leave the counters alone.
  lemma DataKeepsAccounting(s: State, pid: nat, amount: nat)
    requires Accounting(s) && pid < |s.procs| && s.procs[pid].alive
    requires s.procs[pid].pc in {Fetch, Move, Store}
    ensures Accounting(RunStep(s, pid, amount))
  {
    var p := s.procs[pid];
    assert UndoMatches(p);
    if p.pc == Move && p.role.Reader? {
      if amount <= p.num <= |s.page.data| {
        var q := p.(out := p.out + s.page.data[..amount]);
        assert s.(page := s.page) == s;
        PutKeepsAccounting(s, pid, q.(pc := Give), s.page);
        PutKeepsAccounting(s, pid, q, s.page);
        ExitKeepsAccounting(Put(s, pid, q), pid);
      }
    } else {
      var t := RunStep(s, pid, amount);
      if t != s { PutKeepsAccounting(s, pid, t.procs[pid], t.page); }
    }
  }

  lemma StepKeepsAccounting(s: State, e: Event)
    requires Accounting(s)
    ensures Accounting(Step(s, e))
  {
    match e
    case Spawn(role, file) =>
      forall c ensures Count(s.procs + [Start(role, file)], c) == Count(s.procs, c) {
        CountAppend(s.procs, Start(role, file), c);
      }
    case Kill(pid) =>
      if pid < |s.procs| && s.procs[pid].alive { ExitKeepsAccounting(s, pid); }
    case Run(pid, amount) =>
      if pid < |s.procs| && s.procs[pid].alive {
        match s.procs[pid].pc
        case SetVal => SetValKeepsAccounting(s, pid);
        case Leave => ExitKeepsAccounting(s, pid);
        case Fetch => DataKeepsAccounting(s, pid, amount);
        case Move => DataKeepsAccounting(s, pid, amount);
        case Store => DataKeepsAccounting(s, pid, amount);
        case _ => SemStepKeepsAccounting(s, pid);
      }
  }

  lemma {:induction false} RunKeepsAccounting(s: State, events: seq<Event>)
    requires Accounting(s)
    ensures Accounting(RunAll(s, events))
    decreases |events|
  {
    if events != [] {
      StepKeepsAccounting(s, events[0]);
      RunKeepsAccounting(Step(s, events[0]), events[1..]);
    }
  }

  /** Any number of readers and writers, started and killed in any order: each gate counter
      is the number of its live processes past the gate and never exceeds one, NUM_PROC is
      the number of live processes in the session and never exceeds two. */
  lemma GateAccounting(events: seq<Event>)
    ensures var s := RunAll(EMPTY_WORLD, events);
            && s.sem.aloneRd == Count(s.procs, GateReaders) <= 1
            && s.sem.aloneWr == Count(s.procs, GateWriters) <= 1
            && s.sem.numProc == Count(s.procs, Session) <= 2
  {
    RunKeepsAccounting(EMPTY_WORLD, events);
    SessionBound(RunAll(EMPTY_WORLD, events).procs);
  }
}
