/** 3_sem/Signal: a child sends a file to its parent one bit at a time with SIGUSR1 (0) and
    SIGUSR2 (1), and the parent answers each bit with SIGUSR2. All signals are blocked except
    inside `sigsuspend`, and a process's pending signals are a set: sending a signal that is
    already pending loses it. */
module Signal {

  type Byte = bv8

  datatype Sig = Usr1 | Usr2 | Chld

  datatype ParentPc = PWait   // sigsuspend
                    | PTest   // IS_CHILD_DIED
                    | PStore  // put BIT into cur_letter
                    | PAck    // kill (child, SIGUSR2), next i
                    | PWrite  // write the letter, start a new one
                    | PExited
  datatype ChildPc = CRead | CSend | CWait | CExited

  // `bit` and `died` are the globals BIT and IS_CHILD_DIED of the parent's copy.
  datatype Parent = Parent(pc: ParentPc, i: nat, letter: Byte, bit: int, died: bool,
                           pending: set<Sig>, out: seq<Byte>)
  datatype Child = Child(pc: ChildPc, pos: nat, i: nat, letter: Byte, pending: set<Sig>)
  datatype State = State(file: seq<Byte>, parent: Parent, child: Child)

  // Which process runs, and which pending signal a `sigsuspend` delivers.
  datatype Event = ParentRuns(sig: Sig) | ChildRuns(sig: Sig)

  function Init(file: seq<Byte>): State {
    State(file, Parent(PWait, 0, 0, 0, false, {}, []), Child(CRead, 0, 0, 0, {}))
  }

  // `0b1 << i` for the eight values of i.
  function Mask(i: nat): Byte
    requires i < 8
  {
    match i
    case 0 => 1 case 1 => 2 case 2 => 4 case 3 => 8
    case 4 => 16 case 5 => 32 case 6 => 64 case _ => 128
  }

  lemma MaskIsShift(i: nat)
    requires i < 8
    ensures Mask(i) == (1 as Byte) << i
  {
  }

  // `b | mask` and `b & ~mask`
  function On(b: Byte, mask: Byte): Byte { b | mask }
  function Off(b: Byte, mask: Byte): Byte { b & !mask }

  // The letter with its i-th bit set or cleared.
  function WithBit(b: Byte, i: nat, bit: int): Byte
    requires i < 8
  {
    if bit == 1 then On(b, Mask(i)) else Off(b, Mask(i))
  }

  predicate Bit(b: Byte, i: nat)
    requires i < 8
  {
    b & Mask(i) != 0
  }

  // ------------------------------------------------------------------ steps

  // The signal handlers, run in the parent.
  function Handle(p: Parent, sig: Sig): Parent {
    match sig
    case Usr1 => p.(bit := 0)
    case Usr2 => p.(bit := 1)
    case Chld => p.(died := true)
  }

  predicate Enabled(s: State, e: Event) {
    match e
    case ParentRuns(sig) => !s.parent.pc.PExited? && (s.parent.pc.PWait? ==> sig in s.parent.pending)
    case ChildRuns(sig) => !s.child.pc.CExited? && (s.child.pc.CWait? ==> sig in s.child.pending)
  }

  function ParentStep(s: State, sig: Sig): State {
    var p := s.parent;
    match p.pc
    case PWait => s.(parent := Handle(p, sig).(pc := PTest, pending := p.pending - {sig}))
    case PTest => s.(parent := p.(pc := if p.died then PExited else PStore))
    case PStore =>
      if p.i >= 8 then s else
        s.(parent := p.(pc := PAck,
                        letter := WithBit(p.letter, p.i, p.bit)))
    case PAck =>
      s.(parent := p.(pc := if p.i + 1 < 8 then PWait else PWrite, i := p.i + 1),
         child := s.child.(pending := s.child.pending + {Usr2}))
    case PWrite => s.(parent := p.(pc := PWait, i := 0, letter := 0, out := p.out + [p.letter]))
    case PExited => s
  }

  function ChildStep(s: State, sig: Sig): State {
    var c := s.child;
    match c.pc
    case CRead =>
      if c.pos < |s.file| then
        s.(child := c.(pc := CSend, letter := s.file[c.pos], pos := c.pos + 1, i := 0))
      else
        s.(child := c.(pc := CExited), parent := s.parent.(pending := s.parent.pending + {Chld}))
    case CSend =>
      if c.i >= 8 then s else
        s.(child := c.(pc := CWait),
           parent := s.parent.(pending := s.parent.pending + {if Bit(c.letter, c.i) then Usr2 else Usr1}))
    case CWait =>
      s.(child := c.(pc := if c.i + 1 < 8 then CSend else CRead, i := c.i + 1, pending := c.pending - {sig}))
    case CExited => s
  }

  function Step(s: State, e: Event): State {
    match e
    case ParentRuns(sig) => ParentStep(s, sig)
    case ChildRuns(sig) => ChildStep(s, sig)
  }

  // Only a `sigsuspend` with nothing pending keeps a process from running, until it has exited.
  lemma OnlySuspendBlocks(s: State)
    ensures (forall sig :: !Enabled(s, ParentRuns(sig))) <==>
              s.parent.pc == PExited || (s.parent.pc == PWait && s.parent.pending == {})
    ensures (forall sig :: !Enabled(s, ChildRuns(sig))) <==>
              s.child.pc == CExited || (s.child.pc == CWait && s.child.pending == {})
  {
    if s.parent.pc != PExited && s.parent.pc != PWait { assert Enabled(s, ParentRuns(Usr1)); }
    if s.parent.pc == PWait && s.parent.pending != {} {
      var sig :| sig in s.parent.pending;
      assert Enabled(s, ParentRuns(sig));
    }
    if s.child.pc != CExited && s.child.pc != CWait { assert Enabled(s, ChildRuns(Usr1)); }
    if s.child.pc == CWait && s.child.pending != {} {
      var sig :| sig in s.child.pending;
      assert Enabled(s, ChildRuns(sig));
    }
  }

  // A run: every event was possible when it happened.
  ghost predicate IsRun(s: State, events: seq<Event>)
    decreases |events|
  {
    events == [] || (Enabled(s, events[0]) && IsRun(Step(s, events[0]), events[1..]))
  }

  function RunAll(s: State, events: seq<Event>): State
    decreases |events|
  {
    if events == [] then s else RunAll(Step(s, events[0]), events[1..])
  }

  // ------------------------------------------------------------------ bits

  function LetterBits(b: Byte): (r: seq<bool>)
    ensures |r| == 8
  {
    seq(8, i requires 0 <= i < 8 => Bit(b, i))
  }

  // The bits of a file, least significant bit of each byte first.
  function Bits(bytes: seq<Byte>): (r: seq<bool>)
    ensures |r| == 8 * |bytes|
  {
    if bytes == [] then [] else LetterBits(bytes[0]) + Bits(bytes[1..])
  }

  // How many bits of the current letter the parent has stored.
  function Filled(p: Parent): nat {
    if p.pc == PAck then p.i + 1 else p.i
  }

  // What the parent has so far: the bytes written, then the bits of the partial byte.
  function Received(p: Parent): seq<bool> {
    Bits(p.out) + LetterBits(p.letter)[..if Filled(p) <= 8 then Filled(p) else 8]
  }

  // The lowest n bits of b.
  function Low(b: Byte, n: nat): Byte {
    match n
    case 0 => 0 case 1 => b & 1 case 2 => b & 3 case 3 => b & 7 case 4 => b & 15
    case 5 => b & 31 case 6 => b & 63 case 7 => b & 127 case _ => b
  }

  lemma StoreBit(b: Byte, i: nat)
    requires i < 8
    ensures WithBit(Low(b, i), i, if Bit(b, i) then 1 else 0) == Low(b, i + 1)
  {
  }

  lemma LowBit(b: Byte, n: nat, k: nat)
    requires k < n <= 8
    ensures Bit(Low(b, n), k) == Bit(b, k)
  {
    var m := Mask(k);
    match n {
      case 8 =>
      case _ =>
        assert m == 1 || m == 2 || m == 4 || m == 8 || m == 16 || m == 32 || m == 64 || m == 128;
    }
  }

  lemma LowBits(b: Byte, n: nat)
    requires n <= 8
    ensures LetterBits(Low(b, n))[..n] == LetterBits(b)[..n]
  {
    forall k | 0 <= k < n ensures Bit(Low(b, n), k) == Bit(b, k) {
      LowBit(b, n, k);
    }
  }

  lemma {:induction false} BitsAppend(a: seq<Byte>, b: seq<Byte>)
    ensures Bits(a + b) == Bits(a) + Bits(b)
  {
    if a == [] {
      assert a + b == b;
    } else {
      assert (a + b)[1..] == a[1..] + b;
      BitsAppend(a[1..], b);
    }
  }

  // ------------------------------------------------------------------ invariant

  // Bits stored by the parent, and bits the child has seen acknowledged.
  function Stored(p: Parent): nat { 8 * |p.out| + Filled(p) }
  function Acked(c: Child): int { if c.pc == CRead || c.pc == CExited then 8 * c.pos else 8 * (c.pos - 1) + c.i }

  function DataSig(c: Child): Sig
    requires c.i < 8
  {
    if Bit(c.letter, c.i) then Usr2 else Usr1
  }

  // The parent's buffer: whole bytes written, and the low bits of the next one.
  predicate Prefix(file: seq<Byte>, p: Parent) {
    && |p.out| <= |file| && p.out == file[..|p.out|]
    && (if p.pc == PWrite then p.i == 8 else p.i < 8)
    && (Filled(p) > 0 ==> |p.out| < |file|)
    && p.letter == if Filled(p) == 0 then 0 else Low(file[|p.out|], Filled(p))
  }

  predicate ChildLocal(file: seq<Byte>, c: Child) {
    && c.pos <= |file|
    && (c.pc == CSend || c.pc == CWait ==> c.pos > 0 && c.i < 8 && c.letter == file[c.pos - 1])
    && (c.pc == CExited ==> c.pos == |file|)
  }

  predicate Idle(p: Parent) { p.pc == PWait || p.pc == PWrite }

  /** Where the baton is. Either the child runs and nothing is pending; or one bit is on its
      way (pending at the parent, being handled, or its ack pending at the child); or the
      child has exited and the parent has that news pending or in hand. */
  predicate Baton(p: Parent, c: Child) {
    match c.pc
    case CRead => Idle(p) && !p.died && p.pending == {} && c.pending == {} && Stored(p) == Acked(c)
    case CSend => Idle(p) && !p.died && p.pending == {} && c.pending == {} && Stored(p) == Acked(c)
    case CWait =>
      && !p.died && c.i < 8
      && (|| (p.pending == {DataSig(c)} && c.pending == {} && Idle(p) && Stored(p) == Acked(c))
          || (p.pending == {} && c.pending == {} && (p.pc == PTest || p.pc == PStore)
              && Stored(p) == Acked(c) && p.bit == if DataSig(c) == Usr2 then 1 else 0)
          || (p.pending == {} && c.pending == {} && p.pc == PAck && Stored(p) == Acked(c) + 1)
          || (p.pending == {} && c.pending == {Usr2} && Idle(p) && Stored(p) == Acked(c) + 1))
    case CExited =>
      && c.pending == {} && Stored(p) == Acked(c)
      && (|| (p.pending == {Chld} && Idle(p) && !p.died)
          || (p.pending == {} && (p.pc == PTest || p.pc == PExited) && p.died))
  }

  predicate Inv(s: State) {
    && Prefix(s.file, s.parent) && ChildLocal(s.file, s.child) && Baton(s.parent, s.child)
    && (s.parent.pc == PExited ==> s.parent.i == 0)
  }

  lemma StoreLetter(s: State)
    requires Inv(s) && s.parent.pc == PStore
    ensures |s.parent.out| < |s.file| && s.parent.i < 8
    ensures WithBit(s.parent.letter, s.parent.i, s.parent.bit) == Low(s.file[|s.parent.out|], s.parent.i + 1)
  {
    var p, c := s.parent, s.child;
    var b := s.file[|p.out|];
    assert c.pc == CWait && |p.out| == c.pos - 1 && p.i == c.i;
    assert p.letter == Low(b, p.i) by {
      assert Low(b, 0) == 0;
    }
    assert p.bit == if Bit(b, p.i) then 1 else 0;
    StoreBit(b, p.i);
  }

  lemma StoreKeeps(s: State)
    requires Inv(s) && s.parent.pc == PStore
    ensures Inv(ParentStep(s, Usr1))
  {
    StoreLetter(s);
  }

  lemma WriteKeeps(s: State)
    requires Inv(s) && s.parent.pc == PWrite
    ensures Inv(ParentStep(s, Usr1))
  {
  }

  lemma WaitKeeps(s: State, sig: Sig)
    requires Inv(s) && s.parent.pc == PWait && sig in s.parent.pending
    ensures Inv(ParentStep(s, sig))
  {
    assert s.parent.pending == {sig};
    assert s.parent.pending - {sig} == {};
  }

  lemma TestAckKeeps(s: State)
    requires Inv(s) && (s.parent.pc == PTest || s.parent.pc == PAck)
    ensures Inv(ParentStep(s, Usr1))
  {
  }

  lemma ParentKeeps(s: State, sig: Sig)
    requires Inv(s) && Enabled(s, ParentRuns(sig))
    ensures Inv(ParentStep(s, sig))
  {
    match s.parent.pc
    case PWait => WaitKeeps(s, sig);
    case PStore => StoreKeeps(s);
    case PWrite => WriteKeeps(s);
    case _ => TestAckKeeps(s);
  }

  lemma AckedKeeps(s: State, sig: Sig)
    requires Inv(s) && s.child.pc == CWait && sig in s.child.pending
    ensures Inv(ChildStep(s, sig))
  {
    assert s.child.pending == {Usr2} && sig == Usr2;
    assert s.child.pending - {sig} == {};
  }

  lemma SendKeeps(s: State)
    requires Inv(s) && s.child.pc == CSend
    ensures Inv(ChildStep(s, Usr1))
  {
  }

  lemma ReadKeeps(s: State)
    requires Inv(s) && s.child.pc == CRead
    ensures Inv(ChildStep(s, Usr1))
  {
  }

  lemma ChildKeeps(s: State, sig: Sig)
    requires Inv(s) && Enabled(s, ChildRuns(sig))
    ensures Inv(ChildStep(s, sig))
  {
    match s.child.pc
    case CWait => AckedKeeps(s, sig);
    case CSend => SendKeeps(s);
    case CRead => ReadKeeps(s);
  }

  lemma {:induction false} RunKeeps(s: State, events: seq<Event>)
    requires Inv(s) && IsRun(s, events)
    ensures Inv(RunAll(s, events)) && RunAll(s, events).file == s.file
    decreases |events|
  {
    if events != [] {
      match events[0] {
        case ParentRuns(sig) => ParentKeeps(s, sig);
        case ChildRuns(sig) => ChildKeeps(s, sig);
      }
      RunKeeps(Step(s, events[0]), events[1..]);
    }
  }

  // ------------------------------------------------------------------ results

  lemma {:induction false} BitsPrefix(a: seq<Byte>, b: seq<Byte>)
    requires a <= b
    ensures Bits(a) <= Bits(b)
  {
    assert b == a + b[|a|..];
    BitsAppend(a, b[|a|..]);
  }

  lemma ReceivedPrefix(s: State)
    requires Inv(s)
    ensures Received(s.parent) <= Bits(s.file)
  {
    var p := s.parent;
    var k, n := |p.out|, Filled(p);
    BitsPrefix(p.out, s.file);
    if n > 0 {
      LowBits(s.file[k], n);
      assert s.file == s.file[..k] + ([s.file[k]] + s.file[k + 1..]);
      BitsAppend(s.file[..k], [s.file[k]] + s.file[k + 1..]);
      assert ([s.file[k]] + s.file[k + 1..])[1..] == s.file[k + 1..];
    }
  }

  /** In every reachable state the bytes written followed by the bits of the partial byte
      are a prefix of the file's bits, and a parent that has exited did so between two
      letters with the whole file written. */
  lemma TransferIsSafe(file: seq<Byte>, events: seq<Event>)
    requires IsRun(Init(file), events)
    ensures var p := RunAll(Init(file), events).parent;
            && Received(p) <= Bits(file)
            && p.out <= file
            && (p.pc == PExited ==> p.i == 0 && p.out == file)
  {
    RunKeeps(Init(file), events);
    ReceivedPrefix(RunAll(Init(file), events));
  }

  /** No signal is ever sent while already pending at its receiver, so none is lost; a data
      signal and an ack are never outstanding together, nor SIGCHLD and anything else. */
  lemma NoSignalIsLost(file: seq<Byte>, events: seq<Event>)
    requires IsRun(Init(file), events)
    ensures var s := RunAll(Init(file), events);
            && (s.parent.pc == PAck ==> Usr2 !in s.child.pending)
            && (s.child.pc == CSend ==> s.parent.pending == {})
            && (s.child.pc == CRead ==> Chld !in s.parent.pending)
            && (s.parent.pending == {} || s.child.pending == {})
            && |s.parent.pending| <= 1
            && (Chld in s.parent.pending ==> s.parent.pending == {Chld} && s.child.pc == CExited)
  {
    RunKeeps(Init(file), events);
    var p := RunAll(Init(file), events).parent;
    if p.pending != {} {
      var sig :| sig in p.pending;
      assert p.pending == {sig};
    }
  }

  predicate Finished(s: State) { s.parent.pc == PExited && s.child.pc == CExited }

  // Remaining bits on both sides, weighted above the longest run of steps within a bit.
  function Measure(s: State): int {
    var p, c := s.parent, s.child;
    10 * (8 * |s.file| - (8 * |p.out| + p.i)) + 10 * (8 * |s.file| - Acked(c))
    + (match p.pc case PWrite => 5 case PWait => 4 case PTest => 3 case PStore => 2 case PAck => 1 case PExited => 0)
    + (match c.pc case CRead => 3 case CSend => 2 case CWait => 1 case CExited => 0)
  }

  lemma MeasureNonNegative(s: State)
    requires Inv(s)
    ensures 0 <= Measure(s)
  {
  }

  lemma ParentDecreases(s: State, sig: Sig)
    requires Inv(s) && Enabled(s, ParentRuns(sig))
    ensures Measure(ParentStep(s, sig)) < Measure(s)
  {
  }

  lemma ChildDecreases(s: State, sig: Sig)
    requires Inv(s) && Enabled(s, ChildRuns(sig))
    ensures Measure(ChildStep(s, sig)) < Measure(s)
  {
  }

  // Every possible step keeps the invariant and brings the transfer closer to its end.
  lemma StepDecreases(s: State, e: Event)
    requires Inv(s) && Enabled(s, e)
    ensures Inv(Step(s, e)) && 0 <= Measure(Step(s, e)) < Measure(s)
  {
    match e {
      case ParentRuns(sig) => ParentKeeps(s, sig); ParentDecreases(s, sig);
      case ChildRuns(sig) => ChildKeeps(s, sig); ChildDecreases(s, sig);
    }
    MeasureNonNegative(Step(s, e));
  }

  // Some process can always run, until both have exited.
  lemma SomeoneCanRun(s: State)
    requires Inv(s) && !Finished(s)
    ensures exists e :: Enabled(s, e)
  {
    var p, c := s.parent, s.child;
    if c.pc == CRead || c.pc == CSend {
      assert Enabled(s, ChildRuns(Usr1));
    } else if p.pc != PWait && p.pc != PExited {
      assert Enabled(s, ParentRuns(Usr1));
    } else if c.pc == CWait && c.pending != {} {
      assert Enabled(s, ChildRuns(Usr2));
    } else if c.pc == CWait {
      assert Enabled(s, ParentRuns(DataSig(c)));
    } else {
      assert Enabled(s, ParentRuns(Chld));
    }
  }

  lemma {:induction false} RunShrinks(s: State, events: seq<Event>)
    requires Inv(s) && IsRun(s, events)
    ensures 0 <= Measure(RunAll(s, events))
    ensures |events| + Measure(RunAll(s, events)) <= Measure(s)
    decreases |events|
  {
    if events == [] {
      MeasureNonNegative(s);
    } else {
      StepDecreases(s, events[0]);
      RunShrinks(Step(s, events[0]), events[1..]);
    }
  }

  /** No reachable state is stuck, and no run is longer than the initial measure: whatever
      the scheduling, the transfer ends with both processes exited and the file written. */
  lemma {:induction false} NoDeadlock(file: seq<Byte>, events: seq<Event>)
    requires IsRun(Init(file), events)
    ensures var s := RunAll(Init(file), events);
            && (Finished(s) || exists e :: Enabled(s, e))
            && |events| + Measure(s) <= Measure(Init(file))
            && 0 <= Measure(s)
            && (Finished(s) ==> s.parent.out == file)
  {
    RunKeeps(Init(file), events);
    RunShrinks(Init(file), events);
    var s := RunAll(Init(file), events);
    if !Finished(s) { SomeoneCanRun(s); }
  }

  // ------------------------------------------------------------------ the two programs

  /** The two processes with their variables updated in place. `waitFor` is the pending
      signal that a `sigsuspend` happens to deliver. */
  class Transfer {
    const file: seq<Byte>

    var parentPc: ParentPc
    var i: nat
    var curLetter: Byte
    var bit: int
    var isChildDied: bool
    var parentPending: set<Sig>
    var out: seq<Byte>

    var childPc: ChildPc
    var pos: nat
    var j: nat
    var childLetter: Byte
    var childPending: set<Sig>

    function Snapshot(): State
      reads this
    {
      State(file, Parent(parentPc, i, curLetter, bit, isChildDied, parentPending, out),
            Child(childPc, pos, j, childLetter, childPending))
    }

    // The invariant of the protocol, and the work left.
    ghost predicate Valid()
      reads this
    {
      Inv(Snapshot()) && 0 <= Measure(Snapshot())
    }

    ghost function Left(): int
      reads this
    {
      Measure(Snapshot())
    }

    constructor (file: seq<Byte>)
      ensures Valid() && Snapshot() == Init(file) && this.file == file
    {
      this.file := file;
      parentPc, i, curLetter, bit, isChildDied, parentPending, out := PWait, 0, 0, 0, false, {}, [];
      childPc, pos, j, childLetter, childPending := CRead, 0, 0, 0, {};
    }

    method Handler(sig: Sig)
      modifies this`bit, this`isChildDied
      ensures Parent(parentPc, i, curLetter, bit, isChildDied, parentPending, out)
           == Handle(old(Snapshot()).parent, sig)
    {
      match sig {
        case Usr1 => bit := 0;
        case Usr2 => bit := 1;
        case Chld => isChildDied := true;
      }
    }

    // The loop body after `sigsuspend`: with BIT put into it, the letter holds the i + 1 lowest
    // bits of the byte on its way.
    method StoreBit()
      requires Valid() && parentPc == PStore
      modifies this`curLetter
      ensures i < 8 && curLetter == WithBit(old(curLetter), i, bit)
      ensures |out| < |file| && curLetter == Low(file[|out|], i + 1)
    {
      hide Inv, Measure, Low, Mask, On, Off;
      StoreLetter(Snapshot());
      var mask := Mask(i);
      if bit == 1 {
        curLetter := On(curLetter, mask);
      } else {
        curLetter := Off(curLetter, mask);
      }
    }

    method ParentRuns(sig: Sig)
      requires Valid() && Enabled(Snapshot(), Event.ParentRuns(sig))
      modifies this
      ensures Valid() && Left() < old(Left())
      ensures Snapshot() == ParentStep(old(Snapshot()), sig)
    {
      hide Inv, Measure;
      StepDecreases(Snapshot(), Event.ParentRuns(sig));
      match parentPc {
        case PWait =>
          Handler(sig);
          parentPending := parentPending - {sig};
          parentPc := PTest;
        case PTest =>
          if isChildDied { parentPc := PExited; } else { parentPc := PStore; }
        case PStore =>
          StoreBit();
          parentPc := PAck;
        case PAck =>
          childPending := childPending + {Usr2};
          i := i + 1;
          if i < 8 { parentPc := PWait; } else { parentPc := PWrite; }
        case PWrite =>
          out := out + [curLetter];
          i, curLetter := 0, 0;
          parentPc := PWait;
      }
    }

    method ChildRuns(sig: Sig)
      requires Valid() && Enabled(Snapshot(), Event.ChildRuns(sig))
      modifies this
      ensures Valid() && Left() < old(Left())
      ensures Snapshot() == ChildStep(old(Snapshot()), sig)
    {
      hide Inv, Measure;
      StepDecreases(Snapshot(), Event.ChildRuns(sig));
      match childPc {
        case CRead =>
          if pos < |file| {
            childLetter := file[pos];
            pos, j := pos + 1, 0;
            childPc := CSend;
          } else {
            childPc := CExited;
            parentPending := parentPending + {Chld};
          }
        case CSend =>
          if j < 8 {
            if Bit(childLetter, j) {
              parentPending := parentPending + {Usr2};
            } else {
              parentPending := parentPending + {Usr1};
            }
            childPc := CWait;
          }
        case CWait =>
          childPending := childPending - {sig};
          j := j + 1;
          if j < 8 { childPc := CSend; } else { childPc := CRead; }
      }
    }

    // Any scheduler: the loop takes whichever step is possible, and ends with the file copied.
    method Play()
      requires Valid()
      modifies this
      ensures Finished(Snapshot()) && out == file
    {
      while !(parentPc == PExited && childPc == CExited)
        invariant Valid()
        decreases Left()
      {
        SomeoneCanRun(Snapshot());
        var e :| Enabled(Snapshot(), e);
        match e {
          case ParentRuns(sig) => ParentRuns(sig);
          case ChildRuns(sig) => ChildRuns(sig);
        }
      }
    }
  }
}
