/** The chain of 3_sem/Select: child 0 reads the file, every child copies its input to a pipe
    to the parent, and ring i of the parent carries the output of child i to the input of
    child i + 1. What the last child writes is the output. */
module Relay {
  import opened Utils
  import opened Ring

  // Child i with its two pipes, the parent's ring that reads from it, and whether the ring's
  // output descriptor is open.
  datatype Stage = Stage(down: seq<Byte>, buff: seq<Byte>, up: seq<Byte>, ring: Ring, open: bool)

  datatype State = State(rest: seq<Byte>, stages: seq<Stage>)

  // The calls of the children and of the parent with the byte counts they return. A ring write
  // returns what the code's own request allows, or -1 for EAGAIN; `behind` is the memory after
  // the ring's buffer.
  datatype Event = ChildRead(i: nat, k: nat) | ChildWrite(i: nat, k: nat) | RingRead(i: nat, k: nat)
                 | RingWrite(i: nat, ret: int, behind: seq<Byte>)

  function Init(numProc: nat, file: seq<Byte>): State {
    State(file, seq(numProc, i requires 0 <= i < numProc => Stage([], [], [], New(SizeBuf(numProc, i)), true)))
  }

  // ------------------------------------------------------------------ steps

  // The guards are the code's own, whether or not a ring's cursors still describe a ring. What a
  // ring does is followed as long as it stores inside its buffer and sends from there on.
  predicate Enabled(s: State, e: Event) {
    e.i < |s.stages| &&
    var st := s.stages[e.i];
    match e
    case ChildRead(i, k) =>
      st.buff == [] && 0 < k <= BUFF_SIZE && k <= if i == 0 then |s.rest| else |st.down|
    case ChildWrite(i, k) => 0 < k <= |st.buff|
    // The parent's loops run to num_proc - 1: the last child's pipe is nobody's input.
    case RingRead(i, k) =>
      && i + 1 < |s.stages| && 0 < k <= |st.up| && k <= st.ring.empty
      && 0 <= st.ring.curRead && st.ring.curRead + k <= |st.ring.buf|
    case RingWrite(i, ret, behind) =>
      && i + 1 < |s.stages| && st.open && st.ring.full > 0
      && (|| ret == -1
          || (MayReturn(st.ring, ret) && 0 <= st.ring.curWrite
              && st.ring.curWrite + ret <= |st.ring.buf| + |behind|))
  }

  function Step(s: State, e: Event): State
    requires Enabled(s, e)
  {
    var st := s.stages[e.i];
    match e
    case ChildRead(i, k) =>
      if i == 0 then State(s.rest[k..], s.stages[i := st.(buff := s.rest[..k])])
      else s.(stages := s.stages[i := st.(buff := st.down[..k], down := st.down[k..])])
    case ChildWrite(i, k) =>
      s.(stages := s.stages[i := st.(buff := st.buff[k..], up := st.up + st.buff[..k])])
    case RingRead(i, k) =>
      s.(stages := s.stages[i := st.(up := st.up[k..], ring := ReadStep(st.ring, st.up[..k]))])
    case RingWrite(i, ret, behind) =>
      if ret == 0 then s.(stages := s.stages[i := st.(open := false)])
      else
        var next := s.stages[i + 1];
        var sent := if ret == -1 then [] else Sent(st.ring, ret, behind);
        s.(stages := s.stages[i := st.(ring := WriteCursors(st.ring, ret))]
                             [i + 1 := next.(down := next.down + sent)])
  }

  // Calls that are allowed to be short.
  function Shorter(e: Event, k: nat): Event {
    match e
    case ChildRead(i, _) => ChildRead(i, k)
    case ChildWrite(i, _) => ChildWrite(i, k)
    case RingRead(i, _) => RingRead(i, k)
    case RingWrite(i, _, behind) => RingWrite(i, k, behind)
  }

  // Whatever count a call may return, it may return every smaller one.
  lemma ShorterIsPossible(s: State, e: Event, k: nat)
    requires Enabled(s, e) && 0 < k <= if e.RingWrite? then e.ret else e.k
    ensures Enabled(s, Shorter(e, k))
  {
  }

  // What a child and a ring can read at most: the input and the buffer, or the free run.
  lemma LongestReads(s: State, i: nat, k: nat)
    requires i < |s.stages|
    ensures var input := if i == 0 then |s.rest| else |s.stages[i].down|;
            s.stages[i].buff == [] && 0 < k <= Min(input, 4096) ==> Enabled(s, ChildRead(i, k))
    ensures var ring := s.stages[i].ring;
            i + 1 < |s.stages| && Valid(ring) && 0 < k <= Min(|s.stages[i].up|, ring.empty) ==>
              Enabled(s, RingRead(i, k))
  {
  }

  // A ring write that takes no more than is queued; all other calls are.
  predicate Within(s: State, e: Event)
    requires Enabled(s, e)
  {
    e.RingWrite? ==> 0 <= e.ret <= s.stages[e.i].ring.full
  }

  ghost predicate IsRun(s: State, events: seq<Event>)
    decreases |events|
  {
    events == [] || (Enabled(s, events[0]) && IsRun(Step(s, events[0]), events[1..]))
  }

  ghost function RunAll(s: State, events: seq<Event>): State
    requires IsRun(s, events)
    decreases |events|
  {
    if events == [] then s else RunAll(Step(s, events[0]), events[1..])
  }

  ghost predicate AllWithin(s: State, events: seq<Event>)
    requires IsRun(s, events)
    decreases |events|
  {
    events == [] || (Within(s, events[0]) && AllWithin(Step(s, events[0]), events[1..]))
  }

  // ------------------------------------------------------------------ conservation

  predicate Sound(s: State) {
    forall i :: 0 <= i < |s.stages| ==> Valid(s.stages[i].ring) && |s.stages[i].buff| <= BUFF_SIZE
  }

  /** The places a byte passes through, in order: place 4i is the input of child i (the file,
      or its pipe from the parent), then its buffer, its pipe to the parent, and ring i. */
  function Place(s: State, j: nat): seq<Byte>
    requires Sound(s) && j / 4 < |s.stages|
  {
    var st := s.stages[j / 4];
    match j % 4
    case 0 => if j == 0 then s.rest else st.down
    case 1 => st.buff
    case 2 => st.up
    case _ => Contents(st.ring)
  }

  // The chain ends in the last child's pipe to the parent.
  function Places(s: State): (r: seq<seq<Byte>>)
    requires Sound(s) && |s.stages| > 0
    ensures |r| == 4 * |s.stages| - 1
  {
    seq(4 * |s.stages| - 1, j requires 0 <= j < 4 * |s.stages| - 1 => Place(s, j))
  }

  // All bytes, those furthest along the chain first.
  function Flow(places: seq<seq<Byte>>): seq<Byte> {
    if places == [] then [] else Flow(places[1..]) + places[0]
  }

  function Output(s: State): seq<Byte>
    requires |s.stages| > 0
  {
    s.stages[|s.stages| - 1].up
  }

  // The first k bytes of place j go to the end of place j + 1.
  function Move(places: seq<seq<Byte>>, j: nat, k: nat): seq<seq<Byte>>
    requires j + 1 < |places| && k <= |places[j]|
  {
    places[j := places[j][k..]][j + 1 := places[j + 1] + places[j][..k]]
  }

  lemma {:induction false} MoveKeepsFlow(places: seq<seq<Byte>>, j: nat, k: nat)
    requires j + 1 < |places| && k <= |places[j]|
    ensures Flow(Move(places, j, k)) == Flow(places)
  {
    var t := Move(places, j, k);
    if j > 0 {
      assert t[1..] == Move(places[1..], j - 1, k);
      MoveKeepsFlow(places[1..], j - 1, k);
    } else {
      var a, b, rest := places[0], places[1], Flow(places[2..]);
      assert places[1..][1..] == places[2..] && t[1..][1..] == places[2..];
      assert Flow(places[1..]) == rest + b && Flow(t[1..]) == rest + (b + a[..k]);
      assert (rest + (b + a[..k])) + a[k..] == (rest + b) + a;
    }
  }

  lemma {:induction false} LastIsFirst(places: seq<seq<Byte>>)
    requires |places| > 0
    ensures places[|places| - 1] <= Flow(places)
  {
    if |places| == 1 {
      assert places[1..] == [];
      assert [] + places[0] == places[0];
    } else {
      LastIsFirst(places[1..]);
    }
  }

  // The place an event takes bytes from.
  function Source(e: Event): nat {
    match e
    case ChildRead(i, _) => 4 * i
    case ChildWrite(i, _) => 4 * i + 1
    case RingRead(i, _) => 4 * i + 2
    case RingWrite(i, _, _) => 4 * i + 3
  }

  // The bytes it takes.
  function Amount(e: Event): nat {
    match e
    case RingWrite(_, ret, _) => if ret < 0 then 0 else ret
    case _ => e.k
  }

  // What a move means place by place.
  ghost predicate Moved(s: State, t: State, j: nat, k: nat) {
    && Sound(s) && Sound(t) && |t.stages| == |s.stages| && j + 1 < 4 * |s.stages| - 1
    && k <= |Place(s, j)|
    && Place(t, j) == Place(s, j)[k..]
    && Place(t, j + 1) == Place(s, j + 1) + Place(s, j)[..k]
    && (forall m: nat :: m < 4 * |s.stages| - 1 && m != j && m != j + 1 ==> Place(t, m) == Place(s, m))
  }

  lemma MovedIsMove(s: State, t: State, j: nat, k: nat)
    requires Moved(s, t, j, k)
    ensures k <= |Places(s)[j]| && Places(t) == Move(Places(s), j, k)
  {
  }

  lemma ChildReadMoves(s: State, i: nat, k: nat)
    requires Sound(s) && Enabled(s, ChildRead(i, k))
    ensures Moved(s, Step(s, ChildRead(i, k)), 4 * i, k)
  {
    var t := Step(s, ChildRead(i, k));
    assert 4 * i / 4 == i && 4 * i % 4 == 0 && (4 * i + 1) / 4 == i && (4 * i + 1) % 4 == 1;
    forall m: nat | m < 4 * |s.stages| - 1 && m != 4 * i && m != 4 * i + 1
      ensures Place(t, m) == Place(s, m)
    {
      assert m / 4 == i ==> m % 4 == 2 || m % 4 == 3;
    }
  }

  lemma ChildWriteMoves(s: State, i: nat, k: nat)
    requires Sound(s) && Enabled(s, ChildWrite(i, k))
    ensures Moved(s, Step(s, ChildWrite(i, k)), 4 * i + 1, k)
  {
    var t := Step(s, ChildWrite(i, k));
    assert (4 * i + 1) / 4 == i && (4 * i + 1) % 4 == 1 && (4 * i + 2) / 4 == i && (4 * i + 2) % 4 == 2;
    forall m: nat | m < 4 * |s.stages| - 1 && m != 4 * i + 1 && m != 4 * i + 2
      ensures Place(t, m) == Place(s, m)
    {
      assert m / 4 == i ==> m % 4 == 0 || m % 4 == 3;
    }
  }

  lemma RingReadMoves(s: State, i: nat, k: nat)
    requires Sound(s) && Enabled(s, RingRead(i, k))
    ensures Moved(s, Step(s, RingRead(i, k)), 4 * i + 2, k)
  {
    var t := Step(s, RingRead(i, k));
    ReadAppends(s.stages[i].ring, s.stages[i].up[..k]);
    assert (4 * i + 2) / 4 == i && (4 * i + 2) % 4 == 2 && (4 * i + 3) / 4 == i && (4 * i + 3) % 4 == 3;
    forall m: nat | m < 4 * |s.stages| - 1 && m != 4 * i + 2 && m != 4 * i + 3
      ensures Place(t, m) == Place(s, m)
    {
      assert m / 4 == i ==> m % 4 == 0 || m % 4 == 1;
    }
  }

  lemma RingWriteMoves(s: State, i: nat, ret: nat, behind: seq<Byte>)
    requires var e := RingWrite(i, ret, behind); Sound(s) && Enabled(s, e) && Within(s, e)
    ensures Moved(s, Step(s, RingWrite(i, ret, behind)), 4 * i + 3, ret)
  {
    hide Contents, Valid, WriteCursors, Emitted, Sent;
    var t := Step(s, RingWrite(i, ret, behind));
    assert (4 * i + 3) / 4 == i && (4 * i + 3) % 4 == 3 && (4 * i + 4) / 4 == i + 1 && (4 * i + 4) % 4 == 0;
    if ret > 0 {
      WriteTakesFront(s.stages[i].ring, ret);
      SentIsEmitted(s.stages[i].ring, ret, behind);
    }
    forall m: nat | m < 4 * |s.stages| - 1 && m != 4 * i + 3 && m != 4 * i + 4
      ensures Place(t, m) == Place(s, m)
    {
      assert m / 4 == i ==> m % 4 != 3;
      assert m / 4 == i + 1 ==> m % 4 != 0;
    }
  }

  // Every such step of a child or of the parent only moves bytes one place along the chain.
  lemma StepMoves(s: State, e: Event)
    requires Sound(s) && Enabled(s, e) && Within(s, e)
    ensures Moved(s, Step(s, e), Source(e), Amount(e))
  {
    hide Moved, Step, Enabled, Sound;
    match e
    case ChildRead(i, k) => ChildReadMoves(s, i, k);
    case ChildWrite(i, k) => ChildWriteMoves(s, i, k);
    case RingRead(i, k) => RingReadMoves(s, i, k);
    case RingWrite(i, ret, behind) => RingWriteMoves(s, i, ret, behind);
  }

  lemma StepConserves(s: State, e: Event)
    requires Sound(s) && Enabled(s, e) && Within(s, e)
    ensures var t := Step(s, e);
            Sound(t) && |t.stages| == |s.stages| && Flow(Places(t)) == Flow(Places(s))
  {
    hide Sound, Step, Place, Enabled;
    StepMoves(s, e);
    MovedIsMove(s, Step(s, e), Source(e), Amount(e));
    MoveKeepsFlow(Places(s), Source(e), Amount(e));
  }

  // ------------------------------------------------------------------ the other ring writes

  lemma {:induction false} FlowLength(places: seq<seq<Byte>>, j: nat, x: seq<Byte>)
    requires j < |places|
    ensures |Flow(places[j := x])| == |Flow(places)| - |places[j]| + |x|
  {
    if j == 0 {
      assert places[j := x][1..] == places[1..];
    } else {
      assert places[j := x][1..] == places[1..][j - 1 := x];
      FlowLength(places[1..], j - 1, x);
    }
  }

  // After EAGAIN either the ring is broken or the chain holds one byte more.
  lemma AgainAddsByte(s: State, i: nat, behind: seq<Byte>)
    requires Sound(s) && Enabled(s, RingWrite(i, -1, behind))
    ensures var t := Step(s, RingWrite(i, -1, behind));
            |t.stages| == |s.stages| && (Sound(t) ==> |Flow(Places(t))| == |Flow(Places(s))| + 1)
  {
    hide Contents, Valid, WriteCursors;
    var t := Step(s, RingWrite(i, -1, behind));
    EagainIsHarmful(s.stages[i].ring);
    if Sound(t) {
      var j := 4 * i + 3;
      assert j / 4 == i && j % 4 == 3 && (j + 1) / 4 == i + 1 && (j + 1) % 4 == 0;
      assert s.stages[i + 1].down + [] == s.stages[i + 1].down;
      forall m: nat | m < 4 * |s.stages| - 1 && m != j ensures Place(t, m) == Place(s, m) {
        assert m / 4 == i ==> m % 4 != 3;
      }
      assert Places(t) == Places(s)[j := Contents(t.stages[i].ring)];
      FlowLength(Places(s), j, Contents(t.stages[i].ring));
      assert Places(s)[j] == Contents(s.stages[i].ring);
    }
  }

  // A ring write that takes more than is queued breaks the ring.
  lemma BeyondBreaks(s: State, i: nat, ret: nat, behind: seq<Byte>)
    requires var e := RingWrite(i, ret, behind); Sound(s) && Enabled(s, e) && !Within(s, e)
    ensures !Sound(Step(s, RingWrite(i, ret, behind)))
  {
    WriteKeepsIff(s.stages[i].ring, ret);
    assert !Valid(Step(s, RingWrite(i, ret, behind)).stages[i].ring);
  }

  lemma {:induction false} RunConserves(s: State, events: seq<Event>)
    requires Sound(s) && IsRun(s, events) && AllWithin(s, events) && |s.stages| > 0
    ensures var t := RunAll(s, events);
            && Sound(t) && |t.stages| == |s.stages|
            && Flow(Places(t)) == Flow(Places(s))
    decreases |events|
  {
    hide Sound, Within, Step, Enabled;
    if events != [] {
      StepConserves(s, events[0]);
      RunConserves(Step(s, events[0]), events[1..]);
    }
  }

  lemma {:induction false} EmptyFlow(places: seq<seq<Byte>>)
    requires |places| > 0 && forall j :: 0 < j < |places| ==> places[j] == []
    ensures Flow(places) == places[0]
  {
    if |places| == 1 {
      assert places[1..] == [];
    } else {
      EmptyFlow(places[1..]);
    }
  }

  lemma InitFlow(numProc: nat, file: seq<Byte>)
    requires numProc > 0
    ensures |Init(numProc, file).stages| == numProc
    ensures Sound(Init(numProc, file)) && Flow(Places(Init(numProc, file))) == file
  {
    var s := Init(numProc, file);
    forall j | 0 <= j < numProc ensures Valid(s.stages[j].ring) && Contents(s.stages[j].ring) == [] {
      SizeBounds(numProc, j);
      NewIsEmpty(SizeBuf(numProc, j));
    }
    EmptyFlow(Places(s));
  }

  lemma OutputIsLast(s: State)
    requires Sound(s) && |s.stages| > 0
    ensures Output(s) <= Flow(Places(s))
  {
    var last := 4 * |s.stages| - 2;
    assert last / 4 == |s.stages| - 1 && last % 4 == 2;
    assert Places(s)[last] == Place(s, last) == Output(s);
    LastIsFirst(Places(s));
  }

  // A ring write whose request is empty closes the ring's output for good.
  ghost predicate NoWriteOf(i: nat, events: seq<Event>) {
    forall k :: 0 <= k < |events| ==> !(events[k].RingWrite? && events[k].i == i)
  }

  lemma {:induction false} ClosedForGood(s: State, i: nat, events: seq<Event>)
    requires i < |s.stages| && !s.stages[i].open && IsRun(s, events)
    ensures NoWriteOf(i, events) && i < |RunAll(s, events).stages| && !RunAll(s, events).stages[i].open
    decreases |events|
  {
    if events != [] {
      var rest := events[1..];
      ClosedForGood(Step(s, events[0]), i, rest);
      assert forall k :: 0 < k < |events| ==> events[k] == rest[k - 1];
    }
  }

  /** When a ring is completely full, or its free run is empty for another reason, its next write
      can only return 0 or fail with EAGAIN; and after a return of 0 the ring is never written
      out again, although bytes are queued. */
  lemma EmptyRequestCloses(s: State, i: nat, ret: int, behind: seq<Byte>, events: seq<Event>)
    requires Enabled(s, RingWrite(i, ret, behind)) && s.stages[i].ring.empty == 0 && ret != -1
    requires IsRun(Step(s, RingWrite(i, ret, behind)), events)
    ensures ret == 0 && NoWriteOf(i, events)
    ensures var t := Step(s, RingWrite(i, ret, behind));
            t.stages[i] == s.stages[i].(open := false) && s.stages[i].ring.full > 0
  {
    ClosedForGood(Step(s, RingWrite(i, ret, behind)), i, events);
  }

  // The call neither breaks a ring nor changes the bytes of the chain.
  ghost predicate Conserves(s: State, e: Event)
    requires Sound(s) && |s.stages| > 0 && Enabled(s, e)
  {
    var t := Step(s, e);
    |t.stages| > 0 && Sound(t) && Flow(Places(t)) == Flow(Places(s))
  }

  lemma ConservesIff(s: State, e: Event)
    requires Sound(s) && |s.stages| > 0 && Enabled(s, e)
    ensures Conserves(s, e) <==> Within(s, e)
  {
    hide Step, Flow, Places, Sound;
    if Within(s, e) {
      StepConserves(s, e);
    } else if e.ret == -1 {
      AgainAddsByte(s, e.i, e.behind);
    } else {
      BeyondBreaks(s, e.i, e.ret, e.behind);
    }
  }

  // Before and after every event of the run the rings are sound and the bytes are the file.
  ghost predicate AlwaysFile(s: State, events: seq<Event>, file: seq<Byte>)
    requires IsRun(s, events)
    decreases |events|
  {
    && |s.stages| > 0 && Sound(s) && Flow(Places(s)) == file
    && (events != [] ==> AlwaysFile(Step(s, events[0]), events[1..], file))
  }

  lemma {:induction false} AlwaysFileIff(s: State, events: seq<Event>, file: seq<Byte>)
    requires IsRun(s, events) && |s.stages| > 0 && Sound(s) && Flow(Places(s)) == file
    ensures AlwaysFile(s, events, file) <==> AllWithin(s, events)
    decreases |events|
  {
    hide Sound, Flow, Places, Within, Step, Enabled;
    if events != [] {
      ConservesIff(s, events[0]);
      if Within(s, events[0]) { AlwaysFileIff(Step(s, events[0]), events[1..], file); }
    }
  }

  /** A chain of any length and any run of the code's own calls: before and after each of them
      the last child's output, then the bytes in flight from the last stage back to the first,
      then the unread file, are the file and every ring is a sound FIFO, if and only if no ring
      write took more than was queued or went on after EAGAIN. Then the output is a prefix. */
  lemma FileConserved(numProc: nat, file: seq<Byte>, events: seq<Event>)
    requires numProc > 0 && IsRun(Init(numProc, file), events)
    ensures AlwaysFile(Init(numProc, file), events, file) <==> AllWithin(Init(numProc, file), events)
    ensures AllWithin(Init(numProc, file), events) ==>
              var s := RunAll(Init(numProc, file), events);
              && |s.stages| == numProc && Sound(s) && Flow(Places(s)) == file && Output(s) <= file
              && forall i :: 0 <= i < numProc ==> |s.stages[i].buff| <= 4096
  {
    var init, t := Init(numProc, file), RunAll(Init(numProc, file), events);
    hide Init, Sound, IsRun, RunAll, AllWithin;
    InitFlow(numProc, file);
    AlwaysFileIff(init, events, file);
    if AllWithin(init, events) {
      RunConserves(init, events);
      OutputIsLast(t);
    }
  }

  lemma RingIsValid(s: State, i: nat)
    requires Sound(s) && i < |s.stages|
    ensures Valid(s.stages[i].ring)
  {
  }

  /** Before the call: a ring's write, whatever positive or zero count it returns, keeps the
      chain sound and its bytes if and only if `empty` is not more than `full`. */
  lemma RequestConservesIff(s: State, i: nat)
    requires Sound(s) && i + 1 < |s.stages| && s.stages[i].open && s.stages[i].ring.full > 0
    ensures (forall ret: nat, behind :: Enabled(s, RingWrite(i, ret, behind)) ==>
               Conserves(s, RingWrite(i, ret, behind)))
       <==> s.stages[i].ring.empty <= s.stages[i].ring.full
  {
    hide Conserves, Sound;
    var ring := s.stages[i].ring;
    RingIsValid(s, i);
    if ring.empty <= ring.full {
      forall ret: nat, behind | Enabled(s, RingWrite(i, ret, behind))
        ensures Conserves(s, RingWrite(i, ret, behind))
      {
        ConservesIff(s, RingWrite(i, ret, behind));
      }
    } else {
      var behind := seq(ring.empty, _ => 0 as Byte);
      assert Enabled(s, RingWrite(i, ring.empty, behind));
      ConservesIff(s, RingWrite(i, ring.empty, behind));
    }
  }

  // Every ring write is made with `empty` at most `full`, and none fails with EAGAIN.
  ghost predicate AllGuarded(s: State, events: seq<Event>)
    requires IsRun(s, events)
    decreases |events|
  {
    events == [] ||
    (var e := events[0];
     && (e.RingWrite? ==> e.ret != -1 && s.stages[e.i].ring.empty <= s.stages[e.i].ring.full)
     && AllGuarded(Step(s, e), events[1..]))
  }

  lemma GuardIsEnough(s: State, e: Event)
    requires Sound(s) && Enabled(s, e)
    requires e.RingWrite? ==> e.ret != -1 && s.stages[e.i].ring.empty <= s.stages[e.i].ring.full
    ensures Within(s, e)
  {
    if e.RingWrite? { RingIsValid(s, e.i); }
  }

  lemma {:induction false} GuardedIsWithin(s: State, events: seq<Event>)
    requires Sound(s) && IsRun(s, events) && AllGuarded(s, events)
    ensures AllWithin(s, events)
    decreases |events|
  {
    if events != [] {
      GuardIsEnough(s, events[0]);
      hide Sound, Step, Within;
      StepConserves(s, events[0]);
      GuardedIsWithin(Step(s, events[0]), events[1..]);
    }
  }

  // With that guard the code's own requests conserve the file, whatever they return.
  lemma GuardedConserves(numProc: nat, file: seq<Byte>, events: seq<Event>)
    requires numProc > 0 && IsRun(Init(numProc, file), events) && AllGuarded(Init(numProc, file), events)
    ensures var s := RunAll(Init(numProc, file), events);
            && |s.stages| == numProc && Sound(s) && Flow(Places(s)) == file && Output(s) <= file
  {
    InitFlow(numProc, file);
    GuardedIsWithin(Init(numProc, file), events);
    FileConserved(numProc, file, events);
  }
}
