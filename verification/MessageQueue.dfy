/** 3_sem/Queue: a process forks n children, and a SysV message queue makes them print their
    numbers in order. The parent sends a message of type i, child i receives it, prints, and
    answers with type n + 1. */
module MessageQueue {
  import opened Utils

  datatype ParentPc =
    | Forking(i: nat)    // create_procs, about to test i_proc < num_proc + 1
    | Sending(i: nat)    // msgsnd of type i
    | Receiving(i: nat)  // msgrcv of type n + 1
    | Deleting           // msgctl IPC_RMID
    | Gone

  datatype ChildPc = Waiting | Printing | Answering | Exiting | Exited

  // Child number k (its i_proc) is children[k - 1]; a message is its type.
  datatype State = State(n: nat, queue: seq<nat>, removed: bool, printed: seq<nat>,
                         parent: ParentPc, children: seq<ChildPc>)

  datatype Event = ParentRuns | ChildRuns(k: nat)

  function Init(n: nat): State {
    State(n, [], false, [], Forking(1), [])
  }

  // `msgrcv` with a positive type: the first message of that type leaves the queue.
  function Receive(queue: seq<nat>, t: nat): (r: Option<seq<nat>>)
    ensures r.None? <==> t !in queue
  {
    if queue == [] then None
    else if queue[0] == t then Some(queue[1..])
    else match Receive(queue[1..], t)
         case None => None
         case Some(rest) => Some([queue[0]] + rest)
  }

  // The message taken is the first of its type, and all others keep their order.
  lemma {:induction false} ReceiveFirst(queue: seq<nat>, t: nat, i: nat)
    requires i < |queue| && queue[i] == t && t !in queue[..i]
    ensures Receive(queue, t) == Some(queue[..i] + queue[i + 1..])
  {
    if i == 0 {
      assert queue[..0] + queue[1..] == queue[1..];
    } else {
      var rest := queue[1..];
      assert queue[..i] == [queue[0]] + rest[..i - 1];
      assert queue[0] in queue[..i];
      ReceiveFirst(rest, t, i - 1);
      assert rest[i..] == queue[i + 1..];
      assert [queue[0]] + (rest[..i - 1] + rest[i..]) == queue[..i] + queue[i + 1..];
    }
  }

  // ------------------------------------------------------------------ steps

  predicate Enabled(s: State, e: Event) {
    match e
    case ParentRuns =>
      (match s.parent
       case Receiving(_) => !s.removed && s.n + 1 in s.queue
       case Gone => false
       case _ => true)
    case ChildRuns(k) =>
      1 <= k <= |s.children| &&
      (match s.children[k - 1]
       case Waiting => !s.removed && k in s.queue
       case Exited => false
       case _ => true)
  }

  // The loop test of the parent.
  function NextTurn(s: State, i: nat): State {
    s.(parent := if i < s.n + 1 then Sending(i) else Deleting)
  }

  function ParentStep(s: State): State {
    match s.parent
    case Forking(i) =>
      if i < s.n + 1 then s.(parent := Forking(i + 1), children := s.children + [Waiting])
      else NextTurn(s, 1)
    case Sending(i) => s.(parent := Receiving(i), queue := s.queue + [i])
    case Receiving(i) =>
      (match Receive(s.queue, s.n + 1)
       case Some(rest) => NextTurn(s.(queue := rest), i + 1)
       case None => s)
    case Deleting => s.(parent := Gone, removed := true, queue := [])
    case Gone => s
  }

  function ChildStep(s: State, k: nat): State
    requires 1 <= k <= |s.children|
  {
    match s.children[k - 1]
    case Waiting =>
      (match Receive(s.queue, k)
       case Some(rest) => s.(queue := rest, children := s.children[k - 1 := Printing])
       case None => s)
    case Printing => s.(printed := s.printed + [k], children := s.children[k - 1 := Answering])
    case Answering => s.(queue := s.queue + [s.n + 1], children := s.children[k - 1 := Exiting])
    case _ => s.(children := s.children[k - 1 := Exited])
  }

  function Step(s: State, e: Event): State
    requires Enabled(s, e)
  {
    match e
    case ParentRuns => ParentStep(s)
    case ChildRuns(k) => ChildStep(s, k)
  }

  ghost predicate IsRun(s: State, events: seq<Event>)
    decreases |events|
  {
    events == [] || (Enabled(s, events[0]) && IsRun(Step(s, events[0]), events[1..]))
  }

  ghost function RunAll(s: State, events: seq<Event>): State
    requires IsRun(s, events)
    decreases |events|
  {
    if events == [] then s else RunAll(Step(s, events[0]), events[1..])
  }

  // Only a `msgrcv` whose message is not there keeps a process from running, until it has exited.
  lemma OnlyReceivingBlocks(s: State, k: nat)
    requires !s.removed && 1 <= k <= |s.children|
    ensures !Enabled(s, ParentRuns) <==> s.parent == Gone || (s.parent.Receiving? && s.n + 1 !in s.queue)
    ensures !Enabled(s, ChildRuns(k)) <==>
              s.children[k - 1] == Exited || (s.children[k - 1] == Waiting && k !in s.queue)
  {
  }

  // ------------------------------------------------------------------ invariant

  function Upto(k: nat): (r: seq<nat>)
    ensures |r| == k && forall j :: 0 <= j < k ==> r[j] == j + 1
  {
    seq(k, j => j + 1)
  }

  // The child has done its last queue operation.
  predicate Through(c: ChildPc) { c == Exiting || c == Exited }

  // Children before number i are through, those after it still wait for their message.
  predicate InTurn(s: State, i: nat) {
    && |s.children| == s.n && !s.removed
    && (forall k :: 0 <= k < |s.children| && k < i - 1 ==> Through(s.children[k]))
    && (forall k :: 0 <= k < |s.children| && k >= i ==> s.children[k] == Waiting)
  }

  predicate Inv(s: State) {
    match s.parent
    case Forking(i) =>
      && 1 <= i <= s.n + 1 && |s.children| == i - 1 && !s.removed && s.queue == [] && s.printed == []
      && (forall k :: 0 <= k < |s.children| ==> s.children[k] == Waiting)
    case Sending(i) =>
      && 1 <= i <= s.n && InTurn(s, i) && s.children[i - 1] == Waiting
      && s.queue == [] && s.printed == Upto(i - 1)
    case Receiving(i) =>
      && 1 <= i <= s.n && InTurn(s, i)
      && (match s.children[i - 1]
          case Waiting => s.queue == [i] && s.printed == Upto(i - 1)
          case Printing => s.queue == [] && s.printed == Upto(i - 1)
          case Answering => s.queue == [] && s.printed == Upto(i)
          case _ => s.queue == [s.n + 1] && s.printed == Upto(i))
    case Deleting =>
      InTurn(s, s.n + 1) && s.queue == [] && s.printed == Upto(s.n)
    case Gone =>
      && s.removed && |s.children| == s.n && (forall k :: 0 <= k < |s.children| ==> Through(s.children[k]))
      && s.queue == [] && s.printed == Upto(s.n)
  }

  lemma ParentKeeps(s: State)
    requires Inv(s) && Enabled(s, ParentRuns)
    ensures Inv(ParentStep(s))
  {
    if s.parent.Receiving? {
      assert s.queue == [s.n + 1];
      ReceiveFirst(s.queue, s.n + 1, 0);
    }
  }

  lemma ChildKeeps(s: State, k: nat)
    requires Inv(s) && Enabled(s, ChildRuns(k))
    ensures Inv(ChildStep(s, k))
  {
    if s.children[k - 1] == Waiting {
      assert s.queue == [k];
      ReceiveFirst(s.queue, k, 0);
    }
  }

  lemma StepKeeps(s: State, e: Event)
    requires Inv(s) && Enabled(s, e)
    ensures Inv(Step(s, e)) && Step(s, e).n == s.n
  {
    match e
    case ParentRuns => ParentKeeps(s);
    case ChildRuns(k) => ChildKeeps(s, k);
  }

  // ------------------------------------------------------------------ progress

  function ChildSteps(c: ChildPc): nat {
    match c case Waiting => 4 case Printing => 3 case Answering => 2 case Exiting => 1 case Exited => 0
  }

  function AllChildSteps(children: seq<ChildPc>): nat {
    if children == [] then 0 else ChildSteps(children[0]) + AllChildSteps(children[1..])
  }

  function ParentSteps(n: nat, p: ParentPc): int {
    match p
    case Forking(i) => 6 * (n + 1 - i) + 2 * n + 3
    case Sending(i) => 2 * (n - i) + 3
    case Receiving(i) => 2 * (n - i) + 2
    case Deleting => 1
    case Gone => 0
  }

  function Measure(s: State): int { ParentSteps(s.n, s.parent) + AllChildSteps(s.children) }

  lemma {:induction false} ChildStepsUpdate(children: seq<ChildPc>, i: nat, c: ChildPc)
    requires i < |children|
    ensures AllChildSteps(children[i := c]) == AllChildSteps(children) - ChildSteps(children[i]) + ChildSteps(c)
  {
    if i == 0 {
      assert children[i := c][1..] == children[1..];
    } else {
      assert children[i := c][1..] == children[1..][i - 1 := c];
      ChildStepsUpdate(children[1..], i - 1, c);
    }
  }

  lemma {:induction false} ChildStepsAppend(children: seq<ChildPc>, c: ChildPc)
    ensures AllChildSteps(children + [c]) == AllChildSteps(children) + ChildSteps(c)
  {
    if children == [] {
      assert children + [c] == [c] && [c][1..] == [];
    } else {
      assert (children + [c])[1..] == children[1..] + [c];
      ChildStepsAppend(children[1..], c);
    }
  }

  lemma MeasureNonNegative(s: State)
    requires Inv(s)
    ensures 0 <= Measure(s)
  {
  }

  lemma ParentDecreases(s: State)
    requires Inv(s) && Enabled(s, ParentRuns)
    ensures ParentStep(s).n == s.n && Measure(ParentStep(s)) < Measure(s)
  {
    ChildStepsAppend(s.children, Waiting);
  }

  lemma ChildDecreases(s: State, k: nat)
    requires Enabled(s, ChildRuns(k))
    ensures ChildStep(s, k).n == s.n && Measure(ChildStep(s, k)) < Measure(s)
  {
    hide ParentSteps;
    var t := ChildStep(s, k);
    ChildStepsUpdate(s.children, k - 1, t.children[k - 1]);
    assert t.children == s.children[k - 1 := t.children[k - 1]];
  }

  lemma StepDecreases(s: State, e: Event)
    requires Inv(s) && Enabled(s, e)
    ensures Inv(Step(s, e)) && Step(s, e).n == s.n && 0 <= Measure(Step(s, e)) < Measure(s)
  {
    hide Inv, Measure;
    StepKeeps(s, e);
    MeasureNonNegative(Step(s, e));
    match e {
      case ParentRuns => ParentDecreases(s);
      case ChildRuns(k) => ChildDecreases(s, k);
    }
  }

  predicate Finished(s: State) {
    s.parent == Gone && forall k :: 0 <= k < |s.children| ==> s.children[k] == Exited
  }

  lemma SomeoneCanRun(s: State)
    requires Inv(s) && !Finished(s)
    ensures exists e :: Enabled(s, e)
  {
    match s.parent {
      case Receiving(i) =>
        assert Enabled(s, if Through(s.children[i - 1]) then ParentRuns else ChildRuns(i));
      case Gone =>
        var k :| 0 <= k < |s.children| && s.children[k] != Exited;
        assert Enabled(s, ChildRuns(k + 1));
      case _ =>
        assert Enabled(s, ParentRuns);
    }
  }

  // ------------------------------------------------------------------ results

  lemma {:induction false} RunKeeps(s: State, events: seq<Event>)
    requires Inv(s) && IsRun(s, events)
    ensures Inv(RunAll(s, events)) && RunAll(s, events).n == s.n
    ensures |events| + Measure(RunAll(s, events)) <= Measure(s)
    decreases |events|
  {
    if events != [] {
      StepDecreases(s, events[0]);
      RunKeeps(Step(s, events[0]), events[1..]);
    }
  }

  /** Every n, every interleaving: the children print 1, 2, 3, ... in order, and the queue
      never holds more than one message (so `msgsnd` never has to wait for room). */
  lemma PrintsInOrder(n: nat, events: seq<Event>)
    requires IsRun(Init(n), events)
    ensures var s := RunAll(Init(n), events);
            && |s.printed| <= n && s.printed == Upto(|s.printed|)
            && |s.queue| <= 1
  {
    RunKeeps(Init(n), events);
  }

  /** The parent is at the removal of the queue (or past it) only when all n lines are out
      and every child has done its last queue operation. */
  lemma RemovedWhenDone(n: nat, events: seq<Event>)
    requires IsRun(Init(n), events)
    ensures var s := RunAll(Init(n), events);
            && (s.removed <==> s.parent == Gone)
            && (s.parent == Deleting || s.parent == Gone ==>
                  && s.printed == Upto(n) && |s.children| == n
                  && forall k :: 0 <= k < n ==> Through(s.children[k]))
  {
    RunKeeps(Init(n), events);
  }

  // No reachable state is stuck, and every run is finite.
  lemma NoDeadlock(n: nat, events: seq<Event>)
    requires IsRun(Init(n), events)
    ensures var s := RunAll(Init(n), events);
            && (Finished(s) || exists e :: Enabled(s, e))
            && (Finished(s) ==> s.printed == Upto(n))
            && |events| <= 8 * n + 3
  {
    RunKeeps(Init(n), events);
    var s := RunAll(Init(n), events);
    if !Finished(s) { SomeoneCanRun(s); }
  }

  // ------------------------------------------------------------------ the program

  class Processes {
    const n: nat
    var queue: seq<nat>
    var removed: bool
    var printed: seq<nat>
    var parent: ParentPc
    var children: seq<ChildPc>

    function Snapshot(): State
      reads this
    {
      State(n, queue, removed, printed, parent, children)
    }

    // The invariant of the protocol, and the steps left.
    ghost predicate Valid()
      reads this
    {
      Inv(Snapshot())
    }

    ghost function Left(): int
      reads this
    {
      Measure(Snapshot())
    }

    constructor (n: nat)
      ensures Valid() && Snapshot() == Init(n) && this.n == n
    {
      this.n := n;
      queue, removed, printed, parent, children := [], false, [], Forking(1), [];
    }

    // `msgrcv`: scan for the first message of the type and take it out.
    method TakeMessage(t: nat) returns (ok: bool)
      modifies this`queue
      ensures match Receive(old(queue), t)
              case Some(rest) => ok && queue == rest
              case None => !ok && queue == old(queue)
    {
      var i := 0;
      while i < |queue| && queue[i] != t
        invariant 0 <= i <= |queue|
        invariant t !in queue[..i] && queue == old(queue)
      {
        i := i + 1;
      }
      ok := i < |queue|;
      if ok {
        ReceiveFirst(queue, t, i);
        queue := queue[..i] + queue[i + 1..];
      } else {
        assert queue[..i] == queue;
      }
    }

    method ParentRuns()
      requires Valid() && Enabled(Snapshot(), Event.ParentRuns)
      modifies this
      ensures Valid() && 0 <= Left() < old(Left())
      ensures Snapshot() == ParentStep(old(Snapshot()))
    {
      hide Inv, Measure;
      StepDecreases(Snapshot(), Event.ParentRuns);
      match parent {
        case Forking(i) =>
          if i < n + 1 {
            children := children + [Waiting];
            parent := Forking(i + 1);
          } else {
            parent := if 1 < n + 1 then Sending(1) else Deleting;
          }
        case Sending(i) =>
          queue := queue + [i];
          parent := Receiving(i);
        case Receiving(i) =>
          var ok := TakeMessage(n + 1);
          if ok {
            parent := if i + 1 < n + 1 then Sending(i + 1) else Deleting;
          }
        case Deleting =>
          removed, queue := true, [];
          parent := Gone;
      }
    }

    method ChildRuns(k: nat)
      requires Valid() && Enabled(Snapshot(), Event.ChildRuns(k))
      modifies this
      ensures Valid() && 0 <= Left() < old(Left())
      ensures Snapshot() == ChildStep(old(Snapshot()), k)
    {
      hide Inv, Measure;
      StepDecreases(Snapshot(), Event.ChildRuns(k));
      match children[k - 1] {
        case Waiting =>
          var ok := TakeMessage(k);
          if ok {
            children := children[k - 1 := Printing];
          }
        case Printing =>
          printed := printed + [k];
          children := children[k - 1 := Answering];
        case Answering =>
          queue := queue + [n + 1];
          children := children[k - 1 := Exiting];
        case Exiting =>
          children := children[k - 1 := Exited];
      }
    }

    // Any scheduler: whichever process can run does, and all n lines come out in order.
    method Play()
      requires Valid()
      modifies this
      ensures Finished(Snapshot()) && printed == Upto(n) && removed
    {
      while !(parent == Gone && forall k :: 0 <= k < |children| ==> children[k] == Exited)
        invariant Valid()
        decreases Left()
      {
        SomeoneCanRun(Snapshot());
        var e :| Enabled(Snapshot(), e);
        match e {
          case ParentRuns => ParentRuns();
          case ChildRuns(k) => ChildRuns(k);
        }
      }
    }
  }
}
