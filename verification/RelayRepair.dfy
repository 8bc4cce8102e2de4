/** Why the chain of 3_sem/Select is judged over every state of a run: a ring write that takes
    more than is queued breaks the ring, and later calls of the code can bring it back. */
module RelayRepair {
  import opened Ring
  import opened Relay

  const FILE_SIZE := 128000

  function Zeros(n: nat): (z: seq<Byte>)
    ensures |z| == n
  {
    seq(n, _ => 0)
  }

  // Ring 0 of seven processes, with nothing but zeros in its buffer.
  function RingAt(curRead: int, curWrite: int, full: int, empty: int): Ring {
    New(FILE_SIZE).(curRead := curRead, curWrite := curWrite, full := full, empty := empty)
  }

  // `rest` bytes unread, `up` in the first child's pipe, ring 0, and `down` sent to the second child.
  function Chain(rest: nat, up: nat, ring: Ring, down: nat): State {
    var s := Init(7, Zeros(rest));
    s.(stages := s.stages[0 := s.stages[0].(up := Zeros(up), ring := ring)]
                         [1 := s.stages[1].(down := Zeros(down))])
  }

  lemma FirstRingSize()
    ensures SizeBuf(7, 0) == FILE_SIZE
  {
    assert Pow3(4) == 81;
    assert Pow3(8) == 6561;
    assert Pow3(11) == 177147;
  }

  lemma InitIsChain()
    ensures Init(7, Zeros(FILE_SIZE)) == Chain(FILE_SIZE, 0, RingAt(0, 0, 0, FILE_SIZE), 0)
  {
    FirstRingSize();
    var s, t := Init(7, Zeros(FILE_SIZE)), Chain(FILE_SIZE, 0, RingAt(0, 0, 0, FILE_SIZE), 0);
    assert Zeros(0) == [];
    assert s.stages == t.stages;
  }

  // ------------------------------------------------------------------ the child copies the file

  // The child's reads and writes of the rest of the file.
  function Feeding(rest: nat): seq<Event> {
    if rest == 0 then [] else
      var k := if rest < BUFF_SIZE then rest else BUFF_SIZE;
      [ChildRead(0, k)] + ([ChildWrite(0, k)] + Feeding(rest - k))
  }

  lemma FeedOne(rest: nat, up: nat, ring: Ring, k: nat)
    requires 0 < k <= rest && k <= BUFF_SIZE
    ensures var s := Chain(rest, up, ring, 0);
            && Enabled(s, ChildRead(0, k))
            && Enabled(Step(s, ChildRead(0, k)), ChildWrite(0, k))
            && Step(Step(s, ChildRead(0, k)), ChildWrite(0, k)) == Chain(rest - k, up + k, ring, 0)
  {
    var s, t := Chain(rest, up, ring, 0), Chain(rest - k, up + k, ring, 0);
    assert Zeros(rest)[..k] == Zeros(k) && Zeros(rest)[k..] == Zeros(rest - k);
    assert Zeros(k)[..k] == Zeros(k) && Zeros(k)[k..] == [];
    assert Zeros(up) + Zeros(k) == Zeros(up + k);
    assert Step(Step(s, ChildRead(0, k)), ChildWrite(0, k)).stages == t.stages;
  }

  lemma RunCons(s: State, e: Event, rest: seq<Event>)
    requires Enabled(s, e) && IsRun(Step(s, e), rest)
    ensures IsRun(s, [e] + rest) && RunAll(s, [e] + rest) == RunAll(Step(s, e), rest)
    ensures AllWithin(s, [e] + rest) <==> Within(s, e) && AllWithin(Step(s, e), rest)
  {
    assert ([e] + rest)[0] == e && ([e] + rest)[1..] == rest;
  }

  lemma {:induction false} Feed(rest: nat, up: nat, ring: Ring, more: seq<Event>)
    requires IsRun(Chain(0, up + rest, ring, 0), more)
    ensures var s := Chain(rest, up, ring, 0);
            && IsRun(s, Feeding(rest) + more)
            && RunAll(s, Feeding(rest) + more) == RunAll(Chain(0, up + rest, ring, 0), more)
            && (AllWithin(s, Feeding(rest) + more) <==> AllWithin(Chain(0, up + rest, ring, 0), more))
  {
    hide Chain, Enabled, Step;
    if rest == 0 {
      assert Feeding(rest) + more == more;
    } else {
      var k := if rest < BUFF_SIZE then rest else BUFF_SIZE;
      var s := Chain(rest, up, ring, 0);
      var tail := Feeding(rest - k) + more;
      FeedOne(rest, up, ring, k);
      Feed(rest - k, up + k, ring, more);
      RunCons(Step(s, ChildRead(0, k)), ChildWrite(0, k), tail);
      RunCons(s, ChildRead(0, k), [ChildWrite(0, k)] + tail);
      assert Feeding(rest) + more == [ChildRead(0, k)] + ([ChildWrite(0, k)] + tail);
    }
  }

  // ------------------------------------------------------------------ the parent's calls

  lemma ReadOne(up: nat, ring: Ring, down: nat, k: nat)
    requires 0 < k <= up && k <= ring.empty && ring.buf == Zeros(FILE_SIZE)
    requires 0 <= ring.curRead && ring.curRead + k <= FILE_SIZE
    ensures var s := Chain(0, up, ring, down);
            && Enabled(s, RingRead(0, k))
            && Step(s, RingRead(0, k)) == Chain(0, up - k, ReadCursors(ring, k), down)
  {
    var s, t := Chain(0, up, ring, down), Chain(0, up - k, ReadCursors(ring, k), down);
    assert Zeros(up)[..k] == Zeros(k) && Zeros(up)[k..] == Zeros(up - k);
    assert Stored(ring, Zeros(k)).buf == ring.buf;
    assert Stored(ring, Zeros(k)) == ring;
    assert Step(s, RingRead(0, k)).stages == t.stages;
  }

  lemma WriteOne(up: nat, ring: Ring, down: nat, k: nat)
    requires 0 < k <= ring.empty && ring.full > 0 && ring.buf == Zeros(FILE_SIZE)
    requires 0 <= ring.curWrite && ring.curWrite + k <= FILE_SIZE
    ensures var s := Chain(0, up, ring, down);
            && Enabled(s, RingWrite(0, k, []))
            && Step(s, RingWrite(0, k, [])) == Chain(0, up, WriteCursors(ring, k), down + k)
            && (Within(s, RingWrite(0, k, [])) <==> k <= ring.full)
  {
    var s, t := Chain(0, up, ring, down), Chain(0, up, WriteCursors(ring, k), down + k);
    assert Sent(ring, k, []) == Zeros(k);
    assert Zeros(down) + Zeros(k) == Zeros(down + k);
    assert Step(s, RingWrite(0, k, [])).stages == t.stages;
  }

  // Read 4096, send 65536 where 4096 are queued, read 61440 and 62464, send 62464.
  function Calls(): seq<Event> {
    [RingRead(0, 4096)] + ([RingWrite(0, 65536, [])] +
    ([RingRead(0, 61440)] + ([RingRead(0, 62464)] + ([RingWrite(0, 62464, [])] + []))))
  }

  lemma CallsRepair()
    ensures var s := Chain(0, FILE_SIZE, RingAt(0, 0, 0, FILE_SIZE), 0);
            && IsRun(s, Calls()) && !AllWithin(s, Calls())
            && RunAll(s, Calls()) == Chain(0, 0, RingAt(0, 0, 0, FILE_SIZE), FILE_SIZE)
  {
    hide Chain, Enabled, Step, Within;
    var r0 := RingAt(0, 0, 0, 128000);
    var r1 := RingAt(4096, 0, 4096, 123904);
    var r2 := RingAt(4096, 65536, -61440, 123904);
    var r3 := RingAt(65536, 65536, -61440, 62464);
    var r4 := RingAt(0, 65536, 1024, 65536);
    ReadOne(128000, r0, 0, 4096);
    WriteOne(123904, r1, 0, 65536);
    ReadOne(123904, r2, 65536, 61440);
    ReadOne(62464, r3, 65536, 62464);
    WriteOne(0, r4, 65536, 62464);
    var e5 := [RingWrite(0, 62464, [])] + [];
    var e4 := [RingRead(0, 62464)] + e5;
    var e3 := [RingRead(0, 61440)] + e4;
    var e2 := [RingWrite(0, 65536, [])] + e3;
    RunCons(Chain(0, 0, r4, 65536), RingWrite(0, 62464, []), []);
    RunCons(Chain(0, 62464, r3, 65536), RingRead(0, 62464), e5);
    RunCons(Chain(0, 123904, r2, 65536), RingRead(0, 61440), e4);
    RunCons(Chain(0, 123904, r1, 0), RingWrite(0, 65536, []), e3);
    RunCons(Chain(0, 128000, r0, 0), RingRead(0, 4096), e2);
  }

  // ------------------------------------------------------------------ the result

  lemma {:induction false} OnePlace(places: seq<seq<Byte>>, j: nat)
    requires j < |places| && forall m :: 0 <= m < |places| && m != j ==> places[m] == []
    ensures Flow(places) == places[j]
  {
    if j == 0 {
      EmptyFlow(places);
    } else {
      OnePlace(places[1..], j - 1);
    }
  }

  lemma EndIsSound()
    ensures var s := Chain(0, 0, RingAt(0, 0, 0, FILE_SIZE), FILE_SIZE);
            |s.stages| == 7 && Sound(s) && Flow(Places(s)) == Zeros(FILE_SIZE)
  {
    var s := Chain(0, 0, RingAt(0, 0, 0, FILE_SIZE), FILE_SIZE);
    forall j | 0 <= j < 7 ensures Valid(s.stages[j].ring) && Contents(s.stages[j].ring) == [] {
      SizeBounds(7, j);
      if j > 0 { NewIsEmpty(SizeBuf(7, j)); }
    }
    forall m | 0 <= m < |Places(s)| && m != 4 ensures Places(s)[m] == [] {}
    OnePlace(Places(s), 4);
  }

  /** Seven processes and a file of 128000 zeros: a ring write takes 65536 bytes where 4096 are
      queued, so some state of the run is not sound, and at the end of the run every ring is
      sound and all bytes are there. */
  lemma BrokenRingMayRecover() returns (events: seq<Event>)
    ensures var init := Init(7, Zeros(FILE_SIZE));
            && IsRun(init, events) && !AllWithin(init, events)
            && !AlwaysFile(init, events, Zeros(FILE_SIZE))
            && var s := RunAll(init, events);
               |s.stages| == 7 && Sound(s) && Flow(Places(s)) == Zeros(FILE_SIZE)
  {
    hide Chain, Enabled, Step, Within, Sound, Places, Flow, Init, AllWithin, IsRun, RunAll, AlwaysFile;
    InitIsChain();
    CallsRepair();
    Feed(FILE_SIZE, 0, RingAt(0, 0, 0, FILE_SIZE), Calls());
    events := Feeding(FILE_SIZE) + Calls();
    EndIsSound();
    FileConserved(7, Zeros(FILE_SIZE), events);
  }
}
