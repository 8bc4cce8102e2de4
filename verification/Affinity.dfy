/** CPU grouping and thread placement of 4_sem/Network/pthread.c: `get_mycpu_info` groups the
    processors by core id, `set_attrs` deals the threads out over cores and processors. */
module Affinity {

  // ------------------------------------------------------------------ grouping, as a function

  // The slots of the cpus array, and how many of them are in use.
  datatype Scan = Scan(slots: seq<seq<nat>>, nCpu: nat)

  // `find_in_array` would find id among the first n.
  predicate Seen(ids: seq<int>, n: nat, id: int)
    requires n <= |ids|
  {
    n > 0 && (ids[n - 1] == id || Seen(ids, n - 1, id))
  }

  lemma {:induction false} SeenFrom(ids: seq<int>, n: nat, k: nat)
    requires k < n <= |ids|
    ensures Seen(ids, n, ids[k])
  {
    if k < n - 1 { SeenFrom(ids, n - 1, k); }
  }

  // A repeated core id is used as an index into the array of |ids| slots: the scan of the
  // first n processors stays inside it.
  predicate SafeTo(ids: seq<int>, n: nat)
    requires n <= |ids|
  {
    forall i :: 0 <= i < n && Seen(ids, i, ids[i]) ==> 0 <= ids[i] < |ids|
  }

  predicate IndexSafe(ids: seq<int>) { SafeTo(ids, |ids|) }

  // After the first i processors.
  function ScanTo(ids: seq<int>, i: nat): (s: Scan)
    requires i <= |ids| && SafeTo(ids, i)
    ensures |s.slots| == |ids| && s.nCpu <= i
  {
    if i == 0 then Scan(seq(|ids|, _ => []), 0)
    else
      var s := ScanTo(ids, i - 1);
      var id := ids[i - 1];
      if !Seen(ids, i - 1, id) then Scan(s.slots[s.nCpu := [i - 1]], s.nCpu + 1)
      else s.(slots := s.slots[id := s.slots[id] + [i - 1]])
  }

  // What one more processor does.
  lemma ScanNext(ids: seq<int>, i: nat)
    requires i < |ids| && SafeTo(ids, i)
    ensures SafeTo(ids, i + 1) <==> (Seen(ids, i, ids[i]) ==> 0 <= ids[i] < |ids|)
    ensures SafeTo(ids, i + 1) ==>
              var s := ScanTo(ids, i);
              ScanTo(ids, i + 1) ==
              if !Seen(ids, i, ids[i]) then Scan(s.slots[s.nCpu := [i]], s.nCpu + 1)
              else s.(slots := s.slots[ids[i] := s.slots[ids[i]] + [i]])
  {
  }

  // The groups in use at the end.
  function Groups(ids: seq<int>): (g: seq<seq<nat>>)
    requires IndexSafe(ids)
  {
    var s := ScanTo(ids, |ids|);
    s.slots[..s.nCpu]
  }

  // The processors below n with a given core id, in increasing order.
  function Where(ids: seq<int>, n: nat, id: int): (r: seq<nat>)
    requires n <= |ids|
  {
    if n == 0 then []
    else if ids[n - 1] == id then Where(ids, n - 1, id) + [n - 1]
    else Where(ids, n - 1, id)
  }

  predicate Increasing(r: seq<nat>) {
    forall a, b :: 0 <= a < b < |r| ==> r[a] < r[b]
  }

  lemma {:induction false} WhereLists(ids: seq<int>, n: nat, id: int)
    requires n <= |ids|
    ensures forall a :: 0 <= a < |Where(ids, n, id)| ==> Where(ids, n, id)[a] < n && ids[Where(ids, n, id)[a]] == id
    ensures forall k :: 0 <= k < n && ids[k] == id ==> k in Where(ids, n, id)
    ensures Increasing(Where(ids, n, id))
  {
    if n > 0 { WhereLists(ids, n - 1, id); }
  }

  // How many different core ids there are among the first n.
  function Opened(ids: seq<int>, n: nat): nat
    requires n <= |ids|
  {
    if n == 0 then 0 else Opened(ids, n - 1) + (if Seen(ids, n - 1, ids[n - 1]) then 0 else 1)
  }

  lemma {:induction false} OpenedBelow(ids: seq<int>, n: nat)
    requires n <= |ids|
    ensures Opened(ids, n) <= n
  {
    if n > 0 { OpenedBelow(ids, n - 1); }
  }

  // A later core id has a later slot.
  lemma {:induction false} OpenedGrows(ids: seq<int>, k: nat, n: nat)
    requires k < n <= |ids| && !Seen(ids, k, ids[k])
    ensures Opened(ids, k) < Opened(ids, n)
  {
    if k + 1 < n { OpenedGrows(ids, k, n - 1); }
  }

  // A slot is opened for every new core id.
  lemma {:induction false} SlotsOpened(ids: seq<int>, n: nat)
    requires n <= |ids| && SafeTo(ids, n)
    ensures ScanTo(ids, n).nCpu == Opened(ids, n)
  {
    if n > 0 { SlotsOpened(ids, n - 1); }
  }

  // Where a repeated core id was first.
  function FirstSeen(ids: seq<int>, n: nat, id: int): (k: nat)
    requires n <= |ids| && Seen(ids, n, id)
    ensures k < n && ids[k] == id && !Seen(ids, k, id)
  {
    if Seen(ids, n - 1, id) then FirstSeen(ids, n - 1, id) else n - 1
  }

  // The first processor with the core id of processor i.
  function FirstOf(ids: seq<int>, i: nat): (k: nat)
    requires i < |ids|
    ensures k <= i && ids[k] == ids[i] && !Seen(ids, k, ids[k])
  {
    if Seen(ids, i, ids[i]) then FirstSeen(ids, i, ids[i]) else i
  }

  lemma OneFirst(ids: seq<int>, k: nat, m: nat)
    requires k < |ids| && m < |ids| && ids[k] == ids[m] && !Seen(ids, k, ids[k]) && !Seen(ids, m, ids[m])
    ensures k == m
  {
    if k < m { SeenFrom(ids, m, k); } else if m < k { SeenFrom(ids, k, m); }
  }

  // The slot that was opened for the core of processor i.
  function SlotOf(ids: seq<int>, i: nat): nat
    requires i < |ids|
  {
    Opened(ids, FirstOf(ids, i))
  }

  // A repeated core id is the number of the slot that was opened for it.
  predicate RepeatsNumbered(ids: seq<int>) {
    forall i :: 0 <= i < |ids| && Seen(ids, i, ids[i]) ==> ids[i] == SlotOf(ids, i)
  }

  // Every core's slot lists exactly the processors of that core, in increasing order.
  predicate GroupedByCore(ids: seq<int>)
    requires IndexSafe(ids)
  {
    forall i :: 0 <= i < |ids| ==>
      SlotOf(ids, i) < |Groups(ids)| && Groups(ids)[SlotOf(ids, i)] == Where(ids, |ids|, ids[i])
  }

  // Then no repeated core id leads outside the array.
  lemma NumberingIsSafe(ids: seq<int>)
    requires RepeatsNumbered(ids)
    ensures IndexSafe(ids)
  {
    forall i | 0 <= i < |ids| && Seen(ids, i, ids[i]) ensures 0 <= ids[i] < |ids| {
      OpenedBelow(ids, FirstOf(ids, i));
    }
  }

  lemma {:induction false} NoneThere(ids: seq<int>, n: nat, id: int)
    requires n <= |ids| && !Seen(ids, n, id)
    ensures Where(ids, n, id) == []
  {
    if n > 0 { NoneThere(ids, n - 1, id); }
  }

  // The slots of the core ids seen so far are right.
  ghost predicate GroupedTo(ids: seq<int>, n: nat)
    requires n <= |ids| && SafeTo(ids, n)
  {
    forall k :: 0 <= k < n && !Seen(ids, k, ids[k]) ==>
      Opened(ids, k) < |ids| && ScanTo(ids, n).slots[Opened(ids, k)] == Where(ids, n, ids[k])
  }

  // One more processor goes to the slot of its core, and the other slots stay as they are.
  lemma GroupNext(ids: seq<int>, n: nat)
    requires n < |ids| && SafeTo(ids, n + 1) && GroupedTo(ids, n)
    requires Seen(ids, n, ids[n]) ==> ids[n] == SlotOf(ids, n)
    ensures GroupedTo(ids, n + 1)
  {
    assert SafeTo(ids, n);
    hide Opened, Seen, ScanTo, SafeTo, FirstSeen;
    ScanNext(ids, n);
    SlotsOpened(ids, n);
    forall k | 0 <= k < n + 1 && !Seen(ids, k, ids[k])
      ensures Opened(ids, k) < |ids| && ScanTo(ids, n + 1).slots[Opened(ids, k)] == Where(ids, n + 1, ids[k])
    {
      OpenedBelow(ids, k);
      var first := FirstOf(ids, n);
      if ids[k] == ids[n] {
        OneFirst(ids, k, first);
        if k == n { NoneThere(ids, n, ids[n]); }
      } else {
        if k < first { OpenedGrows(ids, k, first); } else { OpenedGrows(ids, first, k); }
      }
    }
  }

  lemma {:induction false} ScanGroups(ids: seq<int>, n: nat)
    requires n <= |ids| && IndexSafe(ids) && RepeatsNumbered(ids)
    ensures GroupedTo(ids, n)
  {
    hide ScanTo, Opened, Seen, FirstOf;
    if n > 0 {
      ScanGroups(ids, n - 1);
      GroupNext(ids, n - 1);
    }
  }

  // Where the scan puts processor i: a new core id in the next slot, a repeated one at its number.
  predicate PutAt(ids: seq<int>, i: nat, g: nat)
    requires i < |ids|
  {
    g == if Seen(ids, i, ids[i]) then ids[i] else Opened(ids, i)
  }

  lemma {:induction false} OnlyPutThere(ids: seq<int>, n: nat, g: nat, i: nat)
    requires n <= |ids| && SafeTo(ids, n) && g < |ids| && i in ScanTo(ids, n).slots[g]
    ensures i < n && PutAt(ids, i, g)
  {
    hide Opened, Seen;
    SlotsOpened(ids, n - 1);
    if i in ScanTo(ids, n - 1).slots[g] { OnlyPutThere(ids, n - 1, g, i); }
  }

  // The processors from `from` to n - 1 that the scan puts at g, in order.
  function PutList(ids: seq<int>, from: nat, n: nat, g: nat): seq<nat>
    requires n <= |ids|
    decreases n
  {
    if n <= from then []
    else if PutAt(ids, n - 1, g) then PutList(ids, from, n - 1, g) + [n - 1]
    else PutList(ids, from, n - 1, g)
  }

  /** What every slot holds, right or wrong: from the processor that opened it on, the processors
      put there, in order; what was there before it was opened is lost. */
  lemma {:induction false} SlotHolds(ids: seq<int>, n: nat, g: nat)
    requires n <= |ids| && SafeTo(ids, n) && g < |ids|
    ensures g >= Opened(ids, n) ==> ScanTo(ids, n).slots[g] == PutList(ids, 0, n, g)
    ensures forall k :: 0 <= k < n && !Seen(ids, k, ids[k]) && Opened(ids, k) == g ==>
              ScanTo(ids, n).slots[g] == PutList(ids, k, n, g)
  {
    if n > 0 {
      SlotHolds(ids, n - 1, g);
      SlotsOpened(ids, n - 1);
      forall k | 0 <= k < n && !Seen(ids, k, ids[k]) && Opened(ids, k) == g
        ensures ScanTo(ids, n).slots[g] == PutList(ids, k, n, g)
      {
        if k < n - 1 { OpenedGrows(ids, k, n - 1); }
      }
    }
  }

  /** The code stays inside its array and every core's slot lists exactly that core's processors,
      in increasing order, if and only if every repeated core id is the number of the slot opened
      for it. Core ids that are not repeated may be any numbers. */
  lemma GroupsByCoreIff(ids: seq<int>)
    ensures IndexSafe(ids) && GroupedByCore(ids) <==> RepeatsNumbered(ids)
  {
    hide ScanTo, Where, Seen, Opened;
    if RepeatsNumbered(ids) {
      NumberingIsSafe(ids);
      ScanGroups(ids, |ids|);
      SlotsOpened(ids, |ids|);
      forall i | 0 <= i < |ids|
        ensures SlotOf(ids, i) < |Groups(ids)| && Groups(ids)[SlotOf(ids, i)] == Where(ids, |ids|, ids[i])
      {
        OpenedGrows(ids, FirstOf(ids, i), |ids|);
      }
    } else if IndexSafe(ids) && GroupedByCore(ids) {
      var i :| 0 <= i < |ids| && Seen(ids, i, ids[i]) && ids[i] != SlotOf(ids, i);
      WhereLists(ids, |ids|, ids[i]);
      assert i in Groups(ids)[SlotOf(ids, i)];
      OnlyPutThere(ids, |ids|, SlotOf(ids, i), i);
      assert false;
    }
  }

  // ------------------------------------------------------------------ core ids numbered 0, 1, 2, ...

  // Core ids are numbered 0, 1, 2, ... in the order in which they first appear.
  predicate NumberedByAppearance(ids: seq<int>) {
    forall i :: 0 <= i < |ids| && !Seen(ids, i, ids[i]) ==> ids[i] == Opened(ids, i)
  }

  // Group g is the list of the processors with core id g, and there are no other core ids.
  predicate GroupsById(ids: seq<int>)
    requires IndexSafe(ids)
  {
    && (forall g :: 0 <= g < |Groups(ids)| ==> Groups(ids)[g] == Where(ids, |ids|, g))
    && (forall i :: 0 <= i < |ids| ==> 0 <= ids[i] < |Groups(ids)|)
  }

  // Every slot in use was opened by some processor.
  lemma {:induction false} Opener(ids: seq<int>, n: nat, g: nat) returns (k: nat)
    requires n <= |ids| && g < Opened(ids, n)
    ensures k < n && !Seen(ids, k, ids[k]) && Opened(ids, k) == g
  {
    if g < Opened(ids, n - 1) { k := Opener(ids, n - 1, g); } else { k := n - 1; }
  }

  // If group numbers are core ids, repeated core ids are numbers of their own slots.
  lemma IdsAreSlots(ids: seq<int>)
    requires IndexSafe(ids) && GroupsById(ids)
    ensures RepeatsNumbered(ids)
  {
    hide ScanTo, Where, Seen, Opened;
    forall i | 0 <= i < |ids| && Seen(ids, i, ids[i]) ensures ids[i] == SlotOf(ids, i) {
      var k := FirstOf(ids, i);
      WhereLists(ids, |ids|, ids[k]);
      assert k in Groups(ids)[ids[k]];
      OnlyPutThere(ids, |ids|, ids[k], k);
    }
  }

  lemma NumberedIsGrouped(ids: seq<int>)
    requires NumberedByAppearance(ids)
    ensures IndexSafe(ids) && GroupsById(ids)
  {
    hide ScanTo, Where, Seen, Opened;
    assert RepeatsNumbered(ids);
    GroupsByCoreIff(ids);
    SlotsOpened(ids, |ids|);
    forall i | 0 <= i < |ids| ensures 0 <= ids[i] < |Groups(ids)| {
      assert ids[i] == SlotOf(ids, i);
    }
    forall g | 0 <= g < |Groups(ids)| ensures Groups(ids)[g] == Where(ids, |ids|, g) {
      var k := Opener(ids, |ids|, g);
      assert FirstOf(ids, k) == k;
    }
  }

  /** The group's number is moreover the core id, for all cores, exactly when core ids are
      numbered in order of first appearance. */
  lemma GroupsByIdIff(ids: seq<int>)
    ensures IndexSafe(ids) && GroupsById(ids) <==> NumberedByAppearance(ids)
  {
    hide ScanTo, Where, Seen, Opened;
    if NumberedByAppearance(ids) {
      NumberedIsGrouped(ids);
    } else if IndexSafe(ids) && GroupsById(ids) {
      var k :| 0 <= k < |ids| && !Seen(ids, k, ids[k]) && ids[k] != Opened(ids, k);
      IdsAreSlots(ids);
      GroupsByCoreIff(ids);
      SlotsOpened(ids, |ids|);
      OpenedGrows(ids, k, |ids|);
      WhereLists(ids, |ids|, ids[k]);
      WhereLists(ids, |ids|, Opened(ids, k));
    }
  }

  // ------------------------------------------------------------------ the groups as cores

  // Cores as lists of processors.
  predicate Usable(cpus: seq<seq<nat>>) {
    |cpus| > 0 && forall c :: 0 <= c < |cpus| ==> |cpus[c]| > 0
  }

  // No processor is listed twice.
  ghost predicate Disjoint(cpus: seq<seq<nat>>) {
    forall c, p, d, q |
      0 <= c < |cpus| && 0 <= p < |cpus[c]| && 0 <= d < |cpus| && 0 <= q < |cpus[d]| && cpus[c][p] == cpus[d][q]
      :: c == d && p == q
  }

  // Group g lists the processors of one core, and there are some.
  lemma GroupLists(ids: seq<int>, g: nat) returns (k: nat)
    requires RepeatsNumbered(ids) && IndexSafe(ids) && g < |Groups(ids)|
    ensures k < |ids| && SlotOf(ids, k) == g && Groups(ids)[g] == Where(ids, |ids|, ids[k]) && k in Groups(ids)[g]
  {
    hide ScanTo, Where, Seen, Opened, RepeatsNumbered;
    SlotsOpened(ids, |ids|);
    k := Opener(ids, |ids|, g);
    assert FirstOf(ids, k) == k;
    GroupsByCoreIff(ids);
    WhereLists(ids, |ids|, ids[k]);
  }

  lemma SameCore(ids: seq<int>, k: nat, m: nat)
    requires k < |ids| && m < |ids| && ids[k] == ids[m]
    ensures SlotOf(ids, k) == SlotOf(ids, m)
  {
    OneFirst(ids, FirstOf(ids, k), FirstOf(ids, m));
  }

  /** If every repeated core id is the number of its slot, the groups are a partition of the
      processors into non-empty lists, so the balance holds for what `get_mycpu_info` found. */
  lemma GroupsArePartition(ids: seq<int>)
    requires RepeatsNumbered(ids) && |ids| > 0
    ensures IndexSafe(ids)
    ensures Usable(Groups(ids)) && Disjoint(Groups(ids))
    ensures forall i :: 0 <= i < |ids| ==> SlotOf(ids, i) < |Groups(ids)| && i in Groups(ids)[SlotOf(ids, i)]
  {
    GroupsByCoreIff(ids);
    hide RepeatsNumbered, SafeTo, Groups, Where, SlotOf;
    var gs := Groups(ids);
    forall i | 0 <= i < |ids| ensures SlotOf(ids, i) < |gs| && i in gs[SlotOf(ids, i)] {
      WhereLists(ids, |ids|, ids[i]);
    }
    assert SlotOf(ids, 0) < |gs|;
    forall g | 0 <= g < |gs| ensures |gs[g]| > 0 { var k := GroupLists(ids, g); }
    forall c, p, d, q |
      0 <= c < |gs| && 0 <= p < |gs[c]| && 0 <= d < |gs| && 0 <= q < |gs[d]| && gs[c][p] == gs[d][q]
      ensures c == d && p == q
    {
      var k := GroupLists(ids, c);
      var m := GroupLists(ids, d);
      WhereLists(ids, |ids|, ids[k]);
      WhereLists(ids, |ids|, ids[m]);
      SameCore(ids, k, m);
    }
  }

  // ------------------------------------------------------------------ grouping, in place

  /** `struct cpu`. The block behind the `processors` pointer is `mem`: its length is what was
      allocated, and every write has to be inside it. */
  datatype Cpu = Cpu(mem: seq<int>, nProc: nat, capacity: nat)

  const NO_CPU := Cpu([], 0, 0)

  // What `realloc` leaves in the new part of a block.
  const UNSET: int := -1

  function Realloc(mem: seq<int>, n: nat): (r: seq<int>)
    ensures |r| == n && forall k :: 0 <= k < n && k < |mem| ==> r[k] == mem[k]
  {
    seq(n, k requires 0 <= k => if k < |mem| then mem[k] else UNSET)
  }

  // Either nothing is allocated yet, or one more than `capacity`.
  predicate ValidCpu(c: Cpu) {
    && c.nProc <= |c.mem|
    && (c.mem == [] ==> c.nProc == 0 && c.capacity == 0)
    && (c.mem != [] ==> |c.mem| == c.capacity + 1 && c.nProc > 0)
  }

  function Listed(c: Cpu): seq<int>
    requires ValidCpu(c)
  {
    c.mem[..c.nProc]
  }

  // add_to_processors_array at position n_proc, which the caller then increments.
  method AddProcessor(c: Cpu, elem: int) returns (r: Cpu)
    requires ValidCpu(c)
    ensures ValidCpu(r) && Listed(r) == Listed(c) + [elem]
    ensures r.capacity == if c.nProc >= c.capacity then 2 * c.nProc else c.capacity
  {
    var position := c.nProc;
    r := c.(nProc := c.nProc + 1);
    if position >= r.capacity {
      r := r.(mem := Realloc(r.mem, 2 * position + 1), capacity := 2 * position);
    }
    r := r.(mem := r.mem[position := elem]);
  }

  // add_to_cpus_array: the slot is overwritten, after growing the array if it is full.
  method AddCpu(arr: array<Cpu>, size: nat, elem: Cpu, position: nat) returns (r: array<Cpu>, newSize: nat)
    requires size <= arr.Length && position <= arr.Length
    modifies arr
    ensures position < size ==> r == arr && newSize == size && r[..] == old(arr[..])[position := elem]
    ensures position >= size ==> fresh(r) && r.Length == 2 * position + 1 && newSize == 2 * position
    ensures r[position] == elem && forall k :: 0 <= k < position ==> r[k] == old(arr[k])
  {
    r, newSize := arr, size;
    if position >= size {
      r := new Cpu[2 * position + 1](_ => NO_CPU);
      forall k | 0 <= k < position { r[k] := arr[k]; }
      newSize := 2 * position;
    }
    r[position] := elem;
  }

  method FindInArray(arr: seq<int>, size: nat, elem: int) returns (r: int)
    requires size <= |arr|
    ensures r == -1 <==> !Seen(arr, size, elem)
    ensures r != -1 ==> 0 <= r < size && arr[r] == elem && !Seen(arr, r, elem)
  {
    var i := 0;
    while i < size
      invariant 0 <= i <= size
      invariant !Seen(arr, i, elem)
    {
      if arr[i] == elem {
        SeenFrom(arr, size, i);
        return i;
      }
      i := i + 1;
    }
    return -1;
  }

  // How the grouping ends: with the cpus array, or at a write outside of it.
  datatype Info = Info(cpus: seq<Cpu>) | OutOfBounds

  method GetMyCpuInfo(coreIds: seq<int>) returns (info: Info)
    ensures info.OutOfBounds? <==> !IndexSafe(coreIds)
    ensures info.Info? ==>
              && |info.cpus| == |Groups(coreIds)|
              && forall g :: 0 <= g < |info.cpus| ==>
                   ValidCpu(info.cpus[g]) && Listed(info.cpus[g]) == Groups(coreIds)[g]
  {
    var size := |coreIds|;
    var res := new Cpu[size](_ => NO_CPU);
    var nCpu := 0;
    var i := 0;
    while i < |coreIds|
      invariant 0 <= i <= |coreIds| && SafeTo(coreIds, i)
      invariant res.Length == size == |coreIds| && fresh(res)
      invariant nCpu == ScanTo(coreIds, i).nCpu
      invariant forall g :: 0 <= g < size ==> ValidCpu(res[g]) && Listed(res[g]) == ScanTo(coreIds, i).slots[g]
    {
      ghost var s := ScanTo(coreIds, i);
      hide ScanTo, SafeTo, Groups;
      var seen := FindInArray(coreIds, i, coreIds[i]);
      ScanNext(coreIds, i);
      if seen == -1 {
        res, size := AddCpu(res, size, NO_CPU, nCpu);
        var c := AddProcessor(res[nCpu], i);
        res[nCpu] := c;
        nCpu := nCpu + 1;
      } else if 0 <= coreIds[i] < res.Length {
        var c := AddProcessor(res[coreIds[i]], i);
        res[coreIds[i]] := c;
      } else {
        return OutOfBounds;
      }
      i := i + 1;
    }
    info := Info(res[..nCpu]);
  }

  // ------------------------------------------------------------------ placing the threads

  // The processor thread i is bound to.
  function Processor(cpus: seq<seq<nat>>, i: nat): nat
    requires Usable(cpus)
  {
    var core := cpus[i % |cpus|];
    core[(i / |cpus|) % |core|]
  }

  method SetAttrs(cpus: seq<seq<nat>>, attrs: array<nat>)
    requires Usable(cpus)
    modifies attrs
    ensures forall i :: 0 <= i < attrs.Length ==> attrs[i] == Processor(cpus, i)
  {
    var i := 0;
    while i < attrs.Length
      invariant 0 <= i <= attrs.Length
      invariant forall k :: 0 <= k < i ==> attrs[k] == Processor(cpus, k)
    {
      var numCpu := i % |cpus|;
      var numProc := (i / |cpus|) % |cpus[numCpu]|;
      attrs[i] := cpus[numCpu][numProc];
      i := i + 1;
    }
  }

  // How many of the numbers below size are c modulo n.
  function Load(size: nat, n: nat, c: nat): nat
    requires n > 0
  {
    if size == 0 then 0 else Load(size - 1, n, c) + (if (size - 1) % n == c then 1 else 0)
  }

  // Threads below size placed on processor p of core c, when that core has m processors.
  function SlotLoad(size: nat, n: nat, c: nat, m: nat, p: nat): nat
    requires n > 0 && m > 0
  {
    if size == 0 then 0
    else
      var here := (size - 1) % n == c && ((size - 1) / n) % m == p;
      SlotLoad(size - 1, n, c, m, p) + (if here then 1 else 0)
  }

  // A multiple of n other than 0 is at least n away from 0.
  lemma MultipleIsFar(d: int, n: int)
    requires n >= 0
    ensures d == 0 || d * n >= n || d * n <= -n
  {
    if d > 0 {
      assert (d - 1) * n >= 0;
    } else if d < 0 {
      assert (-d - 1) * n >= 0;
    }
  }

  lemma DivUnique(s: nat, n: nat, q: nat, r: nat)
    requires r < n && s == q * n + r
    ensures s / n == q && s % n == r
  {
    assert s == (s / n) * n + s % n;
    assert (s / n - q) * n == r - s % n;
    MultipleIsFar(s / n - q, n);
  }

  lemma DivStep(s: nat, n: nat)
    requires n > 0
    ensures if s % n + 1 < n then (s + 1) / n == s / n && (s + 1) % n == s % n + 1
            else (s + 1) / n == s / n + 1 && (s + 1) % n == 0
  {
    if s % n + 1 < n {
      DivUnique(s + 1, n, s / n, s % n + 1);
    } else {
      assert (s / n + 1) * n == (s / n) * n + n;
      DivUnique(s + 1, n, s / n + 1, 0);
    }
  }

  // Dealing out in turn: everyone has the quotient, the first few one more.
  lemma {:induction false} LoadValue(size: nat, n: nat, c: nat)
    requires c < n
    ensures Load(size, n, c) == size / n + (if c < size % n then 1 else 0)
  {
    if size > 0 {
      LoadValue(size - 1, n, c);
      DivStep(size - 1, n);
    }
  }

  // The threads of one core are dealt out over its processors in the same way.
  lemma {:induction false} SlotLoadIsLoad(size: nat, n: nat, c: nat, m: nat, p: nat)
    requires c < n && m > 0
    ensures SlotLoad(size, n, c, m, p) == Load(Load(size, n, c), m, p)
  {
    if size > 0 {
      SlotLoadIsLoad(size - 1, n, c, m, p);
      LoadValue(size - 1, n, c);
    }
  }

  // The threads below size that the assignment puts on core c.
  function CountOnCore(cpus: seq<seq<nat>>, size: nat, c: nat): nat
    requires Usable(cpus) && c < |cpus|
  {
    if size == 0 then 0
    else CountOnCore(cpus, size - 1, c) + (if Processor(cpus, size - 1) in cpus[c] then 1 else 0)
  }

  lemma {:induction false} CountOnCoreIsLoad(cpus: seq<seq<nat>>, size: nat, c: nat)
    requires Usable(cpus) && Disjoint(cpus) && c < |cpus|
    ensures CountOnCore(cpus, size, c) == Load(size, |cpus|, c)
  {
    if size > 0 { CountOnCoreIsLoad(cpus, size - 1, c); }
  }

  // The threads put on one processor.
  function CountOn(cpus: seq<seq<nat>>, size: nat, proc: nat): nat
    requires Usable(cpus)
  {
    if size == 0 then 0
    else CountOn(cpus, size - 1, proc) + (if Processor(cpus, size - 1) == proc then 1 else 0)
  }

  lemma {:induction false} CountOnIsSlotLoad(cpus: seq<seq<nat>>, size: nat, c: nat, p: nat)
    requires Usable(cpus) && Disjoint(cpus) && c < |cpus| && p < |cpus[c]|
    ensures CountOn(cpus, size, cpus[c][p]) == SlotLoad(size, |cpus|, c, |cpus[c]|, p)
  {
    if size > 0 { CountOnIsSlotLoad(cpus, size - 1, c, p); }
  }

  /** For any number of threads: the numbers of threads placed on two cores differ by at most
      one. */
  lemma CoresBalanced(cpus: seq<seq<nat>>, size: nat, c: nat, d: nat)
    requires Usable(cpus) && Disjoint(cpus) && c < |cpus| && d < |cpus|
    ensures -1 <= CountOnCore(cpus, size, c) - CountOnCore(cpus, size, d) <= 1
  {
    CountOnCoreIsLoad(cpus, size, c);
    CountOnCoreIsLoad(cpus, size, d);
    LoadValue(size, |cpus|, c);
    LoadValue(size, |cpus|, d);
  }

  // Two processors of one core differ by at most one thread.
  lemma ProcessorsBalanced(cpus: seq<seq<nat>>, size: nat, c: nat, p: nat, q: nat)
    requires Usable(cpus) && Disjoint(cpus) && c < |cpus| && p < |cpus[c]| && q < |cpus[c]|
    ensures -1 <= CountOn(cpus, size, cpus[c][p]) - CountOn(cpus, size, cpus[c][q]) <= 1
  {
    var n, m := |cpus|, |cpus[c]|;
    CountOnIsSlotLoad(cpus, size, c, p);
    CountOnIsSlotLoad(cpus, size, c, q);
    SlotLoadIsLoad(size, n, c, m, p);
    SlotLoadIsLoad(size, n, c, m, q);
    LoadValue(Load(size, n, c), m, p);
    LoadValue(Load(size, n, c), m, q);
  }

  // Load k or k + 1, dealt over m: every share is k/m or k/m + 1.
  lemma NestedLoad(k: nat, j: nat, m: nat, p: nat)
    requires p < m && (j == k || j == k + 1)
    ensures k / m <= Load(j, m, p) <= k / m + 1
  {
    LoadValue(j, m, p);
    DivStep(k, m);
  }

  // When all cores have the same number of processors, any two processors differ by at most one.
  lemma AllBalanced(cpus: seq<seq<nat>>, size: nat, c: nat, p: nat, d: nat, q: nat)
    requires Usable(cpus) && Disjoint(cpus) && c < |cpus| && p < |cpus[c]| && d < |cpus| && q < |cpus[d]|
    requires |cpus[c]| == |cpus[d]|
    ensures -1 <= CountOn(cpus, size, cpus[c][p]) - CountOn(cpus, size, cpus[d][q]) <= 1
  {
    var n, m := |cpus|, |cpus[c]|;
    CountOnIsSlotLoad(cpus, size, c, p);
    CountOnIsSlotLoad(cpus, size, d, q);
    SlotLoadIsLoad(size, n, c, m, p);
    SlotLoadIsLoad(size, n, d, m, q);
    LoadValue(size, n, c);
    LoadValue(size, n, d);
    NestedLoad(size / n, Load(size, n, c), m, p);
    NestedLoad(size / n, Load(size, n, d), m, q);
  }
}
