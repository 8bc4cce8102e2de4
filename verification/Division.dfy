/** How 4_sem/Network splits the interval: `divide_work` (server.c) gives each machine a run
    of threads, `fill_thread_info` (pthread.c) gives each thread of a machine its cell. */
module Division {

  datatype Error = SUCCESS | E_INVAL | E_SOCK | E_CONN | E_MEM | E_THREAD

  // `struct worker_info` and `struct thread_info` (the integrand is a parameter elsewhere).
  datatype WorkerInfo = WorkerInfo(begin: real, end: real, nThreads: nat)
  datatype ThreadInfo = ThreadInfo(begin: real, end: real, res: real)

  // ------------------------------------------------------------------ the uniform grid

  // One subinterval per thread.
  datatype Cell = Cell(begin: real, end: real)

  // The k-th of the points h apart from begin on.
  function Mark(begin: real, h: real, k: nat): real {
    if k == 0 then begin else Mark(begin, h, k - 1) + h
  }

  // n cells of width h from begin on.
  function Cells(begin: real, h: real, n: nat): (g: seq<Cell>)
    ensures |g| == n
  {
    seq(n, k requires 0 <= k < n => Cell(Mark(begin, h, k), Mark(begin, h, k + 1)))
  }

  function Width(begin: real, end: real, n: nat): real
    requires n > 0
  {
    (end - begin) / (n as real)
  }

  // [begin, end] cut into n equal cells.
  function Grid(begin: real, end: real, n: nat): (g: seq<Cell>)
    requires n > 0
    ensures |g| == n
  {
    Cells(begin, Width(begin, end, n), n)
  }

  lemma {:induction false} MarkIsProduct(begin: real, h: real, k: nat)
    ensures Mark(begin, h, k) == begin + h * (k as real)
  {
    if k > 0 {
      MarkIsProduct(begin, h, k - 1);
      assert k as real == (k - 1) as real + 1.0;
    }
  }

  lemma {:induction false} MarkShift(begin: real, h: real, k: nat, m: nat)
    ensures Mark(Mark(begin, h, k), h, m) == Mark(begin, h, k + m)
  {
    if m > 0 { MarkShift(begin, h, k, m - 1); }
  }

  lemma Advance(begin: real, h: real, k: nat, m: nat)
    ensures Mark(begin, h, k + m) == Mark(begin, h, k) + h * (m as real)
  {
    MarkShift(begin, h, k, m);
    MarkIsProduct(Mark(begin, h, k), h, m);
  }

  // The last point is the end.
  lemma LastMark(begin: real, end: real, n: nat)
    requires n > 0
    ensures Mark(begin, Width(begin, end, n), n) == end
  {
    MarkIsProduct(begin, Width(begin, end, n), n);
  }

  lemma CancelFactor(h: real, m: real)
    requires m != 0.0
    ensures (h * m) / m == h
  {
  }

  // The interval of m cells of width h, cut into m again, has cells of width h.
  lemma WidthOfRun(begin: real, h: real, k: nat, m: nat)
    requires m > 0
    ensures Width(Mark(begin, h, k), Mark(begin, h, k + m), m) == h
  {
    Advance(begin, h, k, m);
    CancelFactor(h, m as real);
  }

  /** The grid starts at begin and ends at end, is contiguous, and its cells are all as wide
      as the n-th part of the interval. */
  lemma GridTiles(begin: real, end: real, n: nat)
    requires n > 0
    ensures var g := Grid(begin, end, n);
            && g[0].begin == begin && g[n - 1].end == end
            && (forall k :: 0 <= k < n - 1 ==> g[k].end == g[k + 1].begin)
            && (forall k :: 0 <= k < n ==> g[k].end - g[k].begin == (end - begin) / (n as real))
  {
    LastMark(begin, end, n);
  }

  // ------------------------------------------------------------------ divide_work

  // The width of n threads.
  function Span(h: real, n: nat): real { h * (n as real) }

  function Workers(nMachines: nat, nThreads: nat): nat {
    if nMachines < nThreads then nMachines else nThreads
  }

  // The first thread of machine i, when each machine before it has q.
  function First(i: nat, q: nat): nat {
    if i == 0 then 0 else First(i - 1, q) + q
  }

  lemma {:induction false} FirstIsProduct(i: nat, q: nat)
    ensures First(i, q) == i * q
  {
    if i > 0 {
      FirstIsProduct(i - 1, q);
      assert (i - 1) * q + q == i * q;
    }
  }

  lemma NoMark(begin: real, h: real, q: nat)
    ensures Mark(begin, h, First(0, q)) == begin
  {
  }

  lemma NextMark(begin: real, h: real, i: nat, q: nat)
    ensures First(i + 1, q) == First(i, q) + q
    ensures Mark(begin, h, First(i, q) + q) == Mark(begin, h, First(i, q)) + Span(h, q)
  {
    Advance(begin, h, First(i, q), q);
  }

  lemma {:induction false} FirstMonotone(i: nat, j: nat, q: nat)
    requires i <= j
    ensures First(i, q) <= First(j, q)
  {
    if i < j { FirstMonotone(i, j - 1, q); }
  }

  // Every machine gets a thread, and the last one the rest.
  lemma Shares(n: nat, w: nat)
    requires 0 < w <= n
    ensures n / w >= 1 && First(w - 1, n / w) + n / w <= n
  {
    var q := n / w;
    FirstIsProduct(w, q);
    assert n == w * q + n % w;
    assert q >= 1;
  }

  // n threads on w machines: q threads each, h wide, and the rest for the last machine.
  datatype Plan = Plan(begin: real, end: real, h: real, n: nat, w: nat, q: nat)
  {
    ghost predicate Fits() {
      0 < w && 0 < q && First(w - 1, q) + q <= n && Mark(begin, h, n) == end
    }

    function Share(i: nat): nat
      requires 0 < w && First(w - 1, q) <= n
    {
      if i < w - 1 then q else n - First(w - 1, q)
    }

    function Task(i: nat): WorkerInfo
      requires 0 < w && First(w - 1, q) <= n
    {
      WorkerInfo(Mark(begin, h, First(i, q)), if i < w - 1 then Mark(begin, h, First(i, q) + q) else end, Share(i))
    }
  }

  ghost function MakePlan(nMachines: nat, nThreads: nat, begin: real, end: real): (p: Plan)
    requires nMachines > 0 && nThreads > 0
    ensures p.Fits() && p.w == Workers(nMachines, nThreads) && p.n == nThreads
  {
    var w := Workers(nMachines, nThreads);
    Shares(nThreads, w);
    LastMark(begin, end, nThreads);
    Plan(begin, end, Width(begin, end, nThreads), nThreads, w, nThreads / w)
  }

  ghost function Tasks(p: Plan): (r: seq<WorkerInfo>)
    requires p.Fits()
    ensures |r| == p.w
  {
    seq(p.w, i requires 0 <= i < p.w => p.Task(i))
  }

  // The task of a machine before the last one.
  function Run(begin: real, h: real, i: nat, q: nat): WorkerInfo {
    WorkerInfo(Mark(begin, h, First(i, q)), Mark(begin, h, First(i, q) + q), q)
  }

  // The code multiplies by the share of machine 0, which is still 0 if it is the last one.
  lemma LastShare(n: nat, w: nat, m: nat)
    requires 0 < w <= n && m == if w == 1 then 0 else n / w
    ensures (w - 1) * m == First(w - 1, n / w) <= n
  {
    FirstIsProduct(w - 1, n / w);
    Shares(n, w);
  }

  lemma RunsAreTasks(nMachines: nat, nThreads: nat, begin: real, end: real, tasks: seq<WorkerInfo>)
    requires nMachines > 0 && nThreads > 0
    requires var w, h := Workers(nMachines, nThreads), Width(begin, end, nThreads);
             var q := nThreads / w;
             && |tasks| == w && First(w - 1, q) <= nThreads
             && (forall k :: 0 <= k < w - 1 ==> tasks[k] == Run(begin, h, k, q))
             && tasks[w - 1] == WorkerInfo(Mark(begin, h, First(w - 1, q)), end, nThreads - First(w - 1, q))
    ensures tasks == Tasks(MakePlan(nMachines, nThreads, begin, end))
  {
    hide Mark, First;
  }

  /** As many machines work as there are, but no more than there are threads; all of them but the
      last have the same number of threads, and the last has the rest. */
  lemma EvenShares(nMachines: nat, nThreads: nat, begin: real, end: real)
    requires nMachines > 0 && nThreads > 0
    ensures var tasks := Tasks(MakePlan(nMachines, nThreads, begin, end));
            && |tasks| == (if nMachines < nThreads then nMachines else nThreads)
            && (forall i :: 0 <= i < |tasks| - 1 ==> tasks[i].nThreads == nThreads / |tasks|)
            && tasks[|tasks| - 1].nThreads == nThreads - (|tasks| - 1) * (nThreads / |tasks|)
  {
    hide Mark;
    var p := MakePlan(nMachines, nThreads, begin, end);
    FirstIsProduct(p.w - 1, p.q);
  }

  method DivideWork(nMachines: nat, nThreads: nat, begin0: real, end: real)
    returns (err: Error, tasks: seq<WorkerInfo>)
    ensures err == if nMachines == 0 || nThreads == 0 then E_INVAL else SUCCESS
    ensures err == E_INVAL ==> tasks == []
    ensures err == SUCCESS ==> tasks == Tasks(MakePlan(nMachines, nThreads, begin0, end))
    ensures err == SUCCESS ==>
              && |tasks| == (if nMachines < nThreads then nMachines else nThreads)
              && (forall i :: 0 <= i < |tasks| - 1 ==> tasks[i].nThreads == nThreads / |tasks|)
              && tasks[|tasks| - 1].nThreads == nThreads - (|tasks| - 1) * (nThreads / |tasks|)
  {
    if nMachines == 0 || nThreads == 0 {
      return E_INVAL, [];
    }
    var begin := begin0;
    var intervalPerThread := (end - begin) / (nThreads as real);
    var nWorkers := if nMachines < nThreads then nMachines else nThreads;
    ghost var h, q := intervalPerThread, nThreads / nWorkers;
    var task := new WorkerInfo[nWorkers](_ => WorkerInfo(0.0, 0.0, 0));
    hide Mark, First, Span;
    NoMark(begin0, h, q);
    var i := 0;
    while i < nWorkers - 1
      invariant 0 <= i <= nWorkers - 1
      invariant begin == Mark(begin0, h, First(i, q))
      invariant forall k :: 0 <= k < i ==> task[k] == Run(begin0, h, k, q)
      invariant task[0].nThreads == if i == 0 then 0 else q
    {
      task[i] := task[i].(nThreads := nThreads / nWorkers);
      task[i] := task[i].(begin := begin);
      NextMark(begin0, intervalPerThread, i, task[i].nThreads);
      begin := begin + Span(intervalPerThread, task[i].nThreads);
      task[i] := task[i].(end := begin);
      i := i + 1;
    }
    var given := (nWorkers - 1) * task[0].nThreads;
    LastShare(nThreads, nWorkers, task[0].nThreads);
    task[nWorkers - 1] := WorkerInfo(begin, end, nThreads - given);
    RunsAreTasks(nMachines, nThreads, begin0, end, task[..]);
    EvenShares(nMachines, nThreads, begin0, end);
    return SUCCESS, task[..];
  }

  // ------------------------------------------------------------------ fill_thread_info

  /** The first n records are the grid's cells in order; the spare records, whose results
      are never added, all get the first cell. */
  method FillThreadInfo(info: array<ThreadInfo>, begin: real, end: real, nThreads: nat) returns (code: int)
    requires nThreads <= info.Length
    modifies info
    ensures nThreads == 0 ==> code == -1 && info[..] == old(info[..])
    ensures nThreads > 0 ==>
      && code == 0
      && (forall i :: 0 <= i < nThreads ==>
            Cell(info[i].begin, info[i].end) == Grid(begin, end, nThreads)[i])
      && (forall i :: nThreads <= i < info.Length ==>
            Cell(info[i].begin, info[i].end) == Grid(begin, end, nThreads)[0])
  {
    if nThreads == 0 {
      return -1;
    }
    var interval := (end - begin) / (nThreads as real);
    var thBegin := begin;
    var thEnd := begin + interval;
    var cBegin := thBegin;
    var cEnd := thEnd;
    ghost var g := Grid(begin, end, nThreads);
    var i := 0;
    while i < nThreads - 1
      invariant 0 <= i <= nThreads - 1
      invariant thBegin == Mark(begin, interval, i) && thEnd == Mark(begin, interval, i + 1)
      invariant forall k :: 0 <= k < i ==> Cell(info[k].begin, info[k].end) == g[k]
    {
      info[i] := info[i].(begin := thBegin, end := thEnd);
      thBegin := thEnd;
      thEnd := thEnd + interval;
      i := i + 1;
    }
    LastMark(begin, end, nThreads);
    info[nThreads - 1] := info[nThreads - 1].(begin := thBegin, end := end);
    i := nThreads;
    while i < info.Length
      invariant nThreads <= i <= info.Length
      invariant forall k :: 0 <= k < nThreads ==> Cell(info[k].begin, info[k].end) == g[k]
      invariant forall k :: nThreads <= k < i ==> Cell(info[k].begin, info[k].end) == g[0]
    {
      info[i] := info[i].(begin := cBegin, end := cEnd);
      i := i + 1;
    }
    return 0;
  }

  // ------------------------------------------------------------------ the two together

  // All threads of all machines, machine by machine.
  function AllCells(tasks: seq<WorkerInfo>): seq<Cell>
    requires forall t :: t in tasks ==> t.nThreads > 0
  {
    if tasks == [] then []
    else Grid(tasks[0].begin, tasks[0].end, tasks[0].nThreads) + AllCells(tasks[1..])
  }

  function TotalThreads(tasks: seq<WorkerInfo>): nat {
    if tasks == [] then 0 else tasks[0].nThreads + TotalThreads(tasks[1..])
  }

  // A run of m grid cells, cut again into m cells, gives the same cells.
  lemma SubGrid(begin: real, h: real, n: nat, a: nat, m: nat)
    requires 0 < m && a + m <= n
    ensures Grid(Mark(begin, h, a), Mark(begin, h, a + m), m) == Cells(begin, h, n)[a..a + m]
  {
    WidthOfRun(begin, h, a, m);
    forall k | 0 <= k < m
      ensures Cells(Mark(begin, h, a), h, m)[k] == Cells(begin, h, n)[a + k]
    {
      MarkShift(begin, h, a, k);
      MarkShift(begin, h, a, k + 1);
    }
  }

  // One machine's own grid is its run of cells of the whole grid.
  lemma TaskGrid(p: Plan, i: nat)
    requires p.Fits() && i < p.w
    ensures var a, t := First(i, p.q), p.Task(i);
            && t.nThreads > 0 && a + t.nThreads <= p.n
            && (i == p.w - 1 ==> a + t.nThreads == p.n)
            && Grid(t.begin, t.end, t.nThreads) == Cells(p.begin, p.h, p.n)[a..a + t.nThreads]
  {
    hide Mark, Width, Cells, Grid;
    var a, m := First(i, p.q), p.Share(i);
    FirstMonotone(i, p.w - 1, p.q);
    SubGrid(p.begin, p.h, p.n, a, m);
    assert p.Task(i).begin == Mark(p.begin, p.h, a);
    assert p.Task(i).end == Mark(p.begin, p.h, a + m);
  }

  // The tasks from machine i on cover the grid from that machine's first thread on.
  lemma {:induction false} TasksTile(p: Plan, i: nat)
    requires p.Fits() && i < p.w
    ensures var a, rest := First(i, p.q), Tasks(p)[i..];
            && a < p.n
            && (forall t :: t in rest ==> t.nThreads > 0)
            && AllCells(rest) == Cells(p.begin, p.h, p.n)[a..]
            && TotalThreads(rest) == p.n - a
    decreases p.w - i
  {
    hide Mark, Cells, Grid, Width, First, Span;
    var g, rest, a := Cells(p.begin, p.h, p.n), Tasks(p)[i..], First(i, p.q);
    TaskGrid(p, i);
    var m := rest[0].nThreads;
    assert rest[0] == p.Task(i) && rest[1..] == Tasks(p)[i + 1..];
    if i < p.w - 1 {
      NextMark(p.begin, p.h, i, p.q);
      TasksTile(p, i + 1);
      assert g[a..] == g[a..a + m] + g[a + m..];
    } else {
      assert rest[1..] == [];
      assert g[a..a + m] + [] == g[a..];
    }
  }

  /** Whatever the number of machines: machine by machine and thread by thread, the cells
      are exactly the uniform grid of [begin, end] with one cell per thread, in order; every
      worker gets a thread, and the threads add up to what was asked for. */
  lemma DivisionIsUniformGrid(nMachines: nat, nThreads: nat, begin: real, end: real)
    requires nMachines > 0 && nThreads > 0
    ensures var tasks := Tasks(MakePlan(nMachines, nThreads, begin, end));
            && |tasks| >= 1
            && (forall t :: t in tasks ==> t.nThreads >= 1)
            && TotalThreads(tasks) == nThreads
            && AllCells(tasks) == Grid(begin, end, nThreads)
  {
    var p := MakePlan(nMachines, nThreads, begin, end);
    TasksTile(p, 0);
    assert Tasks(p)[0..] == Tasks(p);
    assert Cells(p.begin, p.h, p.n)[0..] == Cells(p.begin, p.h, p.n);
  }
}
