/** The whole computation of 4_sem/Network: a worker's `Integrate` (calc.c) adds up its
    threads, the server's `get_result` (server.c) adds up its workers. */
module Cluster {
  import opened Calc
  import opened Division
  import opened Utils

  // The sum of `CalcIntegral` over a list of cells.
  function CellSum(cells: seq<Cell>, foo: real -> real): real {
    if cells == [] then 0.0 else Quadrature(cells[0].begin, cells[0].end, foo) + CellSum(cells[1..], foo)
  }

  lemma {:induction false} CellSumAppend(a: seq<Cell>, b: seq<Cell>, foo: real -> real)
    ensures CellSum(a + b, foo) == CellSum(a, foo) + CellSum(b, foo)
  {
    if a == [] {
      assert a + b == b;
    } else {
      assert (a + b)[1..] == a[1..] + b;
      CellSumAppend(a[1..], b, foo);
    }
  }

  lemma CellSumNext(cells: seq<Cell>, i: nat, foo: real -> real)
    requires i < |cells|
    ensures CellSum(cells[..i + 1], foo) == CellSum(cells[..i], foo) + Quadrature(cells[i].begin, cells[i].end, foo)
  {
    assert cells[..i + 1] == cells[..i] + [cells[i]];
    assert [cells[i]][1..] == [];
    CellSumAppend(cells[..i], [cells[i]], foo);
  }

  // The threads: each one reads and writes its own record only.
  method RunThreads(infos: array<ThreadInfo>, foo: real -> real)
    modifies infos
    ensures forall k :: 0 <= k < infos.Length ==>
      infos[k] == old(infos[k]).(res := Quadrature(old(infos[k].begin), old(infos[k].end), foo))
  {
    var i := 0;
    while i < infos.Length
      invariant 0 <= i <= infos.Length
      invariant forall k :: 0 <= k < i ==>
        infos[k] == old(infos[k]).(res := Quadrature(old(infos[k].begin), old(infos[k].end), foo))
      invariant forall k :: i <= k < infos.Length ==> infos[k] == old(infos[k])
    {
      var r := CalcIntegral(infos[i].begin, infos[i].end, foo);
      infos[i] := infos[i].(res := r);
      i := i + 1;
    }
  }

  // Joining the first n threads in order and adding their results.
  method JoinThreads(infos: array<ThreadInfo>, n: nat, foo: real -> real, ghost cells: seq<Cell>) returns (res: real)
    requires |cells| == n <= infos.Length
    requires forall k :: 0 <= k < n ==> infos[k].res == Quadrature(cells[k].begin, cells[k].end, foo)
    ensures res == CellSum(cells, foo)
  {
    res := 0.0;
    var i := 0;
    while i < n
      invariant 0 <= i <= n
      invariant res == CellSum(cells[..i], foo)
    {
      CellSumNext(cells, i, foo);
      res := res + infos[i].res;
      i := i + 1;
    }
    assert cells[..n] == cells;
  }

  /** One worker. It starts as many threads as it has CPUs even when asked for fewer; only
      the results of the asked-for threads are added. */
  method Integrate(nThreads: nat, begin: real, end: real, foo: real -> real, nCpus: nat)
    returns (err: Error, res: real, threads: seq<ThreadInfo>)
    ensures err == if nThreads == 0 then E_INVAL else SUCCESS
    ensures err == SUCCESS ==> res == CellSum(Grid(begin, end, nThreads), foo)
    ensures err == SUCCESS ==>
              && |threads| == (if nThreads > nCpus then nThreads else nCpus)
              && (forall k :: 0 <= k < |threads| ==>
                    && Cell(threads[k].begin, threads[k].end)
                       == Grid(begin, end, nThreads)[if k < nThreads then k else 0]
                    && threads[k].res == Quadrature(threads[k].begin, threads[k].end, foo))
  {
    if nThreads == 0 {
      return E_INVAL, 0.0, [];
    }
    var nThreadCreate := if nThreads > nCpus then nThreads else nCpus;
    var infos := new ThreadInfo[nThreadCreate](_ => ThreadInfo(0.0, 0.0, 0.0));
    var code := FillThreadInfo(infos, begin, end, nThreads);
    RunThreads(infos, foo);
    res := JoinThreads(infos, nThreads, foo, Grid(begin, end, nThreads));
    return SUCCESS, res, infos[..];
  }

  // ------------------------------------------------------------------ the server

  function Sum(parts: seq<Option<real>>): real {
    if parts == [] then 0.0
    else (match parts[0] case Some(x) => x case None => 0.0) + Sum(parts[1..])
  }

  lemma {:induction false} SumNext(parts: seq<Option<real>>, i: nat)
    requires i < |parts| && parts[i].Some?
    ensures Sum(parts[..i + 1]) == Sum(parts[..i]) + parts[i].value
  {
    if i == 0 {
      assert parts[..1] == [parts[0]] && [parts[0]][1..] == [];
    } else {
      assert parts[..i + 1][1..] == parts[1..][..i] && parts[..i][1..] == parts[1..][..i - 1];
      SumNext(parts[1..], i - 1);
    }
  }

  // `parts[j]` is what the handler thread of worker j returned; None is its null pointer.
  method GetResult(parts: seq<Option<real>>) returns (err: Error, res: Option<real>)
    ensures (err == SUCCESS && res == Some(Sum(parts))) || (err == E_THREAD && res == None)
    ensures err == SUCCESS <==> forall j :: 0 <= j < |parts| ==> parts[j].Some?
  {
    var result := 0.0;
    var j := 0;
    while j < |parts|
      invariant 0 <= j <= |parts|
      invariant forall k :: 0 <= k < j ==> parts[k].Some?
      invariant result == Sum(parts[..j])
    {
      if parts[j].None? {
        return E_THREAD, None;
      }
      SumNext(parts, j);
      result := result + parts[j].value;
      j := j + 1;
    }
    assert parts[..j] == parts;
    return SUCCESS, Some(result);
  }

  // The workers' exact answers add up to the sum over all cells of all tasks.
  lemma {:induction false} AnswersSum(tasks: seq<WorkerInfo>, parts: seq<Option<real>>, foo: real -> real)
    requires |parts| == |tasks| && forall t :: t in tasks ==> t.nThreads > 0
    requires forall j :: 0 <= j < |tasks| ==>
      parts[j] == Some(CellSum(Grid(tasks[j].begin, tasks[j].end, tasks[j].nThreads), foo))
    ensures Sum(parts) == CellSum(AllCells(tasks), foo)
  {
    if tasks != [] {
      AnswersSum(tasks[1..], parts[1..], foo);
      CellSumAppend(Grid(tasks[0].begin, tasks[0].end, tasks[0].nThreads), AllCells(tasks[1..]), foo);
    }
  }

  // The answer of one worker, when it arrives.
  function Answer(t: WorkerInfo, arrives: bool): Option<real>
    requires t.nThreads > 0
  {
    if arrives then Some(CellSum(Grid(t.begin, t.end, t.nThreads), Square)) else None
  }

  method AskWorkers(tasks: seq<WorkerInfo>, cpus: seq<nat>, answers: seq<bool>) returns (parts: seq<Option<real>>)
    requires |cpus| >= |tasks| && |answers| >= |tasks|
    requires forall t :: t in tasks ==> t.nThreads > 0
    ensures |parts| == |tasks|
    ensures forall k :: 0 <= k < |tasks| ==> parts[k] == Answer(tasks[k], answers[k])
  {
    parts := [];
    var j := 0;
    while j < |tasks|
      invariant 0 <= j <= |tasks| && |parts| == j
      invariant forall k :: 0 <= k < j ==> parts[k] == Answer(tasks[k], answers[k])
    {
      var t := tasks[j];
      if answers[j] {
        var code, r, _ := Integrate(t.nThreads, t.begin, t.end, Square, cpus[j]);
        parts := parts + [Some(r)];
      } else {
        parts := parts + [None];
      }
      j := j + 1;
    }
  }

  /** The server: divide, let every worker that answers compute, and add up. `cpus[j]` is the
      number of CPUs of worker j and `answers[j]` whether its result arrives. The total does
      not depend on the number of machines nor on their CPUs. */
  method RunServer(nThreads: nat, nMachines: nat, begin: real, end: real, cpus: seq<nat>, answers: seq<bool>)
    returns (err: Error, res: Option<real>)
    requires |cpus| >= nMachines && |answers| >= nMachines
    ensures nThreads == 0 || nMachines == 0 ==> err == E_INVAL && res == None
    ensures nThreads > 0 && nMachines > 0 ==>
      var all := forall j :: 0 <= j < Workers(nMachines, nThreads) ==> answers[j];
      && (all ==> err == SUCCESS && res == Some(CellSum(Grid(begin, end, nThreads), Square)))
      && (!all ==> err == E_THREAD && res == None)
  {
    var tasks;
    err, tasks := DivideWork(nMachines, nThreads, begin, end);
    if err != SUCCESS {
      return err, None;
    }
    DivisionIsUniformGrid(nMachines, nThreads, begin, end);
    var parts := AskWorkers(tasks, cpus, answers);
    err, res := GetResult(parts);
    if err == SUCCESS {
      AnswersSum(tasks, parts, Square);
    }
  }

  // ------------------------------------------------------------------ error of the total

  function BoundSum(cells: seq<Cell>): real {
    if cells == [] then 0.0 else Bound(cells[0].begin, cells[0].end) + BoundSum(cells[1..])
  }

  // Contiguous cells of non-negative width from begin to end.
  predicate Tiling(cells: seq<Cell>, begin: real, end: real) {
    if cells == [] then begin == end
    else cells[0].begin == begin && begin <= cells[0].end && Tiling(cells[1..], cells[0].end, end)
  }

  lemma Triangle(a: real, b: real)
    ensures Abs(a + b) <= Abs(a) + Abs(b)
  {
  }

  lemma {:induction false} TilingError(cells: seq<Cell>, begin: real, end: real)
    requires 0.0 <= begin && Tiling(cells, begin, end)
    ensures begin <= end
    ensures Abs(CellSum(cells, Square) - (Cube(end) - Cube(begin)) / 3.0) <= BoundSum(cells)
  {
    if cells != [] {
      var mid := cells[0].end;
      IntegralError(begin, mid);
      TilingError(cells[1..], mid, end);
      Triangle(Quadrature(begin, mid, Square) - (Cube(mid) - Cube(begin)) / 3.0,
               CellSum(cells[1..], Square) - (Cube(end) - Cube(mid)) / 3.0);
    }
  }

  lemma {:induction false} GridIsTiling(begin: real, h: real, n: nat, k: nat)
    requires 0.0 <= h && k <= n
    ensures Tiling(Cells(begin, h, n)[k..], Mark(begin, h, k), Mark(begin, h, n))
    decreases n - k
  {
    if k < n {
      GridIsTiling(begin, h, n, k + 1);
      assert Cells(begin, h, n)[k..][1..] == Cells(begin, h, n)[k + 1..];
    }
  }

  // The server's total is as close to the integral as the cells' own bounds add up to.
  lemma TotalError(begin: real, end: real, nThreads: nat)
    requires 0.0 <= begin <= end && nThreads > 0
    ensures var g := Grid(begin, end, nThreads);
            Abs(CellSum(g, Square) - (Cube(end) - Cube(begin)) / 3.0) <= BoundSum(g)
  {
    var h := Width(begin, end, nThreads);
    GridIsTiling(begin, h, nThreads, 0);
    LastMark(begin, end, nThreads);
    assert Cells(begin, h, nThreads)[0..] == Grid(begin, end, nThreads);
    TilingError(Grid(begin, end, nThreads), begin, end);
  }
}
