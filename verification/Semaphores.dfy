/** The SysV semaphore set that both Sharmem programs share: seven values, one undo
    vector per process, and the three kernel operations the programs use
    (`semop` on an array, `semctl SETVAL`, and the undo applied when a process exits). */
module Semaphores {

  // The enumeration of 3_sem/Sharmem/sharmem_config.h, in its order.
  datatype Sem = Full | Empty | SyncRd | SyncWr | AloneRd | AloneWr | NumProc

  // One number per semaphore: the set's values, or one process's undo vector.
  datatype Vals = Vals(full: int, empty: int, syncRd: int, syncWr: int,
                       aloneRd: int, aloneWr: int, numProc: int)
  {
    function Get(s: Sem): int {
      match s
      case Full => full
      case Empty => empty
      case SyncRd => syncRd
      case SyncWr => syncWr
      case AloneRd => aloneRd
      case AloneWr => aloneWr
      case NumProc => numProc
    }

    function Set(s: Sem, x: int): Vals {
      match s
      case Full => this.(full := x)
      case Empty => this.(empty := x)
      case SyncRd => this.(syncRd := x)
      case SyncWr => this.(syncWr := x)
      case AloneRd => this.(aloneRd := x)
      case AloneWr => this.(aloneWr := x)
      case NumProc => this.(numProc := x)
    }
  }

  const ZERO := Vals(0, 0, 0, 0, 0, 0, 0)

  // `struct sembuf`: which semaphore, the signed operation, and the two flags.
  datatype SemBuf = SemBuf(num: Sem, op: int, undo: bool, nowait: bool)

  /** Result of an array of operations: all of them applied, or none of them because the
      caller has to sleep (`Blocked`) or asked not to (`Again`, errno EAGAIN). */
  datatype Outcome = Done(vals: Vals, adj: Vals) | Blocked | Again

  // One element of the array, on the values its predecessors left.
  function Apply(r: Outcome, b: SemBuf): Outcome {
    match r
    case Done(vals, adj) =>
      var x := vals.Get(b.num);
      if (b.op == 0 && x == 0) || b.op > 0 || (b.op < 0 && x + b.op >= 0) then
        Done(vals.Set(b.num, x + b.op),
             if b.undo then adj.Set(b.num, adj.Get(b.num) - b.op) else adj)
      else if b.nowait then Again else Blocked
    case _ => r
  }

  function ApplyAll(r: Outcome, ops: seq<SemBuf>): Outcome
    decreases |ops|
  {
    if ops == [] then r else ApplyAll(Apply(r, ops[0]), ops[1..])
  }

  // `semop`: the whole array takes effect atomically, or none of it does.
  function Semop(vals: Vals, adj: Vals, ops: seq<SemBuf>): Outcome {
    ApplyAll(Done(vals, adj), ops)
  }

  lemma ApplyCons(r: Outcome, a: SemBuf, rest: seq<SemBuf>)
    ensures ApplyAll(r, [a] + rest) == ApplyAll(Apply(r, a), rest)
  {
    assert ([a] + rest)[0] == a && ([a] + rest)[1..] == rest;
  }

  // The arrays of the two programs have one to four elements.
  lemma SemopUnrolled(vals: Vals, adj: Vals, ops: seq<SemBuf>)
    ensures var s := Done(vals, adj);
            var r := Semop(vals, adj, ops);
            && (|ops| == 1 ==> r == Apply(s, ops[0]))
            && (|ops| == 2 ==> r == Apply(Apply(s, ops[0]), ops[1]))
            && (|ops| == 3 ==> r == Apply(Apply(Apply(s, ops[0]), ops[1]), ops[2]))
            && (|ops| == 4 ==> r == Apply(Apply(Apply(Apply(s, ops[0]), ops[1]), ops[2]), ops[3]))
  {
    var r, k := Done(vals, adj), 0;
    while k < |ops| && k < 4
      invariant 0 <= k <= |ops| && k <= 4
      invariant Semop(vals, adj, ops) == ApplyAll(r, ops[k..])
      invariant var s := Done(vals, adj);
        && (k == 0 ==> r == s)
        && (k == 1 ==> r == Apply(s, ops[0]))
        && (k == 2 ==> r == Apply(Apply(s, ops[0]), ops[1]))
        && (k == 3 ==> r == Apply(Apply(Apply(s, ops[0]), ops[1]), ops[2]))
        && (k == 4 ==> r == Apply(Apply(Apply(Apply(s, ops[0]), ops[1]), ops[2]), ops[3]))
    {
      assert ops[k..] == [ops[k]] + ops[k + 1..];
      ApplyCons(r, ops[k], ops[k + 1..]);
      r, k := Apply(r, ops[k]), k + 1;
    }
    if |ops| <= 4 {
      assert ApplyAll(r, ops[k..]) == r;
    }
  }

  // A value plus an exiting process's adjustment; the kernel never lets it fall below 0.
  function Adjust(x: int, adj: int): int {
    if x + adj < 0 then 0 else x + adj
  }

  // Process exit: the whole undo vector is applied to the set in one step.
  function Undo(v: Vals, a: Vals): Vals {
    Vals(Adjust(v.full, a.full), Adjust(v.empty, a.empty),
         Adjust(v.syncRd, a.syncRd), Adjust(v.syncWr, a.syncWr),
         Adjust(v.aloneRd, a.aloneRd), Adjust(v.aloneWr, a.aloneWr),
         Adjust(v.numProc, a.numProc))
  }

  // ------------------------------------------------------------------ what undo takes back

  // The operations on a semaphore that carry no SEM_UNDO, added up.
  function Kept(ops: seq<SemBuf>, s: Sem): int {
    if ops == [] then 0
    else (if ops[0].num == s && !ops[0].undo then ops[0].op else 0) + Kept(ops[1..], s)
  }

  lemma ApplyBalance(vals: Vals, adj: Vals, b: SemBuf, s: Sem)
    ensures var r := Apply(Done(vals, adj), b);
            var kept := if b.num == s && !b.undo then b.op else 0;
            r.Done? ==> r.vals.Get(s) + r.adj.Get(s) == vals.Get(s) + adj.Get(s) + kept
  {
  }

  // Value and adjustment of every semaphore change by the operations without SEM_UNDO only.
  lemma {:induction false} SemopBalance(vals: Vals, adj: Vals, ops: seq<SemBuf>, s: Sem)
    ensures var r := Semop(vals, adj, ops);
            r.Done? ==> r.vals.Get(s) + r.adj.Get(s) == vals.Get(s) + adj.Get(s) + Kept(ops, s)
    decreases |ops|
  {
    hide Apply;
    if ops != [] {
      ApplyBalance(vals, adj, ops[0], s);
      var r := Apply(Done(vals, adj), ops[0]);
      if r.Done? {
        SemopBalance(r.vals, r.adj, ops[1..], s);
      } else {
        StaysUndone(r, ops[1..]);
      }
    }
  }

  lemma {:induction false} StaysUndone(r: Outcome, ops: seq<SemBuf>)
    requires !r.Done?
    ensures ApplyAll(r, ops) == r
    decreases |ops|
  {
    if ops != [] { StaysUndone(r, ops[1..]); }
  }

  /** The exit of a process takes back from every semaphore what its array did to it with
      SEM_UNDO, and nothing else, as long as nobody else has used it up. */
  lemma UndoTakesBack(vals: Vals, ops: seq<SemBuf>, s: Sem)
    requires vals.Get(s) + Kept(ops, s) >= 0
    ensures var r := Semop(vals, ZERO, ops);
            r.Done? ==> Undo(r.vals, r.adj).Get(s) == vals.Get(s) + Kept(ops, s)
  {
    hide Semop;
    SemopBalance(vals, ZERO, ops, s);
  }
}
