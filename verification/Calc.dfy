/** `CalcIntegral` of 4_sem/Network/calc.c over exact reals. Its second sample lags one step
    behind the cursor, so it is not the trapezoid rule it looks like. */
module Calc {

  const STEP: real := 0.0000001

  // The integrand of the worker.
  function Square(x: real): real { x * x }

  // ------------------------------------------------------------------ what the loop adds up

  function LoopSum(x: real, end: real, f1: real, f2: real, foo: real -> real): real
    decreases (end - x) * 10000000.0
  {
    if x < end then STEP * (f1 + f2) / 2.0 + LoopSum(x + STEP, end, f2, foo(x + STEP), foo) else 0.0
  }

  function Quadrature(begin: real, end: real, foo: real -> real): real {
    var b := if end < begin then end else begin;
    var e := if end < begin then begin else end;
    LoopSum(b, e, foo(b), foo(b + STEP), foo)
  }

  method CalcIntegral(begin0: real, end0: real, foo: real -> real) returns (res: real)
    ensures res == Quadrature(begin0, end0, foo)
  {
    var begin, end := begin0, end0;
    if end < begin {
      var tmp := end;
      end := begin;
      begin := tmp;
    }
    res := 0.0;
    var x := begin;
    var f1 := foo(x);
    var f2 := foo(x + STEP);
    while x < end
      invariant res + LoopSum(x, end, f1, f2, foo) == Quadrature(begin0, end0, foo)
      decreases (end - x) * 10000000.0
    {
      res := res + STEP * (f1 + f2) / 2.0;
      x := x + STEP;
      f1 := f2;
      f2 := foo(x);
    }
  }

  // ------------------------------------------------------------------ the lag, for any integrand

  // Iterations of the loop.
  function Steps(x: real, end: real): nat
    decreases (end - x) * 10000000.0
  {
    if x < end then 1 + Steps(x + STEP, end) else 0
  }

  // n is the least number of steps from x that reaches the end.
  predicate Reaches(x: real, end: real, n: nat) {
    if x < end then n > 0 && x + (n - 1) as real * STEP < end <= x + n as real * STEP else n == 0
  }

  lemma {:induction false} StepsReach(x: real, end: real)
    ensures Reaches(x, end, Steps(x, end))
    decreases (end - x) * 10000000.0
  {
    if x < end {
      StepsReach(x + STEP, end);
      var n := Steps(x + STEP, end);
      assert (n + 1) as real * STEP == n as real * STEP + STEP;
      if n > 0 { assert n as real * STEP == (n - 1) as real * STEP + STEP; }
    }
  }

  // The trapezoid rule on n cells from x on.
  function Trapezoids(x: real, n: nat, foo: real -> real): real
    decreases n
  {
    if n == 0 then 0.0
    else STEP * (foo(x) + foo(x + STEP)) / 2.0 + Trapezoids(x + STEP, n - 1, foo)
  }

  // From the third iteration on, each one adds the cell before the cursor.
  lemma {:induction false} LaggingLoop(x: real, end: real, foo: real -> real)
    ensures LoopSum(x + STEP, end, foo(x), foo(x + STEP), foo) == Trapezoids(x, Steps(x + STEP, end), foo)
    decreases (end - x) * 10000000.0
  {
    if x + STEP < end {
      LaggingLoop(x + STEP, end, foo);
    }
  }

  /** With n iterations, the least number of steps from begin to end, the result is the trapezoid
      rule on the first n - 1 cells, plus step * foo (begin + step) for the last cell. */
  lemma LagIdentity(begin: real, end: real, foo: real -> real)
    requires begin <= end
    ensures Reaches(begin, end, Steps(begin, end))
    ensures var n := Steps(begin, end);
            Quadrature(begin, end, foo) ==
            if n == 0 then 0.0
            else if n == 1 then Trapezoids(begin, 1, foo)
            else Trapezoids(begin, n - 1, foo) + STEP * foo(begin + STEP)
  {
    StepsReach(begin, end);
    var second := begin + STEP;
    assert Trapezoids(second, 0, foo) == 0.0;
    if second < end {
      LaggingLoop(second, end, foo);
      assert Steps(second, end) == 1 + Steps(second + STEP, end);
      var n := Steps(begin, end);
      var tail := Trapezoids(second, n - 2, foo);
      assert LoopSum(second, end, foo(second), foo(second), foo) == STEP * foo(second) + tail;
      assert Trapezoids(begin, n - 1, foo) == STEP * (foo(begin) + foo(second)) / 2.0 + tail;
    }
  }

  // The bounds are put in order, and the sign is not: the result is symmetric in them.
  lemma Symmetric(begin: real, end: real, foo: real -> real)
    ensures Quadrature(begin, end, foo) == Quadrature(end, begin, foo)
  {
  }

  // ------------------------------------------------------------------ error for x * x

  function Cube(x: real): real { x * x * x }

  function Abs(x: real): real { if x < 0.0 then -x else x }

  // Twice the growth of the square over the steps still to go, plus the overshoot.
  function Bound(begin: real, end: real): real {
    2.0 * STEP * (Square(end + STEP) - Square(begin)) + STEP * Square(end + STEP)
  }

  lemma MulMonotone(a: real, b: real, c: real)
    requires a <= b && 0.0 <= c
    ensures a * c <= b * c
  {
  }

  // The samples in use at cursor x lie between the neighbouring values of the square.
  predicate SamplesNear(x: real, f1: real, f2: real) {
    && (if x >= STEP then Square(x - STEP) else 0.0) <= f1 <= Square(x + STEP)
    && Square(x) <= f2 <= Square(x + STEP)
  }

  // One cell's contribution differs little from the integral over [x, x + STEP].
  lemma CellError(x: real, f1: real, f2: real)
    requires 0.0 <= x && SamplesNear(x, f1, f2)
    ensures Abs(STEP * (f1 + f2) / 2.0 - (Cube(x + STEP) - Cube(x)) / 3.0)
         <= 2.0 * STEP * (Square(x + STEP) - Square(x))
  {
    var p := x * x;
    assert Square(x + STEP) == p + 2.0 * STEP * x + STEP * STEP;
    assert Square(x - STEP) == p - 2.0 * STEP * x + STEP * STEP;
    assert Cube(x + STEP) - Cube(x) == 3.0 * STEP * p + 3.0 * STEP * STEP * x + STEP * STEP * STEP;
    if x < STEP {
      MulMonotone(x, STEP, x);
    }
  }

  lemma NextSamples(x: real, f1: real, f2: real)
    requires 0.0 <= x && SamplesNear(x, f1, f2)
    ensures SamplesNear(x + STEP, f2, Square(x + STEP))
  {
    assert Square(x + STEP + STEP) == Square(x + STEP) + 2.0 * STEP * x + 3.0 * STEP * STEP;
  }

  lemma SquareMonotone(a: real, b: real)
    requires 0.0 <= a <= b
    ensures 0.0 <= a * a <= a * b <= b * b
  {
    MulMonotone(a, b, a);
    MulMonotone(a, b, b);
    MulMonotone(0.0, a, a);
  }

  lemma ProductMonotone(d: real, s: real, q: real, top: real)
    requires 0.0 <= d <= s && 0.0 <= q <= top
    ensures 0.0 <= d * q <= s * top
  {
    MulMonotone(d, s, q);
    MulMonotone(0.0, d, q);
    MulMonotone(q, top, s);
  }

  lemma ThreeTerms(a: real, b: real, c: real, t: real)
    requires 0.0 <= c <= b <= a <= t
    ensures 0.0 <= a + b + c <= 3.0 * t
  {
  }

  // Cubes of two numbers at most s apart, both at most m.
  lemma CubesNear(x: real, end: real, m: real, s: real)
    requires 0.0 <= end <= x <= m && x - end <= s
    ensures 0.0 <= Cube(x) - Cube(end) <= s * (3.0 * Square(m))
    ensures Square(x) <= Square(m)
  {
    SquareMonotone(x, m);
    SquareMonotone(end, x);
    var a, b, c, top := x * x, end * x, end * end, m * m;
    ThreeTerms(a, b, c, top);
    ProductMonotone(x - end, s, a + b + c, 3.0 * top);
    assert (x - end) * (a + b + c) == Cube(x) - Cube(end);
  }

  lemma {:induction false} LoopError(x: real, end: real, f1: real, f2: real)
    requires 0.0 <= end && 0.0 <= x <= end + STEP && SamplesNear(x, f1, f2)
    ensures Abs(LoopSum(x, end, f1, f2, Square) - (Cube(end) - Cube(x)) / 3.0) <= Bound(x, end)
    decreases (end - x) * 10000000.0
  {
    if x < end {
      CellError(x, f1, f2);
      NextSamples(x, f1, f2);
      LoopError(x + STEP, end, f2, Square(x + STEP));
    } else {
      CubesNear(x, end, end + STEP, STEP);
    }
  }

  /** For 0 <= begin <= end the result differs from the integral of x * x by at most
      2 * step * ((end + step)^2 - begin^2) + step * (end + step)^2. */
  lemma IntegralError(begin: real, end: real)
    requires 0.0 <= begin <= end
    ensures -Bound(begin, end) <= Quadrature(begin, end, Square) - (Cube(end) - Cube(begin)) / 3.0 <= Bound(begin, end)
  {
    assert SamplesNear(begin, Square(begin), Square(begin + STEP)) by {
      assert Square(begin + STEP) == Square(begin) + 2.0 * STEP * begin + STEP * STEP;
      if begin >= STEP {
        assert Square(begin - STEP) == Square(begin) - 2.0 * STEP * begin + STEP * STEP;
      }
      assert Square(begin) >= 0.0;
    }
    LoopError(begin, end, Square(begin), Square(begin + STEP));
  }

  lemma UnitBound(begin: real, end: real)
    requires 0.0 <= begin <= end <= 1.0
    ensures Bound(begin, end) <= 0.00000031
  {
    SquareMonotone(end + STEP, 1.0 + STEP);
    SquareMonotone(0.0, begin);
    var top, low := Square(end + STEP), Square(begin);
    assert Square(1.0 + STEP) <= 1.0000003;
    assert 0.0 <= low && top <= 1.0000003;
    assert Bound(begin, end) == 0.0000002 * (top - low) + 0.0000001 * top;
  }

  // With its numbers: on the unit interval the result is within 0.00000031 of the integral.
  lemma UnitError(begin: real, end: real)
    requires 0.0 <= begin <= end <= 1.0
    ensures -0.00000031 <= Quadrature(begin, end, Square) - (Cube(end) - Cube(begin)) / 3.0 <= 0.00000031
  {
    IntegralError(begin, end);
    UnitBound(begin, end);
  }
}
