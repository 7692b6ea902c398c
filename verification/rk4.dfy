/** The fixed-step fourth-order Runge-Kutta solver of include/rk4.h. The state is the single
    row of the C++ code's 1 x n matrix, the derivative is a pure function of the state (the
    solver assumes no explicit time dependence) and the end condition a predicate on it. */
module Rk4 {

  type Row = seq<real>

  /** Entrywise sum of two rows of equal width. */
  function Plus(a: Row, b: Row): (r: Row)
    requires |a| == |b|
    ensures |r| == |a| && forall i :: 0 <= i < |a| ==> r[i] == a[i] + b[i]
  {
    seq(|a|, i requires 0 <= i < |a| => a[i] + b[i])
  }

  /** Row-scalar product `m * n`, entry by entry. */
  function Times(a: Row, n: real): (r: Row)
    ensures |r| == |a| && forall i :: 0 <= i < |a| ==> r[i] == a[i] * n
  {
    seq(|a|, i requires 0 <= i < |a| => a[i] * n)
  }

  /** The derivative keeps the width of the state. */
  ghost predicate KeepsWidth(f: Row -> Row, n: nat) {
    forall s: Row :: |s| == n ==> |f(s)| == n
  }

  /** `RK4Solution`: the step counter, the step size, an error field that is always 0.0, and
      the final state. */
  datatype Solution = Solution(steps: int, stepSize: real, error: real, solutions: Row)

  /** One advance: k1 = f(y), k2 = f(y + h k1 0.5), k3 = f(y + h k2 0.5), k4 = f(y + h k3), then
      y + h / 6 (k1 + 2 k2 + 2 k3 + k4), with the C++ code's grouping of every product. */
  function Step(f: Row -> Row, h: real, y: Row): (r: Row)
    requires KeepsWidth(f, |y|)
    ensures |r| == |y|
  {
    var k1 := f(y);
    var k2 := f(Plus(y, Times(Times(k1, h), 0.5)));
    var k3 := f(Plus(y, Times(Times(k2, h), 0.5)));
    var k4 := f(Plus(y, Times(k3, h)));
    Plus(y, Times(Plus(Plus(Plus(k1, Times(k2, 2.0)), Times(k3, 2.0)), k4), h / 6.0))
  }

  /** The state after `k` advances from `y0`. */
  function Iterate(f: Row -> Row, h: real, y0: Row, k: nat): (r: Row)
    requires KeepsWidth(f, |y0|)
    ensures |r| == |y0|
  {
    if k == 0 then y0 else Step(f, h, Iterate(f, h, y0, k - 1))
  }

  /** `solve`: advance until the end condition holds of the new state or `maxSteps` advances
      are done. The counter is incremented only after an advance that does not end the run,
      so a run that stops on its k-th advance reports k - 1 steps, and one that never stops
      reports `maxSteps`. */
  method Solve(h: real, y0: Row, f: Row -> Row, maxSteps: int, stop: Row -> bool) returns (r: Solution)
    requires KeepsWidth(f, |y0|)
    ensures r.stepSize == h && r.error == 0.0 && |r.solutions| == |y0|
    ensures maxSteps <= 0 ==> r.steps == 0 && r.solutions == y0
    ensures maxSteps > 0 ==> 0 <= r.steps <= maxSteps
    ensures maxSteps > 0 && r.steps < maxSteps ==> r.solutions == Iterate(f, h, y0, r.steps + 1) && stop(r.solutions)
    ensures maxSteps > 0 && r.steps == maxSteps ==> r.solutions == Iterate(f, h, y0, maxSteps)
    ensures maxSteps > 0 ==> forall k :: 1 <= k <= r.steps ==> !stop(Iterate(f, h, y0, k))
  {
    var y := y0;
    var step := 0;
    while step < maxSteps
      invariant 0 <= step && (maxSteps > 0 ==> step <= maxSteps) && (maxSteps <= 0 ==> step == 0)
      invariant y == Iterate(f, h, y0, step)
      invariant forall k :: 1 <= k <= step ==> !stop(Iterate(f, h, y0, k))
    {
      y := Step(f, h, y);
      if stop(y) {
        break;
      }
      step := step + 1;
    }
    r := Solution(step, h, 0.0, y);
  }

  /** For a constant derivative every advance is exact: y + h c. */
  lemma ConstantStep(f: Row -> Row, c: Row, h: real, y: Row)
    requires |c| == |y| && forall s :: f(s) == c
    ensures KeepsWidth(f, |y|)
    ensures Step(f, h, y) == Plus(y, Times(c, h))
  {
    var r := Step(f, h, y);
    forall i | 0 <= i < |y| ensures r[i] == y[i] + c[i] * h {
      assert r[i] == y[i] + (((c[i] + c[i] * 2.0) + c[i] * 2.0) + c[i]) * (h / 6.0);
    }
  }

  /** With a constant derivative the state after `k` advances is y0 + k h c. */
  lemma {:induction false} ConstantIterate(f: Row -> Row, c: Row, h: real, y0: Row, k: nat)
    requires |c| == |y0| && forall s :: f(s) == c
    ensures KeepsWidth(f, |y0|)
    ensures Iterate(f, h, y0, k) == Plus(y0, Times(c, (k as real) * h))
  {
    if k == 0 {
      assert Plus(y0, Times(c, 0.0)) == y0;
    } else {
      var k' := k - 1;
      ConstantIterate(f, c, h, y0, k');
      ConstantStep(f, c, h, Iterate(f, h, y0, k'));
      OneMoreShift(y0, c, h, k', k);
    }
  }

  /** Shifting y0 + (k - 1) h c by h c gives y0 + k h c. */
  lemma OneMoreShift(y0: Row, c: Row, h: real, k: nat, k1: nat)
    requires |c| == |y0| && k1 == k + 1
    ensures Plus(Plus(y0, Times(c, (k as real) * h)), Times(c, h)) == Plus(y0, Times(c, (k1 as real) * h))
  {
    var prev := Plus(y0, Times(c, (k as real) * h));
    var r := Plus(prev, Times(c, h));
    var want := Plus(y0, Times(c, (k1 as real) * h));
    forall i | 0 <= i < |y0| ensures r[i] == want[i] {
      OneMoreStep(y0[i], c[i], h, k as real, k1 as real);
    }
  }

  lemma OneMoreStep(y: real, c: real, h: real, k: real, k1: real)
    requires k1 == k + 1.0
    ensures (y + c * (k * h)) + c * h == y + c * (k1 * h)
  {
  }

  /** When the end condition first holds after the k-th advance, k within the budget, the run
      reports k - 1 steps and the k-th state, whatever the rest of the trajectory does. */
  lemma {:induction false} StopsAtFirst(h: real, y0: Row, f: Row -> Row, maxSteps: int, stop: Row -> bool, r: Solution, k: nat)
    requires KeepsWidth(f, |y0|) && 1 <= k <= maxSteps
    requires 0 <= r.steps <= maxSteps
    requires r.steps < maxSteps ==> r.solutions == Iterate(f, h, y0, r.steps + 1) && stop(r.solutions)
    requires forall j :: 1 <= j <= r.steps ==> !stop(Iterate(f, h, y0, j))
    requires stop(Iterate(f, h, y0, k)) && forall j :: 1 <= j < k ==> !stop(Iterate(f, h, y0, j))
    ensures r.steps == k - 1 && r.solutions == Iterate(f, h, y0, k)
  {
    if r.steps >= k {
      assert false;
    } else {
      assert stop(Iterate(f, h, y0, r.steps + 1));
    }
  }

  /** The unit test on x' = 1 from x = 0 with h = 0.001, stopping once x >= 0.5: the run
      reaches exactly 0.5 on its 500th advance and so reports 499 steps. */
  method SampleUnitSlope(f: Row -> Row) returns (r: Solution)
    requires forall s :: f(s) == [1.0]
    ensures r.steps == 499 && r.solutions == [0.5] && r.stepSize == 0.001
  {
    var stop: Row -> bool := y => |y| == 1 && y[0] >= 0.5;
    UnitSlope(f, 0);
    r := Solve(0.001, [0.0], f, 1005, stop);
    UnitSlopeStops(f, stop);
    StopsAtFirst(0.001, [0.0], f, 1005, stop, r, 500);
  }

  /** x' = 1 from x = 0 with h = 0.001 first reaches 0.5 on the 500th advance. */
  lemma UnitSlopeStops(f: Row -> Row, stop: Row -> bool)
    requires forall s :: f(s) == [1.0]
    requires forall y :: stop(y) == (|y| == 1 && y[0] >= 0.5)
    ensures KeepsWidth(f, 1)
    ensures Iterate(f, 0.001, [0.0], 500) == [0.5]
    ensures stop(Iterate(f, 0.001, [0.0], 500)) && forall j :: 1 <= j < 500 ==> !stop(Iterate(f, 0.001, [0.0], j))
  {
    forall j | 1 <= j < 500 ensures !stop(Iterate(f, 0.001, [0.0], j)) {
      UnitSlope(f, j);
    }
    UnitSlope(f, 500);
  }

  lemma UnitSlope(f: Row -> Row, k: nat)
    requires forall s :: f(s) == [1.0]
    ensures KeepsWidth(f, 1)
    ensures Iterate(f, 0.001, [0.0], k) == [(k as real) * 0.001]
  {
    ConstantIterate(f, [1.0], 0.001, [0.0], k);
    var r := Iterate(f, 0.001, [0.0], k);
    assert r == [r[0]];
  }
}
