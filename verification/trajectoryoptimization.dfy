/** The bookkeeping of `getInputs` in include/trajectoryoptimization.h: a damped Newton search
    for the launch speed and east angle that land on a goal latitude and longitude. The
    simulation itself (`simulate`, which integrates a whole flight) is a function parameter;
    `exp` is a parameter known only to stay in (0, 1] on non-positive arguments. */
module TrajectoryOptimization {
  import opened Errors
  import opened Constants
  import Matrices
  import opened Determinants
  import opened Inverses
  import Vectors

  /** `vAngle`: a launch speed and an east angle, both in the solver's normalised units. */
  datatype VAngle = VAngle(v: real, eastAngle: real)

  /** A simulated landing point (latitude, longitude), the 2 x 1 matrix `simulate` returns. */
  datatype LatLon = LatLon(lat: real, lon: real)

  function Minus(a: LatLon, b: LatLon): LatLon {
    LatLon(a.lat - b.lat, a.lon - b.lon)
  }

  /** `((y - goal)^T (y - goal))(0, 0)`: the squared landing error. */
  function Err2(y: LatLon, goal: LatLon): (e: real)
    ensures e >= 0.0
  {
    var d := Minus(y, goal);
    d.lat * d.lat + d.lon * d.lon
  }

  /** The squared error vanishes exactly on the goal. */
  lemma Err2ZeroIff(y: LatLon, goal: LatLon)
    ensures Err2(y, goal) == 0.0 <==> y == goal
  {
    var d := Minus(y, goal);
    Vectors.SquarePositive(d.lat);
    Vectors.SquarePositive(d.lon);
  }

  function Abs(x: real): real {
    if x < 0.0 then -x else x
  }

  /** C's truncation of a quotient toward zero. */
  function Trunc(x: real): (n: int)
    ensures x >= 0.0 ==> n as real <= x < n as real + 1.0
    ensures x < 0.0 ==> n as real - 1.0 < x <= n as real
  {
    if x >= 0.0 then x.Floor else -((-x).Floor)
  }

  /** `std::fmod(a, b)` for the positive divisors the program passes: a minus the multiple of b
      that truncates a / b toward zero. The result keeps the sign of `a` and is below `b` in
      magnitude, `a` minus it is a whole multiple of `b`, and values already in (-b, b) are
      left alone. */
  function Fmod(a: real, b: real): (r: real)
    requires b > 0.0
    ensures a >= 0.0 ==> 0.0 <= r < b
    ensures a < 0.0 ==> -b < r <= 0.0
    ensures ((a - r) / b).Floor as real == (a - r) / b
    ensures -b < a < b ==> r == a
  {
    var n := Trunc(a / b);
    assert (a / b) * b == a;
    FmodBounds(a, b, a / b, n);
    a - (n as real) * b
  }

  lemma FmodBounds(a: real, b: real, q: real, n: int)
    requires b > 0.0 && q * b == a && n == Trunc(q)
    ensures a >= 0.0 ==> 0.0 <= a - (n as real) * b < b
    ensures a < 0.0 ==> -b < a - (n as real) * b <= 0.0
    ensures (a - (a - (n as real) * b)) / b == n as real
    ensures -b < a < b ==> n == 0
  {
    var m := n as real;
    assert (a - (a - m * b)) / b == (m * b) / b == m;
    if a >= 0.0 {
      FmodNonNegative(a, b, q, m);
    } else {
      FmodNegative(a, b, q, m);
    }
    if -b < a < b {
      QuotientBelowOne(a, b, q);
    }
  }

  lemma FmodNonNegative(a: real, b: real, q: real, m: real)
    requires b > 0.0 && q * b == a && a >= 0.0
    requires q >= 0.0 ==> m <= q < m + 1.0
    ensures 0.0 <= a - m * b < b
  {
    Between(0.0, q, 0.0, b);
    assert 0.0 * b == 0.0;
    assert q >= 0.0;
    Between(m, q, m + 1.0, b);
    assert (m + 1.0) * b == m * b + b;
  }

  lemma FmodNegative(a: real, b: real, q: real, m: real)
    requires b > 0.0 && q * b == a && a < 0.0
    requires q < 0.0 ==> m - 1.0 < q <= m
    ensures -b < a - m * b <= 0.0
  {
    Between(0.0, q, 0.0, b);
    Between(m - 1.0, q, m, b);
    assert (m - 1.0) * b == m * b - b;
  }

  lemma QuotientBelowOne(a: real, b: real, q: real)
    requires b > 0.0 && q * b == a && -b < a < b
    ensures -1.0 < q < 1.0
  {
    Between(-1.0, q, 1.0, b);
  }

  /** Multiplying by a positive b keeps x <= q < y, and strictly in the open case. */
  lemma Between(x: real, q: real, y: real, b: real)
    requires b > 0.0
    ensures x <= q ==> x * b <= q * b
    ensures x < q ==> x * b < q * b
    ensures q < y ==> q * b < y * b
    ensures q <= y ==> q * b <= y * b
    ensures x * b < q * b ==> x < q
    ensures q * b < y * b ==> q < y
  {
  }

  /** The start of the search: `fmod(-azimuth + 450, 360)` for the forward azimuth in
      degrees, which `atan2` keeps in [-180, 180]; the speed starts at 1000 m/s. */
  function InitialGuess(azimuth: real): (x: VAngle)
    requires -180.0 <= azimuth <= 180.0
    ensures 0.0 <= x.eastAngle < 360.0 * NORM_DEG
    ensures var d := (450.0 - azimuth - x.eastAngle / NORM_DEG) / 360.0; d.Floor as real == d
    ensures x.v == 1000.0 * NORM_VEL && x.v >= 0.0
  {
    var initialAngle := Fmod(-azimuth + 450.0, 360.0);
    VAngle(1000.0 * NORM_VEL, initialAngle * NORM_DEG)
  }

  /** The search is stated in normalised units and reports in m/s and degrees. */
  function Denormalise(x: VAngle): VAngle {
    VAngle(x.v / NORM_VEL, x.eastAngle / NORM_DEG)
  }

  // ---- one Newton step ----

  /** The forward-difference Jacobian `1 / eps * J`: column 0 from nudging the speed by eps,
      column 1 from nudging the east angle by eps, both against the landing point `y`. */
  function Jacobian(sim: VAngle -> LatLon, x: VAngle, y: LatLon): (j: Matrices.Matrix)
    ensures Square(j) && j.rows == 2
  {
    var dv := Minus(sim(VAngle(x.v + EPS, x.eastAngle)), y);
    var deA := Minus(sim(VAngle(x.v, x.eastAngle + EPS)), y);
    Matrices.ScaleLeft(1.0 / EPS, Matrices.Matrix(2, 2, [[dv.lat, deA.lat], [dv.lon, deA.lon]]))
  }

  /** For an affine simulation the forward differences are exact: the Jacobian is the linear
      part. */
  lemma AffineJacobian(sim: VAngle -> LatLon, a: real, b: real, c: real, d: real, x: VAngle)
    requires forall u :: sim(u) == LatLon(a * u.v + b * u.eastAngle, c * u.v + d * u.eastAngle)
    ensures Jacobian(sim, x, sim(x)) == Matrices.Matrix(2, 2, [[a, b], [c, d]])
  {
    var j := Jacobian(sim, x, sim(x));
    assert j.cells[0][0] == a && j.cells[0][1] == b;
    assert j.cells[1][0] == c && j.cells[1][1] == d;
    assert j.cells[0] == [a, b];
    assert j.cells[1] == [c, d];
  }

  /** `J.det()` of the 2 x 2 Jacobian: the row-0 expansion, which for this size is ad - bc
      (see `NotSingularInvertible`). */
  function JacobianDet(j: Matrices.Matrix): real
    requires Square(j) && j.rows == 2
  {
    j.cells[0][0] * j.cells[1][1] - j.cells[0][1] * j.cells[1][0]
  }

  /** `|J.det()| < DETERMINANT_ZERO`: the Jacobian counts as singular. */
  predicate Singular(j: Matrices.Matrix)
    requires Square(j) && j.rows == 2
  {
    Abs(JacobianDet(j)) < DETERMINANT_ZERO
  }

  /** A Jacobian that is not singular has a non-zero determinant, so `inverse()` succeeds. */
  lemma NotSingularInvertible(j: Matrices.Matrix)
    requires Square(j) && j.rows == 2 && !Singular(j)
    ensures JacobianDet(j) != 0.0 && DetOf(j) == JacobianDet(j) && Inverse(j).Success?
  {
    Determinants.Det2(j);
  }

  /** exp, known only to map non-positive arguments into (0, 1]. */
  ghost predicate ExpBounded(exp: real -> real) {
    forall t :: t <= 0.0 ==> 0.0 < exp(t) <= 1.0
  }

  /** `convCoeff = max(0.1, exp(-CONVERGENCE_COEFFICIENT * err2))`. */
  function Damping(exp: real -> real, err2: real): (c: real)
    requires ExpBounded(exp) && err2 >= 0.0
    ensures 0.1 <= c <= 1.0
    ensures c == 0.1 || c == exp(-CONVERGENCE_COEFFICIENT * err2)
    ensures c >= exp(-CONVERGENCE_COEFFICIENT * err2)
  {
    var e := exp(-CONVERGENCE_COEFFICIENT * err2);
    if 0.1 < e then e else 0.1
  }

  /** `delta = J.inverse() * (goal - y)`: the solution of the linearised landing equation
      J delta = goal - y. */
  function NewtonDelta(j: Matrices.Matrix, r: LatLon): (delta: LatLon)
    requires Square(j) && j.rows == 2 && JacobianDet(j) != 0.0
    ensures j.cells[0][0] * delta.lat + j.cells[0][1] * delta.lon == r.lat
    ensures j.cells[1][0] * delta.lat + j.cells[1][1] * delta.lon == r.lon
  {
    var d := JacobianDet(j);
    var a, b, c, e := j.cells[0][0], j.cells[0][1], j.cells[1][0], j.cells[1][1];
    SolveAlgebra(a, b, c, e, d, r.lat, r.lon);
    LatLon((e / d) * r.lat + (-b / d) * r.lon, (-c / d) * r.lat + (a / d) * r.lon)
  }

  /** The step is the product of the adjugate inverse with the 2 x 1 residual. */
  lemma NewtonDeltaIsInverseProduct(j: Matrices.Matrix, r: LatLon)
    requires Square(j) && j.rows == 2 && JacobianDet(j) != 0.0
    ensures Inverse(j).Success?
    ensures var p := Matrices.Mul(Inverse(j).value, Matrices.Matrix(2, 1, [[r.lat], [r.lon]]));
      NewtonDelta(j, r) == LatLon(p.cells[0][0], p.cells[1][0])
  {
    NewtonDeltaOverDet(j, r);
    Inverse2(j);
    InverseTimesResidual(Inverse(j).value, r, j.cells[0][0], j.cells[0][1], j.cells[1][0], j.cells[1][1], DetOf(j));
  }

  /** A matrix holding the adjugate entries of [[a, b], [c, e]] over its determinant d, times
      the residual, entry by entry. */
  lemma InverseTimesResidual(inv: Matrices.Matrix, r: LatLon, a: real, b: real, c: real, e: real, d: real)
    requires Square(inv) && inv.rows == 2 && d != 0.0
    requires inv.cells[0][0] == e / d && inv.cells[0][1] == -b / d && inv.cells[1][0] == -c / d && inv.cells[1][1] == a / d
    ensures Matrices.Mul(inv, Matrices.Matrix(2, 1, [[r.lat], [r.lon]])).cells[0][0] == (e / d) * r.lat + (-b / d) * r.lon
    ensures Matrices.Mul(inv, Matrices.Matrix(2, 1, [[r.lat], [r.lon]])).cells[1][0] == (-c / d) * r.lat + (a / d) * r.lon
  {
    TimesColumn(inv, r.lat, r.lon, e / d, -b / d, -c / d, a / d);
  }

  /** The 2 x 2 matrix [[m00, m01], [m10, m11]] times the column (x, y). */
  lemma TimesColumn(m: Matrices.Matrix, x: real, y: real, m00: real, m01: real, m10: real, m11: real)
    requires Square(m) && m.rows == 2
    requires m.cells[0][0] == m00 && m.cells[0][1] == m01 && m.cells[1][0] == m10 && m.cells[1][1] == m11
    ensures Matrices.Mul(m, Matrices.Matrix(2, 1, [[x], [y]])).cells[0][0] == m00 * x + m01 * y
    ensures Matrices.Mul(m, Matrices.Matrix(2, 1, [[x], [y]])).cells[1][0] == m10 * x + m11 * y
  {
    var col := Matrices.Matrix(2, 1, [[x], [y]]);
    Matrices.MulEntry2(m, col, 0, 0);
    Matrices.MulEntry2(m, col, 1, 0);
  }

  /** The Newton step with the determinant written as the expansion. */
  lemma NewtonDeltaOverDet(j: Matrices.Matrix, r: LatLon)
    requires Square(j) && j.rows == 2 && JacobianDet(j) != 0.0
    ensures DetOf(j) == JacobianDet(j)
    ensures var a, b, c, e, d := j.cells[0][0], j.cells[0][1], j.cells[1][0], j.cells[1][1], DetOf(j);
      NewtonDelta(j, r) == LatLon((e / d) * r.lat + (-b / d) * r.lon, (-c / d) * r.lat + (a / d) * r.lon)
  {
    Determinants.Det2(j);
  }

  /** [[a, b], [c, e]] applied to [[e, -b], [-c, a]] / (ae - bc) (r0, r1) gives back (r0, r1). */
  lemma SolveAlgebra(a: real, b: real, c: real, e: real, d: real, r0: real, r1: real)
    requires d == a * e - b * c && d != 0.0
    ensures a * ((e / d) * r0 + (-b / d) * r1) + b * ((-c / d) * r0 + (a / d) * r1) == r0
    ensures c * ((e / d) * r0 + (-b / d) * r1) + e * ((-c / d) * r0 + (a / d) * r1) == r1
  {
    assert a * ((e / d) * r0 + (-b / d) * r1) + b * ((-c / d) * r0 + (a / d) * r1) == r0 * ((a * e - b * c) / d);
    assert c * ((e / d) * r0 + (-b / d) * r1) + e * ((-c / d) * r0 + (a / d) * r1) == r1 * ((a * e - b * c) / d);
  }

  /** The guess repair after a step: a negative speed is negated with the east angle turned by
      180 degrees, and the angle is then wrapped with `fmod` by 360 degrees. */
  function Repair(v: real, eastAngle: real): (x: VAngle)
    ensures x.v >= 0.0 && Abs(x.v) == Abs(v)
    ensures -360.0 * NORM_DEG < x.eastAngle < 360.0 * NORM_DEG
    ensures v >= 0.0 ==> x.eastAngle == Fmod(eastAngle, 360.0 * NORM_DEG)
    ensures v < 0.0 ==> x.eastAngle == Fmod(eastAngle + 180.0 * NORM_DEG, 360.0 * NORM_DEG)
  {
    var v', e' := if v < 0.0 then -v else v, if v < 0.0 then eastAngle + 180.0 * NORM_DEG else eastAngle;
    VAngle(v', Fmod(e', 360.0 * NORM_DEG))
  }

  /** The guess moved by the damped Newton step before any repair: speed by delta0 c, angle by
      delta1 c^2. */
  function Advance(x: VAngle, delta: LatLon, c: real): VAngle {
    VAngle(x.v + delta.lat * c, x.eastAngle + delta.lon * c * c)
  }

  /** Still a speed and an east angle the repair leaves alone. */
  predicate InRange(x: VAngle) {
    x.v >= 0.0 && -360.0 * NORM_DEG < x.eastAngle < 360.0 * NORM_DEG
  }

  /** A regular Newton step from `x` with the correction `delta` (the Jacobian's inverse times
      the miss) and the damping `c` (`convCoeff`): the damped move, then the repair, which
      changes nothing when the moved guess is still in range. */
  function NewtonStep(x: VAngle, delta: LatLon, c: real): (x': VAngle)
    ensures InRange(x')
    ensures InRange(Advance(x, delta, c)) ==> x' == Advance(x, delta, c)
    ensures Advance(x, delta, c).v >= 0.0 ==>
      x'.v == Advance(x, delta, c).v &&
      x'.eastAngle == Fmod(Advance(x, delta, c).eastAngle, 360.0 * NORM_DEG)
    ensures Advance(x, delta, c).v < 0.0 ==>
      x'.v == -Advance(x, delta, c).v &&
      x'.eastAngle == Fmod(Advance(x, delta, c).eastAngle + 180.0 * NORM_DEG, 360.0 * NORM_DEG)
  {
    var a := Advance(x, delta, c);
    Repair(a.v, a.eastAngle)
  }

  /** The retry after a singular Jacobian: only the east angle changes, by -30 degrees modulo
      360. */
  function SingularRetry(x: VAngle): (x': VAngle)
    ensures x'.v == x.v && -360.0 * NORM_DEG < x'.eastAngle < 360.0 * NORM_DEG
    ensures x.eastAngle + 330.0 * NORM_DEG >= 0.0 ==> x'.eastAngle >= 0.0
    ensures x.eastAngle + 330.0 * NORM_DEG < 0.0 ==> x'.eastAngle <= 0.0
    ensures var d := (x.eastAngle + 330.0 * NORM_DEG - x'.eastAngle) / (360.0 * NORM_DEG);
      d.Floor as real == d
  {
    VAngle(x.v, Fmod(x.eastAngle + 330.0 * NORM_DEG, 360.0 * NORM_DEG))
  }

  // ---- the search loop ----

  /** Why a run ended: the exit test passed, or the fourth singular Jacobian broke the loop. */
  datatype Stop = Converged | GaveUp

  /** The final internal guess, why the run ended, and how many singular Jacobians it met. */
  datatype Outcome = Outcome(guess: VAngle, stop: Stop, singular: nat)

  /** The loop breaks on the singular Jacobian that takes the count past this. */
  const MAX_SINGULAR: nat := 3

  /** The loop as written, from guess `x` whose landing point the exit test reads from `y`.
      Each pass re-simulates the guess, but the exit test at the head of the next pass reads
      that landing point, i.e. the one of the guess from BEFORE the pass's update. The loop
      has no iteration cap; `fuel` bounds the passes, and running out of it gives None. */
  function AsWritten(sim: VAngle -> LatLon, exp: real -> real, goal: LatLon, x: VAngle, y: LatLon,
                     count: nat, fuel: nat): (r: Option<Outcome>)
    requires ExpBounded(exp) && count <= MAX_SINGULAR
    ensures r.Some? ==> count <= r.value.singular <= MAX_SINGULAR + 1
    ensures r.Some? ==> (r.value.stop == GaveUp <==> r.value.singular == MAX_SINGULAR + 1)
    ensures r.Some? && InRange(x) ==> InRange(r.value.guess)
    ensures r.Some? && r.value.stop == Converged && fuel == 0 ==> r.value.guess == x
    decreases fuel
  {
    if Err2(y, goal) <= LOCATION_TOLERANCE then Some(Outcome(x, Converged, count))
    else if fuel == 0 then None
    else
      var y' := sim(x);
      var j := Jacobian(sim, x, y');
      if Singular(j) then
        var x' := SingularRetry(x);
        if count + 1 > MAX_SINGULAR then Some(Outcome(x', GaveUp, count + 1))
        else AsWritten(sim, exp, goal, x', y', count + 1, fuel - 1)
      else
        AsWritten(sim, exp, goal, NewtonStep(x, NewtonDelta(j, Minus(goal, y')), Damping(exp, Err2(y', goal))),
                  y', count, fuel - 1)
  }

  /** The loop with the exit test reading the landing point of the current guess: simulate,
      test, then step. */
  function Corrected(sim: VAngle -> LatLon, exp: real -> real, goal: LatLon, x: VAngle,
                     count: nat, fuel: nat): (r: Option<Outcome>)
    requires ExpBounded(exp) && count <= MAX_SINGULAR
    ensures r.Some? ==> count <= r.value.singular <= MAX_SINGULAR + 1
    ensures r.Some? ==> (r.value.stop == GaveUp <==> r.value.singular == MAX_SINGULAR + 1)
    ensures r.Some? && InRange(x) ==> InRange(r.value.guess)
    ensures r.Some? && r.value.stop == Converged ==> Err2(sim(r.value.guess), goal) <= LOCATION_TOLERANCE
    decreases fuel
  {
    var y := sim(x);
    if Err2(y, goal) <= LOCATION_TOLERANCE then Some(Outcome(x, Converged, count))
    else if fuel == 0 then None
    else
      var j := Jacobian(sim, x, y);
      if Singular(j) then
        var x' := SingularRetry(x);
        if count + 1 > MAX_SINGULAR then Some(Outcome(x', GaveUp, count + 1))
        else Corrected(sim, exp, goal, x', count + 1, fuel - 1)
      else
        Corrected(sim, exp, goal, NewtonStep(x, NewtonDelta(j, Minus(goal, y)), Damping(exp, Err2(y, goal))),
                  count, fuel - 1)
  }

  /** `getInputs` as written: start from the azimuth guess, simulate it once, run the loop and
      report the final guess in m/s and degrees. */
  function GetInputsAsWritten(sim: VAngle -> LatLon, exp: real -> real, goal: LatLon, azimuth: real, fuel: nat): (r: Option<VAngle>)
    requires ExpBounded(exp) && -180.0 <= azimuth <= 180.0
    ensures r.Some? ==> r.value.v >= 0.0 && -360.0 < r.value.eastAngle < 360.0
  {
    var x := InitialGuess(azimuth);
    var run := AsWritten(sim, exp, goal, x, sim(x), 0, fuel);
    if run.None? then None else Some(Denormalise(run.value.guess))
  }

  /** `getInputs` with the exit test on the current guess: a converged run reports a guess
      whose own landing point is within tolerance of the goal. */
  function GetInputs(sim: VAngle -> LatLon, exp: real -> real, goal: LatLon, azimuth: real, fuel: nat): (r: Option<VAngle>)
    requires ExpBounded(exp) && -180.0 <= azimuth <= 180.0
    ensures r.Some? ==> r.value.v >= 0.0 && -360.0 < r.value.eastAngle < 360.0
    ensures var run := Corrected(sim, exp, goal, InitialGuess(azimuth), 0, fuel);
      run.Some? && run.value.stop == Converged ==>
        r == Some(Denormalise(run.value.guess)) && Err2(sim(run.value.guess), goal) <= LOCATION_TOLERANCE
  {
    var run := Corrected(sim, exp, goal, InitialGuess(azimuth), 0, fuel);
    if run.None? then None else Some(Denormalise(run.value.guess))
  }

  // ---- the stale exit test ----

  /** A simulation that lands on (0, 0) only for east angles 60 and 60.01, and at (1, 0)
      otherwise: flat around every guess, so every Jacobian is singular. */
  ghost predicate TwoHitSimulation(sim: VAngle -> LatLon) {
    forall u :: sim(u) == (if u.eastAngle == 60.0 || u.eastAngle == 60.01 then LatLon(0.0, 0.0) else LatLon(1.0, 0.0))
  }

  lemma FlatJacobian(sim: VAngle -> LatLon, x: VAngle)
    requires TwoHitSimulation(sim)
    requires sim(VAngle(x.v + EPS, x.eastAngle)) == sim(x) && sim(VAngle(x.v, x.eastAngle + EPS)) == sim(x)
    ensures Singular(Jacobian(sim, x, sim(x)))
  {
    var j := Jacobian(sim, x, sim(x));
    assert j.cells[0][0] == 0.0 && j.cells[0][1] == 0.0 && j.cells[1][0] == 0.0 && j.cells[1][1] == 0.0;
  }

  /** A pass of the loop as written that meets a singular Jacobian below the break count. */
  lemma AsWrittenSingularPass(sim: VAngle -> LatLon, exp: real -> real, goal: LatLon, x: VAngle, y: LatLon,
                              count: nat, fuel: nat)
    requires ExpBounded(exp) && count + 1 <= MAX_SINGULAR && fuel > 0
    requires Err2(y, goal) > LOCATION_TOLERANCE && Singular(Jacobian(sim, x, sim(x)))
    ensures AsWritten(sim, exp, goal, x, y, count, fuel) == AsWritten(sim, exp, goal, SingularRetry(x), sim(x), count + 1, fuel - 1)
  {
  }

  /** The same pass with the test moved onto the current guess. */
  lemma CorrectedSingularPass(sim: VAngle -> LatLon, exp: real -> real, goal: LatLon, x: VAngle,
                              count: nat, fuel: nat)
    requires ExpBounded(exp) && count + 1 <= MAX_SINGULAR && fuel > 0
    requires Err2(sim(x), goal) > LOCATION_TOLERANCE && Singular(Jacobian(sim, x, sim(x)))
    ensures Corrected(sim, exp, goal, x, count, fuel) == Corrected(sim, exp, goal, SingularRetry(x), count + 1, fuel - 1)
  {
  }

  lemma Wrap(a: real, r: real)
    requires 360.0 <= a < 720.0 && r == a - 360.0
    ensures Fmod(a, 360.0 * NORM_DEG) == r
  {
    assert 1.0 <= a / 360.0 < 2.0;
    assert Trunc(a / 360.0) == 1;
  }

  /** The retry turns 90 degrees into 60 and 60 into 30. */
  lemma RetryFromNinety(x0: VAngle)
    requires x0 == VAngle(1.0, 90.0)
    ensures SingularRetry(x0) == VAngle(1.0, 60.0)
    ensures SingularRetry(SingularRetry(x0)) == VAngle(1.0, 30.0)
  {
    Wrap(420.0, 60.0);
    Wrap(390.0, 30.0);
  }

  /** Under the two-hit simulation a guess at 90 or 30 degrees misses the goal and one at 60
      lands on it; at all three the Jacobian is singular. */
  lemma TwoHitMiss(sim: VAngle -> LatLon, goal: LatLon, x: VAngle)
    requires TwoHitSimulation(sim) && goal == LatLon(0.0, 0.0)
    requires x.eastAngle == 90.0 || x.eastAngle == 30.0
    ensures Err2(sim(x), goal) > LOCATION_TOLERANCE && Singular(Jacobian(sim, x, sim(x)))
  {
    var far := LatLon(1.0, 0.0);
    assert sim(x) == far;
    assert sim(VAngle(x.v + EPS, x.eastAngle)) == far;
    assert sim(VAngle(x.v, x.eastAngle + EPS)) == far;
    assert Minus(far, goal) == LatLon(1.0, 0.0);
    UnitOff(far, goal);
    FlatJacobian(sim, x);
  }

  lemma UnitOff(y: LatLon, goal: LatLon)
    requires Minus(y, goal) == LatLon(1.0, 0.0)
    ensures Err2(y, goal) == 1.0
  {
  }

  lemma TwoHitLand(sim: VAngle -> LatLon, goal: LatLon, x: VAngle)
    requires TwoHitSimulation(sim) && goal == LatLon(0.0, 0.0) && x.eastAngle == 60.0
    ensures Err2(sim(x), goal) <= LOCATION_TOLERANCE && Singular(Jacobian(sim, x, sim(x)))
  {
    assert sim(x) == goal;
    FlatJacobian(sim, x);
  }

  lemma TwoHitFacts(sim: VAngle -> LatLon, goal: LatLon, x0: VAngle)
    requires TwoHitSimulation(sim) && goal == LatLon(0.0, 0.0) && x0 == VAngle(1.0, 90.0)
    ensures Err2(sim(x0), goal) > LOCATION_TOLERANCE && Singular(Jacobian(sim, x0, sim(x0)))
    ensures Err2(sim(SingularRetry(x0)), goal) <= LOCATION_TOLERANCE
    ensures Singular(Jacobian(sim, SingularRetry(x0), sim(SingularRetry(x0))))
    ensures Err2(sim(SingularRetry(SingularRetry(x0))), goal) > LOCATION_TOLERANCE
  {
    RetryFromNinety(x0);
    TwoHitMiss(sim, goal, x0);
    TwoHitLand(sim, goal, SingularRetry(x0));
    TwoHitMiss(sim, goal, SingularRetry(SingularRetry(x0)));
  }

  /** As written: from the guess (1, 90) the first pass meets a singular Jacobian and turns the
      angle to 60, which lands on the goal; the second pass, still before the test, meets
      another singular Jacobian and turns it to 30; the test then reads the landing point of
      60 and stops, reporting 30, which misses the goal. */
  lemma StaleExit(sim: VAngle -> LatLon, exp: real -> real, goal: LatLon, x0: VAngle, fuel: nat)
    requires TwoHitSimulation(sim) && ExpBounded(exp)
    requires goal == LatLon(0.0, 0.0) && x0 == VAngle(1.0, 90.0) && fuel == 2
    ensures AsWritten(sim, exp, goal, x0, sim(x0), 0, fuel) == Some(Outcome(VAngle(1.0, 30.0), Converged, 2))
    ensures Err2(sim(VAngle(1.0, 30.0)), goal) > LOCATION_TOLERANCE
  {
    TwoHitFacts(sim, goal, x0);
    var x1 := SingularRetry(x0);
    var x2 := SingularRetry(x1);
    AsWrittenSingularPass(sim, exp, goal, x0, sim(x0), 0, fuel);
    AsWrittenSingularPass(sim, exp, goal, x1, sim(x0), 1, fuel - 1);
    ConvergedAsWritten(sim, exp, goal, x2, sim(x1), 2, fuel - 2);
    RetryFromNinety(x0);
  }

  /** The loop as written stops at once when the landing point it reads is within tolerance. */
  lemma ConvergedAsWritten(sim: VAngle -> LatLon, exp: real -> real, goal: LatLon, x: VAngle, y: LatLon,
                           count: nat, fuel: nat)
    requires ExpBounded(exp) && count <= MAX_SINGULAR
    requires Err2(y, goal) <= LOCATION_TOLERANCE
    ensures AsWritten(sim, exp, goal, x, y, count, fuel) == Some(Outcome(x, Converged, count))
  {
  }

  /** The corrected loop stops at once when the current guess lands within tolerance. */
  lemma ConvergedCorrected(sim: VAngle -> LatLon, exp: real -> real, goal: LatLon, x: VAngle,
                           count: nat, fuel: nat)
    requires ExpBounded(exp) && count <= MAX_SINGULAR
    requires Err2(sim(x), goal) <= LOCATION_TOLERANCE
    ensures Corrected(sim, exp, goal, x, count, fuel) == Some(Outcome(x, Converged, count))
  {
  }

  /** Corrected: the same run stops at 60, whose own landing point is the goal. */
  lemma StaleExitCorrected(sim: VAngle -> LatLon, exp: real -> real, goal: LatLon, x0: VAngle, fuel: nat)
    requires TwoHitSimulation(sim) && ExpBounded(exp)
    requires goal == LatLon(0.0, 0.0) && x0 == VAngle(1.0, 90.0) && fuel == 2
    ensures Corrected(sim, exp, goal, x0, 0, fuel) == Some(Outcome(VAngle(1.0, 60.0), Converged, 1))
  {
    TwoHitFacts(sim, goal, x0);
    var x1 := SingularRetry(x0);
    CorrectedSingularPass(sim, exp, goal, x0, 0, fuel);
    ConvergedCorrected(sim, exp, goal, x1, 1, fuel - 1);
    RetryFromNinety(x0);
  }

  /** The azimuth 0 starts the search at (1, 90), so `getInputs` as written reports 1000 m/s
      at 30 degrees for this simulation, a guess that misses the goal, where the corrected
      loop reports 1000 m/s at 60 degrees. */
  lemma StaleExitFromAzimuth(sim: VAngle -> LatLon, exp: real -> real, goal: LatLon, azimuth: real, fuel: nat)
    requires TwoHitSimulation(sim) && ExpBounded(exp)
    requires goal == LatLon(0.0, 0.0) && azimuth == 0.0 && fuel == 2
    ensures GetInputsAsWritten(sim, exp, goal, azimuth, fuel) == Some(VAngle(1000.0, 30.0))
    ensures GetInputs(sim, exp, goal, azimuth, fuel) == Some(VAngle(1000.0, 60.0))
  {
    StaleExitFromAzimuthAsWritten(sim, exp, goal, azimuth, fuel);
    StaleExitFromAzimuthCorrected(sim, exp, goal, azimuth, fuel);
  }

  /** The azimuth 0 starts the search at 1000 m/s and 90 degrees, in normalised units. */
  lemma InitialGuessAtZero(azimuth: real)
    requires azimuth == 0.0
    ensures InitialGuess(azimuth) == VAngle(1.0, 90.0)
  {
    Wrap(450.0, 90.0);
  }

  /** `getInputs` reports the denormalised guess its run ends with. */
  lemma GetInputsAsWrittenReports(sim: VAngle -> LatLon, exp: real -> real, goal: LatLon, azimuth: real, fuel: nat)
    requires ExpBounded(exp) && -180.0 <= azimuth <= 180.0
    ensures var run := AsWritten(sim, exp, goal, InitialGuess(azimuth), sim(InitialGuess(azimuth)), 0, fuel);
      run.Some? ==> GetInputsAsWritten(sim, exp, goal, azimuth, fuel) == Some(Denormalise(run.value.guess))
  {
  }

  lemma GetInputsReports(sim: VAngle -> LatLon, exp: real -> real, goal: LatLon, azimuth: real, fuel: nat)
    requires ExpBounded(exp) && -180.0 <= azimuth <= 180.0
    ensures var run := Corrected(sim, exp, goal, InitialGuess(azimuth), 0, fuel);
      run.Some? ==> GetInputs(sim, exp, goal, azimuth, fuel) == Some(Denormalise(run.value.guess))
  {
  }

  lemma DenormaliseUnit(t: real)
    ensures Denormalise(VAngle(1.0, t)) == VAngle(1000.0, t)
  {
  }

  lemma StaleExitFromAzimuthAsWritten(sim: VAngle -> LatLon, exp: real -> real, goal: LatLon, azimuth: real, fuel: nat)
    requires TwoHitSimulation(sim) && ExpBounded(exp)
    requires goal == LatLon(0.0, 0.0) && azimuth == 0.0 && fuel == 2
    ensures GetInputsAsWritten(sim, exp, goal, azimuth, fuel) == Some(VAngle(1000.0, 30.0))
  {
    InitialGuessAtZero(azimuth);
    StaleExit(sim, exp, goal, InitialGuess(azimuth), fuel);
    GetInputsAsWrittenReports(sim, exp, goal, azimuth, fuel);
    DenormaliseUnit(30.0);
  }

  lemma StaleExitFromAzimuthCorrected(sim: VAngle -> LatLon, exp: real -> real, goal: LatLon, azimuth: real, fuel: nat)
    requires TwoHitSimulation(sim) && ExpBounded(exp)
    requires goal == LatLon(0.0, 0.0) && azimuth == 0.0 && fuel == 2
    ensures GetInputs(sim, exp, goal, azimuth, fuel) == Some(VAngle(1000.0, 60.0))
  {
    InitialGuessAtZero(azimuth);
    StaleExitCorrected(sim, exp, goal, InitialGuess(azimuth), fuel);
    GetInputsReports(sim, exp, goal, azimuth, fuel);
    DenormaliseUnit(60.0);
  }

}
