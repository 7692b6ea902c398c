/** The energy search of `optimizeTrajectory` in include/trajectoryoptimization.h: three
    ground angles are kept with the launch each needs and its kinetic energy; the vertex of
    the parabola through the three (angle, energy) points is tried next and replaces the
    worst candidate when it needs less energy. `getInputs` (a whole Newton search over
    simulated flights) is a function parameter from ground angle to launch. */
module TrajectorySearch {
  import opened Errors
  import opened Constants
  import opened TrajectoryOptimization

  /** `m * v * v / 2`: the kinetic energy of launching mass `m` at the speed of `x`. */
  function Energy(m: real, x: VAngle): (e: real)
    ensures m >= 0.0 ==> e >= 0.0
  {
    Vectors.SquarePositive(x.v);
    m * x.v * x.v / 2.0
  }

  /** For a positive mass the energy orders launches by speed squared. */
  lemma EnergyOrder(m: real, x: VAngle, y: VAngle)
    requires m > 0.0
    ensures Energy(m, x) <= Energy(m, y) <==> x.v * x.v <= y.v * y.v
    ensures Energy(m, x) < Energy(m, y) <==> x.v * x.v < y.v * y.v
  {
    HalfMass(m, x.v);
    HalfMass(m, y.v);
    ScaleOrder(m / 2.0, x.v * x.v, y.v * y.v);
  }

  lemma HalfMass(m: real, v: real)
    ensures m * v * v / 2.0 == (m / 2.0) * (v * v)
  {
  }

  lemma ScaleOrder(k: real, a: real, b: real)
    requires k > 0.0
    ensures k * a <= k * b <==> a <= b
    ensures k * a < k * b <==> a < b
  {
    if a <= b {
      assert k * b - k * a == k * (b - a);
    } else {
      assert k * a - k * b == k * (a - b);
    }
  }

  // ---- picking the extreme candidates ----

  /** The index the scan from index 1 with a strict `>` keeps: the first holding the
      largest entry. */
  function MaxIndex(e: seq<real>): (k: nat)
    requires |e| > 0
    ensures k < |e|
    ensures forall i :: 0 <= i < |e| ==> e[i] <= e[k]
    ensures forall i :: 0 <= i < k ==> e[i] < e[k]
  {
    MaxScan(e, 1, 0)
  }

  function MaxScan(e: seq<real>, i: nat, k: nat): (r: nat)
    requires k < i <= |e|
    requires forall j :: 0 <= j < i ==> e[j] <= e[k]
    requires forall j :: 0 <= j < k ==> e[j] < e[k]
    ensures r < |e|
    ensures forall j :: 0 <= j < |e| ==> e[j] <= e[r]
    ensures forall j :: 0 <= j < r ==> e[j] < e[r]
    decreases |e| - i
  {
    if i == |e| then k else MaxScan(e, i + 1, if e[i] > e[k] then i else k)
  }

  /** The index the scan with a strict `<` keeps: the first holding the smallest entry. */
  function MinIndex(e: seq<real>): (k: nat)
    requires |e| > 0
    ensures k < |e|
    ensures forall i :: 0 <= i < |e| ==> e[k] <= e[i]
    ensures forall i :: 0 <= i < k ==> e[k] < e[i]
  {
    MinScan(e, 1, 0)
  }

  function MinScan(e: seq<real>, i: nat, k: nat): (r: nat)
    requires k < i <= |e|
    requires forall j :: 0 <= j < i ==> e[k] <= e[j]
    requires forall j :: 0 <= j < k ==> e[k] < e[j]
    ensures r < |e|
    ensures forall j :: 0 <= j < |e| ==> e[r] <= e[j]
    ensures forall j :: 0 <= j < r ==> e[r] < e[j]
    decreases |e| - i
  {
    if i == |e| then k else MinScan(e, i + 1, if e[i] < e[k] then i else k)
  }

  // ---- the parabola through three points ----

  /** No two of the three angles coincide. */
  predicate Distinct(a: seq<real>)
    requires |a| == 3
  {
    a[0] != a[1] && a[0] != a[2] && a[1] != a[2]
  }

  /** The three points lie on one line. */
  predicate Collinear(a: seq<real>, e: seq<real>)
    requires |a| == 3 && |e| == 3
  {
    (e[0] - e[1]) * (a[0] - a[2]) == (e[0] - e[2]) * (a[0] - a[1])
  }

  /** The next angle to try: with the divided differences d01, d02 and the curvature
      a = (d01 - d02) / (a1 - a2), the vertex (-d01 / a + a0 + a1) / 2. Where a denominator
      vanishes the C++ code divides by zero; the model answers None there. */
  function Vertex(a: seq<real>, e: seq<real>): (t: Option<real>)
    requires |a| == 3 && |e| == 3
    ensures t.None? <==> !Distinct(a) || Collinear(a, e)
  {
    if !Distinct(a) then None
    else
      var d01 := (e[0] - e[1]) / (a[0] - a[1]);
      var d02 := (e[0] - e[2]) / (a[0] - a[2]);
      var c := (d01 - d02) / (a[1] - a[2]);
      CurvatureZeroIff(a, e, d01, d02, c);
      if c == 0.0 then None else Some((-d01 / c + a[0] + a[1]) / 2.0)
  }

  lemma CurvatureZeroIff(a: seq<real>, e: seq<real>, d01: real, d02: real, c: real)
    requires |a| == 3 && |e| == 3 && Distinct(a)
    requires d01 == (e[0] - e[1]) / (a[0] - a[1]) && d02 == (e[0] - e[2]) / (a[0] - a[2])
    requires c == (d01 - d02) / (a[1] - a[2])
    ensures c == 0.0 <==> Collinear(a, e)
  {
    assert c == 0.0 <==> d01 == d02;
    QuotientsEqual(e[0] - e[1], a[0] - a[1], e[0] - e[2], a[0] - a[2]);
  }

  lemma QuotientsEqual(p: real, q: real, r: real, s: real)
    requires q != 0.0 && s != 0.0
    ensures p / q == r / s <==> p * s == r * q
  {
    assert p == (p / q) * q;
    assert r == (r / s) * s;
    if p / q == r / s {
      assert p * s == (p / q) * q * s;
      assert r * q == (r / s) * s * q;
    } else {
      assert p / q - r / s != 0.0;
      assert p * s - r * q == (p / q - r / s) * (q * s);
    }
  }

  /** The vertex formula is exact on parabolas: through three points of A (t - t*)^2 + C
      with A != 0 at distinct angles it returns t*. */
  lemma VertexOfParabola(a: seq<real>, e: seq<real>, curv: real, top: real, base: real)
    requires |a| == 3 && |e| == 3 && Distinct(a) && curv != 0.0
    requires forall i :: 0 <= i < 3 ==> e[i] == curv * (a[i] - top) * (a[i] - top) + base
    ensures Vertex(a, e) == Some(top)
  {
    assert e[0] == curv * (a[0] - top) * (a[0] - top) + base;
    assert e[1] == curv * (a[1] - top) * (a[1] - top) + base;
    assert e[2] == curv * (a[2] - top) * (a[2] - top) + base;
    VertexAlgebra(a[0], a[1], a[2], e[0], e[1], e[2], curv, top, base);
  }

  /** The vertex formula on three points of curv (t - top)^2 + base, entry by entry. */
  lemma VertexAlgebra(a0: real, a1: real, a2: real, e0: real, e1: real, e2: real, curv: real, top: real, base: real)
    requires a0 != a1 && a0 != a2 && a1 != a2 && curv != 0.0
    requires e0 == curv * (a0 - top) * (a0 - top) + base
    requires e1 == curv * (a1 - top) * (a1 - top) + base
    requires e2 == curv * (a2 - top) * (a2 - top) + base
    ensures ((e0 - e1) / (a0 - a1) - (e0 - e2) / (a0 - a2)) / (a1 - a2) == curv
    ensures (-((e0 - e1) / (a0 - a1)) / (((e0 - e1) / (a0 - a1) - (e0 - e2) / (a0 - a2)) / (a1 - a2)) + a0 + a1) / 2.0 == top
  {
    var d01 := (e0 - e1) / (a0 - a1);
    var d02 := (e0 - e2) / (a0 - a2);
    DividedDifference(a0, a1, e0, e1, curv, top, base);
    DividedDifference(a0, a2, e0, e2, curv, top, base);
    assert d01 - d02 == curv * (a1 - a2);
    ProductOverFactor(curv, a1 - a2);
    NegatedOverFactor(curv, a0 + a1 - 2.0 * top);
  }

  lemma ProductOverFactor(x: real, y: real)
    requires y != 0.0
    ensures (x * y) / y == x
  {
  }

  lemma NegatedOverFactor(y: real, w: real)
    requires y != 0.0
    ensures -(y * w) / y == -w
  {
  }

  lemma DividedDifference(x: real, y: real, ex: real, ey: real, curv: real, top: real, base: real)
    requires x != y
    requires ex == curv * (x - top) * (x - top) + base && ey == curv * (y - top) * (y - top) + base
    ensures (ex - ey) / (x - y) == curv * (x + y - 2.0 * top)
  {
    assert ex - ey == curv * (x + y - 2.0 * top) * (x - y);
  }

  // ---- the search ----

  /** The three candidates: ground angles, the launch `getInputs` found for each, and its
      energy. */
  datatype Guesses = Guesses(angles: seq<real>, inputs: seq<VAngle>, energies: seq<real>)

  predicate WellFormed(g: Guesses) {
    |g.angles| == 3 && |g.inputs| == 3 && |g.energies| == 3
  }

  /** Every candidate is what `getInputs` answers for its angle, with its energy. */
  ghost predicate Consistent(getInputs: real -> VAngle, m: real, g: Guesses) {
    WellFormed(g) &&
    forall i :: 0 <= i < 3 ==> g.inputs[i] == getInputs(g.angles[i]) && g.energies[i] == Energy(m, g.inputs[i])
  }

  function Lowest(g: Guesses): real
    requires WellFormed(g)
  {
    g.energies[MinIndex(g.energies)]
  }

  function Highest(g: Guesses): real
    requires WellFormed(g)
  {
    g.energies[MaxIndex(g.energies)]
  }

  /** Candidate `k` becomes angle `t` with launch `x` and energy `en`. */
  function Replace(g: Guesses, k: nat, t: real, x: VAngle, en: real): (g': Guesses)
    requires WellFormed(g) && k < 3
    ensures WellFormed(g')
    ensures g'.angles[k] == t && g'.inputs[k] == x && g'.energies[k] == en
    ensures forall i :: 0 <= i < 3 && i != k ==>
      g'.angles[i] == g.angles[i] && g'.inputs[i] == g.inputs[i] && g'.energies[i] == g.energies[i]
  {
    Guesses(g.angles[k := t], g.inputs[k := x], g.energies[k := en])
  }

  /** Replacing a candidate by what `getInputs` answers for a new angle keeps every
      candidate consistent. */
  lemma ReplaceConsistent(getInputs: real -> VAngle, m: real, g: Guesses, k: nat, t: real)
    requires WellFormed(g) && k < 3
    ensures Consistent(getInputs, m, g) ==>
      Consistent(getInputs, m, Replace(g, k, t, getInputs(t), Energy(m, getInputs(t))))
  {
  }

  /** Why the search ended: the energies agree within tolerance, the vertex needed no less
      energy than the worst candidate, or the vertex was undefined. */
  datatype Ending = WithinTolerance | NoImprovement | Degenerate

  datatype Finish = Finish(guesses: Guesses, ending: Ending)

  /** The `while` loop of `optimizeTrajectory`. It has no iteration cap; `fuel` bounds the
      passes and running out of it gives None. */
  function Search(getInputs: real -> VAngle, m: real, g: Guesses, fuel: nat): (r: Option<Finish>)
    requires WellFormed(g)
    ensures r.Some? ==> WellFormed(r.value.guesses)
    ensures r.Some? && Consistent(getInputs, m, g) ==> Consistent(getInputs, m, r.value.guesses)
    ensures r.Some? ==> Lowest(r.value.guesses) <= Lowest(g) && Highest(r.value.guesses) <= Highest(g)
    ensures r.Some? ==> (r.value.ending == WithinTolerance <==>
      Highest(r.value.guesses) - Lowest(r.value.guesses) <= ENERGY_TOLERANCE)
    ensures r.Some? && r.value.ending != WithinTolerance ==> r.value.guesses == g || fuel > 0
    ensures r.Some? && r.value.ending == Degenerate ==>
      Vertex(r.value.guesses.angles, r.value.guesses.energies).None?
    ensures r.Some? && r.value.ending == NoImprovement ==>
      var f := r.value.guesses;
      Vertex(f.angles, f.energies).Some? && Energy(m, getInputs(Vertex(f.angles, f.energies).value)) >= Highest(f)
    decreases fuel
  {
    var e := g.energies;
    if Highest(g) - Lowest(g) <= ENERGY_TOLERANCE then Some(Finish(g, WithinTolerance))
    else if fuel == 0 then None
    else match Vertex(g.angles, e)
      case None => Some(Finish(g, Degenerate))
      case Some(t) =>
        var x := getInputs(t);
        var k := MaxIndex(e);
        if e[k] > Energy(m, x) then
          var g' := Replace(g, k, t, x, Energy(m, x));
          ReplaceWorst(g, k, t, x, Energy(m, x));
          ReplaceConsistent(getInputs, m, g, k, t);
          Search(getInputs, m, g', fuel - 1)
        else Some(Finish(g, NoImprovement))
  }

  /** Replacing the worst candidate by a cheaper one, while the energies still spread beyond
      the tolerance, raises neither the lowest nor the highest energy. */
  lemma ReplaceWorst(g: Guesses, k: nat, t: real, x: VAngle, en: real)
    requires WellFormed(g) && k == MaxIndex(g.energies) && en < g.energies[k]
    requires Highest(g) - Lowest(g) > ENERGY_TOLERANCE
    ensures Lowest(Replace(g, k, t, x, en)) <= Lowest(g)
    ensures Highest(Replace(g, k, t, x, en)) <= Highest(g)
  {
    var g' := Replace(g, k, t, x, en);
    var lo := MinIndex(g.energies);
    assert lo != k;
    assert g'.energies[lo] == g.energies[lo];
    var hi' := MaxIndex(g'.energies);
    if hi' != k {
      assert g'.energies[hi'] == g.energies[hi'];
    }
  }

  /** The seeds: ground angles 35, 45 and 65 degrees. */
  function Seed(getInputs: real -> VAngle, m: real): (g: Guesses)
    ensures Consistent(getInputs, m, g) && g.angles == [35.0, 45.0, 65.0]
  {
    var x := [getInputs(35.0), getInputs(45.0), getInputs(65.0)];
    Guesses([35.0, 45.0, 65.0], x, [Energy(m, x[0]), Energy(m, x[1]), Energy(m, x[2])])
  }

  /** The answer: speed, east angle and ground angle of a candidate. */
  datatype Launch = Launch(v: real, eastAngle: real, groundAngle: real)

  /** `optimizeTrajectory`: search from the seeds and report the cheapest candidate, first
      among equals, which needs no more energy than any seed. */
  function OptimizeTrajectory(getInputs: real -> VAngle, m: real, fuel: nat): (r: Option<Launch>)
    ensures r.Some? <==> Search(getInputs, m, Seed(getInputs, m), fuel).Some?
    ensures r.Some? ==> getInputs(r.value.groundAngle) == VAngle(r.value.v, r.value.eastAngle)
    ensures r.Some? ==> var en := Energy(m, VAngle(r.value.v, r.value.eastAngle));
      en <= Energy(m, getInputs(35.0)) && en <= Energy(m, getInputs(45.0)) && en <= Energy(m, getInputs(65.0))
    ensures r.Some? ==> var f := Search(getInputs, m, Seed(getInputs, m), fuel).value.guesses;
      exists k :: 0 <= k < 3 && r.value.groundAngle == f.angles[k] && f.energies[k] == Lowest(f) &&
        VAngle(r.value.v, r.value.eastAngle) == f.inputs[k] &&
        forall i :: 0 <= i < k ==> f.energies[i] > f.energies[k]
  {
    var g := Seed(getInputs, m);
    match Search(getInputs, m, g, fuel)
    case None => None
    case Some(f) =>
      var k := MinIndex(f.guesses.energies);
      var x := f.guesses.inputs[k];
      assert f.guesses.energies[k] == Lowest(f.guesses);
      assert Lowest(g) <= g.energies[0] && Lowest(g) <= g.energies[1] && Lowest(g) <= g.energies[2];
      Some(Launch(x.v, x.eastAngle, f.guesses.angles[k]))
  }

  /** When the three energies lie on an upward parabola in the angle and still spread beyond
      the tolerance, the first pass tries exactly its vertex, and keeps it when it is cheaper
      than the worst candidate. */
  lemma ParabolaFirstPass(getInputs: real -> VAngle, m: real, g: Guesses, curv: real, top: real, base: real, fuel: nat)
    requires WellFormed(g) && Distinct(g.angles) && curv > 0.0 && fuel > 0
    requires forall i :: 0 <= i < 3 ==> g.energies[i] == curv * (g.angles[i] - top) * (g.angles[i] - top) + base
    requires Highest(g) - Lowest(g) > ENERGY_TOLERANCE
    ensures var x := getInputs(top);
      Highest(g) > Energy(m, x) ==>
        Search(getInputs, m, g, fuel) == Search(getInputs, m, Replace(g, MaxIndex(g.energies), top, x, Energy(m, x)), fuel - 1)
    ensures Highest(g) <= Energy(m, getInputs(top)) ==> Search(getInputs, m, g, fuel) == Some(Finish(g, NoImprovement))
  {
    VertexOfParabola(g.angles, g.energies, curv, top, base);
  }
}
