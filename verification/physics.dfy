/** The physics helpers of include/physics.h: the ground velocity of a point on the spinning
    Earth, the change between the local (east, north, up) frame and the inertial frame, the
    equations of motion under Newtonian gravity, and the landing test. Sines, cosines and the
    square root are not computed: an angle is carried as the pair of values `sin` and `cos`
    of it, and a square root is a function value known only to square back. */
module Physics {
  import opened Vectors
  import Matrices
  import opened Constants
  import Rk4

  /** An angle given by its sine and cosine. */
  datatype Angle = Angle(sin: real, cos: real)

  predicate OnUnitCircle(a: Angle) {
    a.sin * a.sin + a.cos * a.cos == 1.0
  }

  /** `sqrt` on the non-negative reals: non-negative and squaring back. */
  ghost predicate IsSqrt(sqrt: real -> real) {
    forall x :: 0.0 <= x ==> 0.0 <= sqrt(x) && sqrt(x) * sqrt(x) == x
  }

  /** The point of the Earth's surface at a latitude and longitude, `EARTH_RADIUS * (cos lat
      cos lon, cos lat sin lon, sin lat)`. */
  function Surface(lat: Angle, lon: Angle): Vector3 {
    ScaleLeft(EARTH_RADIUS, Vector3(lat.cos * lon.cos, lat.cos * lon.sin, lat.sin))
  }

  /** `spinningv`: (0, 0, EARTH_ANGULAR_VELOCITY) x the surface point. The ground moves
      due east, perpendicular to its radius, at speed omega * R * cos lat. */
  function Spinningv(lat: Angle, lon: Angle): (r: Vector3)
    ensures r.z == 0.0
    ensures Dot(r, Surface(lat, lon)) == 0.0
    ensures OnUnitCircle(lon) ==>
      R2(r) == (EARTH_ANGULAR_VELOCITY * EARTH_RADIUS * lat.cos) * (EARTH_ANGULAR_VELOCITY * EARTH_RADIUS * lat.cos)
    ensures var k := EARTH_ANGULAR_VELOCITY * EARTH_RADIUS * lat.cos;
      r == Vector3(k * -lon.sin, k * lon.cos, 0.0)
  {
    var r := Cross(Vector3(0.0, 0.0, EARTH_ANGULAR_VELOCITY), Surface(lat, lon));
    CrossOrthogonal(Vector3(0.0, 0.0, EARTH_ANGULAR_VELOCITY), Surface(lat, lon));
    var k := EARTH_ANGULAR_VELOCITY * EARTH_RADIUS * lat.cos;
    assert r.x == -(k * lon.sin) && r.y == k * lon.cos;
    if OnUnitCircle(lon) then
      GroundSpeed(k, lon.sin, lon.cos);
      r
    else r
  }

  lemma GroundSpeed(k: real, s: real, c: real)
    requires s * s + c * c == 1.0
    ensures (-(k * s)) * (-(k * s)) + (k * c) * (k * c) + 0.0 * 0.0 == k * k
  {
    assert (-(k * s)) * (-(k * s)) + (k * c) * (k * c) == k * k * (s * s + c * c);
  }

  /** The matrix whose rows are the local east, north and up directions in inertial
      coordinates. */
  function Basis(lat: Angle, lon: Angle): (m: Matrices.Matrix)
    ensures m.Valid() && m.rows == 3 && m.cols == 3
  {
    Matrices.Matrix(3, 3, [[-lon.sin, lon.cos, 0.0],
                  [-lat.sin * lon.cos, -lat.sin * lon.sin, lat.cos],
                  [lat.cos * lon.cos, lat.cos * lon.sin, lat.sin]])
  }

  /** `localToInertial`: rotate a velocity from the local frame and add the ground velocity. */
  function LocalToInertial(lat: Angle, lon: Angle, v: Vector3): Vector3 {
    Add(Matrices.Apply(Matrices.Transpose(Basis(lat, lon)), v), Spinningv(lat, lon))
  }

  /** `inertialToLocal`: remove the ground velocity and rotate into the local frame. */
  function InertialToLocal(lat: Angle, lon: Angle, v: Vector3): Vector3 {
    Matrices.Apply(Basis(lat, lon), Sub(v, Spinningv(lat, lon)))
  }

  /** The basis applied to a vector, written out. */
  lemma ApplyBasis(lat: Angle, lon: Angle, v: Vector3)
    ensures Matrices.Apply(Basis(lat, lon), v) == Vector3(
      -lon.sin * v.x + lon.cos * v.y + 0.0 * v.z,
      (-lat.sin * lon.cos) * v.x + (-lat.sin * lon.sin) * v.y + lat.cos * v.z,
      (lat.cos * lon.cos) * v.x + (lat.cos * lon.sin) * v.y + lat.sin * v.z)
  {
    var w := Matrices.Apply(Basis(lat, lon), v);
    assert Component(w, 0) == w.x && Component(w, 1) == w.y && Component(w, 2) == w.z;
  }

  /** The transposed basis applied to a vector, written out. */
  lemma ApplyBasisTransposed(lat: Angle, lon: Angle, v: Vector3)
    ensures Matrices.Apply(Matrices.Transpose(Basis(lat, lon)), v) == Vector3(
      -lon.sin * v.x + (-lat.sin * lon.cos) * v.y + (lat.cos * lon.cos) * v.z,
      lon.cos * v.x + (-lat.sin * lon.sin) * v.y + (lat.cos * lon.sin) * v.z,
      0.0 * v.x + lat.cos * v.y + lat.sin * v.z)
  {
    var t := Matrices.Transpose(Basis(lat, lon));
    var w := Matrices.Apply(t, v);
    assert Matrices.RowVector(t, 0) == Vector3(-lon.sin, -lat.sin * lon.cos, lat.cos * lon.cos);
    assert Matrices.RowVector(t, 1) == Vector3(lon.cos, -lat.sin * lon.sin, lat.cos * lon.sin);
    assert Matrices.RowVector(t, 2) == Vector3(0.0, lat.cos, lat.sin);
    assert Component(w, 0) == w.x && Component(w, 1) == w.y && Component(w, 2) == w.z;
  }

  /** The rows of the basis are orthonormal: rotating back after rotating forward is the
      identity, component by component. */
  lemma RotateBack(sl: real, cl: real, so: real, co: real, a: real, b: real, c: real, w0: real, w1: real, w2: real)
    requires sl * sl + cl * cl == 1.0 && so * so + co * co == 1.0
    requires w0 == -so * a + (-sl * co) * b + (cl * co) * c
    requires w1 == co * a + (-sl * so) * b + (cl * so) * c
    requires w2 == 0.0 * a + cl * b + sl * c
    ensures -so * w0 + co * w1 + 0.0 * w2 == a
    ensures (-sl * co) * w0 + (-sl * so) * w1 + cl * w2 == b
    ensures (cl * co) * w0 + (cl * so) * w1 + sl * w2 == c
  {
    assert -so * w0 + co * w1 == a * (so * so + co * co);
    assert (-sl * co) * w0 + (-sl * so) * w1 == sl * sl * b * (so * so + co * co) - sl * cl * c * (so * so + co * co);
    assert (-sl * co) * w0 + (-sl * so) * w1 == sl * sl * b - sl * cl * c;
    assert (cl * co) * w0 + (cl * so) * w1 == cl * cl * c * (so * so + co * co) - sl * cl * b * (so * so + co * co);
    assert (cl * co) * w0 + (cl * so) * w1 == cl * cl * c - sl * cl * b;
    assert cl * w2 == cl * cl * b + sl * cl * c;
    assert sl * w2 == sl * cl * b + sl * sl * c;
  }

  /** The columns of the basis are orthonormal too: rotating forward after rotating back is
      the identity, component by component. */
  lemma RotateForward(sl: real, cl: real, so: real, co: real, a: real, b: real, c: real, w0: real, w1: real, w2: real)
    requires sl * sl + cl * cl == 1.0 && so * so + co * co == 1.0
    requires w0 == -so * a + co * b + 0.0 * c
    requires w1 == (-sl * co) * a + (-sl * so) * b + cl * c
    requires w2 == (cl * co) * a + (cl * so) * b + sl * c
    ensures -so * w0 + (-sl * co) * w1 + (cl * co) * w2 == a
    ensures co * w0 + (-sl * so) * w1 + (cl * so) * w2 == b
    ensures 0.0 * w0 + cl * w1 + sl * w2 == c
  {
    assert (-sl * co) * w1 + (cl * co) * w2 == co * co * a * (sl * sl + cl * cl) + so * co * b * (sl * sl + cl * cl);
    assert -so * w0 + (-sl * co) * w1 + (cl * co) * w2 == a * (so * so + co * co);
    assert (-sl * so) * w1 + (cl * so) * w2 == so * co * a * (sl * sl + cl * cl) + so * so * b * (sl * sl + cl * cl);
    assert co * w0 + (-sl * so) * w1 + (cl * so) * w2 == b * (so * so + co * co);
    assert cl * w1 + sl * w2 == c * (sl * sl + cl * cl);
  }

  /** `inertialToLocal` undoes `localToInertial`: the ground velocity cancels exactly and the
      basis is orthonormal. */
  lemma LocalInertialRoundTrip(lat: Angle, lon: Angle, v: Vector3)
    requires OnUnitCircle(lat) && OnUnitCircle(lon)
    ensures InertialToLocal(lat, lon, LocalToInertial(lat, lon, v)) == v
  {
    var w := Matrices.Apply(Matrices.Transpose(Basis(lat, lon)), v);
    AddSubInverse(w, Spinningv(lat, lon));
    assert Sub(LocalToInertial(lat, lon, v), Spinningv(lat, lon)) == w;
    ApplyBasisTransposed(lat, lon, v);
    ApplyBasis(lat, lon, w);
    RotateBack(lat.sin, lat.cos, lon.sin, lon.cos, v.x, v.y, v.z, w.x, w.y, w.z);
    assert Matrices.Apply(Basis(lat, lon), w) == v;
  }

  /** `localToInertial` undoes `inertialToLocal`. */
  lemma InertialLocalRoundTrip(lat: Angle, lon: Angle, v: Vector3)
    requires OnUnitCircle(lat) && OnUnitCircle(lon)
    ensures LocalToInertial(lat, lon, InertialToLocal(lat, lon, v)) == v
  {
    var u := Sub(v, Spinningv(lat, lon));
    AddSubInverse(v, Spinningv(lat, lon));
    var w := Matrices.Apply(Basis(lat, lon), u);
    assert InertialToLocal(lat, lon, v) == w;
    ApplyBasis(lat, lon, u);
    ApplyBasisTransposed(lat, lon, w);
    RotateForward(lat.sin, lat.cos, lon.sin, lon.cos, u.x, u.y, u.z, w.x, w.y, w.z);
    assert Matrices.Apply(Matrices.Transpose(Basis(lat, lon)), w) == u;
  }

  // ---- the equations of motion ----

  /** The position part (entries 0..2) of a (x, y, z, vx, vy, vz) state. */
  function Position(s: Rk4.Row): Vector3
    requires |s| == 6
  {
    Vector3(s[0], s[1], s[2])
  }

  /** The velocity part (entries 3..5) of a state. */
  function Velocity(s: Rk4.Row): Vector3
    requires |s| == 6
  {
    Vector3(s[3], s[4], s[5])
  }

  /** The state the C++ code packs from a position and a velocity. */
  function Pack(p: Vector3, v: Vector3): (s: Rk4.Row)
    ensures |s| == 6 && Position(s) == p && Velocity(s) == v
  {
    [p.x, p.y, p.z, v.x, v.y, v.z]
  }

  /** `gravitationalDerivatives`: the derivative of position is the velocity, and that of the
      velocity is `factor * position` with `factor = -G * EARTH_MASS / r^3`, r the distance from
      the centre. At the centre itself the C++ code divides by zero; the model takes the
      factor as 0 there. */
  function GravitationalDerivatives(sqrt: real -> real, s: Rk4.Row): (d: Rk4.Row)
    requires IsSqrt(sqrt) && |s| == 6
    ensures |d| == 6 && Position(d) == Velocity(s)
    ensures R2(Position(s)) != 0.0 ==>
      Cross(Velocity(d), Position(s)) == Zero && Dot(Velocity(d), Position(s)) < 0.0
    ensures R2(Position(s)) != 0.0 ==>
      R2(Velocity(d)) * (R2(Position(s)) * R2(Position(s))) == (G * EARTH_MASS) * (G * EARTH_MASS)
  {
    var r := sqrt(s[0] * s[0] + s[1] * s[1] + s[2] * s[2]);
    var factor := if r == 0.0 then 0.0 else -G * EARTH_MASS / (r * r * r);
    var d := [s[3], s[4], s[5], factor * s[0], factor * s[1], factor * s[2]];
    if R2(Position(s)) == 0.0 then d
    else
      assert r * r == R2(Position(s));
      InverseSquare(r, R2(Position(s)), factor, Position(s));
      assert Velocity(d) == Scale(Position(s), factor);
      d
  }

  /** With `r^2 = |p|^2 > 0` and `factor = -GM / r^3`, `factor * p` is anti-parallel to `p`
      and of length GM / r^2. */
  lemma InverseSquare(r: real, q: real, factor: real, p: Vector3)
    requires 0.0 <= r && r * r == q && q == R2(p) && q != 0.0
    requires factor == -G * EARTH_MASS / (r * r * r)
    ensures Cross(Scale(p, factor), p) == Zero
    ensures Dot(Scale(p, factor), p) < 0.0
    ensures R2(Scale(p, factor)) * (q * q) == (G * EARTH_MASS) * (G * EARTH_MASS)
  {
    var gm := G * EARTH_MASS;
    assert r != 0.0;
    assert r * r * r > 0.0 by { assert r > 0.0; }
    assert factor < 0.0;
    DotProperties(p, p, p, factor);
    assert Dot(Scale(p, factor), p) == factor * q;
    ScaleProperties(p, factor);
    assert R2(Scale(p, factor)) == factor * factor * q;
    assert factor * (r * r * r) == -gm;
    assert factor * factor * q * (q * q) == (factor * (r * r * r)) * (factor * (r * r * r)) by {
      assert q * q * q == (r * r * r) * (r * r * r);
    }
  }

  /** `objectInsideEarth`: the squared distance from the centre is below the squared radius. */
  predicate ObjectInsideEarth(s: Rk4.Row)
    requires |s| == 6
  {
    s[0] * s[0] + s[1] * s[1] + s[2] * s[2] < EARTH_RADIUS * EARTH_RADIUS
  }

  /** The landing test holds exactly when the distance from the centre is below the radius. */
  lemma InsideEarthIffBelowRadius(sqrt: real -> real, s: Rk4.Row)
    requires IsSqrt(sqrt) && |s| == 6
    ensures ObjectInsideEarth(s) <==> sqrt(R2(Position(s))) < EARTH_RADIUS
  {
    var q := R2(Position(s));
    var d := sqrt(q);
    assert d * d == q && d >= 0.0;
    SquareBelowIff(d, EARTH_RADIUS);
  }

  /** For non-negative d and positive e, d^2 < e^2 exactly when d < e. */
  lemma SquareBelowIff(d: real, e: real)
    requires 0.0 <= d && 0.0 < e
    ensures d * d < e * e <==> d < e
  {
    assert e * e - d * d == (e - d) * (e + d);
    if d < e {
      PositiveProduct(e - d, e + d);
    } else {
      assert (d - e) * (d + e) >= 0.0;
    }
  }

  lemma PositiveProduct(a: real, b: real)
    requires 0.0 < a && 0.0 < b
    ensures 0.0 < a * b
  {
  }

  /** The derivative handed to the solver. Only six-entry states reach it. */
  function Motion(sqrt: real -> real): (f: Rk4.Row -> Rk4.Row)
    requires IsSqrt(sqrt)
    ensures Rk4.KeepsWidth(f, 6)
  {
    s => if |s| == 6 then GravitationalDerivatives(sqrt, s) else s
  }

  /** The landing test as a total predicate on states. */
  function Landed(s: Rk4.Row): bool {
    |s| == 6 && ObjectInsideEarth(s)
  }

  /** `getFinalPosition`: integrate from the packed state with STEP_SIZE and at most 100000
      advances until the object is inside the Earth. */
  method GetFinalPosition(sqrt: real -> real, initialPos: Vector3, initialV: Vector3) returns (r: Rk4.Solution)
    requires IsSqrt(sqrt)
    ensures r.stepSize == STEP_SIZE && |r.solutions| == 6
    ensures 0 <= r.steps <= 100000
    ensures r.steps < 100000 ==>
      ObjectInsideEarth(r.solutions) && r.solutions == Rk4.Iterate(Motion(sqrt), STEP_SIZE, Pack(initialPos, initialV), r.steps + 1)
    ensures r.steps == 100000 ==>
      r.solutions == Rk4.Iterate(Motion(sqrt), STEP_SIZE, Pack(initialPos, initialV), 100000)
    ensures forall k :: 1 <= k <= r.steps ==>
      !Landed(Rk4.Iterate(Motion(sqrt), STEP_SIZE, Pack(initialPos, initialV), k))
  {
    r := Rk4.Solve(STEP_SIZE, Pack(initialPos, initialV), Motion(sqrt), 100000, Landed);
  }
}
