/** The three-component vector of include/linalg.h (class Vector3), over exact reals. */
module Vectors {
  import opened Errors

  datatype Vector3 = Vector3(x: real, y: real, z: real)

  /** The default constructor: every component zero. */
  const Zero: Vector3 := Vector3(0.0, 0.0, 0.0)

  const OUT_OF_RANGE_MSG: string := "Vector dimension exceeded"
  const BAD_SIZE_MSG: string := "Vector dimension must be 3"

  /** Component `i` of `v` for an index already known to be in range. */
  function Component(v: Vector3, i: int): real
    requires 0 <= i < 3
  {
    if i == 0 then v.x else if i == 1 then v.y else v.z
  }

  /** Read access `v[i]`: the index is range-checked before the switch. */
  function Get(v: Vector3, i: int): (r: Result<real>)
    ensures r.Success? <==> 0 <= i < 3
    ensures r.Failure? ==> r.error == OutOfRange(OUT_OF_RANGE_MSG)
  {
    if i < 0 || i > 2 then Failure(OutOfRange(OUT_OF_RANGE_MSG))
    else Success(Component(v, i))
  }

  /** Write access `v[i] = a`, giving the updated vector. */
  function Set(v: Vector3, i: int, a: real): (r: Result<Vector3>)
    ensures r.Success? <==> 0 <= i < 3
    ensures r.Failure? ==> r.error == OutOfRange(OUT_OF_RANGE_MSG)
    ensures r.Success? ==> Get(r.value, i) == Success(a)
    ensures r.Success? ==> forall j :: j != i ==> Get(r.value, j) == Get(v, j)
  {
    if i < 0 || i > 2 then Failure(OutOfRange(OUT_OF_RANGE_MSG))
    else if i == 0 then Success(v.(x := a))
    else if i == 1 then Success(v.(y := a))
    else Success(v.(z := a))
  }

  /** Construction from a std::vector, which must hold exactly three values. */
  function FromSeq(s: seq<real>): (r: Result<Vector3>)
    ensures r.Success? <==> |s| == 3
    ensures r.Failure? ==> r.error == InvalidArgument(BAD_SIZE_MSG)
    ensures r.Success? ==> forall i :: 0 <= i < 3 ==> Get(r.value, i) == Success(s[i])
  {
    if |s| != 3 then Failure(InvalidArgument(BAD_SIZE_MSG))
    else Success(Vector3(s[0], s[1], s[2]))
  }

  /** The three components in index order. */
  function ToSeq(v: Vector3): seq<real> {
    [v.x, v.y, v.z]
  }

  /** Indexing is a bijection between a vector and its three components. */
  lemma IndexRoundTrip(v: Vector3)
    ensures FromSeq([Get(v, 0).value, Get(v, 1).value, Get(v, 2).value]) == Success(v)
    ensures forall i :: 0 <= i < 3 ==> Get(v, i) == Success(ToSeq(v)[i])
  {
  }

  function Add(a: Vector3, b: Vector3): (r: Vector3)
    ensures forall i :: 0 <= i < 3 ==> Component(r, i) == Component(a, i) + Component(b, i)
  {
    Vector3(a.x + b.x, a.y + b.y, a.z + b.z)
  }

  function Sub(a: Vector3, b: Vector3): (r: Vector3)
    ensures forall i :: 0 <= i < 3 ==> Component(r, i) == Component(a, i) - Component(b, i)
  {
    Vector3(a.x - b.x, a.y - b.y, a.z - b.z)
  }

  /** Subtraction undoes addition, and addition undoes subtraction. */
  lemma AddSubInverse(a: Vector3, b: Vector3)
    ensures Sub(Add(a, b), b) == a
    ensures Add(Sub(a, b), b) == a
    ensures Sub(a, a) == Zero
  {
  }

  /** The dot product `a * b`: the sum of the products of the components, index 0 first. */
  function Dot(a: Vector3, b: Vector3): real {
    a.x * b.x + a.y * b.y + a.z * b.z
  }

  /** `r2()`: the squared length, computed without a square root. */
  function R2(v: Vector3): (r: real)
    ensures r >= 0.0
  {
    v.x * v.x + v.y * v.y + v.z * v.z
  }

  /** Only the zero vector has zero squared length. */
  lemma R2ZeroIff(v: Vector3)
    ensures R2(v) == 0.0 <==> v == Zero
  {
    SquarePositive(v.x);
    SquarePositive(v.y);
    SquarePositive(v.z);
    if R2(v) == 0.0 {
      assert v.x * v.x == 0.0 && v.y * v.y == 0.0 && v.z * v.z == 0.0;
      assert v.x == 0.0 && v.y == 0.0 && v.z == 0.0;
    }
  }

  lemma SquarePositive(a: real)
    ensures a * a >= 0.0
    ensures a * a == 0.0 ==> a == 0.0
  {
    if a < 0.0 {
      assert a * a == (-a) * (-a);
    }
    if a != 0.0 {
      assert (a * a) / a == a;
    }
  }

  /** The dot product is symmetric, bilinear in its first argument, and `v . v` is `r2()`. */
  lemma DotProperties(a: Vector3, b: Vector3, c: Vector3, n: real)
    ensures Dot(a, b) == Dot(b, a)
    ensures Dot(Add(a, b), c) == Dot(a, c) + Dot(b, c)
    ensures Dot(Scale(a, n), b) == n * Dot(a, b)
    ensures Dot(a, a) == R2(a)
  {
  }

  function Cross(v: Vector3, w: Vector3): Vector3 {
    Vector3(v.y * w.z - w.y * v.z,
            v.z * w.x - w.z * v.x,
            v.x * w.y - w.x * v.y)
  }

  /** The cross product is orthogonal to both of its factors. */
  lemma CrossOrthogonal(v: Vector3, w: Vector3)
    ensures Dot(Cross(v, w), v) == 0.0 && Dot(Cross(v, w), w) == 0.0
  {
  }

  /** The cross product cycles the standard basis: i x j = k, j x k = i, k x i = j. */
  lemma CrossCyclesBasis(i: Vector3, j: Vector3, k: Vector3)
    requires i == Vector3(1.0, 0.0, 0.0) && j == Vector3(0.0, 1.0, 0.0) && k == Vector3(0.0, 0.0, 1.0)
    ensures Cross(i, j) == k
    ensures Cross(j, k) == i
    ensures Cross(k, i) == j
  {
  }

  /** Vector-scalar product `v * n`. */
  function Scale(v: Vector3, n: real): (r: Vector3)
    ensures forall i :: 0 <= i < 3 ==> Component(r, i) == Component(v, i) * n
  {
    Vector3(v.x * n, v.y * n, v.z * n)
  }

  /** Scalar-vector product `n * v`, which the C++ code forwards to `v * n`. */
  function ScaleLeft(n: real, v: Vector3): (r: Vector3)
    ensures forall i :: 0 <= i < 3 ==> Component(r, i) == n * Component(v, i)
  {
    Scale(v, n)
  }

  /** Both scalar products agree, and scaling multiplies the squared length by `n^2`. */
  lemma ScaleProperties(v: Vector3, n: real)
    ensures ScaleLeft(n, v) == Scale(v, n)
    ensures R2(Scale(v, n)) == n * n * R2(v)
  {
  }

  /** The sample values of the unit tests, as exact facts. */
  lemma SampleValues()
    ensures Dot(Vector3(1.0, 2.0, 3.0), Vector3(0.0, -1.0, 3.0)) == 7.0
    ensures Scale(Vector3(1.0, 2.0, 3.0), 2.0) == Vector3(2.0, 4.0, 6.0)
    ensures Add(Vector3(1.0, 1.0, 1.0), Vector3(2.0, 2.0, 2.0)) == Vector3(3.0, 3.0, 3.0)
    ensures Sub(Vector3(3.0, 3.0, 3.0), Vector3(2.0, 2.0, 2.0)) == Vector3(1.0, 1.0, 1.0)
    ensures Set(Vector3(2.0, 2.0, 2.0), 3, 1.0).Failure?
  {
  }
}
