/** The row-major matrix of include/linalg.h (class Matrix) as compiled there, with
    Math::SAFE_MATRICES false: element access and the dimension checks of `+`, `-` and `*`
    are compiled out, so what the checks would have caught becomes a precondition. */
module Matrices {
  import opened Errors
  import opened Vectors

  /** `cells[j][i]` is the entry in row `j`, column `i` (the C++ code's `data[cols * j + i]`). */
  datatype Matrix = Matrix(rows: nat, cols: nat, cells: seq<seq<real>>) {
    predicate Valid() {
      |cells| == rows && forall j :: 0 <= j < rows ==> |cells[j]| == cols
    }

    predicate IsSquare() {
      rows == cols
    }
  }

  const ZERO_DIMENSION_MSG: string := "Matrix cannot have dimension 0"
  const NOT_3X3_MSG: string := "Matrix must be 3x3 for vector multiplication"

  /** The (rows, cols) constructor: every entry zero. */
  function Zero(rows: nat, cols: nat): (r: Matrix)
    ensures r.Valid() && r.rows == rows && r.cols == cols
    ensures forall j, i :: 0 <= j < rows && 0 <= i < cols ==> r.cells[j][i] == 0.0
  {
    Matrix(rows, cols, seq(rows, _ => seq(cols, _ => 0.0)))
  }

  /** Construction from nested vectors: the first row fixes the width, and only its length's
      worth of each later row is read (a shorter later row would be read out of bounds). */
  function FromRows(v: seq<seq<real>>): (r: Result<Matrix>)
    requires forall j :: 0 <= j < |v| ==> |v[j]| >= |v[0]|
    ensures r.Success? <==> |v| > 0 && |v[0]| > 0
    ensures r.Failure? ==> r.error == InvalidArgument(ZERO_DIMENSION_MSG)
    ensures r.Success? ==> r.value.Valid() && r.value.rows == |v| && r.value.cols == |v[0]|
    ensures r.Success? ==> forall j, i :: 0 <= j < |v| && 0 <= i < |v[0]| ==> r.value.cells[j][i] == v[j][i]
  {
    if |v| == 0 then Failure(InvalidArgument(ZERO_DIMENSION_MSG))
    else if |v[0]| == 0 then Failure(InvalidArgument(ZERO_DIMENSION_MSG))
    else Success(Matrix(|v|, |v[0]|, seq(|v|, j requires 0 <= j < |v| => v[j][..|v[0]|])))
  }

  /** Element read `m(y, x)`; with the checks compiled out the caller must stay in range. */
  function Get(m: Matrix, y: int, x: int): real
    requires m.Valid() && 0 <= y < m.rows && 0 <= x < m.cols
  {
    m.cells[y][x]
  }

  /** Element write `m(y, x) = a`. */
  function Set(m: Matrix, y: int, x: int, a: real): (r: Matrix)
    requires m.Valid() && 0 <= y < m.rows && 0 <= x < m.cols
    ensures r.Valid() && r.rows == m.rows && r.cols == m.cols
    ensures Get(r, y, x) == a
    ensures forall j, i :: 0 <= j < m.rows && 0 <= i < m.cols && (j, i) != (y, x) ==> Get(r, j, i) == Get(m, j, i)
  {
    m.(cells := m.cells[y := m.cells[y][x := a]])
  }

  /** `a == b`: the same dimensions and the same entries, compared column by column. */
  function Equal(a: Matrix, b: Matrix): (r: bool)
    requires a.Valid() && b.Valid()
    ensures r <==> a == b
  {
    var same := a.cols == b.cols && a.rows == b.rows
      && forall i, j :: 0 <= i < a.cols && 0 <= j < a.rows ==> a.cells[j][i] == b.cells[j][i];
    assert same ==> a.cells == b.cells by {
      if same {
        forall j | 0 <= j < a.rows ensures a.cells[j] == b.cells[j] {
        }
      }
    }
    same
  }

  predicate SameShape(a: Matrix, b: Matrix) {
    a.rows == b.rows && a.cols == b.cols
  }

  /** Entrywise combination of two matrices of one shape. */
  function Zip(a: Matrix, b: Matrix, f: (real, real) -> real): (r: Matrix)
    requires a.Valid() && b.Valid() && SameShape(a, b)
    ensures r.Valid() && SameShape(r, a)
    ensures forall j, i :: 0 <= j < a.rows && 0 <= i < a.cols ==> r.cells[j][i] == f(a.cells[j][i], b.cells[j][i])
  {
    Matrix(a.rows, a.cols, seq(a.rows, j requires 0 <= j < a.rows =>
      seq(a.cols, i requires 0 <= i < a.cols => f(a.cells[j][i], b.cells[j][i]))))
  }

  /** `a + b`; the dimension check is compiled out, so the shapes must agree. */
  function Add(a: Matrix, b: Matrix): (r: Matrix)
    requires a.Valid() && b.Valid() && SameShape(a, b)
    ensures r.Valid() && SameShape(r, a)
  {
    Zip(a, b, (p, q) => p + q)
  }

  /** `a - b`; the dimension check is compiled out, so the shapes must agree. */
  function Sub(a: Matrix, b: Matrix): (r: Matrix)
    requires a.Valid() && b.Valid() && SameShape(a, b)
    ensures r.Valid() && SameShape(r, a)
  {
    Zip(a, b, (p, q) => p - q)
  }

  /** Addition is entrywise and commutative, and subtraction undoes it. */
  lemma AddSubProperties(a: Matrix, b: Matrix)
    requires a.Valid() && b.Valid() && SameShape(a, b)
    ensures forall j, i :: 0 <= j < a.rows && 0 <= i < a.cols ==>
      Add(a, b).cells[j][i] == a.cells[j][i] + b.cells[j][i] && Sub(a, b).cells[j][i] == a.cells[j][i] - b.cells[j][i]
    ensures Add(a, b) == Add(b, a)
    ensures Sub(Add(a, b), b) == a
  {
    assert Equal(Add(a, b), Add(b, a));
    assert Equal(Sub(Add(a, b), b), a);
  }

  /** The sum of the products `u[k] * v[k]`, accumulated from index 0 upwards. */
  function SeqDot(u: seq<real>, v: seq<real>): real
    requires |u| == |v|
    decreases |u|
  {
    if |u| == 0 then 0.0 else SeqDot(u[..|u| - 1], v[..|v| - 1]) + u[|u| - 1] * v[|v| - 1]
  }

  /** Column `i` of `m`, top to bottom. */
  function Column(m: Matrix, i: int): (c: seq<real>)
    requires m.Valid() && 0 <= i < m.cols
    ensures |c| == m.rows
  {
    seq(m.rows, k requires 0 <= k < m.rows => m.cells[k][i])
  }

  /** `a * b`: entry (j, i) is row j of `a` dotted with column i of `b`; the dimension check is
      compiled out, so `a`'s width must be `b`'s height. */
  function Mul(a: Matrix, b: Matrix): (r: Matrix)
    requires a.Valid() && b.Valid() && a.cols == b.rows
    ensures r.Valid() && r.rows == a.rows && r.cols == b.cols
  {
    Matrix(a.rows, b.cols, seq(a.rows, j requires 0 <= j < a.rows =>
      seq(b.cols, i requires 0 <= i < b.cols => SeqDot(a.cells[j], Column(b, i)))))
  }

  /** Matrix-scalar product `m * n`. */
  function Scale(m: Matrix, n: real): (r: Matrix)
    requires m.Valid()
    ensures r.Valid() && SameShape(r, m)
    ensures forall j, i :: 0 <= j < m.rows && 0 <= i < m.cols ==> r.cells[j][i] == m.cells[j][i] * n
  {
    Matrix(m.rows, m.cols, seq(m.rows, j requires 0 <= j < m.rows =>
      seq(m.cols, i requires 0 <= i < m.cols => m.cells[j][i] * n)))
  }

  /** Scalar-matrix product `n * m`, which the C++ code forwards to `m * n`. */
  function ScaleLeft(n: real, m: Matrix): (r: Matrix)
    requires m.Valid()
    ensures r.Valid() && SameShape(r, m)
    ensures forall j, i :: 0 <= j < m.rows && 0 <= i < m.cols ==> r.cells[j][i] == n * m.cells[j][i]
  {
    Scale(m, n)
  }

  /** `id(n)`: ones on the diagonal, zeros elsewhere. */
  function Id(n: nat): (r: Matrix)
    ensures r.Valid() && r.rows == n && r.cols == n
    ensures forall j, i :: 0 <= j < n && 0 <= i < n ==> r.cells[j][i] == (if i == j then 1.0 else 0.0)
  {
    Matrix(n, n, seq(n, j => seq(n, i => if i == j then 1.0 else 0.0)))
  }

  /** `transpose()`: a new matrix with the dimensions swapped and entry (i, j) = m(j, i). */
  function Transpose(m: Matrix): (r: Matrix)
    requires m.Valid()
    ensures r.Valid() && r.rows == m.cols && r.cols == m.rows
    ensures forall i, j :: 0 <= i < m.cols && 0 <= j < m.rows ==> r.cells[i][j] == m.cells[j][i]
  {
    Matrix(m.cols, m.rows, seq(m.cols, i requires 0 <= i < m.cols =>
      seq(m.rows, j requires 0 <= j < m.rows => m.cells[j][i])))
  }

  /** Transposing twice gives back the matrix. */
  lemma TransposeInvolution(m: Matrix)
    requires m.Valid()
    ensures Transpose(Transpose(m)) == m
  {
    assert Equal(Transpose(Transpose(m)), m);
  }

  /** The dot product of sequences is symmetric. */
  lemma {:induction false} SeqDotSymmetric(u: seq<real>, v: seq<real>)
    requires |u| == |v|
    ensures SeqDot(u, v) == SeqDot(v, u)
    decreases |u|
  {
    if |u| > 0 {
      SeqDotSymmetric(u[..|u| - 1], v[..|v| - 1]);
    }
  }

  /** The three-term dot product written out. */
  lemma SeqDot3(u: seq<real>, v: seq<real>)
    requires |u| == 3 && |v| == 3
    ensures SeqDot(u, v) == u[0] * v[0] + u[1] * v[1] + u[2] * v[2]
  {
    SeqDot2(u[..2], v[..2]);
  }

  /** The two-term dot product written out. */
  lemma SeqDot2(u: seq<real>, v: seq<real>)
    requires |u| == 2 && |v| == 2
    ensures SeqDot(u, v) == u[0] * v[0] + u[1] * v[1]
  {
    assert SeqDot(u[..1], v[..1]) == SeqDot(u[..1][..0], v[..1][..0]) + u[0] * v[0];
  }

  /** The identity is its own transpose. */
  lemma TransposeIdentity(n: nat)
    ensures Transpose(Id(n)) == Id(n)
  {
    var t := Transpose(Id(n));
    forall j | 0 <= j < n ensures t.cells[j] == Id(n).cells[j] {
    }
  }

  /** The dot product of two one-element sequences. */
  lemma SeqDotSingle(u: seq<real>, v: seq<real>)
    requires |u| == 1 && |v| == 1
    ensures SeqDot(u, v) == u[0] * v[0]
  {
  }

  /** An entry of a product whose inner dimension is 2. */
  lemma MulEntry2(a: Matrix, b: Matrix, j: int, i: int)
    requires a.Valid() && b.Valid() && a.cols == 2 && b.rows == 2
    requires 0 <= j < a.rows && 0 <= i < b.cols
    ensures Mul(a, b).cells[j][i] == a.cells[j][0] * b.cells[0][i] + a.cells[j][1] * b.cells[1][i]
  {
    SeqDot2(a.cells[j], Column(b, i));
  }

  /** An entry of a product whose inner dimension is 3. */
  lemma MulEntry3(a: Matrix, b: Matrix, j: int, i: int)
    requires a.Valid() && b.Valid() && a.cols == 3 && b.rows == 3
    requires 0 <= j < a.rows && 0 <= i < b.cols
    ensures Mul(a, b).cells[j][i] ==
      a.cells[j][0] * b.cells[0][i] + a.cells[j][1] * b.cells[1][i] + a.cells[j][2] * b.cells[2][i]
  {
    SeqDot3(a.cells[j], Column(b, i));
  }

  /** Dotting with the `i`-th unit sequence picks out entry `i`. */
  lemma {:induction false} SeqDotUnit(u: seq<real>, e: seq<real>, i: int)
    requires |u| == |e| && 0 <= i
    requires forall k :: 0 <= k < |e| ==> e[k] == (if k == i then 1.0 else 0.0)
    ensures SeqDot(u, e) == (if i < |u| then u[i] else 0.0)
    decreases |u|
  {
    if |u| > 0 {
      SeqDotUnit(u[..|u| - 1], e[..|e| - 1], i);
    }
  }

  /** The identity is neutral on both sides of the product. */
  lemma MulIdentity(a: Matrix)
    requires a.Valid()
    ensures Mul(Id(a.rows), a) == a
    ensures Mul(a, Id(a.cols)) == a
  {
    var left, right := Mul(Id(a.rows), a), Mul(a, Id(a.cols));
    forall j, i | 0 <= j < a.rows && 0 <= i < a.cols
      ensures left.cells[j][i] == a.cells[j][i] && right.cells[j][i] == a.cells[j][i]
    {
      SeqDotSymmetric(Id(a.rows).cells[j], Column(a, i));
      SeqDotUnit(Column(a, i), Id(a.rows).cells[j], j);
      SeqDotUnit(a.cells[j], Column(Id(a.cols), i), i);
    }
    assert Equal(left, a);
    assert Equal(right, a);
  }

  /** Transposition reverses a product. */
  lemma TransposeOfProduct(a: Matrix, b: Matrix)
    requires a.Valid() && b.Valid() && a.cols == b.rows
    ensures Transpose(Mul(a, b)) == Mul(Transpose(b), Transpose(a))
  {
    var lhs, rhs := Transpose(Mul(a, b)), Mul(Transpose(b), Transpose(a));
    forall i, j | 0 <= i < b.cols && 0 <= j < a.rows ensures lhs.cells[i][j] == rhs.cells[i][j] {
      assert Transpose(b).cells[i] == Column(b, i);
      assert Column(Transpose(a), j) == a.cells[j];
      SeqDotSymmetric(a.cells[j], Column(b, i));
    }
    assert Equal(lhs, rhs);
  }

  /** The three entries of row `r` of a 3 x 3 matrix, as a vector. */
  function RowVector(m: Matrix, r: int): Vector3
    requires m.Valid() && m.rows == 3 && m.cols == 3 && 0 <= r < 3
  {
    Vector3(m.cells[r][0], m.cells[r][1], m.cells[r][2])
  }

  /** `m * v` for a matrix already known to be 3 x 3: component `r` accumulates
      `m(r, c) * v[c]` for c = 0, 1, 2. */
  function Apply(m: Matrix, v: Vector3): (r: Vector3)
    requires m.Valid() && m.rows == 3 && m.cols == 3
    ensures forall k :: 0 <= k < 3 ==> Component(r, k) == Vectors.Dot(RowVector(m, k), v)
  {
    SeqDot3(m.cells[0], ToSeq(v));
    SeqDot3(m.cells[1], ToSeq(v));
    SeqDot3(m.cells[2], ToSeq(v));
    Vector3(SeqDot(m.cells[0], ToSeq(v)), SeqDot(m.cells[1], ToSeq(v)), SeqDot(m.cells[2], ToSeq(v)))
  }

  /** Matrix-vector product `m * v`: this check is not gated, so a matrix that is not 3 x 3 is
      an invalid argument. */
  function MulVec(m: Matrix, v: Vector3): (r: Result<Vector3>)
    requires m.Valid()
    ensures r.Success? <==> m.rows == 3 && m.cols == 3
    ensures r.Failure? ==> r.error == InvalidArgument(NOT_3X3_MSG)
    ensures r.Success? ==> forall k :: 0 <= k < 3 ==> Component(r.value, k) == Vectors.Dot(RowVector(m, k), v)
  {
    if m.rows != 3 || m.cols != 3 then Failure(InvalidArgument(NOT_3X3_MSG))
    else Success(Apply(m, v))
  }

  /** The sample of the unit tests: diag(2, 3, 1) times (7, 6, 2) is (14, 18, 2). */
  lemma SampleMatrixVector(m: Matrix)
    requires m == Matrix(3, 3, [[2.0, 0.0, 0.0], [0.0, 3.0, 0.0], [0.0, 0.0, 1.0]])
    ensures MulVec(m, Vector3(7.0, 6.0, 2.0)) == Success(Vector3(14.0, 18.0, 2.0))
  {
    var r := Apply(m, Vector3(7.0, 6.0, 2.0));
    assert Component(r, 0) == 14.0 && Component(r, 1) == 18.0 && Component(r, 2) == 2.0;
  }

  /** A vector as a 3 x 1 column matrix. */
  function ColumnOf(v: Vector3): (c: Matrix)
    ensures c.Valid() && c.rows == 3 && c.cols == 1
  {
    Matrix(3, 1, [[v.x], [v.y], [v.z]])
  }

  /** The matrix-vector product is the matrix product with the vector as a column. */
  lemma ApplyIsMul(m: Matrix, v: Vector3)
    requires m.Valid() && m.rows == 3 && m.cols == 3
    ensures ColumnOf(Apply(m, v)) == Mul(m, ColumnOf(v))
  {
    assert Column(ColumnOf(v), 0) == ToSeq(v);
    assert Equal(ColumnOf(Apply(m, v)), Mul(m, ColumnOf(v)));
  }
}

