/** The always-checked matrix of the top-level linalg.h: element access is bounds-checked
    (width before height) and the arithmetic operators reject incompatible shapes with
    std::invalid_argument, where include/linalg.h compiles those checks out. */
module CheckedMatrices {
  import opened Errors
  import opened Matrices
  import opened Determinants
  import opened Inverses

  const WIDTH_EXCEEDED_MSG: string := "Matrix width exceeded"
  const HEIGHT_EXCEEDED_MSG: string := "Matrix height exceeded"
  const INCOMPATIBLE_MSG: string := "Matrix dimensions are not compatible"

  /** `m(y, x)`: a column index past the width is reported before a row index past the
      height. Negative indices are outside the C++ code's contract. */
  function At(m: Matrix, y: int, x: int): (r: Result<real>)
    requires m.Valid() && 0 <= y && 0 <= x
    ensures r.Success? <==> y < m.rows && x < m.cols
    ensures x >= m.cols ==> r == Failure(OutOfRange(WIDTH_EXCEEDED_MSG))
    ensures x < m.cols && y >= m.rows ==> r == Failure(OutOfRange(HEIGHT_EXCEEDED_MSG))
    ensures r.Success? ==> r.value == Get(m, y, x)
  {
    if x >= m.cols then Failure(OutOfRange(WIDTH_EXCEEDED_MSG))
    else if y >= m.rows then Failure(OutOfRange(HEIGHT_EXCEEDED_MSG))
    else Success(Get(m, y, x))
  }

  /** `m(y, x) = a` through the reference the checked accessor returns. */
  function Update(m: Matrix, y: int, x: int, a: real): (r: Result<Matrix>)
    requires m.Valid() && 0 <= y && 0 <= x
    ensures r.Success? <==> y < m.rows && x < m.cols
    ensures r.Failure? ==> r == Failure(At(m, y, x).error)
    ensures r.Success? ==> r.value.Valid() && r.value.rows == m.rows && r.value.cols == m.cols
    ensures r.Success? ==> At(r.value, y, x) == Success(a)
    ensures r.Success? ==> forall j, i :: 0 <= j && 0 <= i && (j, i) != (y, x) ==> At(r.value, j, i) == At(m, j, i)
  {
    if x >= m.cols then Failure(OutOfRange(WIDTH_EXCEEDED_MSG))
    else if y >= m.rows then Failure(OutOfRange(HEIGHT_EXCEEDED_MSG))
    else Success(Set(m, y, x, a))
  }

  /** `a + b`, rejected unless both shapes agree. */
  function Plus(a: Matrix, b: Matrix): (r: Result<Matrix>)
    requires a.Valid() && b.Valid()
    ensures r.Success? <==> SameShape(a, b)
    ensures r.Failure? ==> r.error == InvalidArgument(INCOMPATIBLE_MSG)
    ensures r.Success? ==> r.value.Valid() && SameShape(r.value, a)
    ensures r.Success? ==> forall j, i :: 0 <= j < a.rows && 0 <= i < a.cols ==>
      r.value.cells[j][i] == a.cells[j][i] + b.cells[j][i]
  {
    if !SameShape(a, b) then Failure(InvalidArgument(INCOMPATIBLE_MSG)) else Success(Add(a, b))
  }

  /** `a - b`, rejected unless both shapes agree. */
  function Minus(a: Matrix, b: Matrix): (r: Result<Matrix>)
    requires a.Valid() && b.Valid()
    ensures r.Success? <==> SameShape(a, b)
    ensures r.Failure? ==> r.error == InvalidArgument(INCOMPATIBLE_MSG)
    ensures r.Success? ==> r.value.Valid() && SameShape(r.value, a)
    ensures r.Success? ==> forall j, i :: 0 <= j < a.rows && 0 <= i < a.cols ==>
      r.value.cells[j][i] == a.cells[j][i] - b.cells[j][i]
  {
    if !SameShape(a, b) then Failure(InvalidArgument(INCOMPATIBLE_MSG)) else Success(Sub(a, b))
  }

  /** `a * b`, rejected unless `a`'s width is `b`'s height. */
  function Times(a: Matrix, b: Matrix): (r: Result<Matrix>)
    requires a.Valid() && b.Valid()
    ensures r.Success? <==> a.cols == b.rows
    ensures r.Failure? ==> r.error == InvalidArgument(INCOMPATIBLE_MSG)
    ensures r.Success? ==> r.value.Valid() && r.value.rows == a.rows && r.value.cols == b.cols
    ensures r.Success? ==> forall j, i :: 0 <= j < a.rows && 0 <= i < b.cols ==>
      r.value.cells[j][i] == SeqDot(a.cells[j], Column(b, i))
  {
    if a.cols != b.rows then Failure(InvalidArgument(INCOMPATIBLE_MSG)) else Success(Mul(a, b))
  }

  /** `like(m, tolerance)`: same shape and every pair of entries closer than the tolerance. */
  predicate Like(a: Matrix, b: Matrix, tolerance: real)
    requires a.Valid() && b.Valid()
  {
    SameShape(a, b) &&
    forall j, i :: 0 <= j < a.rows && 0 <= i < a.cols ==> Close(a.cells[j][i], b.cells[j][i], tolerance)
  }

  /** |u - v| < tolerance, as `like` tests it after converting both entries to double. */
  predicate Close(u: real, v: real, tolerance: real) {
    (if u - v < 0.0 then v - u else u - v) < tolerance
  }

  /** Wherever the unchecked operators are defined, the checked ones agree with them; where
      they are not, the checked ones fail. Addition and subtraction undo each other. */
  lemma CheckedAgreesWithUnchecked(a: Matrix, b: Matrix)
    requires a.Valid() && b.Valid()
    ensures SameShape(a, b) ==> Plus(a, b) == Success(Add(a, b)) && Minus(a, b) == Success(Sub(a, b))
    ensures SameShape(a, b) ==> Minus(Plus(a, b).value, b) == Success(a)
    ensures a.cols == b.rows ==> Times(a, b) == Success(Mul(a, b))
    ensures !SameShape(a, b) ==> Plus(a, b).Failure? && Minus(a, b).Failure?
  {
    if SameShape(a, b) {
      AddSubProperties(a, b);
    }
  }

  /** `like` is reflexive for any positive tolerance, and symmetric. */
  lemma LikeProperties(a: Matrix, b: Matrix, tolerance: real)
    requires a.Valid() && b.Valid()
    ensures tolerance > 0.0 ==> Like(a, a, tolerance)
    ensures Like(a, b, tolerance) <==> Like(b, a, tolerance)
  {
    if tolerance > 0.0 {
      forall j, i | 0 <= j < a.rows && 0 <= i < a.cols
        ensures Close(a.cells[j][i], a.cells[j][i], tolerance)
      {
      }
    }
  }

  /** The product samples of the unit tests: [[1, 2, 3]] [[1], [2], [3]] = [[14]], the
      outer product the other way round, and the rejected 2 x 2 times 3 x 3. */
  lemma SampleProducts(row: Matrix, col: Matrix, a: Matrix, b: Matrix)
    requires row == Matrix(1, 3, [[1.0, 2.0, 3.0]]) && col == Matrix(3, 1, [[1.0], [2.0], [3.0]])
    requires a == Zero(2, 2) && b == Zero(3, 3)
    ensures Times(row, col) == Success(Matrix(1, 1, [[14.0]]))
    ensures Times(col, row) == Success(Matrix(3, 3, [[1.0, 2.0, 3.0], [2.0, 4.0, 6.0], [3.0, 6.0, 9.0]]))
    ensures Times(a, b).Failure? && Plus(a, b).Failure? && Minus(a, b).Failure?
  {
    MulEntry3(row, col, 0, 0);
    assert Mul(row, col).cells[0][0] == 14.0;
    assert Mul(row, col).cells[0] == [14.0];
    assert Mul(row, col).cells == [[14.0]];
    var outer := Mul(col, row);
    forall j, i | 0 <= j < 3 && 0 <= i < 3 ensures outer.cells[j][i] == col.cells[j][0] * row.cells[0][i] {
      SeqDotSingle(col.cells[j], Column(row, i));
    }
    assert outer.cells[0] == [1.0, 2.0, 3.0];
    assert outer.cells[1] == [2.0, 4.0, 6.0];
    assert outer.cells[2] == [3.0, 6.0, 9.0];
    assert outer.cells == [[1.0, 2.0, 3.0], [2.0, 4.0, 6.0], [3.0, 6.0, 9.0]];
  }

  /** The inverse sample of the unit tests: [[1, 2, 3], [3, 4, 5], [8, 10, 0]] has determinant
      24, and its inverse is exact on both sides, so both `like` comparisons hold. */
  lemma SampleInverse(a: Matrix)
    requires Square(a) && a.rows == 3
    requires a.cells[0] == [1.0, 2.0, 3.0] && a.cells[1] == [3.0, 4.0, 5.0] && a.cells[2] == [8.0, 10.0, 0.0]
    ensures DetOf(a) == 24.0 && Inverse(a).Success?
    ensures Like(Mul(a, Inverse(a).value), Mul(Inverse(a).value, a), 0.00000000000001)
    ensures Like(Mul(a, Inverse(a).value), Id(3), 0.00000000000001)
  {
    DetIsTripleProduct(a);
    InverseTwoSided(a);
    LikeProperties(Id(3), Id(3), 0.00000000000001);
  }
}
