/** Determinant by cofactor expansion along row 0, the `minor` it recurses through, and the
    adjugate inverse of include/linalg.h. None of these checks is gated by SAFE_MATRICES. */
module Determinants {
  import opened Errors
  import opened Matrices

  const DET_NOT_SQUARE_MSG: string := "Cannot compute determinant of non-square matrix"
  const MINOR_NOT_SQUARE_MSG: string := "Cannot compute minor of non-square matrix"
  const INVERSE_NOT_SQUARE_MSG: string := "Cannot compute inverse of non-square matrix"
  const ZERO_DETERMINANT_MSG: string := "Matrix determinant is 0"

  predicate Square(a: Matrix) {
    a.Valid() && a.rows == a.cols
  }

  /** `x` times the alternating sign (-1)^i that the C++ code keeps in `sign`, `isign` and
      `jsign`; multiplying by 1 or -1 only ever flips the sign. */
  function Signed(i: int, x: real): real
    decreases i
  {
    if i <= 0 then x else -Signed(i - 1, x)
  }

  /** `a` with row `x` and column `y` deleted: the C++ code copies entry (i, j) to
      ((i < x) ? i : i - 1, (j < y) ? j : j - 1) for every i != x and j != y. */
  function Submatrix(a: Matrix, x: int, y: int): (s: Matrix)
    requires Square(a) && 0 <= x < a.rows && 0 <= y < a.rows
    ensures s.Valid() && s.rows == a.rows - 1 && s.cols == a.rows - 1
  {
    var n := a.rows - 1;
    Matrix(n, n, seq(n, i requires 0 <= i < n =>
      seq(n, j requires 0 <= j < n => a.cells[if i < x then i else i + 1][if j < y then j else j + 1])))
  }

  /** Every entry outside row `x` and column `y` survives, shifted up past the deleted row
      and left past the deleted column. */
  lemma SubmatrixKeeps(a: Matrix, x: int, y: int, i: int, j: int)
    requires Square(a) && 0 <= x < a.rows && 0 <= y < a.rows
    requires 0 <= i < a.rows && i != x && 0 <= j < a.rows && j != y
    ensures Submatrix(a, x, y).cells[if i < x then i else i - 1][if j < y then j else j - 1] == a.cells[i][j]
  {
    SubmatrixEntry(a, x, y, if i < x then i else i - 1, if j < y then j else j - 1);
  }

  /** Entry (i, j) of the submatrix comes from row i or i + 1 and column j or j + 1 of `a`,
      whichever skips the deleted row and column. */
  lemma SubmatrixEntry(a: Matrix, x: int, y: int, i: int, j: int)
    requires Square(a) && 0 <= x < a.rows && 0 <= y < a.rows && 0 <= i < a.rows - 1 && 0 <= j < a.rows - 1
    ensures Submatrix(a, x, y).cells[i][j] == a.cells[if i < x then i else i + 1][if j < y then j else j + 1]
  {
  }

  /** `det()` of a square matrix: the entry itself for 1 x 1, otherwise the alternating sum
      of row-0 entries times their minors (an empty sum, 0, for 0 x 0). */
  function DetOf(a: Matrix): real
    requires Square(a)
    decreases a.rows, 2, 0
  {
    if a.rows == 1 then a.cells[0][0] else Expansion(a, a.rows)
  }

  /** The first `k` terms of the row-0 cofactor expansion. */
  function Expansion(a: Matrix, k: nat): real
    requires Square(a) && k <= a.rows
    decreases a.rows, 1, k
  {
    if k == 0 then 0.0
    else Expansion(a, k - 1) + Signed(k - 1, a.cells[0][k - 1] * MinorOf(a, 0, k - 1))
  }

  /** `minor(x, y)` of a square matrix. A 1 x 1 matrix returns its entry, whatever x and y;
      a 0 x 0 matrix yields 0 (the C++ code's degenerate (-1) x (-1) helper has an empty
      expansion); otherwise the determinant of the submatrix without row x and column y. */
  function MinorOf(a: Matrix, x: int, y: int): real
    requires Square(a) && (a.rows <= 1 || (0 <= x < a.rows && 0 <= y < a.rows))
    decreases a.rows, 0, 0
  {
    if a.rows == 0 then 0.0
    else if a.rows == 1 then a.cells[0][0]
    else DetOf(Submatrix(a, x, y))
  }

  /** The signed cofactor (-1)^(i+j) * minor(i, j). */
  function Cofactor(a: Matrix, i: int, j: int): real
    requires Square(a) && (a.rows <= 1 || (0 <= i < a.rows && 0 <= j < a.rows))
  {
    Signed(i + j, MinorOf(a, i, j))
  }

  /** `det()`: a domain error on a non-square matrix. */
  function Det(a: Matrix): (r: Result<real>)
    requires a.Valid()
    ensures r.Success? <==> a.rows == a.cols
    ensures r.Failure? ==> r.error == DomainError(DET_NOT_SQUARE_MSG)
  {
    if a.rows != a.cols then Failure(DomainError(DET_NOT_SQUARE_MSG)) else Success(DetOf(a))
  }

  /** `minor(x, y)`: a domain error on a non-square matrix. */
  function Minor(a: Matrix, x: int, y: int): (r: Result<real>)
    requires a.Valid()
    requires a.rows == a.cols && a.rows > 1 ==> 0 <= x < a.rows && 0 <= y < a.rows
    ensures r.Success? <==> a.rows == a.cols
    ensures r.Failure? ==> r.error == DomainError(MINOR_NOT_SQUARE_MSG)
  {
    if a.rows != a.cols then Failure(DomainError(MINOR_NOT_SQUARE_MSG)) else Success(MinorOf(a, x, y))
  }

  /** `inverse()`: a domain error on a non-square matrix, a runtime error when the determinant
      is 0, and otherwise entry (j, i) = (-1)^(i+j) * minor(i, j) / det. */
  function Inverse(a: Matrix): (r: Result<Matrix>)
    requires a.Valid()
    ensures r.Failure? <==> a.rows != a.cols || DetOf(a) == 0.0
    ensures a.rows != a.cols ==> r == Failure(DomainError(INVERSE_NOT_SQUARE_MSG))
    ensures a.rows == a.cols && DetOf(a) == 0.0 ==> r == Failure(RuntimeError(ZERO_DETERMINANT_MSG))
    ensures r.Success? ==> r.value.Valid() && r.value.rows == a.rows && r.value.cols == a.rows
  {
    if a.rows != a.cols then Failure(DomainError(INVERSE_NOT_SQUARE_MSG))
    else
      var d := DetOf(a);
      if d == 0.0 then Failure(RuntimeError(ZERO_DETERMINANT_MSG))
      else
        var n := a.rows;
        Success(Matrix(n, n, seq(n, j requires 0 <= j < n =>
          seq(n, i requires 0 <= i < n => Cofactor(a, i, j) / d))))
  }

  /** Entry (j, i) of a successful inverse, as the C++ code's double loop assigns it. */
  lemma InverseEntries(a: Matrix)
    requires Square(a) && DetOf(a) != 0.0
    ensures Inverse(a).Success?
    ensures forall j, i :: 0 <= j < a.rows && 0 <= i < a.rows ==>
      Inverse(a).value.cells[j][i] == Cofactor(a, i, j) / DetOf(a)
  {
  }

  /** One entry of a successful inverse. */
  lemma InverseCell(a: Matrix, j: int, i: int)
    requires Square(a) && DetOf(a) != 0.0 && 0 <= j < a.rows && 0 <= i < a.rows
    ensures Inverse(a).Success? && Inverse(a).value.cells[j][i] == Cofactor(a, i, j) / DetOf(a)
  {
    InverseEntries(a);
  }

  // ---- closed forms for the sizes the program inverts ----

  /** Every minor of a 2 x 2 matrix is the entry left over. */
  lemma Minor2(a: Matrix)
    requires Square(a) && a.rows == 2
    ensures MinorOf(a, 0, 0) == a.cells[1][1] && MinorOf(a, 0, 1) == a.cells[1][0]
    ensures MinorOf(a, 1, 0) == a.cells[0][1] && MinorOf(a, 1, 1) == a.cells[0][0]
  {
    assert Submatrix(a, 0, 0).cells[0][0] == a.cells[1][1];
    assert Submatrix(a, 0, 1).cells[0][0] == a.cells[1][0];
    assert Submatrix(a, 1, 0).cells[0][0] == a.cells[0][1];
    assert Submatrix(a, 1, 1).cells[0][0] == a.cells[0][0];
  }

  /** The cofactors of a 2 x 2 matrix. */
  lemma Cofactor2(a: Matrix)
    requires Square(a) && a.rows == 2
    ensures Cofactor(a, 0, 0) == a.cells[1][1] && Cofactor(a, 0, 1) == -a.cells[1][0]
    ensures Cofactor(a, 1, 0) == -a.cells[0][1] && Cofactor(a, 1, 1) == a.cells[0][0]
  {
    Minor2(a);
  }

  /** The expansion of a 2 x 2 matrix is ad - bc. */
  lemma Det2(a: Matrix)
    requires Square(a) && a.rows == 2
    ensures DetOf(a) == a.cells[0][0] * a.cells[1][1] - a.cells[0][1] * a.cells[1][0]
  {
    Minor2(a);
    Expansion2(a);
  }

  /** The row-0 expansion of a 2 x 2 matrix, term by term. */
  lemma Expansion2(a: Matrix)
    requires Square(a) && a.rows == 2
    ensures DetOf(a) == a.cells[0][0] * MinorOf(a, 0, 0) - a.cells[0][1] * MinorOf(a, 0, 1)
  {
    assert Expansion(a, 1) == a.cells[0][0] * MinorOf(a, 0, 0);
  }

  /** The row-0 expansion of a 3 x 3 matrix, term by term. */
  lemma Expansion3(a: Matrix)
    requires Square(a) && a.rows == 3
    ensures DetOf(a) == a.cells[0][0] * MinorOf(a, 0, 0) - a.cells[0][1] * MinorOf(a, 0, 1) + a.cells[0][2] * MinorOf(a, 0, 2)
  {
    assert Expansion(a, 1) == a.cells[0][0] * MinorOf(a, 0, 0);
    assert Expansion(a, 2) == Expansion(a, 1) - a.cells[0][1] * MinorOf(a, 0, 1);
  }

  /** The determinant of the 2 x 2 block of rows r0, r1 and columns c0, c1. */
  function Det2Of(a: Matrix, r0: int, r1: int, c0: int, c1: int): real
    requires a.Valid() && 0 <= r0 < a.rows && 0 <= r1 < a.rows && 0 <= c0 < a.cols && 0 <= c1 < a.cols
  {
    a.cells[r0][c0] * a.cells[r1][c1] - a.cells[r0][c1] * a.cells[r1][c0]
  }

  /** The rows (or columns) a 3 x 3 minor keeps when it drops index `i`, in order. */
  function Kept(i: int): (int, int) {
    (if i == 0 then 1 else 0, if i == 2 then 1 else 2)
  }

  /** The 2 x 2 submatrix of a 3 x 3 matrix holds the rows and columns left over, in order. */
  lemma Submatrix3(a: Matrix, x: int, y: int)
    requires Square(a) && a.rows == 3 && 0 <= x < 3 && 0 <= y < 3
    ensures var s, (r0, r1), (c0, c1) := Submatrix(a, x, y), Kept(x), Kept(y);
      s.cells[0][0] == a.cells[r0][c0] && s.cells[0][1] == a.cells[r0][c1] &&
      s.cells[1][0] == a.cells[r1][c0] && s.cells[1][1] == a.cells[r1][c1]
  {
  }

  /** A minor of a 3 x 3 matrix is the 2 x 2 determinant of the rows and columns left over,
      kept in their order. */
  lemma Minor3(a: Matrix, x: int, y: int)
    requires Square(a) && a.rows == 3 && 0 <= x < 3 && 0 <= y < 3
    ensures MinorOf(a, x, y) == Det2Of(a, Kept(x).0, Kept(x).1, Kept(y).0, Kept(y).1)
  {
    Submatrix3(a, x, y);
    Det2(Submatrix(a, x, y));
  }

  /** The test matrices: det [[1, 2], [3, 4]] = -2 and det [[1, 2], [2, 4]] = 0. */
  lemma SampleDeterminants(a: Matrix, b: Matrix)
    requires Square(a) && a.rows == 2 && a.cells[0] == [1.0, 2.0] && a.cells[1] == [3.0, 4.0]
    requires Square(b) && b.rows == 2 && b.cells[0] == [1.0, 2.0] && b.cells[1] == [2.0, 4.0]
    ensures Det(a) == Success(-2.0) && Det(b) == Success(0.0)
  {
    Det2(a);
    Det2(b);
  }
}
