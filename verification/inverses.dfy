/** What the adjugate inverse of include/linalg.h satisfies, and where it goes wrong. */
module Inverses {
  import opened Errors
  import opened Matrices
  import opened Determinants
  import Vectors

  /** One entry of the product with the adjugate over `d`: when the row dotted with the
      cofactors is `d` (or 0), the row dotted with the cofactors over `d` is 1 (or 0). */
  lemma AdjugateCell2(x0: real, x1: real, c0: real, c1: real, q0: real, q1: real, d: real, diagonal: bool)
    requires d != 0.0 && q0 == c0 / d && q1 == c1 / d
    requires x0 * c0 + x1 * c1 == if diagonal then d else 0.0
    ensures x0 * q0 + x1 * q1 == if diagonal then 1.0 else 0.0
  {
    assert x0 * q0 + x1 * q1 == (x0 * c0 + x1 * c1) / d;
  }

  /** The three-term counterpart of `AdjugateCell2`. */
  lemma AdjugateCell3(x0: real, x1: real, x2: real, c0: real, c1: real, c2: real,
                      q0: real, q1: real, q2: real, d: real, diagonal: bool)
    requires d != 0.0 && q0 == c0 / d && q1 == c1 / d && q2 == c2 / d
    requires x0 * c0 + x1 * c1 + x2 * c2 == if diagonal then d else 0.0
    ensures x0 * q0 + x1 * q1 + x2 * q2 == if diagonal then 1.0 else 0.0
  {
    assert x0 * q0 + x1 * q1 + x2 * q2 == (x0 * c0 + x1 * c1 + x2 * c2) / d;
  }

  // ---- 2 x 2 ----

  /** The inverse of a 2 x 2 matrix is [[d, -b], [-c, a]] / (ad - bc). */
  lemma Inverse2(a: Matrix)
    requires Square(a) && a.rows == 2 && DetOf(a) != 0.0
    ensures Inverse(a).Success?
    ensures Inverse(a).value.cells[0][0] == a.cells[1][1] / DetOf(a)
    ensures Inverse(a).value.cells[0][1] == -a.cells[0][1] / DetOf(a)
    ensures Inverse(a).value.cells[1][0] == -a.cells[1][0] / DetOf(a)
    ensures Inverse(a).value.cells[1][1] == a.cells[0][0] / DetOf(a)
  {
    Cofactor2(a);
    InverseEntries(a);
    NegatedOver(Cofactor(a, 1, 0), a.cells[0][1], DetOf(a));
    NegatedOver(Cofactor(a, 0, 1), a.cells[1][0], DetOf(a));
  }

  /** A quotient whose numerator is a negation. */
  lemma NegatedOver(c: real, x: real, d: real)
    requires c == -x && d != 0.0
    ensures c / d == -x / d
  {
  }

  /** Expanding row `j` of a 2 x 2 matrix against the cofactors of row `i` gives the
      determinant when `i == j` and 0 otherwise. */
  lemma RowExpansion2(a: Matrix, j: int, i: int)
    requires Square(a) && a.rows == 2 && 0 <= j < 2 && 0 <= i < 2
    ensures a.cells[j][0] * Cofactor(a, i, 0) + a.cells[j][1] * Cofactor(a, i, 1)
         == if i == j then DetOf(a) else 0.0
  {
    var m := a.cells;
    Cofactor2(a);
    Det2(a);
    RowSum2(m[j][0], m[j][1], m[0][0], m[0][1], m[1][0], m[1][1], Cofactor(a, i, 0), Cofactor(a, i, 1), DetOf(a), j, i);
  }

  /** The row-against-cofactor sums of [[p, q], [r, s]], whose cofactor rows are (s, -r) and
      (-q, p): row (x0, x1) number `j` against cofactor row `i` is the determinant d when
      `i == j` and 0 otherwise. */
  lemma RowSum2(x0: real, x1: real, p: real, q: real, r: real, s: real, c0: real, c1: real, d: real, j: int, i: int)
    requires (j == 0 ==> x0 == p && x1 == q) && (j != 0 ==> x0 == r && x1 == s)
    requires (i == 0 ==> c0 == s && c1 == -r) && (i != 0 ==> c0 == -q && c1 == p)
    requires d == p * s - q * r && 0 <= j < 2 && 0 <= i < 2
    ensures x0 * c0 + x1 * c1 == if i == j then d else 0.0
  {
  }

  /** Transposing a 2 x 2 matrix transposes its cofactors. */
  lemma CofactorTranspose2(a: Matrix, i: int, k: int)
    requires Square(a) && a.rows == 2 && 0 <= i < 2 && 0 <= k < 2
    ensures Cofactor(Transpose(a), k, i) == Cofactor(a, i, k)
  {
    Cofactor2(a);
    Cofactor2(Transpose(a));
  }

  /** A 2 x 2 matrix and its transpose have the same determinant. */
  lemma DetTranspose2(a: Matrix)
    requires Square(a) && a.rows == 2
    ensures DetOf(Transpose(a)) == DetOf(a)
  {
    Det2(a);
    Det2(Transpose(a));
  }

  /** Entry (j, i) of a 2 x 2 matrix times its inverse. */
  lemma InverseRightCell2(a: Matrix, j: int, i: int)
    requires Square(a) && a.rows == 2 && DetOf(a) != 0.0 && 0 <= j < 2 && 0 <= i < 2
    ensures Inverse(a).Success? && Mul(a, Inverse(a).value).cells[j][i] == if i == j then 1.0 else 0.0
  {
    InverseCell(a, 0, i);
    InverseCell(a, 1, i);
    RowExpansion2(a, j, i);
    ProductCell2(a, Inverse(a).value, j, i, DetOf(a), Cofactor(a, i, 0), Cofactor(a, i, 1));
  }

  /** Entry (j, i) of `a` times a matrix whose column `i` is (c0, c1) / d, where row `j` of
      `a` against (c0, c1) is `d` on the diagonal and 0 off it. */
  lemma ProductCell2(a: Matrix, inv: Matrix, j: int, i: int, d: real, c0: real, c1: real)
    requires Square(a) && a.rows == 2 && Square(inv) && inv.rows == 2 && 0 <= j < 2 && 0 <= i < 2
    requires d != 0.0 && inv.cells[0][i] == c0 / d && inv.cells[1][i] == c1 / d
    requires a.cells[j][0] * c0 + a.cells[j][1] * c1 == if i == j then d else 0.0
    ensures Mul(a, inv).cells[j][i] == if i == j then 1.0 else 0.0
  {
    MulEntry2(a, inv, j, i);
    AdjugateCell2(a.cells[j][0], a.cells[j][1], c0, c1, inv.cells[0][i], inv.cells[1][i], d, i == j);
  }

  // ---- 3 x 3 ----

  /** The row after `i`, cyclically. */
  function Next(i: int): int {
    if i == 2 then 0 else i + 1
  }

  /** The cofactors of row `i` of a 3 x 3 matrix, as a vector. */
  function CofactorRow(a: Matrix, i: int): Vectors.Vector3
    requires Square(a) && a.rows == 3 && 0 <= i < 3
  {
    Vectors.Vector3(Cofactor(a, i, 0), Cofactor(a, i, 1), Cofactor(a, i, 2))
  }

  /** The signs of the 3 x 3 cofactors. */
  lemma SignedUpToFour(n: int, x: real)
    requires 0 <= n <= 4
    ensures Signed(n, x) == if n == 1 || n == 3 then -x else x
  {
    if n > 0 {
      SignedUpToFour(n - 1, x);
    }
  }

  /** The cofactors of row `i` of a 3 x 3 matrix are the cross product of the next two rows,
      taken cyclically. */
  lemma CofactorRowIsCross(a: Matrix, i: int)
    requires Square(a) && a.rows == 3 && 0 <= i < 3
    ensures CofactorRow(a, i) == Vectors.Cross(RowVector(a, Next(i)), RowVector(a, Next(Next(i))))
  {
    CofactorCyclic(a, i, 0);
    CofactorCyclic(a, i, 1);
    CofactorCyclic(a, i, 2);
    CrossIsDet2(a, Next(i), Next(Next(i)));
  }

  /** Cofactor (i, j) of a 3 x 3 matrix as the 2 x 2 determinant of the next two rows taken
      cyclically, negated in the middle column. */
  lemma CofactorCyclic(a: Matrix, i: int, j: int)
    requires Square(a) && a.rows == 3 && 0 <= i < 3 && 0 <= j < 3
    ensures Cofactor(a, i, j) == if j == 1 then -Det2Of(a, Next(i), Next(Next(i)), Kept(j).0, Kept(j).1)
                                 else Det2Of(a, Next(i), Next(Next(i)), Kept(j).0, Kept(j).1)
  {
    CofactorsOf(a, i, j);
    if i == 1 {
      Det2Swap(a, 0, 2, Kept(j).0, Kept(j).1);
    }
  }

  /** Exchanging the two rows negates a 2 x 2 determinant. */
  lemma Det2Swap(a: Matrix, r0: int, r1: int, c0: int, c1: int)
    requires a.Valid() && 0 <= r0 < a.rows && 0 <= r1 < a.rows && 0 <= c0 < a.cols && 0 <= c1 < a.cols
    ensures Det2Of(a, r1, r0, c0, c1) == -Det2Of(a, r0, r1, c0, c1)
  {
  }

  /** The cross product of two rows of a 3 x 3 matrix, component by component, as 2 x 2
      determinants of those rows. */
  lemma CrossIsDet2(a: Matrix, p: int, q: int)
    requires Square(a) && a.rows == 3 && 0 <= p < 3 && 0 <= q < 3
    ensures Vectors.Cross(RowVector(a, p), RowVector(a, q)) ==
      Vectors.Vector3(Det2Of(a, p, q, 1, 2), -Det2Of(a, p, q, 0, 2), Det2Of(a, p, q, 0, 1))
  {
  }

  /** Cofactor (i, j) of a 3 x 3 matrix as the signed 2 x 2 determinant it expands to. */
  lemma CofactorsOf(a: Matrix, i: int, j: int)
    requires Square(a) && a.rows == 3 && 0 <= i < 3 && 0 <= j < 3
    ensures Cofactor(a, i, j) == if (i + j) % 2 == 1 then -Det2Of(a, Kept(i).0, Kept(i).1, Kept(j).0, Kept(j).1)
                                 else Det2Of(a, Kept(i).0, Kept(i).1, Kept(j).0, Kept(j).1)
  {
    Minor3(a, i, j);
    SignedUpToFour(i + j, MinorOf(a, i, j));
  }

  /** The triple product is invariant under cyclic rotation of its factors. */
  lemma TripleProductCycles(u: Vectors.Vector3, v: Vectors.Vector3, w: Vectors.Vector3)
    ensures Vectors.Dot(u, Vectors.Cross(v, w)) == Vectors.Dot(v, Vectors.Cross(w, u))
  {
  }

  /** The determinant of a 3 x 3 matrix is the triple product of its rows. */
  lemma DetIsTripleProduct(a: Matrix)
    requires Square(a) && a.rows == 3
    ensures DetOf(a) == Vectors.Dot(RowVector(a, 0), Vectors.Cross(RowVector(a, 1), RowVector(a, 2)))
  {
    DetByCofactors3(a);
    CofactorRowIsCross(a, 0);
  }

  /** The determinant is the expansion along row 0 by cofactors. */
  lemma DetByCofactors3(a: Matrix)
    requires Square(a) && a.rows == 3
    ensures DetOf(a) == a.cells[0][0] * Cofactor(a, 0, 0) + a.cells[0][1] * Cofactor(a, 0, 1) + a.cells[0][2] * Cofactor(a, 0, 2)
  {
    Expansion3(a);
    SignedUpToFour(1, MinorOf(a, 0, 1));
  }

  /** A vector dotted with a cross product one of whose factors it is gives 0. */
  lemma DotCrossFactor(x: Vectors.Vector3, u: Vectors.Vector3, v: Vectors.Vector3)
    requires x == u || x == v
    ensures Vectors.Dot(x, Vectors.Cross(u, v)) == 0.0
  {
    Vectors.CrossOrthogonal(u, v);
  }

  /** Row `i` against the cross product of the two rows after it is the determinant. */
  lemma TripleProductAt(a: Matrix, i: int)
    requires Square(a) && a.rows == 3 && 0 <= i < 3
    ensures Vectors.Dot(RowVector(a, i), Vectors.Cross(RowVector(a, Next(i)), RowVector(a, Next(Next(i))))) == DetOf(a)
  {
    DetIsTripleProduct(a);
    if i == 1 {
      TripleProductCycles(RowVector(a, 0), RowVector(a, 1), RowVector(a, 2));
    } else if i == 2 {
      TripleProductCycles(RowVector(a, 2), RowVector(a, 0), RowVector(a, 1));
    }
  }

  /** Row `j` dotted with the cofactors of row `i`, entry by entry. */
  lemma RowDotCofactors(a: Matrix, j: int, i: int)
    requires Square(a) && a.rows == 3 && 0 <= j < 3 && 0 <= i < 3
    ensures Vectors.Dot(RowVector(a, j), CofactorRow(a, i))
         == a.cells[j][0] * Cofactor(a, i, 0) + a.cells[j][1] * Cofactor(a, i, 1) + a.cells[j][2] * Cofactor(a, i, 2)
  {
  }

  /** Expanding row `j` of a 3 x 3 matrix against the cofactors of row `i` gives the
      determinant when `i == j` and 0 otherwise (Laplace expansion and its alien-cofactor
      counterpart). */
  lemma RowExpansion3(a: Matrix, j: int, i: int)
    requires Square(a) && a.rows == 3 && 0 <= j < 3 && 0 <= i < 3
    ensures a.cells[j][0] * Cofactor(a, i, 0) + a.cells[j][1] * Cofactor(a, i, 1) + a.cells[j][2] * Cofactor(a, i, 2)
         == if i == j then DetOf(a) else 0.0
  {
    RowDotCofactors(a, j, i);
    CofactorRowIsCross(a, i);
    var u, v := RowVector(a, Next(i)), RowVector(a, Next(Next(i)));
    if i == j {
      TripleProductAt(a, i);
    } else if j == Next(i) {
      DotCrossFactor(RowVector(a, j), u, v);
    } else {
      assert j == Next(Next(i));
      DotCrossFactor(RowVector(a, j), u, v);
    }
  }

  /** Transposing a 3 x 3 matrix transposes its minors. */
  lemma MinorTranspose3(a: Matrix, i: int, k: int)
    requires Square(a) && a.rows == 3 && 0 <= i < 3 && 0 <= k < 3
    ensures MinorOf(Transpose(a), k, i) == MinorOf(a, i, k)
  {
    Minor3(a, i, k);
    Minor3(Transpose(a), k, i);
  }

  /** Transposing a 3 x 3 matrix transposes its cofactors. */
  lemma CofactorTranspose3(a: Matrix, i: int, k: int)
    requires Square(a) && a.rows == 3 && 0 <= i < 3 && 0 <= k < 3
    ensures Cofactor(Transpose(a), k, i) == Cofactor(a, i, k)
  {
    MinorTranspose3(a, i, k);
    assert k + i == i + k;
  }

  /** The triple product of the rows equals that of the columns. */
  lemma TripleProductTranspose(m00: real, m01: real, m02: real, m10: real, m11: real, m12: real,
                               m20: real, m21: real, m22: real)
    ensures Vectors.Dot(Vectors.Vector3(m00, m01, m02), Vectors.Cross(Vectors.Vector3(m10, m11, m12), Vectors.Vector3(m20, m21, m22)))
         == Vectors.Dot(Vectors.Vector3(m00, m10, m20), Vectors.Cross(Vectors.Vector3(m01, m11, m21), Vectors.Vector3(m02, m12, m22)))
  {
  }

  /** A 3 x 3 matrix and its transpose have the same determinant. */
  lemma DetTranspose3(a: Matrix)
    requires Square(a) && a.rows == 3
    ensures DetOf(Transpose(a)) == DetOf(a)
  {
    var m := a.cells;
    DetIsTripleProduct(a);
    DetIsTripleProduct(Transpose(a));
    TripleProductTranspose(m[0][0], m[0][1], m[0][2], m[1][0], m[1][1], m[1][2], m[2][0], m[2][1], m[2][2]);
  }

  /** Entry (j, i) of a 3 x 3 matrix times its inverse. */
  lemma InverseRightCell3(a: Matrix, j: int, i: int)
    requires Square(a) && a.rows == 3 && DetOf(a) != 0.0 && 0 <= j < 3 && 0 <= i < 3
    ensures Inverse(a).Success? && Mul(a, Inverse(a).value).cells[j][i] == if i == j then 1.0 else 0.0
  {
    InverseCell(a, 0, i);
    InverseCell(a, 1, i);
    InverseCell(a, 2, i);
    RowExpansion3(a, j, i);
    ProductCell3(a, Inverse(a).value, j, i, DetOf(a), Cofactor(a, i, 0), Cofactor(a, i, 1), Cofactor(a, i, 2));
  }

  /** Entry (j, i) of `a` times a matrix whose column `i` is (c0, c1, c2) / d, where row `j`
      of `a` against (c0, c1, c2) is `d` on the diagonal and 0 off it. */
  lemma ProductCell3(a: Matrix, inv: Matrix, j: int, i: int, d: real, c0: real, c1: real, c2: real)
    requires Square(a) && a.rows == 3 && Square(inv) && inv.rows == 3 && 0 <= j < 3 && 0 <= i < 3
    requires d != 0.0 && inv.cells[0][i] == c0 / d && inv.cells[1][i] == c1 / d && inv.cells[2][i] == c2 / d
    requires a.cells[j][0] * c0 + a.cells[j][1] * c1 + a.cells[j][2] * c2 == if i == j then d else 0.0
    ensures Mul(a, inv).cells[j][i] == if i == j then 1.0 else 0.0
  {
    MulEntry3(a, inv, j, i);
    AdjugateCell3(a.cells[j][0], a.cells[j][1], a.cells[j][2], c0, c1, c2,
      inv.cells[0][i], inv.cells[1][i], inv.cells[2][i], d, i == j);
  }

  // ---- the sizes the program inverts ----

  /** The sizes for which the adjugate inverse is proved two-sided. */
  predicate Invertible(a: Matrix) {
    Square(a) && 2 <= a.rows <= 3 && DetOf(a) != 0.0
  }

  /** Transposing transposes the cofactors and keeps the determinant. */
  lemma TransposeCofactors(a: Matrix)
    requires Square(a) && 2 <= a.rows <= 3
    ensures DetOf(Transpose(a)) == DetOf(a)
    ensures forall i, k :: 0 <= i < a.rows && 0 <= k < a.rows ==> Cofactor(Transpose(a), k, i) == Cofactor(a, i, k)
  {
    if a.rows == 2 {
      DetTranspose2(a);
      forall i, k | 0 <= i < 2 && 0 <= k < 2 ensures Cofactor(Transpose(a), k, i) == Cofactor(a, i, k) {
        CofactorTranspose2(a, i, k);
      }
    } else {
      DetTranspose3(a);
      forall i, k | 0 <= i < 3 && 0 <= k < 3 ensures Cofactor(Transpose(a), k, i) == Cofactor(a, i, k) {
        CofactorTranspose3(a, i, k);
      }
    }
  }

  /** The adjugate inverse is a right inverse. */
  lemma InverseRight(a: Matrix)
    requires Invertible(a)
    ensures Inverse(a).Success? && Mul(a, Inverse(a).value) == Id(a.rows)
  {
    InverseEntries(a);
    var prod := Mul(a, Inverse(a).value);
    forall j, i | 0 <= j < a.rows && 0 <= i < a.rows
      ensures prod.cells[j][i] == Id(a.rows).cells[j][i]
    {
      if a.rows == 2 {
        InverseRightCell2(a, j, i);
      } else {
        InverseRightCell3(a, j, i);
      }
    }
    assert Equal(prod, Id(a.rows));
  }

  /** The inverse of the transpose is the transpose of the inverse. */
  lemma InverseTranspose(a: Matrix)
    requires Invertible(a)
    ensures Invertible(Transpose(a))
    ensures Inverse(a).Success? && Inverse(Transpose(a)).Success?
    ensures Inverse(Transpose(a)).value == Transpose(Inverse(a).value)
  {
    var b := Transpose(a);
    TransposeCofactors(a);
    InverseEntries(a);
    InverseEntries(b);
    var lhs, rhs := Inverse(b).value, Transpose(Inverse(a).value);
    assert Equal(lhs, rhs);
  }

  /** The left inverse follows from the right inverse of the transpose. */
  lemma InverseLeft(a: Matrix)
    requires Invertible(a)
    ensures Inverse(a).Success? && Mul(Inverse(a).value, a) == Id(a.rows)
  {
    var b := Transpose(a);
    InverseTranspose(a);
    InverseRight(b);
    var inv := Inverse(a).value;
    assert Mul(b, Transpose(inv)) == Id(a.rows);
    TransposeOfProduct(b, Transpose(inv));
    TransposeInvolution(inv);
    TransposeInvolution(a);
    TransposeIdentity(a.rows);
  }

  /** For a 2 x 2 or 3 x 3 matrix with non-zero determinant the inverse is two-sided. */
  lemma InverseTwoSided(a: Matrix)
    requires Square(a) && 2 <= a.rows <= 3 && DetOf(a) != 0.0
    ensures Inverse(a).Success?
    ensures Mul(a, Inverse(a).value) == Id(a.rows) && Mul(Inverse(a).value, a) == Id(a.rows)
  {
    InverseRight(a);
    InverseLeft(a);
  }
}

/** The 1 x 1 case of the adjugate inverse, as written and as evidently intended. */
module InverseFix {
  import opened Errors
  import opened Matrices
  import opened Determinants
  import opened Inverses

  /** As written: `minor` of a 1 x 1 matrix returns the entry instead of the empty
      determinant 1, so `inverse()` of [[a]] is [[a / a]] = [[1]], which is not an inverse
      unless a = 1. */
  lemma InverseOneByOne(a: Matrix)
    requires Square(a) && a.rows == 1 && a.cells[0][0] != 0.0
    ensures Inverse(a) == Success(Matrix(1, 1, [[1.0]]))
    ensures a.cells[0][0] != 1.0 ==> Mul(a, Inverse(a).value) != Id(1)
  {
    var x := a.cells[0][0];
    InverseEntries(a);
    var inv := Inverse(a).value;
    assert Cofactor(a, 0, 0) == x && DetOf(a) == x;
    assert inv.cells[0][0] == 1.0;
    assert inv.cells[0] == [1.0];
    assert inv.cells == [[1.0]];
    if x != 1.0 {
      SeqDotSingle(a.cells[0], Column(inv, 0));
      assert Mul(a, inv).cells[0][0] == x;
    }
  }

  /** The concrete witness: [[2]] "inverts" to [[1]], and [[2]] [[1]] = [[2]]. */
  lemma InverseOfTwo(a: Matrix)
    requires a == Matrix(1, 1, [[2.0]])
    ensures Inverse(a) == Success(Matrix(1, 1, [[1.0]]))
    ensures Mul(a, Inverse(a).value) == Matrix(1, 1, [[2.0]])
  {
    InverseOneByOne(a);
    SeqDotSingle(a.cells[0], Column(Inverse(a).value, 0));
    assert Mul(a, Inverse(a).value).cells[0] == [2.0];
  }

  /** The adjugate inverse with the 1 x 1 cofactor taken as the empty determinant 1, so that
      [[a]] inverts to [[1 / a]]; every other size is unchanged. */
  function CorrectedInverse(a: Matrix): (r: Result<Matrix>)
    requires a.Valid()
    ensures r.Failure? <==> a.rows != a.cols || DetOf(a) == 0.0
    ensures r.Failure? ==> r == Inverse(a)
    ensures a.rows != 1 ==> r == Inverse(a)
    ensures r.Success? ==> r.value.Valid() && r.value.rows == a.rows && r.value.cols == a.rows
  {
    if Square(a) && a.rows == 1 && DetOf(a) != 0.0 then Success(Matrix(1, 1, [[1.0 / a.cells[0][0]]]))
    else Inverse(a)
  }

  /** The corrected inverse is a two-sided inverse for every size the program inverts. */
  lemma CorrectedInverseTwoSided(a: Matrix)
    requires Square(a) && 1 <= a.rows <= 3 && DetOf(a) != 0.0
    ensures CorrectedInverse(a).Success?
    ensures Mul(a, CorrectedInverse(a).value) == Id(a.rows)
    ensures Mul(CorrectedInverse(a).value, a) == Id(a.rows)
  {
    if a.rows == 1 {
      CorrectedInverseOneByOne(a);
    } else {
      InverseTwoSided(a);
    }
  }

  /** [[a]] times the corrected [[1 / a]] is [[1]] on either side. */
  lemma CorrectedInverseOneByOne(a: Matrix)
    requires Square(a) && a.rows == 1 && DetOf(a) != 0.0
    ensures CorrectedInverse(a) == Success(Matrix(1, 1, [[1.0 / a.cells[0][0]]]))
    ensures Mul(a, CorrectedInverse(a).value) == Id(1) && Mul(CorrectedInverse(a).value, a) == Id(1)
  {
    var x := a.cells[0][0];
    var inv := Matrix(1, 1, [[1.0 / x]]);
    assert DetOf(a) == x;
    Reciprocal(x);
    IdentityOneByOne();
    ProductOneByOne(a, inv);
    var p := a.cells[0][0] * inv.cells[0][0];
    assert p == 1.0;
    assert [p] == [1.0];
    assert Mul(a, inv) == Id(1);
    ProductOneByOne(inv, a);
    assert Mul(inv, a) == Id(1);
  }

  lemma Reciprocal(x: real)
    requires x != 0.0
    ensures x * (1.0 / x) == 1.0 && (1.0 / x) * x == 1.0
  {
  }

  lemma IdentityOneByOne()
    ensures Id(1) == Matrix(1, 1, [[1.0]])
  {
    assert Id(1).cells[0] == [1.0];
  }

  /** The product of two 1 x 1 matrices is the 1 x 1 matrix of the product. */
  lemma ProductOneByOne(a: Matrix, b: Matrix)
    requires a.Valid() && b.Valid() && a.rows == 1 && a.cols == 1 && b.rows == 1 && b.cols == 1
    ensures Mul(a, b) == Matrix(1, 1, [[a.cells[0][0] * b.cells[0][0]]])
  {
    var c := Column(b, 0);
    assert c[0] == b.cells[0][0];
    SeqDotSingle(a.cells[0], c);
    assert Mul(a, b).cells[0][0] == a.cells[0][0] * b.cells[0][0];
    assert Mul(a, b).cells[0] == [a.cells[0][0] * b.cells[0][0]];
    assert Mul(a, b).cells == [[a.cells[0][0] * b.cells[0][0]]];
  }

}
