/**
 QR factorisation by Gram-Schmidt on the columns (QR.py, QR).

 The columns of A are orthonormalised in order; Q has the resulting vectors
 as its columns and R is Qᵗ A. With exact arithmetic and a true square root,
 Q has orthonormal columns, R is upper triangular with a positive diagonal,
 and Q R == A.
 */
module QRFactor {
  import opened LinAlg
  import opened Wrappers
  import opened GramSchmidt

  lemma {:induction false} TransposeUniform(A: Matrix)
    requires Rect(A)
    ensures Uniform(Transpose(A))
  {
  }

  /** Orthonormalising the columns of A divides by no zero. */
  predicate Factorizable(A: Matrix, sqrt: real -> real)
  {
    Rect(A) && (TransposeUniform(A); Basis(Transpose(A), true, sqrt).Some?)
  }

  /** The orthonormal Gram-Schmidt basis of the columns of A. */
  function ColumnBasis(A: Matrix, sqrt: real -> real): (b: seq<Vector>)
    requires |A| > 0 && Factorizable(A, sqrt)
    ensures IsMatrix(b, Cols(A), |A|)
  {
    TransposeUniform(A);
    Basis(Transpose(A), true, sqrt).value
  }

  /** QR(A): the pair (Q, R), Q with the orthonormal basis of A's columns as its columns and R == Qᵗ A. */
  function QR(A: Matrix, sqrt: real -> real): (qr: (Matrix, Matrix))
    requires |A| > 0 && Cols(A) > 0 && Factorizable(A, sqrt)
    ensures IsMatrix(qr.0, |A|, Cols(A)) && IsMatrix(qr.1, Cols(A), Cols(A))
  {
    var Q := Transpose(ColumnBasis(A, sqrt));
    (Q, MatMul(Transpose(Q), A))
  }

  // ---------------------------------------------------------------------------
  // Shape of Q and R

  /** Column j of Q is basis vector j, and Qᵗ lists the basis vectors. */
  lemma {:induction false} QColumns(A: Matrix, sqrt: real -> real)
    requires |A| > 0 && Cols(A) > 0 && Factorizable(A, sqrt)
    ensures var Q := QR(A, sqrt).0; var b := ColumnBasis(A, sqrt);
      Transpose(Q) == b && forall j :: 0 <= j < Cols(A) ==> Column(Q, j) == b[j]
  {
    var b := ColumnBasis(A, sqrt);
    TransposeTwice(b, Cols(A), |A|);
    forall j | 0 <= j < Cols(A)
      ensures Column(Transpose(b), j) == b[j]
    {
      ColumnOfTranspose(b, Cols(A), |A|, j);
    }
  }

  /** Entry (k, j) of R is the component of column j of A along basis vector k. */
  lemma {:induction false} REntry(A: Matrix, sqrt: real -> real, k: nat, j: nat)
    requires |A| > 0 && Cols(A) > 0 && Factorizable(A, sqrt) && k < Cols(A) && j < Cols(A)
    ensures QR(A, sqrt).1[k][j] == Dot(ColumnBasis(A, sqrt)[k], Transpose(A)[j])
  {
    QColumns(A, sqrt);
  }

  /** All entries of R, as in REntry. */
  lemma {:induction false} REntries(A: Matrix, sqrt: real -> real)
    requires |A| > 0 && Cols(A) > 0 && Factorizable(A, sqrt)
    ensures var R := QR(A, sqrt).1; var b := ColumnBasis(A, sqrt);
      forall k, j :: 0 <= k < Cols(A) && 0 <= j < Cols(A) ==> R[k][j] == Dot(b[k], Transpose(A)[j])
  {
    forall k, j | 0 <= k < Cols(A) && 0 <= j < Cols(A)
      ensures QR(A, sqrt).1[k][j] == Dot(ColumnBasis(A, sqrt)[k], Transpose(A)[j])
    {
      REntry(A, sqrt, k, j);
    }
  }

  /** With a true square root, the columns of Q are orthonormal: Qᵗ Q == I. */
  lemma {:induction false} QOrthonormal(A: Matrix, sqrt: real -> real)
    requires |A| > 0 && Cols(A) > 0 && Factorizable(A, sqrt) && IsSqrt(sqrt)
    ensures var Q := QR(A, sqrt).0; MatMul(Transpose(Q), Q) == Identity(Cols(A))
  {
    var Q := QR(A, sqrt).0;
    var b := ColumnBasis(A, sqrt);
    var c := Cols(A);
    QColumns(A, sqrt);
    TransposeUniform(A);
    BasisOrthogonal(Transpose(A), true, sqrt);
    BasisUnit(Transpose(A), sqrt);
    forall i | 0 <= i < c
      ensures MatMul(b, Q)[i] == Identity(c)[i]
    {
      forall j | 0 <= j < c
        ensures MatMul(b, Q)[i][j] == Identity(c)[i][j]
      {
        assert MatMul(b, Q)[i][j] == Dot(b[i], b[j]);
        if j < i {
          assert Dot(b[j], b[i]) == 0.0;
          DotSym(b[j], b[i]);
        }
      }
    }
  }

  /** R is upper triangular (with exact arithmetic, whatever sqrt is). */
  lemma {:induction false} RUpperTriangular(A: Matrix, sqrt: real -> real)
    requires |A| > 0 && Cols(A) > 0 && Factorizable(A, sqrt)
    ensures var R := QR(A, sqrt).1;
      forall k, j :: 0 <= j < k < Cols(A) ==> R[k][j] == 0.0
  {
    forall k, j | 0 <= j < k < Cols(A)
      ensures QR(A, sqrt).1[k][j] == 0.0
    {
      REntry(A, sqrt, k, j);
      TransposeUniform(A);
      BasisTriangular(Transpose(A), sqrt, k, j);
    }
  }

  /** With a true square root, the diagonal of R is positive. */
  lemma {:induction false} RDiagonalPositive(A: Matrix, sqrt: real -> real)
    requires |A| > 0 && Cols(A) > 0 && Factorizable(A, sqrt) && IsSqrt(sqrt)
    ensures var R := QR(A, sqrt).1;
      forall j :: 0 <= j < Cols(A) ==> R[j][j] > 0.0
  {
    forall j | 0 <= j < Cols(A)
      ensures QR(A, sqrt).1[j][j] > 0.0
    {
      REntry(A, sqrt, j, j);
      TransposeUniform(A);
      BasisDiagonal(Transpose(A), sqrt, j);
    }
  }

  /** Column j of R holds the components of column j of A along the basis. */
  lemma {:induction false} RColumn(A: Matrix, sqrt: real -> real, j: nat)
    requires |A| > 0 && Cols(A) > 0 && Factorizable(A, sqrt) && j < Cols(A)
    ensures var R := QR(A, sqrt).1; var b := ColumnBasis(A, sqrt);
      Column(R, j) == MatVec(b, Transpose(A)[j])
  {
    REntries(A, sqrt);
  }

  /** With a true square root, Q R == A. */
  lemma {:induction false} QRReconstructs(A: Matrix, sqrt: real -> real)
    requires |A| > 0 && Cols(A) > 0 && Factorizable(A, sqrt) && IsSqrt(sqrt)
    ensures var (Q, R) := QR(A, sqrt); MatMul(Q, R) == A
  {
    var (Q, R) := QR(A, sqrt);
    var b := ColumnBasis(A, sqrt);
    var S := Transpose(A);
    var r := |A|;
    var c := Cols(A);
    TransposeUniform(A);
    forall i | 0 <= i < r
      ensures MatMul(Q, R)[i] == A[i]
    {
      forall j | 0 <= j < c
        ensures MatMul(Q, R)[i][j] == A[i][j]
      {
        ReconstructEntry(A, sqrt, i, j);
      }
    }
  }

  lemma {:induction false} ReconstructEntry(A: Matrix, sqrt: real -> real, i: nat, j: nat)
    requires |A| > 0 && Cols(A) > 0 && Factorizable(A, sqrt) && IsSqrt(sqrt)
    requires i < |A| && j < Cols(A)
    ensures var (Q, R) := QR(A, sqrt); MatMul(Q, R)[i][j] == A[i][j]
  {
    var (Q, R) := QR(A, sqrt);
    var b := ColumnBasis(A, sqrt);
    var S := Transpose(A);
    TransposeUniform(A);
    RColumn(A, sqrt, j);
    var x := MatVec(b, S[j]);
    assert Q[i] == Column(b, i);
    assert MatMul(Q, R)[i][j] == Dot(Column(b, i), x);
    DotSym(Column(b, i), x);
    BasisExpansion(S, sqrt, j);
    LinCombAt(x, b, |A|, i);
  }

  // ---------------------------------------------------------------------------
  // Factorising a matrix whose columns are already orthonormal

  /** If Aᵗ A == I then the columns of A are pairwise orthogonal unit vectors. */
  lemma {:induction false} OrthonormalColumns(A: Matrix)
    requires |A| > 0 && Cols(A) > 0 && Rect(A) && MatMul(Transpose(A), A) == Identity(Cols(A))
    ensures var S := Transpose(A);
      PairwiseOrthogonal(S) && forall i :: 0 <= i < |S| ==> Dot(S[i], S[i]) == 1.0
  {
    var S := Transpose(A);
    var c := Cols(A);
    forall i, j | 0 <= i < c && 0 <= j < c
      ensures Dot(S[i], S[j]) == if i == j then 1.0 else 0.0
    {
      assert MatMul(S, A)[i][j] == Dot(S[i], Column(A, j));
      assert Column(A, j) == S[j];
    }
  }

  /** With a true square root, a matrix with orthonormal columns factorises as Q == A and R == I. */
  lemma {:induction false} QROfOrthonormal(A: Matrix, sqrt: real -> real)
    requires |A| > 0 && Cols(A) > 0 && Rect(A) && IsSqrt(sqrt)
    requires MatMul(Transpose(A), A) == Identity(Cols(A))
    ensures Factorizable(A, sqrt) && QR(A, sqrt) == (A, Identity(Cols(A)))
  {
    TransposeUniform(A);
    OrthonormalColumns(A);
    BasisOfOrthonormal(Transpose(A), sqrt);
    TransposeTwice(A, |A|, Cols(A));
  }
}
