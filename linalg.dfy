/**
 Dense vectors and matrices over exact reals: the small part of a numeric
 array library that the QR routines lean on (dot products, elementwise
 arithmetic, transposes, matrix products, the identity matrix).
 Every sum is taken from the left, by recursion on the last element.
 */
module LinAlg {

  type Vector = seq<real>
  type Matrix = seq<seq<real>>

  // ---------------------------------------------------------------------------
  // Vectors

  function Dot(u: Vector, v: Vector): real
    requires |u| == |v|
    decreases |u|
  {
    if |u| == 0 then 0.0 else Dot(u[..|u| - 1], v[..|v| - 1]) + u[|u| - 1] * v[|v| - 1]
  }

  function Zeros(n: nat): Vector
  {
    seq(n, _ => 0.0)
  }

  /** The n-dimensional vector with a one at position i and zeros elsewhere. */
  function Unit(n: nat, i: nat): Vector
  {
    seq(n, k => if k == i then 1.0 else 0.0)
  }

  function Add(u: Vector, v: Vector): Vector
    requires |u| == |v|
  {
    seq(|u|, k requires 0 <= k < |u| => u[k] + v[k])
  }

  function Sub(u: Vector, v: Vector): Vector
    requires |u| == |v|
  {
    seq(|u|, k requires 0 <= k < |u| => u[k] - v[k])
  }

  function Scale(c: real, v: Vector): Vector
  {
    seq(|v|, k requires 0 <= k < |v| => c * v[k])
  }

  /** Elementwise division of a vector by a non-zero scalar. */
  function Divide(v: Vector, s: real): Vector
    requires s != 0.0
  {
    seq(|v|, k requires 0 <= k < |v| => v[k] / s)
  }

  predicate AllDim(B: seq<Vector>, d: nat)
  {
    forall l :: 0 <= l < |B| ==> |B[l]| == d
  }

  /** x[0] * B[0] + ... + x[|x|-1] * B[|x|-1], summed from the left. */
  function LinComb(x: seq<real>, B: seq<Vector>, d: nat): (r: Vector)
    requires |x| == |B| && AllDim(B, d)
    ensures |r| == d
    decreases |x|
  {
    if |x| == 0 then Zeros(d)
    else Add(LinComb(x[..|x| - 1], B[..|B| - 1], d), Scale(x[|x| - 1], B[|B| - 1]))
  }

  /** Every two distinct vectors of B are orthogonal. */
  ghost predicate PairwiseOrthogonal(B: seq<Vector>)
  {
    forall i, j {:trigger Dot(B[i], B[j])} :: 0 <= i < j < |B| && |B[i]| == |B[j]| ==> Dot(B[i], B[j]) == 0.0
  }

  function Abs(x: real): real
  {
    if x < 0.0 then -x else x
  }

  function Max(a: real, b: real): real
  {
    if a < b then b else a
  }

  // ---------------------------------------------------------------------------
  // Matrices, stored as a sequence of rows

  predicate IsMatrix(A: Matrix, r: nat, c: nat)
  {
    |A| == r && forall i :: 0 <= i < r ==> |A[i]| == c
  }

  function Cols(A: Matrix): nat
  {
    if |A| == 0 then 0 else |A[0]|
  }

  predicate Rect(A: Matrix)
  {
    IsMatrix(A, |A|, Cols(A))
  }

  predicate IsSquare(A: Matrix, n: nat)
  {
    IsMatrix(A, n, n)
  }

  function Column(A: Matrix, j: nat): Vector
    requires forall i :: 0 <= i < |A| ==> j < |A[i]|
  {
    seq(|A|, i requires 0 <= i < |A| => A[i][j])
  }

  function Transpose(A: Matrix): (t: Matrix)
    requires Rect(A)
    ensures IsMatrix(t, Cols(A), |A|)
  {
    seq(Cols(A), j requires 0 <= j < Cols(A) => Column(A, j))
  }

  /** The product A * B: entry (i, j) is the dot product of row i of A and column j of B. */
  function MatMul(A: Matrix, B: Matrix): (C: Matrix)
    requires Rect(B) && AllDim(A, |B|)
    ensures IsMatrix(C, |A|, Cols(B))
  {
    seq(|A|, i requires 0 <= i < |A| =>
      seq(Cols(B), j requires 0 <= j < Cols(B) => Dot(A[i], Column(B, j))))
  }

  /** The vector whose entry l is the dot product of row l of B with y. */
  function MatVec(B: Matrix, y: Vector): Vector
    requires AllDim(B, |y|)
  {
    seq(|B|, l requires 0 <= l < |B| => Dot(B[l], y))
  }

  function Identity(n: nat): Matrix
  {
    seq(n, i requires 0 <= i < n => Unit(n, i))
  }

  function Diagonal(A: Matrix): Vector
    requires IsSquare(A, |A|)
  {
    seq(|A|, i requires 0 <= i < |A| => A[i][i])
  }

  // ---------------------------------------------------------------------------
  // Dot products

  lemma {:induction false} DotSym(u: Vector, v: Vector)
    requires |u| == |v|
    ensures Dot(u, v) == Dot(v, u)
  {
    if |u| > 0 {
      DotSym(u[..|u| - 1], v[..|v| - 1]);
    }
  }

  lemma {:induction false} DotNonNegative(v: Vector)
    ensures Dot(v, v) >= 0.0
  {
    if |v| > 0 {
      DotNonNegative(v[..|v| - 1]);
    }
  }

  lemma {:induction false} DotAdd(u: Vector, v: Vector, w: Vector)
    requires |u| == |v| == |w|
    ensures Dot(u, Add(v, w)) == Dot(u, v) + Dot(u, w)
  {
    if |u| > 0 {
      var n := |u| - 1;
      assert Add(v, w)[..n] == Add(v[..n], w[..n]);
      DotAdd(u[..n], v[..n], w[..n]);
    }
  }

  lemma {:induction false} DotSub(u: Vector, v: Vector, w: Vector)
    requires |u| == |v| == |w|
    ensures Dot(u, Sub(v, w)) == Dot(u, v) - Dot(u, w)
  {
    if |u| > 0 {
      var n := |u| - 1;
      assert Sub(v, w)[..n] == Sub(v[..n], w[..n]);
      DotSub(u[..n], v[..n], w[..n]);
    }
  }

  lemma {:induction false} DotScale(u: Vector, c: real, v: Vector)
    requires |u| == |v|
    ensures Dot(u, Scale(c, v)) == c * Dot(u, v)
  {
    if |u| > 0 {
      var n := |u| - 1;
      assert Scale(c, v)[..n] == Scale(c, v[..n]) by {
        forall k | 0 <= k < n ensures Scale(c, v)[..n][k] == Scale(c, v[..n])[k] { }
      }
      DotScale(u[..n], c, v[..n]);
      assert Scale(c, v)[n] == c * v[n];
      assert u[n] * (c * v[n]) == c * (u[n] * v[n]);
    }
  }

  lemma {:induction false} InverseTimes(a: real, s: real)
    requires s != 0.0
    ensures (1.0 / s) * a == a / s
  {
  }

  lemma {:induction false} DivideIsScale(v: Vector, s: real)
    requires s != 0.0
    ensures Divide(v, s) == Scale(1.0 / s, v)
  {
    forall k | 0 <= k < |v|
      ensures Divide(v, s)[k] == Scale(1.0 / s, v)[k]
    {
      InverseTimes(v[k], s);
    }
  }

  lemma {:induction false} DotDivide(u: Vector, v: Vector, s: real)
    requires |u| == |v| && s != 0.0
    ensures Dot(u, Divide(v, s)) == Dot(u, v) / s
  {
    DivideIsScale(v, s);
    DotScale(u, 1.0 / s, v);
    InverseTimes(Dot(u, v), s);
  }

  /** Scaling by s undoes dividing by s. */
  lemma {:induction false} ScaleDivide(v: Vector, s: real)
    requires s != 0.0
    ensures Scale(s, Divide(v, s)) == v
  {
    forall k | 0 <= k < |v|
      ensures Scale(s, Divide(v, s))[k] == v[k]
    {
      DivTimesRight(v[k], s);
    }
  }

  lemma {:induction false} DivTimesRight(a: real, s: real)
    requires s != 0.0
    ensures s * (a / s) == a
  {
  }

  lemma {:induction false} AddSubCancel(p: Vector, v: Vector)
    requires |p| == |v|
    ensures Add(p, Sub(v, p)) == v
  {
  }

  lemma {:induction false} AddZerosLeft(v: Vector)
    ensures Add(Zeros(|v|), v) == v
  {
  }

  lemma {:induction false} DotZeros(u: Vector)
    ensures Dot(u, Zeros(|u|)) == 0.0
  {
    if |u| > 0 {
      var n := |u| - 1;
      assert Zeros(|u|)[..n] == Zeros(n);
      DotZeros(u[..n]);
    }
  }

  /** Dotting with a unit vector picks out one coordinate. */
  lemma {:induction false} DotUnit(n: nat, i: nat, v: Vector)
    requires i < n == |v|
    ensures Dot(Unit(n, i), v) == v[i]
  {
    var m := n - 1;
    if i == m {
      assert Unit(n, i)[..m] == Zeros(m);
      DotSym(Zeros(m), v[..m]);
      DotZeros(v[..m]);
    } else {
      assert Unit(n, i)[..m] == Unit(m, i);
      DotUnit(m, i, v[..m]);
    }
  }

  // ---------------------------------------------------------------------------
  // Linear combinations

  /** Coordinate k of a linear combination is the dot product of the coefficients with column k. */
  lemma {:induction false} LinCombAt(x: seq<real>, B: seq<Vector>, d: nat, k: nat)
    requires |x| == |B| && AllDim(B, d) && k < d
    ensures LinComb(x, B, d)[k] == Dot(x, Column(B, k))
  {
    if |x| > 0 {
      var n := |x| - 1;
      assert Column(B, k)[..n] == Column(B[..n], k);
      LinCombAt(x[..n], B[..n], d, k);
    }
  }

  /** A linear combination as a vector equals the row of coordinates given by LinCombAt. */
  lemma {:induction false} LinCombAsRow(x: seq<real>, B: seq<Vector>, d: nat)
    requires |x| == |B| && AllDim(B, d)
    ensures LinComb(x, B, d) == seq(d, k requires 0 <= k < d => Dot(x, Column(B, k)))
  {
    forall k | 0 <= k < d
      ensures LinComb(x, B, d)[k] == Dot(x, Column(B, k))
    {
      LinCombAt(x, B, d, k);
    }
  }

  /** Dotting with a combination peels off its last term. */
  lemma {:induction false} DotLinCombLast(u: Vector, x: seq<real>, B: seq<Vector>, d: nat)
    requires |x| == |B| > 0 && AllDim(B, d) && |u| == d
    ensures Dot(u, LinComb(x, B, d))
         == Dot(u, LinComb(x[..|x| - 1], B[..|B| - 1], d)) + x[|x| - 1] * Dot(u, B[|B| - 1])
  {
    var n := |x| - 1;
    var rest := LinComb(x[..n], B[..n], d);
    var last := Scale(x[n], B[n]);
    DotAdd(u, rest, last);
    DotScale(u, x[n], B[n]);
  }

  /** A vector orthogonal to every vector of B is orthogonal to every combination of them. */
  lemma {:induction false} DotLinCombOrthogonal(u: Vector, x: seq<real>, B: seq<Vector>, d: nat)
    requires |x| == |B| && |u| == d && AllDim(B, d)
    requires forall l :: 0 <= l < |B| ==> Dot(u, B[l]) == 0.0
    ensures Dot(u, LinComb(x, B, d)) == 0.0
  {
    var n := |x|;
    if n == 0 {
      DotZeros(u);
    } else {
      DotLinCombOrthogonal(u, x[..n - 1], B[..n - 1], d);
      DotLinCombLastOnly(u, x, B, d);
      assert Dot(u, B[n - 1]) == 0.0;
    }
  }

  lemma {:induction false} PairwiseOrthogonalPrefix(B: seq<Vector>, m: nat)
    requires PairwiseOrthogonal(B) && m <= |B|
    ensures PairwiseOrthogonal(B[..m])
  {
    forall i, k | 0 <= i < k < m && |B[..m][i]| == |B[..m][k]|
      ensures Dot(B[..m][i], B[..m][k]) == 0.0
    {
      assert B[..m][i] == B[i] && B[..m][k] == B[k];
    }
  }

  /** In a pairwise orthogonal family the last vector is orthogonal to all earlier ones. */
  lemma {:induction false} LastOrthogonalToPrefix(B: seq<Vector>, d: nat)
    requires |B| > 0 && AllDim(B, d) && PairwiseOrthogonal(B)
    ensures var n := |B| - 1; forall l :: 0 <= l < n ==> Dot(B[n], B[..n][l]) == 0.0
  {
    var n := |B| - 1;
    forall l | 0 <= l < n
      ensures Dot(B[n], B[..n][l]) == 0.0
    {
      assert Dot(B[l], B[n]) == 0.0;
      DotSym(B[l], B[n]);
    }
  }

  /** The case of DotLinCombMember where B[j] is the last vector. */
  lemma {:induction false} DotLinCombMemberLast(x: seq<real>, B: seq<Vector>, d: nat)
    requires |x| == |B| > 0 && AllDim(B, d)
    requires PairwiseOrthogonal(B)
    ensures var n := |B| - 1; Dot(B[n], LinComb(x, B, d)) == x[n] * Dot(B[n], B[n])
  {
    LastOrthogonalToPrefix(B, d);
    DotLinCombOnlyLast(B[|B| - 1], x, B, d);
  }

  /** A vector orthogonal to all but the last vector of B sees only the last term of a combination. */
  lemma {:induction false} DotLinCombOnlyLast(u: Vector, x: seq<real>, B: seq<Vector>, d: nat)
    requires |x| == |B| > 0 && AllDim(B, d) && |u| == d
    requires var n := |B| - 1; forall l :: 0 <= l < n ==> Dot(u, B[..n][l]) == 0.0
    ensures var n := |B| - 1; Dot(u, LinComb(x, B, d)) == x[n] * Dot(u, B[n])
  {
    var n := |x| - 1;
    DotLinCombOrthogonal(u, x[..n], B[..n], d);
    DotLinCombLastOnly(u, x, B, d);
  }

  /** DotLinCombLast when u is orthogonal to the combination of all but the last term. */
  lemma {:induction false} DotLinCombLastOnly(u: Vector, x: seq<real>, B: seq<Vector>, d: nat)
    requires |x| == |B| > 0 && AllDim(B, d) && |u| == d
    requires var n := |B| - 1; Dot(u, LinComb(x[..n], B[..n], d)) == 0.0
    ensures var n := |B| - 1; Dot(u, LinComb(x, B, d)) == x[n] * Dot(u, B[n])
  {
    DotLinCombLast(u, x, B, d);
  }

  /** Against pairwise orthogonal B, dotting B[j] with a combination keeps only the j-th term. */
  lemma {:induction false} DotLinCombMember(x: seq<real>, B: seq<Vector>, d: nat, j: nat)
    requires |x| == |B| && AllDim(B, d) && j < |B|
    requires PairwiseOrthogonal(B)
    ensures Dot(B[j], LinComb(x, B, d)) == x[j] * Dot(B[j], B[j])
    decreases |x|, 2
  {
    if j == |x| - 1 {
      DotLinCombMemberLast(x, B, d);
    } else {
      DotLinCombMemberBefore(x, B, d, j);
    }
  }

  /** The case of DotLinCombMember where B[j] is not the last vector. */
  lemma {:induction false} DotLinCombMemberBefore(x: seq<real>, B: seq<Vector>, d: nat, j: nat)
    requires |x| == |B| && AllDim(B, d) && j < |B| - 1
    requires PairwiseOrthogonal(B)
    ensures Dot(B[j], LinComb(x, B, d)) == x[j] * Dot(B[j], B[j])
    decreases |x|, 1
  {
    var n := |x| - 1;
    var u := B[j];
    DotLinCombLast(u, x, B, d);
    DotLinCombMemberPrefix(x, B, d, j);
    var c := Dot(u, B[n]);
    assert c == 0.0;
    assert x[n] * c == 0.0;
  }

  /** DotLinCombMember applied to all but the last term. */
  lemma {:induction false} DotLinCombMemberPrefix(x: seq<real>, B: seq<Vector>, d: nat, j: nat)
    requires |x| == |B| && AllDim(B, d) && j < |B| - 1
    requires PairwiseOrthogonal(B)
    ensures var n := |x| - 1;
      Dot(B[j], LinComb(x[..n], B[..n], d)) == x[j] * Dot(B[j], B[j])
    decreases |x|, 0
  {
    var n := |x| - 1;
    PairwiseOrthogonalPrefix(B, n);
    DotLinCombMember(x[..n], B[..n], d, j);
    assert B[..n][j] == B[j] && x[..n][j] == x[j];
  }

  /** Terms whose coefficient is zero can be dropped from the end of a combination. */
  lemma {:induction false} LinCombTrailingZeros(x: seq<real>, B: seq<Vector>, d: nat, m: nat)
    requires |x| == |B| && AllDim(B, d) && m <= |x|
    requires forall l :: m <= l < |x| ==> x[l] == 0.0
    ensures LinComb(x, B, d) == LinComb(x[..m], B[..m], d)
  {
    var n := |x|;
    if n > m {
      assert x[..n - 1][..m] == x[..m];
      assert B[..n - 1][..m] == B[..m];
      LinCombTrailingZeros(x[..n - 1], B[..n - 1], d, m);
      var rest := LinComb(x[..n - 1], B[..n - 1], d);
      assert Add(rest, Scale(x[n - 1], B[n - 1])) == rest;
    } else {
      assert x[..m] == x && B[..m] == B;
    }
  }

  /** The left-hand form of DotLinCombLast. */
  lemma {:induction false} DotLinCombLastLeft(x: seq<real>, B: seq<Vector>, y: Vector)
    requires |x| == |B| > 0 && AllDim(B, |y|)
    ensures var m := |x| - 1;
      Dot(LinComb(x, B, |y|), y) == Dot(LinComb(x[..m], B[..m], |y|), y) + x[m] * Dot(B[m], y)
  {
    var m := |x| - 1;
    DotLinCombLast(y, x, B, |y|);
    DotSym(LinComb(x, B, |y|), y);
    DotSym(LinComb(x[..m], B[..m], |y|), y);
    DotSym(y, B[m]);
  }

  lemma {:induction false} DotMatVecLast(x: seq<real>, B: seq<Vector>, y: Vector)
    requires |x| == |B| > 0 && AllDim(B, |y|)
    ensures var m := |x| - 1;
      Dot(x, MatVec(B, y)) == Dot(x[..m], MatVec(B[..m], y)) + x[m] * Dot(B[m], y)
  {
    var m := |x| - 1;
    assert MatVec(B, y)[..m] == MatVec(B[..m], y);
  }

  /** (x B) . y == x . (B y): the bilinear identity behind associativity of the product. */
  lemma {:induction false} DotLinCombMatVec(x: seq<real>, B: seq<Vector>, y: Vector)
    requires |x| == |B| && AllDim(B, |y|)
    ensures Dot(LinComb(x, B, |y|), y) == Dot(x, MatVec(B, y))
  {
    var n := |x|;
    if n == 0 {
      DotSym(Zeros(|y|), y);
      DotZeros(y);
    } else {
      var m := n - 1;
      DotLinCombMatVec(x[..m], B[..m], y);
      DotLinCombLastLeft(x, B, y);
      DotMatVecLast(x, B, y);
    }
  }

  // ---------------------------------------------------------------------------
  // Matrix algebra

  /** Transposing twice gives the matrix back (for at least one row and one column). */
  lemma {:induction false} TransposeTwice(A: Matrix, r: nat, c: nat)
    requires IsMatrix(A, r, c) && r > 0 && c > 0
    ensures Transpose(Transpose(A)) == A
  {
    var t := Transpose(A);
    assert Cols(t) == r;
    forall i | 0 <= i < r
      ensures Transpose(t)[i] == A[i]
    {
      assert Column(t, i) == A[i];
    }
  }

  /** Column j of A is row j of its transpose. */
  lemma {:induction false} ColumnOfTranspose(A: Matrix, r: nat, c: nat, i: nat)
    requires IsMatrix(A, r, c) && c > 0 && i < r
    ensures Column(Transpose(A), i) == A[i]
  {
  }

  /** Row i of a product is the combination of the rows of B with row i of A as coefficients. */
  lemma {:induction false} MatMulRow(A: Matrix, B: Matrix, k: nat, c: nat, i: nat)
    requires IsMatrix(B, k, c) && k > 0 && AllDim(A, k) && i < |A|
    ensures MatMul(A, B)[i] == LinComb(A[i], B, c)
  {
    LinCombAsRow(A[i], B, c);
  }

  lemma {:induction false} MatMulAssoc(A: Matrix, B: Matrix, C: Matrix, r: nat, k: nat, l: nat, c: nat)
    requires IsMatrix(A, r, k) && IsMatrix(B, k, l) && IsMatrix(C, l, c)
    requires k > 0 && l > 0
    ensures MatMul(MatMul(A, B), C) == MatMul(A, MatMul(B, C))
  {
    var AB := MatMul(A, B);
    var BC := MatMul(B, C);
    forall i | 0 <= i < r
      ensures MatMul(AB, C)[i] == MatMul(A, BC)[i]
    {
      MatMulRow(A, B, k, l, i);
      forall j | 0 <= j < c
        ensures MatMul(AB, C)[i][j] == MatMul(A, BC)[i][j]
      {
        DotLinCombMatVec(A[i], B, Column(C, j));
        assert Column(BC, j) == MatVec(B, Column(C, j));
      }
    }
  }

  lemma {:induction false} TransposeMatMul(A: Matrix, B: Matrix, r: nat, k: nat, c: nat)
    requires IsMatrix(A, r, k) && IsMatrix(B, k, c) && r > 0 && k > 0 && c > 0
    ensures Transpose(MatMul(A, B)) == MatMul(Transpose(B), Transpose(A))
  {
    var lhs := Transpose(MatMul(A, B));
    var rhs := MatMul(Transpose(B), Transpose(A));
    assert Cols(Transpose(A)) == r;
    forall j | 0 <= j < c
      ensures lhs[j] == rhs[j]
    {
      forall i | 0 <= i < r
        ensures lhs[j][i] == rhs[j][i]
      {
        ColumnOfTranspose(A, r, k, i);
        DotSym(A[i], Column(B, j));
      }
    }
  }

  lemma {:induction false} IdentityIsMatrix(n: nat)
    ensures IsSquare(Identity(n), n)
  {
  }

  lemma {:induction false} TransposeIdentity(n: nat)
    requires n > 0
    ensures Transpose(Identity(n)) == Identity(n)
  {
    var t := Transpose(Identity(n));
    forall i | 0 <= i < n
      ensures t[i] == Identity(n)[i]
    {
      assert t[i] == Column(Identity(n), i);
    }
  }

  lemma {:induction false} MatMulIdentityLeft(A: Matrix, n: nat, c: nat)
    requires IsMatrix(A, n, c) && n > 0
    ensures MatMul(Identity(n), A) == A
  {
    forall i | 0 <= i < n
      ensures MatMul(Identity(n), A)[i] == A[i]
    {
      forall j | 0 <= j < c
        ensures MatMul(Identity(n), A)[i][j] == A[i][j]
      {
        DotUnit(n, i, Column(A, j));
      }
    }
  }

  lemma {:induction false} MatMulIdentityRight(A: Matrix, r: nat, n: nat)
    requires IsMatrix(A, r, n) && n > 0
    ensures MatMul(A, Identity(n)) == A
  {
    forall i | 0 <= i < r
      ensures MatMul(A, Identity(n))[i] == A[i]
    {
      forall j | 0 <= j < n
        ensures MatMul(A, Identity(n))[i][j] == A[i][j]
      {
        assert Column(Identity(n), j) == Unit(n, j);
        DotSym(A[i], Unit(n, j));
        DotUnit(n, j, A[i]);
      }
    }
  }
}
