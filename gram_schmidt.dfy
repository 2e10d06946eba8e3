/**
 Classical Gram-Schmidt over a list of vectors (QR.py, gram_schmidt).

 Each input vector, from the second on, has its projections onto the vectors
 built so far subtracted; with `orthonormal` set, every vector is divided by
 its Euclidean norm straight after it is built, so later projections use the
 normalised vectors. The square root is a parameter `sqrt`; facts that need
 it to be a square root require `IsSqrt(sqrt)`. Where the source would divide
 by zero (a built vector u with u . u == 0, or a zero norm) the specification
 `Basis` yields None.
 */
module GramSchmidt {
  import opened LinAlg
  import opened Wrappers

  /** Every vector of S has the dimension of the first. */
  predicate Uniform(S: seq<Vector>)
  {
    forall i :: 0 <= i < |S| ==> |S[i]| == |S[0]|
  }

  /** sqrt returns the non-negative square root of every non-negative real. */
  ghost predicate IsSqrt(sqrt: real -> real)
  {
    forall x :: 0.0 <= x ==> 0.0 <= sqrt(x) && sqrt(x) * sqrt(x) == x
  }

  /** No vector of b has a zero square norm, so projecting onto b divides by no zero. */
  predicate NonZero(b: seq<Vector>)
  {
    forall l :: 0 <= l < |b| ==> Dot(b[l], b[l]) != 0.0
  }

  /** The coefficients (u . v) / (u . u) of the projections of v onto the vectors u of b. */
  function Coefficients(b: seq<Vector>, v: Vector): seq<real>
    requires AllDim(b, |v|) && NonZero(b)
  {
    seq(|b|, l requires 0 <= l < |b| => Dot(b[l], v) / Dot(b[l], b[l]))
  }

  /** The sum over u in b of (u . v) / (u . u) * u. */
  function Projection(b: seq<Vector>, v: Vector): Vector
    requires AllDim(b, |v|) && NonZero(b)
  {
    LinComb(Coefficients(b, v), b, |v|)
  }

  /** The vector built from v before normalising: v itself for the first, v minus its projections after. */
  function Residual(b: seq<Vector>, v: Vector): Vector
    requires AllDim(b, |v|) && NonZero(b)
  {
    if |b| == 0 then v else Sub(v, Projection(b, v))
  }

  /** The basis vector built from input v after the vectors b; None where the source divides by zero. */
  function Next(b: seq<Vector>, v: Vector, orthonormal: bool, sqrt: real -> real): Option<Vector>
    requires AllDim(b, |v|)
  {
    if !NonZero(b) then None
    else
      var w := Residual(b, v);
      if !orthonormal then Some(w)
      else if sqrt(Dot(w, w)) == 0.0 then None
      else Some(Divide(w, sqrt(Dot(w, w))))
  }

  /** The list gram_schmidt returns for S, one vector per input vector, in input order. */
  function Basis(S: seq<Vector>, orthonormal: bool, sqrt: real -> real): (r: Option<seq<Vector>>)
    requires Uniform(S)
    ensures r.Some? ==> |r.value| == |S| && forall i :: 0 <= i < |S| ==> |r.value[i]| == |S[i]|
    decreases |S|
  {
    if |S| == 0 then Some([])
    else
      var n := |S| - 1;
      match Basis(S[..n], orthonormal, sqrt)
      case None => None
      case Some(b) =>
        assert AllDim(b, |S[n]|) by {
          forall l | 0 <= l < |b| ensures |b[l]| == |S[n]| {
            assert |b[l]| == |S[..n][l]| == |S[l]|;
          }
        }
        match Next(b, S[n], orthonormal, sqrt)
        case None => None
        case Some(x) => Some(b + [x])
  }

  /** gram_schmidt(S, orthonormal): grows the list one vector per input and normalises it in place. */
  method GramSchmidt(S: seq<Vector>, orthonormal: bool, sqrt: real -> real) returns (basis: seq<Vector>)
    requires Uniform(S) && Basis(S, orthonormal, sqrt).Some?
    ensures Basis(S, orthonormal, sqrt) == Some(basis)
  {
    ghost var target := Basis(S, orthonormal, sqrt).value;
    basis := [];
    for i := 0 to |S|
      invariant basis == target[..i]
    {
      BasisAt(S, orthonormal, sqrt, i);
      var v := S[i];
      if i == 0 {
        basis := basis + [v];
      } else {
        basis := basis + [Sub(v, Projection(basis, v))];
      }
      if orthonormal {
        UpdateLast(target[..i], basis[i], Divide(basis[i], sqrt(Dot(basis[i], basis[i]))));
        basis := basis[i := Divide(basis[i], sqrt(Dot(basis[i], basis[i])))];
      }
      ExtendPrefix(target, i);
    }
    ExtendPrefix(target, |S|);
  }

  lemma {:induction false} UpdateLast<T>(a: seq<T>, x: T, y: T)
    ensures (a + [x])[|a| := y] == a + [y]
  {
  }

  lemma {:induction false} ExtendPrefix<T>(s: seq<T>, i: nat)
    requires i <= |s|
    ensures i < |s| ==> s[..i] + [s[i]] == s[..i + 1]
    ensures i == |s| ==> s[..i] == s
  {
  }

  // ---------------------------------------------------------------------------
  // Structure of the basis

  /** Dropping the last input vector drops the last basis vector. */
  lemma {:induction false} BasisDropLast(S: seq<Vector>, orthonormal: bool, sqrt: real -> real)
    requires Uniform(S) && |S| > 0 && Basis(S, orthonormal, sqrt).Some?
    ensures var n := |S| - 1; Basis(S[..n], orthonormal, sqrt) == Some(Basis(S, orthonormal, sqrt).value[..n])
  {
    var n := |S| - 1;
    var c := Basis(S[..n], orthonormal, sqrt);
    assert c.Some?;
    assert Basis(S, orthonormal, sqrt).value[..n] == c.value;
  }

  /** The basis of a prefix of the input is the same prefix of the basis. */
  lemma {:induction false} BasisPrefix(S: seq<Vector>, orthonormal: bool, sqrt: real -> real, k: nat)
    requires Uniform(S) && k <= |S| && Basis(S, orthonormal, sqrt).Some?
    ensures Basis(S[..k], orthonormal, sqrt) == Some(Basis(S, orthonormal, sqrt).value[..k])
    decreases |S|
  {
    var b := Basis(S, orthonormal, sqrt).value;
    if k == |S| {
      assert S[..k] == S;
      assert b[..k] == b;
    } else {
      var n := |S| - 1;
      BasisDropLast(S, orthonormal, sqrt);
      var c := b[..n];
      assert Basis(S[..n], orthonormal, sqrt) == Some(c);
      BasisPrefix(S[..n], orthonormal, sqrt, k);
      var T := S[..n][..k];
      assert Basis(T, orthonormal, sqrt) == Some(c[..k]);
      assert T == S[..k];
      assert c[..k] == b[..k];
      assert Basis(S[..k], orthonormal, sqrt) == Some(c[..k]);
    }
  }

  /** The last basis vector is the step of the loop applied to the last input and the vectors before it. */
  lemma {:induction false} BasisLast(S: seq<Vector>, orthonormal: bool, sqrt: real -> real)
    requires Uniform(S) && |S| > 0 && Basis(S, orthonormal, sqrt).Some?
    ensures var b := Basis(S, orthonormal, sqrt).value; var n := |S| - 1;
      AllDim(b[..n], |S[n]|) && Next(b[..n], S[n], orthonormal, sqrt) == Some(b[n])
  {
    var n := |S| - 1;
    BasisDropLast(S, orthonormal, sqrt);
    var b := Basis(S, orthonormal, sqrt).value;
    assert b == b[..n] + [b[n]];
  }

  /** The basis vectors before input i have the dimension of input i. */
  lemma {:induction false} BasisPrefixDim(S: seq<Vector>, orthonormal: bool, sqrt: real -> real, i: nat)
    requires Uniform(S) && i < |S| && Basis(S, orthonormal, sqrt).Some?
    ensures AllDim(Basis(S, orthonormal, sqrt).value[..i], |S[i]|)
  {
  }

  /** Vector i of the basis is the step of the loop applied to input i and the vectors before it. */
  lemma {:induction false} BasisAt(S: seq<Vector>, orthonormal: bool, sqrt: real -> real, i: nat)
    requires Uniform(S) && i < |S| && Basis(S, orthonormal, sqrt).Some?
    ensures var b := Basis(S, orthonormal, sqrt).value;
      AllDim(b[..i], |S[i]|) && Next(b[..i], S[i], orthonormal, sqrt) == Some(b[i])
  {
    var b := Basis(S, orthonormal, sqrt).value;
    BasisPrefixDim(S, orthonormal, sqrt, i);
    BasisPrefix(S, orthonormal, sqrt, i + 1);
    BasisLast(S[..i + 1], orthonormal, sqrt);
    assert b[..i + 1][..i] == b[..i];
  }

  // ---------------------------------------------------------------------------
  // Where the source divides by zero

  /** Building the vector for input i divides by zero: the vectors before it succeed, and either
      one of them u has u . u == 0 (the projection coefficient), or normalising finds a zero norm. */
  predicate DividesByZeroAt(S: seq<Vector>, orthonormal: bool, sqrt: real -> real, i: nat)
    requires Uniform(S) && i < |S|
  {
    assert Uniform(S[..i]);
    var c := Basis(S[..i], orthonormal, sqrt);
    c.Some? &&
    var b := c.value;
    assert AllDim(b, |S[i]|) by {
      forall l | 0 <= l < |b| ensures |b[l]| == |S[i]| {
        assert |b[l]| == |S[..i][l]| == |S[l]|;
      }
    }
    ((exists l :: 0 <= l < |b| && Dot(b[l], b[l]) == 0.0)
     || (orthonormal && NonZero(b) && sqrt(Dot(Residual(b, S[i]), Residual(b, S[i]))) == 0.0))
  }

  /** Dividing by zero at a position of a prefix T of S is the same thing in T and in S. */
  lemma {:induction false} DividesByZeroPrefix(S: seq<Vector>, T: seq<Vector>, orthonormal: bool, sqrt: real -> real, i: nat)
    requires Uniform(S) && Uniform(T) && i < |T| <= |S| && T == S[..|T|]
    ensures DividesByZeroAt(T, orthonormal, sqrt, i) <==> DividesByZeroAt(S, orthonormal, sqrt, i)
  {
    assert T[..i] == S[..i];
    assert T[i] == S[i];
  }

  /** The step for v after b fails exactly when some u of b has u . u == 0 or normalising finds a zero norm. */
  lemma {:induction false} NextNone(b: seq<Vector>, v: Vector, orthonormal: bool, sqrt: real -> real)
    requires AllDim(b, |v|)
    ensures Next(b, v, orthonormal, sqrt).None? <==>
      (exists l :: 0 <= l < |b| && Dot(b[l], b[l]) == 0.0)
      || (orthonormal && NonZero(b) && sqrt(Dot(Residual(b, v), Residual(b, v))) == 0.0)
  {
  }

  /** With the vectors before the last input built, the basis fails exactly when building the last one divides by zero. */
  lemma {:induction false} BasisNoneLast(S: seq<Vector>, orthonormal: bool, sqrt: real -> real)
    requires Uniform(S) && |S| > 0 && Uniform(S[..|S| - 1]) && Basis(S[..|S| - 1], orthonormal, sqrt).Some?
    ensures Basis(S, orthonormal, sqrt).None? <==> DividesByZeroAt(S, orthonormal, sqrt, |S| - 1)
  {
    var n := |S| - 1;
    var b := Basis(S[..n], orthonormal, sqrt).value;
    assert AllDim(b, |S[n]|) by {
      forall l | 0 <= l < |b| ensures |b[l]| == |S[n]| {
        assert |b[l]| == |S[..n][l]| == |S[l]|;
      }
    }
    NextNone(b, S[n], orthonormal, sqrt);
    assert Basis(S, orthonormal, sqrt).None? <==> Next(b, S[n], orthonormal, sqrt).None?;
  }

  /** Once the vectors before the last input fail, the whole basis fails. */
  lemma {:induction false} BasisNoneEarlier(S: seq<Vector>, orthonormal: bool, sqrt: real -> real)
    requires Uniform(S) && |S| > 0 && Uniform(S[..|S| - 1]) && Basis(S[..|S| - 1], orthonormal, sqrt).None?
    ensures Basis(S, orthonormal, sqrt).None?
  {
  }

  /** gram_schmidt(S) has no result exactly when building some vector divides by zero. */
  lemma {:induction false} BasisNone(S: seq<Vector>, orthonormal: bool, sqrt: real -> real)
    requires Uniform(S)
    ensures Basis(S, orthonormal, sqrt).None? <==> exists i :: 0 <= i < |S| && DividesByZeroAt(S, orthonormal, sqrt, i)
    decreases |S|
  {
    if |S| > 0 {
      var n := |S| - 1;
      var T := S[..n];
      assert Uniform(T);
      BasisNone(T, orthonormal, sqrt);
      if Basis(T, orthonormal, sqrt).Some? {
        NoneBefore(S, T, orthonormal, sqrt);
        BasisNoneLast(S, orthonormal, sqrt);
      } else {
        var i :| 0 <= i < |T| && DividesByZeroAt(T, orthonormal, sqrt, i);
        SomeBefore(S, T, orthonormal, sqrt, i);
        BasisNoneEarlier(S, orthonormal, sqrt);
      }
    }
  }

  /** No vector of the prefix T divides by zero in S when none does in T. */
  lemma {:induction false} NoneBefore(S: seq<Vector>, T: seq<Vector>, orthonormal: bool, sqrt: real -> real)
    requires Uniform(S) && Uniform(T) && |T| <= |S| && T == S[..|T|]
    requires forall i :: 0 <= i < |T| ==> !DividesByZeroAt(T, orthonormal, sqrt, i)
    ensures forall i :: 0 <= i < |T| ==> !DividesByZeroAt(S, orthonormal, sqrt, i)
  {
    forall i | 0 <= i < |T|
      ensures !DividesByZeroAt(S, orthonormal, sqrt, i)
    {
      DividesByZeroPrefix(S, T, orthonormal, sqrt, i);
    }
  }

  /** Some vector of the prefix T divides by zero in S when one does in T. */
  lemma {:induction false} SomeBefore(S: seq<Vector>, T: seq<Vector>, orthonormal: bool, sqrt: real -> real, i: nat)
    requires Uniform(S) && Uniform(T) && i < |T| <= |S| && T == S[..|T|]
    requires DividesByZeroAt(T, orthonormal, sqrt, i)
    ensures exists k :: 0 <= k < |S| && DividesByZeroAt(S, orthonormal, sqrt, k)
  {
    DividesByZeroPrefix(S, T, orthonormal, sqrt, i);
  }

  /** Without normalising, the first vector is the first input and every later one is the input minus its projections. */
  lemma {:induction false} BasisShape(S: seq<Vector>, sqrt: real -> real)
    requires Uniform(S) && Basis(S, false, sqrt).Some?
    ensures var b := Basis(S, false, sqrt).value;
      (|S| > 0 ==> b[0] == S[0]) &&
      forall i :: 0 < i < |S| ==>
        AllDim(b[..i], |S[i]|) && NonZero(b[..i]) && b[i] == Sub(S[i], Projection(b[..i], S[i]))
  {
    var b := Basis(S, false, sqrt).value;
    forall i | 0 <= i < |S|
      ensures AllDim(b[..i], |S[i]|) && NonZero(b[..i]) && b[i] == Residual(b[..i], S[i])
    {
      BasisAt(S, false, sqrt, i);
    }
  }

  /** With normalising, vector i is the residual of input i against the normalised vectors before it, divided by its norm. */
  lemma {:induction false} OrthonormalBasisShape(S: seq<Vector>, sqrt: real -> real, i: nat)
    requires Uniform(S) && i < |S| && Basis(S, true, sqrt).Some?
    ensures var b := Basis(S, true, sqrt).value;
      AllDim(b[..i], |S[i]|) && NonZero(b[..i]) &&
      var w := Residual(b[..i], S[i]);
      sqrt(Dot(w, w)) != 0.0 && b[i] == Divide(w, sqrt(Dot(w, w)))
  {
    BasisAt(S, true, sqrt, i);
  }

  // ---------------------------------------------------------------------------
  // Orthogonality

  /** (a / p) * p == a for non-zero p. */
  lemma {:induction false} DivTimes(a: real, p: real)
    requires p != 0.0
    ensures (a / p) * p == a
  {
  }

  /** Against a pairwise orthogonal b, the projection of v has the same component along b[l] as v. */
  lemma {:induction false} ProjectionAlong(b: seq<Vector>, v: Vector, l: nat)
    requires AllDim(b, |v|) && NonZero(b) && PairwiseOrthogonal(b) && l < |b|
    ensures Dot(b[l], Projection(b, v)) == Dot(b[l], v)
  {
    var x := Coefficients(b, v);
    DotLinCombMember(x, b, |v|, l);
    DivTimes(Dot(b[l], v), Dot(b[l], b[l]));
  }

  /** The residual of v is orthogonal to every vector of a pairwise orthogonal b. */
  lemma {:induction false} ResidualOrthogonal(b: seq<Vector>, v: Vector, l: nat)
    requires AllDim(b, |v|) && NonZero(b) && PairwiseOrthogonal(b) && l < |b|
    ensures Dot(b[l], Residual(b, v)) == 0.0
  {
    DotSub(b[l], v, Projection(b, v));
    ProjectionAlong(b, v, l);
  }

  /** The vector a step builds is orthogonal to every vector of a pairwise orthogonal b. */
  lemma {:induction false} NextOrthogonal(b: seq<Vector>, v: Vector, orthonormal: bool, sqrt: real -> real, l: nat)
    requires AllDim(b, |v|) && PairwiseOrthogonal(b) && l < |b|
    requires Next(b, v, orthonormal, sqrt).Some?
    ensures Dot(b[l], Next(b, v, orthonormal, sqrt).value) == 0.0
  {
    var w := Residual(b, v);
    ResidualOrthogonal(b, v, l);
    if orthonormal {
      DotDivide(b[l], w, sqrt(Dot(w, w)));
    }
  }

  lemma {:induction false} AppendOrthogonal(b: seq<Vector>, x: Vector)
    requires PairwiseOrthogonal(b) && AllDim(b, |x|)
    requires forall l :: 0 <= l < |b| ==> Dot(b[l], x) == 0.0
    ensures PairwiseOrthogonal(b + [x])
  {
    var c := b + [x];
    forall i, j | 0 <= i < j < |c| && |c[i]| == |c[j]|
      ensures Dot(c[i], c[j]) == 0.0
    {
      assert c[i] == b[i];
      if j < |b| {
        assert c[j] == b[j];
      }
    }
  }

  /** The basis vectors are pairwise orthogonal (exact arithmetic, whatever sqrt is). */
  lemma {:induction false} BasisOrthogonal(S: seq<Vector>, orthonormal: bool, sqrt: real -> real)
    requires Uniform(S) && Basis(S, orthonormal, sqrt).Some?
    ensures PairwiseOrthogonal(Basis(S, orthonormal, sqrt).value)
    decreases |S|
  {
    if |S| > 0 {
      var n := |S| - 1;
      BasisAt(S, orthonormal, sqrt, n);
      BasisPrefix(S, orthonormal, sqrt, n);
      var b := Basis(S, orthonormal, sqrt).value;
      var c := b[..n];
      BasisOrthogonal(S[..n], orthonormal, sqrt);
      forall l | 0 <= l < n
        ensures Dot(c[l], b[n]) == 0.0
      {
        NextOrthogonal(c, S[n], orthonormal, sqrt, l);
      }
      AppendOrthogonal(c, b[n]);
      assert c + [b[n]] == b;
    }
  }

  // ---------------------------------------------------------------------------
  // Unit norm

  lemma {:induction false} QuotientBySquare(p: real, s: real)
    requires s != 0.0 && s * s == p
    ensures (p / s) / s == 1.0
  {
    assert p / s == s;
  }

  /** Dividing w by the square root of w . w gives a vector of unit square norm. */
  lemma {:induction false} DivideByNorm(w: Vector, sqrt: real -> real)
    requires IsSqrt(sqrt) && sqrt(Dot(w, w)) != 0.0
    ensures Dot(Divide(w, sqrt(Dot(w, w))), Divide(w, sqrt(Dot(w, w)))) == 1.0
  {
    var p := Dot(w, w);
    DotNonNegative(w);
    var s := sqrt(p);
    var x := Divide(w, s);
    DotDivide(x, w, s);
    DotSym(x, w);
    DotDivide(w, w, s);
    QuotientBySquare(p, s);
  }

  /** With normalising and a true square root, every basis vector has unit norm. */
  lemma {:induction false} BasisUnit(S: seq<Vector>, sqrt: real -> real)
    requires Uniform(S) && IsSqrt(sqrt) && Basis(S, true, sqrt).Some?
    ensures var b := Basis(S, true, sqrt).value;
      forall i :: 0 <= i < |b| ==> Dot(b[i], b[i]) == 1.0
  {
    var b := Basis(S, true, sqrt).value;
    forall i | 0 <= i < |b|
      ensures Dot(b[i], b[i]) == 1.0
    {
      OrthonormalBasisShape(S, sqrt, i);
      DivideByNorm(Residual(b[..i], S[i]), sqrt);
    }
  }

  // ---------------------------------------------------------------------------
  // Inputs that are already orthogonal

  /** Against vectors orthogonal to v, the projection of v is zero and the residual is v. */
  lemma {:induction false} ResidualOfOrthogonal(b: seq<Vector>, v: Vector)
    requires AllDim(b, |v|) && NonZero(b)
    requires forall l :: 0 <= l < |b| ==> Dot(b[l], v) == 0.0
    ensures Residual(b, v) == v
  {
    if |b| > 0 {
      var x := Coefficients(b, v);
      LinCombTrailingZeros(x, b, |v|, 0);
      assert Projection(b, v) == Zeros(|v|);
    }
  }

  lemma {:induction false} SquareMonotone(a: real, b: real)
    requires 0.0 <= a < b
    ensures a * a < b * b
  {
    var d := b - a;
    assert b * b == a * a + 2.0 * a * d + d * d;
    assert a * d >= 0.0;
    assert d * d > 0.0;
  }

  /** sqrt(1) == 1 for a true square root. */
  lemma {:induction false} SqrtOne(sqrt: real -> real)
    requires IsSqrt(sqrt)
    ensures sqrt(1.0) == 1.0
  {
    var s := sqrt(1.0);
    assert 0.0 <= s && s * s == 1.0;
    if s < 1.0 {
      SquareMonotone(s, 1.0);
    } else if s > 1.0 {
      SquareMonotone(1.0, s);
    }
  }

  lemma {:induction false} PrefixOrthogonalTo(S: seq<Vector>, n: nat)
    requires Uniform(S) && PairwiseOrthogonal(S) && n < |S|
    ensures forall l :: 0 <= l < n ==> Dot(S[..n][l], S[n]) == 0.0
  {
    forall l | 0 <= l < n
      ensures Dot(S[..n][l], S[n]) == 0.0
    {
      assert S[..n][l] == S[l];
      assert |S[l]| == |S[n]|;
    }
  }

  /** A basis of all but the last input, extended by one step, is the basis of the whole input. */
  lemma {:induction false} BasisExtend(S: seq<Vector>, orthonormal: bool, sqrt: real -> real, c: seq<Vector>, x: Vector)
    requires Uniform(S) && |S| > 0
    requires Basis(S[..|S| - 1], orthonormal, sqrt) == Some(c) && AllDim(c, |S[|S| - 1]|)
    requires Next(c, S[|S| - 1], orthonormal, sqrt) == Some(x)
    ensures Basis(S, orthonormal, sqrt) == Some(c + [x])
  {
  }

  lemma {:induction false} DropLastAppend<T>(s: seq<T>)
    requires |s| > 0
    ensures s[..|s| - 1] + [s[|s| - 1]] == s
  {
  }

  /** A vector orthogonal to every vector of b, none of them zero, is its own step without normalising. */
  lemma {:induction false} NextOfOrthogonal(b: seq<Vector>, v: Vector, sqrt: real -> real)
    requires AllDim(b, |v|) && NonZero(b)
    requires forall l :: 0 <= l < |b| ==> Dot(b[l], v) == 0.0
    ensures Next(b, v, false, sqrt) == Some(v)
  {
    ResidualOfOrthogonal(b, v);
  }

  /** A unit vector orthogonal to every vector of b, none of them zero, is its own step with normalising. */
  lemma {:induction false} NextOfOrthonormal(b: seq<Vector>, v: Vector, sqrt: real -> real)
    requires AllDim(b, |v|) && NonZero(b) && IsSqrt(sqrt) && Dot(v, v) == 1.0
    requires forall l :: 0 <= l < |b| ==> Dot(b[l], v) == 0.0
    ensures Next(b, v, true, sqrt) == Some(v)
  {
    ResidualOfOrthogonal(b, v);
    SqrtOne(sqrt);
    assert Divide(v, 1.0) == v;
  }

  /** Without normalising, an orthogonal family with no zero vector is its own basis. */
  lemma {:induction false} BasisOfOrthogonal(S: seq<Vector>, sqrt: real -> real)
    requires Uniform(S) && PairwiseOrthogonal(S) && NonZero(S)
    ensures Basis(S, false, sqrt) == Some(S)
    decreases |S|
  {
    if |S| > 0 {
      var n := |S| - 1;
      PairwiseOrthogonalPrefix(S, n);
      BasisOfOrthogonal(S[..n], sqrt);
      PrefixOrthogonalTo(S, n);
      NextOfOrthogonal(S[..n], S[n], sqrt);
      BasisExtend(S, false, sqrt, S[..n], S[n]);
      DropLastAppend(S);
    }
  }

  /** With normalising and a true square root, an orthonormal family is its own basis. */
  lemma {:induction false} BasisOfOrthonormal(S: seq<Vector>, sqrt: real -> real)
    requires Uniform(S) && IsSqrt(sqrt) && PairwiseOrthogonal(S)
    requires forall i :: 0 <= i < |S| ==> Dot(S[i], S[i]) == 1.0
    ensures Basis(S, true, sqrt) == Some(S)
    decreases |S|
  {
    if |S| > 0 {
      var n := |S| - 1;
      PairwiseOrthogonalPrefix(S, n);
      BasisOfOrthonormal(S[..n], sqrt);
      PrefixOrthogonalTo(S, n);
      NextOfOrthonormal(S[..n], S[n], sqrt);
      BasisExtend(S, true, sqrt, S[..n], S[n]);
      DropLastAppend(S);
    }
  }

  /** Without normalising, running Gram-Schmidt on its own result (when no vector of it is zero) changes nothing. */
  lemma {:induction false} BasisIdempotent(S: seq<Vector>, sqrt: real -> real)
    requires Uniform(S) && Basis(S, false, sqrt).Some? && NonZero(Basis(S, false, sqrt).value)
    ensures var b := Basis(S, false, sqrt).value;
      Uniform(b) && Basis(b, false, sqrt) == Some(b)
  {
    var b := Basis(S, false, sqrt).value;
    BasisOrthogonal(S, false, sqrt);
    BasisOfOrthogonal(b, sqrt);
  }

  // ---------------------------------------------------------------------------
  // Components of the inputs along the basis (the entries of R in QR)

  /** All basis vectors have the dimension of the inputs. */
  lemma {:induction false} BasisDim(S: seq<Vector>, orthonormal: bool, sqrt: real -> real)
    requires Uniform(S) && |S| > 0 && Basis(S, orthonormal, sqrt).Some?
    ensures AllDim(Basis(S, orthonormal, sqrt).value, |S[0]|)
  {
  }

  /** In a pairwise orthogonal b, vector k is orthogonal to every vector before position j <= k. */
  lemma {:induction false} OrthogonalToEarlier(b: seq<Vector>, d: nat, k: nat, j: nat)
    requires PairwiseOrthogonal(b) && AllDim(b, d) && j <= k < |b|
    ensures forall l :: 0 <= l < j ==> Dot(b[k], b[..j][l]) == 0.0
  {
    forall l | 0 <= l < j
      ensures Dot(b[k], b[..j][l]) == 0.0
    {
      assert b[..j][l] == b[l];
      assert Dot(b[l], b[k]) == 0.0;
      DotSym(b[l], b[k]);
    }
  }

  /** A vector orthogonal to b has the same component along the residual of v as along v. */
  lemma {:induction false} DotResidual(b: seq<Vector>, v: Vector, u: Vector)
    requires AllDim(b, |v|) && NonZero(b) && |u| == |v|
    requires forall l :: 0 <= l < |b| ==> Dot(u, b[l]) == 0.0
    ensures Dot(u, Residual(b, v)) == Dot(u, v)
  {
    if |b| > 0 {
      DotSub(u, v, Projection(b, v));
      DotLinCombOrthogonal(u, Coefficients(b, v), b, |v|);
    }
  }

  /** Basis vector k has the same component along input j <= k as along the residual built from it. */
  lemma {:induction false} BasisComponent(S: seq<Vector>, orthonormal: bool, sqrt: real -> real, k: nat, j: nat)
    requires Uniform(S) && j <= k < |S| && Basis(S, orthonormal, sqrt).Some?
    ensures var b := Basis(S, orthonormal, sqrt).value;
      AllDim(b[..j], |S[j]|) && NonZero(b[..j]) &&
      Dot(b[k], S[j]) == Dot(b[k], Residual(b[..j], S[j]))
  {
    var b := Basis(S, orthonormal, sqrt).value;
    BasisAt(S, orthonormal, sqrt, j);
    BasisDim(S, orthonormal, sqrt);
    BasisOrthogonal(S, orthonormal, sqrt);
    OrthogonalToEarlier(b, |S[0]|, k, j);
    DotResidual(b[..j], S[j], b[k]);
  }

  lemma {:induction false} QuotientZero(a: real, s: real)
    requires s != 0.0 && a / s == 0.0
    ensures a == 0.0
  {
    DivTimes(a, s);
  }

  /** With normalising, basis vector k has no component along an earlier input j < k. */
  lemma {:induction false} BasisTriangular(S: seq<Vector>, sqrt: real -> real, k: nat, j: nat)
    requires Uniform(S) && j < k < |S| && Basis(S, true, sqrt).Some?
    ensures var b := Basis(S, true, sqrt).value; Dot(b[k], S[j]) == 0.0
  {
    var b := Basis(S, true, sqrt).value;
    BasisComponent(S, true, sqrt, k, j);
    OrthonormalBasisShape(S, sqrt, j);
    var w := Residual(b[..j], S[j]);
    var s := sqrt(Dot(w, w));
    BasisOrthogonal(S, true, sqrt);
    assert Dot(b[j], b[k]) == 0.0;
    DotSym(b[j], b[k]);
    DotDivide(b[k], w, s);
    QuotientZero(Dot(b[k], w), s);
  }

  lemma {:induction false} SquareOverRoot(s: real)
    requires s != 0.0
    ensures (s * s) / s == s
  {
  }

  /** With a true square root, basis vector j has component along input j equal to the (positive) norm of its residual. */
  lemma {:induction false} BasisDiagonal(S: seq<Vector>, sqrt: real -> real, j: nat)
    requires Uniform(S) && IsSqrt(sqrt) && j < |S| && Basis(S, true, sqrt).Some?
    ensures var b := Basis(S, true, sqrt).value;
      AllDim(b[..j], |S[j]|) && NonZero(b[..j]) &&
      var w := Residual(b[..j], S[j]);
      Dot(b[j], S[j]) == sqrt(Dot(w, w)) && Dot(b[j], S[j]) > 0.0
  {
    var b := Basis(S, true, sqrt).value;
    BasisComponent(S, true, sqrt, j, j);
    OrthonormalBasisShape(S, sqrt, j);
    NormalizedComponent(Residual(b[..j], S[j]), sqrt);
  }

  /** The normalised w has component along w equal to the norm of w. */
  lemma {:induction false} NormalizedComponent(w: Vector, sqrt: real -> real)
    requires IsSqrt(sqrt) && sqrt(Dot(w, w)) != 0.0
    ensures var s := sqrt(Dot(w, w)); Dot(Divide(w, s), w) == s && s > 0.0
  {
    var p := Dot(w, w);
    var s := sqrt(p);
    DotNonNegative(w);
    assert 0.0 <= s && s * s == p;
    DotSym(Divide(w, s), w);
    DotDivide(w, w, s);
    SquareOverRoot(s);
  }

  /** Against unit vectors the projection coefficients are plain dot products. */
  lemma {:induction false} CoefficientsOfUnit(b: seq<Vector>, v: Vector)
    requires AllDim(b, |v|) && forall l :: 0 <= l < |b| ==> Dot(b[l], b[l]) == 1.0
    ensures NonZero(b) && Coefficients(b, v) == MatVec(b, v)
  {
  }

  /** With a true square root, the combination of the vectors before j, weighted by input j's components along them, is the projection of input j. */
  lemma {:induction false} ExpansionPrefix(S: seq<Vector>, sqrt: real -> real, j: nat)
    requires Uniform(S) && IsSqrt(sqrt) && j < |S| && Basis(S, true, sqrt).Some?
    ensures var b := Basis(S, true, sqrt).value;
      AllDim(b[..j], |S[j]|) && NonZero(b[..j]) &&
      LinComb(MatVec(b[..j], S[j]), b[..j], |S[j]|) == Projection(b[..j], S[j])
  {
    var b := Basis(S, true, sqrt).value;
    BasisPrefixDim(S, true, sqrt, j);
    BasisUnit(S, sqrt);
    CoefficientsOfUnit(b[..j], S[j]);
  }

  /** Every input vector is its projection plus its residual. */
  lemma {:induction false} ProjectionPlusResidual(b: seq<Vector>, v: Vector)
    requires AllDim(b, |v|) && NonZero(b)
    ensures Add(Projection(b, v), Residual(b, v)) == v
  {
    if |b| == 0 {
      AddZerosLeft(v);
    } else {
      AddSubCancel(Projection(b, v), v);
    }
  }

  /** With a true square root, input j's component along basis vector j, times that vector, is the residual of input j. */
  lemma {:induction false} ExpansionDiagonal(S: seq<Vector>, sqrt: real -> real, j: nat)
    requires Uniform(S) && IsSqrt(sqrt) && j < |S| && Basis(S, true, sqrt).Some?
    ensures var b := Basis(S, true, sqrt).value;
      AllDim(b[..j], |S[j]|) && NonZero(b[..j]) &&
      Scale(Dot(b[j], S[j]), b[j]) == Residual(b[..j], S[j])
  {
    var b := Basis(S, true, sqrt).value;
    BasisDiagonal(S, sqrt, j);
    OrthonormalBasisShape(S, sqrt, j);
    var w := Residual(b[..j], S[j]);
    ScaleDivide(w, sqrt(Dot(w, w)));
  }

  lemma {:induction false} LinCombPeel(x: seq<real>, B: seq<Vector>, d: nat)
    requires |x| == |B| > 0 && AllDim(B, d)
    ensures var n := |x| - 1; LinComb(x, B, d) == Add(LinComb(x[..n], B[..n], d), Scale(x[n], B[n]))
  {
  }

  lemma {:induction false} MatVecPrefix(B: seq<Vector>, y: Vector, m: nat)
    requires AllDim(B, |y|) && m <= |B|
    ensures MatVec(B, y)[..m] == MatVec(B[..m], y)
  {
  }

  /** With a true square root, the combination of the basis vectors up to j, weighted by input j's components along them, is input j. */
  lemma {:induction false} ExpansionHead(S: seq<Vector>, sqrt: real -> real, j: nat)
    requires Uniform(S) && IsSqrt(sqrt) && j < |S| && Basis(S, true, sqrt).Some?
    ensures var b := Basis(S, true, sqrt).value;
      AllDim(b[..j + 1], |S[j]|) && LinComb(MatVec(b, S[j])[..j + 1], b[..j + 1], |S[j]|) == S[j]
  {
    var b := Basis(S, true, sqrt).value;
    BasisDim(S, true, sqrt);
    var x := MatVec(b, S[j]);
    MatVecPrefix(b, S[j], j);
    ExpansionPrefix(S, sqrt, j);
    ExpansionDiagonal(S, sqrt, j);
    ProjectionPlusResidual(b[..j], S[j]);
    CombineHead(x, b, |S[j]|, j, Projection(b[..j], S[j]), Residual(b[..j], S[j]), S[j]);
  }

  lemma {:induction false} CombineHead(x: seq<real>, B: seq<Vector>, d: nat, j: nat, p: Vector, w: Vector, v: Vector)
    requires |x| == |B| && AllDim(B, d) && j < |x|
    requires LinComb(x[..j], B[..j], d) == p && Scale(x[j], B[j]) == w
    requires |p| == |w| && Add(p, w) == v
    ensures LinComb(x[..j + 1], B[..j + 1], d) == v
  {
    LinCombPeel(x[..j + 1], B[..j + 1], d);
    assert x[..j + 1][..j] == x[..j] && B[..j + 1][..j] == B[..j];
  }

  /** With normalising and a true square root, every input vector is the combination of the basis vectors weighted by its components along them. */
  lemma {:induction false} BasisExpansion(S: seq<Vector>, sqrt: real -> real, j: nat)
    requires Uniform(S) && IsSqrt(sqrt) && j < |S| && Basis(S, true, sqrt).Some?
    ensures var b := Basis(S, true, sqrt).value;
      AllDim(b, |S[j]|) && LinComb(MatVec(b, S[j]), b, |S[j]|) == S[j]
  {
    var b := Basis(S, true, sqrt).value;
    BasisDim(S, true, sqrt);
    var x := MatVec(b, S[j]);
    forall l | j + 1 <= l < |x|
      ensures x[l] == 0.0
    {
      BasisTriangular(S, sqrt, l, j);
    }
    LinCombTrailingZeros(x, b, |S[j]|, j + 1);
    ExpansionHead(S, sqrt, j);
  }
}
