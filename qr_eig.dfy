/**
 Eigenvalues by the unshifted QR algorithm (QR.py, QR_eig).

 Starting from M and the identity, each round factorises the current matrix
 as Q R and replaces it by Qᵗ M Q, accumulating the Q factors. The rounds stop
 once the largest strictly-lower-triangular entry, in absolute value, falls
 below the absolute precision ap (or below rp times itself). The diagonal is
 then returned sorted from largest to smallest, with the accumulated
 transformation's columns (the rows of its transpose) in the same order.

 The source loops without bound; here a round budget makes the loop finite,
 and running out of it is reported as NoConvergence. More budget never changes
 an answer that a smaller budget already gives (RunMoreFuel).
 */
module QREigen {
  import opened LinAlg
  import opened Wrappers
  import opened GramSchmidt
  import opened QRFactor
  import opened Sorting

  /** Why QR_eig gives no answer: the input is not square, it has no entries (so the maximum
      of its lower triangle does not exist), a factorisation divides by zero, or the round
      budget ran out before the stopping test held. */
  datatype EigError = NotSquare | EmptyMatrix | Degenerate | NoConvergence

  /** The result: eigenvalue estimates and, at the same positions, their eigenvector estimates. */
  datatype Eigen = Eigen(values: seq<real>, vectors: seq<Vector>)

  // ---------------------------------------------------------------------------
  // Stopping test

  /** The largest absolute value in v, or 0 when v is empty. */
  function MaxAbs(v: Vector): (m: real)
    ensures 0.0 <= m
    ensures forall k :: 0 <= k < |v| ==> Abs(v[k]) <= m
    ensures m == 0.0 || exists k :: 0 <= k < |v| && Abs(v[k]) == m
    decreases |v|
  {
    if |v| == 0 then 0.0
    else
      var n := |v| - 1;
      var m := MaxAbs(v[..n]);
      assert forall k :: 0 <= k < n ==> v[..n][k] == v[k];
      Max(m, Abs(v[n]))
  }

  /** The largest absolute value below the diagonal in the first k rows of M, or 0 when there is none. */
  function LowerMax(M: Matrix, k: nat): (m: real)
    requires IsSquare(M, |M|) && k <= |M|
    ensures 0.0 <= m
    ensures forall i, j :: 0 <= j < i < k ==> Abs(M[i][j]) <= m
    ensures m == 0.0 || exists i, j :: 0 <= j < i < k && Abs(M[i][j]) == m
  {
    if k == 0 then 0.0
    else
      var row := M[k - 1][..k - 1];
      assert forall j :: 0 <= j < k - 1 ==> row[j] == M[k - 1][j];
      Max(LowerMax(M, k - 1), MaxAbs(row))
  }

  /** max_val: the largest entry of |tril(M, -1)|; the zeros on and above the diagonal
      take part, so it is 0 when there is nothing below the diagonal. */
  function StrictLowerMax(M: Matrix): (m: real)
    requires IsSquare(M, |M|)
    ensures 0.0 <= m
    ensures forall i, j :: 0 <= j < i < |M| ==> Abs(M[i][j]) <= m
    ensures m == 0.0 || exists i, j :: 0 <= j < i < |M| && Abs(M[i][j]) == m
  {
    LowerMax(M, |M|)
  }

  /** The loop's exit test. */
  predicate Stop(maxVal: real, ap: real, rp: real)
  {
    maxVal < ap || maxVal < rp * maxVal
  }

  /** With a relative precision of at most 1 the relative test never fires: only ap decides. */
  lemma {:induction false} StopRelativeAtMostOne(maxVal: real, ap: real, rp: real)
    requires 0.0 <= maxVal && rp <= 1.0
    ensures Stop(maxVal, ap, rp) <==> maxVal < ap
  {
    assert rp * maxVal <= maxVal by {
      assert (1.0 - rp) * maxVal >= 0.0;
    }
  }

  /** With a relative precision above 1 the relative test fires on every non-zero maximum. */
  lemma {:induction false} StopRelativeAboveOne(maxVal: real, ap: real, rp: real)
    requires 0.0 <= maxVal && rp > 1.0
    ensures Stop(maxVal, ap, rp) <==> maxVal < ap || maxVal > 0.0
  {
    if maxVal > 0.0 {
      assert (rp - 1.0) * maxVal > 0.0;
    }
  }

  // ---------------------------------------------------------------------------
  // The iteration

  /** One round: factorise M as Q R, then M becomes Qᵗ M Q and the accumulated P becomes P Q. */
  function Step(M: Matrix, P: Matrix, sqrt: real -> real): (s: (Matrix, Matrix))
    requires |M| > 0 && IsSquare(M, |M|) && IsSquare(P, |M|) && Factorizable(M, sqrt)
    ensures IsSquare(s.0, |M|) && IsSquare(s.1, |M|)
  {
    var Q := QR(M, sqrt).0;
    (MatMul(MatMul(Transpose(Q), M), Q), MatMul(P, Q))
  }

  /** The rounds from the state (M, P) with at most fuel factorisations: the final
      (M, P) once the exit test holds, or why there is none. */
  function Run(M: Matrix, P: Matrix, ap: real, rp: real, sqrt: real -> real, fuel: nat)
    : (r: Result<(Matrix, Matrix), EigError>)
    requires |M| > 0 && IsSquare(M, |M|) && IsSquare(P, |M|)
    ensures r.Success? ==> IsSquare(r.value.0, |M|) && IsSquare(r.value.1, |M|)
    ensures r.Success? ==> Stop(StrictLowerMax(r.value.0), ap, rp)
    ensures r.Failure? ==> r.error == NoConvergence || r.error == Degenerate
    decreases fuel
  {
    if Stop(StrictLowerMax(M), ap, rp) then Success((M, P))
    else if fuel == 0 then Failure(NoConvergence)
    else if !Factorizable(M, sqrt) then Failure(Degenerate)
    else
      var s := Step(M, P, sqrt);
      Run(s.0, s.1, ap, rp, sqrt, fuel - 1)
  }

  /** The sorted result: diagonal entries of M in the order p, with the columns of P in the same order. */
  function Assemble(M: Matrix, P: Matrix, p: seq<nat>): (e: Eigen)
    requires |M| > 0 && IsSquare(M, |M|) && IsSquare(P, |M|) && InRange(p, |M|)
    ensures |e.values| == |e.vectors| == |p|
  {
    Eigen(Values(Diagonal(M), p), Values(Transpose(P), p))
  }

  /** What QR_eig(M, ap, rp) returns when at most budget rounds are allowed. */
  function EigenSpec(M: Matrix, ap: real, rp: real, sqrt: real -> real, budget: nat)
    : (r: Result<Eigen, EigError>)
    requires Rect(M)
    ensures r == Failure(NotSquare) <==> |M| != Cols(M)
    ensures r == Failure(EmptyMatrix) <==> |M| == 0
    ensures r.Success? ==> |r.value.values| == |r.value.vectors| == |M|
  {
    if |M| != Cols(M) then Failure(NotSquare)
    else if |M| == 0 then Failure(EmptyMatrix)
    else
      IdentityIsMatrix(|M|);
      match Run(M, Identity(|M|), ap, rp, sqrt, budget)
      case Failure(e) => Failure(e)
      case Success(final) =>
        var Mf := final.0;
        Success(Assemble(Mf, final.1, ArgsortDesc(Diagonal(Mf), |M|)))
  }

  /** QR_eig with a round budget. */
  method QREig(M: Matrix, ap: real, rp: real, sqrt: real -> real, budget: nat)
    returns (r: Result<Eigen, EigError>)
    requires Rect(M)
    ensures r == EigenSpec(M, ap, rp, sqrt, budget)
  {
    var n := |M|;
    if n != Cols(M) {
      return Failure(NotSquare);
    }
    if n == 0 {
      return Failure(EmptyMatrix);
    }
    IdentityIsMatrix(n);
    var Mu := M;
    var Qu := Identity(n);
    var fuel := budget;
    ghost var outcome := Run(M, Qu, ap, rp, sqrt, budget);
    while true
      invariant IsSquare(Mu, n) && IsSquare(Qu, n)
      invariant Run(Mu, Qu, ap, rp, sqrt, fuel) == outcome
      decreases fuel
    {
      var maxVal := StrictLowerMax(Mu);
      if Stop(maxVal, ap, rp) {
        break;
      }
      if fuel == 0 {
        return Failure(NoConvergence);
      }
      if !Factorizable(Mu, sqrt) {
        return Failure(Degenerate);
      }
      ghost var M0, Q0, f0 := Mu, Qu, fuel;
      var next := Step(Mu, Qu, sqrt);
      Mu, Qu, fuel := next.0, next.1, fuel - 1;
      RunRound(M0, Q0, ap, rp, sqrt, f0, Mu, Qu, fuel);
    }
    RunStops(Mu, Qu, ap, rp, sqrt, fuel);
    var sortIndices := ArgsortDesc(Diagonal(Mu), n);
    r := Success(Assemble(Mu, Qu, sortIndices));
  }

  /** Once the exit test holds, the rounds end at the current state. */
  lemma {:induction false} RunStops(M: Matrix, P: Matrix, ap: real, rp: real, sqrt: real -> real, fuel: nat)
    requires |M| > 0 && IsSquare(M, |M|) && IsSquare(P, |M|) && Stop(StrictLowerMax(M), ap, rp)
    ensures Run(M, P, ap, rp, sqrt, fuel) == Success((M, P))
  {
  }

  /** Before the exit test holds, no fuel left means no convergence. */
  lemma {:induction false} RunExhausted(M: Matrix, P: Matrix, ap: real, rp: real, sqrt: real -> real)
    requires |M| > 0 && IsSquare(M, |M|) && IsSquare(P, |M|) && !Stop(StrictLowerMax(M), ap, rp)
    ensures Run(M, P, ap, rp, sqrt, 0) == Failure(NoConvergence)
  {
  }

  /** Before the exit test holds, with fuel left, a state that cannot be factorised is degenerate. */
  lemma {:induction false} RunDegenerate(M: Matrix, P: Matrix, ap: real, rp: real, sqrt: real -> real, fuel: nat)
    requires |M| > 0 && IsSquare(M, |M|) && IsSquare(P, |M|) && !Stop(StrictLowerMax(M), ap, rp)
    requires fuel > 0 && !Factorizable(M, sqrt)
    ensures Run(M, P, ap, rp, sqrt, fuel) == Failure(Degenerate)
  {
  }

  /** Before the exit test holds, a factorisable state with fuel left takes one round. */
  lemma {:induction false} RunRound(M: Matrix, P: Matrix, ap: real, rp: real, sqrt: real -> real, fuel: nat,
                                    M': Matrix, P': Matrix, fuel': nat)
    requires |M| > 0 && IsSquare(M, |M|) && IsSquare(P, |M|) && !Stop(StrictLowerMax(M), ap, rp)
    requires fuel > 0 && Factorizable(M, sqrt)
    requires M' == Step(M, P, sqrt).0 && P' == Step(M, P, sqrt).1 && fuel' == fuel - 1
    ensures Run(M, P, ap, rp, sqrt, fuel) == Run(M', P', ap, rp, sqrt, fuel')
  {
    var s := Step(M, P, sqrt);
    assert Run(M, P, ap, rp, sqrt, fuel) == Run(s.0, s.1, ap, rp, sqrt, fuel - 1);
  }

  // ---------------------------------------------------------------------------
  // Similarity: every round keeps M_updated == Q_updatedᵗ M Q_updated

  /** Pᵗ M P. */
  function Sim(P: Matrix, M: Matrix): (S: Matrix)
    requires |M| > 0 && IsSquare(M, |M|) && IsSquare(P, |M|)
    ensures IsSquare(S, |M|)
  {
    MatMul(MatMul(Transpose(P), M), P)
  }

  /** Pᵗ P == I: the columns of P are orthonormal. */
  predicate Orthogonal(P: Matrix)
    requires Rect(P)
  {
    MatMul(Transpose(P), P) == Identity(Cols(P))
  }

  /** Conjugating Pᵗ M P by Q gives (P Q)ᵗ M (P Q). */
  lemma {:induction false} SimStep(M: Matrix, P: Matrix, Q: Matrix)
    requires |M| > 0 && IsSquare(M, |M|) && IsSquare(P, |M|) && IsSquare(Q, |M|)
    ensures MatMul(MatMul(Transpose(Q), Sim(P, M)), Q) == Sim(MatMul(P, Q), M)
  {
    var n := |M|;
    var Pt := Transpose(P);
    var Qt := Transpose(Q);
    var A := MatMul(Pt, M);
    var B := MatMul(Qt, Pt);
    MatMulAssoc(Qt, A, P, n, n, n, n);
    MatMulAssoc(Qt, Pt, M, n, n, n, n);
    MatMulAssoc(MatMul(B, M), P, Q, n, n, n, n);
    TransposeMatMul(P, Q, n, n, n);
  }

  /** The product of two orthogonal n x n matrices is orthogonal. */
  lemma {:induction false} OrthogonalProduct(P: Matrix, Q: Matrix, n: nat)
    requires n > 0 && IsSquare(P, n) && IsSquare(Q, n) && Orthogonal(P) && Orthogonal(Q)
    ensures IsSquare(MatMul(P, Q), n) && Orthogonal(MatMul(P, Q))
  {
    var Pt := Transpose(P);
    var Qt := Transpose(Q);
    var PQ := MatMul(P, Q);
    TransposeMatMul(P, Q, n, n, n);
    MatMulAssoc(Qt, Pt, PQ, n, n, n, n);
    MatMulAssoc(Pt, P, Q, n, n, n, n);
    MatMulIdentityLeft(Q, n, n);
  }

  /** The starting state: Iᵗ M I == M, and I is orthogonal. */
  lemma {:induction false} SimIdentity(M: Matrix)
    requires |M| > 0 && IsSquare(M, |M|)
    ensures IsSquare(Identity(|M|), |M|) && Sim(Identity(|M|), M) == M && Orthogonal(Identity(|M|))
  {
    var n := |M|;
    IdentityIsMatrix(n);
    TransposeIdentity(n);
    MatMulIdentityLeft(M, n, n);
    MatMulIdentityRight(M, n, n);
    MatMulIdentityLeft(Identity(n), n, n);
  }

  /** One round keeps the state of the form (Pᵗ M0 P, P). */
  lemma {:induction false} SimilarRound(M0: Matrix, M: Matrix, P: Matrix, sqrt: real -> real, M': Matrix, P': Matrix)
    requires |M0| > 0 && IsSquare(M0, |M0|) && IsSquare(P, |M0|) && M == Sim(P, M0) && Factorizable(M, sqrt)
    requires M' == Step(M, P, sqrt).0 && P' == Step(M, P, sqrt).1
    ensures IsSquare(P', |M0|) && M' == Sim(P', M0)
  {
    SimStep(M0, P, QR(M, sqrt).0);
  }

  /** With a true square root, one round keeps P orthogonal. */
  lemma {:induction false} OrthogonalRound(M: Matrix, P: Matrix, sqrt: real -> real, M': Matrix, P': Matrix)
    requires |M| > 0 && IsSquare(M, |M|) && IsSquare(P, |M|) && Orthogonal(P) && Factorizable(M, sqrt) && IsSqrt(sqrt)
    requires M' == Step(M, P, sqrt).0 && P' == Step(M, P, sqrt).1
    ensures IsSquare(M', |M|) && IsSquare(P', |M|) && Orthogonal(P')
  {
    QOrthonormal(M, sqrt);
    OrthogonalProduct(P, QR(M, sqrt).0, |M|);
  }

  /** If the state is (Pᵗ M0 P, P), so is the final state (Mf, Pf). */
  lemma {:induction false} RunSimilar(M0: Matrix, M: Matrix, P: Matrix, ap: real, rp: real, sqrt: real -> real, fuel: nat,
                                      Mf: Matrix, Pf: Matrix)
    requires |M0| > 0 && IsSquare(M0, |M0|) && IsSquare(P, |M0|) && M == Sim(P, M0)
    requires Run(M, P, ap, rp, sqrt, fuel) == Success((Mf, Pf))
    ensures IsSquare(Pf, |M0|) && Mf == Sim(Pf, M0)
    decreases fuel
  {
    if Stop(StrictLowerMax(M), ap, rp) {
      RunStops(M, P, ap, rp, sqrt, fuel);
    } else if fuel == 0 {
      RunExhausted(M, P, ap, rp, sqrt);
      assert false;
    } else if !Factorizable(M, sqrt) {
      RunDegenerate(M, P, ap, rp, sqrt, fuel);
      assert false;
    } else {
      var M', P', f := Step(M, P, sqrt).0, Step(M, P, sqrt).1, fuel - 1;
      RunRound(M, P, ap, rp, sqrt, fuel, M', P', f);
      SimilarRound(M0, M, P, sqrt, M', P');
      RunSimilar(M0, M', P', ap, rp, sqrt, f, Mf, Pf);
    }
  }

  /** With a true square root, an orthogonal P stays orthogonal to the final state (Mf, Pf). */
  lemma {:induction false} RunOrthogonal(M: Matrix, P: Matrix, ap: real, rp: real, sqrt: real -> real, fuel: nat,
                                         Mf: Matrix, Pf: Matrix)
    requires |M| > 0 && IsSquare(M, |M|) && IsSquare(P, |M|) && Orthogonal(P) && IsSqrt(sqrt)
    requires Run(M, P, ap, rp, sqrt, fuel) == Success((Mf, Pf))
    ensures IsSquare(Pf, |M|) && Orthogonal(Pf)
    decreases fuel
  {
    if Stop(StrictLowerMax(M), ap, rp) {
      RunStops(M, P, ap, rp, sqrt, fuel);
    } else if fuel == 0 {
      RunExhausted(M, P, ap, rp, sqrt);
      assert false;
    } else if !Factorizable(M, sqrt) {
      RunDegenerate(M, P, ap, rp, sqrt, fuel);
      assert false;
    } else {
      var M', P', f := Step(M, P, sqrt).0, Step(M, P, sqrt).1, fuel - 1;
      RunRound(M, P, ap, rp, sqrt, fuel, M', P', f);
      OrthogonalRound(M, P, sqrt, M', P');
      RunOrthogonal(M', P', ap, rp, sqrt, f, Mf, Pf);
    }
  }

  /** A larger budget changes nothing unless the smaller one ran out. */
  lemma {:induction false} RunMoreFuel(M: Matrix, P: Matrix, ap: real, rp: real, sqrt: real -> real, fuel: nat, more: nat,
                                       r: Result<(Matrix, Matrix), EigError>)
    requires |M| > 0 && IsSquare(M, |M|) && IsSquare(P, |M|) && fuel <= more
    requires Run(M, P, ap, rp, sqrt, fuel) == r && r != Failure(NoConvergence)
    ensures Run(M, P, ap, rp, sqrt, more) == r
    decreases fuel
  {
    if Stop(StrictLowerMax(M), ap, rp) {
      RunStops(M, P, ap, rp, sqrt, fuel);
      RunStops(M, P, ap, rp, sqrt, more);
    } else if fuel == 0 {
      RunExhausted(M, P, ap, rp, sqrt);
      assert false;
    } else if !Factorizable(M, sqrt) {
      RunDegenerate(M, P, ap, rp, sqrt, fuel);
      RunDegenerate(M, P, ap, rp, sqrt, more);
    } else {
      var M', P', f, g := Step(M, P, sqrt).0, Step(M, P, sqrt).1, fuel - 1, more - 1;
      RunRound(M, P, ap, rp, sqrt, fuel, M', P', f);
      RunRound(M, P, ap, rp, sqrt, more, M', P', g);
      RunMoreFuel(M', P', ap, rp, sqrt, f, g, r);
    }
  }

  /** Conjugation keeps a symmetric matrix symmetric. */
  lemma {:induction false} SimSymmetric(P: Matrix, M: Matrix)
    requires |M| > 0 && IsSquare(M, |M|) && IsSquare(P, |M|) && Transpose(M) == M
    ensures Transpose(Sim(P, M)) == Sim(P, M)
  {
    var n := |M|;
    var Pt := Transpose(P);
    var A := MatMul(Pt, M);
    TransposeMatMul(A, P, n, n, n);
    TransposeMatMul(Pt, M, n, n, n);
    TransposeTwice(P, n, n);
    MatMulAssoc(Pt, M, P, n, n, n, n);
  }

  // ---------------------------------------------------------------------------
  // What QR_eig returns

  /** e lays out the diagonal of M from largest to smallest, the values being the diagonal
      rearranged, and keeps each value with its vector: for some permutation p, value k is
      diagonal entry p[k] and vector k is column p[k] of P. */
  ghost predicate SortedLayout(e: Eigen, M: Matrix, P: Matrix)
    requires IsSquare(M, |M|) && IsSquare(P, |M|)
  {
    |e.values| == |M| && |e.vectors| == |M|
    && (forall a, b :: 0 <= a < b < |M| ==> e.values[a] >= e.values[b])
    && multiset(e.values) == multiset(Diagonal(M))
    && exists p :: IsPermutation(p, |M|) && |p| == |M| && InRange(p, |M|)
         && forall k :: 0 <= k < |M| ==> e.values[k] == M[p[k]][p[k]] && e.vectors[k] == Column(P, p[k])
  }

  /** Laying out M and P along any descending permutation of the diagonal's indices gives a sorted layout. */
  lemma {:induction false} AssembleSorted(M: Matrix, P: Matrix, p: seq<nat>)
    requires |M| > 0 && IsSquare(M, |M|) && IsSquare(P, |M|)
    requires InRange(p, |M|) && IsPermutation(p, |M|) && SortedDesc(Diagonal(M), p)
    ensures SortedLayout(Assemble(M, P, p), M, P)
  {
    assert |p| == |multiset(p)| == |multiset(Range(|M|))| == |M|;
    PermutedValues(Diagonal(M), p);
    SortedValues(Diagonal(M), p);
  }

  /** A successful run of QR_eig(M): M is square and non-empty, the rounds ended at (Mf, Pf) with
      Mf == Pfᵗ M Pf, with Pf orthogonal when sqrt is a true square root, with the exit test met,
      and with the result laid out from Mf and Pf. */
  lemma {:induction false} EigenSpecSuccess(M: Matrix, ap: real, rp: real, sqrt: real -> real, budget: nat)
    requires Rect(M) && EigenSpec(M, ap, rp, sqrt, budget).Success?
    ensures |M| > 0 && IsSquare(M, |M|) && IsSquare(Identity(|M|), |M|)
    ensures var run := Run(M, Identity(|M|), ap, rp, sqrt, budget);
      run.Success? && var Mf := run.value.0; var Pf := run.value.1;
      Mf == Sim(Pf, M)
      && (IsSqrt(sqrt) ==> Orthogonal(Pf))
      && Stop(StrictLowerMax(Mf), ap, rp)
      && SortedLayout(EigenSpec(M, ap, rp, sqrt, budget).value, Mf, Pf)
  {
    var n := |M|;
    SimIdentity(M);
    var run := Run(M, Identity(n), ap, rp, sqrt, budget);
    var Mf, Pf := run.value.0, run.value.1;
    RunSimilar(M, M, Identity(n), ap, rp, sqrt, budget, Mf, Pf);
    if IsSqrt(sqrt) {
      RunOrthogonal(M, Identity(n), ap, rp, sqrt, budget, Mf, Pf);
    }
    AssembleSorted(Mf, Pf, ArgsortDesc(Diagonal(Mf), n));
  }

  /** A symmetric input gives a symmetric final matrix. */
  lemma {:induction false} EigenSpecSymmetric(M: Matrix, ap: real, rp: real, sqrt: real -> real, budget: nat)
    requires Rect(M) && Transpose(M) == M && EigenSpec(M, ap, rp, sqrt, budget).Success?
    ensures |M| > 0 && IsSquare(M, |M|) && IsSquare(Identity(|M|), |M|)
    ensures var run := Run(M, Identity(|M|), ap, rp, sqrt, budget);
      run.Success? && Transpose(run.value.0) == run.value.0
  {
    EigenSpecSuccess(M, ap, rp, sqrt, budget);
    var run := Run(M, Identity(|M|), ap, rp, sqrt, budget);
    SimSymmetric(run.value.1, M);
  }

  /** The identity has nothing below its diagonal. */
  lemma {:induction false} IdentityLowerZero(n: nat)
    ensures IsSquare(Identity(n), n) && StrictLowerMax(Identity(n)) == 0.0
  {
    IdentityIsMatrix(n);
  }

  /** With ap > 0 the identity stops before any round, whatever the budget, with every eigenvalue 1
      and the identity's rows, in some order, as eigenvectors. */
  lemma {:induction false} IdentityConverges(n: nat, ap: real, rp: real, sqrt: real -> real, budget: nat)
    requires n > 0 && ap > 0.0
    ensures IsSquare(Identity(n), n)
    ensures var r := EigenSpec(Identity(n), ap, rp, sqrt, budget);
      r.Success? && r == EigenSpec(Identity(n), ap, rp, sqrt, 0)
      && (forall k :: 0 <= k < |r.value.values| ==> r.value.values[k] == 1.0)
      && multiset(r.value.vectors) == multiset(Identity(n))
  {
    var I := Identity(n);
    IdentityLowerZero(n);
    RunStops(I, I, ap, rp, sqrt, budget);
    RunStops(I, I, ap, rp, sqrt, 0);
    TransposeIdentity(n);
    var p := ArgsortDesc(Diagonal(I), n);
    PermutedValues(I, p);
  }
}
