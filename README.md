# QR eigenvalue solver, modelled and verified in Dafny

This project models the `QR.py` module, which is made of three operations:

- `gram_schmidt` orthogonalises a list of vectors in order, classical Gram-Schmidt style, and normalises them when asked.
- `QR` factorises a matrix as `Q R`. `Q` is the orthonormalised columns of the matrix and `R = Qᵗ A`.
- `QR_eig` runs the unshifted QR algorithm. It replaces `M` by `Qᵗ M Q` over and over, and accumulates the product of the `Q` factors. It stops once the largest absolute entry strictly below the diagonal is under the absolute precision `ap`, or under `rp` times itself. It then returns the diagonal sorted from largest to smallest, together with the matching columns of the accumulated transformation.

Arithmetic is exact (`real`). The square root is a parameter `sqrt: real -> real`. Lemmas that need a true square root assume `IsSqrt(sqrt)`, which says that `sqrt(x)` is the non-negative root of every `x >= 0`.

Files:

- `wrappers.dfy`: `Option` and `Result`.
- `linalg.dfy`: vectors and matrices as sequences, and the numpy operations the module uses (`np.dot`, `.T`, `np.identity`, `.diagonal()`), with their algebra.
- `gram_schmidt.dfy`: `gram_schmidt`, as the specification function `Basis` and the loop method `GramSchmidt`.
- `qr.dfy`: `QR`.
- `sorting.dfy`: `argsort()[::-1]`, as an index sort in descending order.
- `qr_eig.dfy`: `QR_eig`, as the specification functions `Run` and `EigenSpec` and the loop method `QREig`.

## Model

| member | source | states |
|---|---|---|
| GramSchmidt.Basis | QR.py:2-18 | The basis has one vector per input vector, each with its input's length. By definition it is `None` where the source divides by zero: at line 14 by an earlier `u · u == 0`, or at line 16 by a zero norm. `BasisNone` states this as a lemma. |
| GramSchmidt.Residual | QR.py:11-14 | Definition: the first input as it is, and every later input minus the sum of its projections `(u·v)/(u·u) · u` onto the vectors already built. `BasisShape` states that the basis is made of these. |
| GramSchmidt.Next | QR.py:11-16 | Definition: one pass of the loop body, the residual, then divided by `sqrt` of its squared norm when normalising. It is `None` where that step divides by zero, as `NextNone` states. |
| GramSchmidt.NextNone | QR.py:14-16 | One step fails exactly when some vector already built has `u · u == 0` (the coefficient at line 14), or when normalising finds a zero norm (line 16). |
| GramSchmidt.DividesByZeroAt | QR.py:14-16 | Definition: the vectors before input `i` are built, and building vector `i` divides by zero at line 14 or at line 16. |
| GramSchmidt.BasisNone | QR.py:9-18 | The basis is `None` if and only if building some input's vector divides by zero. |
| GramSchmidt.GramSchmidt | QR.py:9-18 | The append-then-normalise loop returns exactly the basis that `Basis` specifies. |
| GramSchmidt.BasisShape | QR.py:11-14 | Without normalisation, the first vector is kept as it is. Every later vector is its input minus the input's projections onto the vectors built before it, none of which is zero. |
| GramSchmidt.OrthonormalBasisShape | QR.py:14-16 | With normalisation, vector `i` is the residual of input `i` against the earlier basis, divided by the square root of the residual's squared norm, and that root is non-zero. |
| GramSchmidt.BasisOrthogonal | QR.py:9-18 | The vectors are pairwise orthogonal, with or without normalisation, for any `sqrt`. |
| GramSchmidt.BasisUnit | QR.py:15-16 | With normalisation and a true square root, every vector has unit length. |
| GramSchmidt.BasisOfOrthogonal | QR.py:9-14 | A list of non-zero, pairwise orthogonal vectors is its own orthogonal basis. |
| GramSchmidt.BasisOfOrthonormal | QR.py:9-16 | With a true square root (`IsSqrt`), an orthonormal list is its own orthonormal basis. |
| GramSchmidt.BasisIdempotent | QR.py:9-14 | Without normalisation, when the basis has no zero vector, orthogonalising it again gives the same basis. |
| GramSchmidt.BasisTriangular | QR.py:14-16 | Orthonormal vector `k` is orthogonal to every input `j < k`. |
| GramSchmidt.BasisDiagonal | QR.py:14-16 | With a true square root, orthonormal vector `j` has a positive component along input `j`. |
| GramSchmidt.BasisExpansion | QR.py:14-16 | With a true square root, every input is the sum of its components along the orthonormal basis. |
| QRFactor.QR | QR.py:22-36 | `Q` has as many rows as `A` and one column per column of `A`. `R` is square, one row and column per column of `A`. |
| QRFactor.QColumns | QR.py:29-32 | Column `j` of `Q` is basis vector `j` of `A`'s columns, and `Qᵗ` is that basis. |
| QRFactor.REntries | QR.py:34 | `R[k][j]` is the component of column `j` of `A` along basis vector `k`. |
| QRFactor.QOrthonormal | QR.py:31-32 | With a true square root, `Qᵗ Q` is the identity. |
| QRFactor.RUpperTriangular | QR.py:33-34 | `R` is zero below its diagonal. |
| QRFactor.RDiagonalPositive | QR.py:33-34 | With a true square root, `R` has a positive diagonal. |
| QRFactor.RColumn | QR.py:34 | Column `j` of `R` is `Qᵗ` applied to column `j` of `A`. |
| QRFactor.QRReconstructs | QR.py:22-36 | With a true square root, `Q R == A`. |
| QRFactor.QROfOrthonormal | QR.py:22-36 | With a true square root (`IsSqrt`), a matrix with orthonormal columns factorises, and its factors are `Q == A` and `R == I`. |
| QREigen.Stop | QR.py:56 | Definition of the exit test `max_val < ap or max_val < rp*max_val`. `StopRelativeAtMostOne` and `StopRelativeAboveOne` state what it amounts to. |
| QREigen.MaxAbs | QR.py:55 | The result is non-negative, bounds every absolute entry, and is attained unless it is 0. |
| QREigen.LowerMax | QR.py:55 | The same as `MaxAbs`, over the strictly lower entries of the first `k` rows. |
| QREigen.StrictLowerMax | QR.py:55 | `np.abs(np.tril(M, k=-1)).max()`: it bounds every entry strictly below the diagonal. It is one of them, or 0, the value of the triangle's zeros. |
| QREigen.StopRelativeAtMostOne | QR.py:56 | When `rp <= 1`, the relative half of the exit test never fires, so the loop stops exactly when the maximum is below `ap`. |
| QREigen.StopRelativeAboveOne | QR.py:56 | When `rp > 1`, the loop stops exactly when the maximum is below `ap` or is positive. |
| QREigen.Step | QR.py:58-60 | One round keeps the iterate and the accumulated transformation square, of the same size. |
| QREigen.Run | QR.py:51-60 | A successful run ends square and meets the exit test. A failure is either a degenerate factorisation or an exhausted budget. |
| QREigen.QREig | QR.py:39-65 | The loop method returns exactly `EigenSpec`. |
| QREigen.Assemble | QR.py:63-65 | There is one value and one vector per index. The values are the diagonal and the vectors are the rows of `Pᵗ`, both read at the given indices. `AssembleSorted` states the layout this gives. |
| QREigen.EigenSpec | QR.py:49-55 | The result is `NotSquare` exactly when the row and column counts differ. It is `EmptyMatrix` exactly when the matrix is empty, because the maximum of an empty triangle does not exist. On success there are `n` values and `n` vectors. |
| QREigen.SimStep | QR.py:59-60 | If `M == Pᵗ M0 P`, one round gives `Qᵗ M Q == (P Q)ᵗ M0 (P Q)`. |
| QREigen.OrthogonalProduct | QR.py:59 | The product of two orthogonal matrices is orthogonal. |
| QREigen.RunSimilar | QR.py:53-60 | Every run keeps the iterate equal to `Pᵗ M0 P` for the accumulated `P`. |
| QREigen.RunOrthogonal | QR.py:53-60 | With a true square root, the accumulated transformation stays orthogonal. |
| QREigen.RunMoreFuel | QR.py:53 | Any answer other than `NoConvergence` stays the same for every larger budget. |
| QREigen.SimSymmetric | QR.py:60 | `Pᵗ M P` is symmetric when `M` is. |
| QREigen.AssembleSorted | QR.py:63-65 | Along any descending permutation of the diagonal's indices: the values are non-increasing, and they rearrange the diagonal. Value `k` and vector `k` come from the same index, the vector being that column of the transformation. |
| QREigen.EigenSpecSuccess | QR.py:39-65 | On success, the final iterate is `Pᵗ M P`, `P` is orthogonal under a true square root, the exit test holds, and the result is the sorted layout of that iterate's diagonal and `P`'s columns. |
| QREigen.EigenSpecSymmetric | QR.py:51-60 | A symmetric input ends at a symmetric iterate. |
| QREigen.IdentityConverges | QR.py:51-56 | For `ap > 0`, the identity stops before any round, whatever the budget. All eigenvalues are 1, and the eigenvectors are the identity's rows in some order. |
| Sorting.Insert | QR.py:63 | Inserting an index into a descending index list keeps it descending. It adds exactly that index. |
| Sorting.InsertPosition | QR.py:63 | The insertion point has every value at least `d[i]` before it and every smaller value after it. |
| Sorting.ArgsortDesc | QR.py:63 | The indices `0..n-1` sorted by descending value: a permutation, and the values are non-increasing. |
| Sorting.PermutedValues | QR.py:65 | Reading `d` along a permutation of its indices rearranges `d`'s values, in the multiset sense. |
| Sorting.SameIndicesSameValues | QR.py:65 | Two index lists with the same multiset of indices read the same multiset of values. |
| LinAlg.Dot | QR.py:14 | Definition of `np.dot` on two vectors of equal length: the sum of the products of their entries. |
| LinAlg.Transpose | QR.py:29 | `.T` of an `r × c` matrix is a `c × r` matrix. `TransposeTwice` and `ColumnOfTranspose` state that its rows are the columns. |
| LinAlg.MatMul | QR.py:34 | `np.dot` of two matrices has one row per row of the left factor and one column per column of the right. Entry `(i, j)` is row `i` dotted with column `j`. |
| LinAlg.Identity | QR.py:52 | Definition of `np.identity(n)`. `IdentityIsMatrix`, `MatMulIdentityLeft` and `MatMulIdentityRight` state that it is `n × n` and neutral for the product. |
| LinAlg.Diagonal | QR.py:63 | Definition of `.diagonal()` of a square matrix: entry `i` is `A[i][i]`. |
| LinAlg.MatMulAssoc | QR.py:59-60 | Matrix product is associative. |
| LinAlg.TransposeMatMul | QR.py:60 | `(A B)ᵗ == Bᵗ Aᵗ`. |

## Left out

- Floating point: all arithmetic is exact `real`. Properties that hold "within floating tolerance" hold exactly here.
- `**0.5`: the square root is a parameter. The properties that depend on its being a true square root assume `IsSqrt`.
- QREigen.QREig: the source's `while True` has no bound. The model takes a round budget and reports `NoConvergence` when it is used up. `RunMoreFuel` shows that a larger budget never changes an answer that was already given.
- QREigen.Run: in the source, a zero norm in Gram-Schmidt yields NaN, which then spreads silently, so the exit test never holds and the loop never ends. The model reports `Degenerate` instead.
- GramSchmidt.GramSchmidt: the method requires the inputs to be non-degenerate, which `Basis(...).Some?` expresses. The degenerate case is modelled in `Basis` as `None`.
- GramSchmidt.Basis: zero-length vectors give `None` in two cases, where numpy returns empty arrays in both. The first is when normalising with a true square root, because of the zero norm at QR.py:16. The second is when there are two or more of them, because `u·u == 0` at QR.py:14. A single zero-length vector without normalising gives `Some([[]])`, as in the source.
- QRFactor.QR: it requires at least one row and one column, and columns that can be orthonormalised. The source's docstring asks for a symmetric matrix, but the code never uses symmetry, and neither does the model.
- Sorting.ArgsortDesc: numpy's `argsort` may order ties differently, so the model breaks ties by one fixed insertion order. Everything proved about the layout of the result (AssembleSorted, EigenSpecSuccess) holds for every descending permutation, whatever the tie order.
- The default arguments are not modelled. `orthonormal=False` (QR.py:2) and `ap=1e-6, rp=1e-5` (QR.py:39) are explicit parameters of `GramSchmidt`, `Basis` and `QREig`.
- GramSchmidt.Basis: `Uniform(S)` requires every input vector to have the same length. Vectors of unequal length, where `np.dot` raises at QR.py:14, are outside the model.
- QREigen.IdentityConverges: the model lists the identity's rows as e₀…eₙ₋₁, while numpy's `argsort()[::-1]` on an all-ones diagonal gives eₙ₋₁…e₀ wherever its sort is stable. The lemma therefore states only that the vectors are the identity's rows in some order. This is the tie order described for Sorting.ArgsortDesc.
- Arrays that are not two-dimensional, where `M.shape` fails, are outside the model. Inputs are rectangular sequences of rows.
- The text of the `'Matrix is not square'` assertion is not modelled; that case is the error `NotSquare`.
- The worked example `[[2,1],[1,2]]` ↦ `[3, 1]` needs a computed square root and is not modelled. The identity case is `IdentityConverges`.
- Convergence of the QR algorithm to a triangular matrix is not proved. The model proves what holds at exit: the exit test, similarity to the input, and orthogonality of the transformation.
