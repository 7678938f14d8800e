# A verified model of the discrete core of a finite-element crate

The crate is a Rust library for continuum mechanics and the finite-element
method. A small Python script, `foo.py`, sits beside it and checks the
derivative of the matrix logarithm against finite differences. Most of the
crate is floating-point mechanics. This project models the parts that are
discrete or purely algebraic, with `real` standing for `f64`:

- the index-formula tensors of `foo.py`:
  - the finite-difference perturbation of `C = FᵀF`;
  - the closed-form derivative of `C⁻¹`;
  - the divided-difference matrix `R`;
  - the unit-perturbation tensor `grad`;
  - the spectral contraction;
- rank-2 tensors: transpose, trace, the symmetry and diagonal tests,
  flattening, the 3×3 determinant, inverse and invariants, the LU factors,
  and the diagonal branches of `logm`/`dlogm`;
- square matrices:
  - the reverse Cuthill–McKee relabelling `Banded::from`;
  - the pivoting LU solve `solve_lu`;
- the compressed-sparse-row matrix: `new`, `add_value`, indexing, the
  product, and the singular exit of the banded LU pivot step;
- finite-element block assembly:
  - connectivity inversion;
  - the sparsity structure `band`;
  - gathering element coordinates;
  - scatter-adding element forces and stiffnesses, for the generic block and
    for thermal conduction;
- the flat-index plumbing of `TensorRank1Vec`, `TensorRank2Vec2D` and tensor
  tuples;
- element shape functions:
  - linear and quadratic tetrahedra;
  - the linear hexahedron;
  - the bilinear quadrilateral;
  - the cohesive mid-surface, separation and sign helpers;
- the message generator's xorshift state and bounded draw;
- one-dimensional linear interpolation.

Each core source file becomes one Dafny module, with these exceptions:
- `src/fem/block/mod.rs` is split into `Block` (block.dfy) and `Band` (band.dfy);
- `Assembly` holds the scatter-add helpers that `Block` and `ThermalConduction` share;
- `Base` (shared tolerances, sums and dense matrix operations) and `Parametric` (what the element modules share) stand for no single source file.

- Code that updates state becomes imperative Dafny:
  - classes `SparseSquare.SparseSquareMatrix`, `SquareMatrix.SquareMatrix` and
    `MessageRandom.Generator`;
  - methods with loops for the assembly, fill and decrement routines.
- Each such method is specified by a function or by a property stated over
  the old and new state.
- Pure code becomes functions and lemmas.
- An explicit panic or `assert!` in the source becomes an error value of a
  `Result`.
- An index-out-of-bounds panic in an internal helper, which callers rule out,
  becomes a precondition.

## Model

| member | source | states |
|---|---|---|
| MatrixLogDerivative.Tabulate4 | foo.py:14-18 | entry `[i][j][k][l]` of the tabulated array is the formula at those indices |
| MatrixLogDerivative.CauchyGreenSymmetric | foo.py:19 | `C = FᵀF` is symmetric |
| MatrixLogDerivative.Perturbed | foo.py:19-22 | a perturbed copy of `C` differs from `C` only at `[k][l]`, by the step |
| MatrixLogDerivative.PerturbedPair | foo.py:19-22 | `C_plus` and `C_minus` differ by `h` at `[k][l]` and agree with `C` elsewhere; perturbing `C_plus` by `-h/2` gives `C` back |
| MatrixLogDerivative.PerturbedBreaksSymmetry | foo.py:19-22 | for `k ≠ l` the perturbed copy is no longer symmetric |
| MatrixLogDerivative.FiniteDifferenceEven | foo.py:23-25 | the central-difference quotient is the same for the steps `h` and `-h` |
| MatrixLogDerivative.FiniteDifferenceOfIdentity | foo.py:23-25 | with the identity as the map, the quotient is `δ_ik δ_jl` |
| MatrixLogDerivative.FiniteDifferenceTensor | foo.py:14-25 | the loop fills every entry with the central-difference quotient |
| MatrixLogDerivative.InverseDerivativeSymmetries | foo.py:36-41 | `derivative_a` is symmetric in `(i,j)` and in `(k,l)`; it has the major symmetry when `C⁻¹` is symmetric |
| MatrixLogDerivative.InverseDerivativeMajorNeedsSymmetry | foo.py:36-41 | for a non-symmetric `C⁻¹` the major symmetry fails |
| MatrixLogDerivative.InverseDerivativeTensor | foo.py:29-41 | the loop fills every entry with the closed formula |
| MatrixLogDerivative.DividedDifferenceProperties | foo.py:54-57 | `R` is symmetric; equal eigenvalues give `1/e_j`; all eigenvalues equal to `c` give `1/c` everywhere |
| MatrixLogDerivative.DividedDifferenceMatrix | foo.py:51-57 | the loop fills `R` with the divided differences, and `R` is symmetric |
| MatrixLogDerivative.GradSymmetries | foo.py:59-64 | `grad` is symmetric in `(i,j)` and `(k,l)`; `grad[i][j][i][j] = 0.5` for `i ≠ j` and `grad[i][i][i][i] = 1` |
| MatrixLogDerivative.GradMajor | foo.py:59-64 | `grad` has the major symmetry |
| MatrixLogDerivative.GradActsAsIdentity | foo.py:59-64 | contracting `grad[i][j]` with any matrix `s` gives `s[i][j]` when `s` is symmetric |
| MatrixLogDerivative.GradTensor | foo.py:59-64 | the loop fills every entry of `grad` |
| MatrixLogDerivative.SpectralAsWrittenTensor | foo.py:66-71 | the loop as written fills each entry with `(Q·(R∘(Qᵀ·grad[k][l]·Q)))[i][j]·Q[j][i]`, elementwise last step |
| MatrixLogDerivative.SpectralTensor | foo.py:66-71 | the intended contraction `Q·(R∘(Qᵀ·grad[k][l]·Q))·Qᵀ` is symmetric in `(k,l)`; when `R` is symmetric it is also symmetric in `(i,j)` and has the major symmetry `D[i][j][k][l] = D[k][l][i][j]` |
| MatrixLogDerivative.CongruenceSymmetric | foo.py:71 | `Q·S·Qᵀ` is symmetric when `S` is |
| MatrixLogDerivative.HadamardSymmetric | foo.py:71 | the entrywise product of symmetric matrices is symmetric |
| MatrixLogDerivative.SpectralMinorIj | foo.py:71 | the intended contraction is symmetric in `(i,j)` for symmetric `R` |
| MatrixLogDerivative.GradCongruenceEntry | foo.py:71 | `(Qᵀ·grad[k][l]·Q)[a][b] = ½(q_ka·q_lb + q_la·q_kb)` |
| MatrixLogDerivative.CongruenceEntry | foo.py:71 | `(Q·H·Qᵀ)[i][j] = Σ_ab q_ia·h_ab·q_jb` |
| MatrixLogDerivative.SpectralExpanded | foo.py:66-71 | entry `(i,j)` of the intended contraction for slice `(k,l)` is `½ Σ_ab r_ab·q_ia·q_jb·(q_ka·q_lb + q_la·q_kb)` |
| MatrixLogDerivative.SpectralMajor | foo.py:66-71 | for symmetric `R` the intended tensor has the major symmetry: entry `(i,j)` of slice `(k,l)` equals entry `(k,l)` of slice `(i,j)` |
| MatrixLogDerivative.OrthogonalRoundTrip | foo.py:71 | for orthogonal `Q`, `Q·(Qᵀ·X·Q)·Qᵀ = X` |
| MatrixLogDerivative.SpectralIsotropic | foo.py:71 | for orthogonal `Q` and all entries of `R` equal to `c`, the intended contraction is `c·grad[k][l]` |
| MatrixLogDerivative.SpectralAsWrittenCounterexample | foo.py:71 | for `Q = I` (as for `F = I`) and `R` all ones, entry `(0,1)` of slice `(0,1)` is `0` as written and `0.5 = grad[0][1][0][1]` as intended |
| Base.Transpose | src/math/matrix/square/mod.rs:491-495 | the transpose is square, with `t[i][j] = m[j][i]` |
| TensorRank2.TransposeInvolution | src/math/tensor/rank_2/mod.rs:879-884 | transposing twice gives the matrix back |
| TensorRank2.TraceTranspose | src/math/tensor/rank_2/mod.rs:876-884 | the trace of the transpose equals the trace |
| TensorRank2.SymmetricIffTransposeFixed | src/math/tensor/rank_2/mod.rs:856-863 | `is_symmetric` holds iff the matrix equals its transpose |
| TensorRank2.Symmetric3Agrees | src/math/tensor/rank_2/mod.rs:856-863 | the 3×3 symmetry test agrees with the general one |
| TensorRank2.IsDiagonal | src/math/tensor/rank_2/mod.rs:835-847 | true iff every off-diagonal entry is below `ABS_TOL` in magnitude |
| TensorRank2.SmallCountBound | src/math/tensor/rank_2/mod.rs:835-847 | the count of small off-diagonal entries is at most `rows·(n-1)`, and reaches it iff every off-diagonal entry of those rows is small |
| TensorRank2.AsTensorRank1 | src/math/tensor/rank_2/mod.rs:223-233 | entry `3i+j` of the flattening is `a[i][j]` |
| TensorRank2.AdjugateProductEntry | src/math/tensor/rank_2/mod.rs:286-302 | `a·adj(a) = det(a)·I`, entry by entry |
| TensorRank2.DeterminantTranspose | src/math/tensor/rank_2/mod.rs:238-242 | the transpose has the same determinant |
| TensorRank2.InverseEntry | src/math/tensor/rank_2/mod.rs:286-302 | each entry of `a·inverse(a)` is the matching entry of the identity when the determinant is nonzero |
| TensorRank2.InverseIsInverse | src/math/tensor/rank_2/mod.rs:286-302 | `a·inverse(a) = I` when the determinant is nonzero |
| TensorRank2.InverseAndDeterminant3 | src/math/tensor/rank_2/mod.rs:349-364 | returns the same determinant as `determinant` and the inverse, which multiplies `a` to the identity |
| TensorRank2.SquaredTraceIsTraceOfSquare | src/math/tensor/rank_2/mod.rs:864-875 | `squared_trace` is the trace of `a·a` |
| TensorRank2.InvariantsOfDiagonal | src/math/tensor/rank_2/mod.rs:711-718 | for a diagonal matrix the invariants `[tr a, (tr² a - tr(a·a))/2, det a]` are the elementary symmetric functions of the diagonal |
| TensorRank2.InvariantsTranspose | src/math/tensor/rank_2/mod.rs:711-718 | the transpose has the same invariants |
| TensorRank2.LuDecomposition | src/math/tensor/rank_2/mod.rs:523-549 | `Ok` gives unit lower `L` and upper `U` satisfying the Doolittle equations, with `L·U = A` and every pivot above `ABS_TOL`; `Err` names the first row whose Doolittle pivot `a_rr − Σ_{j<r} l_rj u_jr` is at most `ABS_TOL`, with that pivot, all earlier pivots exceeding `ABS_TOL` |
| TensorRank2.DoolittleDetermined | src/math/tensor/rank_2/mod.rs:526-547 | with nonzero pivots the Doolittle equations fix the rows of `U` and the columns of `L` computed so far |
| TensorRank2.FirstSmallPivotUnique | src/math/tensor/rank_2/mod.rs:532-534 | the row and value of the first small pivot are determined by `A` |
| TensorRank2.DoolittleProduct | src/math/tensor/rank_2/mod.rs:523-549 | factors satisfying the Doolittle equations multiply back to `A` |
| TensorRank2.LogmDiagonal | src/math/tensor/rank_2/mod.rs:607-613 | `ln a_ii` on the diagonal and zero off it |
| TensorRank2.LogmDiagonalProperties | src/math/tensor/rank_2/mod.rs:607-613 | the diagonal logarithm is diagonal and symmetric, with trace `Σ ln a_ii` |
| TensorRank2.WithinTolsFacts | src/math/tensor/rank_2/mod.rs:649-668 | the tolerance test holds for equal values, so failing it implies the values differ |
| TensorRank2.DlogmDiagonalAt | src/math/tensor/rank_2/mod.rs:649-668 | zero unless `i = k` and `j = l`; `1/a_jj` when the two diagonal entries agree within tolerance; their divided difference otherwise |
| TensorRank2.DlogmDiagonalMatchesDividedDifference | src/math/tensor/rank_2/mod.rs:649-668 | `dlogm[i][i][i][i] = 1/a_ii`, and away from the tolerance band the entry equals the divided difference `R` of `foo.py` at the diagonal entries |
| SquareMatrix.CheckStructure | src/math/matrix/square/mod.rs:41-48 | passes iff the structure is square and symmetric |
| SquareMatrix.AdjacencyLists | src/math/matrix/square/mod.rs:49-56 | list `i` holds the other vertices linked to `i`, ascending and distinct |
| SquareMatrix.FirstMinDegree | src/math/matrix/square/mod.rs:57-59 | the first vertex of least degree |
| SquareMatrix.SortByDegree | src/math/matrix/square/mod.rs:60-77 | the same vertices, distinct and ordered by degree |
| SquareMatrix.Visit | src/math/matrix/square/mod.rs:66-76 | pops the front vertex into the order, marks and queues its unvisited neighbours fewest-neighbours-first, and keeps the order still to come |
| SquareMatrix.Drain | src/math/matrix/square/mod.rs:66-77 | the loop appends exactly the breadth-first order `BfsFrom` of its starting state and empties the queue |
| SquareMatrix.Sweep | src/math/matrix/square/mod.rs:60-77 | appends the breadth-first order from `start`, keeps every visited vertex listed exactly once, and marks exactly the vertices it appends |
| SquareMatrix.SweepOnce | src/math/matrix/square/mod.rs:60-77 | the order from an unvisited structure is `BreadthFirst` from `start`; it lists every vertex exactly when it has `num` entries |
| SquareMatrix.BfsStays | src/math/matrix/square/mod.rs:66-77 | a sweep whose queue lies in a set closed under the adjacency lists never leaves that set |
| SquareMatrix.BfsQueued | src/math/matrix/square/mod.rs:66-77 | every queued vertex ends up in the visiting order |
| SquareMatrix.BfsClosed | src/math/matrix/square/mod.rs:66-77 | every neighbour of a visited vertex was marked before the sweep or is visited by it |
| SquareMatrix.ConnectedIffCovered | src/math/matrix/square/mod.rs:57-91 | the single sweep from the start vertex lists every vertex if and only if the structure is connected |
| SquareMatrix.RestartConnected | src/math/matrix/square/mod.rs:57-91 | on a connected structure the restarted sweeps give the same order as the single sweep |
| SquareMatrix.Banded.Map | src/math/matrix/square/mod.rs:28-30 | `map(o)` is the new index `k` with `mapping[k] = o` |
| SquareMatrix.Banded.Old | src/math/matrix/square/mod.rs:31-33 | `old(k)` is an old index that `map` sends back to `k` |
| SquareMatrix.InverseOf | src/math/matrix/square/mod.rs:79-83 | `inverse[mapping[k]] = k` for every `k` |
| SquareMatrix.Bandwidth | src/math/matrix/square/mod.rs:84-91 | the largest `j - i` over linked pairs `i < j` of the relabelled structure |
| SquareMatrix.Relabel | src/math/matrix/square/mod.rs:78-91 | `mapping` is the reversed visit order, `inverse` its inverse, the width the bandwidth, and the last entry is the start vertex |
| SquareMatrix.BandedFromAsWritten | src/math/matrix/square/mod.rs:39-97 | panics unless square and symmetric, or when empty; `Ok` if and only if the structure is also connected, and then `mapping` is the reversed Cuthill–McKee order, with its inverse and bandwidth; an isolated vertex among two or more makes it fail |
| SquareMatrix.BandedFrom | src/math/matrix/square/mod.rs:39-97 | `Ok` iff the structure is symmetric and nonempty; then `mapping` is the reversed restarted Cuthill–McKee order (the source's order when connected), with its inverse, its bandwidth, and a last entry of least degree |
| SquareMatrix.SweepAll | src/math/matrix/square/mod.rs:60-77 | the order is `Sweeps`, one breadth-first sweep per component from its least-connected vertex, and visits every vertex exactly once, starting at `start` |
| SquareMatrix.DisconnectedStructureCounterexample | src/math/matrix/square/mod.rs:60-91 | for `[[true,false],[false,true]]` the single sweep fails while the corrected relabelling is valid |
| SquareMatrix.PivotRow | src/math/matrix/square/mod.rs:118-127 | the first row at or below the diagonal whose entry has the largest magnitude |
| SquareMatrix.Swap | src/math/matrix/square/mod.rs:128-131 | rows `i` and `j` exchanged, the others unchanged |
| SquareMatrix.SwapPermutation | src/math/matrix/square/mod.rs:128-131 | swapping two entries of a permutation keeps it a permutation |
| SquareMatrix.QuotientBound | src/math/matrix/square/mod.rs:136-142 | with partial pivoting every multiplier has magnitude at most one |
| SquareMatrix.Eliminate | src/math/matrix/square/mod.rs:136-142 | rows up to the pivot row are unchanged; each row below has its multiple of the pivot row subtracted, with the multiplier stored below the diagonal |
| SquareMatrix.ForwardSubstitute | src/math/matrix/square/mod.rs:144-151 | `L·y = Pb` for the unit lower factor |
| SquareMatrix.BackSubstitute | src/math/matrix/square/mod.rs:152-160 | `U·x = y` for the upper factor |
| SquareMatrix.IdentityPermutation | src/math/matrix/square/mod.rs:116 | the starting permutation `0..n` |
| SquareMatrix.FactoredStart | src/math/matrix/square/mod.rs:114-116 | before any step the stored rows with the identity permutation reproduce `P·A` |
| SquareMatrix.FactoredSwap | src/math/matrix/square/mod.rs:128-131 | swapping stored row `i` with a row below it, together with the permutation, keeps `L·U` equal to `P·A` for the input `A` |
| SquareMatrix.FactoredEliminate | src/math/matrix/square/mod.rs:136-142 | one elimination step with its multipliers stored below the diagonal keeps `L·U` equal to `P·A` |
| SquareMatrix.StagedEliminateRow | src/math/matrix/square/mod.rs:136-142 | row by row, the elimination step leaves the partially formed product `L·(U·v)` unchanged |
| SquareMatrix.StagedEnd | src/math/matrix/square/mod.rs:143-160 | once all columns are eliminated, the staged product is `L·(U·v)` |
| SquareMatrix.FactoredProduct | src/math/matrix/square/mod.rs:113-162 | the invariant says `L·(U·v) = P·(A·v)` for every vector `v` |
| SquareMatrix.PermuteInjective | src/math/matrix/square/mod.rs:144-151 | two vectors with equal images under a permutation are equal |
| SquareMatrix.PivotStep | src/math/matrix/square/mod.rs:117-142 | one column of partial pivoting: either stops with every candidate pivot below `ABS_TOL` while `L·U = P·A` so far, or keeps `L·U = P·A` for one more column with a pivot of at least `ABS_TOL` and multipliers at most one |
| SquareMatrix.SquareMatrix.Factorize | src/math/matrix/square/mod.rs:113-142 | keeps `p` a permutation; when not singular `L·U = P·A` for the input `A`, every pivot at least `ABS_TOL` and every multiplier at most one; singular only when, with `L·U = P·A` so far, every candidate in some column is below `ABS_TOL` |
| SquareMatrix.SquareMatrix.SolveLu | src/math/matrix/square/mod.rs:113-162 | `Ok(x)` gives `A·x = b` for the input `A`; `Err(Singular)` only when partial pivoting on the input reaches a column whose candidates are all below `ABS_TOL` |
| SparseSquare.SparseSquareMatrix.constructor | src/math/matrix/square/sparse/mod.rs:29-36 | `len + 1` zero row pointers and no values or column indices |
| SparseSquare.SparseSquareMatrix.AddValue | src/math/matrix/square/sparse/mod.rs:23-27 | appends the value and column, raises `row_pointers[i]` for `i > row` only, keeps the matrix valid, and extends the row when added in row order |
| SparseSquare.SparseSquareMatrix.Get | src/math/matrix/square/sparse/mod.rs:558-571 | `0.0` when the column is not stored in the row; otherwise the stored value; in a row with ascending columns, exactly `StoredEntry`, the sum of what the row stores for the column |
| SparseSquare.AscendingEntry | src/math/matrix/square/sparse/mod.rs:558-571 | in a row with ascending columns the entry is the one stored value, or zero when none is stored |
| SparseSquare.SparseSquareMatrix.Mul | src/math/matrix/square/sparse/mod.rs:574-634 | `Err` iff the sizes differ; otherwise a fresh valid matrix whose rows are the row products, ascending, without zeros, and whose entry `(r, c)` is `Σ_k a(r, k)·b(k, c)` over the entries of both operands |
| SparseSquare.AddScaledLookup | src/math/matrix/square/sparse/mod.rs:596-603 | the inner loop adds `value_a` times the row's stored sum for each column |
| SparseSquare.AccumulateLookup | src/math/matrix/square/sparse/mod.rs:590-604 | after the first positions of the row, each column holds `Σ value_a · b(col_a, c)` over them |
| SparseSquare.PositionSumDot | src/math/matrix/square/sparse/mod.rs:590-604 | that sum over positions equals the sum over columns `k` of `a(r, k)·b(k, c)` |
| SparseSquare.RowProductEntry | src/math/matrix/square/sparse/mod.rs:585-604 | the `row_result` entry for `c` is `Σ_k a(r, k)·b(k, c)`, entry `(r, c)` of the dense product |
| SparseSquare.RowOfEntry | src/math/matrix/square/sparse/mod.rs:606-624 | a stored row has at each column exactly the sum `row_result` holds, zero when absent |
| SparseSquare.SparseSquareMatrix.ProductRows | src/math/matrix/square/sparse/mod.rs:585-625 | each row product is emitted in turn, with nondecreasing row pointers ending at the number of values |
| SparseSquare.EmitRow | src/math/matrix/square/sparse/mod.rs:607-625 | emits the accumulated row in ascending column order, skipping zeros |
| SparseSquare.PivotStepAsWritten | src/math/matrix/square/sparse/mod.rs:259-288 | `Err(Singular)` iff the pivot is small, a row below is sought, and every entry below in the window is small; otherwise unchanged, or swapped to a large pivot with the permutation kept |
| SparseSquare.PivotStep | src/math/matrix/square/sparse/mod.rs:372-403 | `Err(Singular)` iff every candidate in the window is small; `Ok` gives a large pivot, swapping rows and the permutation only when needed |
| SparseSquare.ZeroPivotCounterexample | src/math/matrix/square/sparse/mod.rs:259-288 | for the 1×1 zero matrix the step as written goes on with a zero pivot; the corrected step fails |
| Assembly.Gather | src/fem/block/mod.rs:177-186 | `local[a] = field[nodes[a]]` |
| Assembly.ScatteredConserves | src/fem/block/mod.rs:517-541 | scatter-adding one element leaves the total sum equal to its local sum |
| Assembly.NodeSumConserves | src/fem/block/mod.rs:517-541 | the global forces sum to the total of all element forces |
| Assembly.PairSumSymmetric | src/fem/block/mod.rs:543-573 | transposed element matrices assemble into the transposed global matrix |
| Block.CountOfPositive | src/fem/block/mod.rs:1317-1331 | a node occurs in an element iff its count there is positive |
| Block.OccurrencesMembers | src/fem/block/mod.rs:1317-1331 | `e` is listed for a node iff the node is in `connectivity[e]`; the list is ascending |
| Block.Invert | src/fem/block/mod.rs:1317-1331 | one ascending list per node naming exactly the elements that contain it |
| Block.NodalForces | src/fem/block/mod.rs:517-541 | `Ok` iff every element succeeds, otherwise `Upstream` of the first failure; each component is the scatter-add, conserving the total |
| Block.NodalStiffnesses | src/fem/block/mod.rs:543-573 | `Ok` iff every element succeeds; block `[i][j]` goes to `[conn[i]][conn[j]]`; symmetric element blocks give a symmetric result |
| Block.AssembledBlocksSymmetric | src/fem/block/mod.rs:543-573 | blockwise-symmetric element matrices assemble symmetrically |
| Band.NodeStructureShares | src/fem/block/mod.rs:1193-1208 | an entry is set iff the two nodes share an element; the structure is symmetric |
| Band.Structure3D | src/fem/block/mod.rs:1209-1217 | each node entry becomes a 3×3 block |
| Band.Structure3DSymmetric | src/fem/block/mod.rs:1209-1217 | the expanded structure stays symmetric |
| Band.KeepMask | src/fem/block/mod.rs:1218-1219 | degree of freedom `i` is kept iff it is not listed |
| Band.FilterEntries | src/fem/block/mod.rs:1220-1232 | keeps exactly the kept rows and columns, preserving symmetry |
| Band.LinksAsWritten | src/fem/block/mod.rs:1274-1283 | the index advances per nonzero; `Ok` iff it stays inside the structure |
| Band.LinearAsWritten | src/fem/block/mod.rs:1235-1285 | width mismatch iff `width ≠ 3n`; an index panic iff the matrix is empty or has more nonzeros than rows |
| Band.LinearStructureAsWritten | src/fem/block/mod.rs:1235-1285 | the imperative loop computes `LinearAsWritten` |
| Band.LinkRowsAsWritten | src/fem/block/mod.rs:1274-1283 | links each constraint row in turn as written |
| Band.LinksErrPersists | src/fem/block/mod.rs:1274-1283 | once the index leaves the structure, later rows keep the failure |
| Band.LinearStructure | src/fem/block/mod.rs:1235-1285 | with one index per row: errors exactly as the source checks, size `rows + width`, entries linking each row's index with its nonzero columns, symmetric |
| Band.LinearIndexCounterexample | src/fem/block/mod.rs:1274-1283 | one node with constraint row `[1,1,0]` fails as written and succeeds corrected |
| Band.CoordinateStructure | src/fem/block/mod.rs:1192-1217 | the inverted connectivity gives exactly the structure of nodes sharing an element, spread over three coordinates |
| Band.FixedStructure | src/fem/block/mod.rs:1218-1232 | `Err` iff a fixed index is past the end; otherwise the structure without the fixed rows and columns |
| Band.BuiltErrors | src/fem/block/mod.rs:1186-1315 | which constraints the built structure rejects, and that it is empty iff every degree of freedom is fixed |
| Band.BuildStructure | src/fem/block/mod.rs:1186-1315 | the structure handed to `Banded::from` is `Built`: symmetric, one row per degree of freedom |
| Band.BuildStructureAsWritten | src/fem/block/mod.rs:1186-1315 | the same with the constraint rows linked as written |
| Band.Band | src/fem/block/mod.rs:1186-1315 | with the constraint index per row and the restarted sweep: `Ok` relabels `Built` by reversed restarted Cuthill–McKee with its bandwidth; errors are a fixed index past the end, an empty or mis-sized constraint matrix, or nothing left |
| Band.BandAsWritten | src/fem/block/mod.rs:1186-1315 | as written: errors of the as-written structure; otherwise `Ok` iff that structure is connected, relabelled by reversed Cuthill–McKee with its bandwidth; a degree of freedom coupled to nothing fails |
| Band.IsolatedNodeCounterexample | src/fem/block/mod.rs:1186-1315 | one element on four of five nodes fails as written and succeeds corrected |
| ThermalConduction.SumOutcomes | src/domain/fem/block/thermal/conduction/mod.rs:55-77 | `Ok` iff all are `Ok`, then their sum; otherwise the first error |
| ThermalConduction.Potential | src/domain/fem/block/thermal/conduction/mod.rs:55-77 | the sum of element potentials, or `Upstream` of the first failure |
| ThermalConduction.ScatterAdd | src/domain/fem/block/thermal/conduction/mod.rs:82-95 | each node gains the element values mapped to it |
| ThermalConduction.NodalForces | src/domain/fem/block/thermal/conduction/mod.rs:78-104 | `Ok` iff every element succeeds; length of the temperatures; each node's scatter-added sum; total conserved; `Upstream` on failure |
| ThermalConduction.ScatterAddMatrix | src/domain/fem/block/thermal/conduction/mod.rs:109-128 | entry `[a][b]` gains the element entries mapped to it |
| ThermalConduction.NodalStiffnesses | src/domain/fem/block/thermal/conduction/mod.rs:105-137 | `Ok` iff every element succeeds; `len×len`; entries accumulated through `conn`; symmetric for symmetric elements |
| TensorRank1Vec.FlattenIndex | src/math/tensor/rank_1/vec/mod.rs:88-93 | flat entry `D·a+i` is `v[a][i]` |
| TensorRank1Vec.FromVector | src/math/tensor/rank_1/vec/mod.rs:73-85 | `Ok` iff the length is a multiple of `D`, then the chunks of `D` |
| TensorRank1Vec.FromFlattened | src/math/tensor/rank_1/vec/mod.rs:73-85 | chunking the flattening gives the vectors back |
| TensorRank1Vec.FillInto | src/math/tensor/rank_1/vec/mod.rs:88-93 | writes `vector[D·a+i] = v[a][i]` and leaves the rest |
| TensorRank1Vec.FillIntoChained | src/math/tensor/rank_1/vec/mod.rs:94-100 | writes the flattening followed by `other` |
| TensorRank1Vec.RetainFrom | src/math/tensor/rank_1/vec/mod.rs:101-108 | one entry per true flag, in order |
| TensorRank1Vec.ZeroOut | src/math/tensor/rank_1/vec/mod.rs:109-113 | an entry becomes zero iff its flat index is listed; the others are unchanged |
| TensorRank1Vec.DecrementFrom | src/math/tensor/rank_1/vec/mod.rs:117-122 | subtracts `other` from the flattened entries, one by one in flat order |
| TensorRank1Vec.DecrementFromChained | src/math/tensor/rank_1/vec/mod.rs:123-129 | subtracts the first part of the vector from `self` and the rest from `other` |
| TensorRank1Vec.DecrementFromRetained | src/math/tensor/rank_1/vec/mod.rs:130-137 | subtracts only at retained entries, consuming `other` in order |
| TensorRank1Vec.RetainedSubtractedRetain | src/math/tensor/rank_1/vec/mod.rs:130-137 | the retained entries of the result are the retained entries minus `other` |
| TensorRank1Vec.SubVector | src/math/tensor/rank_1/vec/mod.rs:140-151 | `r[a][i] = v[a][i] - vector[D·a+i]` |
| TensorRank2Vec2D.Zero | src/math/tensor/rank_2/vec_2d/mod.rs:13-17 | `len×len` zero blocks |
| TensorRank2Vec2D.FlattenIndex | src/math/tensor/rank_2/vec_2d/mod.rs:19-34 | length `len²·D²`, with entry `t[a][b][i][j]` at its position in `a, b, i, j` order |
| TensorRank2Vec2D.ZeroFlattened | src/math/tensor/rank_2/vec_2d/mod.rs:13-34 | the zero tensor flattens to zeros |
| TensorRank2Vec2D.ZeroExpanded | src/math/tensor/rank_2/vec_2d/mod.rs:13-17 | the zero tensor expands to the zero square matrix |
| TensorRank2Vec2D.ExpandedEntry | src/math/tensor/rank_2/vec_2d/mod.rs:37-53 | square entry `[D·a+i][D·b+j]` is `t[a][b][i][j]` |
| TensorRank2Vec2D.FillInto | src/math/tensor/rank_2/vec_2d/mod.rs:37-53 | places every block at `[D·a+i][D·b+j]` and leaves the rest |
| TensorRank2Vec2D.SquareMatrixFrom | src/math/matrix/square/mod.rs:336-355 | the conversion to a square matrix is the expanded form |
| TensorRank2Vec2D.RetainFrom | src/math/tensor/rank_2/vec_2d/mod.rs:54-68 | square, keeping exactly the rows and columns whose flag is true |
| TensorTuple.FullContraction | src/math/tensor/tuple/mod.rs:86-88 | the contraction of both parts together |
| TensorTuple.DotAppend | src/math/tensor/tuple/mod.rs:86-88 | the sum of the component contractions |
| TensorTuple.NormInfOf | src/math/tensor/tuple/mod.rs:106-108 | an upper bound of all magnitudes that is attained |
| TensorTuple.NormInfAppend | src/math/tensor/tuple/mod.rs:106-108 | the norm of a tuple is the maximum of the parts' norms |
| TensorTuple.Size | src/math/tensor/tuple/mod.rs:109-111 | the sum of the parts' sizes |
| TensorTuple.SumOf | src/math/tensor/tuple/mod.rs:207-217 | `default()` for none; otherwise the entrywise sums of each part |
| TensorTuple.ReduceEntries | src/math/tensor/tuple/mod.rs:353-362 | repeated `+=` gives the entrywise sums |
| TensorTuple.FillInto | src/math/tensor/tuple/mod.rs:161-168 | part 0 at `D·i+j`, part 1 after `D·D`, the rest unchanged |
| TensorTuple.FillIntoChained | src/math/tensor/tuple/mod.rs:169-177 | writes both flattenings and then `other` |
| TensorTuple.DecrementFrom | src/math/tensor/tuple/mod.rs:183-190 | subtracts `other` from the flattening |
| TensorTuple.DecrementFromChained | src/math/tensor/tuple/mod.rs:191-199 | subtracts the vector from the flattening followed by `other` |
| TensorTuple.Split | src/math/tensor/tuple/mod.rs:436-442 | splits a flat vector into two parts whose flattening gives it back |
| TensorTuple.SubVector | src/math/tensor/tuple/mod.rs:436-442 | the first `D·D` entries go to part 0, the rest to part 1 |
| TensorTuple.HessianFillInto | src/math/tensor/tuple/mod.rs:133-155 | four blocks at row and column offsets `0` and `D·D`; the rest unchanged |
| CohesiveLinear.FacesFromMidSurface | src/domain/fem/block/element/cohesive/linear/mod.rs:41-60 | each face node is the mid-surface point minus, or plus, half the separation |
| CohesiveLinear.CoincidentSeparations | src/domain/fem/block/element/cohesive/linear/mod.rs:53-60 | the faces coincide iff every separation is zero |
| CohesiveLinear.CoincidentMidSurface | src/domain/fem/block/element/cohesive/linear/mod.rs:41-52 | coincident faces are their own mid-surface |
| CohesiveLinear.SignsSum | src/domain/fem/block/element/cohesive/linear/mod.rs:75-77 | `-1` for the first `P` nodes and `+1` for the last `P` sum to zero |
| CohesiveLinear.SignedSumIsSeparation | src/domain/fem/block/element/cohesive/linear/mod.rs:53-77 | the sign-weighted sum of the nodes is the sum of the separations |
| CohesiveLinear.NormalGradientsFull | src/domain/fem/block/element/cohesive/linear/mod.rs:61-74 | each entry is the gradient list followed by itself, twice as long |
| CohesiveLinear.DoubledIsCoincident | src/domain/fem/block/element/cohesive/linear/mod.rs:41-74 | a node list followed by itself is coincident and its own mid-surface |
| LinearTetrahedron.IntegrationPoints | src/domain/fem/block/element/linear/tetrahedron/mod.rs:20-22 | one point with equal coordinates whose four barycentric parts sum to 1, so `[0.25, 0.25, 0.25]`, inside the simplex |
| LinearTetrahedron.ParametricWeights | src/domain/fem/block/element/linear/tetrahedron/mod.rs:35-37 | one weight per point, summing to the volume `1/6` |
| LinearTetrahedron.ReferenceInSimplex | src/domain/fem/block/element/linear/tetrahedron/mod.rs:26-34 | every reference node lies in the unit simplex |
| LinearTetrahedron.PartitionOfUnity | src/domain/fem/block/element/linear/tetrahedron/mod.rs:41-44 | the shape functions sum to 1 everywhere |
| LinearTetrahedron.Kronecker | src/domain/fem/block/element/linear/tetrahedron/mod.rs:26-44 | `N_a` at node `b` is `δ_ab` |
| LinearTetrahedron.GradientsSumToZero | src/domain/fem/block/element/linear/tetrahedron/mod.rs:45-55 | the gradients sum to zero |
| LinearTetrahedron.GradientsAreSlopes | src/domain/fem/block/element/linear/tetrahedron/mod.rs:41-55 | a step `h` along a direction changes `N_a` by `h` times the gradient entry |
| LinearTetrahedron.GradientsConstant | src/domain/fem/block/element/linear/tetrahedron/mod.rs:45-55 | the gradients do not depend on the point |
| LinearHexahedron.IntegrationPointsAreSignPatterns | src/domain/fem/block/element/linear/hexahedron/mod.rs:31-43 | point `g` has coordinates `±1/√3` with the signs of the bits of `g` |
| LinearHexahedron.IntegrationPointsDistinct | src/domain/fem/block/element/linear/hexahedron/mod.rs:31-43 | the eight points are distinct, so every sign pattern occurs |
| LinearHexahedron.WeightsSum | src/domain/fem/block/element/linear/hexahedron/mod.rs:60-62 | the eight unit weights sum to the cube's volume 8 |
| LinearHexahedron.ShapeFunctionsOfCorners | src/domain/fem/block/element/linear/hexahedron/mod.rs:47-82 | `N_a(ξ) = (1+r_a·ξ)(1+r_a·η)(1+r_a·ζ)/8` for corner `r_a` |
| LinearHexahedron.PartitionOfUnity | src/domain/fem/block/element/linear/hexahedron/mod.rs:69-82 | the shape functions sum to 1 everywhere |
| LinearHexahedron.Kronecker | src/domain/fem/block/element/linear/hexahedron/mod.rs:47-82 | `N_a` at corner `b` is `δ_ab` |
| LinearHexahedron.GradientsSumToZero | src/domain/fem/block/element/linear/hexahedron/mod.rs:83-130 | the gradients sum to zero in each direction |
| LinearHexahedron.GradientsOfCorners | src/domain/fem/block/element/linear/hexahedron/mod.rs:83-130 | each gradient is the corner form's derivative |
| LinearHexahedron.GradientsAreSlopes | src/domain/fem/block/element/linear/hexahedron/mod.rs:69-130 | a step `h` along a direction changes `N_a` by `h` times the gradient entry |
| QuadraticTetrahedron.IntegrationPointsInside | src/domain/fem/block/element/quadratic/tetrahedron/mod.rs:19-29 | all four points lie strictly inside the simplex, each moved from the first along one axis |
| QuadraticTetrahedron.WeightsSum | src/domain/fem/block/element/quadratic/tetrahedron/mod.rs:48-50 | the four weights sum to the volume `1/6` |
| QuadraticTetrahedron.PartitionOfUnity | src/domain/fem/block/element/quadratic/tetrahedron/mod.rs:51-67 | the ten shape functions sum to 1 everywhere |
| QuadraticTetrahedron.Kronecker | src/domain/fem/block/element/quadratic/tetrahedron/mod.rs:33-67 | `N_a` at node `b` is `δ_ab` for all ten nodes |
| QuadraticTetrahedron.GradientsSumToZero | src/domain/fem/block/element/quadratic/tetrahedron/mod.rs:68-86 | the gradients sum to zero in each direction |
| QuadraticTetrahedron.GradientsAreCentralDifferences | src/domain/fem/block/element/quadratic/tetrahedron/mod.rs:51-86 | `N_a(ξ+v) - N_a(ξ-v) = 2·∇N_a(ξ)·v` for every step `v` |
| LinearQuadrilateral.IntegrationPointsAreScaledCorners | src/domain/fem/block/element/surface/linear/quadrilateral/mod.rs:20-34 | point `g` is corner `g` scaled by `1/√3` |
| LinearQuadrilateral.WeightsSum | src/domain/fem/block/element/surface/linear/quadrilateral/mod.rs:35-37 | the four unit weights sum to the square's area 4 |
| LinearQuadrilateral.PartitionOfUnity | src/domain/fem/block/element/surface/linear/quadrilateral/mod.rs:41-50 | the shape functions sum to 1 everywhere |
| LinearQuadrilateral.Kronecker | src/domain/fem/block/element/surface/linear/quadrilateral/mod.rs:32-50 | `N_a` at corner `b` is `δ_ab` |
| LinearQuadrilateral.GradientsSumToZero | src/domain/fem/block/element/surface/linear/quadrilateral/mod.rs:51-62 | each gradient column sums to zero |
| LinearQuadrilateral.GradientsAreCentralDifferences | src/domain/fem/block/element/surface/linear/quadrilateral/mod.rs:41-62 | `N_a(ξ+v) - N_a(ξ-v) = 2·∇N_a(ξ)·v` for every step `v` |
| MessageRandom.Seed | src/lib.rs:95-109 | the seed `1 + nanos` wraps to zero only at the largest clock reading |
| MessageRandom.XorShiftZero | src/lib.rs:95-109 | the xorshift step maps only zero to zero |
| MessageRandom.IterateStaysSet | src/lib.rs:95-109 | once seeded the state stays nonzero, so the clock is read at most once |
| MessageRandom.Top8 | src/lib.rs:95-109 | the returned byte is below 256 |
| MessageRandom.RandomByte | src/lib.rs:76-93 | the byte is at most `max`; for `max = 255` it is the single draw |
| MessageRandom.Generator.constructor | src/lib.rs:95-109 | the state starts unset |
| MessageRandom.Generator.GetRandom | src/lib.rs:95-109 | the state advances one step, seeded from the clock if unset, and the result is its top 8 bits |
| MessageRandom.Generator.RandomU8 | src/lib.rs:76-93 | the state advances by one draw for `max = 255` and by eleven otherwise; the result is `RandomByte` |
| MessageRandom.Generator.DefeatMessage | src/lib.rs:41-59 | eleven draws, and the line for the byte drawn with `max = 14` |
| MessageRandom.Generator.VictoryMessage | src/lib.rs:63-74 | eleven draws, and the line for the byte drawn with `max = 7` |
| Interpolate.Position | src/math/interpolate/mod.rs:67 | the first knot above the point, or none when every knot is at or below it |
| Interpolate.Interpolate1D | src/math/interpolate/mod.rs:63-71 | the loop computes the pointwise interpolation or the first panic |
| Interpolate.ErrPersists | src/math/interpolate/mod.rs:63-71 | the first point without a value decides the failure |
| Interpolate.InterpolatedPointwise | src/math/interpolate/mod.rs:63-71 | `Ok` iff every point has a value; then one value per point |
| Interpolate.Bracketing | src/math/interpolate/mod.rs:67-68 | a point with a value lies in `[xp[i-1], xp[i])` and its value between `fp[i-1]` and `fp[i]` |
| Interpolate.BetweenEnds | src/math/interpolate/mod.rs:68 | each segment meets the data at both ends |
| Interpolate.BetweenLinear | src/math/interpolate/mod.rs:68 | the value changes linearly with the point within a segment |
| Interpolate.AtKnot | src/math/interpolate/mod.rs:67-68 | with increasing knots, the value at `xp[j]` is `fp[j]` for every knot but the last |
| Interpolate.NothingAboveLast | src/math/interpolate/mod.rs:67 | a point at or beyond every knot panics with no knot above |
| Interpolate.NothingBelowFirst | src/math/interpolate/mod.rs:67-68 | a point before the first knot panics on `i - 1` |

## Left out

- Floating point: `f64` is modelled by `real`, so rounding, overflow to infinity and NaN are not modelled; tolerances compare exactly.
- `foo.py`: `logm`, `log`, `eig` and `inv` are foreign calls; they become parameters that are not interpreted, and so do their results.
- The eigenvalue path of `logm`/`dlogm` (`solve_cubic_symmetric`, `find_orthonormal_eigenvectors`): trigonometry and cube roots.
- ODE integrators, optimizers and constitutive models: iterative floating-point solvers and transcendental formulas.
- Thermal conduction `root`/`minimize`: they call the optimizers; only their all-zero starting temperatures lie in scope, and those are not modelled.
- `scaled_jacobians`: `todo!` in the tetrahedron and quadrilateral; for the hexahedron it needs the Jacobian determinant of float geometry.
- Other element types (wedges, pyramids, quadratic and serendipity hexahedra, composite tetrahedra): the same pattern as the modelled elements.
- Cohesive `from_linear`: the element assembly around the helpers; only the helpers are modelled.
- Display and ANSI formatting, the `unimplemented!` tuple operations, the plotting and CSV collaborator: output and stubs.
- `src/math/matrix/sparse/mod.rs` is not part of this model; it does not compile.
- The clock: `get_random` reads the system time; the model takes the nanoseconds as a parameter, the same for every draw of one message.
- The atomic `STATE`: loads and stores with relaxed ordering become reads and writes of one field; concurrent callers are not modelled.
- MessageRandom.Seed: `1 + nanos` wraps to zero at the largest clock reading, as a release build computes it; a debug build panics on that overflow instead, which is not modelled.
- MessageRandom.XorShiftZero: states only that the step keeps nonzero states nonzero, not that it is a bijection.
- Element values are scalars in `Interpolate`; a tensor-valued `fp` is interpolated the same way entry by entry.
- SparseSquare.SparseSquareMatrix.AddValue: an entry lands in its row only when entries are added in row order, as all callers do; the contract states the row extension under that condition.
- SparseSquare.SparseSquareMatrix.Get: the exact value is stated for rows with ascending columns; otherwise it is some stored value of that column.
- SparseSquare.SparseSquareMatrix.Mul: the product's entries are stated through `StoredEntry`, which sums every value a row stores for a column; indexing agrees with it on rows with ascending columns, which is what `mul` produces.
- TensorRank2.LuDecomposition: the panic is an `Err` naming the row; the message text is not modelled.
- Band.Band: composes the corrected constraint linking and the restarted `Banded::from`, so it succeeds where the source panics on a structure that is not connected or on a constraint matrix with more nonzero entries than rows; the source's own behaviour is `Band.BandAsWritten`, whose panics are `Err` values.
- Index-out-of-bounds panics in internal helpers (connectivity naming a node outside the field, flat indices past a vector) are preconditions, because every caller rules them out.
- MatrixLogDerivative.FiniteDifferenceTensor: the step `h` is a parameter, and the quotient is not related to the true derivative.

## Findings

| source | as written | input that shows it | evidently intended | confidence | as-written member | corrected member |
|---|---|---|---|---|---|---|
| foo.py:71 | `Q @ (R * X) * Q.T` multiplies by `Q.T` entrywise, not as a matrix product | `F = I`, `R` all ones, entry `(0,1,0,1)`: gives `0` | `Q·(R∘X)·Qᵀ`, which gives `0.5 = grad[0][1][0][1]` | not executed | MatrixLogDerivative.SpectralAsWrittenCounterexample | MatrixLogDerivative.SpectralTensor |
| src/fem/block/mod.rs:1274-1283 | the constraint index advances once per nonzero entry, not once per constraint row | one node with constraint row `[1,1,0]`: the index passes the end of the structure | one index per constraint row | not executed | Band.LinearIndexCounterexample | Band.LinearStructure |
| src/fem/block/mod.rs:1186-1315 | the structure of a node in no element has isolated rows, on which `Banded::from` fails | one element on nodes `0..3` with five nodes: node 4's degrees of freedom 12–14 have no neighbours, so the sweep starts at dof 12 (the first vertex of least degree), visits only it, and `mapping[1]` is out of bounds | every degree of freedom labelled | not executed | Band.IsolatedNodeCounterexample | Band.Band |
| src/math/matrix/square/mod.rs:60-91 | a single breadth-first sweep from one start vertex | structure `[[true,false],[false,true]]`: vertex 1 is never visited and the mapping is too short | a new sweep from each unvisited vertex | not executed | SquareMatrix.DisconnectedStructureCounterexample | SquareMatrix.BandedFrom |
| src/math/matrix/square/sparse/mod.rs:265-288 | `Singular` only when a better row is sought and none is found; a small pivot with no row below goes on | the 1×1 zero matrix: the step goes on with pivot `0` | `Singular` whenever no candidate pivot is large, as in `solve_lu_banded_new` | not executed | SparseSquare.ZeroPivotCounterexample | SparseSquare.PivotStep |
