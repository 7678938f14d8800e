/** The script that compares three fourth-order tensors for the derivative of
    the matrix logarithm of `C = FᵀF`: a central finite difference, a closed
    form built from `C⁻¹`, and the spectral (divided-difference) formula.

    `logm`, `log`, `eig` and `inv` are foreign routines; they enter the model
    as parameters (`logm`, `log`) or as inputs (`e`, `Q`, `C⁻¹`) about which
    nothing is assumed unless a lemma says so. */
module MatrixLogDerivative {
  import opened Base

  /** `np.zeros((3, 3, 3, 3))` filled by the script's four nested loops,
      entry `[i][j][k][l]` receiving `f(i, j, k, l)`. */
  method Tabulate4(f: (Idx, Idx, Idx, Idx) -> real) returns (d: array4<real>)
    ensures fresh(d)
    ensures d.Length0 == 3 && d.Length1 == 3 && d.Length2 == 3 && d.Length3 == 3
    ensures forall i: Idx, j: Idx, k: Idx, l: Idx :: d[i, j, k, l] == f(i, j, k, l)
  {
    d := new real[3, 3, 3, 3]((_, _, _, _) => 0.0);
    for i := 0 to 3
      invariant forall i', j: Idx, k: Idx, l: Idx :: 0 <= i' < i ==> d[i', j, k, l] == f(i', j, k, l)
    {
      for j := 0 to 3
        invariant forall i', j': Idx, k: Idx, l: Idx :: 0 <= i' < i ==> d[i', j', k, l] == f(i', j', k, l)
        invariant forall j', k: Idx, l: Idx :: 0 <= j' < j ==> d[i, j', k, l] == f(i, j', k, l)
      {
        for k := 0 to 3
          invariant forall i', j': Idx, k': Idx, l: Idx :: 0 <= i' < i ==> d[i', j', k', l] == f(i', j', k', l)
          invariant forall j', k': Idx, l: Idx :: 0 <= j' < j ==> d[i, j', k', l] == f(i, j', k', l)
          invariant forall k', l: Idx :: 0 <= k' < k ==> d[i, j, k', l] == f(i, j, k', l)
        {
          for l := 0 to 3
            invariant forall i', j': Idx, k': Idx, l': Idx :: 0 <= i' < i ==> d[i', j', k', l'] == f(i', j', k', l')
            invariant forall j', k': Idx, l': Idx :: 0 <= j' < j ==> d[i, j', k', l'] == f(i, j', k', l')
            invariant forall k', l': Idx :: 0 <= k' < k ==> d[i, j, k', l'] == f(i, j, k', l')
            invariant forall l' :: 0 <= l' < l ==> d[i, j, k, l'] == f(i, j, k, l')
          {
            d[i, j, k, l] := f(i, j, k, l);
          }
        }
      }
    }
  }

  // ---------------------------------------------------------------------
  // Finite difference of logm

  /** `F.T @ F`. */
  function CauchyGreen(f: Mat3): Mat3 {
    Mul3(Transpose3(f), f)
  }

  lemma CauchyGreenSymmetric(f: Mat3)
    ensures IsSymmetric3(CauchyGreen(f))
  {
    var c, t := CauchyGreen(f), Transpose3(f);
    forall i: Idx, j: Idx ensures c[i][j] == c[j][i] {
      MulEntryExpand(t, f, i, j);
      MulEntryExpand(t, f, j, i);
    }
  }

  /** A copy of `c` whose entry `[k][l]` is increased by `delta`. */
  function Perturbed(c: Mat3, k: Idx, l: Idx, delta: real): (p: Mat3)
    ensures p[k][l] == c[k][l] + delta
    ensures forall i: Idx, j: Idx :: (i != k || j != l) ==> p[i][j] == c[i][j]
  {
    c[k := c[k][l := c[k][l] + delta]]
  }

  /** The two perturbed copies differ from each other by `h`, and from `c`
      only at `[k][l]`; perturbing back restores `c`. */
  lemma PerturbedPair(c: Mat3, k: Idx, l: Idx, h: real)
    ensures Perturbed(c, k, l, 0.5 * h)[k][l] - Perturbed(c, k, l, -0.5 * h)[k][l] == h
    ensures forall i: Idx, j: Idx :: (i != k || j != l) ==>
      Perturbed(c, k, l, 0.5 * h)[i][j] == c[i][j] == Perturbed(c, k, l, -0.5 * h)[i][j]
    ensures Perturbed(Perturbed(c, k, l, 0.5 * h), k, l, -0.5 * h) == c
  {
    var p := Perturbed(Perturbed(c, k, l, 0.5 * h), k, l, -0.5 * h);
    Mat3Equal(p, c);
  }

  /** Only one of `[k][l]` and `[l][k]` is perturbed, so for `k != l` a
      symmetric `C` is no longer symmetric once perturbed. */
  lemma PerturbedBreaksSymmetry(c: Mat3, k: Idx, l: Idx, delta: real)
    requires IsSymmetric3(c) && k != l && delta != 0.0
    ensures !IsSymmetric3(Perturbed(c, k, l, delta))
  {
    var p := Perturbed(c, k, l, delta);
    assert p[l][k] == c[l][k] == c[k][l] != p[k][l];
  }

  /** `(logm(C_plus)[i][j] - logm(C_minus)[i][j]) / h`. */
  function FiniteDifferenceAt(logm: Mat3 -> Mat3, c: Mat3, h: real, i: Idx, j: Idx, k: Idx, l: Idx): real
    requires h != 0.0
  {
    (logm(Perturbed(c, k, l, 0.5 * h))[i][j] - logm(Perturbed(c, k, l, -0.5 * h))[i][j]) / h
  }

  /** The central difference does not depend on the sign of the step. */
  lemma FiniteDifferenceEven(logm: Mat3 -> Mat3, c: Mat3, h: real, i: Idx, j: Idx, k: Idx, l: Idx)
    requires h != 0.0
    ensures FiniteDifferenceAt(logm, c, h, i, j, k, l) == FiniteDifferenceAt(logm, c, -h, i, j, k, l)
  {
    assert 0.5 * -h == -0.5 * h && -0.5 * -h == 0.5 * h;
  }

  /** Applied to the identity map (whose derivative is the identity), the
      finite difference is `δ_ik δ_jl`: exact, but not symmetric in `(k, l)`
      because of the one-sided perturbation. */
  lemma FiniteDifferenceOfIdentity(c: Mat3, h: real, i: Idx, j: Idx, k: Idx, l: Idx)
    requires h != 0.0
    ensures FiniteDifferenceAt((m: Mat3) => m, c, h, i, j, k, l) == Delta(i, k) * Delta(j, l)
  {
    PerturbedPair(c, k, l, h);
    if i == k && j == l {
      assert FiniteDifferenceAt((m: Mat3) => m, c, h, i, j, k, l) == h / h;
    } else {
      assert FiniteDifferenceAt((m: Mat3) => m, c, h, i, j, k, l) == 0.0 / h;
    }
  }

  /** `derivative_f`: the finite-difference tensor of `logm` at `FᵀF`. */
  method FiniteDifferenceTensor(logm: Mat3 -> Mat3, f: Mat3, h: real) returns (d: array4<real>)
    requires h != 0.0
    ensures fresh(d) && d.Length0 == 3 && d.Length1 == 3 && d.Length2 == 3 && d.Length3 == 3
    ensures forall i: Idx, j: Idx, k: Idx, l: Idx ::
      d[i, j, k, l] == FiniteDifferenceAt(logm, CauchyGreen(f), h, i, j, k, l)
  {
    var c := CauchyGreen(f);
    d := Tabulate4((i: Idx, j: Idx, k: Idx, l: Idx) => FiniteDifferenceAt(logm, c, h, i, j, k, l));
  }

  // ---------------------------------------------------------------------
  // Closed form from C⁻¹

  /** `0.25 * (C_inv[i][k](j==l) + C_inv[j][k](i==l) + C_inv[i][l](j==k) + C_inv[j][l](i==k))`. */
  function InverseDerivativeAt(cInv: Mat3, i: Idx, j: Idx, k: Idx, l: Idx): real {
    0.25 * (cInv[i][k] * Delta(j, l) + cInv[j][k] * Delta(i, l)
          + cInv[i][l] * Delta(j, k) + cInv[j][l] * Delta(i, k))
  }

  /** Both minor symmetries hold for any `C⁻¹`; the major symmetry needs a
      symmetric `C⁻¹`. */
  lemma InverseDerivativeSymmetries(cInv: Mat3, i: Idx, j: Idx, k: Idx, l: Idx)
    ensures InverseDerivativeAt(cInv, i, j, k, l) == InverseDerivativeAt(cInv, j, i, k, l)
    ensures InverseDerivativeAt(cInv, i, j, k, l) == InverseDerivativeAt(cInv, i, j, l, k)
    ensures IsSymmetric3(cInv) ==> InverseDerivativeAt(cInv, i, j, k, l) == InverseDerivativeAt(cInv, k, l, i, j)
  {
  }

  /** Without a symmetric `C⁻¹` the major symmetry fails. */
  lemma InverseDerivativeMajorNeedsSymmetry()
    ensures InverseDerivativeAt([[0.0, 1.0, 0.0], [0.0, 0.0, 0.0], [0.0, 0.0, 0.0]], 0, 0, 1, 0)
         != InverseDerivativeAt([[0.0, 1.0, 0.0], [0.0, 0.0, 0.0], [0.0, 0.0, 0.0]], 1, 0, 0, 0)
  {
  }

  /** `derivative_a`, filled entry by entry; it carries both minor
      symmetries, and the major one when `C⁻¹` is symmetric. */
  method InverseDerivativeTensor(cInv: Mat3) returns (d: array4<real>)
    ensures fresh(d) && d.Length0 == 3 && d.Length1 == 3 && d.Length2 == 3 && d.Length3 == 3
    ensures forall i: Idx, j: Idx, k: Idx, l: Idx :: d[i, j, k, l] == InverseDerivativeAt(cInv, i, j, k, l)
    ensures forall i: Idx, j: Idx, k: Idx, l: Idx :: d[i, j, k, l] == d[j, i, k, l] && d[i, j, k, l] == d[i, j, l, k]
    ensures IsSymmetric3(cInv) ==> forall i: Idx, j: Idx, k: Idx, l: Idx :: d[i, j, k, l] == d[k, l, i, j]
  {
    d := Tabulate4((i: Idx, j: Idx, k: Idx, l: Idx) => InverseDerivativeAt(cInv, i, j, k, l));
    forall i: Idx, j: Idx, k: Idx, l: Idx
      ensures d[i, j, k, l] == d[j, i, k, l] && d[i, j, k, l] == d[i, j, l, k]
      ensures IsSymmetric3(cInv) ==> d[i, j, k, l] == d[k, l, i, j]
    {
      InverseDerivativeSymmetries(cInv, i, j, k, l);
    }
  }

  // ---------------------------------------------------------------------
  // Divided differences of the eigenvalues

  /** `R[i][j]`: `(log e_i - log e_j) / (e_i - e_j)` for distinct eigenvalues,
      `1 / e_j` for equal ones. */
  function DividedDifference(log: real -> real, e: seq<real>, i: Idx, j: Idx): real
    requires |e| == 3
    requires e[i] == e[j] ==> e[j] != 0.0
  {
    if e[i] != e[j] then (log(e[i]) - log(e[j])) / (e[i] - e[j]) else 1.0 / e[j]
  }

  /** `R` is symmetric whatever `log` is, equal eigenvalues give `1 / e_j`,
      and a triple eigenvalue `c` gives `1 / c` everywhere. */
  lemma DividedDifferenceProperties(log: real -> real, e: seq<real>, i: Idx, j: Idx)
    requires |e| == 3 && e[0] != 0.0 && e[1] != 0.0 && e[2] != 0.0
    ensures DividedDifference(log, e, i, j) == DividedDifference(log, e, j, i)
    ensures e[i] == e[j] ==> DividedDifference(log, e, i, j) == 1.0 / e[j]
    ensures e[0] == e[1] == e[2] ==> DividedDifference(log, e, i, j) == 1.0 / e[0]
  {
    if e[i] != e[j] {
      DivNegNeg(log(e[i]) - log(e[j]), e[i] - e[j]);
    }
  }

  /** `R`, filled by the script's double loop; it is symmetric. */
  method DividedDifferenceMatrix(log: real -> real, e: seq<real>) returns (r: array2<real>)
    requires |e| == 3 && e[0] != 0.0 && e[1] != 0.0 && e[2] != 0.0
    ensures fresh(r) && r.Length0 == 3 && r.Length1 == 3
    ensures forall i: Idx, j: Idx :: r[i, j] == DividedDifference(log, e, i, j)
    ensures forall i: Idx, j: Idx :: r[i, j] == r[j, i]
  {
    r := new real[3, 3]((_, _) => 0.0);
    for i := 0 to 3
      invariant forall i', j: Idx :: 0 <= i' < i ==> r[i', j] == DividedDifference(log, e, i', j)
    {
      FillRow(log, e, r, i);
    }
    forall i: Idx, j: Idx ensures r[i, j] == r[j, i] {
      DividedDifferenceProperties(log, e, i, j);
    }
  }

  /** The inner loop of the script: row `i` of `R`. */
  method FillRow(log: real -> real, e: seq<real>, r: array2<real>, i: Idx)
    requires |e| == 3 && e[0] != 0.0 && e[1] != 0.0 && e[2] != 0.0
    requires r.Length0 == 3 && r.Length1 == 3
    modifies r
    ensures forall j: Idx :: r[i, j] == DividedDifference(log, e, i, j)
    ensures forall i': Idx, j: Idx :: i' != i ==> r[i', j] == old(r[i', j])
  {
    for j := 0 to 3
      invariant forall j' :: 0 <= j' < j ==> r[i, j'] == DividedDifference(log, e, i, j')
      invariant forall i': Idx, j': Idx :: i' != i ==> r[i', j'] == old(r[i', j'])
    {
      if e[i] != e[j] {
        r[i, j] := (log(e[i]) - log(e[j])) / (e[i] - e[j]);
      } else {
        r[i, j] := 1.0 / e[j];
      }
    }
  }

  // ---------------------------------------------------------------------
  // The symmetric unit perturbation

  /** `grad[i][j][k][l] = 0.5 * ((i==k)(j==l) + (j==k)(i==l))`; a product
      of two booleans is `1` exactly when both hold. */
  function GradAt(i: Idx, j: Idx, k: Idx, l: Idx): real {
    0.5 * ((if i == k && j == l then 1.0 else 0.0) + (if j == k && i == l then 1.0 else 0.0))
  }

  lemma GradSymmetries(i: Idx, j: Idx, k: Idx, l: Idx)
    ensures GradAt(i, j, k, l) == GradAt(j, i, k, l) == GradAt(i, j, l, k) == GradAt(k, l, i, j)
    ensures i != j ==> GradAt(i, j, i, j) == 0.5
    ensures GradAt(i, i, i, i) == 1.0
  {
  }

  lemma GradMajor(i: Idx, j: Idx, k: Idx, l: Idx)
    ensures GradAt(k, l, i, j) == GradAt(i, j, k, l)
  {
  }

  /** `grad` is the identity on symmetric matrices:
      `Σ_kl grad[i][j][k][l] S[k][l] == S[i][j]`. */
  lemma GradActsAsIdentity(s: Mat3, i: Idx, j: Idx)
    requires IsSymmetric3(s)
    ensures Sum9((k: Idx, l: Idx) => GradAt(i, j, k, l) * s[k][l]) == s[i][j]
  {
    assert s[j][i] == s[i][j];
  }

  /** `Σ_{k,l} f(k, l)` over the nine index pairs. */
  function Sum9(f: (Idx, Idx) -> real): real {
    f(0, 0) + f(0, 1) + f(0, 2) + f(1, 0) + f(1, 1) + f(1, 2) + f(2, 0) + f(2, 1) + f(2, 2)
  }

  /** `grad`, filled entry by entry. */
  method GradTensor() returns (d: array4<real>)
    ensures fresh(d) && d.Length0 == 3 && d.Length1 == 3 && d.Length2 == 3 && d.Length3 == 3
    ensures forall i: Idx, j: Idx, k: Idx, l: Idx :: d[i, j, k, l] == GradAt(i, j, k, l)
  {
    d := Tabulate4(GradAt);
  }

  // ---------------------------------------------------------------------
  // The spectral formula

  /** `grad[k][l]`, the 3×3 slice over the last two indices. */
  function GradSlice(k: Idx, l: Idx): (g: Mat3)
    ensures IsSymmetric3(g)
  {
    Mat3Of((m: Idx, n: Idx) => GradAt(k, l, m, n))
  }

  /** `R * X`, numpy's elementwise product. */
  function Hadamard(a: Mat3, b: Mat3): (c: Mat3)
    ensures forall i: Idx, j: Idx :: c[i][j] == a[i][j] * b[i][j]
  {
    Mat3Of((i: Idx, j: Idx) => a[i][j] * b[i][j])
  }

  function Scale3(s: real, a: Mat3): (c: Mat3)
    ensures forall i: Idx, j: Idx :: c[i][j] == s * a[i][j]
  {
    Mat3Of((i: Idx, j: Idx) => s * a[i][j])
  }

  /** `Q @ (R * (Q.T @ G @ Q))` for the slice `G = grad[k][l]`, the common
      prefix of both forms. */
  function SpectralInner(q: Mat3, r: Mat3, g: Mat3): Mat3 {
    Mul3(q, Hadamard(r, Mul3(Mul3(Transpose3(q), g), q)))
  }

  /** The script's `(Q @ (R * (Q.T @ grad[k][l] @ Q)) * Q.T)[i][j]`: numpy's
      `*` binds like `@`, left to right, so the final step multiplies entry
      `[i][j]` by `Q.T[i][j]` instead of forming a matrix product. */
  function SpectralAsWrittenAt(q: Mat3, r: Mat3, g: Mat3, i: Idx, j: Idx): real {
    SpectralInner(q, r, g)[i][j] * q[j][i]
  }

  /** The Daleckii–Krein formula `Q (R ∘ (Qᵀ G Q)) Qᵀ` with a matrix product
      in the last step. */
  function SpectralAt(q: Mat3, r: Mat3, g: Mat3, i: Idx, j: Idx): real {
    Mul3(SpectralInner(q, r, g), Transpose3(q))[i][j]
  }

  /** `derivative` as the script computes it. */
  method SpectralAsWrittenTensor(q: Mat3, r: Mat3) returns (d: array4<real>)
    ensures fresh(d) && d.Length0 == 3 && d.Length1 == 3 && d.Length2 == 3 && d.Length3 == 3
    ensures forall i: Idx, j: Idx, k: Idx, l: Idx :: d[i, j, k, l] == SpectralAsWrittenAt(q, r, GradSlice(k, l), i, j)
  {
    d := Tabulate4((i: Idx, j: Idx, k: Idx, l: Idx) => SpectralAsWrittenAt(q, r, GradSlice(k, l), i, j));
  }

  /** `derivative` with the intended matrix product; symmetric in `(k, l)`
      always and in `(i, j)` when `R` is symmetric. */
  method SpectralTensor(q: Mat3, r: Mat3) returns (d: array4<real>)
    ensures fresh(d) && d.Length0 == 3 && d.Length1 == 3 && d.Length2 == 3 && d.Length3 == 3
    ensures forall i: Idx, j: Idx, k: Idx, l: Idx :: d[i, j, k, l] == SpectralAt(q, r, GradSlice(k, l), i, j)
    ensures forall i: Idx, j: Idx, k: Idx, l: Idx :: d[i, j, k, l] == d[i, j, l, k]
    ensures IsSymmetric3(r) ==> forall i: Idx, j: Idx, k: Idx, l: Idx :: d[i, j, k, l] == d[j, i, k, l]
    ensures IsSymmetric3(r) ==> forall i: Idx, j: Idx, k: Idx, l: Idx :: d[i, j, k, l] == d[k, l, i, j]
  {
    d := Tabulate4((i: Idx, j: Idx, k: Idx, l: Idx) => SpectralAt(q, r, GradSlice(k, l), i, j));
    forall k: Idx, l: Idx ensures GradSlice(k, l) == GradSlice(l, k) {
      GradSliceSwap(k, l);
    }
    if IsSymmetric3(r) {
      forall k: Idx, l: Idx ensures forall i: Idx, j: Idx :: SpectralAt(q, r, GradSlice(k, l), i, j) == SpectralAt(q, r, GradSlice(k, l), j, i) {
        SpectralMinorIj(q, r, GradSlice(k, l));
      }
      SpectralMajorAll(q, r);
    }
  }

  /** Scaling distributes over a three-term dot product. */
  lemma ScaleDot(s: real, a0: real, a1: real, a2: real, b0: real, b1: real, b2: real)
    ensures (s * a0) * b0 + (s * a1) * b1 + (s * a2) * b2 == s * (a0 * b0 + a1 * b1 + a2 * b2)
    ensures a0 * (s * b0) + a1 * (s * b1) + a2 * (s * b2) == s * (a0 * b0 + a1 * b1 + a2 * b2)
  {
  }

  lemma Mul3ScaleEntry(s: real, a: Mat3, b: Mat3, i: Idx, j: Idx)
    ensures Mul3(Scale3(s, a), b)[i][j] == Scale3(s, Mul3(a, b))[i][j]
    ensures Mul3(a, Scale3(s, b))[i][j] == Scale3(s, Mul3(a, b))[i][j]
  {
    ScaledProduct(s, a, b, i, j);
    ScaleDot(s, a[i][0], a[i][1], a[i][2], b[0][j], b[1][j], b[2][j]);
    ScaleLeftEntry(s, a, b, i, j);
    ScaleRightEntry(s, a, b, i, j);
  }

  lemma ScaledProduct(s: real, a: Mat3, b: Mat3, i: Idx, j: Idx)
    ensures Scale3(s, Mul3(a, b))[i][j] == s * (a[i][0] * b[0][j] + a[i][1] * b[1][j] + a[i][2] * b[2][j])
  {
    MulEntryExpand(a, b, i, j);
  }

  lemma ScaleLeftEntry(s: real, a: Mat3, b: Mat3, i: Idx, j: Idx)
    ensures Mul3(Scale3(s, a), b)[i][j] == (s * a[i][0]) * b[0][j] + (s * a[i][1]) * b[1][j] + (s * a[i][2]) * b[2][j]
  {
    var sa := Scale3(s, a);
    MulEntryExpand(sa, b, i, j);
    assert sa[i][0] == s * a[i][0] && sa[i][1] == s * a[i][1] && sa[i][2] == s * a[i][2];
  }

  lemma ScaleRightEntry(s: real, a: Mat3, b: Mat3, i: Idx, j: Idx)
    ensures Mul3(a, Scale3(s, b))[i][j] == a[i][0] * (s * b[0][j]) + a[i][1] * (s * b[1][j]) + a[i][2] * (s * b[2][j])
  {
    var sb := Scale3(s, b);
    MulEntryExpand(a, sb, i, j);
    assert sb[0][j] == s * b[0][j] && sb[1][j] == s * b[1][j] && sb[2][j] == s * b[2][j];
  }

  lemma Mul3Scale(s: real, a: Mat3, b: Mat3)
    ensures Mul3(Scale3(s, a), b) == Scale3(s, Mul3(a, b))
    ensures Mul3(a, Scale3(s, b)) == Scale3(s, Mul3(a, b))
  {
    forall i: Idx, j: Idx
      ensures Mul3(Scale3(s, a), b)[i][j] == Scale3(s, Mul3(a, b))[i][j]
      ensures Mul3(a, Scale3(s, b))[i][j] == Scale3(s, Mul3(a, b))[i][j]
    {
      Mul3ScaleEntry(s, a, b, i, j);
    }
    Mat3Equal(Mul3(Scale3(s, a), b), Scale3(s, Mul3(a, b)));
    Mat3Equal(Mul3(a, Scale3(s, b)), Scale3(s, Mul3(a, b)));
  }

  lemma SymmetricByTranspose(a: Mat3)
    requires Transpose3(a) == a
    ensures IsSymmetric3(a)
  {
    forall i: Idx, j: Idx ensures a[i][j] == a[j][i] {
      assert Transpose3(a)[i][j] == a[j][i];
    }
  }

  /** `Q S Qᵀ` is symmetric when `S` is. */
  lemma CongruenceSymmetric(q: Mat3, s: Mat3)
    requires IsSymmetric3(s)
    ensures IsSymmetric3(Mul3(Mul3(q, s), Transpose3(q)))
  {
    var qt := Transpose3(q);
    Mat3Equal(Transpose3(s), s);
    Mat3Equal(Transpose3(qt), q);
    calc {
      Transpose3(Mul3(Mul3(q, s), qt));
      { TransposeMul3(Mul3(q, s), qt); }
      Mul3(q, Transpose3(Mul3(q, s)));
      { TransposeMul3(q, s); }
      Mul3(q, Mul3(s, qt));
      { Mul3Assoc(q, s, qt); }
      Mul3(Mul3(q, s), qt);
    }
    SymmetricByTranspose(Mul3(Mul3(q, s), qt));
  }

  lemma HadamardSymmetric(a: Mat3, b: Mat3)
    requires IsSymmetric3(a) && IsSymmetric3(b)
    ensures IsSymmetric3(Hadamard(a, b))
  {
    var h := Hadamard(a, b);
    assert h[0][1] == h[1][0] by { ProductEq(a[0][1], a[1][0], b[0][1], b[1][0]); }
    assert h[0][2] == h[2][0] by { ProductEq(a[0][2], a[2][0], b[0][2], b[2][0]); }
    assert h[1][2] == h[2][1] by { ProductEq(a[1][2], a[2][1], b[1][2], b[2][1]); }
    Symmetric3Of(h);
  }

  lemma GradSliceSwap(k: Idx, l: Idx)
    ensures GradSlice(k, l) == GradSlice(l, k)
  {
    forall m: Idx, n: Idx ensures GradSlice(k, l)[m][n] == GradSlice(l, k)[m][n] {
      GradSymmetries(k, l, m, n);
    }
    Mat3Equal(GradSlice(k, l), GradSlice(l, k));
  }

  /** With a symmetric `R` the intended form is symmetric in `(i, j)`
      for every symmetric slice `G`. */
  lemma SpectralMinorIj(q: Mat3, r: Mat3, g: Mat3)
    requires IsSymmetric3(r) && IsSymmetric3(g)
    ensures forall i: Idx, j: Idx :: SpectralAt(q, r, g, i, j) == SpectralAt(q, r, g, j, i)
  {
    var qt := Transpose3(q);
    var t := Mul3(Mul3(qt, g), q);
    Mat3Equal(Transpose3(qt), q);
    CongruenceSymmetric(qt, g);
    HadamardSymmetric(r, t);
    CongruenceSymmetric(q, Hadamard(r, t));
  }

  // ---------------------------------------------------------------------
  // Major symmetry of the intended spectral tensor

  /** `g` holds the slice `grad[k][l]`. */
  predicate IsGradSlice(g: Mat3, k: Idx, l: Idx) {
    forall m: Idx, n: Idx :: g[m][n] == GradAt(k, l, m, n)
  }

  /** `v[k]` for a vector given by its three components. */
  function Pick(v0: real, v1: real, v2: real, k: Idx): real {
    if k == 0 then v0 else if k == 1 then v1 else v2
  }

  /** `Σ_m v_m grad_klmn = ½ ([n = l] v_k + [n = k] v_l)`. */
  lemma GradColumnSum(v0: real, v1: real, v2: real, c0: real, c1: real, c2: real, vk: real, vl: real, k: Idx, l: Idx, n: Idx)
    requires c0 == GradAt(k, l, 0, n) && c1 == GradAt(k, l, 1, n) && c2 == GradAt(k, l, 2, n)
    requires vk == Pick(v0, v1, v2, k) && vl == Pick(v0, v1, v2, l)
    ensures v0 * c0 + v1 * c1 + v2 * c2 == 0.5 * ((if n == l then vk else 0.0) + (if n == k then vl else 0.0))
  {
  }

  /** `Σ_n ½ ([n = l] q_ka + [n = k] q_la) q_nb = ½ (q_ka q_lb + q_la q_kb)`. */
  lemma SelectedSum(x: Mat3, q: Mat3, k: Idx, l: Idx, a: Idx, b: Idx)
    requires x[a][0] == 0.5 * ((if 0 == l then q[k][a] else 0.0) + (if 0 == k then q[l][a] else 0.0))
    requires x[a][1] == 0.5 * ((if 1 == l then q[k][a] else 0.0) + (if 1 == k then q[l][a] else 0.0))
    requires x[a][2] == 0.5 * ((if 2 == l then q[k][a] else 0.0) + (if 2 == k then q[l][a] else 0.0))
    ensures x[a][0] * q[0][b] + x[a][1] * q[1][b] + x[a][2] * q[2][b] == 0.5 * (q[k][a] * q[l][b] + q[l][a] * q[k][b])
  {
  }

  /** `(Qᵀ · grad[k][l])[a][n]`: only the rows `k` and `l` of `Q` survive. */
  lemma {:induction false} GradLeftEntry(q: Mat3, g: Mat3, k: Idx, l: Idx, a: Idx, n: Idx)
    requires IsGradSlice(g, k, l)
    ensures Mul3(Transpose3(q), g)[a][n]
      == 0.5 * ((if n == l then q[k][a] else 0.0) + (if n == k then q[l][a] else 0.0))
  {
    TransposeLeftEntry(q, g, a, n);
    GradColumnSum(q[0][a], q[1][a], q[2][a], g[0][n], g[1][n], g[2][n], q[k][a], q[l][a], k, l, n);
  }

  lemma {:induction false} TransposeLeftEntry(q: Mat3, g: Mat3, a: Idx, n: Idx)
    ensures Mul3(Transpose3(q), g)[a][n] == q[0][a] * g[0][n] + q[1][a] * g[1][n] + q[2][a] * g[2][n]
  {
    var qt := Transpose3(q);
    MulEntryExpand(qt, g, a, n);
    assert qt[a][0] == q[0][a] && qt[a][1] == q[1][a] && qt[a][2] == q[2][a];
  }

  /** `(Qᵀ · grad[k][l] · Q)[a][b] = ½ (q_ka q_lb + q_la q_kb)`. */
  lemma {:induction false} GradCongruenceEntry(q: Mat3, g: Mat3, k: Idx, l: Idx, a: Idx, b: Idx)
    requires IsGradSlice(g, k, l)
    ensures Mul3(Mul3(Transpose3(q), g), q)[a][b] == 0.5 * (q[k][a] * q[l][b] + q[l][a] * q[k][b])
  {
    var x := Mul3(Transpose3(q), g);
    Mul3Entry(x, q, a, b);
    GradLeftEntry(q, g, k, l, a, 0);
    GradLeftEntry(q, g, k, l, a, 1);
    GradLeftEntry(q, g, k, l, a, 2);
    SelectedSum(x, q, k, l, a, b);
  }

  lemma {:induction false} TransposeRightEntry(x: Mat3, q: Mat3, i: Idx, j: Idx)
    ensures Mul3(x, Transpose3(q))[i][j] == x[i][0] * q[j][0] + x[i][1] * q[j][1] + x[i][2] * q[j][2]
  {
    var qt := Transpose3(q);
    MulEntryExpand(x, qt, i, j);
    assert qt[0][j] == q[j][0] && qt[1][j] == q[j][1] && qt[2][j] == q[j][2];
  }

  lemma {:induction false} Mul3Entry(x: Mat3, y: Mat3, a: Idx, b: Idx)
    ensures Mul3(x, y)[a][b] == x[a][0] * y[0][b] + x[a][1] * y[1][b] + x[a][2] * y[2][b]
  {
    MulEntryExpand(x, y, a, b);
  }

  /** `Σ_b (Σ_a q_ia h_ab) q_jb`, distributed into its nine terms. */
  lemma DistributeCongruence(q: Mat3, h: Mat3, qh: Mat3, i: Idx, j: Idx)
    requires qh[i][0] == q[i][0] * h[0][0] + q[i][1] * h[1][0] + q[i][2] * h[2][0]
    requires qh[i][1] == q[i][0] * h[0][1] + q[i][1] * h[1][1] + q[i][2] * h[2][1]
    requires qh[i][2] == q[i][0] * h[0][2] + q[i][1] * h[1][2] + q[i][2] * h[2][2]
    ensures qh[i][0] * q[j][0] + qh[i][1] * q[j][1] + qh[i][2] * q[j][2] == CongruenceSum(q, h, i, j)
  {
  }

  function CongruenceTerm(q: Mat3, h: Mat3, i: Idx, j: Idx, a: Idx, b: Idx): real {
    q[i][a] * h[a][b] * q[j][b]
  }

  /** `Σ_b q_ia h_ab q_jb`, one row `a` of the congruence sum. */
  function CongruenceRow(q: Mat3, h: Mat3, i: Idx, j: Idx, a: Idx): real {
    CongruenceTerm(q, h, i, j, a, 0) + CongruenceTerm(q, h, i, j, a, 1) + CongruenceTerm(q, h, i, j, a, 2)
  }

  /** `Σ_ab q_ia h_ab q_jb`. */
  function CongruenceSum(q: Mat3, h: Mat3, i: Idx, j: Idx): real {
    CongruenceRow(q, h, i, j, 0) + CongruenceRow(q, h, i, j, 1) + CongruenceRow(q, h, i, j, 2)
  }

  /** `(Q H Qᵀ)[i][j] = Σ_ab q_ia h_ab q_jb`. */
  lemma {:induction false} CongruenceEntry(q: Mat3, h: Mat3, i: Idx, j: Idx)
    ensures Mul3(Mul3(q, h), Transpose3(q))[i][j] == CongruenceSum(q, h, i, j)
  {
    var qh := Mul3(q, h);
    TransposeRightEntry(qh, q, i, j);
    Mul3Entry(q, h, i, 0);
    Mul3Entry(q, h, i, 1);
    Mul3Entry(q, h, i, 2);
    DistributeCongruence(q, h, qh, i, j);
  }

  /** One term of the expanded spectral entry:
      `r_ab (q_ia q_jb) (q_ka q_lb)`. */
  function SpectralTerm(q: Mat3, r: Mat3, i: Idx, j: Idx, k: Idx, l: Idx, a: Idx, b: Idx): real {
    r[a][b] * (q[i][a] * q[j][b]) * (q[k][a] * q[l][b])
  }

  function TermRow(q: Mat3, r: Mat3, i: Idx, j: Idx, k: Idx, l: Idx, a: Idx): real {
    SpectralTerm(q, r, i, j, k, l, a, 0) + SpectralTerm(q, r, i, j, k, l, a, 1) + SpectralTerm(q, r, i, j, k, l, a, 2)
  }

  /** `Σ_ab r_ab (q_ia q_jb) (q_ka q_lb)`. */
  function TermSum(q: Mat3, r: Mat3, i: Idx, j: Idx, k: Idx, l: Idx): real {
    TermRow(q, r, i, j, k, l, 0) + TermRow(q, r, i, j, k, l, 1) + TermRow(q, r, i, j, k, l, 2)
  }

  /** The intended entry `D_ijkl`, summed out over the eigenbasis:
      `½ Σ_ab r_ab q_ia q_jb (q_ka q_lb + q_la q_kb)`. */
  lemma {:induction false} SpectralExpanded(q: Mat3, r: Mat3, g: Mat3, i: Idx, j: Idx, k: Idx, l: Idx)
    requires IsGradSlice(g, k, l)
    ensures SpectralAt(q, r, g, i, j) == 0.5 * (TermSum(q, r, i, j, k, l) + TermSum(q, r, i, j, l, k))
  {
    var h := Hadamard(r, Mul3(Mul3(Transpose3(q), g), q));
    assert SpectralAt(q, r, g, i, j) == Mul3(Mul3(q, h), Transpose3(q))[i][j];
    CongruenceEntry(q, h, i, j);
    HadamardSum(q, r, g, h, i, j, k, l);
  }

  /** `Σ_ab q_ia (r_ab t_ab) q_jb` with `t = Qᵀ grad[k][l] Q`, split into
      the two halves of the symmetrised slice. */
  lemma {:induction false} HadamardSum(q: Mat3, r: Mat3, g: Mat3, h: Mat3, i: Idx, j: Idx, k: Idx, l: Idx)
    requires IsGradSlice(g, k, l) && h == Hadamard(r, Mul3(Mul3(Transpose3(q), g), q))
    ensures CongruenceSum(q, h, i, j) == 0.5 * (TermSum(q, r, i, j, k, l) + TermSum(q, r, i, j, l, k))
  {
    HadamardRow(q, r, g, h, i, j, k, l, 0);
    HadamardRow(q, r, g, h, i, j, k, l, 1);
    HadamardRow(q, r, g, h, i, j, k, l, 2);
    Halves3(CongruenceRow(q, h, i, j, 0), CongruenceRow(q, h, i, j, 1), CongruenceRow(q, h, i, j, 2),
            TermRow(q, r, i, j, k, l, 0), TermRow(q, r, i, j, k, l, 1), TermRow(q, r, i, j, k, l, 2),
            TermRow(q, r, i, j, l, k, 0), TermRow(q, r, i, j, l, k, 1), TermRow(q, r, i, j, l, k, 2));
  }

  lemma {:induction false} HadamardRow(q: Mat3, r: Mat3, g: Mat3, h: Mat3, i: Idx, j: Idx, k: Idx, l: Idx, a: Idx)
    requires IsGradSlice(g, k, l) && h == Hadamard(r, Mul3(Mul3(Transpose3(q), g), q))
    ensures CongruenceRow(q, h, i, j, a) == 0.5 * (TermRow(q, r, i, j, k, l, a) + TermRow(q, r, i, j, l, k, a))
  {
    HadamardEntry(q, r, g, h, i, j, k, l, a, 0);
    HadamardEntry(q, r, g, h, i, j, k, l, a, 1);
    HadamardEntry(q, r, g, h, i, j, k, l, a, 2);
    Halves3(CongruenceTerm(q, h, i, j, a, 0), CongruenceTerm(q, h, i, j, a, 1), CongruenceTerm(q, h, i, j, a, 2),
            SpectralTerm(q, r, i, j, k, l, a, 0), SpectralTerm(q, r, i, j, k, l, a, 1), SpectralTerm(q, r, i, j, k, l, a, 2),
            SpectralTerm(q, r, i, j, l, k, a, 0), SpectralTerm(q, r, i, j, l, k, a, 1), SpectralTerm(q, r, i, j, l, k, a, 2));
  }

  lemma {:induction false} HadamardEntry(q: Mat3, r: Mat3, g: Mat3, h: Mat3, i: Idx, j: Idx, k: Idx, l: Idx, a: Idx, b: Idx)
    requires IsGradSlice(g, k, l) && h == Hadamard(r, Mul3(Mul3(Transpose3(q), g), q))
    ensures CongruenceTerm(q, h, i, j, a, b) == 0.5 * (SpectralTerm(q, r, i, j, k, l, a, b) + SpectralTerm(q, r, i, j, l, k, a, b))
  {
    var t := Mul3(Mul3(Transpose3(q), g), q);
    HadamardAt(r, t, a, b);
    GradCongruenceEntry(q, g, k, l, a, b);
    HadamardTerm(q, r, t, h, i, j, k, l, a, b);
  }

  lemma HadamardAt(r: Mat3, t: Mat3, a: Idx, b: Idx)
    ensures Hadamard(r, t)[a][b] == r[a][b] * t[a][b]
  {
  }

  lemma Halves3(c0: real, c1: real, c2: real, p0: real, p1: real, p2: real, p0': real, p1': real, p2': real)
    requires c0 == 0.5 * (p0 + p0') && c1 == 0.5 * (p1 + p1') && c2 == 0.5 * (p2 + p2')
    ensures c0 + c1 + c2 == 0.5 * ((p0 + p1 + p2) + (p0' + p1' + p2'))
  {
  }

  /** One term: `q_ia (r_ab t_ab) q_jb` with `t_ab = ½ (q_ka q_lb + q_la q_kb)`. */
  lemma HadamardTerm(q: Mat3, r: Mat3, t: Mat3, h: Mat3, i: Idx, j: Idx, k: Idx, l: Idx, a: Idx, b: Idx)
    requires h[a][b] == r[a][b] * t[a][b]
    requires t[a][b] == 0.5 * (q[k][a] * q[l][b] + q[l][a] * q[k][b])
    ensures CongruenceTerm(q, h, i, j, a, b) == 0.5 * (SpectralTerm(q, r, i, j, k, l, a, b) + SpectralTerm(q, r, i, j, l, k, a, b))
  {
    TermSplit(q[i][a], q[j][b], h[a][b], r[a][b], t[a][b], q[k][a], q[l][b], q[l][a], q[k][b]);
  }

  /** `x (r t) y = ½ (r (x y)(u v) + r (x y)(w z))` when `t = ½ (u v + w z)`. */
  lemma TermSplit(x: real, y: real, h: real, r: real, t: real, u: real, v: real, w: real, z: real)
    requires h == r * t && t == 0.5 * (u * v + w * z)
    ensures x * h * y == 0.5 * (r * (x * y) * (u * v) + r * (x * y) * (w * z))
  {
    assert x * h * y == r * (x * y) * t;
  }

  lemma GradSliceEntries(k: Idx, l: Idx)
    ensures IsGradSlice(GradSlice(k, l), k, l)
  {
  }

  /** With a symmetric `R` the intended spectral tensor has the major
      symmetry `D_ijkl = D_klij`: swapping the pairs permutes the terms of
      the expanded sum. */
  lemma {:induction false} SpectralMajor(q: Mat3, r: Mat3, i: Idx, j: Idx, k: Idx, l: Idx)
    requires IsSymmetric3(r)
    ensures SpectralAt(q, r, GradSlice(k, l), i, j) == SpectralAt(q, r, GradSlice(i, j), k, l)
  {
    GradSliceEntries(k, l);
    GradSliceEntries(i, j);
    SpectralExpanded(q, r, GradSlice(k, l), i, j, k, l);
    SpectralExpanded(q, r, GradSlice(i, j), k, l, i, j);
    SumsMatch(q, r, i, j, k, l);
  }

  /** The two expanded sums of `SpectralMajor` agree term by term. */
  lemma {:induction false} SumsMatch(q: Mat3, r: Mat3, i: Idx, j: Idx, k: Idx, l: Idx)
    requires IsSymmetric3(r)
    ensures TermSum(q, r, i, j, k, l) == TermSum(q, r, k, l, i, j)
    ensures TermSum(q, r, i, j, l, k) == TermSum(q, r, k, l, j, i)
  {
    TermSwapRow(q, r, i, j, k, l, 0);
    TermSwapRow(q, r, i, j, k, l, 1);
    TermSwapRow(q, r, i, j, k, l, 2);
    Transpose9(SpectralTerm(q, r, k, l, j, i, 0, 0), SpectralTerm(q, r, k, l, j, i, 0, 1), SpectralTerm(q, r, k, l, j, i, 0, 2),
               SpectralTerm(q, r, k, l, j, i, 1, 0), SpectralTerm(q, r, k, l, j, i, 1, 1), SpectralTerm(q, r, k, l, j, i, 1, 2),
               SpectralTerm(q, r, k, l, j, i, 2, 0), SpectralTerm(q, r, k, l, j, i, 2, 1), SpectralTerm(q, r, k, l, j, i, 2, 2),
               SpectralTerm(q, r, i, j, l, k, 0, 0), SpectralTerm(q, r, i, j, l, k, 0, 1), SpectralTerm(q, r, i, j, l, k, 0, 2),
               SpectralTerm(q, r, i, j, l, k, 1, 0), SpectralTerm(q, r, i, j, l, k, 1, 1), SpectralTerm(q, r, i, j, l, k, 1, 2),
               SpectralTerm(q, r, i, j, l, k, 2, 0), SpectralTerm(q, r, i, j, l, k, 2, 1), SpectralTerm(q, r, i, j, l, k, 2, 2));
  }

  lemma {:induction false} TermSwapRow(q: Mat3, r: Mat3, i: Idx, j: Idx, k: Idx, l: Idx, a: Idx)
    requires IsSymmetric3(r)
    ensures TermRow(q, r, i, j, k, l, a) == TermRow(q, r, k, l, i, j, a)
    ensures SpectralTerm(q, r, k, l, j, i, a, 0) == SpectralTerm(q, r, i, j, l, k, 0, a)
    ensures SpectralTerm(q, r, k, l, j, i, a, 1) == SpectralTerm(q, r, i, j, l, k, 1, a)
    ensures SpectralTerm(q, r, k, l, j, i, a, 2) == SpectralTerm(q, r, i, j, l, k, 2, a)
  {
    TermSwap(q, r, i, j, k, l, a, 0);
    TermSwap(q, r, i, j, k, l, a, 1);
    TermSwap(q, r, i, j, k, l, a, 2);
  }

  /** Two nine-term sums agree when the terms of one are those of the other
      with the index pair swapped. */
  lemma Transpose9(s00: real, s01: real, s02: real, s10: real, s11: real, s12: real, s20: real, s21: real, s22: real,
                   p00: real, p01: real, p02: real, p10: real, p11: real, p12: real, p20: real, p21: real, p22: real)
    requires s00 == p00 && s01 == p10 && s02 == p20
    requires s10 == p01 && s11 == p11 && s12 == p21
    requires s20 == p02 && s21 == p12 && s22 == p22
    ensures (s00 + s01 + s02) + (s10 + s11 + s12) + (s20 + s21 + s22)
         == (p00 + p01 + p02) + (p10 + p11 + p12) + (p20 + p21 + p22)
  {
  }

  lemma SpectralMajorAll(q: Mat3, r: Mat3)
    requires IsSymmetric3(r)
    ensures forall i: Idx, j: Idx, k: Idx, l: Idx ::
      SpectralAt(q, r, GradSlice(k, l), i, j) == SpectralAt(q, r, GradSlice(i, j), k, l)
  {
    forall i: Idx, j: Idx, k: Idx, l: Idx
      ensures SpectralAt(q, r, GradSlice(k, l), i, j) == SpectralAt(q, r, GradSlice(i, j), k, l)
    {
      SpectralMajor(q, r, i, j, k, l);
    }
  }

  lemma TermSwap(q: Mat3, r: Mat3, i: Idx, j: Idx, k: Idx, l: Idx, a: Idx, b: Idx)
    requires r[a][b] == r[b][a]
    ensures SpectralTerm(q, r, k, l, i, j, a, b) == SpectralTerm(q, r, i, j, k, l, a, b)
    ensures SpectralTerm(q, r, k, l, j, i, a, b) == SpectralTerm(q, r, i, j, l, k, b, a)
  {
  }

  predicate Orthogonal(q: Mat3) {
    Mul3(q, Transpose3(q)) == IDENTITY3 && Mul3(Transpose3(q), q) == IDENTITY3
  }

  /** Rotating into the eigenbasis and back is the identity. */
  lemma OrthogonalRoundTrip(q: Mat3, g: Mat3)
    requires Orthogonal(q)
    ensures Mul3(Mul3(q, Mul3(Mul3(Transpose3(q), g), q)), Transpose3(q)) == g
  {
    var qt := Transpose3(q);
    calc {
      Mul3(Mul3(q, Mul3(Mul3(qt, g), q)), qt);
      { Mul3Assoc(qt, g, q); }
      Mul3(Mul3(q, Mul3(qt, Mul3(g, q))), qt);
      { Mul3Assoc(q, qt, Mul3(g, q)); }
      Mul3(Mul3(IDENTITY3, Mul3(g, q)), qt);
      { Mul3Identity(Mul3(g, q)); }
      Mul3(Mul3(g, q), qt);
      { Mul3Assoc(g, q, qt); }
      Mul3(g, IDENTITY3);
      { Mul3Identity(g); }
      g;
    }
  }

  lemma HadamardConstant(r: Mat3, c: real, t: Mat3)
    requires forall m: Idx, n: Idx :: r[m][n] == c
    ensures Hadamard(r, t) == Scale3(c, t)
  {
    Mat3Equal(Hadamard(r, t), Scale3(c, t));
  }

  /** With an orthogonal `Q` and every divided difference equal to `c` (a
      triple eigenvalue `1 / c`), the intended formula maps every direction
      `G` to `c G`; for `G = grad[k][l]` the derivative's `[k][l]` slice is
      `c` times that of `grad`. */
  lemma SpectralIsotropic(q: Mat3, r: Mat3, c: real, g: Mat3)
    requires Orthogonal(q)
    requires forall m: Idx, n: Idx :: r[m][n] == c
    ensures Mul3(SpectralInner(q, r, g), Transpose3(q)) == Scale3(c, g)
  {
    var qt := Transpose3(q);
    var t := Mul3(Mul3(qt, g), q);
    HadamardConstant(r, c, t);
    calc {
      Mul3(SpectralInner(q, r, g), qt);
      Mul3(Mul3(q, Scale3(c, t)), qt);
      { Mul3Scale(c, q, t); }
      Mul3(Scale3(c, Mul3(q, t)), qt);
      { Mul3Scale(c, Mul3(q, t), qt); }
      Scale3(c, Mul3(Mul3(q, t), qt));
      { OrthogonalRoundTrip(q, g); }
      Scale3(c, g);
    }
  }

  lemma IdentityOrthogonal()
    ensures Orthogonal(IDENTITY3)
  {
    Mat3Equal(Transpose3(IDENTITY3), IDENTITY3);
    Mul3Identity(IDENTITY3);
  }

  /** At `F = I` (so `Q = I` and every `R` entry is `1`) the script's
      elementwise last step gives `0` for `[0][1][0][1]`, where `grad` and
      the intended formula both give `0.5`. */
  lemma SpectralAsWrittenCounterexample()
    ensures SpectralAsWrittenAt(IDENTITY3, Mat3Of((m: Idx, n: Idx) => 1.0), GradSlice(0, 1), 0, 1) == 0.0
    ensures SpectralAt(IDENTITY3, Mat3Of((m: Idx, n: Idx) => 1.0), GradSlice(0, 1), 0, 1) == 0.5 == GradAt(0, 1, 0, 1)
  {
    assert IDENTITY3[1][0] == 0.0;
    IdentityOrthogonal();
    SpectralIsotropic(IDENTITY3, Mat3Of((m: Idx, n: Idx) => 1.0), 1.0, GradSlice(0, 1));
  }
}
