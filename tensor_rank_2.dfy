/** Rank-2 tensors (`TensorRank2`): transpose, trace, the symmetry and
    diagonal tests, row-major flattening, the 3×3 cofactor determinant,
    adjugate inverse and invariants, the Doolittle LU factors, and the
    diagonal branches of the matrix logarithm and of its derivative. */
module TensorRank2 {
  import opened Base
  import MatrixLogDerivative

  // ---------------------------------------------------------------------
  // Transpose and trace

  lemma TransposeInvolution(a: Matrix)
    requires IsSquare(a, |a|)
    ensures Transpose(Transpose(a)) == a
  {
    var t := Transpose(Transpose(a));
    forall i | 0 <= i < |a|
      ensures t[i] == a[i]
    {
      assert |t[i]| == |a[i]|;
    }
  }

  lemma TraceTranspose(a: Matrix)
    requires IsSquare(a, |a|)
    ensures Trace(Transpose(a)) == Trace(a)
  {
    assert Diagonal(Transpose(a)) == Diagonal(a);
  }

  // ---------------------------------------------------------------------
  // Symmetry

  /** `is_symmetric`: every entry equals its mirror image. */
  predicate IsSymmetric(a: Matrix)
    requires IsSquare(a, |a|)
  {
    forall i, j :: 0 <= i < |a| && 0 <= j < |a| ==> a[i][j] == a[j][i]
  }

  lemma SymmetricIffTransposeFixed(a: Matrix)
    requires IsSquare(a, |a|)
    ensures IsSymmetric(a) <==> a == Transpose(a)
  {
    if IsSymmetric(a) {
      var t := Transpose(a);
      forall i | 0 <= i < |a|
        ensures t[i] == a[i]
      {
        assert |t[i]| == |a[i]|;
      }
    }
  }

  /** The 3×3 symmetry test used by the foo.py model is this one. */
  lemma Symmetric3Agrees(a: Mat3)
    ensures IsSymmetric3(a) <==> IsSymmetric(a)
  {
    if IsSymmetric3(a) {
      forall i, j | 0 <= i < 3 && 0 <= j < 3
        ensures a[i][j] == a[j][i]
      {
        var i': Idx, j': Idx := i, j;
        assert a[i'][j'] == a[j'][i'];
      }
    }
  }

  // ---------------------------------------------------------------------
  // Diagonal test

  /** Number of entries of `row`, other than the one in column `i`, whose
      magnitude is below `ABS_TOL`. */
  function RowSmallCount(row: seq<real>, i: int): nat {
    if |row| == 0 then 0
    else
      var last := if Abs(row[|row| - 1]) < ABS_TOL && |row| - 1 != i then 1 else 0;
      RowSmallCount(row[..|row| - 1], i) + last
  }

  /** The same count summed over the first `rows` rows. */
  function SmallCount(a: Matrix, rows: nat): nat
    requires rows <= |a|
  {
    if rows == 0 then 0 else SmallCount(a, rows - 1) + RowSmallCount(a[rows - 1], rows - 1)
  }

  /** `is_diagonal`: the number of small off-diagonal entries is `D² − D`. */
  function IsDiagonal(a: Matrix): (b: bool)
    requires IsSquare(a, |a|)
    ensures b <==> forall i, j :: 0 <= i < |a| && 0 <= j < |a| && i != j ==> Abs(a[i][j]) < ABS_TOL
  {
    SmallCountBound(a, |a|);
    SmallCount(a, |a|) == |a| * |a| - |a|
  }

  lemma {:induction false} RowSmallCountBound(row: seq<real>, i: nat)
    requires i < |row|
    ensures RowSmallCount(row, i) <= |row| - 1
    ensures RowSmallCount(row, i) == |row| - 1
      <==> forall j :: 0 <= j < |row| && j != i ==> Abs(row[j]) < ABS_TOL
  {
    var m := |row| - 1;
    var p := row[..m];
    if m == i {
      assert RowSmallCount(row, i) == RowSmallCount(p, i);
      RowSmallCountAllBelow(p, i);
    } else {
      RowSmallCountBound(p, i);
      if RowSmallCount(row, i) == |row| - 1 {
        assert RowSmallCount(p, i) == |p| - 1 && Abs(row[m]) < ABS_TOL;
        forall j | 0 <= j < |row| && j != i
          ensures Abs(row[j]) < ABS_TOL
        {
          if j < m {
            assert p[j] == row[j];
          }
        }
      } else {
        assert RowSmallCount(p, i) < |p| - 1 || !(Abs(row[m]) < ABS_TOL);
        if RowSmallCount(p, i) < |p| - 1 {
          var j :| 0 <= j < |p| && j != i && !(Abs(p[j]) < ABS_TOL);
          assert row[j] == p[j];
        }
      }
    }
  }

  /** A row whose column `i` lies beyond its end: the count reaches its
      length exactly when every entry is small. */
  lemma {:induction false} RowSmallCountAllBelow(row: seq<real>, i: nat)
    requires |row| <= i
    ensures RowSmallCount(row, i) <= |row|
    ensures RowSmallCount(row, i) == |row| <==> forall j :: 0 <= j < |row| ==> Abs(row[j]) < ABS_TOL
  {
    if |row| > 0 {
      var p := row[..|row| - 1];
      RowSmallCountAllBelow(p, i);
      if RowSmallCount(row, i) == |row| {
        forall j | 0 <= j < |row|
          ensures Abs(row[j]) < ABS_TOL
        {
          if j < |p| {
            assert p[j] == row[j];
          }
        }
      } else if RowSmallCount(p, i) < |p| {
        var j :| 0 <= j < |p| && !(Abs(p[j]) < ABS_TOL);
        assert row[j] == p[j];
      }
    }
  }

  lemma {:induction false} SmallCountBound(a: Matrix, rows: nat)
    requires IsSquare(a, |a|) && rows <= |a|
    ensures SmallCount(a, rows) <= rows * (|a| - 1)
    ensures SmallCount(a, rows) == rows * (|a| - 1)
      <==> forall i, j :: 0 <= i < rows && 0 <= j < |a| && i != j ==> Abs(a[i][j]) < ABS_TOL
  {
    if rows > 0 {
      var n := |a|;
      SmallCountBound(a, rows - 1);
      RowSmallCountBound(a[rows - 1], rows - 1);
      assert rows * (n - 1) == (rows - 1) * (n - 1) + (n - 1);
    }
  }

  // ---------------------------------------------------------------------
  // Row-major flattening

  /** `as_tensor_rank_1` for `D = 3`: entry `(i, j)` goes to slot `3i + j`. */
  method AsTensorRank1(a: Mat3) returns (r: seq<real>)
    ensures |r| == 9
    ensures forall i: Idx, j: Idx :: r[3 * i + j] == a[i][j]
    ensures forall n :: 0 <= n < 9 ==> r[n] == a[n / 3][n % 3]
  {
    r := seq(9, _ => 0.0);
    for i := 0 to 3
      invariant |r| == 9
      invariant forall i': Idx, j: Idx :: i' < i ==> r[3 * i' + j] == a[i'][j]
      invariant forall n :: 3 * i <= n < 9 ==> r[n] == 0.0
    {
      for j := 0 to 3
        invariant |r| == 9
        invariant forall i': Idx, j': Idx :: i' < i ==> r[3 * i' + j'] == a[i'][j']
        invariant forall j': Idx :: j' < j ==> r[3 * i + j'] == a[i][j']
        invariant forall n :: 3 * i + j <= n < 9 ==> r[n] == 0.0
      {
        r := r[3 * i + j := a[i][j]];
      }
    }
    forall n | 0 <= n < 9
      ensures r[n] == a[n / 3][n % 3]
    {
      var i: Idx, j: Idx := n / 3, n % 3;
      assert n == 3 * i + j;
    }
  }

  // ---------------------------------------------------------------------
  // 3×3 determinant, adjugate and inverse

  /** First-row cofactor expansion with the source's cofactors
      `c_00`, `c_10`, `c_20`. */
  function Determinant3(a: Mat3): real {
    var c00 := a[1][1] * a[2][2] - a[1][2] * a[2][1];
    var c10 := a[1][2] * a[2][0] - a[1][0] * a[2][2];
    var c20 := a[1][0] * a[2][1] - a[1][1] * a[2][0];
    a[0][0] * c00 + a[0][1] * c10 + a[0][2] * c20
  }

  /** The adjugate as the source fills it entry by entry. */
  function Adjugate3(a: Mat3): Mat3 {
    [ [ a[1][1] * a[2][2] - a[1][2] * a[2][1],
        a[0][2] * a[2][1] - a[0][1] * a[2][2],
        a[0][1] * a[1][2] - a[0][2] * a[1][1] ],
      [ a[1][2] * a[2][0] - a[1][0] * a[2][2],
        a[0][0] * a[2][2] - a[0][2] * a[2][0],
        a[0][2] * a[1][0] - a[0][0] * a[1][2] ],
      [ a[1][0] * a[2][1] - a[1][1] * a[2][0],
        a[0][1] * a[2][0] - a[0][0] * a[2][1],
        a[0][0] * a[1][1] - a[0][1] * a[1][0] ] ]
  }

  /** The cofactor expansion as a polynomial in the nine entries. */
  function Det9(a00: real, a01: real, a02: real, a10: real, a11: real, a12: real,
                a20: real, a21: real, a22: real): real
  {
    a00 * (a11 * a22 - a12 * a21) + a01 * (a12 * a20 - a10 * a22) + a02 * (a10 * a21 - a11 * a20)
  }

  lemma Det9Transpose(a00: real, a01: real, a02: real, a10: real, a11: real, a12: real,
                      a20: real, a21: real, a22: real)
    ensures Det9(a00, a01, a02, a10, a11, a12, a20, a21, a22)
         == Det9(a00, a10, a20, a01, a11, a21, a02, a12, a22)
  {
  }

  /** The entries of the adjugate, one cofactor each. */
  predicate Cofactors(a00: real, a01: real, a02: real, a10: real, a11: real, a12: real,
                      a20: real, a21: real, a22: real, b00: real, b01: real, b02: real,
                      b10: real, b11: real, b12: real, b20: real, b21: real, b22: real) {
    b00 == a11 * a22 - a12 * a21
    && b01 == a02 * a21 - a01 * a22
    && b02 == a01 * a12 - a02 * a11
    && b10 == a12 * a20 - a10 * a22
    && b11 == a00 * a22 - a02 * a20
    && b12 == a02 * a10 - a00 * a12
    && b20 == a10 * a21 - a11 * a20
    && b21 == a01 * a20 - a00 * a21
    && b22 == a00 * a11 - a01 * a10
  }

  lemma AdjugateEntries(a: Mat3)
    ensures var b := Adjugate3(a); Cofactors(a[0][0], a[0][1], a[0][2], a[1][0], a[1][1], a[1][2], a[2][0], a[2][1], a[2][2], b[0][0], b[0][1], b[0][2], b[1][0], b[1][1], b[1][2], b[2][0], b[2][1], b[2][2])
  {
  }

  /** `x · (p·q − r·s)` multiplied out. */
  lemma TimesDifference(x: real, b: real, p: real, q: real, r: real, s: real)
    requires b == p * q - r * s
    ensures x * b == x * p * q - x * r * s
  {
  }

  /** The cofactor expansion multiplied out into its six products. */
  lemma Det9Expanded(a00: real, a01: real, a02: real, a10: real, a11: real, a12: real,
                     a20: real, a21: real, a22: real)
    ensures Det9(a00, a01, a02, a10, a11, a12, a20, a21, a22)
         == a00 * a11 * a22 - a00 * a12 * a21 + a01 * a12 * a20 - a01 * a10 * a22 + a02 * a10 * a21 - a02 * a11 * a20
  {
  }

  /** Row 0 of `A · adj(A)`, in the entries. */
  lemma AdjugateRowScalar0(a00: real, a01: real, a02: real, a10: real, a11: real, a12: real,
                            a20: real, a21: real, a22: real, b00: real, b01: real, b02: real,
                            b10: real, b11: real, b12: real, b20: real, b21: real, b22: real)
    requires Cofactors(a00, a01, a02, a10, a11, a12, a20, a21, a22, b00, b01, b02, b10, b11, b12, b20, b21, b22)
    ensures a00 * b00 + a01 * b10 + a02 * b20 == Det9(a00, a01, a02, a10, a11, a12, a20, a21, a22)
    ensures a00 * b01 + a01 * b11 + a02 * b21 == 0.0
    ensures a00 * b02 + a01 * b12 + a02 * b22 == 0.0
  {
    Det9Expanded(a00, a01, a02, a10, a11, a12, a20, a21, a22);
    TimesDifference(a00, b00, a11, a22, a12, a21);
    TimesDifference(a01, b10, a12, a20, a10, a22);
    TimesDifference(a02, b20, a10, a21, a11, a20);
    TimesDifference(a00, b01, a02, a21, a01, a22);
    TimesDifference(a01, b11, a00, a22, a02, a20);
    TimesDifference(a02, b21, a01, a20, a00, a21);
    TimesDifference(a00, b02, a01, a12, a02, a11);
    TimesDifference(a01, b12, a02, a10, a00, a12);
    TimesDifference(a02, b22, a00, a11, a01, a10);
  }

  /** Row 1 of `A · adj(A)`, in the entries. */
  lemma AdjugateRowScalar1(a00: real, a01: real, a02: real, a10: real, a11: real, a12: real,
                            a20: real, a21: real, a22: real, b00: real, b01: real, b02: real,
                            b10: real, b11: real, b12: real, b20: real, b21: real, b22: real)
    requires Cofactors(a00, a01, a02, a10, a11, a12, a20, a21, a22, b00, b01, b02, b10, b11, b12, b20, b21, b22)
    ensures a10 * b00 + a11 * b10 + a12 * b20 == 0.0
    ensures a10 * b01 + a11 * b11 + a12 * b21 == Det9(a00, a01, a02, a10, a11, a12, a20, a21, a22)
    ensures a10 * b02 + a11 * b12 + a12 * b22 == 0.0
  {
    Det9Expanded(a00, a01, a02, a10, a11, a12, a20, a21, a22);
    TimesDifference(a10, b00, a11, a22, a12, a21);
    TimesDifference(a11, b10, a12, a20, a10, a22);
    TimesDifference(a12, b20, a10, a21, a11, a20);
    TimesDifference(a10, b01, a02, a21, a01, a22);
    TimesDifference(a11, b11, a00, a22, a02, a20);
    TimesDifference(a12, b21, a01, a20, a00, a21);
    TimesDifference(a10, b02, a01, a12, a02, a11);
    TimesDifference(a11, b12, a02, a10, a00, a12);
    TimesDifference(a12, b22, a00, a11, a01, a10);
  }

  /** Row 2 of `A · adj(A)`, in the entries. */
  lemma AdjugateRowScalar2(a00: real, a01: real, a02: real, a10: real, a11: real, a12: real,
                            a20: real, a21: real, a22: real, b00: real, b01: real, b02: real,
                            b10: real, b11: real, b12: real, b20: real, b21: real, b22: real)
    requires Cofactors(a00, a01, a02, a10, a11, a12, a20, a21, a22, b00, b01, b02, b10, b11, b12, b20, b21, b22)
    ensures a20 * b00 + a21 * b10 + a22 * b20 == 0.0
    ensures a20 * b01 + a21 * b11 + a22 * b21 == 0.0
    ensures a20 * b02 + a21 * b12 + a22 * b22 == Det9(a00, a01, a02, a10, a11, a12, a20, a21, a22)
  {
    Det9Expanded(a00, a01, a02, a10, a11, a12, a20, a21, a22);
    TimesDifference(a20, b00, a11, a22, a12, a21);
    TimesDifference(a21, b10, a12, a20, a10, a22);
    TimesDifference(a22, b20, a10, a21, a11, a20);
    TimesDifference(a20, b01, a02, a21, a01, a22);
    TimesDifference(a21, b11, a00, a22, a02, a20);
    TimesDifference(a22, b21, a01, a20, a00, a21);
    TimesDifference(a20, b02, a01, a12, a02, a11);
    TimesDifference(a21, b12, a02, a10, a00, a12);
    TimesDifference(a22, b22, a00, a11, a01, a10);
  }

  lemma DeterminantIsDet9(a: Mat3)
    ensures Determinant3(a) == Det9(a[0][0], a[0][1], a[0][2], a[1][0], a[1][1], a[1][2], a[2][0], a[2][1], a[2][2])
  {
  }

  /** `A · adj(A) = det(A) · I`, entry by entry: each entry is a
      polynomial identity once the adjugate entries are substituted. */
  lemma AdjugateProductEntry(a: Mat3, i: Idx, j: Idx)
    ensures MulEntry(a, Adjugate3(a), i, j) == if i == j then Determinant3(a) else 0.0
  {
    var b := Adjugate3(a);
    AdjugateEntries(a);
    DeterminantIsDet9(a);
    if i == 0 {
      AdjugateProductRow0(a, b, j);
    } else if i == 1 {
      AdjugateProductRow1(a, b, j);
    } else {
      AdjugateProductRow2(a, b, j);
    }
  }

  /** Row 0 of `A · B` when `B` holds the cofactors of `A`. */
  lemma AdjugateProductRow0(a: Mat3, b: Mat3, j: Idx)
    requires Cofactors(a[0][0], a[0][1], a[0][2], a[1][0], a[1][1], a[1][2], a[2][0], a[2][1], a[2][2], b[0][0], b[0][1], b[0][2], b[1][0], b[1][1], b[1][2], b[2][0], b[2][1], b[2][2])
    ensures MulEntry(a, b, 0, j) == if j == 0 then Det9(a[0][0], a[0][1], a[0][2], a[1][0], a[1][1], a[1][2], a[2][0], a[2][1], a[2][2]) else 0.0
  {
    if j == 0 {
      MulEntryExpand(a, b, 0, 0);
    } else if j == 1 {
      MulEntryExpand(a, b, 0, 1);
    } else {
      MulEntryExpand(a, b, 0, 2);
    }
    AdjugateRowScalar0(a[0][0], a[0][1], a[0][2], a[1][0], a[1][1], a[1][2], a[2][0], a[2][1], a[2][2], b[0][0], b[0][1], b[0][2], b[1][0], b[1][1], b[1][2], b[2][0], b[2][1], b[2][2]);
  }

  /** Row 1 of `A · B` when `B` holds the cofactors of `A`. */
  lemma AdjugateProductRow1(a: Mat3, b: Mat3, j: Idx)
    requires Cofactors(a[0][0], a[0][1], a[0][2], a[1][0], a[1][1], a[1][2], a[2][0], a[2][1], a[2][2], b[0][0], b[0][1], b[0][2], b[1][0], b[1][1], b[1][2], b[2][0], b[2][1], b[2][2])
    ensures MulEntry(a, b, 1, j) == if j == 1 then Det9(a[0][0], a[0][1], a[0][2], a[1][0], a[1][1], a[1][2], a[2][0], a[2][1], a[2][2]) else 0.0
  {
    if j == 0 {
      MulEntryExpand(a, b, 1, 0);
    } else if j == 1 {
      MulEntryExpand(a, b, 1, 1);
    } else {
      MulEntryExpand(a, b, 1, 2);
    }
    AdjugateRowScalar1(a[0][0], a[0][1], a[0][2], a[1][0], a[1][1], a[1][2], a[2][0], a[2][1], a[2][2], b[0][0], b[0][1], b[0][2], b[1][0], b[1][1], b[1][2], b[2][0], b[2][1], b[2][2]);
  }

  /** Row 2 of `A · B` when `B` holds the cofactors of `A`. */
  lemma AdjugateProductRow2(a: Mat3, b: Mat3, j: Idx)
    requires Cofactors(a[0][0], a[0][1], a[0][2], a[1][0], a[1][1], a[1][2], a[2][0], a[2][1], a[2][2], b[0][0], b[0][1], b[0][2], b[1][0], b[1][1], b[1][2], b[2][0], b[2][1], b[2][2])
    ensures MulEntry(a, b, 2, j) == if j == 2 then Det9(a[0][0], a[0][1], a[0][2], a[1][0], a[1][1], a[1][2], a[2][0], a[2][1], a[2][2]) else 0.0
  {
    if j == 0 {
      MulEntryExpand(a, b, 2, 0);
    } else if j == 1 {
      MulEntryExpand(a, b, 2, 1);
    } else {
      MulEntryExpand(a, b, 2, 2);
    }
    AdjugateRowScalar2(a[0][0], a[0][1], a[0][2], a[1][0], a[1][1], a[1][2], a[2][0], a[2][1], a[2][2], b[0][0], b[0][1], b[0][2], b[1][0], b[1][1], b[1][2], b[2][0], b[2][1], b[2][2]);
  }

  /** The determinant is unchanged by transposition. */
  lemma DeterminantTranspose(a: Mat3)
    ensures Determinant3(Transpose3(a)) == Determinant3(a)
  {
    var t := Transpose3(a);
    assert Determinant3(a) == Det9(a[0][0], a[0][1], a[0][2], a[1][0], a[1][1], a[1][2], a[2][0], a[2][1], a[2][2]);
    assert Determinant3(t) == Det9(t[0][0], t[0][1], t[0][2], t[1][0], t[1][1], t[1][2], t[2][0], t[2][1], t[2][2]);
    assert t[0][0] == a[0][0] && t[0][1] == a[1][0] && t[0][2] == a[2][0];
    assert t[1][0] == a[0][1] && t[1][1] == a[1][1] && t[1][2] == a[2][1];
    assert t[2][0] == a[0][2] && t[2][1] == a[1][2] && t[2][2] == a[2][2];
    Det9Transpose(a[0][0], a[0][1], a[0][2], a[1][0], a[1][1], a[1][2], a[2][0], a[2][1], a[2][2]);
  }

  /** `inverse` for `D = 3`: the adjugate divided by the determinant. */
  function Inverse3(a: Mat3): Mat3
    requires Determinant3(a) != 0.0
  {
    Mat3Of((i: Idx, j: Idx) => Adjugate3(a)[i][j] / Determinant3(a))
  }

  /** Dividing every `y_k` by `d` divides the dot product by `d`. */
  lemma DotOfQuotients(x0: real, x1: real, x2: real, y0: real, y1: real, y2: real,
                       z0: real, z1: real, z2: real, d: real, e: real)
    requires d != 0.0 && z0 == y0 / d && z1 == y1 / d && z2 == y2 / d
    requires x0 * y0 + x1 * y1 + x2 * y2 == e
    ensures x0 * z0 + x1 * z1 + x2 * z2 == e / d
  {
    assert y0 == z0 * d && y1 == z1 * d && y2 == z2 * d;
    assert e == (x0 * z0 + x1 * z1 + x2 * z2) * d;
  }

  lemma DivSelf(d: real)
    requires d != 0.0
    ensures d / d == 1.0
  {
  }

  /** An entry of `A · A⁻¹` is the matching entry of `A · adj(A)` divided
      by the determinant. */
  lemma InverseEntryQuotient(a: Mat3, i: Idx, j: Idx)
    requires Determinant3(a) != 0.0
    ensures MulEntry(a, Inverse3(a), i, j) == MulEntry(a, Adjugate3(a), i, j) / Determinant3(a)
  {
    var adj := Adjugate3(a);
    var inv := Inverse3(a);
    MulEntryExpand(a, inv, i, j);
    MulEntryExpand(a, adj, i, j);
    DotOfQuotients(a[i][0], a[i][1], a[i][2], adj[0][j], adj[1][j], adj[2][j],
                   inv[0][j], inv[1][j], inv[2][j], Determinant3(a), MulEntry(a, adj, i, j));
  }

  lemma InverseEntry(a: Mat3, i: Idx, j: Idx)
    requires Determinant3(a) != 0.0
    ensures MulEntry(a, Inverse3(a), i, j) == IDENTITY3[i][j]
  {
    InverseEntryQuotient(a, i, j);
    AdjugateProductEntry(a, i, j);
    if i == j {
      DivSelf(Determinant3(a));
    }
  }

  /** The adjugate formula inverts every tensor with a nonzero determinant. */
  lemma InverseIsInverse(a: Mat3)
    requires Determinant3(a) != 0.0
    ensures Mul3(a, Inverse3(a)) == IDENTITY3
  {
    forall i: Idx, j: Idx
      ensures Mul3(a, Inverse3(a))[i][j] == IDENTITY3[i][j]
    {
      InverseEntry(a, i, j);
    }
    Mat3Equal(Mul3(a, Inverse3(a)), IDENTITY3);
  }

  /** `inverse_and_determinant` for `D = 3`: computes the determinant once
      from the cofactors and divides the adjugate by it. */
  function InverseAndDeterminant3(a: Mat3): (r: (Mat3, real))
    requires Determinant3(a) != 0.0
    ensures r.1 == Determinant3(a)
    ensures r.0 == Inverse3(a)
    ensures Mul3(a, r.0) == IDENTITY3
  {
    var c00 := a[1][1] * a[2][2] - a[1][2] * a[2][1];
    var c10 := a[1][2] * a[2][0] - a[1][0] * a[2][2];
    var c20 := a[1][0] * a[2][1] - a[1][1] * a[2][0];
    var determinant := a[0][0] * c00 + a[0][1] * c10 + a[0][2] * c20;
    var adj := Adjugate3(a);
    InverseIsInverse(a);
    (Mat3Of((i: Idx, j: Idx) => adj[i][j] / determinant), determinant)
  }

  // ---------------------------------------------------------------------
  // Invariants

  lemma Sum3(s: seq<real>)
    requires |s| == 3
    ensures Sum(s) == s[0] + s[1] + s[2]
  {
    assert Sum(s) == Sum(s[..2]) + s[2];
    assert s[..2][..1] == s[..1];
    assert Sum(s[..2]) == Sum(s[..1]) + s[1];
    assert s[..1][..0] == [];
    assert Sum(s[..1]) == s[0];
  }

  /** `squared_trace`: `Σ_i Σ_j a_ij a_ji`, i.e. `tr(A·A)`. */
  function SquaredTrace(a: Matrix): real
    requires IsSquare(a, |a|)
  {
    Sum(seq(|a|, i requires 0 <= i < |a| =>
      Sum(seq(|a|, j requires 0 <= j < |a| => a[i][j] * a[j][i]))))
  }

  lemma SquaredTraceIsTraceOfSquare(a: Mat3)
    ensures SquaredTrace(a) == Trace(Mul3(a, a))
  {
    var rows := seq(3, i requires 0 <= i < 3 =>
      Sum(seq(3, j requires 0 <= j < 3 => a[i][j] * a[j][i])));
    forall i: Idx
      ensures rows[i] == MulEntry(a, a, i, i)
    {
      Sum3(seq(3, j requires 0 <= j < 3 => a[i][j] * a[j][i]));
      MulEntryExpand(a, a, i, i);
    }
    Sum3(rows);
    Sum3(Diagonal(Mul3(a, a)));
  }

  /** `invariants`: `[tr A, ½(tr² A − tr(A·A)), det A]`. */
  function Invariants(a: Mat3): (r: seq<real>)
    ensures |r| == 3
  {
    var trace := Trace(a);
    [trace, 0.5 * (trace * trace - SquaredTrace(a)), Determinant3(a)]
  }

  /** For a tensor with zero off-diagonal entries the invariants are the
      elementary symmetric polynomials of its diagonal, the coefficients of
      its characteristic polynomial. */
  lemma InvariantsOfDiagonal(a: Mat3)
    requires forall i: Idx, j: Idx :: i != j ==> a[i][j] == 0.0
    ensures Invariants(a) == [a[0][0] + a[1][1] + a[2][2],
                              a[0][0] * a[1][1] + a[1][1] * a[2][2] + a[2][2] * a[0][0],
                              a[0][0] * a[1][1] * a[2][2]]
  {
    Sum3(Diagonal(a));
    SquaredTraceIsTraceOfSquare(a);
    Sum3(Diagonal(Mul3(a, a)));
    MulEntryExpand(a, a, 0, 0);
    MulEntryExpand(a, a, 1, 1);
    MulEntryExpand(a, a, 2, 2);
    assert a[0][1] == 0.0 && a[0][2] == 0.0 && a[1][0] == 0.0;
    assert a[1][2] == 0.0 && a[2][0] == 0.0 && a[2][1] == 0.0;
    assert Trace(a) == a[0][0] + a[1][1] + a[2][2];
    assert SquaredTrace(a) == a[0][0] * a[0][0] + a[1][1] * a[1][1] + a[2][2] * a[2][2];
    ProductEq(Trace(a), a[0][0] + a[1][1] + a[2][2], Trace(a), a[0][0] + a[1][1] + a[2][2]);
    assert Q1: Invariants(a)[0] == a[0][0] + a[1][1] + a[2][2];
    assert Q2: Invariants(a)[1] == a[0][0] * a[1][1] + a[1][1] * a[2][2] + a[2][2] * a[0][0];
    assert Q3: Invariants(a)[2] == a[0][0] * a[1][1] * a[2][2];
  }

  /** The invariants of the transpose are those of the tensor. */
  lemma InvariantsTranspose(a: Mat3)
    ensures Invariants(Transpose3(a)) == Invariants(a)
  {
    var t := Transpose3(a);
    assert Trace(t) == Trace(a) by {
      Transpose3Agrees(a);
      TraceTranspose(a);
    }
    assert SquaredTrace(t) == SquaredTrace(a) by {
      Transpose3Agrees(a);
      Transpose3Agrees(Mul3(a, a));
      SquaredTraceIsTraceOfSquare(a);
      SquaredTraceIsTraceOfSquare(t);
      TransposeMul3(a, a);
      TraceTranspose(Mul3(a, a));
      assert Mul3(t, t) == Transpose3(Mul3(a, a));
    }
    assert Determinant3(t) == Determinant3(a) by {
      DeterminantTranspose(a);
    }
    InvariantsEq(t, a);
  }

  /** The invariants depend on the tensor only through its trace, the trace
      of its square and its determinant. */
  lemma InvariantsEq(a: Mat3, b: Mat3)
    requires Trace(a) == Trace(b) && SquaredTrace(a) == SquaredTrace(b) && Determinant3(a) == Determinant3(b)
    ensures Invariants(a) == Invariants(b)
  {
    ProductEq(Trace(a), Trace(b), Trace(a), Trace(b));
    assert Invariants(a)[1] == Invariants(b)[1];
    assert Invariants(a)[0] == Invariants(b)[0] && Invariants(a)[2] == Invariants(b)[2];
  }

  lemma Transpose3Agrees(a: Mat3)
    ensures Transpose3(a) == Transpose(a)
  {
    var t: Mat3 := Transpose(a);
    Mat3Equal(Transpose3(a), t);
  }

  // ---------------------------------------------------------------------
  // LU decomposition

  /** The panic `"LU decomposition failed (zero pivot)."`, with the row
      and the pivot that triggered it. */
  datatype LuError = ZeroPivot(row: nat, pivot: real)

  /** `Σ_{j < m} l[i][j] · u[j][k]`, accumulated in the loop's order. */
  function RowColSum(l: Matrix, u: Matrix, i: nat, k: nat, m: nat): real
    requires IsSquare(l, |l|) && IsSquare(u, |l|) && i < |l| && k < |l| && m <= |l|
  {
    if m == 0 then 0.0 else RowColSum(l, u, i, k, m - 1) + l[i][m - 1] * u[m - 1][k]
  }

  /** `L` has a unit diagonal and zeros above it. */
  predicate UnitLower(l: Matrix)
    requires IsSquare(l, |l|)
  {
    forall i, j :: 0 <= i < |l| && 0 <= j < |l| ==>
      (i == j ==> l[i][j] == 1.0) && (i < j ==> l[i][j] == 0.0)
  }

  /** `U` has zeros below its diagonal. */
  predicate Upper(u: Matrix)
    requires IsSquare(u, |u|)
  {
    forall i, j :: 0 <= i < |u| && 0 <= j < |u| && j < i ==> u[i][j] == 0.0
  }

  /** The Doolittle equations for the first `i` rows of `U` and columns of
      `L`: each is fixed by the rows and columns before it. */
  predicate DoolittleUpTo(a: Matrix, l: Matrix, u: Matrix, i: nat)
    requires IsSquare(a, |a|) && IsSquare(l, |a|) && IsSquare(u, |a|) && i <= |a|
  {
    (forall x, k {:trigger RowColSum(l, u, x, k, x)} :: 0 <= x < i && x <= k < |a| ==>
      u[x][k] == a[x][k] - RowColSum(l, u, x, k, x))
    && (forall c, k :: 0 <= c < i && c < k < |a| ==> ColumnHolds(a, l, u, c, k))
  }

  /** The equation `l_kc · u_cc = a_kc − Σ_{j<c} l_kj u_jc` for column `c`. */
  predicate ColumnHolds(a: Matrix, l: Matrix, u: Matrix, c: nat, k: nat)
    requires IsSquare(a, |a|) && IsSquare(l, |a|) && IsSquare(u, |a|) && c < |a| && k < |a|
  {
    l[k][c] * u[c][c] == a[k][c] - RowColSum(l, u, k, c, c)
  }

  predicate Doolittle(a: Matrix, l: Matrix, u: Matrix)
    requires IsSquare(a, |a|) && IsSquare(l, |a|) && IsSquare(u, |a|)
  {
    DoolittleUpTo(a, l, u, |a|)
  }

  lemma {:induction false} RowColSumFrame(l: Matrix, u: Matrix, l': Matrix, u': Matrix, i: nat, k: nat, m: nat)
    requires IsSquare(l, |l|) && IsSquare(u, |l|) && IsSquare(l', |l|) && IsSquare(u', |l|)
    requires i < |l| && k < |l| && m <= |l|
    requires forall j :: 0 <= j < m ==> l'[i][j] == l[i][j] && u'[j][k] == u[j][k]
    ensures RowColSum(l', u', i, k, m) == RowColSum(l, u, i, k, m)
  {
    if m > 0 {
      RowColSumFrame(l, u, l', u', i, k, m - 1);
      ProductEq(l'[i][m - 1], l[i][m - 1], u'[m - 1][k], u[m - 1][k]);
    }
  }

  /** The equations for the first `i` rows and columns read only the
      columns of `L` and the rows of `U` before `i`. */
  lemma DoolittleUpToFrame(a: Matrix, l: Matrix, u: Matrix, l': Matrix, u': Matrix, i: nat)
    requires IsSquare(a, |a|) && IsSquare(l, |a|) && IsSquare(u, |a|)
    requires IsSquare(l', |a|) && IsSquare(u', |a|) && i <= |a|
    requires forall x, y :: 0 <= x < |a| && 0 <= y < i ==> l'[x][y] == l[x][y]
    requires forall x, y :: 0 <= x < i && 0 <= y < |a| ==> u'[x][y] == u[x][y]
    requires DoolittleUpTo(a, l, u, i)
    ensures DoolittleUpTo(a, l', u', i)
  {
    forall x, k | 0 <= x < i && x <= k < |a|
      ensures u'[x][k] == a[x][k] - RowColSum(l', u', x, k, x)
    {
      RowColSumFrame(l, u, l', u', x, k, x);
    }
    forall c, k | 0 <= c < i && c < k < |a|
      ensures ColumnHolds(a, l', u', c, k)
    {
      assert ColumnHolds(a, l, u, c, k);
      RowColSumFrame(l, u, l', u', k, c, c);
      ProductEq(l'[k][c], l[k][c], u'[c][c], u[c][c]);
    }
  }

  /** Terms whose product vanishes add nothing to the sum. */
  lemma {:induction false} RowColSumZeroTail(l: Matrix, u: Matrix, i: nat, k: nat, m: nat, n: nat)
    requires IsSquare(l, |l|) && IsSquare(u, |l|) && i < |l| && k < |l| && m <= n <= |l|
    requires forall j :: m <= j < n ==> l[i][j] == 0.0 || u[j][k] == 0.0
    ensures RowColSum(l, u, i, k, n) == RowColSum(l, u, i, k, m)
  {
    if n > m {
      RowColSumZeroTail(l, u, i, k, m, n - 1);
    }
  }

  lemma DoolittleProductEntry(a: Matrix, l: Matrix, u: Matrix, i: nat, k: nat)
    requires IsSquare(a, |a|) && IsSquare(l, |a|) && IsSquare(u, |a|) && i < |a| && k < |a|
    requires UnitLower(l) && Upper(u) && Doolittle(a, l, u)
    ensures RowColSum(l, u, i, k, |a|) == a[i][k]
  {
    if i <= k {
      UpperProductEntry(a, l, u, i, k);
    } else {
      LowerProductEntry(a, l, u, i, k);
    }
  }

  /** An entry on or above the diagonal: the sum stops at `l_ii = 1`. */
  lemma UpperProductEntry(a: Matrix, l: Matrix, u: Matrix, i: nat, k: nat)
    requires IsSquare(a, |a|) && IsSquare(l, |a|) && IsSquare(u, |a|) && i <= k < |a|
    requires UnitLower(l) && Doolittle(a, l, u)
    ensures RowColSum(l, u, i, k, |a|) == a[i][k]
  {
    var n := |a|;
    forall j | i + 1 <= j < n
      ensures l[i][j] == 0.0
    {
      assert i < j;
    }
    RowColSumZeroTail(l, u, i, k, i + 1, n);
    assert RowColSum(l, u, i, k, i + 1) == RowColSum(l, u, i, k, i) + l[i][i] * u[i][k];
    ProductEq(l[i][i], 1.0, u[i][k], u[i][k]);
    assert u[i][k] == a[i][k] - RowColSum(l, u, i, k, i);
  }

  /** An entry below the diagonal: the sum stops at `u_kk`. */
  lemma LowerProductEntry(a: Matrix, l: Matrix, u: Matrix, i: nat, k: nat)
    requires IsSquare(a, |a|) && IsSquare(l, |a|) && IsSquare(u, |a|) && k < i < |a|
    requires Upper(u) && Doolittle(a, l, u)
    ensures RowColSum(l, u, i, k, |a|) == a[i][k]
  {
    var n := |a|;
    forall j | k + 1 <= j < n
      ensures u[j][k] == 0.0
    {
      assert k < j;
    }
    RowColSumZeroTail(l, u, i, k, k + 1, n);
    assert RowColSum(l, u, i, k, k + 1) == RowColSum(l, u, i, k, k) + l[i][k] * u[k][k];
    assert ColumnHolds(a, l, u, k, i);
  }

  /** The Doolittle equations and the triangular shapes give `L·U = A`. */
  lemma DoolittleProduct(a: Matrix, l: Matrix, u: Matrix)
    requires IsSquare(a, |a|) && IsSquare(l, |a|) && IsSquare(u, |a|)
    requires UnitLower(l) && Upper(u) && Doolittle(a, l, u)
    ensures forall i, k :: 0 <= i < |a| && 0 <= k < |a| ==> RowColSum(l, u, i, k, |a|) == a[i][k]
  {
    forall i, k | 0 <= i < |a| && 0 <= k < |a|
      ensures RowColSum(l, u, i, k, |a|) == a[i][k]
    {
      DoolittleProductEntry(a, l, u, i, k);
    }
  }

  /** The inner loop of both elimination steps:
      `a_ik − Σ_{j<m} l_ij u_jk`, subtracting one product at a time. */
  method Remainder(a: Matrix, l: Matrix, u: Matrix, i: nat, k: nat, m: nat) returns (s: real)
    requires IsSquare(a, |a|) && IsSquare(l, |a|) && IsSquare(u, |a|) && i < |a| && k < |a| && m <= |a|
    ensures s == a[i][k] - RowColSum(l, u, i, k, m)
  {
    s := a[i][k];
    for j := 0 to m
      invariant s == a[i][k] - RowColSum(l, u, i, k, j)
    {
      s := s - l[i][j] * u[j][k];
    }
  }

  /** Row `i` of `U`: `u_ik = a_ik − Σ_{j<i} l_ij u_jk` for `k >= i`. */
  method EliminateRow(a: Matrix, l: Matrix, u: Matrix, i: nat) returns (u': Matrix)
    requires IsSquare(a, |a|) && IsSquare(l, |a|) && IsSquare(u, |a|) && i < |a|
    ensures IsSquare(u', |a|)
    ensures forall x :: 0 <= x < |a| && x != i ==> u'[x] == u[x]
    ensures forall y :: 0 <= y < i ==> u'[i][y] == u[i][y]
    ensures forall k :: i <= k < |a| ==> u'[i][k] == a[i][k] - RowColSum(l, u', i, k, i)
  {
    var n := |a|;
    u' := u;
    for k := i to n
      invariant IsSquare(u', n)
      invariant forall x :: 0 <= x < n && x != i ==> u'[x] == u[x]
      invariant forall y :: 0 <= y < i ==> u'[i][y] == u[i][y]
      invariant forall k' :: i <= k' < k ==> u'[i][k'] == a[i][k'] - RowColSum(l, u', i, k', i)
    {
      var s := Remainder(a, l, u', i, k, i);
      ghost var u1 := u';
      u' := u'[i := u'[i][k := s]];
      RowColSumFrame(l, u1, l, u', i, k, i);
      forall k' | i <= k' < k
        ensures u'[i][k'] == a[i][k'] - RowColSum(l, u', i, k', i)
      {
        RowColSumFrame(l, u1, l, u', i, k', i);
      }
    }
  }

  /** Column `i` of `L` filled for the rows before `k`, and nothing else
      of `l0` changed. */
  predicate ColumnFilled(a: Matrix, l0: Matrix, l: Matrix, u: Matrix, i: nat, k: nat)
    requires IsSquare(a, |a|) && IsSquare(l0, |a|) && IsSquare(l, |a|) && IsSquare(u, |a|)
    requires i < |a| && k <= |a|
  {
    (forall x, y :: 0 <= x < |a| && 0 <= y < |a| && y != i ==> l[x][y] == l0[x][y])
    && (forall x :: 0 <= x < |a| && !(i <= x < k) ==> l[x][i] == l0[x][i])
    && (i < k ==> l[i][i] == 1.0)
    && (forall k' :: i < k' < k ==> l[k'][i] * u[i][i] == a[k'][i] - RowColSum(l, u, k', i, i))
  }

  /** The diagonal iteration `k == i` of the column loop. */
  lemma DiagonalStep(a: Matrix, l0: Matrix, l: Matrix, u: Matrix, i: nat)
    requires IsSquare(a, |a|) && IsSquare(l0, |a|) && IsSquare(l, |a|) && IsSquare(u, |a|) && i < |a|
    requires ColumnFilled(a, l0, l, u, i, i)
    ensures IsSquare(l[i := l[i][i := 1.0]], |a|)
    ensures ColumnFilled(a, l0, l[i := l[i][i := 1.0]], u, i, i + 1)
  {
  }

  /** An iteration `k > i` of the column loop, given the new entry `q`. */
  lemma ColumnStep(a: Matrix, l0: Matrix, l: Matrix, u: Matrix, i: nat, k: nat, q: real)
    requires IsSquare(a, |a|) && IsSquare(l0, |a|) && IsSquare(l, |a|) && IsSquare(u, |a|)
    requires i < k < |a| && ColumnFilled(a, l0, l, u, i, k)
    requires q * u[i][i] == a[k][i] - RowColSum(l, u, k, i, i)
    ensures IsSquare(l[k := l[k][i := q]], |a|)
    ensures ColumnFilled(a, l0, l[k := l[k][i := q]], u, i, k + 1)
  {
    var l' := l[k := l[k][i := q]];
    RowColSumFrame(l, u, l', u, k, i, i);
    forall k' | i < k' < k
      ensures l'[k'][i] * u[i][i] == a[k'][i] - RowColSum(l', u, k', i, i)
    {
      RowColSumFrame(l, u, l', u, k', i, i);
    }
  }

  /** Column `i` of `L`: a unit diagonal, and
      `l_ki = (a_ki − Σ_{j<i} l_kj u_ji) / u_ii` for `k > i`. */
  method EliminateColumn(a: Matrix, l: Matrix, u: Matrix, i: nat) returns (l': Matrix)
    requires IsSquare(a, |a|) && IsSquare(l, |a|) && IsSquare(u, |a|) && i < |a|
    requires u[i][i] != 0.0
    ensures IsSquare(l', |a|)
    ensures forall x, y :: 0 <= x < |a| && 0 <= y < |a| && y != i ==> l'[x][y] == l[x][y]
    ensures forall x :: 0 <= x < i ==> l'[x][i] == l[x][i]
    ensures l'[i][i] == 1.0
    ensures forall k :: i < k < |a| ==> l'[k][i] * u[i][i] == a[k][i] - RowColSum(l', u, k, i, i)
  {
    var n := |a|;
    l' := l;
    for k := i to n
      invariant IsSquare(l', n) && ColumnFilled(a, l, l', u, i, k)
    {
      if i == k {
        DiagonalStep(a, l, l', u, i);
        l' := l'[i := l'[i][i := 1.0]];
      } else {
        var s := Remainder(a, l', u, k, i, i);
        var q := s / u[i][i];
        TimesQuotient(s, u[i][i], q);
        ColumnStep(a, l, l', u, i, k, q);
        l' := l'[k := l'[k][i := q]];
      }
    }
  }

  /** The triangular shapes kept by the outer loop before row `i`. */
  predicate LuShape(l: Matrix, u: Matrix, i: nat)
    requires IsSquare(l, |l|) && IsSquare(u, |l|)
  {
    (forall x, y :: 0 <= x < |l| && 0 <= y < |l| && y < x ==> u[x][y] == 0.0)
    && (forall x, y :: 0 <= x < |l| && 0 <= y < |l| && x < y ==> l[x][y] == 0.0)
    && (forall x, y :: 0 <= x < |l| && i <= y < |l| && x != y ==> l[x][y] == 0.0)
    && (forall x :: 0 <= x < i && x < |l| ==> l[x][x] == 1.0)
  }

  /** One iteration of the outer loop keeps the shapes. */
  lemma LuShapeStep(a: Matrix, l: Matrix, u: Matrix, l': Matrix, u': Matrix, i: nat)
    requires IsSquare(a, |a|) && IsSquare(l, |a|) && IsSquare(u, |a|) && IsSquare(l', |a|) && IsSquare(u', |a|)
    requires i < |a| && LuShape(l, u, i)
    requires forall x :: 0 <= x < |a| && x != i ==> u'[x] == u[x]
    requires forall y :: 0 <= y < i ==> u'[i][y] == u[i][y]
    requires forall x, y :: 0 <= x < |a| && 0 <= y < |a| && y != i ==> l'[x][y] == l[x][y]
    requires forall x :: 0 <= x < i ==> l'[x][i] == l[x][i]
    requires l'[i][i] == 1.0
    ensures LuShape(l', u', i + 1)
  {
  }

  /** One iteration of the outer loop extends the Doolittle equations by
      row and column `i`. */
  lemma DoolittleStep(a: Matrix, l: Matrix, u: Matrix, l': Matrix, u': Matrix, i: nat)
    requires IsSquare(a, |a|) && IsSquare(l, |a|) && IsSquare(u, |a|) && IsSquare(l', |a|) && IsSquare(u', |a|)
    requires i < |a| && DoolittleUpTo(a, l, u, i)
    requires forall x :: 0 <= x < |a| && x != i ==> u'[x] == u[x]
    requires forall y :: 0 <= y < i ==> u'[i][y] == u[i][y]
    requires forall k :: i <= k < |a| ==> u'[i][k] == a[i][k] - RowColSum(l, u', i, k, i)
    requires forall x, y :: 0 <= x < |a| && 0 <= y < |a| && y != i ==> l'[x][y] == l[x][y]
    requires forall k :: i < k < |a| ==> l'[k][i] * u'[i][i] == a[k][i] - RowColSum(l', u', k, i, i)
    ensures DoolittleUpTo(a, l', u', i + 1)
  {
    DoolittleUpToFrame(a, l, u, l, u', i);
    DoolittleUpToFrame(a, l, u', l', u', i);
    forall x, k | 0 <= x < i + 1 && x <= k < |a|
      ensures u'[x][k] == a[x][k] - RowColSum(l', u', x, k, x)
    {
      if x == i {
        RowColSumFrame(l, u', l', u', i, k, i);
      }
    }
    assert DoolittleUpTo(a, l', u', i + 1) by {
      forall c, k | 0 <= c < i + 1 && c < k < |a|
        ensures ColumnHolds(a, l', u', c, k)
      {
        if c == i {
          assert ColumnHolds(a, l', u', i, k);
        }
      }
    }
  }




  /** Factors `L`, `U` that satisfy the Doolittle equations for the rows
      and columns before `row`, whose pivots so far exceed `ABS_TOL`, and
      with which the next pivot `a_rr − Σ_{j<r} l_rj u_jr` is `pivot`. */
  predicate PivotAfter(a: Matrix, l: Matrix, u: Matrix, row: nat, pivot: real)
    requires IsSquare(a, |a|) && row < |a|
  {
    IsSquare(l, |a|) && IsSquare(u, |a|) && DoolittleUpTo(a, l, u, row)
    && (forall x :: 0 <= x < row ==> Abs(u[x][x]) > ABS_TOL)
    && pivot == a[row][row] - RowColSum(l, u, row, row, row)
  }

  /** Row `row` is where Doolittle's method on `a` first meets a pivot of
      magnitude at most `ABS_TOL`, and that pivot is `pivot`. */
  ghost predicate FirstSmallPivot(a: Matrix, row: nat, pivot: real)
    requires IsSquare(a, |a|) && row < |a|
  {
    exists l, u :: PivotAfter(a, l, u, row, pivot)
  }

  /** Two solutions of the Doolittle equations up to `i` agree on the rows
      of `U` and the columns of `L` before `i`. */
  predicate FactorsAgree(l: Matrix, u: Matrix, l': Matrix, u': Matrix, i: nat)
    requires IsSquare(l, |l|) && IsSquare(u, |l|) && IsSquare(l', |l|) && IsSquare(u', |l|) && i <= |l|
  {
    (forall x, k :: 0 <= x < i && x <= k < |l| ==> u'[x][k] == u[x][k])
    && (forall c, k :: 0 <= c < i && c < k < |l| ==> l'[k][c] == l[k][c])
  }

  /** With nonzero pivots the Doolittle equations fix the factors: row by
      row of `U`, column by column of `L`. */
  lemma {:induction false} DoolittleDetermined(a: Matrix, l: Matrix, u: Matrix, l': Matrix, u': Matrix, i: nat)
    requires IsSquare(a, |a|) && IsSquare(l, |a|) && IsSquare(u, |a|) && IsSquare(l', |a|) && IsSquare(u', |a|)
    requires i <= |a| && DoolittleUpTo(a, l, u, i) && DoolittleUpTo(a, l', u', i)
    requires forall x :: 0 <= x < i ==> u[x][x] != 0.0
    ensures FactorsAgree(l, u, l', u', i)
  {
    if i > 0 {
      var x := i - 1;
      DoolittleDetermined(a, l, u, l', u', x);
      forall k | x <= k < |a|
        ensures u'[x][k] == u[x][k]
      {
        assert u[x][k] == a[x][k] - RowColSum(l, u, x, k, x);
        assert u'[x][k] == a[x][k] - RowColSum(l', u', x, k, x);
        RowColSumFrame(l, u, l', u', x, k, x);
      }
      forall k | x < k < |a|
        ensures l'[k][x] == l[k][x]
      {
        assert ColumnHolds(a, l, u, x, k) && ColumnHolds(a, l', u', x, k);
        RowColSumFrame(l, u, l', u', k, x, x);
        CancelFactor(l'[k][x], l[k][x], u[x][x]);
      }
    }
  }

  lemma CancelFactor(p: real, q: real, c: real)
    requires c != 0.0 && p * c == q * c
    ensures p == q
  {
  }

  /** The first small pivot of `a` is unique: its row and its value are
      fixed by `a`. */
  lemma {:induction false} FirstSmallPivotUnique(a: Matrix, row: nat, pivot: real, row': nat, pivot': real)
    requires IsSquare(a, |a|) && row < |a| && row' < |a|
    requires FirstSmallPivot(a, row, pivot) && Abs(pivot) <= ABS_TOL
    requires FirstSmallPivot(a, row', pivot') && Abs(pivot') <= ABS_TOL
    ensures row == row' && pivot == pivot'
  {
    var l, u :| PivotAfter(a, l, u, row, pivot);
    var l', u' :| PivotAfter(a, l', u', row', pivot');
    var m := if row < row' then row else row';
    DoolittleDetermined(a, l, u, l', u', m);
    RowColSumFrame(l, u, l', u', m, m, m);
    if row < row' {
      assert false;
    } else if row' < row {
      assert false;
    }
  }

  /** `lu_decomposition`: Doolittle's method without pivoting. Returns the
      factors, or the zero-pivot panic when `|U_ii| <= ABS_TOL`. */
  method LuDecomposition(a: Matrix) returns (r: Result<(Matrix, Matrix), LuError>)
    requires IsSquare(a, |a|)
    ensures r.Ok? ==>
      var (l, u) := r.value;
      IsSquare(l, |a|) && IsSquare(u, |a|) && UnitLower(l) && Upper(u) && Doolittle(a, l, u)
      && (forall i :: 0 <= i < |a| ==> Abs(u[i][i]) > ABS_TOL)
      && (forall i, k :: 0 <= i < |a| && 0 <= k < |a| ==> RowColSum(l, u, i, k, |a|) == a[i][k])
    ensures r.Err? ==> r.error.row < |a| && Abs(r.error.pivot) <= ABS_TOL
    ensures r.Err? ==> FirstSmallPivot(a, r.error.row, r.error.pivot)
  {
    var n := |a|;
    var l := ZeroMatrix(n);
    var u := ZeroMatrix(n);
    for i := 0 to n
      invariant IsSquare(l, n) && IsSquare(u, n) && LuShape(l, u, i)
      invariant forall x :: 0 <= x < i ==> Abs(u[x][x]) > ABS_TOL
      invariant DoolittleUpTo(a, l, u, i)
    {
      var u' := EliminateRow(a, l, u, i);
      if Abs(u'[i][i]) <= ABS_TOL {
        DoolittleUpToFrame(a, l, u, l, u', i);
        assert PivotAfter(a, l, u', i, u'[i][i]);
        return Err(ZeroPivot(i, u'[i][i]));
      }
      var l' := EliminateColumn(a, l, u', i);
      LuShapeStep(a, l, u, l', u', i);
      DoolittleStep(a, l, u, l', u', i);
      l, u := l', u';
    }
    DoolittleProduct(a, l, u);
    return Ok((l, u));
  }

  // ---------------------------------------------------------------------
  // Diagonal branches of logm and dlogm

  /** `logm` on a tensor that `is_diagonal`: `ln` of each diagonal entry,
      exactly zero elsewhere. */
  function LogmDiagonal(ln: real -> real, a: Mat3): (r: Mat3)
    requires IsDiagonal(a)
    ensures forall i: Idx :: r[i][i] == ln(a[i][i])
    ensures forall i: Idx, j: Idx :: i != j ==> r[i][j] == 0.0
  {
    Mat3Of((i: Idx, j: Idx) => if i == j then ln(a[i][i]) else 0.0)
  }

  /** The logarithm of a diagonal tensor is itself diagonal and symmetric,
      and its trace is the sum of the logarithms of the diagonal. */
  lemma LogmDiagonalProperties(ln: real -> real, a: Mat3)
    requires IsDiagonal(a)
    ensures IsDiagonal(LogmDiagonal(ln, a))
    ensures IsSymmetric(LogmDiagonal(ln, a))
    ensures Trace(LogmDiagonal(ln, a)) == ln(a[0][0]) + ln(a[1][1]) + ln(a[2][2])
  {
    var r := LogmDiagonal(ln, a);
    Sum3(Diagonal(r));
    forall i, j | 0 <= i < 3 && 0 <= j < 3
      ensures r[i][j] == r[j][i]
    {
      var i': Idx, j': Idx := i, j;
      assert r[i'][j'] == r[j'][i'];
    }
  }

  /** `sub_rel` of `TensorRank0`. */
  function SubRel(a: real, b: real): real {
    if b == 0.0 then (if a == 0.0 then 0.0 else 1.0) else Abs(a / b - 1.0)
  }

  /** `assert_eq_within_tols(a, b).is_ok()`: close in absolute or in
      relative terms. */
  predicate WithinTols(a: real, b: real) {
    Abs(a - b) < ABS_TOL || SubRel(a, b) < REL_TOL
  }

  lemma WithinTolsFacts(a: real, b: real)
    ensures WithinTols(a, a)
    ensures !WithinTols(a, b) ==> a != b
  {
  }

  /** One entry of `dlogm` on a tensor that `is_diagonal`. */
  function DlogmDiagonalAt(ln: real -> real, a: Mat3, i: Idx, j: Idx, k: Idx, l: Idx): (r: real)
    requires IsDiagonal(a) && a[0][0] != 0.0 && a[1][1] != 0.0 && a[2][2] != 0.0
    ensures !(i == k && j == l) ==> r == 0.0
    ensures i == k && j == l && WithinTols(a[i][i], a[j][j]) ==> r == 1.0 / a[j][j]
    ensures i == k && j == l && !WithinTols(a[i][i], a[j][j])
      ==> r * (a[i][i] - a[j][j]) == ln(a[i][i]) - ln(a[j][j])
  {
    if i == k && j == l then
      if WithinTols(a[i][i], a[j][j]) then 1.0 / a[j][j]
      else (ln(a[i][i]) - ln(a[j][j])) / (a[i][i] - a[j][j])
    else 0.0
  }

  /** On the diagonal the derivative is `1 / a_ii`; away from the
      tolerance band it is the divided difference `R` of the foo.py script
      evaluated at the diagonal entries. */
  lemma DlogmDiagonalMatchesDividedDifference(ln: real -> real, a: Mat3, i: Idx, j: Idx)
    requires IsDiagonal(a) && a[0][0] != 0.0 && a[1][1] != 0.0 && a[2][2] != 0.0
    ensures DlogmDiagonalAt(ln, a, i, i, i, i) == 1.0 / a[i][i]
    ensures !WithinTols(a[i][i], a[j][j]) ==>
      DlogmDiagonalAt(ln, a, i, j, i, j)
      == MatrixLogDerivative.DividedDifference(ln, Diagonal(a), i, j)
  {
    WithinTolsFacts(a[i][i], a[j][j]);
    WithinTolsFacts(a[i][i], a[i][i]);
  }
}
