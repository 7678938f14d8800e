/** The compressed-sparse-row matrix `SparseSquareMatrix`: construction,
    row-ordered insertion, lookup, the row-by-row product, and the pivot
    step of the banded sparse LU solve with its singular exit. */
module SparseSquare {
  import opened Base
  import SquareMatrix

  /** Strictly increasing column indices. */
  predicate Ascending(s: seq<nat>) {
    forall a, b :: 0 <= a < b < |s| ==> s[a] < s[b]
  }

  /** `map.get(&key).copied().unwrap_or(0.0)`. */
  function Lookup(m: map<nat, real>, key: nat): real {
    if key in m then m[key] else 0.0
  }

  /** A sparse matrix in compressed-sparse-row form: the entries of row
      `r` are `values[rowPointers[r]..rowPointers[r + 1]]`, with their
      columns at the same positions of `colIndices`. */
  class SparseSquareMatrix {
    var len: nat
    var values: seq<real>
    var colIndices: seq<nat>
    var rowPointers: seq<nat>

    /** The row pointers start at zero, never decrease, and end at the
        number of stored values. */
    predicate Valid()
      reads this
    {
      ValidParts(len, rowPointers, values, colIndices)
    }

    /** `SparseSquareMatrix::new(len)`: no entries. */
    constructor (len: nat)
      ensures this.len == len && values == [] && colIndices == []
      ensures rowPointers == seq(len + 1, _ => 0)
      ensures Valid()
    {
      this.len := len;
      values := [];
      colIndices := [];
      rowPointers := seq(len + 1, _ => 0);
    }

    /** The struct literal `Self { len, values, col_indices, row_pointers }`
        at the end of `mul`. */
    constructor FromParts(len: nat, values: seq<real>, colIndices: seq<nat>, rowPointers: seq<nat>)
      ensures this.len == len && this.values == values
      ensures this.colIndices == colIndices && this.rowPointers == rowPointers
    {
      this.len := len;
      this.values := values;
      this.colIndices := colIndices;
      this.rowPointers := rowPointers;
    }

    /** The columns stored for `row`. */
    function RowCols(row: nat): seq<nat>
      reads this
      requires Valid() && row < len
    {
      colIndices[rowPointers[row]..rowPointers[row + 1]]
    }

    /** The values stored for `row`. */
    function RowValues(row: nat): seq<real>
      reads this
      requires Valid() && row < len
    {
      values[rowPointers[row]..rowPointers[row + 1]]
    }

    /** Every stored column index names a row of a matrix of size `n`. */
    predicate ColumnsBelow(n: nat)
      reads this
    {
      forall k :: 0 <= k < |colIndices| ==> colIndices[k] < n
    }

    /** `add_value`: appends the value and its column, and moves every
        later row boundary one place on. The entry lands in `row` when no
        later row holds entries yet, that is, when entries are added in
        row order; a `row` at or past `len` moves no boundary and leaves
        the value outside every row. */
    method AddValue(row: nat, col: nat, val: real)
      modifies this
      requires |rowPointers| == len + 1
      ensures len == old(len) && values == old(values) + [val] && colIndices == old(colIndices) + [col]
      ensures |rowPointers| == len + 1
      ensures forall i :: 0 <= i <= len ==> rowPointers[i] == old(rowPointers[i]) + (if row < i then 1 else 0)
      ensures old(Valid()) && row < len ==> Valid()
      ensures old(Valid()) && row >= len ==> !Valid()
      ensures old(Valid()) && row < len && old(rowPointers[row + 1]) == old(|values|) ==>
        RowCols(row) == old(RowCols(row)) + [col] && RowValues(row) == old(RowValues(row)) + [val]
      ensures old(Valid()) && row < len && old(rowPointers[row + 1]) == old(|values|) ==>
        forall r :: 0 <= r < len && r != row ==> RowCols(r) == old(RowCols(r)) && RowValues(r) == old(RowValues(r))
    {
      values := values + [val];
      colIndices := colIndices + [col];
      var pointers := rowPointers;
      if row + 1 <= len {
        for i := row + 1 to len + 1
          invariant |pointers| == len + 1
          invariant forall i' :: 0 <= i' <= len ==>
            pointers[i'] == old(rowPointers[i']) + (if row < i' < i then 1 else 0)
        {
          pointers := pointers[i := pointers[i] + 1];
        }
      }
      rowPointers := pointers;
      AppendedRows(len, old(rowPointers), rowPointers, old(values), old(colIndices), row, col, val);
    }

    /** The entries of `row` have strictly increasing columns. */
    predicate AscendingRow(row: nat)
      reads this
      requires Valid() && row < len
    {
      forall a, b :: rowPointers[row] <= a < b < rowPointers[row + 1] ==> colIndices[a] < colIndices[b]
    }

    /** `Index<[usize; 2]>`: scans the row for `col`, stopping early at a
        larger column. Gives `0.0` when the row stores no `col`; gives a
        value stored at `col` otherwise, and exactly the stored value when
        the row's columns are ascending. */
    method Get(row: nat, col: nat) returns (v: real)
      requires Valid() && row < len
      ensures (forall k :: rowPointers[row] <= k < rowPointers[row + 1] ==> colIndices[k] != col) ==> v == 0.0
      ensures v == 0.0
        || exists k :: rowPointers[row] <= k < rowPointers[row + 1] && colIndices[k] == col && values[k] == v
      ensures AscendingRow(row) ==>
        forall k :: rowPointers[row] <= k < rowPointers[row + 1] && colIndices[k] == col ==> v == values[k]
      ensures AscendingRow(row) ==> v == StoredEntry(this, row, col)
    {
      if AscendingRow(row) {
        AscendingEntry(this, row, col);
      }
      var i := rowPointers[row];
      while i < rowPointers[row + 1]
        invariant rowPointers[row] <= i <= rowPointers[row + 1]
        invariant forall k :: rowPointers[row] <= k < i ==> colIndices[k] < col
      {
        if colIndices[i] == col {
          if AscendingRow(row) {
            assert forall k :: i < k < rowPointers[row + 1] ==> colIndices[k] > col;
          }
          return values[i];
        }
        if colIndices[i] > col {
          if AscendingRow(row) {
            assert forall k :: i < k < rowPointers[row + 1] ==> colIndices[k] > col;
          }
          return 0.0;
        }
        i := i + 1;
      }
      return 0.0;
    }

    /** The body of `mul` for one row: for every stored `(col_a, value_a)`
        of the row, every stored `(col_b, value_b)` of row `col_a` of
        `other` adds `value_a * value_b` to the entry at `col_b`. */
    method RowProductOf(other: SparseSquareMatrix, row: nat) returns (acc: map<nat, real>)
      requires Valid() && other.Valid() && ColumnsBelow(other.len) && row < len
      ensures acc == RowProduct(this, other, row)
    {
      acc := map[];
      for i := rowPointers[row] to rowPointers[row + 1]
        invariant acc == AccumulateTo(this, other, row, i)
      {
        AccumulateStep(this, other, row, i);
        acc := AddRowScaled(acc, other, colIndices[i], values[i]);
      }
    }

    /** `mul`: the product row by row, each row's sums sorted by column
        with the exact zeros dropped; unequal sizes trip the `assert!`. */
    method Mul(other: SparseSquareMatrix) returns (r: Result<SparseSquareMatrix, MulError>)
      requires Valid() && other.Valid()
      requires len == other.len ==> ColumnsBelow(other.len)
      ensures r.Err? <==> len != other.len
      ensures r.Ok? ==> fresh(r.value) && r.value.Valid() && r.value.len == len
      ensures r.Ok? ==> forall row :: 0 <= row < len ==>
        RowOf(r.value.RowCols(row), r.value.RowValues(row), RowProduct(this, other, row))
      ensures r.Ok? ==> forall row, col :: 0 <= row < len ==>
        StoredEntry(r.value, row, col) == DenseDot(this, other, row, col, other.len)
    {
      if len != other.len {
        return Err(DimensionMismatch);
      }
      var resultCols, resultValues, resultPointers, products := ProductRows(other);
      var c := new SparseSquareMatrix.FromParts(len, resultValues, resultCols, resultPointers);
      StoredRows(c, products);
      forall row, col | 0 <= row < len
        ensures StoredEntry(c, row, col) == DenseDot(this, other, row, col, other.len)
      {
        RowOfEntry(c, row, products[row], col);
        RowProductEntry(this, other, row, col);
      }
      r := Ok(c);
    }

    /** The loop of `mul` over the rows of `self`. */
    method ProductRows(other: SparseSquareMatrix)
      returns (resultCols: seq<nat>, resultValues: seq<real>, resultPointers: seq<nat>, ghost products: seq<map<nat, real>>)
      requires Valid() && other.Valid() && ColumnsBelow(other.len)
      ensures |resultPointers| == len + 1
      ensures |products| == len && forall rr :: 0 <= rr < len ==> products[rr] == RowProduct(this, other, rr)
      ensures RowsEmitted(resultCols, resultValues, resultPointers, products, len)
    {
      products := [];
      resultValues := [];
      resultCols := [];
      resultPointers := seq(len + 1, _ => 0);
      for row := 0 to len
        invariant |resultPointers| == len + 1
        invariant |products| == row && forall rr :: 0 <= rr < row ==> products[rr] == RowProduct(this, other, rr)
        invariant RowsEmitted(resultCols, resultValues, resultPointers, products, row)
      {
        var acc := RowProductOf(other, row);
        var rowCols, rowValues := EmitRow(acc);
        EmitStep(resultCols, resultValues, resultPointers, products, row, rowCols, rowValues, acc);
        products := products + [acc];
        resultCols := resultCols + rowCols;
        resultValues := resultValues + rowValues;
        resultPointers := resultPointers[row + 1 := |resultValues|];
      }
    }
  }

  /** A matrix whose arrays hold all its rows as emitted is valid, and its
      rows are the emitted ones. */
  lemma StoredRows(c: SparseSquareMatrix, products: seq<map<nat, real>>)
    requires |c.rowPointers| == c.len + 1
    requires RowsEmitted(c.colIndices, c.values, c.rowPointers, products, c.len)
    ensures c.Valid()
    ensures forall row :: 0 <= row < c.len ==> RowOf(c.RowCols(row), c.RowValues(row), products[row])
  {
  }

  /** The row pointers start at zero, never decrease, and end at the
      number of stored values. */
  predicate ValidParts(len: nat, pointers: seq<nat>, values: seq<real>, cols: seq<nat>) {
    |pointers| == len + 1 && pointers[0] == 0
    && pointers[len] == |values| && |cols| == |values|
    && forall i, j :: 0 <= i <= j <= len ==> pointers[i] <= pointers[j]
  }

  /** `add_value` on the arrays: one entry appended, every boundary after
      `row` moved on by one. */
  lemma AppendedRows(len: nat, p: seq<nat>, p': seq<nat>, v: seq<real>, c: seq<nat>, row: nat, col: nat, val: real)
    requires |p| == len + 1 == |p'|
    requires forall i :: 0 <= i <= len ==> p'[i] == p[i] + (if row < i then 1 else 0)
    ensures ValidParts(len, p, v, c) && row < len ==> ValidParts(len, p', v + [val], c + [col])
    ensures ValidParts(len, p, v, c) && row >= len ==> !ValidParts(len, p', v + [val], c + [col])
    ensures ValidParts(len, p, v, c) && row < len && p[row + 1] == |v| ==>
              (c + [col])[p'[row]..p'[row + 1]] == c[p[row]..p[row + 1]] + [col]
              && (v + [val])[p'[row]..p'[row + 1]] == v[p[row]..p[row + 1]] + [val]
    ensures ValidParts(len, p, v, c) && row < len && p[row + 1] == |v| ==>
              forall r :: 0 <= r < len && r != row ==>
                (c + [col])[p'[r]..p'[r + 1]] == c[p[r]..p[r + 1]]
                && (v + [val])[p'[r]..p'[r + 1]] == v[p[r]..p[r + 1]]
  {
    if ValidParts(len, p, v, c) && row < len && p[row + 1] == |v| {
      forall r | 0 <= r < len && r != row
        ensures (c + [col])[p'[r]..p'[r + 1]] == c[p[r]..p[r + 1]]
        ensures (v + [val])[p'[r]..p'[r + 1]] == v[p[r]..p[r + 1]]
      {
        if r > row {
          assert p[r] == p[r + 1] == |v|;
        }
      }
    }
  }

  /** The first `row` rows of a product are stored in `cols`, `values`
      and `pointers`, row `rr` holding `products[rr]`. */
  predicate RowsEmitted(cols: seq<nat>, values: seq<real>, pointers: seq<nat>,
                        products: seq<map<nat, real>>, row: nat) {
    row < |pointers| && row <= |products| && pointers[0] == 0 && |cols| == |values|
    && pointers[row] == |values|
    && (forall a, b :: 0 <= a <= b <= row ==> pointers[a] <= pointers[b])
    && forall rr :: 0 <= rr < row ==>
         RowOf(cols[pointers[rr]..pointers[rr + 1]], values[pointers[rr]..pointers[rr + 1]], products[rr])
  }

  /** Appending the next row's entries keeps the earlier rows in place. */
  lemma EmitStep(cols: seq<nat>, values: seq<real>, pointers: seq<nat>, products: seq<map<nat, real>>,
                 row: nat, rowCols: seq<nat>, rowValues: seq<real>, acc: map<nat, real>)
    requires RowsEmitted(cols, values, pointers, products, row)
    requires row + 1 < |pointers| && row == |products| && RowOf(rowCols, rowValues, acc)
    ensures RowsEmitted(cols + rowCols, values + rowValues,
                        pointers[row + 1 := |values| + |rowValues|], products + [acc], row + 1)
  {
    var cols', values' := cols + rowCols, values + rowValues;
    var pointers' := pointers[row + 1 := |values'|];
    forall rr | 0 <= rr < row
      ensures cols'[pointers'[rr]..pointers'[rr + 1]] == cols[pointers[rr]..pointers[rr + 1]]
      ensures values'[pointers'[rr]..pointers'[rr + 1]] == values[pointers[rr]..pointers[rr + 1]]
    {
      assert pointers'[rr] == pointers[rr] && pointers'[rr + 1] == pointers[rr + 1];
      assert pointers[rr] <= pointers[rr + 1] <= pointers[row];
    }
    assert cols'[pointers'[row]..pointers'[row + 1]] == rowCols;
    assert values'[pointers'[row]..pointers'[row + 1]] == rowValues;
  }

  /** The only way `mul` fails: the `assert!` on equal sizes. */
  datatype MulError = DimensionMismatch

  /** `AddScaled(acc, other, colA, valueA, j)`: `acc` after the entries of
      row `colA` of `other` before position `j` were added, each scaled by
      `valueA`. */
  function AddScaled(acc: map<nat, real>, other: SparseSquareMatrix, colA: nat, valueA: real, j: nat): map<nat, real>
    reads other
    requires other.Valid() && colA < other.len
    requires other.rowPointers[colA] <= j <= other.rowPointers[colA + 1]
    decreases j
  {
    if j == other.rowPointers[colA] then acc
    else
      var prev := AddScaled(acc, other, colA, valueA, j - 1);
      var colB := other.colIndices[j - 1];
      prev[colB := Lookup(prev, colB) + valueA * other.values[j - 1]]
  }

  /** The inner loop of `mul`: row `colA` of `other`, scaled by `valueA`,
      added into `acc` entry by entry. */
  method AddRowScaled(acc: map<nat, real>, other: SparseSquareMatrix, colA: nat, valueA: real)
    returns (acc': map<nat, real>)
    requires other.Valid() && colA < other.len
    ensures acc' == AddScaled(acc, other, colA, valueA, other.rowPointers[colA + 1])
  {
    acc' := acc;
    for j := other.rowPointers[colA] to other.rowPointers[colA + 1]
      invariant acc' == AddScaled(acc, other, colA, valueA, j)
    {
      AddScaledStep(acc, other, colA, valueA, j);
      var colB := other.colIndices[j];
      acc' := acc'[colB := Lookup(acc', colB) + valueA * other.values[j]];
    }
  }

  lemma AddScaledStep(acc: map<nat, real>, other: SparseSquareMatrix, colA: nat, valueA: real, j: nat)
    requires other.Valid() && colA < other.len
    requires other.rowPointers[colA] <= j < other.rowPointers[colA + 1]
    ensures AddScaled(acc, other, colA, valueA, j + 1)
            == (var prev := AddScaled(acc, other, colA, valueA, j);
                prev[other.colIndices[j] := Lookup(prev, other.colIndices[j]) + valueA * other.values[j]])
  {
  }

  /** The sums of row `row` of `a` times `b` after the entries of `a`
      before position `i` were used. */
  function AccumulateTo(a: SparseSquareMatrix, b: SparseSquareMatrix, row: nat, i: nat): map<nat, real>
    reads a, b
    requires a.Valid() && b.Valid() && a.ColumnsBelow(b.len) && row < a.len
    requires a.rowPointers[row] <= i <= a.rowPointers[row + 1]
    decreases i
  {
    if i == a.rowPointers[row] then map[]
    else
      var colA := a.colIndices[i - 1];
      AddScaled(AccumulateTo(a, b, row, i - 1), b, colA, a.values[i - 1], b.rowPointers[colA + 1])
  }

  lemma AccumulateStep(a: SparseSquareMatrix, b: SparseSquareMatrix, row: nat, i: nat)
    requires a.Valid() && b.Valid() && a.ColumnsBelow(b.len) && row < a.len
    requires a.rowPointers[row] <= i < a.rowPointers[row + 1]
    ensures a.colIndices[i] < b.len
    ensures AccumulateTo(a, b, row, i + 1)
      == AddScaled(AccumulateTo(a, b, row, i), b, a.colIndices[i], a.values[i], b.rowPointers[a.colIndices[i] + 1])
  {
  }

  /** The `row_result` map of `mul` for `row`. */
  function RowProduct(a: SparseSquareMatrix, b: SparseSquareMatrix, row: nat): map<nat, real>
    reads a, b
    requires a.Valid() && b.Valid() && a.ColumnsBelow(b.len) && row < a.len
  {
    AccumulateTo(a, b, row, a.rowPointers[row + 1])
  }

  // What the product means

  /** The sum of the values stored in `row` of `m` for column `col` at the
      positions before `p`. */
  function StoredSum(m: SparseSquareMatrix, row: nat, col: nat, p: nat): real
    reads m
    requires m.Valid() && row < m.len && m.rowPointers[row] <= p <= m.rowPointers[row + 1]
    decreases p
  {
    if p == m.rowPointers[row] then 0.0
    else StoredSum(m, row, col, p - 1) + (if m.colIndices[p - 1] == col then m.values[p - 1] else 0.0)
  }

  /** Entry `(row, col)` of the matrix `m` stands for: the sum of what the
      row stores for that column, zero when it stores nothing. */
  function StoredEntry(m: SparseSquareMatrix, row: nat, col: nat): real
    reads m
    requires m.Valid() && row < m.len
  {
    StoredSum(m, row, col, m.rowPointers[row + 1])
  }

  /** No position before `p` stores `col`: the sum is zero. */
  lemma {:induction false} StoredSumNone(m: SparseSquareMatrix, row: nat, col: nat, p: nat)
    requires m.Valid() && row < m.len && m.rowPointers[row] <= p <= m.rowPointers[row + 1]
    requires forall k :: m.rowPointers[row] <= k < p ==> m.colIndices[k] != col
    ensures StoredSum(m, row, col, p) == 0.0
  {
    if p > m.rowPointers[row] {
      StoredSumNone(m, row, col, p - 1);
    }
  }

  /** Only position `k` before `p` stores `col`: the sum is its value. */
  lemma {:induction false} StoredSumOne(m: SparseSquareMatrix, row: nat, col: nat, p: nat, k: nat)
    requires m.Valid() && row < m.len && m.rowPointers[row] <= k < p <= m.rowPointers[row + 1]
    requires m.colIndices[k] == col
    requires forall k' :: m.rowPointers[row] <= k' < p && k' != k ==> m.colIndices[k'] != col
    ensures StoredSum(m, row, col, p) == m.values[k]
  {
    if p - 1 == k {
      StoredSumNone(m, row, col, k);
    } else {
      StoredSumOne(m, row, col, p - 1, k);
    }
  }

  /** In a row with ascending columns the entry is the one stored value,
      or zero when the column is not stored. */
  lemma AscendingEntry(m: SparseSquareMatrix, row: nat, col: nat)
    requires m.Valid() && row < m.len && m.AscendingRow(row)
    ensures (forall k :: m.rowPointers[row] <= k < m.rowPointers[row + 1] ==> m.colIndices[k] != col) ==>
              StoredEntry(m, row, col) == 0.0
    ensures forall k :: m.rowPointers[row] <= k < m.rowPointers[row + 1] && m.colIndices[k] == col ==>
              StoredEntry(m, row, col) == m.values[k]
  {
    var end := m.rowPointers[row + 1];
    if forall k :: m.rowPointers[row] <= k < end ==> m.colIndices[k] != col {
      StoredSumNone(m, row, col, end);
    }
    forall k | m.rowPointers[row] <= k < end && m.colIndices[k] == col
      ensures StoredEntry(m, row, col) == m.values[k]
    {
      StoredSumOne(m, row, col, end, k);
    }
  }

  /** `Σ_{k < n} StoredEntry(a, row, k) · StoredEntry(b, k, col)`: entry `(row, col)`
      of the product of the matrices `a` and `b` stand for, over the
      first `n` inner indices. */
  function DenseDot(a: SparseSquareMatrix, b: SparseSquareMatrix, row: nat, col: nat, n: nat): real
    reads a, b
    requires a.Valid() && b.Valid() && row < a.len && n <= b.len
  {
    if n == 0 then 0.0 else DenseDot(a, b, row, col, n - 1) + StoredEntry(a, row, n - 1) * StoredEntry(b, n - 1, col)
  }

  /** The same sum with the entries of `a` taken over the positions
      before `p` only. */
  function PositionsDot(a: SparseSquareMatrix, b: SparseSquareMatrix, row: nat, col: nat, p: nat, n: nat): real
    reads a, b
    requires a.Valid() && b.Valid() && row < a.len && n <= b.len
    requires a.rowPointers[row] <= p <= a.rowPointers[row + 1]
  {
    if n == 0 then 0.0
    else PositionsDot(a, b, row, col, p, n - 1) + StoredSum(a, row, n - 1, p) * StoredEntry(b, n - 1, col)
  }

  /** `valueA` times each value stored in row `colA` of `other` for
      column `col` at the positions before `j`, summed. */
  function ScaledSum(other: SparseSquareMatrix, colA: nat, col: nat, valueA: real, j: nat): real
    reads other
    requires other.Valid() && colA < other.len
    requires other.rowPointers[colA] <= j <= other.rowPointers[colA + 1]
    decreases j
  {
    if j == other.rowPointers[colA] then 0.0
    else ScaledSum(other, colA, col, valueA, j - 1)
         + (if other.colIndices[j - 1] == col then valueA * other.values[j - 1] else 0.0)
  }

  /** The scaled sum is `valueA` times the stored sum. */
  lemma {:induction false} ScaledSumIs(other: SparseSquareMatrix, colA: nat, col: nat, valueA: real, j: nat)
    requires other.Valid() && colA < other.len
    requires other.rowPointers[colA] <= j <= other.rowPointers[colA + 1]
    ensures ScaledSum(other, colA, col, valueA, j) == valueA * StoredSum(other, colA, col, j)
    decreases j
  {
    if j > other.rowPointers[colA] {
      ScaledSumIs(other, colA, col, valueA, j - 1);
      var v := if other.colIndices[j - 1] == col then other.values[j - 1] else 0.0;
      ScaledStep(ScaledSum(other, colA, col, valueA, j), ScaledSum(other, colA, col, valueA, j - 1), 0.0,
                 valueA, StoredSum(other, colA, col, j - 1), v, StoredSum(other, colA, col, j));
    }
  }

  /** Adding the scaled row `colA` of `other` adds its scaled sum for
      `col` to the accumulator's `col`. */
  lemma {:induction false} AddScaledSum(acc: map<nat, real>, other: SparseSquareMatrix, colA: nat,
                                        valueA: real, j: nat, col: nat)
    requires other.Valid() && colA < other.len
    requires other.rowPointers[colA] <= j <= other.rowPointers[colA + 1]
    ensures Lookup(AddScaled(acc, other, colA, valueA, j), col)
            == Lookup(acc, col) + ScaledSum(other, colA, col, valueA, j)
    decreases j
  {
    if j > other.rowPointers[colA] {
      AddScaledSum(acc, other, colA, valueA, j - 1, col);
      AddScaledStep(acc, other, colA, valueA, j - 1);
    }
  }

  /** Adding the scaled row `colA` of `other` adds `valueA` times its sum
      for `col` to the accumulator's `col`. */
  lemma AddScaledLookup(acc: map<nat, real>, other: SparseSquareMatrix, colA: nat,
                        valueA: real, j: nat, col: nat)
    requires other.Valid() && colA < other.len
    requires other.rowPointers[colA] <= j <= other.rowPointers[colA + 1]
    ensures Lookup(AddScaled(acc, other, colA, valueA, j), col)
            == Lookup(acc, col) + valueA * StoredSum(other, colA, col, j)
  {
    AddScaledSum(acc, other, colA, valueA, j, col);
    ScaledSumIs(other, colA, col, valueA, j);
  }

  /** One more scaled term: `l = p + x·v`, `p = a + x·s'` and `s = s' + v`
      give `l = a + x·s`. */
  lemma ScaledStep(l: real, p: real, a: real, x: real, s': real, v: real, s: real)
    requires l == p + x * v && p == a + x * s' && s == s' + v
    ensures l == a + x * s
  {
    assert x * s == x * s' + x * v;
  }

  /** Position `i - 1` of `row` of `a` adds its value times entry
      `(colIndices[i - 1], col)` of `b` to the partial sum, when that
      column is below `n`. */
  lemma {:induction false} PositionsDotStep(a: SparseSquareMatrix, b: SparseSquareMatrix, row: nat, col: nat,
                                            i: nat, n: nat)
    requires a.Valid() && b.Valid() && row < a.len && n <= b.len
    requires a.rowPointers[row] < i <= a.rowPointers[row + 1]
    ensures PositionsDot(a, b, row, col, i, n)
            == PositionsDot(a, b, row, col, i - 1, n)
               + (if a.colIndices[i - 1] < n then a.values[i - 1] * StoredEntry(b, a.colIndices[i - 1], col) else 0.0)
  {
    if n > 0 {
      PositionsDotStep(a, b, row, col, i, n - 1);
      var s1, s0 := StoredSum(a, row, n - 1, i), StoredSum(a, row, n - 1, i - 1);
      if a.colIndices[i - 1] == n - 1 {
        TermStep(PositionsDot(a, b, row, col, i, n), PositionsDot(a, b, row, col, i, n - 1),
                 PositionsDot(a, b, row, col, i - 1, n), PositionsDot(a, b, row, col, i - 1, n - 1),
                 s1, s0, a.values[i - 1], StoredEntry(b, n - 1, col));
      } else {
        assert s1 == s0;
      }
    }
  }

  /** The new position's term in the sum over columns: `d = d' + s·e`,
      `c = c' + s₀·e`, `s = s₀ + v` and `d' = c'` give `d = c + v·e`. */
  lemma TermStep(d: real, d': real, c: real, c': real, s: real, s0: real, v: real, e: real)
    requires d == d' + s * e && c == c' + s0 * e && s == s0 + v && d' == c'
    ensures d == c + v * e
  {
    assert s * e == s0 * e + v * e;
  }

  /** Position `i - 1` of `row` of `a` adds its value times entry
      `(colIndices[i - 1], col)` of `b` to the accumulated sum for `col`. */
  lemma AccumulateStepLookup(a: SparseSquareMatrix, b: SparseSquareMatrix, row: nat, col: nat, i: nat)
    requires a.Valid() && b.Valid() && a.ColumnsBelow(b.len) && row < a.len
    requires a.rowPointers[row] < i <= a.rowPointers[row + 1]
    ensures a.colIndices[i - 1] < b.len
    ensures Lookup(AccumulateTo(a, b, row, i), col)
            == Lookup(AccumulateTo(a, b, row, i - 1), col) + a.values[i - 1] * StoredEntry(b, a.colIndices[i - 1], col)
  {
    AccumulateStep(a, b, row, i - 1);
    var colA := a.colIndices[i - 1];
    AddScaledLookup(AccumulateTo(a, b, row, i - 1), b, colA, a.values[i - 1], b.rowPointers[colA + 1], col);
  }

  /** `Σ a.values[p] · Entry(b, a.colIndices[p], col)` over the positions
      `p` of `row` of `a` before `i`: what `mul` adds up for `col`. */
  function PositionSum(a: SparseSquareMatrix, b: SparseSquareMatrix, row: nat, col: nat, i: nat): real
    reads a, b
    requires a.Valid() && b.Valid() && a.ColumnsBelow(b.len) && row < a.len
    requires a.rowPointers[row] <= i <= a.rowPointers[row + 1]
    decreases i
  {
    if i == a.rowPointers[row] then 0.0
    else PositionSum(a, b, row, col, i - 1) + a.values[i - 1] * StoredEntry(b, a.colIndices[i - 1], col)
  }

  /** After the positions before `i`, the accumulated sum for `col` is
      their position sum. */
  lemma {:induction false} AccumulateLookup(a: SparseSquareMatrix, b: SparseSquareMatrix, row: nat, col: nat, i: nat)
    requires a.Valid() && b.Valid() && a.ColumnsBelow(b.len) && row < a.len
    requires a.rowPointers[row] <= i <= a.rowPointers[row + 1]
    ensures Lookup(AccumulateTo(a, b, row, i), col) == PositionSum(a, b, row, col, i)
    decreases i
  {
    if i > a.rowPointers[row] {
      AccumulateLookup(a, b, row, col, i - 1);
      AccumulateStepLookup(a, b, row, col, i);
    }
  }

  /** The position sum is the partial sum over all columns. */
  lemma {:induction false} PositionSumDot(a: SparseSquareMatrix, b: SparseSquareMatrix, row: nat, col: nat, i: nat)
    requires a.Valid() && b.Valid() && a.ColumnsBelow(b.len) && row < a.len
    requires a.rowPointers[row] <= i <= a.rowPointers[row + 1]
    ensures PositionSum(a, b, row, col, i) == PositionsDot(a, b, row, col, i, b.len)
    decreases i
  {
    if i == a.rowPointers[row] {
      PositionsDotEmpty(a, b, row, col, b.len);
    } else {
      PositionSumDot(a, b, row, col, i - 1);
      PositionsDotStep(a, b, row, col, i, b.len);
    }
  }

  /** Before any position the partial sum is zero. */
  lemma {:induction false} PositionsDotEmpty(a: SparseSquareMatrix, b: SparseSquareMatrix, row: nat, col: nat, n: nat)
    requires a.Valid() && b.Valid() && row < a.len && n <= b.len
    ensures PositionsDot(a, b, row, col, a.rowPointers[row], n) == 0.0
  {
    if n > 0 {
      PositionsDotEmpty(a, b, row, col, n - 1);
    }
  }

  /** Over the whole row the partial sum is the dense sum. */
  lemma {:induction false} PositionsDotWhole(a: SparseSquareMatrix, b: SparseSquareMatrix, row: nat, col: nat, n: nat)
    requires a.Valid() && b.Valid() && row < a.len && n <= b.len
    ensures PositionsDot(a, b, row, col, a.rowPointers[row + 1], n) == DenseDot(a, b, row, col, n)
  {
    if n > 0 {
      PositionsDotWhole(a, b, row, col, n - 1);
    }
  }

  /** The sum `mul` accumulates for `(row, col)` is entry `(row, col)` of
      the matrix product: `Σ_k StoredEntry(a, row, k) · StoredEntry(b, k, col)`. */
  lemma RowProductEntry(a: SparseSquareMatrix, b: SparseSquareMatrix, row: nat, col: nat)
    requires a.Valid() && b.Valid() && a.ColumnsBelow(b.len) && row < a.len
    ensures Lookup(RowProduct(a, b, row), col) == DenseDot(a, b, row, col, b.len)
  {
    AccumulateLookup(a, b, row, col, a.rowPointers[row + 1]);
    PositionSumDot(a, b, row, col, a.rowPointers[row + 1]);
    PositionsDotWhole(a, b, row, col, b.len);
  }

  /** A row stored from `acc` has, at every column, the entry `acc` holds
      there. */
  lemma RowOfEntry(c: SparseSquareMatrix, row: nat, acc: map<nat, real>, col: nat)
    requires c.Valid() && row < c.len && RowOf(c.RowCols(row), c.RowValues(row), acc)
    ensures StoredEntry(c, row, col) == Lookup(acc, col)
  {
    var start, end := c.rowPointers[row], c.rowPointers[row + 1];
    if k :| start <= k < end && c.colIndices[k] == col {
      RowOfStoredAt(c, row, acc, k);
    } else {
      StoredSumNone(c, row, col, end);
    }
  }

  /** The column stored at position `k` of the row has the entry `acc`
      holds for it. */
  lemma RowOfStoredAt(c: SparseSquareMatrix, row: nat, acc: map<nat, real>, k: nat)
    requires c.Valid() && row < c.len && RowOf(c.RowCols(row), c.RowValues(row), acc)
    requires c.rowPointers[row] <= k < c.rowPointers[row + 1]
    ensures StoredEntry(c, row, c.colIndices[k]) == Lookup(acc, c.colIndices[k])
  {
    var start, end := c.rowPointers[row], c.rowPointers[row + 1];
    var cols := c.RowCols(row);
    forall k' | start <= k' < end && k' != k
      ensures c.colIndices[k'] != c.colIndices[k]
    {
      assert cols[k' - start] != cols[k - start];
    }
    StoredSumOne(c, row, c.colIndices[k], end, k);
    assert c.values[k] == c.RowValues(row)[k - start];
  }

  /** A stored row holds, in increasing column order, exactly the nonzero
      sums of `acc`. */
  predicate RowOf(cols: seq<nat>, vals: seq<real>, acc: map<nat, real>) {
    |cols| == |vals| && Ascending(cols)
    && (forall k :: 0 <= k < |cols| ==> cols[k] in acc && vals[k] == acc[cols[k]] && vals[k] != 0.0)
    && (forall key :: key in acc && acc[key] != 0.0 ==> key in cols)
  }

  /** A set of columns holding one at most `n` has a least element. */
  lemma {:induction false} LeastBelow(s: set<nat>, n: nat)
    requires exists y :: y in s && y <= n
    ensures exists m :: m in s && forall x :: x in s ==> m <= x
    decreases n
  {
    if n > 0 && exists y :: y in s && y < n {
      LeastBelow(s, n - 1);
    } else {
      var y :| y in s && y <= n;
      assert y == n;
      assert forall x :: x in s ==> n <= x;
    }
  }

  /** A nonempty set of columns has a least element. */
  lemma LeastExists(s: set<nat>)
    requires s != {}
    ensures exists m :: m in s && forall x :: x in s ==> m <= x
  {
    var x :| x in s;
    LeastBelow(s, x);
  }

  /** The state of the emitting loop: `cols`/`vals` hold, ascending, the
      nonzero sums of every column already taken, and every column still
      `remaining` lies beyond them. */
  predicate Emitted(acc: map<nat, real>, remaining: set<nat>, cols: seq<nat>, vals: seq<real>) {
    remaining <= acc.Keys && |cols| == |vals| && Ascending(cols)
    && (forall k :: 0 <= k < |cols| ==> cols[k] in acc && vals[k] == acc[cols[k]] && vals[k] != 0.0)
    && (forall k, x :: 0 <= k < |cols| && x in remaining ==> cols[k] < x)
    && (forall key :: key in acc && key !in remaining && acc[key] != 0.0 ==> key in cols)
  }

  /** Taking the least remaining column keeps `Emitted`. */
  lemma EmitLeast(acc: map<nat, real>, remaining: set<nat>, cols: seq<nat>, vals: seq<real>, col: nat)
    requires Emitted(acc, remaining, cols, vals)
    requires col in remaining && forall x :: x in remaining ==> col <= x
    ensures acc[col] != 0.0 ==> Emitted(acc, remaining - {col}, cols + [col], vals + [acc[col]])
    ensures acc[col] == 0.0 ==> Emitted(acc, remaining - {col}, cols, vals)
  {
    var rest := remaining - {col};
    if acc[col] != 0.0 {
      var cols', vals' := cols + [col], vals + [acc[col]];
      assert forall k :: 0 <= k < |cols| ==> cols'[k] == cols[k];
      forall key | key in acc && key !in rest && acc[key] != 0.0
        ensures key in cols'
      {
        if key != col {
          assert key in cols;
        }
      }
    }
  }

  /** `sorted_row_result.sort_by_key(|&(col, _)| col)` followed by the loop
      that keeps the nonzero sums: the columns are taken smallest first. */
  method EmitRow(acc: map<nat, real>) returns (cols: seq<nat>, vals: seq<real>)
    ensures RowOf(cols, vals, acc)
  {
    cols, vals := [], [];
    var remaining := acc.Keys;
    while remaining != {}
      invariant Emitted(acc, remaining, cols, vals)
      decreases |remaining|
    {
      var col := TakeLeast(remaining);
      EmitLeast(acc, remaining, cols, vals, col);
      remaining := remaining - {col};
      if acc[col] != 0.0 {
        cols := cols + [col];
        vals := vals + [acc[col]];
      }
    }
    EmittedAll(acc, cols, vals);
  }

  /** The least column of a nonempty set. */
  method TakeLeast(s: set<nat>) returns (m: nat)
    requires s != {}
    ensures m in s && forall x :: x in s ==> m <= x
    ensures |s - {m}| < |s|
  {
    LeastExists(s);
    m :| m in s && forall x :: x in s ==> m <= x;
  }

  /** With no column left, everything nonzero has been emitted. */
  lemma EmittedAll(acc: map<nat, real>, cols: seq<nat>, vals: seq<real>)
    requires Emitted(acc, {}, cols, vals)
    ensures RowOf(cols, vals, acc)
  {
  }

  // ---------------------------------------------------------------------
  // The pivot step of `solve_lu_banded`

  /** `working_matrix[k].get(&i).copied().unwrap_or(0.0)`. */
  function Entry(w: seq<map<nat, real>>, k: nat, i: nat): real
    requires k < |w|
  {
    Lookup(w[k], i)
  }

  /** The rows `i + 1 .. end` searched for a larger pivot, with
      `end = min(n, i + 1 + bandwidth)`. */
  function WindowEnd(n: nat, i: nat, bandwidth: nat): (end: nat)
    ensures end <= n && (i < n ==> i < end)
  {
    if n < i + 1 + bandwidth then n else i + 1 + bandwidth
  }

  /** The search of `solve_lu_banded` for a replacement pivot: the first
      row of the window whose magnitude beats `max_val` strictly, starting
      from the current pivot's magnitude. */
  method SearchPivot(w: seq<map<nat, real>>, i: nat, end: nat) returns (maxRow: nat)
    requires i < end <= |w|
    ensures i <= maxRow < end
    ensures forall k :: i < k < end ==> Abs(Entry(w, k, i)) <= Abs(Entry(w, maxRow, i))
    ensures forall k :: i <= k < maxRow ==> Abs(Entry(w, k, i)) < Abs(Entry(w, maxRow, i))
  {
    maxRow := i;
    var maxVal := Abs(Entry(w, i, i));
    for k := i + 1 to end
      invariant i <= maxRow < k && maxVal == Abs(Entry(w, maxRow, i))
      invariant forall k' :: i < k' < k ==> Abs(Entry(w, k', i)) <= maxVal
      invariant forall k' :: i <= k' < maxRow ==> Abs(Entry(w, k', i)) < maxVal
    {
      var val := Entry(w, k, i);
      if Abs(val) > maxVal {
        maxRow := k;
        maxVal := Abs(val);
      }
    }
  }

  /** Row `k` is the first row of the window `i .. end` whose entry in
      column `i` has the largest magnitude, and that magnitude beats the
      pivot's: the search picks it and the rows are exchanged. */
  predicate SwappedWith(w: seq<map<nat, real>>, p: seq<nat>, i: nat, end: nat, k: nat,
                        w': seq<map<nat, real>>, p': seq<nat>)
    requires i < k < end <= |w| == |p|
  {
    (forall k' :: i <= k' < end ==> Abs(Entry(w, k', i)) <= Abs(Entry(w, k, i)))
    && (forall k' :: i <= k' < k ==> Abs(Entry(w, k', i)) < Abs(Entry(w, k, i)))
    && w' == SquareMatrix.Swap(w, i, k) && p' == SquareMatrix.Swap(p, i, k)
  }

  /** Some row of the window beats the pivot's magnitude. */
  predicate Improvable(w: seq<map<nat, real>>, i: nat, end: nat)
    requires i < end <= |w|
  {
    exists k :: i < k < end && Abs(Entry(w, k, i)) > Abs(Entry(w, i, i))
  }

  /** The pivot step of `solve_lu_banded` as written: a pivot below the
      tolerance is replaced by the largest entry of the window, and
      `Singular` is returned only when such a replacement happened and is
      still below the tolerance. When no row of the window beats the small
      pivot, the step goes on with it unchanged. */
  method PivotStepAsWritten(w: seq<map<nat, real>>, p: seq<nat>, i: nat, bandwidth: nat)
    returns (r: Result<(seq<map<nat, real>>, seq<nat>), SquareMatrix.SquareMatrixError>)
    requires i < |w| == |p| && IsPermutation(p, |p|)
    ensures r.Ok? ==> |r.value.0| == |w|
    ensures var end := WindowEnd(|w|, i, bandwidth);
      (r.Err? <==> (Abs(Entry(w, i, i)) < ABS_TOL && Improvable(w, i, end)
                    && forall k :: i < k < end ==> Abs(Entry(w, k, i)) < ABS_TOL))
    ensures var end := WindowEnd(|w|, i, bandwidth);
      r.Ok? && (Abs(Entry(w, i, i)) >= ABS_TOL || !Improvable(w, i, end)) ==> r.value == (w, p)
    ensures var end := WindowEnd(|w|, i, bandwidth);
      r.Ok? && Abs(Entry(w, i, i)) < ABS_TOL && Improvable(w, i, end) ==>
        Abs(Entry(r.value.0, i, i)) >= ABS_TOL && IsPermutation(r.value.1, |p|)
        && exists k :: i < k < end && SwappedWith(w, p, i, end, k, r.value.0, r.value.1)
  {
    var end := WindowEnd(|w|, i, bandwidth);
    var pivot := Entry(w, i, i);
    if Abs(pivot) < ABS_TOL {
      var maxRow := SearchPivot(w, i, end);
      if maxRow != i {
        var w' := SquareMatrix.Swap(w, i, maxRow);
        SquareMatrix.SwapPermutation(p, i, maxRow);
        var p' := SquareMatrix.Swap(p, i, maxRow);
        pivot := Entry(w', i, i);
        if Abs(pivot) < ABS_TOL {
          return Err(SquareMatrix.Singular);
        }
        assert SwappedWith(w, p, i, end, maxRow, w', p');
        return Ok((w', p'));
      }
    }
    return Ok((w, p));
  }

  /** The pivot step with the check `solve_lu_banded_new` makes: after the
      search, any pivot still below the tolerance is `Singular`. */
  method PivotStep(w: seq<map<nat, real>>, p: seq<nat>, i: nat, bandwidth: nat)
    returns (r: Result<(seq<map<nat, real>>, seq<nat>), SquareMatrix.SquareMatrixError>)
    requires i < |w| == |p| && IsPermutation(p, |p|)
    ensures r.Err? <==> forall k :: i <= k < WindowEnd(|w|, i, bandwidth) ==> Abs(Entry(w, k, i)) < ABS_TOL
    ensures r.Ok? ==> |r.value.0| == |w|
    ensures r.Ok? ==> Abs(Entry(r.value.0, i, i)) >= ABS_TOL
    ensures var end := WindowEnd(|w|, i, bandwidth);
      r.Ok? && Abs(Entry(w, i, i)) >= ABS_TOL ==> r.value == (w, p)
    ensures var end := WindowEnd(|w|, i, bandwidth);
      r.Ok? && Abs(Entry(w, i, i)) < ABS_TOL ==>
        IsPermutation(r.value.1, |p|) && exists k :: i < k < end && SwappedWith(w, p, i, end, k, r.value.0, r.value.1)
  {
    var end := WindowEnd(|w|, i, bandwidth);
    var w', p' := w, p;
    if Abs(Entry(w, i, i)) < ABS_TOL {
      var maxRow := SearchPivot(w, i, end);
      if maxRow != i {
        w' := SquareMatrix.Swap(w, i, maxRow);
        SquareMatrix.SwapPermutation(p, i, maxRow);
        p' := SquareMatrix.Swap(p, i, maxRow);
        assert SwappedWith(w, p, i, end, maxRow, w', p');
      }
      if Abs(Entry(w', i, i)) < ABS_TOL {
        return Err(SquareMatrix.Singular);
      }
    }
    return Ok((w', p'));
  }

  /** The one-row zero matrix: the step as written goes on with the zero
      pivot, while the checked step reports `Singular`. */
  method ZeroPivotCounterexample() returns (asWritten: Result<(seq<map<nat, real>>, seq<nat>), SquareMatrix.SquareMatrixError>,
                                            corrected: Result<(seq<map<nat, real>>, seq<nat>), SquareMatrix.SquareMatrixError>)
    ensures asWritten.Ok? && |asWritten.value.0| == 1 && Entry(asWritten.value.0, 0, 0) == 0.0
    ensures corrected.Err?
  {
    var w: seq<map<nat, real>> := [map[]];
    assert 0 in [0 as nat];
    assert Entry(w, 0, 0) == 0.0;
    assert WindowEnd(1, 0, 0) == 1;
    asWritten := PivotStepAsWritten(w, [0], 0, 0);
    corrected := PivotStep(w, [0], 0, 0);
    assert Abs(Entry(w, 0, 0)) < ABS_TOL;
  }
}
