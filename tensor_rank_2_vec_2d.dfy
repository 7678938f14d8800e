/** `TensorRank2Vec2D`: a `len`-by-`len` grid of `D`-by-`D` rank-2 tensors,
    the node-by-node blocks of a Hessian. Block `[a][b]` covers rows
    `D * a .. D * a + D` and columns `D * b .. D * b + D` of the square
    matrix it expands to. */
module TensorRank2Vec2D {
  import opened Base

  /** `len` rows of `len` blocks, each `d` by `d`. The grid is square because
      every constructor of the type builds it so; `fill_into` and `retain_from`
      themselves iterate over whatever rows they are given. */
  predicate Shaped(t: seq<seq<Matrix>>, d: nat) {
    forall a :: 0 <= a < |t| ==> |t[a]| == |t| && BlockRow(t[a], d)
  }

  /** Every block of the row is `d` by `d`. */
  predicate BlockRow(row: seq<Matrix>, d: nat) {
    forall b :: 0 <= b < |row| ==> |row[b]| == d && forall i :: 0 <= i < d ==> |row[b][i]| == d
  }

  /** `zero(len)`: `len` rows of `len` zero blocks. */
  function Zero(len: nat, d: nat): (t: seq<seq<Matrix>>)
    ensures Shaped(t, d) && |t| == len
    ensures forall a, b :: 0 <= a < len && 0 <= b < len ==> t[a][b] == ZeroMatrix(d)
  {
    seq(len, _ => seq(len, _ => ZeroMatrix(d)))
  }

  // Flattening into a plain list

  /** The blocks row by row, each block row by row: `a`, `b`, `i`, `j`. */
  function Flatten(t: seq<seq<Matrix>>): seq<real> {
    Concat(seq(|t|, a requires 0 <= a < |t| => FlattenRow(t[a])))
  }

  /** One row of blocks, block by block. */
  function FlattenRow(row: seq<Matrix>): seq<real> {
    Concat(seq(|row|, b requires 0 <= b < |row| => Concat(row[b])))
  }

  /** Where entry `[a][b][i][j]` lands when flattened: `((a * len + b) * D + i) * D + j`
      (`PositionIsProduct`). */
  function Position(len: nat, d: nat, a: nat, b: nat, i: nat, j: nat): nat {
    Flat(Offset(Offset(d, d), len), a, Flat(Offset(d, d), b, Flat(d, i, j)))
  }

  lemma {:induction false} PositionIsProduct(len: nat, d: nat, a: nat, b: nat, i: nat, j: nat)
    ensures Position(len, d, a, b, i, j) == ((a * len + b) * d + i) * d + j
  {
    PositionExpanded(len, d, a, b, i, j);
    Regroup(len, d, a, b, i, j);
  }

  lemma {:induction false} PositionExpanded(len: nat, d: nat, a: nat, b: nat, i: nat, j: nat)
    ensures Position(len, d, a, b, i, j) == d * d * len * a + d * d * b + d * i + j
  {
    OffsetIsProduct(d, d);
    OffsetIsProduct(d * d, len);
    OffsetIsProduct(d * d * len, a);
    OffsetIsProduct(d * d, b);
    OffsetIsProduct(d, i);
  }

  lemma {:induction false} Regroup(len: int, d: int, a: int, b: int, i: int, j: int)
    ensures d * d * len * a + d * d * b + d * i + j == ((a * len + b) * d + i) * d + j
  {
    var dd := d * d;
    var x := a * len + b;
    Distribute(x * d, i, d);
    Associate(x, d, d);
    Distribute(a * len, b, dd);
    Associate(a, len, dd);
    assert dd * len == len * dd;
    assert (len * dd) * a == a * (len * dd);
  }

  lemma {:induction false} Distribute(x: int, y: int, z: int)
    ensures (x + y) * z == x * z + y * z
  {
  }

  lemma {:induction false} Associate(x: int, y: int, z: int)
    ensures x * y * z == x * (y * z)
  {
  }

  /** One row of blocks flattens to `len * D * D` entries with block `b` at
      offset `b * D * D`. */
  lemma {:induction false} FlattenRowIndex(row: seq<Matrix>, d: nat, b: nat, i: nat, j: nat)
    requires BlockRow(row, d)
    requires b < |row| && i < d && j < d
    ensures var r := FlattenRow(row);
            |r| == Offset(Offset(d, d), |row|)
            && Flat(Offset(d, d), b, Flat(d, i, j)) < |r|
            && r[Flat(Offset(d, d), b, Flat(d, i, j))] == row[b][i][j]
  {
    var blocks := seq(|row|, c requires 0 <= c < |row| => Concat(row[c]));
    forall c | 0 <= c < |row|
      ensures |blocks[c]| == Offset(d, d)
    {
      ConcatLength(row[c], d);
    }
    ConcatIndex(row[b], d, i, j);
    OffsetMonotone(d, i, d);
    ConcatIndex(blocks, Offset(d, d), b, Flat(d, i, j));
  }

  /** Flattening gives `len * len * D * D` entries in `a`, `b`, `i`, `j` order. */
  lemma {:induction false} FlattenIndex(t: seq<seq<Matrix>>, d: nat, a: nat, b: nat, i: nat, j: nat)
    requires Shaped(t, d) && a < |t| && b < |t| && i < d && j < d
    ensures |Flatten(t)| == Offset(Offset(Offset(d, d), |t|), |t|)
    ensures Position(|t|, d, a, b, i, j) < |Flatten(t)|
    ensures Flatten(t)[Position(|t|, d, a, b, i, j)] == t[a][b][i][j]
  {
    var rows := seq(|t|, a requires 0 <= a < |t| => FlattenRow(t[a]));
    forall c | 0 <= c < |t|
      ensures |rows[c]| == Offset(Offset(d, d), |t|)
    {
      FlattenRowIndex(t[c], d, 0, 0, 0);
    }
    var x := Flat(Offset(d, d), b, Flat(d, i, j));
    FlattenRowIndex(t[a], d, b, i, j);
    ConcatIndex(rows, Offset(Offset(d, d), |t|), a, x);
    assert Flatten(t) == Concat(rows);
    assert Position(|t|, d, a, b, i, j) == Offset(Offset(Offset(d, d), |t|), a) + x;
    assert rows[a][x] == t[a][b][i][j];
  }

  // Expanding into a square matrix

  /** Row `i` of every block in one row of blocks, side by side. */
  function BlockRows(row: seq<Matrix>, d: nat): (rows: Matrix)
    requires BlockRow(row, d)
    ensures |rows| == d && forall i :: 0 <= i < d ==> |rows[i]| == Offset(d, |row|)
  {
    var rows := seq(d, i requires 0 <= i < d => Concat(seq(|row|, b requires 0 <= b < |row| => row[b][i])));
    forall i | 0 <= i < d
      ensures |rows[i]| == Offset(d, |row|)
    {
      ConcatLength(seq(|row|, b requires 0 <= b < |row| => row[b][i]), d);
    }
    rows
  }

  /** `SquareMatrix::from`: the `len * D`-square matrix made of the blocks. */
  function Expanded(t: seq<seq<Matrix>>, d: nat): (e: Matrix)
    requires Shaped(t, d)
    ensures IsSquare(e, Offset(d, |t|))
  {
    var groups := seq(|t|, a requires 0 <= a < |t| => BlockRows(t[a], d));
    ConcatLength(groups, d);
    forall p | 0 <= p < Offset(d, |t|)
      ensures |Concat(groups)[p]| == Offset(d, |t|)
    {
      OffsetBelow(d, |t|, p);
      ConcatIndex(groups, d, p / d, p % d);
    }
    Concat(groups)
  }

  /** Block `[a][b]` of `m` holds the entries of `t[a][b]`. */
  predicate BlockAt(m: Matrix, t: seq<seq<Matrix>>, d: nat, a: nat, b: nat)
    requires Shaped(t, d) && a < |t| && b < |t|
  {
    forall i: nat :: i < d ==> Flat(d, a, i) < |m| && RowAt(m[Flat(d, a, i)], t[a][b][i], d, b)
  }

  /** Columns `D * b .. D * b + D` of a matrix row hold `row`. */
  predicate RowAt(mrow: seq<real>, row: seq<real>, d: nat, b: nat)
    requires |row| == d
  {
    forall j: nat :: j < d ==> Flat(d, b, j) < |mrow| && mrow[Flat(d, b, j)] == row[j]
  }

  /** Entry `[D * a + i][D * b + j]` of the expansion is entry `[i][j]` of
      block `[a][b]`. */
  lemma {:induction false} ExpandedEntry(t: seq<seq<Matrix>>, d: nat, a: nat, b: nat, i: nat, j: nat)
    requires Shaped(t, d) && a < |t| && b < |t| && i < d && j < d
    ensures Flat(d, a, i) < Offset(d, |t|) && Flat(d, b, j) < Offset(d, |t|)
    ensures Expanded(t, d)[Flat(d, a, i)][Flat(d, b, j)] == t[a][b][i][j]
  {
    var n := |t|;
    var groups := seq(n, c requires 0 <= c < n => BlockRows(t[c], d));
    ConcatIndex(groups, d, a, i);
    ConcatIndex(seq(n, c requires 0 <= c < n => t[a][c][i]), d, b, j);
  }

  /** Every block of the expansion is in place. */
  lemma {:induction false} ExpandedBlocks(t: seq<seq<Matrix>>, d: nat)
    requires Shaped(t, d)
    ensures forall a: nat, b: nat :: a < |t| && b < |t| ==> BlockAt(Expanded(t, d), t, d, a, b)
  {
    forall a: nat, b: nat | a < |t| && b < |t|
      ensures BlockAt(Expanded(t, d), t, d, a, b)
    {
      forall i: nat | i < d
        ensures Flat(d, a, i) < |Expanded(t, d)| && RowAt(Expanded(t, d)[Flat(d, a, i)], t[a][b][i], d, b)
      {
        ExpandedEntry(t, d, a, b, i, 0);
        forall j: nat | j < d
          ensures Flat(d, b, j) < |Expanded(t, d)[Flat(d, a, i)]| && Expanded(t, d)[Flat(d, a, i)][Flat(d, b, j)] == t[a][b][i][j]
        {
          ExpandedEntry(t, d, a, b, i, j);
        }
      }
    }
  }

  /** A square matrix of side `len * D` with every block in place is the
      expansion. */
  lemma {:induction false} ExpandedUnique(m: Matrix, t: seq<seq<Matrix>>, d: nat)
    requires Shaped(t, d) && IsSquare(m, Offset(d, |t|))
    requires forall a: nat, b: nat :: a < |t| && b < |t| ==> BlockAt(m, t, d, a, b)
    ensures m == Expanded(t, d)
  {
    var e := Expanded(t, d);
    forall p | 0 <= p < Offset(d, |t|)
      ensures m[p] == e[p]
    {
      forall q | 0 <= q < Offset(d, |t|)
        ensures m[p][q] == e[p][q]
      {
        SameEntry(m, t, d, p, q);
      }
    }
  }

  lemma {:induction false} SameEntry(m: Matrix, t: seq<seq<Matrix>>, d: nat, p: nat, q: nat)
    requires Shaped(t, d) && IsSquare(m, Offset(d, |t|)) && p < Offset(d, |t|) && q < Offset(d, |t|)
    requires forall a: nat, b: nat :: a < |t| && b < |t| ==> BlockAt(m, t, d, a, b)
    ensures m[p][q] == Expanded(t, d)[p][q]
  {
    OffsetBelow(d, |t|, p);
    OffsetBelow(d, |t|, q);
    var a, i, b, j := p / d, p % d, q / d, q % d;
    assert BlockAt(m, t, d, a, b);
    assert Flat(d, a, i) == p && Flat(d, b, j) == q;
    assert RowAt(m[p], t[a][b][i], d, b);
    ExpandedEntry(t, d, a, b, i, j);
  }

  /** Zero blocks expand to the zero matrix. */
  lemma {:induction false} ZeroExpanded(len: nat, d: nat)
    ensures Expanded(Zero(len, d), d) == ZeroMatrix(Offset(d, len))
  {
    var t := Zero(len, d);
    var z := ZeroMatrix(Offset(d, len));
    forall a: nat, b: nat | a < len && b < len
      ensures BlockAt(z, t, d, a, b)
    {
      OffsetMonotone(d, a, len);
      OffsetMonotone(d, b, len);
      forall i: nat | i < d
        ensures Flat(d, a, i) < |z| && RowAt(z[Flat(d, a, i)], t[a][b][i], d, b)
      {
      }
    }
    ExpandedUnique(z, t, d);
  }

  /** Zero blocks flatten to zeros. */
  lemma {:induction false} ZeroFlattened(len: nat, d: nat)
    ensures forall k :: 0 <= k < |Flatten(Zero(len, d))| ==> Flatten(Zero(len, d))[k] == 0.0
  {
    var t := Zero(len, d);
    var rows := seq(len, a requires 0 <= a < len => FlattenRow(t[a]));
    forall a | 0 <= a < len
      ensures AllZero(rows[a])
    {
      var blocks := seq(|t[a]|, b requires 0 <= b < |t[a]| => Concat(t[a][b]));
      forall b | 0 <= b < len
        ensures AllZero(blocks[b])
      {
        ConcatAllZero(t[a][b]);
      }
      ConcatAllZero(blocks);
    }
    ConcatAllZero(rows);
  }

  predicate AllZero(s: seq<real>) {
    forall k :: 0 <= k < |s| ==> s[k] == 0.0
  }

  lemma {:induction false} ConcatAllZero(s: seq<seq<real>>)
    requires forall x :: 0 <= x < |s| ==> AllZero(s[x])
    ensures AllZero(Concat(s))
  {
    if |s| > 0 {
      ConcatAllZero(s[..|s| - 1]);
    }
  }

  // Writing into a square matrix

  /** Whether `[p][q]` lies in the `h`-by-`w` block whose corner is
      `[row0][col0]`. */
  predicate InBlock(row0: nat, col0: nat, h: nat, w: nat, p: nat, q: nat) {
    row0 <= p < row0 + h && col0 <= q < col0 + w
  }

  /** One block: entry `[row0 + i][col0 + j]` becomes `block[i][j]`; the
      rest of the matrix is kept. */
  method PlaceBlock(square: Matrix, row0: nat, col0: nat, block: Matrix, d: nat) returns (r: Matrix)
    requires IsSquare(block, d) && IsSquare(square, |square|)
    requires row0 + d <= |square| && col0 + d <= |square|
    ensures IsSquare(r, |square|)
    ensures forall i, j :: 0 <= i < d && 0 <= j < d ==> r[row0 + i][col0 + j] == block[i][j]
    ensures forall p: nat, q: nat :: p < |square| && q < |square| && !InBlock(row0, col0, d, d, p, q) ==> r[p][q] == square[p][q]
  {
    r := square;
    var i := 0;
    while i < d
      invariant 0 <= i <= d && IsSquare(r, |square|)
      invariant forall i', j :: 0 <= i' < i && 0 <= j < d ==> r[row0 + i'][col0 + j] == block[i'][j]
      invariant forall p: nat, q: nat :: p < |square| && q < |square| && !InBlock(row0, col0, i, d, p, q) ==> r[p][q] == square[p][q]
    {
      var row := r[row0 + i];
      var j := 0;
      while j < d
        invariant 0 <= j <= d && |row| == |square|
        invariant forall j' :: 0 <= j' < j ==> row[col0 + j'] == block[i][j']
        invariant forall q :: 0 <= q < |square| && !(col0 <= q < col0 + j) ==> row[q] == r[row0 + i][q]
      {
        row := row[col0 + j := block[i][j]];
        j := j + 1;
      }
      r := r[row0 + i := row];
      i := i + 1;
    }
  }

  /** Rewriting block `[a][b]` keeps every other block in place. */
  lemma {:induction false} PlaceKeeps(r: Matrix, r': Matrix, t: seq<seq<Matrix>>, d: nat, a: nat, b: nat, a': nat, b': nat)
    requires Shaped(t, d) && a < |t| && b < |t| && a' < |t| && b' < |t| && (a' != a || b' != b)
    requires IsSquare(r, |r|) && IsSquare(r', |r|)
    requires forall p: nat, q: nat :: p < |r| && q < |r| && !InBlock(Offset(d, a), Offset(d, b), d, d, p, q) ==> r'[p][q] == r[p][q]
    requires BlockAt(r, t, d, a', b')
    ensures BlockAt(r', t, d, a', b')
  {
    forall i: nat | i < d
      ensures Flat(d, a', i) < |r'| && RowAt(r'[Flat(d, a', i)], t[a'][b'][i], d, b')
    {
      var p := Flat(d, a', i);
      assert p < |r| && RowAt(r[p], t[a'][b'][i], d, b');
      forall j: nat | j < d
        ensures Flat(d, b', j) < |r'[p]| && r'[p][Flat(d, b', j)] == t[a'][b'][i][j]
      {
        var q := Flat(d, b', j);
        assert q < |r| && r[p][q] == t[a'][b'][i][j];
        if InBlock(Offset(d, a), Offset(d, b), d, d, p, q) {
          OffsetUnique(d, a', i, a, p - Offset(d, a));
          OffsetUnique(d, b', j, b, q - Offset(d, b));
          assert false;
        }
      }
    }
  }

  /** The block just written is in place. */
  lemma {:induction false} Placed(r: Matrix, t: seq<seq<Matrix>>, d: nat, a: nat, b: nat)
    requires Shaped(t, d) && a < |t| && b < |t| && IsSquare(r, |r|)
    requires Offset(d, a) + d <= |r| && Offset(d, b) + d <= |r|
    requires forall i, j :: 0 <= i < d && 0 <= j < d ==> r[Offset(d, a) + i][Offset(d, b) + j] == t[a][b][i][j]
    ensures BlockAt(r, t, d, a, b)
  {
    forall i: nat | i < d
      ensures Flat(d, a, i) < |r| && RowAt(r[Flat(d, a, i)], t[a][b][i], d, b)
    {
      forall j: nat | j < d
        ensures Flat(d, b, j) < |r[Flat(d, a, i)]| && r[Flat(d, a, i)][Flat(d, b, j)] == t[a][b][i][j]
      {
      }
    }
  }

  /** `Hessian::fill_into`: entry `[D * a + i][D * b + j]` of the square
      matrix becomes entry `[i][j]` of block `[a][b]`; the rest is kept. */
  method FillInto(t: seq<seq<Matrix>>, d: nat, square: Matrix) returns (r: Matrix)
    requires Shaped(t, d) && IsSquare(square, |square|) && Offset(d, |t|) <= |square|
    ensures IsSquare(r, |square|)
    ensures forall a: nat, b: nat :: a < |t| && b < |t| ==> BlockAt(r, t, d, a, b)
    ensures forall p: nat, q: nat :: p < |square| && q < |square| && (Offset(d, |t|) <= p || Offset(d, |t|) <= q) ==> r[p][q] == square[p][q]
  {
    var n := |t|;
    r := square;
    var a := 0;
    while a < n
      invariant 0 <= a <= n && IsSquare(r, |square|)
      invariant forall a': nat, b': nat :: a' < a && b' < n ==> BlockAt(r, t, d, a', b')
      invariant forall p: nat, q: nat :: p < |square| && q < |square| && (Offset(d, n) <= p || Offset(d, n) <= q) ==> r[p][q] == square[p][q]
    {
      OffsetMonotone(d, a, n);
      var b := 0;
      while b < n
        invariant 0 <= b <= n && IsSquare(r, |square|)
        invariant forall a': nat, b': nat :: a' < n && b' < n && (a' < a || (a' == a && b' < b)) ==> BlockAt(r, t, d, a', b')
        invariant forall p: nat, q: nat :: p < |square| && q < |square| && (Offset(d, n) <= p || Offset(d, n) <= q) ==> r[p][q] == square[p][q]
      {
        OffsetMonotone(d, b, n);
        var r' := PlaceBlock(r, Offset(d, a), Offset(d, b), t[a][b], d);
        forall a': nat, b': nat | a' < n && b' < n && (a' < a || (a' == a && b' < b))
          ensures BlockAt(r', t, d, a', b')
        {
          PlaceKeeps(r, r', t, d, a, b, a', b');
        }
        Placed(r', t, d, a, b);
        r := r';
        b := b + 1;
      }
      a := a + 1;
    }
  }

  /** `SquareMatrix::from`: the blocks filled into a zero matrix of side
      `len * D` give the expansion. */
  method SquareMatrixFrom(t: seq<seq<Matrix>>, d: nat) returns (m: Matrix)
    requires Shaped(t, d)
    ensures m == Expanded(t, d)
  {
    m := FillInto(t, d, ZeroMatrix(Offset(d, |t|)));
    ExpandedUnique(m, t, d);
  }

  // Keeping the retained rows and columns

  /** `Hessian::retain_from`: the rows of the expansion whose flag is raised,
      each cut down to the columns whose flag is raised; rows, columns and
      flags are zipped, so the shorter bounds the walk. The result is the
      square submatrix on the retained indices. */
  function RetainFrom(t: seq<seq<Matrix>>, d: nat, retained: seq<bool>): (r: Matrix)
    requires Shaped(t, d)
    ensures var m := if Offset(d, |t|) < |retained| then Offset(d, |t|) else |retained|;
            var ks := Kept(retained[..m]);
            IsSquare(r, |ks|) && |ks| == CountTrue(retained[..m])
            && forall p, q :: 0 <= p < |ks| && 0 <= q < |ks| ==> r[p][q] == Expanded(t, d)[ks[p]][ks[q]]
  {
    var e := Expanded(t, d);
    ExpandedBlocks(t, d);
    RetainSquare(e, retained);
    Retain(seq(|e|, p requires 0 <= p < |e| => Retain(e[p], retained)), retained)
  }

  lemma {:induction false} RetainSquare(e: Matrix, retained: seq<bool>)
    requires IsSquare(e, |e|)
    ensures var m := if |e| < |retained| then |e| else |retained|;
            var ks := Kept(retained[..m]);
            var r := Retain(seq(|e|, p requires 0 <= p < |e| => Retain(e[p], retained)), retained);
            IsSquare(r, |ks|) && forall p, q :: 0 <= p < |ks| && 0 <= q < |ks| ==> r[p][q] == e[ks[p]][ks[q]]
  {
    var rows := seq(|e|, p requires 0 <= p < |e| => Retain(e[p], retained));
    RetainZipped(rows, retained);
    forall p | 0 <= p < |e|
      ensures rows[p] == Pick(e[p], Kept(retained[..if |e| < |retained| then |e| else |retained|]))
    {
      RetainZipped(e[p], retained);
    }
  }
}
