/** The sparsity structure a block of mechanical finite elements hands to
    the banded linear solver: which pairs of degrees of freedom are coupled,
    three per node, after the equality constraints are applied. */
module Band {
  import opened Base
  import opened Block
  import opened Assembly
  import SquareMatrix

  /** Nodes `a` and `b` are both named by one element. */
  predicate SharesElement(conn: seq<seq<nat>>, a: nat, b: nat) {
    exists e :: 0 <= e < |conn| && a in conn[e] && b in conn[e]
  }

  /** `structure[a][b]`: `b` is among the nodes of the elements listed for
      `a` (the sorted, deduplicated `neighbors[a]`, of which only membership
      is used). */
  function NodeStructure(conn: seq<seq<nat>>, inverse: seq<seq<nat>>): (s: seq<seq<bool>>)
    requires forall v, d :: 0 <= v < |inverse| && 0 <= d < |inverse[v]| ==> inverse[v][d] < |conn|
    ensures SquareMatrix.IsStructure(s) && |s| == |inverse|
  {
    seq(|inverse|, a requires 0 <= a < |inverse| =>
      seq(|inverse|, b => exists d :: 0 <= d < |inverse[a]| && b in conn[inverse[a][d]]))
  }

  /** With the inverse connectivity, the structure links exactly the nodes
      that share an element, and so it is symmetric. */
  lemma NodeStructureShares(conn: seq<seq<nat>>, inverse: seq<seq<nat>>, n: nat)
    requires |inverse| == n
    requires forall v, d :: 0 <= v < n && 0 <= d < |inverse[v]| ==> inverse[v][d] < |conn| && v in conn[inverse[v][d]]
    requires forall v, e :: 0 <= v < n && 0 <= e < |conn| && v in conn[e] ==> e in inverse[v]
    ensures forall a, b :: 0 <= a < n && 0 <= b < n ==>
              (NodeStructure(conn, inverse)[a][b] <==> SharesElement(conn, a, b))
    ensures SquareMatrix.IsSymmetricStructure(NodeStructure(conn, inverse))
  {
    var s := NodeStructure(conn, inverse);
    forall a, b | 0 <= a < n && 0 <= b < n
      ensures s[a][b] <==> SharesElement(conn, a, b)
    {
      if s[a][b] {
        var d :| 0 <= d < |inverse[a]| && b in conn[inverse[a][d]];
      }
      if SharesElement(conn, a, b) {
        var e :| 0 <= e < |conn| && a in conn[e] && b in conn[e];
        assert e in inverse[a];
        var d :| 0 <= d < |inverse[a]| && inverse[a][d] == e;
      }
    }
  }

  /** Each node's entry repeated over its three coordinates, in both
      directions. */
  function Structure3D(s: seq<seq<bool>>): (s3: seq<seq<bool>>)
    requires SquareMatrix.IsStructure(s)
    ensures |s3| == 3 * |s| && SquareMatrix.IsStructure(s3)
    ensures forall r, c :: 0 <= r < 3 * |s| && 0 <= c < 3 * |s| ==> s3[r][c] == s[r / 3][c / 3]
  {
    seq(3 * |s|, r requires 0 <= r < 3 * |s| =>
      seq(3 * |s|, c requires 0 <= c < 3 * |s| => s[r / 3][c / 3]))
  }

  // Fixed degrees of freedom

  /** The flags of `keep`: every index not listed. */
  function Retained(indices: seq<nat>, len: nat): (keep: seq<bool>)
    ensures |keep| == len && forall i :: 0 <= i < len ==> (keep[i] <==> i !in indices)
  {
    seq(len, i => i !in indices)
  }

  /** `keep`: all true, then each listed index set to false. */
  method KeepMask(indices: seq<nat>, len: nat) returns (keep: seq<bool>)
    requires forall t :: 0 <= t < |indices| ==> indices[t] < len
    ensures keep == Retained(indices, len)
  {
    keep := seq(len, _ => true);
    var t := 0;
    while t < |indices|
      invariant 0 <= t <= |indices| && |keep| == len
      invariant forall i :: 0 <= i < len ==> (keep[i] <==> i !in indices[..t])
    {
      assert indices[..t + 1] == indices[..t] + [indices[t]];
      keep := keep[indices[t] := false];
      t := t + 1;
    }
    assert indices[..t] == indices;
  }

  /** The rows and then the columns whose flag is raised. */
  function Filter(s3: seq<seq<bool>>, keep: seq<bool>): seq<seq<bool>> {
    Retain(seq(|s3|, r requires 0 <= r < |s3| => Retain(s3[r], keep)), keep)
  }

  /** The filtered structure is the submatrix on the kept indices, so it is
      square, and symmetric when the full one is. */
  lemma FilterEntries(s3: seq<seq<bool>>, keep: seq<bool>)
    requires SquareMatrix.IsStructure(s3) && |keep| == |s3|
    ensures |Filter(s3, keep)| == CountTrue(keep)
    ensures SquareMatrix.IsStructure(Filter(s3, keep))
    ensures forall i, j :: 0 <= i < CountTrue(keep) && 0 <= j < CountTrue(keep) ==>
              Filter(s3, keep)[i][j] == s3[Kept(keep)[i]][Kept(keep)[j]]
    ensures SquareMatrix.IsSymmetricStructure(s3) ==> SquareMatrix.IsSymmetricStructure(Filter(s3, keep))
  {
    var rows := seq(|s3|, r requires 0 <= r < |s3| => Retain(s3[r], keep));
    assert keep[..|s3|] == keep;
    RetainKept(rows, keep);
    forall r | 0 <= r < |s3|
      ensures rows[r] == Pick(s3[r], Kept(keep))
    {
      RetainKept(s3[r], keep);
    }
  }

  // Linear constraints

  /** Every row of `matrix` has `width` entries. */
  predicate HasWidth(matrix: Matrix, width: nat) {
    forall i :: 0 <= i < |matrix| ==> |matrix[i]| == width
  }

  /** Every row has as many entries as the first. */
  predicate IsRectangular(matrix: Matrix) {
    |matrix| == 0 || HasWidth(matrix, |matrix[0]|)
  }

  /** The number of nonzero entries among `row[..j]`. */
  function NonzerosIn(row: seq<real>, j: nat): (k: nat)
    requires j <= |row|
    ensures k <= j
  {
    if j == 0 then 0 else NonzerosIn(row, j - 1) + (if row[j - 1] != 0.0 then 1 else 0)
  }

  /** The number of nonzero entries in the first `i` rows. */
  function Nonzeros(matrix: Matrix, i: nat): nat
    requires i <= |matrix|
  {
    if i == 0 then 0 else Nonzeros(matrix, i - 1) + NonzerosIn(matrix[i - 1], |matrix[i - 1]|)
  }

  /** The structure in the leading block of a `size`×`size` structure,
      false elsewhere. */
  function Embed(s3: seq<seq<bool>>, size: nat): (b: seq<seq<bool>>)
    requires SquareMatrix.IsStructure(s3) && |s3| <= size
    ensures |b| == size && SquareMatrix.IsStructure(b)
    ensures forall u, w {:trigger b[u][w]} :: 0 <= u < size && 0 <= w < size ==>
              b[u][w] == (u < |s3| && w < |s3| && s3[u][w])
  {
    seq(size, u requires 0 <= u < size =>
      seq(size, w requires 0 <= w < size => u < |s3| && w < |s3| && s3[u][w]))
  }

  /** Entries `[x][y]` and `[y][x]` set. */
  function Link(b: seq<seq<bool>>, x: nat, y: nat): (b': seq<seq<bool>>)
    requires SquareMatrix.IsStructure(b) && x < |b| && y < |b|
    ensures |b'| == |b| && SquareMatrix.IsStructure(b')
  {
    var b1 := b[x := b[x][y := true]];
    b1[y := b1[y][x := true]]
  }

  /** Linking sets `[x][y]` and `[y][x]` and nothing else. */
  lemma LinkEntry(b: seq<seq<bool>>, x: nat, y: nat, u: nat, w: nat)
    requires SquareMatrix.IsStructure(b) && x < |b| && y < |b| && u < |b| && w < |b|
    ensures Link(b, x, y)[u][w] == (b[u][w] || (u == x && w == y) || (u == y && w == x))
  {
  }

  /** Row `x` linked with every column `w < j` whose entry `row[w]` is
      nonzero. */
  function RowLinks(b: seq<seq<bool>>, x: nat, row: seq<real>, j: nat): (r: seq<seq<bool>>)
    requires SquareMatrix.IsStructure(b) && x < |b| && j <= |row| <= |b|
    ensures |r| == |b| && SquareMatrix.IsStructure(r)
  {
    if j == 0 then b
    else
      var before := RowLinks(b, x, row, j - 1);
      if row[j - 1] != 0.0 then Link(before, x, j - 1) else before
  }

  lemma {:induction false} RowLinksEntry(b: seq<seq<bool>>, x: nat, row: seq<real>, j: nat, u: nat, w: nat)
    requires SquareMatrix.IsStructure(b) && x < |b| && j <= |row| <= |b| && u < |b| && w < |b|
    ensures RowLinks(b, x, row, j)[u][w] <==>
              b[u][w] || (u == x && w < j && row[w] != 0.0) || (w == x && u < j && row[u] != 0.0)
  {
    if j > 0 {
      RowLinksEntry(b, x, row, j - 1, u, w);
      LinkEntry(RowLinks(b, x, row, j - 1), x, j - 1, u, w);
    }
  }

  /** As intended: each of the first `i` constraint rows `k` linked at row
      `numCoords + k`, the row the constrained solvers give to that
      constraint's multiplier. */
  function ConstraintLinks(b: seq<seq<bool>>, numCoords: nat, matrix: Matrix, i: nat): (r: seq<seq<bool>>)
    requires SquareMatrix.IsStructure(b) && |b| == |matrix| + numCoords && HasWidth(matrix, numCoords)
    requires i <= |matrix|
    ensures |r| == |b| && SquareMatrix.IsStructure(r)
  {
    if i == 0 then b
    else RowLinks(ConstraintLinks(b, numCoords, matrix, i - 1), numCoords + i - 1, matrix[i - 1], numCoords)
  }

  /** An entry is linked exactly when it was already set or it pairs a
      constraint's row with a coordinate of nonzero coefficient, in either
      order. */
  lemma {:induction false} ConstraintLinksEntry(b: seq<seq<bool>>, numCoords: nat, matrix: Matrix, i: nat,
                                                u: nat, w: nat)
    requires SquareMatrix.IsStructure(b) && |b| == |matrix| + numCoords && HasWidth(matrix, numCoords)
    requires i <= |matrix| && u < |b| && w < |b|
    ensures ConstraintLinks(b, numCoords, matrix, i)[u][w] <==>
              b[u][w]
              || (numCoords <= u < numCoords + i && w < numCoords && matrix[u - numCoords][w] != 0.0)
              || (numCoords <= w < numCoords + i && u < numCoords && matrix[w - numCoords][u] != 0.0)
  {
    if i > 0 {
      ConstraintLinksEntry(b, numCoords, matrix, i - 1, u, w);
      RowLinksEntry(ConstraintLinks(b, numCoords, matrix, i - 1), numCoords + i - 1, matrix[i - 1], numCoords, u, w);
    }
  }

  /** The state of the as-written loop: the structure so far and the row
      the next nonzero entry goes to. */
  datatype Linking = Linking(structure: seq<seq<bool>>, index: nat)

  predicate Fits(s: Linking, width: nat) {
    SquareMatrix.IsStructure(s.structure) && width <= |s.structure| && s.index <= |s.structure|
  }

  /** As written, over `row[..j]`: each nonzero entry is linked at row
      `index`, and `index` moves on; an `index` past the end is an
      out-of-bounds access. It succeeds exactly when the nonzero entries fit
      below the end, and `index` then moves on by their number. */
  function RowLinksAsWritten(s: Result<Linking, BandError>, row: seq<real>, j: nat): (r: Result<Linking, BandError>)
    requires j <= |row| && (s.Ok? ==> Fits(s.value, |row|))
    ensures s.Err? ==> r == s
    ensures s.Ok? ==> (r.Ok? <==> s.value.index + NonzerosIn(row, j) <= |s.value.structure|)
    ensures r.Err? ==> r.error == IndexOutOfBounds || r == s
    ensures r.Ok? ==> s.Ok? && r.value.index == s.value.index + NonzerosIn(row, j)
                      && |r.value.structure| == |s.value.structure| && Fits(r.value, |row|)
  {
    if j == 0 then s
    else
      var before := RowLinksAsWritten(s, row, j - 1);
      if before.Err? || row[j - 1] == 0.0 then before
      else if before.value.index >= |before.value.structure| then Err(IndexOutOfBounds)
      else Ok(Linking(Link(before.value.structure, before.value.index, j - 1), before.value.index + 1))
  }

  /** As written, over the first `i` rows, the index running on from row to
      row. */
  function LinksAsWritten(s: Linking, matrix: Matrix, i: nat): (r: Result<Linking, BandError>)
    requires i <= |matrix| && s.index <= |s.structure|
    requires forall k :: 0 <= k < |matrix| ==> |matrix[k]| <= |s.structure|
    requires SquareMatrix.IsStructure(s.structure)
    ensures r.Ok? <==> s.index + Nonzeros(matrix, i) <= |s.structure|
    ensures r.Err? ==> r.error == IndexOutOfBounds
    ensures r.Ok? ==> r.value.index == s.index + Nonzeros(matrix, i)
                      && |r.value.structure| == |s.structure| && SquareMatrix.IsStructure(r.value.structure)
  {
    if i == 0 then Ok(s)
    else RowLinksAsWritten(LinksAsWritten(s, matrix, i - 1), matrix[i - 1], |matrix[i - 1]|)
  }

  datatype BandError = WidthMismatch | IndexOutOfBounds | Structure(error: SquareMatrix.StructureError)

  lemma {:induction false} NonzerosInMonotone(row: seq<real>, j: nat, k: nat)
    requires j <= k <= |row|
    ensures NonzerosIn(row, j) <= NonzerosIn(row, k)
  {
    if j < k {
      NonzerosInMonotone(row, j, k - 1);
    }
  }

  lemma {:induction false} NonzerosMonotone(matrix: Matrix, i: nat, k: nat)
    requires i <= k <= |matrix|
    ensures Nonzeros(matrix, i) <= Nonzeros(matrix, k)
  {
    if i < k {
      NonzerosMonotone(matrix, i, k - 1);
    }
  }

  /** `band` for `EqualityConstraint::Linear`, as written: the structure is
      widened by one row and column per constraint, but the row index moves
      on at every nonzero entry rather than at every constraint row, so it
      runs past the end exactly when the matrix has more nonzero entries
      than rows. `matrix.width()` of an empty matrix is an out-of-bounds
      access too. */
  function LinearAsWritten(s3: seq<seq<bool>>, matrix: Matrix): (r: Result<seq<seq<bool>>, BandError>)
    requires SquareMatrix.IsStructure(s3) && IsRectangular(matrix)
    ensures r == Err(WidthMismatch) <==> |matrix| > 0 && |matrix[0]| != |s3|
    ensures r == Err(IndexOutOfBounds) <==>
              |matrix| == 0 || (|matrix[0]| == |s3| && Nonzeros(matrix, |matrix|) > |matrix|)
    ensures r.Ok? ==> |r.value| == |matrix| + |s3| && SquareMatrix.IsStructure(r.value)
  {
    if |matrix| == 0 then Err(IndexOutOfBounds)
    else if |matrix[0]| != |s3| then Err(WidthMismatch)
    else
      var linked := LinksAsWritten(Linking(Embed(s3, |matrix| + |s3|), |s3|), matrix, |matrix|);
      if linked.Ok? then Ok(linked.value.structure) else Err(linked.error)
  }

  /** `band` for `EqualityConstraint::Linear`, as written. */
  method LinearStructureAsWritten(s3: seq<seq<bool>>, matrix: Matrix)
    returns (r: Result<seq<seq<bool>>, BandError>)
    requires SquareMatrix.IsStructure(s3) && IsRectangular(matrix)
    ensures r == LinearAsWritten(s3, matrix)
  {
    if |matrix| == 0 {
      return Err(IndexOutOfBounds);
    }
    var numCoords := |s3|;
    if |matrix[0]| != numCoords {
      return Err(WidthMismatch);
    }
    var banded := Embed(s3, |matrix| + |s3|);
    var linked := LinkRowsAsWritten(banded, numCoords, matrix);
    r := if linked.Ok? then Ok(linked.value.structure) else Err(linked.error);
  }

  /** The loop over the constraint rows, as written: the row index runs on
      from one row to the next. */
  method LinkRowsAsWritten(structure: seq<seq<bool>>, index: nat, matrix: Matrix)
    returns (r: Result<Linking, BandError>)
    requires index <= |structure| && SquareMatrix.IsStructure(structure)
    requires forall k :: 0 <= k < |matrix| ==> |matrix[k]| <= |structure|
    ensures r == LinksAsWritten(Linking(structure, index), matrix, |matrix|)
  {
    ghost var start := Linking(structure, index);
    var banded := structure;
    var next: nat := index;
    var i := 0;
    while i < |matrix|
      invariant 0 <= i <= |matrix| && LinksAsWritten(start, matrix, i) == Ok(Linking(banded, next))
      invariant |banded| == |structure| && SquareMatrix.IsStructure(banded) && next <= |banded|
    {
      var linked := LinkRowAsWritten(banded, next, matrix[i]);
      LinksStep(start, matrix, i, Linking(banded, next));
      if linked.Err? {
        LinksErrPersists(start, matrix, i + 1);
        return Err(IndexOutOfBounds);
      }
      banded, next := linked.value.structure, linked.value.index;
      i := i + 1;
    }
    r := Ok(Linking(banded, next));
  }

  /** The loop's step: row `i` is linked into the state the rows before it
      left. */
  lemma LinksStep(s: Linking, matrix: Matrix, i: nat, t: Linking)
    requires i < |matrix| && s.index <= |s.structure|
    requires forall k :: 0 <= k < |matrix| ==> |matrix[k]| <= |s.structure|
    requires SquareMatrix.IsStructure(s.structure)
    requires LinksAsWritten(s, matrix, i) == Ok(t)
    ensures Fits(t, |matrix[i]|)
    ensures LinksAsWritten(s, matrix, i + 1) == RowLinksAsWritten(Ok(t), matrix[i], |matrix[i]|)
  {
  }

  /** Once a constraint row overruns the structure, so does the whole loop. */
  lemma LinksErrPersists(s: Linking, matrix: Matrix, i: nat)
    requires i <= |matrix| && s.index <= |s.structure|
    requires forall k :: 0 <= k < |matrix| ==> |matrix[k]| <= |s.structure|
    requires SquareMatrix.IsStructure(s.structure)
    requires LinksAsWritten(s, matrix, i).Err?
    ensures LinksAsWritten(s, matrix, |matrix|) == Err(IndexOutOfBounds)
  {
    NonzerosMonotone(matrix, i, |matrix|);
  }

  /** The inner loop over one constraint row, as written. */
  method LinkRowAsWritten(structure: seq<seq<bool>>, index: nat, row: seq<real>)
    returns (r: Result<Linking, BandError>)
    requires Fits(Linking(structure, index), |row|)
    ensures r == RowLinksAsWritten(Ok(Linking(structure, index)), row, |row|)
  {
    ghost var s := Ok(Linking(structure, index));
    var banded := structure;
    var next: nat := index;
    var j := 0;
    while j < |row|
      invariant 0 <= j <= |row| && RowLinksAsWritten(s, row, j) == Ok(Linking(banded, next))
    {
      if row[j] != 0.0 {
        if next >= |banded| {
          assert NonzerosIn(row, j + 1) == NonzerosIn(row, j) + 1;
          NonzerosInMonotone(row, j + 1, |row|);
          return Err(IndexOutOfBounds);
        }
        assert RowLinksAsWritten(s, row, j + 1) == Ok(Linking(Link(banded, next, j), next + 1));
        banded := Link(banded, next, j);
        next := next + 1;
      } else {
        assert RowLinksAsWritten(s, row, j + 1) == Ok(Linking(banded, next));
      }
      j := j + 1;
    }
    r := Ok(Linking(banded, next));
  }

  /** `band` for `EqualityConstraint::Linear` with the row index of
      constraint row `i` fixed at `numCoords + i`: the structure gains
      exactly the entries `[numCoords + i][j]` and `[j][numCoords + i]` for
      the nonzero `matrix[i][j]`, and stays symmetric. */
  method LinearStructure(s3: seq<seq<bool>>, matrix: Matrix) returns (r: Result<seq<seq<bool>>, BandError>)
    requires SquareMatrix.IsStructure(s3) && IsRectangular(matrix)
    ensures r == Err(WidthMismatch) <==> |matrix| > 0 && |matrix[0]| != |s3|
    ensures r == Err(IndexOutOfBounds) <==> |matrix| == 0
    ensures r.Ok? <==> |matrix| > 0 && |matrix[0]| == |s3|
    ensures r.Ok? ==> |r.value| == |matrix| + |s3| && SquareMatrix.IsStructure(r.value)
    ensures r.Ok? ==> forall u, w :: 0 <= u < |r.value| && 0 <= w < |r.value| ==>
              (r.value[u][w] <==> (u < |s3| && w < |s3| && s3[u][w])
                                  || (u >= |s3| && w < |s3| && matrix[u - |s3|][w] != 0.0)
                                  || (w >= |s3| && u < |s3| && matrix[w - |s3|][u] != 0.0))
    ensures r.Ok? && SquareMatrix.IsSymmetricStructure(s3) ==> SquareMatrix.IsSymmetricStructure(r.value)
    ensures r.Ok? ==> r.value == ConstraintLinks(Embed(s3, |matrix| + |s3|), |s3|, matrix, |matrix|)
  {
    if |matrix| == 0 {
      return Err(IndexOutOfBounds);
    }
    var numCoords := |s3|;
    if |matrix[0]| != numCoords {
      return Err(WidthMismatch);
    }
    var numDof := |matrix| + numCoords;
    var banded := Embed(s3, numDof);
    ghost var base := banded;
    var i := 0;
    while i < |matrix|
      invariant 0 <= i <= |matrix| && banded == ConstraintLinks(base, numCoords, matrix, i)
    {
      var j := 0;
      while j < |matrix[i]|
        invariant 0 <= j <= |matrix[i]|
        invariant banded == RowLinks(ConstraintLinks(base, numCoords, matrix, i), numCoords + i, matrix[i], j)
      {
        if matrix[i][j] != 0.0 {
          banded := Link(banded, numCoords + i, j);
        }
        j := j + 1;
      }
      i := i + 1;
    }
    r := Ok(banded);
    forall u, w | 0 <= u < numDof && 0 <= w < numDof
      ensures banded[u][w] <==> (u < numCoords && w < numCoords && s3[u][w])
                                || (u >= numCoords && w < numCoords && matrix[u - numCoords][w] != 0.0)
                                || (w >= numCoords && u < numCoords && matrix[w - numCoords][u] != 0.0)
    {
      ConstraintLinksEntry(base, numCoords, matrix, |matrix|, u, w);
    }
  }

  /** The one-node structure with the constraint row `[1, 1, 0]`: as written
      the second nonzero entry runs the index past the end of the widened
      structure; with the index fixed per constraint row, the constraint's
      row links the first two coordinates. */
  method LinearIndexCounterexample() returns (asWritten: Result<seq<seq<bool>>, BandError>,
                                              corrected: Result<seq<seq<bool>>, BandError>)
    ensures asWritten == Err(IndexOutOfBounds)
    ensures corrected.Ok? && |corrected.value| == 4 && SquareMatrix.IsStructure(corrected.value)
            && corrected.value[3][0] && corrected.value[3][1] && !corrected.value[3][2]
  {
    var s3 := Structure3D([[true]]);
    var matrix: Matrix := [[1.0, 1.0, 0.0]];
    assert NonzerosIn(matrix[0], 3) == 2;
    assert Nonzeros(matrix, 1) == 2;
    asWritten := LinearStructureAsWritten(s3, matrix);
    corrected := LinearStructure(s3, matrix);
  }

  // The band of a block

  /** The equality constraint on a block's degrees of freedom: listed
      degrees fixed, a linear system `matrix · x == rhs` of constraints, or
      none. */
  datatype EqualityConstraint = Fixed(indices: seq<nat>) | Linear(matrix: Matrix, rhs: seq<real>) | NoConstraint

  /** A structure symmetric over the nodes is symmetric over the
      coordinates. */
  lemma Structure3DSymmetric(s: seq<seq<bool>>)
    requires SquareMatrix.IsSymmetricStructure(s)
    ensures SquareMatrix.IsSymmetricStructure(Structure3D(s))
  {
    var s3 := Structure3D(s);
    forall r, c | 0 <= r < |s3| && 0 <= c < |s3|
      ensures s3[r][c] == s3[c][r]
    {
      assert s3[r][c] == s[r / 3][c / 3] && s3[c][r] == s[c / 3][r / 3];
    }
  }

  /** The number of degrees of freedom the solver sees. */
  function Dofs(constraint: EqualityConstraint, n: nat): nat {
    match constraint
    case Fixed(indices) => CountTrue(Retained(indices, 3 * n))
    case Linear(matrix, _) => |matrix| + 3 * n
    case NoConstraint => 3 * n
  }

  /** The node structure `band` builds, stated without the inverse
      connectivity: `[a][b]` exactly when nodes `a` and `b` share an
      element. */
  function SharedStructure(conn: seq<seq<nat>>, n: nat): (s: seq<seq<bool>>)
    ensures |s| == n && SquareMatrix.IsStructure(s)
  {
    seq(n, a requires 0 <= a < n => seq(n, b requires 0 <= b < n => SharesElement(conn, a, b)))
  }

  /** With the constraint rows linked symmetrically into a symmetric
      structure, the result is symmetric. */
  lemma ConstraintLinksSymmetric(s3: seq<seq<bool>>, matrix: Matrix)
    requires SquareMatrix.IsSymmetricStructure(s3) && HasWidth(matrix, |s3|)
    ensures SquareMatrix.IsSymmetricStructure(ConstraintLinks(Embed(s3, |matrix| + |s3|), |s3|, matrix, |matrix|))
  {
    var b := Embed(s3, |matrix| + |s3|);
    var c := ConstraintLinks(b, |s3|, matrix, |matrix|);
    forall u, w | 0 <= u < |c| && 0 <= w < |c|
      ensures c[u][w] == c[w][u]
    {
      ConstraintLinksEntry(b, |s3|, matrix, |matrix|, u, w);
      ConstraintLinksEntry(b, |s3|, matrix, |matrix|, w, u);
    }
  }

  /** The coordinate structure `band` hands to `Banded::from`, with linear
      constraints linked one row index per constraint, or the error it
      stops at first. It has one row per degree of freedom and is
      symmetric. */
  function Built(conn: seq<seq<nat>>, constraint: EqualityConstraint, n: nat): (r: Result<seq<seq<bool>>, BandError>)
    requires constraint.Linear? ==> IsRectangular(constraint.matrix)
    ensures r.Ok? ==> |r.value| == Dofs(constraint, n) && SquareMatrix.IsSymmetricStructure(r.value)
  {
    var s := SharedStructure(conn, n);
    var s3 := Structure3D(s);
    Structure3DSymmetric(s);
    match constraint
    case Fixed(indices) =>
      if exists t :: 0 <= t < |indices| && indices[t] >= 3 * n then Err(IndexOutOfBounds)
      else
        FilterEntries(s3, Retained(indices, 3 * n));
        Ok(Filter(s3, Retained(indices, 3 * n)))
    case Linear(matrix, _) =>
      if |matrix| == 0 then Err(IndexOutOfBounds)
      else if |matrix[0]| != |s3| then Err(WidthMismatch)
      else
        ConstraintLinksSymmetric(s3, matrix);
        Ok(ConstraintLinks(Embed(s3, |matrix| + |s3|), |s3|, matrix, |matrix|))
    case NoConstraint => Ok(s3)
  }

  /** The same with the linear constraints linked as written. */
  function BuiltAsWritten(conn: seq<seq<nat>>, constraint: EqualityConstraint, n: nat)
    : (r: Result<seq<seq<bool>>, BandError>)
    requires constraint.Linear? ==> IsRectangular(constraint.matrix)
    ensures r.Ok? ==> SquareMatrix.IsStructure(r.value)
    ensures !constraint.Linear? ==> r == Built(conn, constraint, n)
  {
    match constraint
    case Linear(matrix, _) => LinearAsWritten(Structure3D(SharedStructure(conn, n)), matrix)
    case _ => Built(conn, constraint, n)
  }

  /** The node structure from the inverse connectivity, spread over three
      coordinates per node. */
  method CoordinateStructure(conn: seq<seq<nat>>, n: nat) returns (s3: seq<seq<bool>>)
    requires NodesBelow(conn, n)
    ensures s3 == Structure3D(SharedStructure(conn, n))
  {
    var inverse := Invert(conn, n);
    var structure := NodeStructure(conn, inverse);
    NodeStructureShares(conn, inverse, n);
    assert structure == SharedStructure(conn, n) by {
      forall a | 0 <= a < n
        ensures structure[a] == SharedStructure(conn, n)[a]
      {
      }
    }
    s3 := Structure3D(structure);
  }

  /** The coordinate structure without the fixed degrees of freedom. */
  method FixedStructure(s3: seq<seq<bool>>, indices: seq<nat>) returns (r: Result<seq<seq<bool>>, BandError>)
    requires SquareMatrix.IsStructure(s3)
    ensures r.Err? ==> r == Err(IndexOutOfBounds)
    ensures r.Err? <==> exists t :: 0 <= t < |indices| && indices[t] >= |s3|
    ensures r.Ok? ==> r.value == Filter(s3, Retained(indices, |s3|))
  {
    if exists t :: 0 <= t < |indices| && indices[t] >= |s3| {
      return Err(IndexOutOfBounds);
    }
    var keep := KeepMask(indices, |s3|);
    r := Ok(Filter(s3, keep));
  }

  /** Which constraints `Built` rejects, and when it leaves no degree of
      freedom. */
  lemma BuiltErrors(conn: seq<seq<nat>>, constraint: EqualityConstraint, n: nat)
    requires constraint.Linear? ==> IsRectangular(constraint.matrix)
    ensures constraint.NoConstraint? ==> Built(conn, constraint, n) == Ok(Structure3D(SharedStructure(conn, n)))
    ensures constraint.Fixed? ==>
              (Built(conn, constraint, n) == Err(IndexOutOfBounds) <==>
                 exists t :: 0 <= t < |constraint.indices| && constraint.indices[t] >= 3 * n)
    ensures constraint.Fixed? ==>
              (Built(conn, constraint, n).Ok? && |Built(conn, constraint, n).value| > 0 <==>
                 (forall t :: 0 <= t < |constraint.indices| ==> constraint.indices[t] < 3 * n)
                 && exists v :: 0 <= v < 3 * n && v !in constraint.indices)
    ensures constraint.Linear? ==>
              (Built(conn, constraint, n).Ok? <==> |constraint.matrix| > 0 && |constraint.matrix[0]| == 3 * n)
  {
    if constraint.Fixed? {
      var keep := Retained(constraint.indices, 3 * n);
      CountTruePositive(keep);
      if exists v :: 0 <= v < 3 * n && v !in constraint.indices {
        var v :| 0 <= v < 3 * n && v !in constraint.indices;
        assert keep[v];
      }
    }
  }

  /** The structure `band` builds before relabelling. */
  method BuildStructure(conn: seq<seq<nat>>, constraint: EqualityConstraint, n: nat)
    returns (r: Result<seq<seq<bool>>, BandError>)
    requires NodesBelow(conn, n)
    requires constraint.Linear? ==> IsRectangular(constraint.matrix)
    ensures r == Built(conn, constraint, n)
  {
    var s3 := CoordinateStructure(conn, n);
    match constraint {
      case Fixed(indices) =>
        r := FixedStructure(s3, indices);
      case Linear(matrix, _) =>
        r := LinearStructure(s3, matrix);
      case NoConstraint =>
        r := Ok(s3);
    }
  }

  /** The structure `band` builds before relabelling, as written. */
  method BuildStructureAsWritten(conn: seq<seq<nat>>, constraint: EqualityConstraint, n: nat)
    returns (r: Result<seq<seq<bool>>, BandError>)
    requires NodesBelow(conn, n)
    requires constraint.Linear? ==> IsRectangular(constraint.matrix)
    ensures r == BuiltAsWritten(conn, constraint, n)
  {
    var s3 := CoordinateStructure(conn, n);
    match constraint {
      case Fixed(indices) =>
        r := FixedStructure(s3, indices);
      case Linear(matrix, _) =>
        r := LinearStructureAsWritten(s3, matrix);
      case NoConstraint =>
        r := Ok(s3);
    }
  }

  /** `band` with the linear constraints linked one row index per
      constraint and `Banded::from` restarting its sweep: the structure is
      `Built`, and `Ok` relabels it by the reversed restarted
      Cuthill–McKee order, with the bandwidth of that structure under the
      relabelling. It fails on a fixed index past the end, on a constraint
      matrix with no rows or of the wrong width, and when no degree of
      freedom is left. */
  method Band(conn: seq<seq<nat>>, constraint: EqualityConstraint, n: nat)
    returns (r: Result<SquareMatrix.Banded, BandError>)
    requires NodesBelow(conn, n)
    requires constraint.Linear? ==> IsRectangular(constraint.matrix)
    ensures r.Ok? ==> r.value.Valid(Dofs(constraint, n))
    ensures var b := Built(conn, constraint, n);
              (b.Err? ==> r == Err(b.error))
              && (b.Ok? ==> (r.Ok? <==> |b.value| > 0) && (r.Err? ==> r == Err(Structure(SquareMatrix.Empty))))
    ensures var b := Built(conn, constraint, n);
              r.Ok? ==> b.Ok? && r.value.mapping == Reverse(SquareMatrix.RestartedCuthillMcKee(b.value))
                        && SquareMatrix.IsBandwidth(b.value, r.value.mapping, r.value.bandwidth)
    ensures constraint.NoConstraint? ==> (r.Ok? <==> n > 0)
    ensures constraint.Fixed? ==>
              (r == Err(IndexOutOfBounds) <==>
                 exists t :: 0 <= t < |constraint.indices| && constraint.indices[t] >= 3 * n)
    ensures constraint.Fixed? ==>
              (r.Ok? <==> (forall t :: 0 <= t < |constraint.indices| ==> constraint.indices[t] < 3 * n)
                          && exists v :: 0 <= v < 3 * n && v !in constraint.indices)
    ensures constraint.Linear? ==>
              (r.Ok? <==> |constraint.matrix| > 0 && |constraint.matrix[0]| == 3 * n)
  {
    var built := BuildStructure(conn, constraint, n);
    BuiltErrors(conn, constraint, n);
    if built.Err? {
      return Err(built.error);
    }
    var relabelled := SquareMatrix.BandedFrom(built.value);
    if relabelled.Err? {
      return Err(Structure(relabelled.error));
    }
    r := Ok(relabelled.value);
  }

  /** `band` as written: the linear constraints linked as written and
      `Banded::from` with a single sweep, which fails on a structure that is
      not connected, as when a degree of freedom is coupled to no other. */
  method BandAsWritten(conn: seq<seq<nat>>, constraint: EqualityConstraint, n: nat)
    returns (r: Result<SquareMatrix.Banded, BandError>)
    requires NodesBelow(conn, n)
    requires constraint.Linear? ==> IsRectangular(constraint.matrix)
    ensures var b := BuiltAsWritten(conn, constraint, n);
              (b.Err? ==> r == Err(b.error))
              && (b.Ok? ==> (r.Ok? <==> SquareMatrix.IsSymmetricStructure(b.value) && |b.value| > 0
                                         && SquareMatrix.Connected(b.value)))
    ensures var b := BuiltAsWritten(conn, constraint, n);
              r.Ok? ==> b.Ok? && r.value.Valid(|b.value|)
                        && r.value.mapping == Reverse(SquareMatrix.CuthillMcKee(b.value))
                        && SquareMatrix.IsBandwidth(b.value, r.value.mapping, r.value.bandwidth)
    ensures var b := BuiltAsWritten(conn, constraint, n);
              b.Ok? && SquareMatrix.IsSymmetricStructure(b.value) && |b.value| >= 2
              && (exists v :: 0 <= v < |b.value| && |SquareMatrix.Neighbors(b.value, v)| == 0)
              ==> r == Err(Structure(SquareMatrix.Disconnected))
  {
    var built := BuildStructureAsWritten(conn, constraint, n);
    if built.Err? {
      return Err(built.error);
    }
    var relabelled := SquareMatrix.BandedFromAsWritten(built.value);
    if relabelled.Err? {
      return Err(Structure(relabelled.error));
    }
    r := Ok(relabelled.value);
  }

  /** A degree of freedom coupled to nothing has no neighbours. */
  lemma {:induction false} Uncoupled(s: seq<seq<bool>>, v: nat, m: nat)
    requires SquareMatrix.IsStructure(s) && v < |s| && m <= |s|
    requires forall c :: 0 <= c < |s| ==> !s[v][c]
    ensures SquareMatrix.NeighborsBelow(s, v, m) == []
  {
    if m > 0 {
      Uncoupled(s, v, m - 1);
    }
  }

  /** With one element on nodes `0..3` of five, the coordinates of node 4
      have no neighbours. */
  lemma IsolatedNode(conn: seq<seq<nat>>)
    requires conn == [[0, 1, 2, 3]]
    ensures var s3 := Structure3D(SharedStructure(conn, 5)); |SquareMatrix.Neighbors(s3, 12)| == 0
  {
    var s3 := Structure3D(SharedStructure(conn, 5));
    forall c | 0 <= c < 15
      ensures !s3[12][c]
    {
      assert !SharesElement(conn, 4, c / 3);
    }
    Uncoupled(s3, 12, 15);
  }

  /** One element on nodes `0..3` of five: node 4 is coupled to nothing.
      As written `Banded::from` sweeps only the element's twelve
      coordinates and fails; the restarted sweep labels all fifteen. */
  method IsolatedNodeCounterexample() returns (asWritten: Result<SquareMatrix.Banded, BandError>,
                                               corrected: Result<SquareMatrix.Banded, BandError>)
    ensures asWritten == Err(Structure(SquareMatrix.Disconnected))
    ensures corrected.Ok? && corrected.value.Valid(15)
  {
    var conn: seq<seq<nat>> := [[0, 1, 2, 3]];
    IsolatedNode(conn);
    BuiltErrors(conn, NoConstraint, 5);
    asWritten := BandAsWritten(conn, NoConstraint, 5);
    corrected := Band(conn, NoConstraint, 5);
  }
}
