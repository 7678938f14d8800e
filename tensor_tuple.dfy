/** `TensorTuple(T1, T2)`: two tensors handled as one, as in the coupled
    problems whose unknowns are two fields. The operations every tensor has
    are modelled on the flat entries of each part; `Jacobian`, `Solution` and
    `Sub<Vector>` on a pair of `D`-by-`D` rank-2 tensors; `Hessian` on four
    rank-4 tangents. */
module TensorTuple {
  import opened Base
  import TensorRank1Vec
  import TensorRank2Vec2D

  datatype TensorTuple<T1, T2> = TensorTuple(first: T1, second: T2)

  /** Both parts, each given by its entries in iteration order. */
  type Entries = TensorTuple<seq<real>, seq<real>>

  // Operations every tensor has

  /** The entries of the tuple: those of the first part, then the second. */
  function All(t: Entries): seq<real> {
    t.first + t.second
  }

  /** `full_contraction`: the sum of the parts' contractions, which is the
      contraction of all the entries. */
  function FullContraction(t: Entries, u: Entries): (r: real)
    requires |t.first| == |u.first| && |t.second| == |u.second|
    ensures r == Dot(All(t), All(u))
  {
    DotAppend(t.first, t.second, u.first, u.second);
    Dot(t.first, u.first) + Dot(t.second, u.second)
  }

  lemma {:induction false} DotAppend(a: seq<real>, b: seq<real>, c: seq<real>, e: seq<real>)
    requires |a| == |c| && |b| == |e|
    ensures Dot(a + b, c + e) == Dot(a, c) + Dot(b, e)
  {
    if |b| > 0 {
      var m := |b| - 1;
      DotAppend(a, b[..m], c, e[..m]);
      assert (a + b)[..|a| + m] == a + b[..m];
      assert (c + e)[..|c| + m] == c + e[..m];
    } else {
      assert a + b == a && c + e == c;
    }
  }

  /** The largest absolute entry, or zero when there is none: a fold of
      `entry.abs().max(acc)` from `0.0`. */
  function NormInfOf(s: seq<real>): (r: real)
    ensures r >= 0.0
    ensures forall k :: 0 <= k < |s| ==> Abs(s[k]) <= r
    ensures r == 0.0 || exists k :: 0 <= k < |s| && r == Abs(s[k])
  {
    if |s| == 0 then 0.0
    else
      var rest := NormInfOf(s[..|s| - 1]);
      assert forall k :: 0 <= k < |s| - 1 ==> s[..|s| - 1][k] == s[k];
      Max(rest, Abs(s[|s| - 1]))
  }

  /** `norm_inf`: the larger of the parts' norms, which is the norm of all
      the entries. */
  function NormInf(t: Entries): (r: real)
    ensures r == NormInfOf(All(t))
  {
    NormInfAppend(t.first, t.second);
    Max(NormInfOf(t.first), NormInfOf(t.second))
  }

  lemma {:induction false} NormInfAppend(a: seq<real>, b: seq<real>)
    ensures NormInfOf(a + b) == Max(NormInfOf(a), NormInfOf(b))
  {
    if |b| > 0 {
      var m := |b| - 1;
      NormInfAppend(a, b[..m]);
      assert (a + b)[..|a| + m] == a + b[..m];
      assert NormInfOf(a + b) == Max(NormInfOf(a + b[..m]), Abs(b[m]));
      assert NormInfOf(b) == Max(NormInfOf(b[..m]), Abs(b[m]));
    } else {
      assert a + b == a;
    }
  }

  /** `size`: the parts' sizes added, the number of entries. */
  function Size(t: Entries): (r: nat)
    ensures r == |All(t)|
  {
    |t.first| + |t.second|
  }

  /** Every tuple has parts of `n1` and `n2` entries. */
  predicate Shaped(ts: seq<Entries>, n1: nat, n2: nat) {
    forall m :: 0 <= m < |ts| ==> |ts[m].first| == n1 && |ts[m].second| == n2
  }

  /** `AddAssign`: each part added entry by entry. */
  function Add(t: Entries, u: Entries): (r: Entries)
    requires |t.first| == |u.first| && |t.second| == |u.second|
    ensures |r.first| == |t.first| && |r.second| == |t.second|
  {
    TensorTuple(seq(|t.first|, k requires 0 <= k < |t.first| => t.first[k] + u.first[k]),
                seq(|t.second|, k requires 0 <= k < |t.second| => t.second[k] + u.second[k]))
  }

  /** `reduce` with `AddAssign`: the first tuple, then each next one added. */
  function Reduce(ts: seq<Entries>, n1: nat, n2: nat): (r: Entries)
    requires |ts| > 0 && Shaped(ts, n1, n2)
    ensures |r.first| == n1 && |r.second| == n2
  {
    if |ts| == 1 then ts[0] else Add(Reduce(ts[..|ts| - 1], n1, n2), ts[|ts| - 1])
  }

  /** `Sum`: the reduction, or `default()` for no tuples at all. */
  function SumOf(ts: seq<Entries>, n1: nat, n2: nat, default: Entries): (r: Entries)
    requires Shaped(ts, n1, n2)
    ensures |ts| == 0 ==> r == default
    ensures |ts| > 0 ==> |r.first| == n1 && |r.second| == n2
    ensures |ts| > 0 ==> forall k :: 0 <= k < n1 ==> r.first[k] == Sum(seq(|ts|, m requires 0 <= m < |ts| => ts[m].first[k]))
    ensures |ts| > 0 ==> forall k :: 0 <= k < n2 ==> r.second[k] == Sum(seq(|ts|, m requires 0 <= m < |ts| => ts[m].second[k]))
  {
    if |ts| == 0 then default
    else
      ReduceEntries(ts, n1, n2);
      Reduce(ts, n1, n2)
  }

  /** Entry `k` of each part of the reduction is the sum of the entries `k`. */
  lemma {:induction false} ReduceEntries(ts: seq<Entries>, n1: nat, n2: nat)
    requires |ts| > 0 && Shaped(ts, n1, n2)
    ensures forall k :: 0 <= k < n1 ==> Reduce(ts, n1, n2).first[k] == Sum(seq(|ts|, m requires 0 <= m < |ts| => ts[m].first[k]))
    ensures forall k :: 0 <= k < n2 ==> Reduce(ts, n1, n2).second[k] == Sum(seq(|ts|, m requires 0 <= m < |ts| => ts[m].second[k]))
  {
    var n := |ts|;
    if n > 1 {
      ReduceEntries(ts[..n - 1], n1, n2);
      forall k | 0 <= k < n1
        ensures Reduce(ts, n1, n2).first[k] == Sum(seq(n, m requires 0 <= m < n => ts[m].first[k]))
      {
        var s := seq(n, m requires 0 <= m < n => ts[m].first[k]);
        assert s[..n - 1] == seq(n - 1, m requires 0 <= m < n - 1 => ts[..n - 1][m].first[k]);
      }
      forall k | 0 <= k < n2
        ensures Reduce(ts, n1, n2).second[k] == Sum(seq(n, m requires 0 <= m < n => ts[m].second[k]))
      {
        var s := seq(n, m requires 0 <= m < n => ts[m].second[k]);
        assert s[..n - 1] == seq(n - 1, m requires 0 <= m < n - 1 => ts[..n - 1][m].second[k]);
      }
    } else {
      forall k | 0 <= k < n1
        ensures Reduce(ts, n1, n2).first[k] == Sum(seq(n, m requires 0 <= m < n => ts[m].first[k]))
      {
        var s := seq(n, m requires 0 <= m < n => ts[m].first[k]);
        assert s[..0] == [];
      }
      forall k | 0 <= k < n2
        ensures Reduce(ts, n1, n2).second[k] == Sum(seq(n, m requires 0 <= m < n => ts[m].second[k]))
      {
        var s := seq(n, m requires 0 <= m < n => ts[m].second[k]);
        assert s[..0] == [];
      }
    }
  }

  // A pair of rank-2 tensors against a global vector

  /** A `d`-by-`d` rank-2 tensor, row by row. */
  predicate IsRank2(m: Matrix, d: nat) {
    |m| == d && TensorRank1Vec.Shaped(m, d)
  }

  /** The entries of both parts, each flattened row by row. */
  function Flattened(t: TensorTuple<Matrix, Matrix>): seq<real> {
    Concat(t.first) + Concat(t.second)
  }

  /** `Jacobian::fill_into`: entry `D * i + j` of `vector` becomes `[i][j]`
      of the first part and entry `D * D + D * i + j` becomes `[i][j]` of
      the second, as far as `vector` reaches; the rest is kept. */
  method FillInto(t: TensorTuple<Matrix, Matrix>, d: nat, vector: seq<real>) returns (r: seq<real>)
    requires IsRank2(t.first, d) && IsRank2(t.second, d)
    ensures |r| == |vector|
    ensures forall i: nat, j: nat :: i < d && j < d && Flat(d, i, j) < |vector| ==> r[Flat(d, i, j)] == t.first[i][j]
    ensures forall i: nat, j: nat :: i < d && j < d && Offset(d, d) + Flat(d, i, j) < |vector| ==>
              r[Offset(d, d) + Flat(d, i, j)] == t.second[i][j]
    ensures forall k :: Offset(d, d) + Offset(d, d) <= k < |vector| ==> r[k] == vector[k]
  {
    TensorRank1Vec.FlattenIndex(t.first, d);
    TensorRank1Vec.FlattenIndex(t.second, d);
    r := TensorRank1Vec.Overwrite(Flattened(t), vector);
  }

  /** `Jacobian::fill_into_chained`: both parts, then `other`. */
  method FillIntoChained(t: TensorTuple<Matrix, Matrix>, d: nat, other: seq<real>, vector: seq<real>) returns (r: seq<real>)
    requires IsRank2(t.first, d) && IsRank2(t.second, d)
    ensures |r| == |vector|
    ensures forall k :: 0 <= k < |vector| ==> r[k] == if k < |Flattened(t) + other| then (Flattened(t) + other)[k] else vector[k]
    ensures forall j :: 0 <= j < |other| && Offset(d, d) + Offset(d, d) + j < |vector| ==>
              r[Offset(d, d) + Offset(d, d) + j] == other[j]
  {
    ConcatLength(t.first, d);
    ConcatLength(t.second, d);
    r := TensorRank1Vec.Overwrite(Flattened(t) + other, vector);
  }

  /** `Solution::decrement_from`: the entries of both parts lowered by those
      of `other`, zipped in order. */
  method DecrementFrom(t: TensorTuple<Matrix, Matrix>, d: nat, other: seq<real>) returns (r: TensorTuple<Matrix, Matrix>)
    requires d > 0 && IsRank2(t.first, d) && IsRank2(t.second, d)
    ensures IsRank2(r.first, d) && IsRank2(r.second, d)
    ensures Flattened(r) == TensorRank1Vec.Subtracted(Flattened(t), other)
  {
    ConcatLength(t.first, d);
    ConcatLength(t.second, d);
    var flat := TensorRank1Vec.Decrement(Flattened(t), other);
    r := Split(flat, d);
  }

  /** `Solution::decrement_from_chained`: both parts and then `other` are
      lowered by the entries of `vector`; the tuple and `other` are both
      updated. */
  method DecrementFromChained(t: TensorTuple<Matrix, Matrix>, d: nat, other: seq<real>, vector: seq<real>)
    returns (r: TensorTuple<Matrix, Matrix>, other': seq<real>)
    requires d > 0 && IsRank2(t.first, d) && IsRank2(t.second, d)
    ensures IsRank2(r.first, d) && IsRank2(r.second, d) && |other'| == |other|
    ensures Flattened(r) + other' == TensorRank1Vec.Subtracted(Flattened(t) + other, vector)
  {
    ConcatLength(t.first, d);
    ConcatLength(t.second, d);
    var n := Offset(d, d) + Offset(d, d);
    var flat := TensorRank1Vec.Decrement(Flattened(t) + other, vector);
    r := Split(flat[..n], d);
    other' := flat[n..];
    assert flat[..n] + flat[n..] == flat;
  }

  /** The two parts back from `2 * D * D` entries. */
  function Split(flat: seq<real>, d: nat): (r: TensorTuple<Matrix, Matrix>)
    requires |flat| == Offset(d, d) + Offset(d, d)
    ensures IsRank2(r.first, d) && IsRank2(r.second, d) && Flattened(r) == flat
  {
    var n := Offset(d, d);
    assert flat[..n] + flat[n..] == flat;
    TensorTuple(TensorRank1Vec.Chunks(flat[..n], d, d), TensorRank1Vec.Chunks(flat[n..], d, d))
  }

  /** `Sub<Vector>`: the first part lowered by the first `D * D` entries and
      the second by the rest, each by the rank-2 rule `[i][j] -= v[D * i + j]`;
      the vector must reach `2 * D * D` entries. The same as decrementing
      the flattened parts. */
  method SubVector(t: TensorTuple<Matrix, Matrix>, d: nat, vector: seq<real>) returns (r: TensorTuple<Matrix, Matrix>)
    requires IsRank2(t.first, d) && IsRank2(t.second, d) && Offset(d, d) + Offset(d, d) <= |vector|
    ensures IsRank2(r.first, d) && IsRank2(r.second, d)
    ensures forall i: nat, j: nat :: i < d && j < d ==>
              Flat(d, i, j) < |vector| && r.first[i][j] == t.first[i][j] - vector[Flat(d, i, j)]
    ensures forall i: nat, j: nat :: i < d && j < d ==>
              Offset(d, d) + Flat(d, i, j) < |vector| && r.second[i][j] == t.second[i][j] - vector[Offset(d, d) + Flat(d, i, j)]
    ensures Flattened(r) == TensorRank1Vec.Subtracted(Flattened(t), vector)
  {
    var n := Offset(d, d);
    var first := TensorRank1Vec.SubVector(t.first, d, vector[..n]);
    var second := TensorRank1Vec.SubVector(t.second, d, vector[n..]);
    r := TensorTuple(first, second);
    ConcatLength(t.first, d);
    SubtractedSplit(Concat(t.first), Concat(t.second), vector);
  }

  /** Lowering two lists laid end to end is lowering each by its own stretch
      of `other`. */
  lemma SubtractedSplit(a: seq<real>, b: seq<real>, other: seq<real>)
    requires |a| <= |other|
    ensures TensorRank1Vec.Subtracted(a + b, other)
            == TensorRank1Vec.Subtracted(a, other[..|a|]) + TensorRank1Vec.Subtracted(b, other[|a|..])
  {
    var l := TensorRank1Vec.Subtracted(a + b, other);
    var r := TensorRank1Vec.Subtracted(a, other[..|a|]) + TensorRank1Vec.Subtracted(b, other[|a|..]);
    forall k | 0 <= k < |l|
      ensures l[k] == r[k]
    {
      if k >= |a| {
        assert (a + b)[k] == b[k - |a|];
      }
    }
  }

  // Four rank-4 tangents into a square matrix

  /** A rank-4 tensor with all four indices below `d`. */
  predicate IsRank4(t: seq<seq<Matrix>>, d: nat) {
    |t| == d && TensorRank2Vec2D.Shaped(t, d)
  }

  /** The Hessian of the coupled problem: tangents `0`, `1`, `2` and `3`,
      nested as `(t0, (t1, (t2, t3)))`. */
  type Tangents = TensorTuple<seq<seq<Matrix>>, TensorTuple<seq<seq<Matrix>>, TensorTuple<seq<seq<Matrix>>, seq<seq<Matrix>>>>>

  predicate TangentsShaped(h: Tangents, d: nat) {
    IsRank4(h.first, d) && IsRank4(h.second.first, d) && IsRank4(h.second.second.first, d) && IsRank4(h.second.second.second, d)
  }

  /** Rows `top` and `bottom` hold slices `[i][j]` of the four tangents:
      column `D * k + l` holds `t0[k][l]` in `top` and `t1[k][l]` in
      `bottom`, column `D * D + D * k + l` holds `t2[k][l]` in `top` and
      `t3[k][l]` in `bottom`. */
  predicate RowQuad(top: seq<real>, bottom: seq<real>, t0: Matrix, t1: Matrix, t2: Matrix, t3: Matrix, d: nat)
    requires IsRank2(t0, d) && IsRank2(t1, d) && IsRank2(t2, d) && IsRank2(t3, d)
  {
    forall k: nat, l: nat :: k < d && l < d ==> QuadAt(top, bottom, t0, t1, t2, t3, d, k, l)
  }

  /** Rows `D * i + j` and `D * D + D * i + j` of `r` hold slices `[i][j]`
      of the tangents. */
  predicate PairDone(r: Matrix, h: Tangents, d: nat, i: nat, j: nat)
    requires TangentsShaped(h, d) && i < d && j < d
  {
    Offset(d, d) + Flat(d, i, j) < |r|
    && RowQuad(r[Flat(d, i, j)], r[Offset(d, d) + Flat(d, i, j)],
               h.first[i][j], h.second.first[i][j], h.second.second.first[i][j], h.second.second.second[i][j], d)
  }

  /** `Hessian::fill_into`: `[D * i + j][D * k + l]` becomes `t0[i][j][k][l]`,
      `[D * D + D * i + j][D * k + l]` becomes `t1[i][j][k][l]`,
      `[D * i + j][D * D + D * k + l]` becomes `t2[i][j][k][l]` and
      `[D * D + D * i + j][D * D + D * k + l]` becomes `t3[i][j][k][l]`;
      entries in a row or column from `2 * D * D` on are kept. */
  method HessianFillInto(h: Tangents, d: nat, square: Matrix) returns (r: Matrix)
    requires TangentsShaped(h, d) && IsSquare(square, |square|) && Offset(d, d) + Offset(d, d) <= |square|
    ensures IsSquare(r, |square|)
    ensures forall i: nat, j: nat :: i < d && j < d ==> PairDone(r, h, d, i, j)
    ensures forall p, q :: 0 <= p < |square| && 0 <= q < |square| && (Offset(d, d) + Offset(d, d) <= p || Offset(d, d) + Offset(d, d) <= q) ==>
              r[p][q] == square[p][q]
  {
    var n := Offset(d, d);
    r := square;
    var i := 0;
    while i < d
      invariant 0 <= i <= d && Outside(r, square, n + n)
      invariant forall i': nat, j': nat :: i' < i && j' < d ==> PairDone(r, h, d, i', j')
    {
      var j := 0;
      while j < d
        invariant 0 <= j <= d && Outside(r, square, n + n)
        invariant forall i': nat, j': nat :: (i' < i || (i' == i && j' < j)) && j' < d ==> PairDone(r, h, d, i', j')
      {
        FlatBelow(d, i, j, d);
        var p := Flat(d, i, j);
        var top, bottom := FillRowPair(r[p], r[n + p], h.first[i][j], h.second.first[i][j],
                                       h.second.second.first[i][j], h.second.second.second[i][j], d);
        var r1 := r[p := top];
        OutsideStep(r, r1, square, n + n, p);
        var r' := r1[n + p := bottom];
        OutsideStep(r1, r', square, n + n, n + p);
        PairStep(r, top, bottom, h, d, i, j);
        assert r' == r[Flat(d, i, j) := top][Offset(d, d) + Flat(d, i, j) := bottom];
        r := r';
        j := j + 1;
      }
      i := i + 1;
    }
    OutsideEntries(r, square, n + n);
  }

  /** Rows from `c` on are those of `square`, and so are the entries of
      every row from column `c` on. */
  predicate Outside(r: Matrix, square: Matrix, c: nat) {
    IsSquare(square, |square|) && |r| == |square|
    && (forall p :: c <= p < |square| ==> r[p] == square[p])
    && forall p :: 0 <= p < |square| ==> TailKept(r[p], square[p], c)
  }

  /** The same length, and the same entries from `c` on. */
  predicate TailKept(row: seq<real>, orig: seq<real>, c: nat) {
    |row| == |orig| && forall q :: c <= q < |row| ==> row[q] == orig[q]
  }

  /** Rewriting row `p < c` with a row whose tail is kept keeps `Outside`. */
  lemma OutsideStep(r: Matrix, r': Matrix, square: Matrix, c: nat, p: nat)
    requires Outside(r, square, c) && p < c && p < |r| && |r'| == |r|
    requires TailKept(r'[p], r[p], c)
    requires forall x :: 0 <= x < |r| && x != p ==> r'[x] == r[x]
    ensures Outside(r', square, c)
  {
    assert TailKept(r[p], square[p], c);
  }

  lemma OutsideEntries(r: Matrix, square: Matrix, c: nat)
    requires Outside(r, square, c)
    ensures IsSquare(r, |square|)
    ensures forall p, q :: 0 <= p < |square| && 0 <= q < |square| && (c <= p || c <= q) ==> r[p][q] == square[p][q]
  {
    forall p | 0 <= p < |square|
      ensures |r[p]| == |square|
    {
      assert TailKept(r[p], square[p], c);
    }
    forall p, q | 0 <= p < |square| && 0 <= q < |square| && (c <= p || c <= q)
      ensures r[p][q] == square[p][q]
    {
      assert TailKept(r[p], square[p], c);
    }
  }

  /** One row pair: for each `k` and `l`, the four entries of slices `[i][j]`
      of the tangents. Columns from `2 * D * D` on are kept. */
  method FillRowPair(top: seq<real>, bottom: seq<real>, t0: Matrix, t1: Matrix, t2: Matrix, t3: Matrix, d: nat)
    returns (top': seq<real>, bottom': seq<real>)
    requires IsRank2(t0, d) && IsRank2(t1, d) && IsRank2(t2, d) && IsRank2(t3, d)
    requires Offset(d, d) + Offset(d, d) <= |top| && |top| == |bottom|
    ensures |top'| == |top| && |bottom'| == |bottom|
    ensures RowQuad(top', bottom', t0, t1, t2, t3, d)
    ensures forall q :: Offset(d, d) + Offset(d, d) <= q < |top| ==> top'[q] == top[q] && bottom'[q] == bottom[q]
  {
    var n := Offset(d, d);
    top', bottom' := top, bottom;
    var k := 0;
    while k < d
      invariant 0 <= k <= d && |top'| == |top| && |bottom'| == |bottom|
      invariant forall k': nat, l': nat :: k' < k && l' < d ==> QuadAt(top', bottom', t0, t1, t2, t3, d, k', l')
      invariant forall q :: n + n <= q < |top| ==> top'[q] == top[q] && bottom'[q] == bottom[q]
    {
      var l := 0;
      while l < d
        invariant 0 <= l <= d && |top'| == |top| && |bottom'| == |bottom|
        invariant forall k': nat, l': nat :: (k' < k || (k' == k && l' < l)) && l' < d ==> QuadAt(top', bottom', t0, t1, t2, t3, d, k', l')
        invariant forall q :: n + n <= q < |top| ==> top'[q] == top[q] && bottom'[q] == bottom[q]
      {
        FlatBelow(d, k, l, d);
        var c := Flat(d, k, l);
        var nt := top'[c := t0[k][l]][n + c := t2[k][l]];
        var nb := bottom'[c := t1[k][l]][n + c := t3[k][l]];
        QuadStep(top', bottom', nt, nb, t0, t1, t2, t3, d, k, l);
        top', bottom' := nt, nb;
        l := l + 1;
      }
      k := k + 1;
    }
  }

  /** Placing pair `[i][j]` keeps the pairs placed before it. */
  lemma PairStep(r: Matrix, top: seq<real>, bottom: seq<real>, h: Tangents, d: nat, i: nat, j: nat)
    requires TangentsShaped(h, d) && i < d && j < d && Offset(d, d) + Offset(d, d) <= |r|
    requires forall i': nat, j': nat :: (i' < i || (i' == i && j' < j)) && j' < d ==> PairDone(r, h, d, i', j')
    requires RowQuad(top, bottom, h.first[i][j], h.second.first[i][j], h.second.second.first[i][j], h.second.second.second[i][j], d)
    ensures Flat(d, i, j) < Offset(d, d)
    ensures var r' := r[Flat(d, i, j) := top][Offset(d, d) + Flat(d, i, j) := bottom];
            forall i': nat, j': nat :: (i' < i || (i' == i && j' < j + 1)) && j' < d ==> PairDone(r', h, d, i', j')
  {
    FlatBelow(d, i, j, d);
    var r' := r[Flat(d, i, j) := top][Offset(d, d) + Flat(d, i, j) := bottom];
    forall i': nat, j': nat | (i' < i || (i' == i && j' < j + 1)) && j' < d
      ensures PairDone(r', h, d, i', j')
    {
      if i' != i || j' != j {
        assert PairDone(r, h, d, i', j');
        FlatBelow(d, i', j', d);
        if Flat(d, i', j') == Flat(d, i, j) {
          OffsetUnique(d, i', j', i, j);
        }
      }
    }
  }

  /** Placing column pair `D * k + l` keeps the pairs placed before it. */
  lemma QuadStep(top: seq<real>, bottom: seq<real>, top': seq<real>, bottom': seq<real>,
                 t0: Matrix, t1: Matrix, t2: Matrix, t3: Matrix, d: nat, k: nat, l: nat)
    requires IsRank2(t0, d) && IsRank2(t1, d) && IsRank2(t2, d) && IsRank2(t3, d) && k < d && l < d
    requires |top'| == |top| && |bottom'| == |bottom|
    requires forall k': nat, l': nat :: (k' < k || (k' == k && l' < l)) && l' < d ==> QuadAt(top, bottom, t0, t1, t2, t3, d, k', l')
    requires forall x :: 0 <= x < |top| && x != Flat(d, k, l) && x != Offset(d, d) + Flat(d, k, l) ==> top'[x] == top[x]
    requires forall x :: 0 <= x < |bottom| && x != Flat(d, k, l) && x != Offset(d, d) + Flat(d, k, l) ==> bottom'[x] == bottom[x]
    ensures forall k': nat, l': nat :: (k' < k || (k' == k && l' < l)) && l' < d ==> QuadAt(top', bottom', t0, t1, t2, t3, d, k', l')
  {
    forall k': nat, l': nat | (k' < k || (k' == k && l' < l)) && l' < d
      ensures QuadAt(top', bottom', t0, t1, t2, t3, d, k', l')
    {
      assert QuadAt(top, bottom, t0, t1, t2, t3, d, k', l');
      FlatBelow(d, k', l', d);
      FlatBelow(d, k, l, d);
      if Flat(d, k', l') == Flat(d, k, l) {
        OffsetUnique(d, k', l', k, l);
      }
    }
  }

  /** The four entries of column pair `D * k + l` are placed. */
  predicate QuadAt(top: seq<real>, bottom: seq<real>, t0: Matrix, t1: Matrix, t2: Matrix, t3: Matrix, d: nat, k: nat, l: nat)
    requires IsRank2(t0, d) && IsRank2(t1, d) && IsRank2(t2, d) && IsRank2(t3, d) && k < d && l < d
  {
    Offset(d, d) + Flat(d, k, l) < |top| && Offset(d, d) + Flat(d, k, l) < |bottom|
    && top[Flat(d, k, l)] == t0[k][l] && bottom[Flat(d, k, l)] == t1[k][l]
    && top[Offset(d, d) + Flat(d, k, l)] == t2[k][l] && bottom[Offset(d, d) + Flat(d, k, l)] == t3[k][l]
  }
}
