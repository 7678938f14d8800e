/** Scatter-add assembly shared by the element blocks: element results are
    computed on values gathered through each element's connectivity, and each
    element's local entries are added into the global entries of the nodes
    that the connectivity names. The finite sums here are the reference
    definitions the assembling methods are proved against. */
module Assembly {
  import opened Base

  /** The block-level error: an element's failure, carried upward with its
      message. */
  datatype FiniteElementBlockError = Upstream(cause: string)

  /** Every node an element names is a node of the block. */
  predicate NodesBelow(conn: seq<seq<nat>>, n: nat) {
    forall e, a :: 0 <= e < |conn| && 0 <= a < |conn[e]| ==> conn[e][a] < n
  }

  /** The values of a nodal field at an element's nodes, in the element's
      local order. */
  function Gather<T>(nodes: seq<nat>, field: seq<T>): (local: seq<T>)
    requires forall a :: 0 <= a < |nodes| ==> nodes[a] < |field|
    ensures |local| == |nodes|
    ensures forall a :: 0 <= a < |nodes| ==> local[a] == field[nodes[a]]
  {
    if |nodes| == 0 then [] else [field[nodes[0]]] + Gather(nodes[1..], field)
  }

  /** Element `e`'s outcome, evaluated on the field gathered at its nodes. */
  function Outcomes<X, Y>(conn: seq<seq<nat>>, field: seq<X>,
                          element: (nat, seq<X>) -> Result<Y, string>): seq<Result<Y, string>>
    requires NodesBelow(conn, |field|)
  {
    seq(|conn|, e requires 0 <= e < |conn| => element(e, Gather(conn[e], field)))
  }

  predicate AllOk<T>(rs: seq<Result<T, string>>) {
    forall e :: 0 <= e < |rs| ==> rs[e].Ok?
  }

  function Values<T>(rs: seq<Result<T, string>>): seq<T>
    requires AllOk(rs)
  {
    seq(|rs|, e requires 0 <= e < |rs| => rs[e].value)
  }

  /** Element `e` is the first to fail. */
  predicate FirstErrorAt<T>(rs: seq<Result<T, string>>, e: nat) {
    e < |rs| && rs[e].Err? && forall d :: 0 <= d < e ==> rs[d].Ok?
  }

  /** One local result per local node of every element. */
  predicate Shaped<T>(conn: seq<seq<nat>>, fs: seq<seq<T>>) {
    |fs| == |conn| && forall e :: 0 <= e < |conn| ==> |fs[e]| == |conn[e]|
  }

  /** Sum of the local entries `f[a]` whose node `nodes[a]` is `v`. */
  function Scattered(nodes: seq<nat>, f: seq<real>, v: nat): real
    requires |f| == |nodes|
  {
    if |nodes| == 0 then 0.0
    else Scattered(nodes[..|nodes| - 1], f[..|f| - 1], v)
         + (if nodes[|nodes| - 1] == v then f[|f| - 1] else 0.0)
  }

  /** Global entry `v` after every element has scattered its entries. */
  function NodeSum(conn: seq<seq<nat>>, fs: seq<seq<real>>, v: nat): real
    requires Shaped(conn, fs)
  {
    if |conn| == 0 then 0.0
    else NodeSum(conn[..|conn| - 1], fs[..|fs| - 1], v)
         + Scattered(conn[|conn| - 1], fs[|fs| - 1], v)
  }

  /** Sum of all the entries of all the rows. */
  function Total(rows: seq<seq<real>>): real {
    if |rows| == 0 then 0.0 else Total(rows[..|rows| - 1]) + Sum(rows[|rows| - 1])
  }

  lemma {:induction false} SumZero(r: seq<real>)
    requires forall v :: 0 <= v < |r| ==> r[v] == 0.0
    ensures Sum(r) == 0.0
  {
    if |r| > 0 {
      SumZero(r[..|r| - 1]);
    }
  }

  lemma {:induction false} SumPointwise(r: seq<real>, s: seq<real>, t: seq<real>)
    requires |r| == |s| == |t|
    requires forall v :: 0 <= v < |r| ==> r[v] == s[v] + t[v]
    ensures Sum(r) == Sum(s) + Sum(t)
  {
    if |r| > 0 {
      SumPointwise(r[..|r| - 1], s[..|s| - 1], t[..|t| - 1]);
    }
  }

  lemma {:induction false} SumSingle(r: seq<real>, u: nat, x: real)
    requires u < |r|
    requires forall v :: 0 <= v < |r| ==> r[v] == (if v == u then x else 0.0)
    ensures Sum(r) == x
  {
    if |r| - 1 == u {
      SumZero(r[..u]);
    } else {
      SumSingle(r[..|r| - 1], u, x);
    }
  }

  /** Scattering one element's entries into nodes below `n` neither creates
      nor loses any amount. */
  lemma {:induction false} ScatteredConserves(nodes: seq<nat>, f: seq<real>, n: nat, r: seq<real>)
    requires |f| == |nodes| && forall a :: 0 <= a < |nodes| ==> nodes[a] < n
    requires |r| == n && forall v :: 0 <= v < n ==> r[v] == Scattered(nodes, f, v)
    ensures Sum(r) == Sum(f)
  {
    if |nodes| == 0 {
      SumZero(r);
    } else {
      var m := |nodes| - 1;
      var before := seq(n, v requires 0 <= v < n => Scattered(nodes[..m], f[..m], v));
      var last := seq(n, v => if v == nodes[m] then f[m] else 0.0);
      ScatteredConserves(nodes[..m], f[..m], n, before);
      SumSingle(last, nodes[m], f[m]);
      SumPointwise(r, before, last);
    }
  }

  /** Assembling every element's entries conserves their total: the global
      entries add up to the sum of all element entries. */
  lemma {:induction false} NodeSumConserves(conn: seq<seq<nat>>, fs: seq<seq<real>>, n: nat, r: seq<real>)
    requires Shaped(conn, fs) && NodesBelow(conn, n)
    requires |r| == n && forall v :: 0 <= v < n ==> r[v] == NodeSum(conn, fs, v)
    ensures Sum(r) == Total(fs)
  {
    if |conn| == 0 {
      SumZero(r);
    } else {
      var m := |conn| - 1;
      var before := seq(n, v requires 0 <= v < n => NodeSum(conn[..m], fs[..m], v));
      var last := seq(n, v requires 0 <= v < n => Scattered(conn[m], fs[m], v));
      NodeSumConserves(conn[..m], fs[..m], n, before);
      ScatteredConserves(conn[m], fs[m], n, last);
      SumPointwise(r, before, last);
    }
  }

  /** Contribution of the first `m` rows of an element matrix `k` to global
      entry `[a][b]`: row `p` lands in row `nodes[p]`, column `q` in column
      `nodes[q]`. */
  function PairScattered(nodes: seq<nat>, k: seq<seq<real>>, a: nat, b: nat, m: nat): real
    requires IsSquare(k, |nodes|) && m <= |nodes|
  {
    if m == 0 then 0.0
    else PairScattered(nodes, k, a, b, m - 1)
         + (if nodes[m - 1] == a then Scattered(nodes, k[m - 1], b) else 0.0)
  }

  /** Global entry `[a][b]` after every element has scattered its matrix. */
  function PairSum(conn: seq<seq<nat>>, ks: seq<seq<seq<real>>>, a: nat, b: nat): real
    requires |ks| == |conn| && forall e :: 0 <= e < |conn| ==> IsSquare(ks[e], |conn[e]|)
  {
    if |conn| == 0 then 0.0
    else PairSum(conn[..|conn| - 1], ks[..|ks| - 1], a, b)
         + PairScattered(conn[|conn| - 1], ks[|ks| - 1], a, b, |conn[|conn| - 1]|)
  }

  /** One more element adds its scattered entries to the sum. */
  lemma PairSumAppend(conn: seq<seq<nat>>, ks: seq<seq<seq<real>>>, nodes: seq<nat>, k: seq<seq<real>>, a: nat, b: nat)
    requires |ks| == |conn| && forall e :: 0 <= e < |conn| ==> IsSquare(ks[e], |conn[e]|)
    requires IsSquare(k, |nodes|)
    ensures PairSum(conn + [nodes], ks + [k], a, b) == PairSum(conn, ks, a, b) + PairScattered(nodes, k, a, b, |nodes|)
  {
    assert (conn + [nodes])[..|conn|] == conn && (ks + [k])[..|ks|] == ks;
  }

  /** Entries of `k` that land in global entry `[a][b]`; the others are zero. */
  function Mask(nodes: seq<nat>, k: seq<seq<real>>, a: nat, b: nat): (h: Matrix)
    requires IsSquare(k, |nodes|)
    ensures IsSquare(h, |nodes|)
  {
    seq(|nodes|, p requires 0 <= p < |nodes| =>
      seq(|nodes|, q requires 0 <= q < |nodes| =>
        if nodes[p] == a && nodes[q] == b then k[p][q] else 0.0))
  }

  lemma {:induction false} ScatteredIsMaskedSum(nodes: seq<nat>, row: seq<real>, b: nat, masked: seq<real>)
    requires |row| == |nodes| == |masked|
    requires forall q :: 0 <= q < |nodes| ==> masked[q] == (if nodes[q] == b then row[q] else 0.0)
    ensures Scattered(nodes, row, b) == Sum(masked)
  {
    if |nodes| > 0 {
      var m := |nodes| - 1;
      ScatteredIsMaskedSum(nodes[..m], row[..m], b, masked[..m]);
    }
  }

  lemma {:induction false} PairScatteredIsTotal(nodes: seq<nat>, k: seq<seq<real>>, a: nat, b: nat, m: nat)
    requires IsSquare(k, |nodes|) && m <= |nodes|
    ensures PairScattered(nodes, k, a, b, m) == Total(Mask(nodes, k, a, b)[..m])
  {
    if m > 0 {
      var h := Mask(nodes, k, a, b);
      PairScatteredIsTotal(nodes, k, a, b, m - 1);
      assert h[..m][..m - 1] == h[..m - 1];
      if nodes[m - 1] == a {
        ScatteredIsMaskedSum(nodes, k[m - 1], b, h[m - 1]);
      } else {
        SumZero(h[m - 1]);
      }
    }
  }

  /** The leading `n - 1` by `n - 1` block. */
  function Lead(h: Matrix): (l: Matrix)
    requires |h| > 0 && IsSquare(h, |h|)
    ensures IsSquare(l, |h| - 1)
    ensures forall i :: 0 <= i < |h| - 1 ==> l[i] == h[i][..|h| - 1]
  {
    seq(|h| - 1, i requires 0 <= i < |h| - 1 => h[i][..|h| - 1])
  }

  /** The last column without its last entry. */
  function LastColumn(h: Matrix): (c: seq<real>)
    requires |h| > 0 && IsSquare(h, |h|)
    ensures |c| == |h| - 1
    ensures forall i :: 0 <= i < |h| - 1 ==> c[i] == h[i][|h| - 1]
  {
    seq(|h| - 1, i requires 0 <= i < |h| - 1 => h[i][|h| - 1])
  }

  /** Splitting off the last row and the last column. */
  lemma TotalSplit(h: Matrix)
    requires |h| > 0 && IsSquare(h, |h|)
    ensures Total(h) == Total(Lead(h)) + Sum(LastColumn(h)) + Sum(h[|h| - 1])
  {
    var n := |h|;
    var rows, lead, col := h[..n - 1], Lead(h), LastColumn(h);
    forall i | 0 <= i < n - 1
      ensures Sum(rows[i]) == Sum(lead[i]) + col[i]
    {
      SumLast(h[i]);
    }
    TotalRows(rows, lead, col);
  }

  lemma SumLast(r: seq<real>)
    requires |r| > 0
    ensures Sum(r) == Sum(r[..|r| - 1]) + r[|r| - 1]
  {
  }

  /** Rows that each gain one trailing entry gain the sum of those entries. */
  lemma {:induction false} TotalRows(rows: seq<seq<real>>, lead: seq<seq<real>>, col: seq<real>)
    requires |rows| == |lead| == |col|
    requires forall i :: 0 <= i < |rows| ==> Sum(rows[i]) == Sum(lead[i]) + col[i]
    ensures Total(rows) == Total(lead) + Sum(col)
  {
    if |rows| > 0 {
      var m := |rows| - 1;
      TotalRows(rows[..m], lead[..m], col[..m]);
    }
  }

  lemma LeadTranspose(h: Matrix)
    requires |h| > 0 && IsSquare(h, |h|)
    ensures Lead(Transpose(h)) == Transpose(Lead(h))
  {
    var n := |h|;
    forall i | 0 <= i < n - 1
      ensures Lead(Transpose(h))[i] == Transpose(Lead(h))[i]
    {
      assert forall j :: 0 <= j < n - 1 ==> Lead(Transpose(h))[i][j] == h[j][i];
    }
  }

  lemma LastRowTranspose(h: Matrix)
    requires |h| > 0 && IsSquare(h, |h|)
    ensures Sum(Transpose(h)[|h| - 1]) == Sum(LastColumn(h)) + h[|h| - 1][|h| - 1]
    ensures Sum(h[|h| - 1]) == Sum(LastColumn(Transpose(h))) + h[|h| - 1][|h| - 1]
  {
    var n := |h|;
    var t := Transpose(h);
    assert t[n - 1] == LastColumn(h) + [h[n - 1][n - 1]];
    assert h[n - 1] == LastColumn(t) + [h[n - 1][n - 1]];
    SumConcatRow(LastColumn(h), h[n - 1][n - 1]);
    SumConcatRow(LastColumn(t), h[n - 1][n - 1]);
  }

  /** Summing a square matrix by rows or by columns gives the same total. */
  lemma {:induction false} TotalTranspose(h: Matrix)
    requires IsSquare(h, |h|)
    ensures Total(Transpose(h)) == Total(h)
    decreases |h|
  {
    if |h| > 0 {
      LeadTranspose(h);
      TotalTranspose(Lead(h));
      TotalSplit(h);
      TotalSplit(Transpose(h));
      LastRowTranspose(h);
    }
  }

  /** `kt` is the transpose of the square `k`. */
  predicate Transposed(k: Matrix, kt: Matrix, n: nat) {
    IsSquare(k, n) && IsSquare(kt, n)
    && forall p, q :: 0 <= p < n && 0 <= q < n ==> kt[q][p] == k[p][q]
  }

  /** One element's scattered matrix is symmetric when the element matrix is:
      entry `[a][b]` of `k` scattered equals entry `[b][a]` of its transpose
      `kt` scattered. */
  lemma PairScatteredSymmetric(nodes: seq<nat>, k: seq<seq<real>>, kt: seq<seq<real>>, a: nat, b: nat)
    requires Transposed(k, kt, |nodes|)
    ensures PairScattered(nodes, k, a, b, |nodes|) == PairScattered(nodes, kt, b, a, |nodes|)
  {
    var n := |nodes|;
    var h := Mask(nodes, k, a, b);
    var ht := Mask(nodes, kt, b, a);
    forall p | 0 <= p < n
      ensures Transpose(h)[p] == ht[p]
    {
      assert forall q :: 0 <= q < n ==> Transpose(h)[p][q] == ht[p][q];
    }
    assert Transpose(h) == ht;
    PairScatteredIsTotal(nodes, k, a, b, n);
    PairScatteredIsTotal(nodes, kt, b, a, n);
    assert h[..n] == h && ht[..n] == ht;
    TotalTranspose(h);
  }

  /** Symmetric element matrices assemble into a symmetric global matrix. */
  lemma {:induction false} PairSumSymmetric(conn: seq<seq<nat>>, ks: seq<seq<seq<real>>>,
                                            kts: seq<seq<seq<real>>>, a: nat, b: nat)
    requires |ks| == |kts| == |conn|
    requires forall e :: 0 <= e < |conn| ==> IsSquare(ks[e], |conn[e]|)
    requires forall e :: 0 <= e < |conn| ==> IsSquare(kts[e], |conn[e]|)
    requires forall e :: 0 <= e < |conn| ==> Transposed(ks[e], kts[e], |conn[e]|)
    ensures PairSum(conn, ks, a, b) == PairSum(conn, kts, b, a)
  {
    if |conn| > 0 {
      var m := |conn| - 1;
      PairSumSymmetric(conn[..m], ks[..m], kts[..m], a, b);
      PairScatteredSymmetric(conn[m], ks[m], kts[m], a, b);
    }
  }
}
