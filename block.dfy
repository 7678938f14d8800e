/** A block of solid finite elements sharing one connectivity: the inverse
    connectivity, the sparsity structure handed to the banded solver, and the
    assembly of nodal forces (three components per node) and nodal
    stiffnesses (a 3×3 block per pair of nodes). The elements' constitutive
    computation is a parameter (`element`): its result, or its failure, for
    element `e` on the coordinates gathered at its nodes. */
module Block {
  import opened Base
  import opened Assembly
  import SquareMatrix

  // ---------------------------------------------------------------------
  // Inverse connectivity

  /** Number of times `node` appears in `nodes`. */
  function CountOf(nodes: seq<nat>, node: nat): nat {
    if |nodes| == 0 then 0
    else CountOf(nodes[..|nodes| - 1], node) + (if nodes[|nodes| - 1] == node then 1 else 0)
  }

  lemma {:induction false} CountOfPositive(nodes: seq<nat>, node: nat)
    ensures CountOf(nodes, node) > 0 <==> node in nodes
  {
    if |nodes| > 0 {
      var m := |nodes| - 1;
      CountOfPositive(nodes[..m], node);
      assert nodes == nodes[..m] + [nodes[m]];
    }
  }

  lemma {:induction false} CountOfDistinct(nodes: seq<nat>, node: nat)
    requires Distinct(nodes)
    ensures CountOf(nodes, node) <= 1
  {
    if |nodes| > 0 {
      var m := |nodes| - 1;
      CountOfDistinct(nodes[..m], node);
      if nodes[m] == node {
        CountOfPositive(nodes[..m], node);
      }
    }
  }

  function Repeat(e: nat, k: nat): (r: seq<nat>)
    ensures |r| == k && forall i :: 0 <= i < k ==> r[i] == e
  {
    seq(k, _ => e)
  }

  /** The elements naming `node`, in element order, an element once for each
      time it names the node. */
  function Occurrences(conn: seq<seq<nat>>, node: nat): seq<nat> {
    if |conn| == 0 then []
    else Occurrences(conn[..|conn| - 1], node) + Repeat(|conn| - 1, CountOf(conn[|conn| - 1], node))
  }

  /** An element is listed for a node exactly when it names the node; the
      list never decreases, and it increases strictly when no element names
      a node twice. */
  lemma {:induction false} OccurrencesMembers(conn: seq<seq<nat>>, node: nat)
    ensures forall e :: e in Occurrences(conn, node) <==> 0 <= e < |conn| && node in conn[e]
    ensures forall i, j :: 0 <= i < j < |Occurrences(conn, node)| ==>
              Occurrences(conn, node)[i] <= Occurrences(conn, node)[j]
    ensures (forall e :: 0 <= e < |conn| ==> Distinct(conn[e])) ==>
              forall i, j :: 0 <= i < j < |Occurrences(conn, node)| ==>
                Occurrences(conn, node)[i] < Occurrences(conn, node)[j]
  {
    if |conn| > 0 {
      var m := |conn| - 1;
      OccurrencesMembers(conn[..m], node);
      CountOfPositive(conn[m], node);
      var before := Occurrences(conn[..m], node);
      var k := CountOf(conn[m], node);
      var all := Occurrences(conn, node);
      assert all == before + Repeat(m, k);
      forall e
        ensures e in all <==> 0 <= e < |conn| && node in conn[e]
      {
        assert e in all <==> e in before || e in Repeat(m, k);
        if 0 <= e < m {
          assert conn[..m][e] == conn[e];
        } else if e == m && k > 0 {
          assert Repeat(m, k)[0] == m;
        }
      }
      assert forall i :: 0 <= i < |before| ==> before[i] in before;
      if forall e :: 0 <= e < |conn| ==> Distinct(conn[e]) {
        CountOfDistinct(conn[m], node);
        assert forall e :: 0 <= e < m ==> conn[..m][e] == conn[e];
      }
    }
  }

  /** `invert`: for every node, the elements that name it. */
  method Invert(conn: seq<seq<nat>>, n: nat) returns (inverse: seq<seq<nat>>)
    requires NodesBelow(conn, n)
    ensures |inverse| == n
    ensures forall v :: 0 <= v < n ==> inverse[v] == Occurrences(conn, v)
    ensures forall v, d :: 0 <= v < n && 0 <= d < |inverse[v]| ==> inverse[v][d] < |conn| && v in conn[inverse[v][d]]
    ensures forall v, e :: 0 <= v < n && 0 <= e < |conn| && v in conn[e] ==> e in inverse[v]
    ensures forall v, i, j :: 0 <= v < n && 0 <= i < j < |inverse[v]| ==> inverse[v][i] <= inverse[v][j]
  {
    inverse := seq(n, _ => []);
    var e := 0;
    while e < |conn|
      invariant 0 <= e <= |conn| && |inverse| == n
      invariant forall v :: 0 <= v < n ==> inverse[v] == Occurrences(conn[..e], v)
    {
      var a := 0;
      while a < |conn[e]|
        invariant 0 <= a <= |conn[e]| && |inverse| == n
        invariant forall v :: 0 <= v < n ==>
                    inverse[v] == Occurrences(conn[..e], v) + Repeat(e, CountOf(conn[e][..a], v))
      {
        var node := conn[e][a];
        assert conn[e][..a + 1][..a] == conn[e][..a];
        assert Repeat(e, CountOf(conn[e][..a], node) + 1) == Repeat(e, CountOf(conn[e][..a], node)) + [e];
        inverse := inverse[node := inverse[node] + [e]];
        a := a + 1;
      }
      assert conn[e][..a] == conn[e];
      assert conn[..e + 1][..e] == conn[..e];
      e := e + 1;
    }
    assert conn[..e] == conn;
    forall v | 0 <= v < n
      ensures forall d :: 0 <= d < |inverse[v]| ==> inverse[v][d] < |conn| && v in conn[inverse[v][d]]
      ensures forall e :: 0 <= e < |conn| && v in conn[e] ==> e in inverse[v]
      ensures forall i, j :: 0 <= i < j < |inverse[v]| ==> inverse[v][i] <= inverse[v][j]
    {
      OccurrencesMembers(conn, v);
      assert forall d :: 0 <= d < |inverse[v]| ==> inverse[v][d] in inverse[v];
    }
  }

  // ---------------------------------------------------------------------
  // Assembly of nodal forces

  /** Component `c` of each vector. */
  function Component(f: seq<Vec3>, c: Idx): (r: seq<real>)
    ensures |r| == |f| && forall a :: 0 <= a < |f| ==> r[a] == f[a].At(c)
  {
    seq(|f|, a requires 0 <= a < |f| => f[a].At(c))
  }

  /** Component `c` of every element's vectors. */
  function Components(fs: seq<seq<Vec3>>, c: Idx): (r: seq<seq<real>>)
    ensures |r| == |fs| && forall e :: 0 <= e < |fs| ==> r[e] == Component(fs[e], c)
  {
    seq(|fs|, e requires 0 <= e < |fs| => Component(fs[e], c))
  }

  /** Adds each local vector `f[a]` into `global[nodes[a]]`. */
  method ScatterAddVectors(global: seq<Vec3>, nodes: seq<nat>, f: seq<Vec3>) returns (r: seq<Vec3>)
    requires |f| == |nodes| && forall a :: 0 <= a < |nodes| ==> nodes[a] < |global|
    ensures |r| == |global|
    ensures forall v, c: Idx :: 0 <= v < |global| ==>
              r[v].At(c) == global[v].At(c) + Scattered(nodes, Component(f, c), v)
  {
    r := global;
    var a := 0;
    assert forall c: Idx, v :: Scattered(nodes[..0], Component(f, c)[..0], v) == 0.0;
    while a < |nodes|
      invariant 0 <= a <= |nodes| && |r| == |global|
      invariant forall v, c: Idx :: 0 <= v < |global| ==>
                  r[v].At(c) == global[v].At(c) + Scattered(nodes[..a], Component(f, c)[..a], v)
    {
      assert nodes[..a + 1][..a] == nodes[..a];
      assert forall c: Idx :: Component(f, c)[..a + 1][..a] == Component(f, c)[..a];
      r := r[nodes[a] := r[nodes[a]].Plus(f[a])];
      a := a + 1;
    }
    assert nodes[..a] == nodes;
    assert forall c: Idx :: Component(f, c)[..a] == Component(f, c);
  }

  /** Adding the forces of element `e` extends the scatter-sum by that
      element. */
  lemma ForcesStep(conn: seq<seq<nat>>, fs: seq<seq<Vec3>>, f: seq<Vec3>,
                   forces: seq<Vec3>, added: seq<Vec3>, e: nat)
    requires e < |conn| && |fs| == e && |f| == |conn[e]| && |added| == |forces|
    requires forall d :: 0 <= d < e ==> |fs[d]| == |conn[d]|
    requires forall v, c: Idx :: 0 <= v < |forces| ==> forces[v].At(c) == NodeSum(conn[..e], Components(fs, c), v)
    requires forall v, c: Idx :: 0 <= v < |forces| ==>
               added[v].At(c) == forces[v].At(c) + Scattered(conn[e], Component(f, c), v)
    ensures forall v, c: Idx :: 0 <= v < |forces| ==>
              added[v].At(c) == NodeSum(conn[..e + 1], Components(fs + [f], c), v)
  {
    assert conn[..e + 1][..e] == conn[..e];
    forall v, c: Idx | 0 <= v < |forces|
      ensures added[v].At(c) == NodeSum(conn[..e + 1], Components(fs + [f], c), v)
    {
      assert Components(fs + [f], c)[..e] == Components(fs, c);
    }
  }

  /** `nodal_forces`: one vector per node, starting from zero, with every
      element's nodal forces added at its nodes; or an `Upstream` error for
      the first element that fails. Component by component, the result is the
      scatter-sum of the element forces and its total is their total. */
  method NodalForces(conn: seq<seq<nat>>, coordinates: seq<Vec3>,
                     element: (nat, seq<Vec3>) -> Result<seq<Vec3>, string>)
    returns (r: Result<seq<Vec3>, FiniteElementBlockError>)
    requires NodesBelow(conn, |coordinates|)
    requires forall e, x :: element(e, x).Ok? ==> |element(e, x).value| == |x|
    ensures r.Ok? <==> AllOk(Outcomes(conn, coordinates, element))
    ensures r.Err? ==> exists e: nat :: FirstErrorAt(Outcomes(conn, coordinates, element), e)
                                        && r.error == Upstream(Outcomes(conn, coordinates, element)[e].error)
    ensures r.Ok? ==> |r.value| == |coordinates|
    ensures r.Ok? ==> forall c: Idx ::
              Shaped(conn, Components(Values(Outcomes(conn, coordinates, element)), c))
              && (forall v :: 0 <= v < |coordinates| ==>
                    r.value[v].At(c) == NodeSum(conn, Components(Values(Outcomes(conn, coordinates, element)), c), v))
              && Sum(Component(r.value, c)) == Total(Components(Values(Outcomes(conn, coordinates, element)), c))
  {
    ghost var rs := Outcomes(conn, coordinates, element);
    ghost var fs: seq<seq<Vec3>> := [];
    var n := |coordinates|;
    var forces := seq(n, _ => ZERO3);
    var e := 0;
    while e < |conn|
      invariant 0 <= e <= |conn| && |fs| == e && |forces| == n
      invariant forall d :: 0 <= d < e ==> rs[d].Ok? && fs[d] == rs[d].value
      invariant forall d :: 0 <= d < e ==> |fs[d]| == |conn[d]|
      invariant forall v, c: Idx :: 0 <= v < n ==>
                  forces[v].At(c) == NodeSum(conn[..e], Components(fs, c), v)
    {
      var outcome := element(e, Gather(conn[e], coordinates));
      if outcome.Err? {
        assert FirstErrorAt(rs, e);
        return Err(Upstream(outcome.error));
      }
      var added := ScatterAddVectors(forces, conn[e], outcome.value);
      ForcesStep(conn, fs, outcome.value, forces, added, e);
      forces := added;
      fs := fs + [outcome.value];
      e := e + 1;
    }
    assert conn[..e] == conn && fs == Values(rs);
    forall c: Idx {
      NodeSumConserves(conn, Components(fs, c), n, Component(forces, c));
    }
    r := Ok(forces);
  }

  // ---------------------------------------------------------------------
  // Assembly of nodal stiffnesses

  /** The zero 3×3 block. */
  const ZERO33: Mat3 := Mat3Of((i: Idx, j: Idx) => 0.0)

  /** Entry-wise sum of two 3×3 blocks. */
  function Add3(a: Mat3, b: Mat3): (c: Mat3)
    ensures forall i: Idx, j: Idx :: c[i][j] == a[i][j] + b[i][j]
  {
    Mat3Of((i: Idx, j: Idx) => a[i][j] + b[i][j])
  }

  /** Entry `[i][j]` of each block of a row of blocks. */
  function Entries(row: seq<Mat3>, i: Idx, j: Idx): (r: seq<real>)
    ensures |r| == |row| && forall q :: 0 <= q < |row| ==> r[q] == row[q][i][j]
  {
    seq(|row|, q requires 0 <= q < |row| => row[q][i][j])
  }

  /** Entry `[i][j]` of every block of a matrix of blocks. */
  function BlockComponent(k: seq<seq<Mat3>>, i: Idx, j: Idx): (r: Matrix)
    ensures |r| == |k| && forall p :: 0 <= p < |k| ==> r[p] == Entries(k[p], i, j)
  {
    seq(|k|, p requires 0 <= p < |k| => Entries(k[p], i, j))
  }

  function BlockComponents(ks: seq<seq<seq<Mat3>>>, i: Idx, j: Idx): (r: seq<Matrix>)
    ensures |r| == |ks| && forall e :: 0 <= e < |ks| ==> r[e] == BlockComponent(ks[e], i, j)
  {
    seq(|ks|, e requires 0 <= e < |ks| => BlockComponent(ks[e], i, j))
  }

  /** `n` by `n` blocks. */
  predicate IsBlockSquare(k: seq<seq<Mat3>>, n: nat) {
    |k| == n && forall p :: 0 <= p < n ==> |k[p]| == n
  }

  /** The 3n×3n matrix the blocks stand for is symmetric. */
  predicate IsBlockSymmetric(k: seq<seq<Mat3>>, n: nat) {
    IsBlockSquare(k, n)
    && forall p, q, i: Idx, j: Idx :: 0 <= p < n && 0 <= q < n ==> k[q][p][j][i] == k[p][q][i][j]
  }

  /** Adds each local block `row[q]` into `global[nodes[q]]`. */
  method ScatterAddBlocks(global: seq<Mat3>, nodes: seq<nat>, row: seq<Mat3>) returns (r: seq<Mat3>)
    requires |row| == |nodes| && forall a :: 0 <= a < |nodes| ==> nodes[a] < |global|
    ensures |r| == |global|
    ensures forall v, i: Idx, j: Idx :: 0 <= v < |global| ==>
              r[v][i][j] == global[v][i][j] + Scattered(nodes, Entries(row, i, j), v)
  {
    r := global;
    var q := 0;
    assert forall i: Idx, j: Idx, v :: Scattered(nodes[..0], Entries(row, i, j)[..0], v) == 0.0;
    while q < |nodes|
      invariant 0 <= q <= |nodes| && |r| == |global|
      invariant forall v, i: Idx, j: Idx :: 0 <= v < |global| ==>
                  r[v][i][j] == global[v][i][j] + Scattered(nodes[..q], Entries(row, i, j)[..q], v)
    {
      assert nodes[..q + 1][..q] == nodes[..q];
      assert forall i: Idx, j: Idx :: Entries(row, i, j)[..q + 1][..q] == Entries(row, i, j)[..q];
      r := r[nodes[q] := Add3(r[nodes[q]], row[q])];
      q := q + 1;
    }
    assert nodes[..q] == nodes;
    assert forall i: Idx, j: Idx :: Entries(row, i, j)[..q] == Entries(row, i, j);
  }

  /** Adds each local block `k[p][q]` into `global[nodes[p]][nodes[q]]`. */
  method ScatterAddBlockMatrix(global: seq<seq<Mat3>>, nodes: seq<nat>, k: seq<seq<Mat3>>)
    returns (r: seq<seq<Mat3>>)
    requires IsBlockSquare(global, |global|) && IsBlockSquare(k, |nodes|)
    requires forall a :: 0 <= a < |nodes| ==> nodes[a] < |global|
    ensures IsBlockSquare(r, |global|)
    ensures forall a, b, i: Idx, j: Idx :: 0 <= a < |global| && 0 <= b < |global| ==>
              r[a][b][i][j] == global[a][b][i][j] + PairScattered(nodes, BlockComponent(k, i, j), a, b, |nodes|)
  {
    r := global;
    var p := 0;
    assert forall a, b, i: Idx, j: Idx :: PairScattered(nodes, BlockComponent(k, i, j), a, b, 0) == 0.0;
    while p < |nodes|
      invariant 0 <= p <= |nodes| && IsBlockSquare(r, |global|)
      invariant forall a, b, i: Idx, j: Idx :: 0 <= a < |global| && 0 <= b < |global| ==>
                  r[a][b][i][j] == global[a][b][i][j] + PairScattered(nodes, BlockComponent(k, i, j), a, b, p)
    {
      var row := ScatterAddBlocks(r[nodes[p]], nodes, k[p]);
      r := r[nodes[p] := row];
      p := p + 1;
    }
  }

  /** Element `e`'s blocks are square over its nodes. */
  predicate BlocksFit(conn: seq<seq<nat>>, ks: seq<seq<seq<Mat3>>>) {
    |ks| == |conn| && forall e :: 0 <= e < |conn| ==> IsBlockSquare(ks[e], |conn[e]|)
  }

  lemma BlockComponentsFit(conn: seq<seq<nat>>, ks: seq<seq<seq<Mat3>>>)
    requires BlocksFit(conn, ks)
    ensures forall i: Idx, j: Idx, e :: 0 <= e < |conn| ==> IsSquare(BlockComponents(ks, i, j)[e], |conn[e]|)
  {
  }

  /** Entry by entry, `k` is the scatter-sum of the element blocks `ks`. */
  predicate AssembledBlocks(k: seq<seq<Mat3>>, conn: seq<seq<nat>>, ks: seq<seq<seq<Mat3>>>, n: nat)
    requires BlocksFit(conn, ks) && IsBlockSquare(k, n)
  {
    BlockComponentsFit(conn, ks);
    forall a, b, i: Idx, j: Idx :: 0 <= a < n && 0 <= b < n ==>
      k[a][b][i][j] == PairSum(conn, BlockComponents(ks, i, j), a, b)
  }

  /** Symmetric element blocks assemble into a symmetric matrix of blocks. */
  lemma AssembledBlocksSymmetric(k: seq<seq<Mat3>>, conn: seq<seq<nat>>, ks: seq<seq<seq<Mat3>>>, n: nat)
    requires BlocksFit(conn, ks) && IsBlockSquare(k, n) && AssembledBlocks(k, conn, ks, n)
    requires forall e :: 0 <= e < |conn| ==> IsBlockSymmetric(ks[e], |conn[e]|)
    ensures forall a, b, i: Idx, j: Idx :: 0 <= a < n && 0 <= b < n ==> k[b][a][j][i] == k[a][b][i][j]
  {
    BlockComponentsFit(conn, ks);
    forall a, b, i: Idx, j: Idx | 0 <= a < n && 0 <= b < n
      ensures k[b][a][j][i] == k[a][b][i][j]
    {
      forall e | 0 <= e < |conn|
        ensures Transposed(BlockComponents(ks, i, j)[e], BlockComponents(ks, j, i)[e], |conn[e]|)
      {
      }
      PairSumSymmetric(conn, BlockComponents(ks, i, j), BlockComponents(ks, j, i), a, b);
    }
  }

  /** `nodal_stiffnesses`: an n×n matrix of 3×3 blocks, starting from zero,
      with every element's block `[p][q]` added at `[conn[e][p]][conn[e][q]]`;
      or an `Upstream` error for the first element that fails. Entry by
      entry the result is the scatter-sum of the element blocks, and
      symmetric element stiffnesses give a symmetric result. */
  method NodalStiffnesses(conn: seq<seq<nat>>, coordinates: seq<Vec3>,
                          element: (nat, seq<Vec3>) -> Result<seq<seq<Mat3>>, string>)
    returns (r: Result<seq<seq<Mat3>>, FiniteElementBlockError>)
    requires NodesBelow(conn, |coordinates|)
    requires forall e, x :: element(e, x).Ok? ==> IsBlockSquare(element(e, x).value, |x|)
    ensures r.Ok? <==> AllOk(Outcomes(conn, coordinates, element))
    ensures r.Err? ==> exists e: nat :: FirstErrorAt(Outcomes(conn, coordinates, element), e)
                                        && r.error == Upstream(Outcomes(conn, coordinates, element)[e].error)
    ensures r.Ok? ==> IsBlockSquare(r.value, |coordinates|)
                      && BlocksFit(conn, Values(Outcomes(conn, coordinates, element)))
                      && AssembledBlocks(r.value, conn, Values(Outcomes(conn, coordinates, element)), |coordinates|)
    ensures r.Ok? && (forall e, x :: element(e, x).Ok? ==> IsBlockSymmetric(element(e, x).value, |x|))
            ==> forall a, b, i: Idx, j: Idx :: 0 <= a < |coordinates| && 0 <= b < |coordinates| ==>
                  r.value[b][a][j][i] == r.value[a][b][i][j]
  {
    ghost var rs := Outcomes(conn, coordinates, element);
    ghost var ks: seq<seq<seq<Mat3>>> := [];
    var n := |coordinates|;
    var stiffnesses: seq<seq<Mat3>> := seq(n, _ => seq(n, _ => ZERO33));
    var e := 0;
    while e < |conn|
      invariant 0 <= e <= |conn| && |ks| == e && IsBlockSquare(stiffnesses, n)
      invariant forall d :: 0 <= d < e ==> rs[d].Ok? && ks[d] == rs[d].value
      invariant BlocksFit(conn[..e], ks)
      invariant AssembledBlocks(stiffnesses, conn[..e], ks, n)
    {
      var outcome := element(e, Gather(conn[e], coordinates));
      if outcome.Err? {
        assert FirstErrorAt(rs, e);
        return Err(Upstream(outcome.error));
      }
      var next := ScatterAddBlockMatrix(stiffnesses, conn[e], outcome.value);
      AssembleStep(stiffnesses, next, conn, ks, outcome.value, n, e);
      stiffnesses := next;
      ks := ks + [outcome.value];
      e := e + 1;
    }
    assert conn[..e] == conn && ks == Values(rs);
    r := Ok(stiffnesses);
    SymmetricElementsAssemble(conn, coordinates, element, stiffnesses, n);
  }

  /** When every element's blocks are symmetric, so is the assembly. */
  lemma SymmetricElementsAssemble(conn: seq<seq<nat>>, coordinates: seq<Vec3>,
                                  element: (nat, seq<Vec3>) -> Result<seq<seq<Mat3>>, string>,
                                  k: seq<seq<Mat3>>, n: nat)
    requires NodesBelow(conn, |coordinates|) && AllOk(Outcomes(conn, coordinates, element))
    requires BlocksFit(conn, Values(Outcomes(conn, coordinates, element))) && IsBlockSquare(k, n)
    requires AssembledBlocks(k, conn, Values(Outcomes(conn, coordinates, element)), n)
    ensures (forall e, x :: element(e, x).Ok? ==> IsBlockSymmetric(element(e, x).value, |x|))
            ==> forall a, b, i: Idx, j: Idx :: 0 <= a < n && 0 <= b < n ==> k[b][a][j][i] == k[a][b][i][j]
  {
    var ks := Values(Outcomes(conn, coordinates, element));
    if forall e, x :: element(e, x).Ok? ==> IsBlockSymmetric(element(e, x).value, |x|) {
      forall d | 0 <= d < |conn|
        ensures IsBlockSymmetric(ks[d], |conn[d]|)
      {
        assert ks[d] == element(d, Gather(conn[d], coordinates)).value;
      }
      AssembledBlocksSymmetric(k, conn, ks, n);
    }
  }

  /** Scattering element `e`'s blocks extends the assembly by one element. */
  lemma AssembleStep(k: seq<seq<Mat3>>, next: seq<seq<Mat3>>, conn: seq<seq<nat>>,
                     ks: seq<seq<seq<Mat3>>>, ke: seq<seq<Mat3>>, n: nat, e: nat)
    requires e < |conn| && BlocksFit(conn[..e], ks) && IsBlockSquare(ke, |conn[e]|)
    requires IsBlockSquare(k, n) && IsBlockSquare(next, n)
    requires AssembledBlocks(k, conn[..e], ks, n)
    requires forall a, b, i: Idx, j: Idx :: 0 <= a < n && 0 <= b < n ==>
               next[a][b][i][j] == k[a][b][i][j] + PairScattered(conn[e], BlockComponent(ke, i, j), a, b, |conn[e]|)
    ensures BlocksFit(conn[..e + 1], ks + [ke])
    ensures AssembledBlocks(next, conn[..e + 1], ks + [ke], n)
  {
    assert conn[..e + 1] == conn[..e] + [conn[e]];
    BlockComponentsFit(conn[..e], ks);
    BlockComponentsFit(conn[..e + 1], ks + [ke]);
    forall a, b, i: Idx, j: Idx | 0 <= a < n && 0 <= b < n
      ensures next[a][b][i][j] == PairSum(conn[..e + 1], BlockComponents(ks + [ke], i, j), a, b)
    {
      var c := BlockComponents(ks, i, j);
      assert BlockComponents(ks + [ke], i, j) == c + [BlockComponent(ke, i, j)];
      PairSumAppend(conn[..e], c, conn[e], BlockComponent(ke, i, j), a, b);
    }
  }
}
