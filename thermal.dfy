/** A block of heat-conduction finite elements: the block's potential, nodal
    forces and nodal stiffnesses are assembled from the elements' own values,
    each evaluated on the temperatures at the element's nodes. The elements'
    constitutive computation is a parameter (`element`): its result, or its
    failure, for element `e` on the temperatures gathered at its nodes. */
module ThermalConduction {
  import opened Base
  import opened Assembly

  /** Rust's `Sum` over `Result`s: the left-to-right sum of the values, or the
      first error met. */
  function SumOutcomes(rs: seq<Result<real, string>>): (r: Result<real, string>)
    ensures r.Ok? <==> AllOk(rs)
    ensures r.Ok? ==> r.value == Sum(Values(rs))
    ensures r.Err? ==> exists e: nat :: FirstErrorAt(rs, e) && r.error == rs[e].error
  {
    if |rs| == 0 then Ok(0.0)
    else
      var m := |rs| - 1;
      var before := SumOutcomes(rs[..m]);
      if before.Err? then
        assert forall e :: FirstErrorAt(rs[..m], e) ==> FirstErrorAt(rs, e);
        before
      else if rs[m].Err? then
        assert FirstErrorAt(rs, m);
        Err(rs[m].error)
      else
        assert Values(rs)[..m] == Values(rs[..m]);
        Ok(before.value + rs[m].value)
  }

  /** The block's potential: the sum of the element potentials, or an
      `Upstream` error for the first element that fails. */
  function Potential(conn: seq<seq<nat>>, temperatures: seq<real>,
                     element: (nat, seq<real>) -> Result<real, string>): (r: Result<real, FiniteElementBlockError>)
    requires NodesBelow(conn, |temperatures|)
    ensures r.Ok? <==> AllOk(Outcomes(conn, temperatures, element))
    ensures r.Ok? ==> r.value == Sum(Values(Outcomes(conn, temperatures, element)))
    ensures r.Err? ==> exists e: nat :: FirstErrorAt(Outcomes(conn, temperatures, element), e)
                                   && r.error == Upstream(Outcomes(conn, temperatures, element)[e].error)
  {
    match SumOutcomes(Outcomes(conn, temperatures, element))
    case Ok(potential) => Ok(potential)
    case Err(error) => Err(Upstream(error))
  }

  /** Adds each local entry `f[a]` into `global[nodes[a]]`. */
  method ScatterAdd(global: seq<real>, nodes: seq<nat>, f: seq<real>) returns (r: seq<real>)
    requires |f| == |nodes| && forall a :: 0 <= a < |nodes| ==> nodes[a] < |global|
    ensures |r| == |global|
    ensures forall v :: 0 <= v < |global| ==> r[v] == global[v] + Scattered(nodes, f, v)
  {
    r := global;
    var a := 0;
    while a < |nodes|
      invariant 0 <= a <= |nodes| && |r| == |global|
      invariant forall v :: 0 <= v < |global| ==> r[v] == global[v] + Scattered(nodes[..a], f[..a], v)
    {
      assert nodes[..a + 1][..a] == nodes[..a] && f[..a + 1][..a] == f[..a];
      r := r[nodes[a] := r[nodes[a]] + f[a]];
      a := a + 1;
    }
    assert nodes[..a] == nodes && f[..a] == f;
  }

  /** The block's nodal forces: one entry per node, starting from zero, with
      every element's nodal forces added at its nodes; or an `Upstream` error
      for the first element that fails. The total force is the total of the
      element forces. */
  method NodalForces(conn: seq<seq<nat>>, temperatures: seq<real>,
                     element: (nat, seq<real>) -> Result<seq<real>, string>)
    returns (r: Result<seq<real>, FiniteElementBlockError>)
    requires NodesBelow(conn, |temperatures|)
    requires forall e, x :: element(e, x).Ok? ==> |element(e, x).value| == |x|
    ensures r.Ok? <==> AllOk(Outcomes(conn, temperatures, element))
    ensures r.Err? ==> exists e: nat :: FirstErrorAt(Outcomes(conn, temperatures, element), e)
                                   && r.error == Upstream(Outcomes(conn, temperatures, element)[e].error)
    ensures r.Ok? ==> Shaped(conn, Values(Outcomes(conn, temperatures, element)))
                      && |r.value| == |temperatures|
                      && (forall v :: 0 <= v < |temperatures| ==>
                            r.value[v] == NodeSum(conn, Values(Outcomes(conn, temperatures, element)), v))
                      && Sum(r.value) == Total(Values(Outcomes(conn, temperatures, element)))
  {
    ghost var rs := Outcomes(conn, temperatures, element);
    ghost var fs: seq<seq<real>> := [];
    var forces := ZeroVector(|temperatures|);
    var e := 0;
    while e < |conn|
      invariant 0 <= e <= |conn| && |fs| == e && |forces| == |temperatures|
      invariant forall d :: 0 <= d < e ==> rs[d].Ok? && fs[d] == rs[d].value
      invariant Shaped(conn[..e], fs)
      invariant forall v :: 0 <= v < |temperatures| ==> forces[v] == NodeSum(conn[..e], fs, v)
    {
      var outcome := element(e, Gather(conn[e], temperatures));
      if outcome.Err? {
        assert FirstErrorAt(rs, e);
        return Err(Upstream(outcome.error));
      }
      forces := ScatterAdd(forces, conn[e], outcome.value);
      assert conn[..e + 1][..e] == conn[..e] && (fs + [outcome.value])[..e] == fs;
      fs := fs + [outcome.value];
      e := e + 1;
    }
    assert conn[..e] == conn && fs == Values(rs);
    NodeSumConserves(conn, fs, |temperatures|, forces);
    r := Ok(forces);
  }

  /** The block's nodal stiffnesses: a square matrix over the nodes, starting
      from zero, with every element's entry `[p][q]` added at
      `[conn[e][p]][conn[e][q]]`; or an `Upstream` error for the first element
      that fails. Symmetric element stiffnesses give a symmetric result. */
  method NodalStiffnesses(conn: seq<seq<nat>>, temperatures: seq<real>,
                          element: (nat, seq<real>) -> Result<Matrix, string>)
    returns (r: Result<Matrix, FiniteElementBlockError>)
    requires NodesBelow(conn, |temperatures|)
    requires forall e, x :: element(e, x).Ok? ==> IsSquare(element(e, x).value, |x|)
    ensures r.Ok? <==> AllOk(Outcomes(conn, temperatures, element))
    ensures r.Err? ==> exists e: nat :: FirstErrorAt(Outcomes(conn, temperatures, element), e)
                                   && r.error == Upstream(Outcomes(conn, temperatures, element)[e].error)
    ensures r.Ok? ==> IsSquare(r.value, |temperatures|)
                      && |Values(Outcomes(conn, temperatures, element))| == |conn|
                      && (forall e :: 0 <= e < |conn| ==>
                            IsSquare(Values(Outcomes(conn, temperatures, element))[e], |conn[e]|))
                      && (forall a, b :: 0 <= a < |temperatures| && 0 <= b < |temperatures| ==>
                            r.value[a][b] == PairSum(conn, Values(Outcomes(conn, temperatures, element)), a, b))
    ensures r.Ok? && (forall e, x :: element(e, x).Ok? ==> Transposed(element(e, x).value, element(e, x).value, |x|))
            ==> forall a, b :: 0 <= a < |temperatures| && 0 <= b < |temperatures| ==> r.value[a][b] == r.value[b][a]
  {
    ghost var rs := Outcomes(conn, temperatures, element);
    ghost var ks: seq<Matrix> := [];
    var n := |temperatures|;
    var stiffnesses := ZeroMatrix(n);
    var e := 0;
    while e < |conn|
      invariant 0 <= e <= |conn| && |ks| == e && IsSquare(stiffnesses, n)
      invariant forall d :: 0 <= d < e ==> rs[d].Ok? && ks[d] == rs[d].value
      invariant forall d :: 0 <= d < e ==> IsSquare(ks[d], |conn[d]|)
      invariant forall a, b :: 0 <= a < n && 0 <= b < n ==> stiffnesses[a][b] == PairSum(conn[..e], ks, a, b)
    {
      var outcome := element(e, Gather(conn[e], temperatures));
      if outcome.Err? {
        assert FirstErrorAt(rs, e);
        return Err(Upstream(outcome.error));
      }
      stiffnesses := ScatterAddMatrix(stiffnesses, conn[e], outcome.value);
      assert conn[..e + 1][..e] == conn[..e] && (ks + [outcome.value])[..e] == ks;
      ks := ks + [outcome.value];
      e := e + 1;
    }
    assert conn[..e] == conn && ks == Values(rs);
    r := Ok(stiffnesses);
    if forall e, x :: element(e, x).Ok? ==> Transposed(element(e, x).value, element(e, x).value, |x|) {
      forall d | 0 <= d < |conn|
        ensures Transposed(ks[d], ks[d], |conn[d]|)
      {
        assert ks[d] == element(d, Gather(conn[d], temperatures)).value;
      }
      forall a, b | 0 <= a < n && 0 <= b < n
        ensures stiffnesses[a][b] == stiffnesses[b][a]
      {
        PairSumSymmetric(conn, ks, ks, a, b);
      }
    }
  }

  /** Adds each entry `k[p][q]` into `global[nodes[p]][nodes[q]]`, row by row. */
  method ScatterAddMatrix(global: Matrix, nodes: seq<nat>, k: Matrix) returns (r: Matrix)
    requires IsSquare(global, |global|) && IsSquare(k, |nodes|)
    requires forall a :: 0 <= a < |nodes| ==> nodes[a] < |global|
    ensures IsSquare(r, |global|)
    ensures forall a, b :: 0 <= a < |global| && 0 <= b < |global| ==>
              r[a][b] == global[a][b] + PairScattered(nodes, k, a, b, |nodes|)
  {
    r := global;
    var p := 0;
    while p < |nodes|
      invariant 0 <= p <= |nodes| && IsSquare(r, |global|)
      invariant forall a, b :: 0 <= a < |global| && 0 <= b < |global| ==>
                  r[a][b] == global[a][b] + PairScattered(nodes, k, a, b, p)
    {
      var row := ScatterAdd(r[nodes[p]], nodes, k[p]);
      r := r[nodes[p] := row];
      p := p + 1;
    }
  }
}
