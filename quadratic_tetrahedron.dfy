/** The ten-node quadratic tetrahedron on the reference simplex: four
    vertex nodes and six mid-edge nodes, integrated with the four-point
    symmetric rule. Its shape functions are written in the barycentric
    coordinates `xi_0 = 1 - xi_1 - xi_2 - xi_3`, `xi_1`, `xi_2`, `xi_3`. */
module QuadraticTetrahedron {
  import opened Base
  import opened Parametric
  import LinearTetrahedron

  const N: nat := 10

  /** The two abscissae of the four-point rule, as written in the source:
      `(5 + 3 sqrt 5) / 20` and `(5 - sqrt 5) / 20` to 15 decimals. */
  const ALPHA: real := 0.585410196624968
  const BETA: real := 0.138196601125010

  /** `integration_points`: the point near the origin, then the point near
      each of the three axis vertices. */
  function IntegrationPoints(): (p: seq<Vec3>)
    ensures |p| == 4
  {
    [Vec3(BETA, BETA, BETA), Vec3(ALPHA, BETA, BETA), Vec3(BETA, ALPHA, BETA), Vec3(BETA, BETA, ALPHA)]
  }

  /** Every point lies strictly inside the simplex, and point `g > 0` is
      point `0` with coordinate `g` moved from `BETA` to `ALPHA`. */
  lemma IntegrationPointsInside()
    ensures forall g :: 0 <= g < 4 ==> LinearTetrahedron.InSimplex(IntegrationPoints()[g])
    ensures forall g :: 0 <= g < 4 ==> IntegrationPoints()[g].x + IntegrationPoints()[g].y + IntegrationPoints()[g].z < 1.0
    ensures forall g :: 1 <= g < 4 ==> IntegrationPoints()[g] == Along(IntegrationPoints()[0], g - 1, ALPHA - BETA)
  {
  }

  /** `parametric_weights`: `1/24` for each of the four points. */
  function ParametricWeights(): (w: seq<real>)
    ensures |w| == |IntegrationPoints()|
  {
    [1.0 / 24.0, 1.0 / 24.0, 1.0 / 24.0, 1.0 / 24.0]
  }

  /** Together the weights give the simplex's volume. */
  lemma WeightsSum()
    ensures Sum(ParametricWeights()) == 1.0 / 6.0
  {
    Sum4(ParametricWeights());
  }

  /** `parametric_reference`: the four vertices, then the midpoints of the
      edges 0-1, 1-2, 0-2, 0-3, 1-3 and 2-3. */
  function ParametricReference(): (r: seq<Vec3>)
    ensures |r| == N
  {
    [Vec3(0.0, 0.0, 0.0), Vec3(1.0, 0.0, 0.0), Vec3(0.0, 1.0, 0.0), Vec3(0.0, 0.0, 1.0),
     Vec3(0.5, 0.0, 0.0), Vec3(0.5, 0.5, 0.0), Vec3(0.0, 0.5, 0.0),
     Vec3(0.0, 0.0, 0.5), Vec3(0.5, 0.0, 0.5), Vec3(0.0, 0.5, 0.5)]
  }

  /** The first barycentric coordinate. */
  function Xi0(xi: Vec3): real {
    1.0 - xi.x - xi.y - xi.z
  }

  /** `shape_functions`: `xi_k (2 xi_k - 1)` at each vertex and
      `4 xi_i xi_j` at the midpoint of edge `i-j`. */
  function ShapeFunctions(xi: Vec3): (n: seq<real>)
    ensures |n| == N
  {
    var x0, x1, x2, x3 := Xi0(xi), xi.x, xi.y, xi.z;
    [x0 * (2.0 * x0 - 1.0), x1 * (2.0 * x1 - 1.0), x2 * (2.0 * x2 - 1.0), x3 * (2.0 * x3 - 1.0),
     4.0 * x0 * x1, 4.0 * x1 * x2, 4.0 * x0 * x2, 4.0 * x0 * x3, 4.0 * x1 * x3, 4.0 * x2 * x3]
  }

  /** The shape functions add up to one everywhere. */
  lemma PartitionOfUnity(xi: Vec3)
    ensures Sum(ShapeFunctions(xi)) == 1.0
  {
    Sum10(ShapeFunctions(xi));
  }

  /** Shape function `a` is one at reference node `a` and zero at the
      other nine. */
  lemma Kronecker()
    ensures forall b :: 0 <= b < N ==> ShapeFunctions(ParametricReference()[b]) == Unit(N, b)
  {
    KroneckerVertices();
    KroneckerEdges();
  }

  lemma KroneckerVertices()
    ensures forall b :: 0 <= b < 4 ==> ShapeFunctions(ParametricReference()[b]) == Unit(N, b)
  {
  }

  lemma KroneckerEdges()
    ensures forall b :: 4 <= b < N ==> ShapeFunctions(ParametricReference()[b]) == Unit(N, b)
  {
  }

  /** `shape_functions_gradients`. */
  function ShapeFunctionsGradients(xi: Vec3): (g: seq<Vec3>)
    ensures |g| == N
  {
    var x0, x1, x2, x3 := Xi0(xi), xi.x, xi.y, xi.z;
    [Vec3(-4.0 * x0 + 1.0, -4.0 * x0 + 1.0, -4.0 * x0 + 1.0),
     Vec3(4.0 * x1 - 1.0, 0.0, 0.0),
     Vec3(0.0, 4.0 * x2 - 1.0, 0.0),
     Vec3(0.0, 0.0, 4.0 * x3 - 1.0),
     Vec3(4.0 * (x0 - x1), -4.0 * x1, -4.0 * x1),
     Vec3(4.0 * x2, 4.0 * x1, 0.0),
     Vec3(-4.0 * x2, 4.0 * (x0 - x2), -4.0 * x2),
     Vec3(-4.0 * x3, -4.0 * x3, 4.0 * (x0 - x3)),
     Vec3(4.0 * x3, 0.0, 4.0 * x1),
     Vec3(0.0, 4.0 * x3, 4.0 * x2)]
  }

  /** The gradients add up to zero in each direction. */
  lemma GradientsSumToZero(xi: Vec3)
    ensures SumVec3(ShapeFunctionsGradients(xi)) == ZERO3
  {
    SumVec3Of10(ShapeFunctionsGradients(xi));
  }

  /** The central differences entry by entry: the vertex functions, then
      each edge function through `EdgeCentral`. A step `v` moves `xi_0` by
      minus the sum of its components. */
  lemma CentralVertices(xi: Vec3, v: Vec3)
    ensures var p, m, g := ShapeFunctions(xi.Plus(v)), ShapeFunctions(xi.Minus(v)), ShapeFunctionsGradients(xi);
      p[0] - m[0] == 2.0 * g[0].Inner(v)
      && p[1] - m[1] == 2.0 * g[1].Inner(v)
      && p[2] - m[2] == 2.0 * g[2].Inner(v)
      && p[3] - m[3] == 2.0 * g[3].Inner(v)
  {
    var p, m, g := ShapeFunctions(xi.Plus(v)), ShapeFunctions(xi.Minus(v)), ShapeFunctionsGradients(xi);
    var d0 := -(v.x + v.y + v.z);
    assert Xi0(xi.Plus(v)) == Xi0(xi) + d0 && Xi0(xi.Minus(v)) == Xi0(xi) - d0;
    VertexCentral(Xi0(xi), d0);
    assert g[0].Inner(v) == (4.0 * Xi0(xi) - 1.0) * d0;
    VertexCentral(xi.x, v.x);
    assert g[1].Inner(v) == (4.0 * xi.x - 1.0) * v.x;
    VertexCentral(xi.y, v.y);
    assert g[2].Inner(v) == (4.0 * xi.y - 1.0) * v.y;
    VertexCentral(xi.z, v.z);
    assert g[3].Inner(v) == (4.0 * xi.z - 1.0) * v.z;
  }

  /** The central difference of a vertex function `s (2 s - 1)`. */
  lemma VertexCentral(s: real, ds: real)
    ensures (s + ds) * (2.0 * (s + ds) - 1.0) - (s - ds) * (2.0 * (s - ds) - 1.0) == 2.0 * ((4.0 * s - 1.0) * ds)
  {
  }

  lemma CentralEdge4(xi: Vec3, v: Vec3)
    ensures var p, m, g := ShapeFunctions(xi.Plus(v)), ShapeFunctions(xi.Minus(v)), ShapeFunctionsGradients(xi);
      p[4] - m[4] == 2.0 * g[4].Inner(v)
  {
    var d0 := -(v.x + v.y + v.z);
    assert Xi0(xi.Plus(v)) == Xi0(xi) + d0 && Xi0(xi.Minus(v)) == Xi0(xi) - d0;
    EdgeCentral(Xi0(xi), xi.x, d0, v.x);
  }

  lemma CentralEdge5(xi: Vec3, v: Vec3)
    ensures var p, m, g := ShapeFunctions(xi.Plus(v)), ShapeFunctions(xi.Minus(v)), ShapeFunctionsGradients(xi);
      p[5] - m[5] == 2.0 * g[5].Inner(v)
  {
    var p, m, g := ShapeFunctions(xi.Plus(v)), ShapeFunctions(xi.Minus(v)), ShapeFunctionsGradients(xi);
    assert p[5] == 4.0 * (xi.x + v.x) * (xi.y + v.y) && m[5] == 4.0 * (xi.x - v.x) * (xi.y - v.y);
    assert g[5].Inner(v) == 4.0 * xi.y * v.x + 4.0 * xi.x * v.y + 0.0 * v.z;
    EdgeCentral(xi.x, xi.y, v.x, v.y);
  }

  lemma CentralEdge6(xi: Vec3, v: Vec3)
    ensures var p, m, g := ShapeFunctions(xi.Plus(v)), ShapeFunctions(xi.Minus(v)), ShapeFunctionsGradients(xi);
      p[6] - m[6] == 2.0 * g[6].Inner(v)
  {
    var d0 := -(v.x + v.y + v.z);
    assert Xi0(xi.Plus(v)) == Xi0(xi) + d0 && Xi0(xi.Minus(v)) == Xi0(xi) - d0;
    EdgeCentral(Xi0(xi), xi.y, d0, v.y);
  }

  lemma CentralEdge7(xi: Vec3, v: Vec3)
    ensures var p, m, g := ShapeFunctions(xi.Plus(v)), ShapeFunctions(xi.Minus(v)), ShapeFunctionsGradients(xi);
      p[7] - m[7] == 2.0 * g[7].Inner(v)
  {
    var d0 := -(v.x + v.y + v.z);
    assert Xi0(xi.Plus(v)) == Xi0(xi) + d0 && Xi0(xi.Minus(v)) == Xi0(xi) - d0;
    EdgeCentral(Xi0(xi), xi.z, d0, v.z);
  }

  lemma CentralEdge8(xi: Vec3, v: Vec3)
    ensures var p, m, g := ShapeFunctions(xi.Plus(v)), ShapeFunctions(xi.Minus(v)), ShapeFunctionsGradients(xi);
      p[8] - m[8] == 2.0 * g[8].Inner(v)
  {
    EdgeCentral(xi.x, xi.z, v.x, v.z);
  }

  lemma CentralEdge9(xi: Vec3, v: Vec3)
    ensures var p, m, g := ShapeFunctions(xi.Plus(v)), ShapeFunctions(xi.Minus(v)), ShapeFunctionsGradients(xi);
      p[9] - m[9] == 2.0 * g[9].Inner(v)
  {
    EdgeCentral(xi.y, xi.z, v.y, v.z);
  }

  /** The central difference of an edge function `4 s t`. */
  lemma EdgeCentral(s: real, t: real, ds: real, dt: real)
    ensures 4.0 * (s + ds) * (t + dt) - 4.0 * (s - ds) * (t - dt) == 8.0 * (s * dt + t * ds)
  {
  }

  /** The gradients are the shape functions' rates of change: the shape
      functions are quadratic, so for any step `v` the central difference
      `N_a(xi + v) - N_a(xi - v)` is exactly twice the gradient of `N_a` at
      `xi` applied to `v`. */
  lemma GradientsAreCentralDifferences(xi: Vec3, v: Vec3)
    ensures forall a :: 0 <= a < N ==>
      ShapeFunctions(xi.Plus(v))[a] - ShapeFunctions(xi.Minus(v))[a] == 2.0 * ShapeFunctionsGradients(xi)[a].Inner(v)
  {
    CentralVertices(xi, v);
    CentralEdge4(xi, v);
    CentralEdge5(xi, v);
    CentralEdge6(xi, v);
    CentralEdge7(xi, v);
    CentralEdge8(xi, v);
    CentralEdge9(xi, v);
  }
}
