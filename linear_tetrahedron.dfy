/** The four-node linear tetrahedron on the reference simplex
    `xi_1, xi_2, xi_3 >= 0`, `xi_1 + xi_2 + xi_3 <= 1`, integrated with one
    point. */
module LinearTetrahedron {
  import opened Base
  import opened Parametric

  const N: nat := 4

  /** `integration_points`: the centroid. */
  function IntegrationPoints(): (p: seq<Vec3>)
    ensures |p| == 1 && p[0].x == p[0].y == p[0].z && InSimplex(p[0])
    ensures p[0].x + p[0].y + p[0].z + p[0].x == 1.0
  {
    [Vec3(0.25, 0.25, 0.25)]
  }

  /** The reference simplex. */
  predicate InSimplex(xi: Vec3) {
    xi.x >= 0.0 && xi.y >= 0.0 && xi.z >= 0.0 && xi.x + xi.y + xi.z <= 1.0
  }

  /** `parametric_weights`: the single point carries the simplex's volume. */
  function ParametricWeights(): (w: seq<real>)
    ensures |w| == |IntegrationPoints()| && Sum(w) == 1.0 / 6.0
  {
    var w := [1.0 / 6.0];
    assert w[..0] == [];
    w
  }

  /** `parametric_reference`: the origin and the unit point on each axis. */
  function ParametricReference(): (r: seq<Vec3>)
    ensures |r| == N
  {
    [Vec3(0.0, 0.0, 0.0), Vec3(1.0, 0.0, 0.0), Vec3(0.0, 1.0, 0.0), Vec3(0.0, 0.0, 1.0)]
  }

  /** The reference nodes are the corners of the simplex. */
  lemma ReferenceInSimplex()
    ensures forall a :: 0 <= a < N ==> InSimplex(ParametricReference()[a])
  {
  }

  /** `shape_functions`: the barycentric coordinates. */
  function ShapeFunctions(xi: Vec3): (n: seq<real>)
    ensures |n| == N
  {
    [1.0 - xi.x - xi.y - xi.z, xi.x, xi.y, xi.z]
  }

  /** The shape functions add up to one everywhere. */
  lemma PartitionOfUnity(xi: Vec3)
    ensures Sum(ShapeFunctions(xi)) == 1.0
  {
    Sum4(ShapeFunctions(xi));
  }

  /** `shape_functions_gradients`: one constant row per node. */
  function ShapeFunctionsGradients(xi: Vec3): (g: seq<Vec3>)
    ensures |g| == N
  {
    [Vec3(-1.0, -1.0, -1.0), Vec3(1.0, 0.0, 0.0), Vec3(0.0, 1.0, 0.0), Vec3(0.0, 0.0, 1.0)]
  }

  /** The gradients add up to zero in each direction. */
  lemma GradientsSumToZero(xi: Vec3)
    ensures SumVec3(ShapeFunctionsGradients(xi)) == ZERO3
  {
    SumVec3Of4(ShapeFunctionsGradients(xi));
  }

  /** Shape function `a` is one at reference node `a` and zero at the
      others. */
  lemma Kronecker()
    ensures forall b :: 0 <= b < N ==> ShapeFunctions(ParametricReference()[b]) == Unit(N, b)
  {
  }

  /** The gradients are the shape functions' rates of change: a step `h`
      along direction `c` changes shape function `a` by exactly `h` times
      gradient entry `[a][c]`, wherever the step starts. */
  lemma GradientsAreSlopes(xi: Vec3, c: Idx, h: real)
    ensures forall a :: 0 <= a < N ==>
              ShapeFunctions(Along(xi, c, h))[a] - ShapeFunctions(xi)[a] == h * ShapeFunctionsGradients(xi)[a].At(c)
  {
  }

  /** The gradients do not depend on the point. */
  lemma GradientsConstant(xi: Vec3, eta: Vec3)
    ensures ShapeFunctionsGradients(xi) == ShapeFunctionsGradients(eta)
  {
  }
}
