/** The four-node bilinear quadrilateral surface element on the reference
    square `[-1, 1]^2`, integrated with the two-point Gauss rule in each
    direction. */
module LinearQuadrilateral {
  import opened Base
  import opened Parametric

  const N: nat := 4

  /** `integration_points`: `(+/-1/sqrt(3), +/-1/sqrt(3))`, counter-clockwise
      from `(-, -)`. */
  function IntegrationPoints(): (p: seq<Point2>)
    ensures |p| == N
  {
    var f := FRAC_1_SQRT_3;
    [Point2(-f, -f), Point2(f, -f), Point2(f, f), Point2(-f, f)]
  }

  /** `parametric_weights`: one for each point. */
  function ParametricWeights(): (w: seq<real>)
    ensures |w| == N
  {
    [1.0, 1.0, 1.0, 1.0]
  }

  /** Together the weights give the square's area. */
  lemma WeightsSum()
    ensures Sum(ParametricWeights()) == 4.0
  {
    Sum4(ParametricWeights());
  }

  /** `parametric_reference`: the corners, counter-clockwise from
      `(-1, -1)`. */
  function ParametricReference(): (r: seq<Point2>)
    ensures |r| == N
  {
    [Point2(-1.0, -1.0), Point2(1.0, -1.0), Point2(1.0, 1.0), Point2(-1.0, 1.0)]
  }

  /** Integration point `g` is corner `g` pulled in by `1/sqrt(3)`: the
      points visit the sign patterns in the corners' order. */
  lemma IntegrationPointsAreScaledCorners()
    ensures forall g :: 0 <= g < N ==>
              IntegrationPoints()[g] == Point2(FRAC_1_SQRT_3 * ParametricReference()[g].xi1, FRAC_1_SQRT_3 * ParametricReference()[g].xi2)
  {
  }

  /** `shape_functions`. */
  function ShapeFunctions(xi: Point2): (n: seq<real>)
    ensures |n| == N
  {
    [(1.0 - xi.xi1) * (1.0 - xi.xi2) / 4.0,
     (1.0 + xi.xi1) * (1.0 - xi.xi2) / 4.0,
     (1.0 + xi.xi1) * (1.0 + xi.xi2) / 4.0,
     (1.0 - xi.xi1) * (1.0 + xi.xi2) / 4.0]
  }

  /** The shape functions add up to one everywhere. */
  lemma PartitionOfUnity(xi: Point2)
    ensures Sum(ShapeFunctions(xi)) == 1.0
  {
    Sum4(ShapeFunctions(xi));
  }

  /** Shape function `a` is one at corner `a` and zero at the others. */
  lemma Kronecker()
    ensures forall b :: 0 <= b < N ==> ShapeFunctions(ParametricReference()[b]) == Unit(N, b)
  {
  }

  /** `shape_functions_gradients`. */
  function ShapeFunctionsGradients(xi: Point2): (g: seq<Point2>)
    ensures |g| == N
  {
    [Point2(-(1.0 - xi.xi2) / 4.0, -(1.0 - xi.xi1) / 4.0),
     Point2((1.0 - xi.xi2) / 4.0, -(1.0 + xi.xi1) / 4.0),
     Point2((1.0 + xi.xi2) / 4.0, (1.0 + xi.xi1) / 4.0),
     Point2(-(1.0 + xi.xi2) / 4.0, (1.0 - xi.xi1) / 4.0)]
  }

  /** Column `c` of a list of gradients. */
  function Column(g: seq<Point2>, c: int): (r: seq<real>)
    ensures |r| == |g| && forall a :: 0 <= a < |g| ==> r[a] == g[a].At(c)
  {
    seq(|g|, a requires 0 <= a < |g| => g[a].At(c))
  }

  /** The gradients add up to zero in each direction. */
  lemma GradientsSumToZero(xi: Point2, c: int)
    requires 0 <= c < 2
    ensures Sum(Column(ShapeFunctionsGradients(xi), c)) == 0.0
  {
    Sum4(Column(ShapeFunctionsGradients(xi), c));
  }

  /** The gradients are the shape functions' rates of change: the shape
      functions are bilinear, so for any step `v` the central difference
      `N_a(xi + v) - N_a(xi - v)` is exactly twice the gradient of `N_a` at
      `xi` applied to `v`. */
  lemma GradientsAreCentralDifferences(xi: Point2, v: Point2)
    ensures forall a :: 0 <= a < N ==>
              ShapeFunctions(xi.Plus(v))[a] - ShapeFunctions(xi.Minus(v))[a] == 2.0 * ShapeFunctionsGradients(xi)[a].Inner(v)
  {
    CentralEntries(xi, v);
  }

  lemma CentralEntries(xi: Point2, v: Point2)
    ensures var p, m, g := ShapeFunctions(xi.Plus(v)), ShapeFunctions(xi.Minus(v)), ShapeFunctionsGradients(xi);
      p[0] - m[0] == 2.0 * g[0].Inner(v)
      && p[1] - m[1] == 2.0 * g[1].Inner(v)
      && p[2] - m[2] == 2.0 * g[2].Inner(v)
      && p[3] - m[3] == 2.0 * g[3].Inner(v)
  {
  }
}
