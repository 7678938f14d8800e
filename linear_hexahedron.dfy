/** The eight-node trilinear hexahedron on the reference cube `[-1, 1]^3`,
    integrated with the two-point Gauss rule in each direction. */
module LinearHexahedron {
  import opened Base
  import opened Parametric

  const N: nat := 8

  /** `integration_points`: `(+/-1/sqrt(3), +/-1/sqrt(3), +/-1/sqrt(3))`. */
  function IntegrationPoints(): (p: seq<Vec3>)
    ensures |p| == N
  {
    var f := FRAC_1_SQRT_3;
    [Vec3(-f, -f, -f), Vec3(-f, -f, f), Vec3(-f, f, -f), Vec3(-f, f, f),
     Vec3(f, -f, -f), Vec3(f, -f, f), Vec3(f, f, -f), Vec3(f, f, f)]
  }

  /** The points run through the sign patterns in binary order: the signs
      of point `g` are the bits of `g`, most significant first, a cleared
      bit giving a minus. So all eight patterns occur, each once. */
  lemma IntegrationPointsAreSignPatterns()
    ensures forall g :: 0 <= g < N ==>
              IntegrationPoints()[g] == Vec3(SignOf(g / 4) * FRAC_1_SQRT_3, SignOf(g / 2 % 2) * FRAC_1_SQRT_3, SignOf(g % 2) * FRAC_1_SQRT_3)
  {
  }

  lemma IntegrationPointsDistinct()
    ensures forall g, g' :: 0 <= g < g' < N ==> IntegrationPoints()[g] != IntegrationPoints()[g']
  {
  }

  /** `parametric_weights`: one for each point; together the cube's volume. */
  function ParametricWeights(): (w: seq<real>)
    ensures |w| == N
  {
    [1.0, 1.0, 1.0, 1.0, 1.0, 1.0, 1.0, 1.0]
  }

  lemma WeightsSum()
    ensures Sum(ParametricWeights()) == 8.0
  {
    Sum8(ParametricWeights());
  }

  /** `parametric_reference`: the corners, bottom face then top face, each
      counter-clockwise. */
  function ParametricReference(): (r: seq<Vec3>)
    ensures |r| == N
  {
    [Vec3(-1.0, -1.0, -1.0), Vec3(1.0, -1.0, -1.0), Vec3(1.0, 1.0, -1.0), Vec3(-1.0, 1.0, -1.0),
     Vec3(-1.0, -1.0, 1.0), Vec3(1.0, -1.0, 1.0), Vec3(1.0, 1.0, 1.0), Vec3(-1.0, 1.0, 1.0)]
  }

  /** `shape_functions`. */
  function ShapeFunctions(xi: Vec3): (n: seq<real>)
    ensures |n| == N
  {
    [(1.0 - xi.x) * (1.0 - xi.y) * (1.0 - xi.z) / 8.0,
     (1.0 + xi.x) * (1.0 - xi.y) * (1.0 - xi.z) / 8.0,
     (1.0 + xi.x) * (1.0 + xi.y) * (1.0 - xi.z) / 8.0,
     (1.0 - xi.x) * (1.0 + xi.y) * (1.0 - xi.z) / 8.0,
     (1.0 - xi.x) * (1.0 - xi.y) * (1.0 + xi.z) / 8.0,
     (1.0 + xi.x) * (1.0 - xi.y) * (1.0 + xi.z) / 8.0,
     (1.0 + xi.x) * (1.0 + xi.y) * (1.0 + xi.z) / 8.0,
     (1.0 - xi.x) * (1.0 + xi.y) * (1.0 + xi.z) / 8.0]
  }

  /** The trilinear function that belongs to corner `r`:
      `(1 + r_1 xi_1)(1 + r_2 xi_2)(1 + r_3 xi_3) / 8`. */
  function CornerFunction(r: Vec3, xi: Vec3): real {
    (1.0 + r.x * xi.x) * (1.0 + r.y * xi.y) * (1.0 + r.z * xi.z) / 8.0
  }

  /** Shape function `a` is the trilinear function of corner `a`. */
  lemma ShapeFunctionsOfCorners(xi: Vec3)
    ensures forall a :: 0 <= a < N ==> ShapeFunctions(xi)[a] == CornerFunction(ParametricReference()[a], xi)
  {
  }

  /** The shape functions add up to one everywhere. */
  lemma PartitionOfUnity(xi: Vec3)
    ensures Sum(ShapeFunctions(xi)) == 1.0
  {
    Sum8(ShapeFunctions(xi));
  }

  /** Shape function `a` is one at corner `a` and zero at the others. */
  lemma Kronecker()
    ensures forall b :: 0 <= b < N ==> ShapeFunctions(ParametricReference()[b]) == Unit(N, b)
  {
  }

  /** `shape_functions_gradients`. */
  function ShapeFunctionsGradients(xi: Vec3): (g: seq<Vec3>)
    ensures |g| == N
  {
    [Vec3(-(1.0 - xi.y) * (1.0 - xi.z) / 8.0, -(1.0 - xi.x) * (1.0 - xi.z) / 8.0, -(1.0 - xi.x) * (1.0 - xi.y) / 8.0),
     Vec3((1.0 - xi.y) * (1.0 - xi.z) / 8.0, -(1.0 + xi.x) * (1.0 - xi.z) / 8.0, -(1.0 + xi.x) * (1.0 - xi.y) / 8.0),
     Vec3((1.0 + xi.y) * (1.0 - xi.z) / 8.0, (1.0 + xi.x) * (1.0 - xi.z) / 8.0, -(1.0 + xi.x) * (1.0 + xi.y) / 8.0),
     Vec3(-(1.0 + xi.y) * (1.0 - xi.z) / 8.0, (1.0 - xi.x) * (1.0 - xi.z) / 8.0, -(1.0 - xi.x) * (1.0 + xi.y) / 8.0),
     Vec3(-(1.0 - xi.y) * (1.0 + xi.z) / 8.0, -(1.0 - xi.x) * (1.0 + xi.z) / 8.0, (1.0 - xi.x) * (1.0 - xi.y) / 8.0),
     Vec3((1.0 - xi.y) * (1.0 + xi.z) / 8.0, -(1.0 + xi.x) * (1.0 + xi.z) / 8.0, (1.0 + xi.x) * (1.0 - xi.y) / 8.0),
     Vec3((1.0 + xi.y) * (1.0 + xi.z) / 8.0, (1.0 + xi.x) * (1.0 + xi.z) / 8.0, (1.0 + xi.x) * (1.0 + xi.y) / 8.0),
     Vec3(-(1.0 + xi.y) * (1.0 + xi.z) / 8.0, (1.0 - xi.x) * (1.0 + xi.z) / 8.0, (1.0 - xi.x) * (1.0 + xi.y) / 8.0)]
  }

  /** The gradients add up to zero in each direction. */
  lemma GradientsSumToZero(xi: Vec3)
    ensures SumVec3(ShapeFunctionsGradients(xi)) == ZERO3
  {
    SumVec3Of8(ShapeFunctionsGradients(xi));
  }

  /** The gradient of the trilinear function of corner `r`. */
  function CornerGradient(r: Vec3, xi: Vec3): Vec3 {
    Vec3(r.x * (1.0 + r.y * xi.y) * (1.0 + r.z * xi.z) / 8.0,
         (1.0 + r.x * xi.x) * r.y * (1.0 + r.z * xi.z) / 8.0,
         (1.0 + r.x * xi.x) * (1.0 + r.y * xi.y) * r.z / 8.0)
  }

  /** Gradient `a` is the gradient of the trilinear function of corner `a`. */
  lemma GradientsOfCorners(xi: Vec3)
    ensures forall a :: 0 <= a < N ==> ShapeFunctionsGradients(xi)[a] == CornerGradient(ParametricReference()[a], xi)
  {
    forall a | 0 <= a < N
      ensures ShapeFunctionsGradients(xi)[a] == CornerGradient(ParametricReference()[a], xi)
    {
      GradientOfCorner(xi, a);
    }
  }

  lemma GradientOfCorner(xi: Vec3, a: nat)
    requires a < N
    ensures ShapeFunctionsGradients(xi)[a] == CornerGradient(ParametricReference()[a], xi)
  {
    if a == 0 {
      GradientOfCorner0(xi);
    } else if a == 1 {
      GradientOfCorner1(xi);
    } else if a == 2 {
      GradientOfCorner2(xi);
    } else if a == 3 {
      GradientOfCorner3(xi);
    } else if a == 4 {
      GradientOfCorner4(xi);
    } else if a == 5 {
      GradientOfCorner5(xi);
    } else if a == 6 {
      GradientOfCorner6(xi);
    } else {
      GradientOfCorner7(xi);
    }
  }

  lemma GradientOfCorner0(xi: Vec3)
    ensures ShapeFunctionsGradients(xi)[0] == CornerGradient(ParametricReference()[0], xi)
  {
  }

  lemma GradientOfCorner1(xi: Vec3)
    ensures ShapeFunctionsGradients(xi)[1] == CornerGradient(ParametricReference()[1], xi)
  {
  }

  lemma GradientOfCorner2(xi: Vec3)
    ensures ShapeFunctionsGradients(xi)[2] == CornerGradient(ParametricReference()[2], xi)
  {
  }

  lemma GradientOfCorner3(xi: Vec3)
    ensures ShapeFunctionsGradients(xi)[3] == CornerGradient(ParametricReference()[3], xi)
  {
  }

  lemma GradientOfCorner4(xi: Vec3)
    ensures ShapeFunctionsGradients(xi)[4] == CornerGradient(ParametricReference()[4], xi)
  {
  }

  lemma GradientOfCorner5(xi: Vec3)
    ensures ShapeFunctionsGradients(xi)[5] == CornerGradient(ParametricReference()[5], xi)
  {
  }

  lemma GradientOfCorner6(xi: Vec3)
    ensures ShapeFunctionsGradients(xi)[6] == CornerGradient(ParametricReference()[6], xi)
  {
  }

  lemma GradientOfCorner7(xi: Vec3)
    ensures ShapeFunctionsGradients(xi)[7] == CornerGradient(ParametricReference()[7], xi)
  {
  }

  /** A corner function is affine along each direction, with the slope its
      gradient gives. */
  lemma CornerSlope(r: Vec3, xi: Vec3, c: Idx, h: real)
    ensures CornerFunction(r, Along(xi, c, h)) - CornerFunction(r, xi) == h * CornerGradient(r, xi).At(c)
  {
    if c == 0 {
      SlopeX(r, xi, h);
    } else if c == 1 {
      SlopeY(r, xi, h);
    } else {
      SlopeZ(r, xi, h);
    }
  }

  lemma SlopeX(r: Vec3, xi: Vec3, h: real)
    ensures CornerFunction(r, Along(xi, 0, h)) - CornerFunction(r, xi) == h * CornerGradient(r, xi).At(0)
  {
    assert Along(xi, 0, h) == Vec3(xi.x + h, xi.y, xi.z);
  }

  lemma SlopeY(r: Vec3, xi: Vec3, h: real)
    ensures CornerFunction(r, Along(xi, 1, h)) - CornerFunction(r, xi) == h * CornerGradient(r, xi).At(1)
  {
    assert Along(xi, 1, h) == Vec3(xi.x, xi.y + h, xi.z);
  }

  lemma SlopeZ(r: Vec3, xi: Vec3, h: real)
    ensures CornerFunction(r, Along(xi, 2, h)) - CornerFunction(r, xi) == h * CornerGradient(r, xi).At(2)
  {
    assert Along(xi, 2, h) == Vec3(xi.x, xi.y, xi.z + h);
  }

  /** The gradients are the shape functions' rates of change: each shape
      function is affine along each parametric direction, so a step `h`
      along direction `c` changes shape function `a` by exactly `h` times
      gradient entry `[a][c]`. */
  lemma GradientsAreSlopes(xi: Vec3, c: Idx, h: real)
    ensures forall a :: 0 <= a < N ==>
              ShapeFunctions(Along(xi, c, h))[a] - ShapeFunctions(xi)[a] == h * ShapeFunctionsGradients(xi)[a].At(c)
  {
    forall a | 0 <= a < N
      ensures ShapeFunctions(Along(xi, c, h))[a] - ShapeFunctions(xi)[a] == h * ShapeFunctionsGradients(xi)[a].At(c)
    {
      SlopeAt(xi, c, h, a);
    }
  }

  lemma SlopeAt(xi: Vec3, c: Idx, h: real, a: nat)
    requires a < N
    ensures ShapeFunctions(Along(xi, c, h))[a] - ShapeFunctions(xi)[a] == h * ShapeFunctionsGradients(xi)[a].At(c)
  {
    ShapeFunctionsOfCorners(xi);
    ShapeFunctionsOfCorners(Along(xi, c, h));
    GradientsOfCorners(xi);
    SlopeFromTables(ShapeFunctions(xi), ShapeFunctions(Along(xi, c, h)), ShapeFunctionsGradients(xi), xi, c, h, a);
  }

  /** The slope identity carried over from the corner functions to any
      tables that agree with them. */
  lemma SlopeFromTables(n0: seq<real>, n1: seq<real>, g: seq<Vec3>, xi: Vec3, c: Idx, h: real, a: nat)
    requires |n0| == N && |n1| == N && |g| == N && a < N
    requires forall b :: 0 <= b < N ==> n0[b] == CornerFunction(ParametricReference()[b], xi)
    requires forall b :: 0 <= b < N ==> n1[b] == CornerFunction(ParametricReference()[b], Along(xi, c, h))
    requires forall b :: 0 <= b < N ==> g[b] == CornerGradient(ParametricReference()[b], xi)
    ensures n1[a] - n0[a] == h * g[a].At(c)
  {
    CornerSlope(ParametricReference()[a], xi, c, h);
  }
}
