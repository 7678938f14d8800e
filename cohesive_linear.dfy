/** The linear cohesive element: `N = 2 * P` nodes, the first `P` on the
    bottom face and the last `P` on the top face, node `a` of the bottom
    facing node `a + P` of the top. The element's kinematics is read off the
    two faces: their mid-surface and their separations. */
module CohesiveLinear {
  import opened Base

  /** `nodal_mid_surface_linear`: the midpoint of each facing pair,
      `(top + bottom) * 0.5`. */
  function MidSurface(x: seq<Vec3>, p: nat): (m: seq<Vec3>)
    requires |x| == p + p
    ensures |m| == p
  {
    seq(p, a requires 0 <= a < p => x[a + p].Plus(x[a]).Scale(0.5))
  }

  /** `nodal_separations_linear`: how far each top node has moved from the
      bottom node it faces, `top - bottom`. */
  function Separations(x: seq<Vec3>, p: nat): (s: seq<Vec3>)
    requires |x| == p + p
    ensures |s| == p
  {
    seq(p, a requires 0 <= a < p => x[a + p].Minus(x[a]))
  }

  /** The two faces come back from the mid-surface and the separations:
      the bottom node sits half a separation below the mid-surface and the
      top node half a separation above it. */
  lemma FacesFromMidSurface(x: seq<Vec3>, p: nat, a: nat)
    requires |x| == p + p && a < p
    ensures x[a] == MidSurface(x, p)[a].Minus(Separations(x, p)[a].Scale(0.5))
    ensures x[a + p] == MidSurface(x, p)[a].Plus(Separations(x, p)[a].Scale(0.5))
  {
  }

  /** The faces coincide exactly when every separation is zero. */
  predicate Coincident(x: seq<Vec3>, p: nat)
    requires |x| == p + p
  {
    forall a :: 0 <= a < p ==> x[a] == x[a + p]
  }

  lemma CoincidentSeparations(x: seq<Vec3>, p: nat)
    requires |x| == p + p
    ensures Coincident(x, p) <==> forall a :: 0 <= a < p ==> Separations(x, p)[a] == ZERO3
  {
    if forall a :: 0 <= a < p ==> Separations(x, p)[a] == ZERO3 {
      forall a | 0 <= a < p
        ensures x[a] == x[a + p]
      {
        assert Separations(x, p)[a] == ZERO3;
      }
    }
  }

  /** Coinciding faces are their own mid-surface. */
  lemma CoincidentMidSurface(x: seq<Vec3>, p: nat)
    requires |x| == p + p && Coincident(x, p)
    ensures MidSurface(x, p) == x[..p]
  {
    forall a | 0 <= a < p
      ensures MidSurface(x, p)[a] == x[a]
    {
      assert x[a + p] == x[a];
    }
  }

  /** `signs_linear`: `-1` for each bottom node, then `+1` for each top
      node. */
  function Signs(p: nat): (s: seq<real>)
    ensures |s| == p + p
  {
    Repeat(-1.0, p) + Repeat(1.0, p)
  }

  /** `repeat_n(c, n)`. */
  function Repeat(c: real, n: nat): (s: seq<real>)
    ensures |s| == n && forall a :: 0 <= a < n ==> s[a] == c
  {
    seq(n, _ => c)
  }

  lemma {:induction false} RepeatSum(c: real, n: nat)
    ensures Sum(Repeat(c, n)) == (n as real) * c
  {
    if n > 0 {
      RepeatSum(c, n - 1);
      assert Repeat(c, n)[..n - 1] == Repeat(c, n - 1);
    }
  }

  /** The signs cancel. */
  lemma SignsSum(p: nat)
    ensures Sum(Signs(p)) == 0.0
  {
    SumAppend(Repeat(-1.0, p), Repeat(1.0, p));
    RepeatSum(-1.0, p);
    RepeatSum(1.0, p);
  }

  /** Each vector scaled by its sign. */
  function Signed(signs: seq<real>, x: seq<Vec3>): (r: seq<Vec3>)
    requires |signs| == |x|
    ensures |r| == |x| && forall a :: 0 <= a < |x| ==> r[a] == x[a].Scale(signs[a])
  {
    seq(|x|, a requires 0 <= a < |x| => x[a].Scale(signs[a]))
  }

  /** Weighting the nodes by their signs and adding up gives the total of
      the separations. */
  lemma SignedSumIsSeparation(x: seq<Vec3>, p: nat)
    requires |x| == p + p
    ensures SumVec3(Signed(Signs(p), x)) == SumVec3(Separations(x, p))
  {
    var bottom, top := x[..p], x[p..];
    SignedSplit(x, p);
    SumVec3Append(Negated(bottom), top);
    SumNegated(bottom);
    SeparationsSplit(x, p);
    SumDifferences(top, bottom);
    var b, t := SumVec3(bottom), SumVec3(top);
    assert b.Scale(-1.0).Plus(t) == t.Minus(b);
  }

  lemma SignedSplit(x: seq<Vec3>, p: nat)
    requires |x| == p + p
    ensures Signed(Signs(p), x) == Negated(x[..p]) + x[p..]
  {
    var l, r := Signed(Signs(p), x), Negated(x[..p]) + x[p..];
    forall a | 0 <= a < |x|
      ensures l[a] == r[a]
    {
      if a >= p {
        assert Signs(p)[a] == 1.0 && r[a] == x[a];
      }
    }
  }

  lemma SeparationsSplit(x: seq<Vec3>, p: nat)
    requires |x| == p + p
    ensures Separations(x, p) == Differences(x[p..], x[..p])
  {
  }

  function Negated(u: seq<Vec3>): (r: seq<Vec3>)
    ensures |r| == |u| && forall a :: 0 <= a < |u| ==> r[a] == u[a].Scale(-1.0)
  {
    seq(|u|, a requires 0 <= a < |u| => u[a].Scale(-1.0))
  }

  function Differences(v: seq<Vec3>, u: seq<Vec3>): (r: seq<Vec3>)
    requires |v| == |u|
    ensures |r| == |u| && forall a :: 0 <= a < |u| ==> r[a] == v[a].Minus(u[a])
  {
    seq(|u|, a requires 0 <= a < |u| => v[a].Minus(u[a]))
  }

  lemma {:induction false} SumNegated(u: seq<Vec3>)
    ensures SumVec3(Negated(u)) == SumVec3(u).Scale(-1.0)
  {
    if |u| > 0 {
      var n := |u| - 1;
      SumNegated(u[..n]);
      assert Negated(u)[..n] == Negated(u[..n]);
    }
  }

  lemma {:induction false} SumDifferences(v: seq<Vec3>, u: seq<Vec3>)
    requires |v| == |u|
    ensures SumVec3(Differences(v, u)) == SumVec3(v).Minus(SumVec3(u))
  {
    if |u| > 0 {
      var n := |u| - 1;
      SumDifferences(v[..n], u[..n]);
      assert Differences(v, u)[..n] == Differences(v[..n], u[..n]);
    }
  }

  /** `normal_gradients_full_linear`: at each integration point, the normal
      gradients with respect to the `P` mid-surface nodes, listed once for
      the bottom nodes and once more for the top nodes. The gradients
      themselves come from the surface element and are a parameter. */
  function NormalGradientsFull<T>(gradients: seq<seq<T>>): (r: seq<seq<T>>)
    ensures |r| == |gradients|
    ensures forall g :: 0 <= g < |r| ==>
              |r[g]| == |gradients[g]| + |gradients[g]|
              && r[g][..|gradients[g]|] == gradients[g] && r[g][|gradients[g]|..] == gradients[g]
  {
    seq(|gradients|, g requires 0 <= g < |gradients| => gradients[g] + gradients[g])
  }

  /** A full list of vectors built the same way reads as two coinciding
      faces: no separation, and its own mid-surface. */
  lemma DoubledIsCoincident(u: seq<Vec3>)
    ensures Coincident(u + u, |u|)
    ensures MidSurface(u + u, |u|) == u
  {
    var p := |u|;
    assert forall a :: 0 <= a < p ==> (u + u)[a] == u[a] && (u + u)[a + p] == u[a];
    CoincidentMidSurface(u + u, p);
    assert (u + u)[..p] == u;
  }
}
