/** What the elements' shape-function modules share: parametric points in
    two and three dimensions, the shift of a point along one parametric
    direction (to compare gradients with differences of shape functions),
    and the Gauss abscissa `1 / sqrt(3)` as the 64-bit constant the elements
    use. */
module Parametric {
  import opened Base

  /** A parametric coordinate on a surface element. */
  datatype Point2 = Point2(xi1: real, xi2: real) {
    /** Component `c` (`0` or `1`). */
    function At(c: int): real { if c == 0 then xi1 else xi2 }
    function Plus(o: Point2): Point2 { Point2(xi1 + o.xi1, xi2 + o.xi2) }
    function Minus(o: Point2): Point2 { Point2(xi1 - o.xi1, xi2 - o.xi2) }
    function Inner(o: Point2): real { xi1 * o.xi1 + xi2 * o.xi2 }
  }

  /** `FRAC_1_SQRT_3`, the positive abscissa of the two-point Gauss rule. */
  const FRAC_1_SQRT_3: real := 0.5773502691896258

  /** `xi` moved by `h` along parametric direction `c`. */
  function Along(xi: Vec3, c: Idx, h: real): (r: Vec3)
    ensures r.At(c) == xi.At(c) + h
    ensures forall e: Idx :: e != c ==> r.At(e) == xi.At(e)
  {
    if c == 0 then Vec3(xi.x + h, xi.y, xi.z)
    else if c == 1 then Vec3(xi.x, xi.y + h, xi.z)
    else Vec3(xi.x, xi.y, xi.z + h)
  }

  /** `-1.0` for a cleared bit, `1.0` for a set one. */
  function SignOf(bit: int): real {
    if bit == 0 then -1.0 else 1.0
  }

  /** The vector whose entry `a` is one and every other entry zero: the
      values the shape functions take at reference node `a`. */
  function Unit(n: nat, a: nat): (u: seq<real>)
    ensures |u| == n && forall b :: 0 <= b < n ==> u[b] == Delta(a, b)
  {
    seq(n, b => Delta(a, b))
  }

  // Sums of short literal lists, entry by entry

  lemma SumStep(s: seq<real>, k: nat)
    requires 0 < k <= |s|
    ensures Sum(s[..k]) == Sum(s[..k - 1]) + s[k - 1]
  {
    assert s[..k][..k - 1] == s[..k - 1];
  }

  lemma SumVec3Step(s: seq<Vec3>, k: nat)
    requires 0 < k <= |s|
    ensures SumVec3(s[..k]) == SumVec3(s[..k - 1]).Plus(s[k - 1])
  {
    assert s[..k][..k - 1] == s[..k - 1];
  }

  lemma Sum4(s: seq<real>)
    requires |s| == 4
    ensures Sum(s) == s[0] + s[1] + s[2] + s[3]
  {
    assert s[..4] == s;
    SumStep(s, 4);
    SumStep(s, 3);
    SumStep(s, 2);
    SumStep(s, 1);
  }

  lemma Sum8(s: seq<real>)
    requires |s| == 8
    ensures Sum(s) == s[0] + s[1] + s[2] + s[3] + s[4] + s[5] + s[6] + s[7]
  {
    assert s[..8] == s;
    SumStep(s, 8);
    SumStep(s, 7);
    SumStep(s, 6);
    SumStep(s, 5);
    SumStep(s, 4);
    SumStep(s, 3);
    SumStep(s, 2);
    SumStep(s, 1);
  }

  lemma Sum10(s: seq<real>)
    requires |s| == 10
    ensures Sum(s) == s[0] + s[1] + s[2] + s[3] + s[4] + s[5] + s[6] + s[7] + s[8] + s[9]
  {
    assert s[..10] == s;
    SumStep(s, 10);
    SumStep(s, 9);
    SumStep(s, 8);
    SumStep(s, 7);
    SumStep(s, 6);
    SumStep(s, 5);
    SumStep(s, 4);
    SumStep(s, 3);
    SumStep(s, 2);
    SumStep(s, 1);
  }

  lemma SumVec3Of4(s: seq<Vec3>)
    requires |s| == 4
    ensures SumVec3(s) == ZERO3.Plus(s[0]).Plus(s[1]).Plus(s[2]).Plus(s[3])
  {
    assert s[..4] == s;
    SumVec3Step(s, 4);
    SumVec3Step(s, 3);
    SumVec3Step(s, 2);
    SumVec3Step(s, 1);
  }

  lemma SumVec3Of8(s: seq<Vec3>)
    requires |s| == 8
    ensures SumVec3(s) == ZERO3.Plus(s[0]).Plus(s[1]).Plus(s[2]).Plus(s[3]).Plus(s[4]).Plus(s[5]).Plus(s[6]).Plus(s[7])
  {
    assert s[..8] == s;
    SumVec3Step(s, 8);
    SumVec3Step(s, 7);
    SumVec3Step(s, 6);
    SumVec3Step(s, 5);
    SumVec3Step(s, 4);
    SumVec3Step(s, 3);
    SumVec3Step(s, 2);
    SumVec3Step(s, 1);
  }

  lemma SumVec3Of10(s: seq<Vec3>)
    requires |s| == 10
    ensures SumVec3(s) == ZERO3.Plus(s[0]).Plus(s[1]).Plus(s[2]).Plus(s[3]).Plus(s[4]).Plus(s[5]).Plus(s[6]).Plus(s[7]).Plus(s[8]).Plus(s[9])
  {
    assert s[..10] == s;
    SumVec3Step(s, 10);
    SumVec3Step(s, 9);
    SumVec3Step(s, 8);
    SumVec3Step(s, 7);
    SumVec3Step(s, 6);
    SumVec3Step(s, 5);
    SumVec3Step(s, 4);
    SumVec3Step(s, 3);
    SumVec3Step(s, 2);
    SumVec3Step(s, 1);
  }
}
