/** `LinearInterpolation::interpolate_1d`: piecewise-linear interpolation
    of the values `fp` given at the knots `xp`, evaluated at each point of
    `x`. The values are modelled as scalars; a tensor-valued `fp` is
    interpolated the same way entry by entry. */
module Interpolate {
  import opened Base

  /** The ways the source panics, each with the index into `x` of the point
      that caused it: no knot lies above the point (`unwrap` of `None`), the
      first knot already lies above it (`i - 1` underflows), or there is no
      value for the knot found (`fp[i]` out of bounds). */
  datatype Panic = NothingAbove(k: nat) | NothingBelow(k: nat) | ValuesTooShort(k: nat)

  /** `xp.iter().position(|xp_i| xp_i > v)`: the first knot above `v`. */
  function Position(xp: seq<real>, v: real): (p: Option<nat>)
    ensures p.Some? ==> p.value < |xp| && xp[p.value] > v && forall j :: 0 <= j < p.value ==> xp[j] <= v
    ensures p.None? ==> forall j :: 0 <= j < |xp| ==> xp[j] <= v
  {
    PositionFrom(xp, v, 0)
  }

  function PositionFrom(xp: seq<real>, v: real, j: nat): (p: Option<nat>)
    requires j <= |xp|
    ensures p.Some? ==> j <= p.value < |xp| && xp[p.value] > v && forall l :: j <= l < p.value ==> xp[l] <= v
    ensures p.None? ==> forall l :: j <= l < |xp| ==> xp[l] <= v
    decreases |xp| - j
  {
    if j == |xp| then None
    else if xp[j] > v then Some(j)
    else PositionFrom(xp, v, j + 1)
  }

  /** The line through `(x0, f0)` and `(x1, f1)`, evaluated at `v`. */
  function Between(x0: real, x1: real, f0: real, f1: real, v: real): real
    requires x0 < x1
  {
    (f1 - f0) / (x1 - x0) * (v - x0) + f0
  }

  /** The interpolated value at point `k` of `x`, which is `v`. */
  function At(xp: seq<real>, fp: seq<real>, v: real, k: nat): Result<real, Panic> {
    match Position(xp, v)
    case None => Err(NothingAbove(k))
    case Some(i) =>
      if i >= |fp| then Err(ValuesTooShort(k))
      else if i == 0 then Err(NothingBelow(k))
      else Ok(Between(xp[i - 1], xp[i], fp[i - 1], fp[i], v))
  }

  /** The values at all points of `x`, or the panic of the first point that
      has none. */
  function Interpolated(x: seq<real>, xp: seq<real>, fp: seq<real>): Result<seq<real>, Panic> {
    if |x| == 0 then Ok([])
    else
      var n := |x| - 1;
      match Interpolated(x[..n], xp, fp)
      case Err(e) => Err(e)
      case Ok(r) =>
        match At(xp, fp, x[n], n)
        case Err(e) => Err(e)
        case Ok(y) => Ok(r + [y])
  }

  /** `interpolate_1d`. */
  method Interpolate1D(x: seq<real>, xp: seq<real>, fp: seq<real>) returns (r: Result<seq<real>, Panic>)
    ensures r == Interpolated(x, xp, fp)
  {
    var i := 0;
    var out := [];
    for k := 0 to |x|
      invariant Interpolated(x[..k], xp, fp) == Ok(out)
    {
      assert x[..k + 1][..k] == x[..k] && x[..k + 1][k] == x[k];
      var p := Position(xp, x[k]);
      if p.None? {
        ErrPersists(x, xp, fp, k + 1);
        return Err(NothingAbove(k));
      }
      i := p.value;
      if i >= |fp| {
        ErrPersists(x, xp, fp, k + 1);
        return Err(ValuesTooShort(k));
      }
      if i == 0 {
        ErrPersists(x, xp, fp, k + 1);
        return Err(NothingBelow(k));
      }
      out := out + [Between(xp[i - 1], xp[i], fp[i - 1], fp[i], x[k])];
    }
    assert x[..|x|] == x;
    r := Ok(out);
  }

  /** Once a point has no value, neither have the points after it: the
      first failure is the one reported. */
  lemma {:induction false} ErrPersists(x: seq<real>, xp: seq<real>, fp: seq<real>, m: nat)
    requires m <= |x| && Interpolated(x[..m], xp, fp).Err?
    ensures Interpolated(x, xp, fp) == Interpolated(x[..m], xp, fp)
  {
    if m < |x| {
      var n := |x| - 1;
      assert x[..n][..m] == x[..m];
      ErrPersists(x[..n], xp, fp, m);
    } else {
      assert x[..m] == x;
    }
  }

  /** The interpolation succeeds exactly when every point has a value, and
      then it has one entry per point, the value at that point. */
  lemma {:induction false} InterpolatedPointwise(x: seq<real>, xp: seq<real>, fp: seq<real>)
    ensures Interpolated(x, xp, fp).Ok? <==> forall k :: 0 <= k < |x| ==> At(xp, fp, x[k], k).Ok?
    ensures Interpolated(x, xp, fp).Ok? ==>
              |Interpolated(x, xp, fp).value| == |x|
              && forall k :: 0 <= k < |x| ==> Interpolated(x, xp, fp).value[k] == At(xp, fp, x[k], k).value
  {
    if |x| > 0 {
      var n := |x| - 1;
      InterpolatedPointwise(x[..n], xp, fp);
      assert forall k :: 0 <= k < n ==> x[..n][k] == x[k];
    }
  }

  /** A point with a value lies in the segment between the knot before it
      and the first knot above it, so the division is by a positive width,
      and the value lies between the values at the segment's ends. */
  lemma Bracketing(xp: seq<real>, fp: seq<real>, v: real, k: nat)
    requires At(xp, fp, v, k).Ok?
    ensures var i := Position(xp, v).value;
            0 < i < |xp| && i < |fp| && xp[i - 1] <= v < xp[i]
            && var r := At(xp, fp, v, k).value;
               (fp[i - 1] <= r <= fp[i] || fp[i] <= r <= fp[i - 1])
  {
    var i := Position(xp, v).value;
    BetweenBounded(xp[i - 1], xp[i], fp[i - 1], fp[i], v);
  }

  lemma BetweenBounded(x0: real, x1: real, f0: real, f1: real, v: real)
    requires x0 <= v <= x1 && x0 < x1
    ensures f0 <= Between(x0, x1, f0, f1, v) <= f1 || f1 <= Between(x0, x1, f0, f1, v) <= f0
  {
    var t := (v - x0) / (x1 - x0);
    assert 0.0 <= t <= 1.0;
    assert Between(x0, x1, f0, f1, v) == (f1 - f0) * t + f0;
    if f0 <= f1 {
      FractionBounds(f1 - f0, t);
      assert f0 <= Between(x0, x1, f0, f1, v) <= f1;
    } else {
      FractionBounds(f0 - f1, t);
    }
  }

  lemma FractionBounds(d: real, t: real)
    requires 0.0 <= d && 0.0 <= t <= 1.0
    ensures 0.0 <= d * t <= d
  {
    assert d * (1.0 - t) >= 0.0;
  }

  /** Each segment is a straight line that meets the data at both ends. */
  lemma BetweenEnds(x0: real, x1: real, f0: real, f1: real)
    requires x0 < x1
    ensures Between(x0, x1, f0, f1, x0) == f0 && Between(x0, x1, f0, f1, x1) == f1
  {
  }

  /** And the value changes in proportion to the point within a segment. */
  lemma BetweenLinear(x0: real, x1: real, f0: real, f1: real, v: real, w: real)
    requires x0 < x1
    ensures Between(x0, x1, f0, f1, v) - Between(x0, x1, f0, f1, w) == (f1 - f0) / (x1 - x0) * (v - w)
  {
  }

  predicate StrictlyIncreasing(xp: seq<real>) {
    forall a, b :: 0 <= a < b < |xp| ==> xp[a] < xp[b]
  }

  /** The search stops at the first knot above `v`, wherever that is. */
  lemma {:induction false} PositionFromIs(xp: seq<real>, v: real, j: nat, i: nat)
    requires j <= i < |xp| && xp[i] > v
    requires forall l :: j <= l < i ==> xp[l] <= v
    ensures PositionFrom(xp, v, j) == Some(i)
    decreases i - j
  {
    if j < i {
      PositionFromIs(xp, v, j + 1, i);
    }
  }

  /** And finds nothing when no knot lies above `v`. */
  lemma {:induction false} PositionFromNone(xp: seq<real>, v: real, j: nat)
    requires j <= |xp|
    requires forall l :: j <= l < |xp| ==> xp[l] <= v
    ensures PositionFrom(xp, v, j) == None
    decreases |xp| - j
  {
    if j < |xp| {
      PositionFromNone(xp, v, j + 1);
    }
  }

  /** With strictly increasing knots the interpolation reproduces the data
      at every knot but the last. */
  lemma AtKnot(xp: seq<real>, fp: seq<real>, j: nat, k: nat)
    requires StrictlyIncreasing(xp) && j + 1 < |xp| && j + 1 < |fp|
    ensures At(xp, fp, xp[j], k) == Ok(fp[j])
  {
    PositionFromIs(xp, xp[j], 0, j + 1);
    BetweenEnds(xp[j], xp[j + 1], fp[j], fp[j + 1]);
  }

  /** A point at or beyond every knot, the last knot included, has no
      value. */
  lemma NothingAboveLast(xp: seq<real>, fp: seq<real>, v: real, k: nat)
    requires forall j :: 0 <= j < |xp| ==> xp[j] <= v
    ensures At(xp, fp, v, k) == Err(NothingAbove(k))
  {
    PositionFromNone(xp, v, 0);
  }

  /** A point before the first knot has no value either. */
  lemma NothingBelowFirst(xp: seq<real>, fp: seq<real>, v: real, k: nat)
    requires 0 < |xp| && 0 < |fp| && v < xp[0]
    ensures At(xp, fp, v, k) == Err(NothingBelow(k))
  {
  }
}
