/** Shared vocabulary of the model: the crate's tolerances, scalar helpers,
    finite sums and the dense matrix operations that several modules use. */
module Base {

  /** The crate's absolute tolerance (src/lib.rs), `1e-12`. */
  const ABS_TOL: real := 0.000000000001

  /** The crate's relative tolerance (src/lib.rs), `1e-12`. */
  const REL_TOL: real := 0.000000000001

  /** Either a value or the error the source returns or panics with. */
  datatype Result<+T, +E> = Ok(value: T) | Err(error: E)

  datatype Option<+T> = None | Some(value: T)

  function Abs(x: real): real {
    if x < 0.0 then -x else x
  }

  function Max(a: real, b: real): real {
    if a < b then b else a
  }

  function MaxNat(a: nat, b: nat): nat {
    if a < b then b else a
  }

  /** Kronecker delta as a real (Python's `(i == j)` used as a number). */
  function Delta(i: int, j: int): real {
    if i == j then 1.0 else 0.0
  }

  /** Left-to-right sum, the order in which an accumulating loop adds. */
  function Sum(s: seq<real>): real {
    if |s| == 0 then 0.0 else Sum(s[..|s| - 1]) + s[|s| - 1]
  }

  lemma SumAppend(s: seq<real>, t: seq<real>)
    ensures Sum(s + t) == Sum(s) + Sum(t)
  {
    if |t| == 0 {
      assert s + t == s;
    } else {
      assert (s + t)[..|s + t| - 1] == s + t[..|t| - 1];
      SumAppend(s, t[..|t| - 1]);
    }
  }

  lemma SumConcatRow(s: seq<real>, x: real)
    ensures Sum(s + [x]) == Sum(s) + x
  {
    assert (s + [x])[..|s|] == s;
  }

  /** Number of `true` flags. */
  function CountTrue(flags: seq<bool>): nat {
    if |flags| == 0 then 0
    else CountTrue(flags[..|flags| - 1]) + (if flags[|flags| - 1] then 1 else 0)
  }

  lemma {:induction false} CountTrueBound(flags: seq<bool>)
    ensures CountTrue(flags) <= |flags|
    ensures CountTrue(flags) == |flags| <==> forall i :: 0 <= i < |flags| ==> flags[i]
  {
    if |flags| > 0 {
      var p := flags[..|flags| - 1];
      CountTrueBound(p);
      if CountTrue(flags) == |flags| {
        forall i | 0 <= i < |flags|
          ensures flags[i]
        {
          if i < |p| {
            assert p[i] == flags[i];
          }
        }
      } else if CountTrue(p) < |p| {
        var i :| 0 <= i < |p| && !p[i];
        assert flags[i] == p[i];
      }
    }
  }

  lemma {:induction false} CountTruePositive(flags: seq<bool>)
    ensures CountTrue(flags) > 0 <==> exists i :: 0 <= i < |flags| && flags[i]
  {
    if |flags| > 0 {
      var p := flags[..|flags| - 1];
      CountTruePositive(p);
      if CountTrue(p) > 0 {
        var i :| 0 <= i < |p| && p[i];
        assert flags[i];
      }
      assert forall i :: 0 <= i < |p| ==> p[i] == flags[i];
    }
  }

  /** Raising one lowered flag raises the count by one. */
  lemma {:induction false} CountTrueRaise(flags: seq<bool>, i: nat)
    requires i < |flags| && !flags[i]
    ensures CountTrue(flags[i := true]) == CountTrue(flags) + 1
  {
    var f := flags[i := true];
    var m := |flags| - 1;
    if i == m {
      assert f[..m] == flags[..m];
    } else {
      assert f[..m] == flags[..m][i := true];
      CountTrueRaise(flags[..m], i);
    }
  }

  /** No value occurs twice. */
  predicate Distinct<T(==)>(s: seq<T>) {
    forall i, j :: 0 <= i < j < |s| ==> s[i] != s[j]
  }

  /** `s` lists each of `0, 1, ..., n - 1` exactly once. */
  predicate IsPermutation(s: seq<nat>, n: nat) {
    |s| == n && Distinct(s) && (forall i :: 0 <= i < n ==> s[i] < n)
    && (forall v :: 0 <= v < n ==> v in s)
  }

  function Reverse<T>(s: seq<T>): (r: seq<T>)
    ensures |r| == |s| && forall i :: 0 <= i < |s| ==> r[i] == s[|s| - 1 - i]
  {
    seq(|s|, i requires 0 <= i < |s| => s[|s| - 1 - i])
  }

  lemma ReversePermutation(s: seq<nat>, n: nat)
    requires IsPermutation(s, n)
    ensures IsPermutation(Reverse(s), n)
  {
    var r := Reverse(s);
    forall v | 0 <= v < n
      ensures v in r
    {
      assert v in s;
      var i :| 0 <= i < |s| && s[i] == v;
      assert r[n - 1 - i] == v;
    }
  }

  /** Rust's `zip(flags).filter(flag).map(entry)`: the zip stops at the
      shorter of the two, and the retained entries keep their order. */
  function Retain<T>(s: seq<T>, flags: seq<bool>): (r: seq<T>)
    ensures |r| <= |s|
  {
    if |s| == 0 || |flags| == 0 then []
    else if |s| <= |flags| then
      Retain(s[..|s| - 1], flags) + (if flags[|s| - 1] then [s[|s| - 1]] else [])
    else Retain(s[..|flags|], flags)
  }

  /** The indices of the raised flags, ascending. */
  function Kept(flags: seq<bool>): (ks: seq<nat>)
    ensures |ks| == CountTrue(flags)
    ensures forall t :: 0 <= t < |ks| ==> ks[t] < |flags| && flags[ks[t]]
    ensures forall t, u :: 0 <= t < u < |ks| ==> ks[t] < ks[u]
  {
    if |flags| == 0 then []
    else Kept(flags[..|flags| - 1]) + (if flags[|flags| - 1] then [|flags| - 1] else [])
  }

  /** The entries of `s` at the positions `ks`. */
  function Pick<T>(s: seq<T>, ks: seq<nat>): (r: seq<T>)
    requires forall t :: 0 <= t < |ks| ==> ks[t] < |s|
    ensures |r| == |ks| && forall t :: 0 <= t < |ks| ==> r[t] == s[ks[t]]
  {
    seq(|ks|, t requires 0 <= t < |ks| => s[ks[t]])
  }

  /** The zip-and-filter keeps exactly the entries whose flag is raised. */
  lemma {:induction false} RetainKept<T>(s: seq<T>, flags: seq<bool>)
    requires |s| <= |flags|
    ensures Retain(s, flags) == Pick(s, Kept(flags[..|s|]))
  {
    if |s| > 0 {
      var m := |s| - 1;
      RetainKept(s[..m], flags);
      assert flags[..|s|][..m] == flags[..m];
      assert Pick(s[..m], Kept(flags[..m])) == Pick(s, Kept(flags[..m]));
    } else {
      assert flags[..0] == [];
    }
  }

  /** The zip-and-filter against flags of any length: the shorter of the
      two bounds the walk. */
  lemma RetainZipped<T>(s: seq<T>, flags: seq<bool>)
    ensures var m := if |s| < |flags| then |s| else |flags|;
            Retain(s, flags) == Pick(s, Kept(flags[..m]))
  {
    if |s| <= |flags| {
      RetainKept(s, flags);
    } else {
      var p := s[..|flags|];
      RetainKept(p, flags);
      assert Pick(p, Kept(flags[..|p|])) == Pick(s, Kept(flags[..|flags|]));
    }
  }

  /** A dense matrix as a sequence of rows. */
  type Matrix = seq<seq<real>>

  predicate IsSquare(m: Matrix, n: nat) {
    |m| == n && forall i :: 0 <= i < n ==> |m[i]| == n
  }

  function ZeroVector(n: nat): (v: seq<real>)
    ensures |v| == n && forall i :: 0 <= i < n ==> v[i] == 0.0
  {
    seq(n, _ => 0.0)
  }

  function ZeroMatrix(n: nat): (m: Matrix)
    ensures IsSquare(m, n)
    ensures forall i, j :: 0 <= i < n && 0 <= j < n ==> m[i][j] == 0.0
  {
    seq(n, _ => ZeroVector(n))
  }

  /** `(0..n).map(|i| (0..n).map(|j| self[j][i]))`. */
  function Transpose(m: Matrix): (t: Matrix)
    requires IsSquare(m, |m|)
    ensures IsSquare(t, |m|)
    ensures forall i, j :: 0 <= i < |m| && 0 <= j < |m| ==> t[i][j] == m[j][i]
  {
    seq(|m|, i requires 0 <= i < |m| => seq(|m|, j requires 0 <= j < |m| => m[j][i]))
  }

  /** The diagonal entries in order. */
  function Diagonal(m: Matrix): (d: seq<real>)
    requires IsSquare(m, |m|)
    ensures |d| == |m| && forall i :: 0 <= i < |m| ==> d[i] == m[i][i]
  {
    seq(|m|, i requires 0 <= i < |m| => m[i][i])
  }

  /** `self.iter().enumerate().map(|(i, self_i)| self_i[i]).sum()`. */
  function Trace(m: Matrix): real
    requires IsSquare(m, |m|)
  {
    Sum(Diagonal(m))
  }

  /** Sum of `m[i][0] * v[0] + ... ` for row `i`, accumulated left to right. */
  function Dot(u: seq<real>, v: seq<real>): real
    requires |u| == |v|
  {
    if |u| == 0 then 0.0 else Dot(u[..|u| - 1], v[..|v| - 1]) + u[|u| - 1] * v[|v| - 1]
  }

  /** The entries of `s[0]`, then those of `s[1]`, and so on: Rust's
      `flatten` over a sequence of rows. */
  function Concat<T>(s: seq<seq<T>>): seq<T> {
    if |s| == 0 then [] else Concat(s[..|s| - 1]) + s[|s| - 1]
  }

  /** `d * a`, where the `a`-th group of `d` entries starts in a flat
      layout; written as repeated addition so that reasoning about flat
      indices stays linear (`OffsetIsProduct` relates it to `d * a`). */
  function Offset(d: nat, a: nat): nat {
    if a == 0 then 0 else Offset(d, a - 1) + d
  }

  /** Position of entry `i` of group `a` in a flat layout of groups of
      `d` entries, `d * a + i`. */
  function Flat(d: nat, a: nat, i: nat): nat {
    Offset(d, a) + i
  }

  lemma {:induction false} OffsetIsProduct(d: nat, a: nat)
    ensures Offset(d, a) == d * a
  {
    if a > 0 {
      OffsetIsProduct(d, a - 1);
    }
  }

  /** A later group starts after the whole of an earlier one. */
  lemma {:induction false} OffsetMonotone(d: nat, a: nat, b: nat)
    requires a < b
    ensures Offset(d, a) + d <= Offset(d, b)
  {
    if a + 1 < b {
      OffsetMonotone(d, a, b - 1);
    }
  }

  /** An entry of one of the first `n` groups lies before `Offset(d, n)`. */
  lemma FlatBelow(d: nat, a: nat, i: nat, n: nat)
    requires a < n && i < d
    ensures Flat(d, a, i) < Offset(d, n)
  {
    OffsetMonotone(d, a, n);
  }

  /** A flat index names one group and one entry within it. */
  lemma OffsetUnique(d: nat, a: nat, i: nat, b: nat, j: nat)
    requires i < d && j < d && Offset(d, a) + i == Offset(d, b) + j
    ensures a == b && i == j
  {
    if a < b {
      OffsetMonotone(d, a, b);
    } else if b < a {
      OffsetMonotone(d, b, a);
    }
  }

  /** Rust's `k / d` and `k % d` name the group and the entry of flat
      index `k`. */
  lemma OffsetDivMod(d: nat, k: nat)
    requires d > 0
    ensures k % d < d && k == Offset(d, k / d) + k % d
  {
    OffsetIsProduct(d, k / d);
  }

  /** Rows of equal length `m` flatten to `Offset(m, |s|)` entries, and row
      `a` starts at entry `Offset(m, a)`. */
  lemma {:induction false} ConcatIndex<T>(s: seq<seq<T>>, m: nat, a: nat, k: nat)
    requires forall x :: 0 <= x < |s| ==> |s[x]| == m
    requires a < |s| && k < m
    ensures |Concat(s)| == Offset(m, |s|) && Offset(m, a) + k < |Concat(s)|
    ensures Concat(s)[Offset(m, a) + k] == s[a][k]
  {
    var p := s[..|s| - 1];
    ConcatLength(p, m);
    if a < |p| {
      ConcatIndex(p, m, a, k);
    }
  }

  lemma {:induction false} ConcatLength<T>(s: seq<seq<T>>, m: nat)
    requires forall x :: 0 <= x < |s| ==> |s[x]| == m
    ensures |Concat(s)| == Offset(m, |s|)
  {
    if |s| > 0 {
      ConcatLength(s[..|s| - 1], m);
    }
  }

  /** `Offset(d, n)` is a multiple of `d`, with quotient `n`. */
  lemma OffsetQuotient(d: nat, n: nat)
    requires d > 0
    ensures Offset(d, n) % d == 0 && Offset(d, n) / d == n
  {
    OffsetDivMod(d, Offset(d, n));
    OffsetUnique(d, n, 0, Offset(d, n) / d, Offset(d, n) % d);
  }

  /** An index below `Offset(d, n)` falls in one of the first `n` groups. */
  lemma OffsetBelow(d: nat, n: nat, k: nat)
    requires k < Offset(d, n)
    ensures d > 0 && k / d < n && k % d < d && k == Offset(d, k / d) + k % d
  {
    if d == 0 {
      OffsetIsProduct(d, n);
    }
    OffsetDivMod(d, k);
    if k / d >= n {
      if k / d > n {
        OffsetMonotone(d, n, k / d);
      }
    }
  }

  /** An index into a three-dimensional tensor slot. */
  type Idx = i: int | 0 <= i < 3

  /** A 3×3 matrix (a `TensorRank2<3>` or a numpy `(3, 3)` array). */
  type Mat3 = m: Matrix | |m| == 3 && |m[0]| == 3 && |m[1]| == 3 && |m[2]| == 3
    witness [[0.0, 0.0, 0.0], [0.0, 0.0, 0.0], [0.0, 0.0, 0.0]]

  /** The 3×3 matrix whose entry `[i][j]` is `f(i, j)`. */
  function Mat3Of(f: (Idx, Idx) -> real): (m: Mat3)
    ensures forall i: Idx, j: Idx :: m[i][j] == f(i, j)
  {
    seq(3, (i: int) requires 0 <= i < 3 => seq(3, (j: int) requires 0 <= j < 3 => f(i, j)))
  }

  lemma Mat3Equal(a: Mat3, b: Mat3)
    requires forall i: Idx, j: Idx :: a[i][j] == b[i][j]
    ensures a == b
  {
    assert a[0] == b[0] && a[1] == b[1] && a[2] == b[2];
  }

  const IDENTITY3: Mat3 := Mat3Of((i: Idx, j: Idx) => Delta(i, j))

  /** `a[i][0] b[0][j] + … + a[i][n-1] b[n-1][j]`, accumulated left to right. */
  function PartialDot(a: Mat3, b: Mat3, i: Idx, j: Idx, n: nat): real
    requires n <= 3
  {
    if n == 0 then 0.0 else PartialDot(a, b, i, j, n - 1) + a[i][n - 1] * b[n - 1][j]
  }

  /** Entry `[i][j]` of the product `a @ b`. */
  function MulEntry(a: Mat3, b: Mat3, i: Idx, j: Idx): real {
    PartialDot(a, b, i, j, 3)
  }

  lemma MulEntryExpand(a: Mat3, b: Mat3, i: Idx, j: Idx)
    ensures MulEntry(a, b, i, j) == a[i][0] * b[0][j] + a[i][1] * b[1][j] + a[i][2] * b[2][j]
  {
    assert PartialDot(a, b, i, j, 1) == a[i][0] * b[0][j];
    assert PartialDot(a, b, i, j, 2) == a[i][0] * b[0][j] + a[i][1] * b[1][j];
  }

  /** The 3×3 matrix product (`@`). */
  function Mul3(a: Mat3, b: Mat3): (c: Mat3)
    ensures forall i: Idx, j: Idx :: c[i][j] == MulEntry(a, b, i, j)
  {
    Mat3Of((i: Idx, j: Idx) => MulEntry(a, b, i, j))
  }

  /** The 3×3 transpose. */
  function Transpose3(a: Mat3): (t: Mat3)
    ensures forall i: Idx, j: Idx :: t[i][j] == a[j][i]
  {
    Mat3Of((i: Idx, j: Idx) => a[j][i])
  }

  lemma Mul3AssocEntry(a: Mat3, b: Mat3, c: Mat3, i: Idx, j: Idx)
    ensures MulEntry(Mul3(a, b), c, i, j) == MulEntry(a, Mul3(b, c), i, j)
  {
    var ab, bc := Mul3(a, b), Mul3(b, c);
    MulEntryExpand(ab, c, i, j);
    MulEntryExpand(a, bc, i, j);
    MulEntryExpand(a, b, i, 0);
    MulEntryExpand(a, b, i, 1);
    MulEntryExpand(a, b, i, 2);
    MulEntryExpand(b, c, 0, j);
    MulEntryExpand(b, c, 1, j);
    MulEntryExpand(b, c, 2, j);
    assert ab[i][0] == MulEntry(a, b, i, 0) && ab[i][1] == MulEntry(a, b, i, 1) && ab[i][2] == MulEntry(a, b, i, 2);
    assert bc[0][j] == MulEntry(b, c, 0, j) && bc[1][j] == MulEntry(b, c, 1, j) && bc[2][j] == MulEntry(b, c, 2, j);
  }

  lemma Mul3Assoc(a: Mat3, b: Mat3, c: Mat3)
    ensures Mul3(Mul3(a, b), c) == Mul3(a, Mul3(b, c))
  {
    forall i: Idx, j: Idx ensures Mul3(Mul3(a, b), c)[i][j] == Mul3(a, Mul3(b, c))[i][j] {
      Mul3AssocEntry(a, b, c, i, j);
    }
    Mat3Equal(Mul3(Mul3(a, b), c), Mul3(a, Mul3(b, c)));
  }

  lemma Mul3Identity(a: Mat3)
    ensures Mul3(IDENTITY3, a) == a && Mul3(a, IDENTITY3) == a
  {
    forall i: Idx, j: Idx ensures Mul3(IDENTITY3, a)[i][j] == a[i][j] == Mul3(a, IDENTITY3)[i][j] {
      MulEntryExpand(IDENTITY3, a, i, j);
      MulEntryExpand(a, IDENTITY3, i, j);
    }
    Mat3Equal(Mul3(IDENTITY3, a), a);
    Mat3Equal(Mul3(a, IDENTITY3), a);
  }

  lemma TransposeMul3Entry(a: Mat3, b: Mat3, i: Idx, j: Idx)
    ensures MulEntry(a, b, j, i) == MulEntry(Transpose3(b), Transpose3(a), i, j)
  {
    var at, bt := Transpose3(a), Transpose3(b);
    MulEntryExpand(a, b, j, i);
    MulEntryExpand(bt, at, i, j);
    assert bt[i][0] == b[0][i] && bt[i][1] == b[1][i] && bt[i][2] == b[2][i];
    assert at[0][j] == a[j][0] && at[1][j] == a[j][1] && at[2][j] == a[j][2];
  }

  /** `(AB)ᵀ = BᵀAᵀ`. */
  lemma TransposeMul3(a: Mat3, b: Mat3)
    ensures Transpose3(Mul3(a, b)) == Mul3(Transpose3(b), Transpose3(a))
  {
    forall i: Idx, j: Idx ensures Transpose3(Mul3(a, b))[i][j] == Mul3(Transpose3(b), Transpose3(a))[i][j] {
      TransposeMul3Entry(a, b, i, j);
    }
    Mat3Equal(Transpose3(Mul3(a, b)), Mul3(Transpose3(b), Transpose3(a)));
  }

  /** Equal factors give equal products (the solver does not rewrite under
      a nonlinear product by itself). */
  lemma ProductEq(x: real, x': real, y: real, y': real)
    requires x == x' && y == y'
    ensures x * y == x' * y'
  {
  }

  /** The divisor times the quotient gives back the dividend. */
  lemma TimesQuotient(a: real, d: real, q: real)
    requires d != 0.0 && q == a / d
    ensures d * q == a && q * d == a
  {
  }

  /** `(-a) / (-b) == a / b`. */
  lemma DivNegNeg(a: real, b: real)
    requires b != 0.0
    ensures (-a) / (-b) == a / b
  {
    var x, y := a / b, (-a) / (-b);
    assert b * x == a;
    assert (-b) * y == -a;
    assert b * (y - x) == 0.0;
  }

  predicate IsSymmetric3(a: Mat3) {
    forall i: Idx, j: Idx :: a[i][j] == a[j][i]
  }

  /** Symmetry of a 3×3 matrix from its three off-diagonal pairs. */
  lemma Symmetric3Of(a: Mat3)
    requires a[0][1] == a[1][0] && a[0][2] == a[2][0] && a[1][2] == a[2][1]
    ensures IsSymmetric3(a)
  {
  }

  /** A three-component vector (a node's coordinates or force). */
  datatype Vec3 = Vec3(x: real, y: real, z: real) {
    function Plus(o: Vec3): Vec3 { Vec3(x + o.x, y + o.y, z + o.z) }
    function Minus(o: Vec3): Vec3 { Vec3(x - o.x, y - o.y, z - o.z) }
    function Scale(c: real): Vec3 { Vec3(c * x, c * y, c * z) }
    function Inner(o: Vec3): real { x * o.x + y * o.y + z * o.z }
    /** Component `c`. */
    function At(c: Idx): real { if c == 0 then x else if c == 1 then y else z }
  }

  const ZERO3: Vec3 := Vec3(0.0, 0.0, 0.0)

  function SumVec3(s: seq<Vec3>): Vec3 {
    if |s| == 0 then ZERO3 else SumVec3(s[..|s| - 1]).Plus(s[|s| - 1])
  }

  lemma SumVec3Append(s: seq<Vec3>, t: seq<Vec3>)
    ensures SumVec3(s + t) == SumVec3(s).Plus(SumVec3(t))
  {
    if |t| == 0 {
      assert s + t == s;
    } else {
      assert (s + t)[..|s + t| - 1] == s + t[..|t| - 1];
      SumVec3Append(s, t[..|t| - 1]);
    }
  }
}
