/** A list of rank-1 tensors, `Vec<[f64; D]>`: one `D`-component vector per
    node, laid out one after the other. Its entries are visited in the flat
    order `D * a + i` (vector `a`, component `i`) whenever it is written to
    or read from a global vector. */
module TensorRank1Vec {
  import opened Base

  /** Every vector has `d` components. */
  predicate Shaped(v: seq<seq<real>>, d: nat) {
    forall a :: 0 <= a < |v| ==> |v[a]| == d
  }

  /** The flattened list is `d` times as long, and component `i` of vector
      `a` sits at entry `Flat(d, a, i)`. */
  lemma {:induction false} FlattenIndex(v: seq<seq<real>>, d: nat)
    requires Shaped(v, d)
    ensures |Concat(v)| == Offset(d, |v|)
    ensures forall a: nat, i: nat :: a < |v| && i < d ==> Flat(d, a, i) < |Concat(v)| && Concat(v)[Flat(d, a, i)] == v[a][i]
  {
    ConcatLength(v, d);
    forall a: nat, i: nat | a < |v| && i < d
      ensures Flat(d, a, i) < |Concat(v)| && Concat(v)[Flat(d, a, i)] == v[a][i]
    {
      ConcatIndex(v, d, a, i);
    }
  }

  // Conversion from a flat vector

  /** Consecutive groups of `d` entries. */
  function Chunks(vector: seq<real>, d: nat, n: nat): (v: seq<seq<real>>)
    requires |vector| == Offset(d, n)
    ensures Shaped(v, d) && |v| == n && Concat(v) == vector
    decreases n
  {
    if n == 0 then []
    else
      var v := Chunks(vector[..Offset(d, n - 1)], d, n - 1) + [vector[Offset(d, n - 1)..]];
      assert v[..n - 1] == Chunks(vector[..Offset(d, n - 1)], d, n - 1);
      v
  }

  /** `From<Vector>`: the vectors of `D` consecutive entries, or the panic
      `"Vector length mismatch."` when the length is not a multiple of `D`. */
  function FromVector(vector: seq<real>, d: nat): (r: Result<seq<seq<real>>, string>)
    requires d > 0
    ensures r.Ok? <==> |vector| % d == 0
    ensures r.Ok? ==> Shaped(r.value, d) && |r.value| == |vector| / d && Concat(r.value) == vector
    ensures r.Err? ==> r.error == "Vector length mismatch."
  {
    if |vector| % d == 0 then
      OffsetDivMod(d, |vector|);
      Ok(Chunks(vector, d, |vector| / d))
    else Err("Vector length mismatch.")
  }

  /** Converting a flattened list back gives the list itself. */
  lemma {:induction false} FromFlattened(v: seq<seq<real>>, d: nat)
    requires d > 0 && Shaped(v, d)
    ensures FromVector(Concat(v), d) == Ok(v)
  {
    ConcatLength(v, d);
    OffsetQuotient(d, |v|);
    ChunksOfConcat(v, d);
  }

  lemma {:induction false} ChunksOfConcat(v: seq<seq<real>>, d: nat)
    requires Shaped(v, d)
    ensures |Concat(v)| == Offset(d, |v|) && Chunks(Concat(v), d, |v|) == v
  {
    ConcatLength(v, d);
    if |v| > 0 {
      var m := |v| - 1;
      var c := Concat(v);
      assert c == Concat(v[..m]) + v[m];
      ChunksOfConcat(v[..m], d);
      assert c[..Offset(d, m)] == Concat(v[..m]);
      assert c[Offset(d, m)..] == v[m];
    }
  }

  // Writing into and reading from a global vector

  /** `stream.zip(vector.iter_mut()).for_each(|(s, e)| *e = s)`: the leading
      entries of `vector` are replaced by those of `stream`, as far as the
      shorter of the two reaches. */
  method Overwrite(stream: seq<real>, vector: seq<real>) returns (r: seq<real>)
    ensures |r| == |vector|
    ensures forall k :: 0 <= k < |vector| ==> r[k] == if k < |stream| then stream[k] else vector[k]
  {
    r := vector;
    var k := 0;
    while k < |stream| && k < |vector|
      invariant 0 <= k <= |vector| && |r| == |vector|
      invariant k <= |stream|
      invariant forall j :: 0 <= j < |vector| ==> r[j] == if j < k then stream[j] else vector[j]
    {
      r := r[k := stream[k]];
      k := k + 1;
    }
  }

  /** `Jacobian::fill_into`: entry `D * a + i` of `vector` becomes component
      `i` of vector `a`; entries past the list are kept. */
  method FillInto(v: seq<seq<real>>, d: nat, vector: seq<real>) returns (r: seq<real>)
    requires Shaped(v, d)
    ensures |r| == |vector|
    ensures forall a: nat, i: nat :: a < |v| && i < d && Flat(d, a, i) < |vector| ==> r[Flat(d, a, i)] == v[a][i]
    ensures forall k :: Offset(d, |v|) <= k < |vector| ==> r[k] == vector[k]
  {
    FlattenIndex(v, d);
    r := Overwrite(Concat(v), vector);
  }

  /** `Jacobian::fill_into_chained`: the flattened list followed by `other`. */
  method FillIntoChained(v: seq<seq<real>>, d: nat, other: seq<real>, vector: seq<real>) returns (r: seq<real>)
    requires Shaped(v, d)
    ensures |r| == |vector|
    ensures forall a: nat, i: nat :: a < |v| && i < d && Flat(d, a, i) < |vector| ==> r[Flat(d, a, i)] == v[a][i]
    ensures forall j :: 0 <= j < |other| && Offset(d, |v|) + j < |vector| ==> r[Offset(d, |v|) + j] == other[j]
    ensures forall k :: Offset(d, |v|) + |other| <= k < |vector| ==> r[k] == vector[k]
  {
    FlattenIndex(v, d);
    r := Overwrite(Concat(v) + other, vector);
  }

  /** `Jacobian::retain_from`: the flattened entries whose flag is raised,
      in order; the flags and the entries are zipped, so the shorter of the
      two bounds the walk. */
  function RetainFrom(v: seq<seq<real>>, retained: seq<bool>): (r: seq<real>)
    ensures var m := if |Concat(v)| < |retained| then |Concat(v)| else |retained|;
            |r| == CountTrue(retained[..m])
            && forall t :: 0 <= t < |r| ==> r[t] == Concat(v)[Kept(retained[..m])[t]]
  {
    RetainZipped(Concat(v), retained);
    Retain(Concat(v), retained)
  }

  /** `Jacobian::zero_out`: entry `[index / D][index % D]` is set to zero for
      every listed index. */
  method ZeroOut(v: seq<seq<real>>, d: nat, indices: seq<nat>) returns (r: seq<seq<real>>)
    requires Shaped(v, d)
    requires forall t :: 0 <= t < |indices| ==> indices[t] < Offset(d, |v|)
    ensures |r| == |v| && Shaped(r, d)
    ensures forall a: nat, i: nat :: a < |v| && i < d ==>
              r[a][i] == if Flat(d, a, i) in indices then 0.0 else v[a][i]
  {
    r := v;
    var t := 0;
    while t < |indices|
      invariant 0 <= t <= |indices| && |r| == |v| && Shaped(r, d)
      invariant forall a: nat, i: nat :: a < |v| && i < d ==>
                  r[a][i] == if Flat(d, a, i) in indices[..t] then 0.0 else v[a][i]
    {
      var index := indices[t];
      OffsetBelow(d, |v|, index);
      var a, i := index / d, index % d;
      ZeroStep(v, r, d, indices[..t], index);
      r := r[a := r[a][i := 0.0]];
      assert indices[..t + 1] == indices[..t] + [index];
      t := t + 1;
    }
    assert indices[..t] == indices;
  }

  /** Zeroing entry `[index / d][index % d]` zeroes exactly flat entry `index`. */
  lemma {:induction false} ZeroStep(v: seq<seq<real>>, r: seq<seq<real>>, d: nat, done: seq<nat>, index: nat)
    requires |r| == |v| && Shaped(r, d) && Shaped(v, d) && index < Offset(d, |v|)
    requires forall a: nat, i: nat :: a < |v| && i < d ==>
               r[a][i] == if Flat(d, a, i) in done then 0.0 else v[a][i]
    ensures d > 0 && index / d < |r|
    ensures var r' := r[index / d := r[index / d][index % d := 0.0]];
            Shaped(r', d)
            && forall a: nat, i: nat :: a < |v| && i < d ==>
                 r'[a][i] == if Flat(d, a, i) in done + [index] then 0.0 else v[a][i]
  {
    OffsetBelow(d, |v|, index);
    var r' := r[index / d := r[index / d][index % d := 0.0]];
    forall a: nat, i: nat | a < |v| && i < d
      ensures r'[a][i] == if Flat(d, a, i) in done + [index] then 0.0 else v[a][i]
    {
      if Flat(d, a, i) == index {
        OffsetUnique(d, a, i, index / d, index % d);
      }
    }
  }

  // Updating the solution in place

  /** Entry `k` lowered by `other[k]`, as far as `other` reaches. */
  function Subtracted(s: seq<real>, other: seq<real>): (r: seq<real>)
    ensures |r| == |s|
  {
    seq(|s|, k requires 0 <= k < |s| => if k < |other| then s[k] - other[k] else s[k])
  }

  /** `Solution::decrement_from`: the flattened entries lowered by the
      entries of `other`, zipped in order. */
  method DecrementFrom(v: seq<seq<real>>, d: nat, other: seq<real>) returns (r: seq<seq<real>>)
    requires d > 0 && Shaped(v, d)
    ensures |r| == |v| && Shaped(r, d) && Concat(r) == Subtracted(Concat(v), other)
    ensures forall a: nat, i: nat :: a < |v| && i < d ==>
              r[a][i] == if Flat(d, a, i) < |other| then v[a][i] - other[Flat(d, a, i)] else v[a][i]
  {
    FlattenIndex(v, d);
    var flat := Decrement(Concat(v), other);
    r := Chunks(flat, d, |v|);
    FlattenIndex(r, d);
  }

  /** `Solution::decrement_from_chained`: the flattened entries followed by
      those of `other` are lowered by the entries of `vector`, zipped in
      order; the list and `other` are both updated. */
  method DecrementFromChained(v: seq<seq<real>>, d: nat, other: seq<real>, vector: seq<real>)
    returns (r: seq<seq<real>>, other': seq<real>)
    requires d > 0 && Shaped(v, d)
    ensures |r| == |v| && Shaped(r, d) && |other'| == |other|
    ensures Concat(r) + other' == Subtracted(Concat(v) + other, vector)
  {
    ConcatLength(v, d);
    var n := |Concat(v)|;
    var flat := Decrement(Concat(v) + other, vector);
    r := Chunks(flat[..n], d, |v|);
    other' := flat[n..];
    assert flat[..n] + flat[n..] == flat;
  }

  /** The zipped walk behind the decrements: entry `k` lowered by
      `other[k]` while both last. */
  method Decrement(s: seq<real>, other: seq<real>) returns (r: seq<real>)
    ensures r == Subtracted(s, other)
  {
    r := s;
    var k := 0;
    while k < |s| && k < |other|
      invariant 0 <= k <= |s| && |r| == |s| && k <= |other|
      invariant forall j :: 0 <= j < |s| ==> r[j] == if j < k then s[j] - other[j] else s[j]
    {
      r := r[k := r[k] - other[k]];
      k := k + 1;
    }
  }

  /** Entry `k` lowered by the next unused entry of `other` when its flag is
      raised: the `t`-th retained entry takes `other[t]`. */
  function RetainedSubtracted(s: seq<real>, retained: seq<bool>, other: seq<real>): (r: seq<real>)
    ensures |r| == |s|
  {
    seq(|s|, k requires 0 <= k < |s| =>
      if k < |retained| && retained[k] && CountTrue(retained[..k]) < |other|
      then s[k] - other[CountTrue(retained[..k])] else s[k])
  }

  /** `Solution::decrement_from_retained`: only entries whose flag is raised
      change, each lowered by the next entry of `other`. */
  method DecrementFromRetained(v: seq<seq<real>>, d: nat, retained: seq<bool>, other: seq<real>)
    returns (r: seq<seq<real>>)
    requires d > 0 && Shaped(v, d)
    ensures |r| == |v| && Shaped(r, d) && Concat(r) == RetainedSubtracted(Concat(v), retained, other)
  {
    FlattenIndex(v, d);
    var flat := Concat(v);
    var k, t := 0, 0;
    while k < |flat| && k < |retained|
      invariant 0 <= k <= |flat| && |flat| == |Concat(v)| && k <= |retained|
      invariant t == CountTrue(retained[..k])
      invariant forall j :: 0 <= j < |flat| ==>
                  flat[j] == if j < k then RetainedSubtracted(Concat(v), retained, other)[j] else Concat(v)[j]
    {
      assert retained[..k + 1][..k] == retained[..k];
      if retained[k] {
        if t < |other| {
          flat := flat[k := flat[k] - other[t]];
        }
        t := t + 1;
      }
      k := k + 1;
    }
    assert flat == RetainedSubtracted(Concat(v), retained, other);
    r := Chunks(flat, d, |v|);
  }

  /** Decrementing the retained entries and then retaining them is the same
      as retaining them and decrementing the short vector: the retained
      entries consume `other` in order. */
  lemma {:induction false} RetainedSubtractedRetain(s: seq<real>, retained: seq<bool>, other: seq<real>)
    requires |s| == |retained|
    ensures Retain(RetainedSubtracted(s, retained, other), retained) == Subtracted(Retain(s, retained), other)
  {
    if |s| > 0 {
      var m := |s| - 1;
      var x := RetainedSubtracted(s, retained, other);
      forall k | 0 <= k < m
        ensures retained[..m][..k] == retained[..k]
      {
      }
      assert x[..m] == RetainedSubtracted(s[..m], retained[..m], other);
      RetainedSubtractedRetain(s[..m], retained[..m], other);
      RetainPrefix(s[..m], retained);
      RetainPrefix(x[..m], retained);
      RetainLength(s[..m], retained[..m]);
      assert retained[..m + 1] == retained;
    }
  }

  /** Only the flags alongside the entries matter. */
  lemma {:induction false} RetainPrefix(s: seq<real>, flags: seq<bool>)
    requires |s| < |flags|
    ensures Retain(s, flags) == Retain(s, flags[..|s|])
  {
    RetainKept(s, flags);
    RetainKept(s, flags[..|s|]);
    assert flags[..|s|][..|s|] == flags[..|s|];
  }

  lemma {:induction false} RetainLength(s: seq<real>, flags: seq<bool>)
    requires |s| == |flags|
    ensures |Retain(s, flags)| == CountTrue(flags)
  {
    RetainKept(s, flags);
    assert flags[..|s|] == flags;
  }

  /** `Sub<Vector>`: component `i` of vector `a` lowered by entry `D * a + i`
      of the vector, which must reach that far. The same as decrementing the
      flattened list. */
  method SubVector(v: seq<seq<real>>, d: nat, vector: seq<real>) returns (r: seq<seq<real>>)
    requires Shaped(v, d) && Offset(d, |v|) <= |vector|
    ensures |r| == |v| && Shaped(r, d)
    ensures forall a: nat, i: nat :: a < |v| && i < d ==>
              Flat(d, a, i) < |vector| && r[a][i] == v[a][i] - vector[Flat(d, a, i)]
    ensures Concat(r) == Subtracted(Concat(v), vector)
  {
    r := v;
    var a := 0;
    while a < |v|
      invariant 0 <= a <= |v| && |r| == |v| && Shaped(r, d)
      invariant forall b: nat, i: nat :: b < |v| && i < d ==>
                  if b < a then Flat(d, b, i) < |vector| && r[b][i] == v[b][i] - vector[Flat(d, b, i)]
                  else r[b][i] == v[b][i]
    {
      if a + 1 < |v| {
        OffsetMonotone(d, a, |v|);
      }
      var row := SubRow(r[a], Offset(d, a), vector);
      r := r[a := row];
      a := a + 1;
    }
    SubtractedByVectors(v, r, d, vector);
  }

  /** Lowering each component by its flat entry lowers the flattened list. */
  lemma {:induction false} SubtractedByVectors(v: seq<seq<real>>, r: seq<seq<real>>, d: nat, vector: seq<real>)
    requires Shaped(v, d) && Shaped(r, d) && |r| == |v| && Offset(d, |v|) <= |vector|
    requires forall a: nat, i: nat :: a < |v| && i < d ==>
               Flat(d, a, i) < |vector| && r[a][i] == v[a][i] - vector[Flat(d, a, i)]
    ensures Concat(r) == Subtracted(Concat(v), vector)
  {
    ConcatLength(v, d);
    ConcatLength(r, d);
    forall k | 0 <= k < |Concat(r)|
      ensures Concat(r)[k] == Subtracted(Concat(v), vector)[k]
    {
      SubtractedEntry(v, r, d, vector, k);
    }
  }

  lemma {:induction false} SubtractedEntry(v: seq<seq<real>>, r: seq<seq<real>>, d: nat, vector: seq<real>, k: nat)
    requires Shaped(v, d) && Shaped(r, d) && |r| == |v| && k < Offset(d, |v|) <= |vector|
    requires forall a: nat, i: nat :: a < |v| && i < d ==>
               Flat(d, a, i) < |vector| && r[a][i] == v[a][i] - vector[Flat(d, a, i)]
    ensures k < |Concat(r)| && k < |Concat(v)| && Concat(r)[k] == Concat(v)[k] - vector[k]
  {
    OffsetBelow(d, |v|, k);
    var a, i := k / d, k % d;
    assert Flat(d, a, i) == k;
    ConcatIndex(r, d, a, i);
    ConcatIndex(v, d, a, i);
  }

  /** One vector: component `i` lowered by `vector[offset + i]`. */
  method SubRow(row: seq<real>, offset: nat, vector: seq<real>) returns (r: seq<real>)
    requires offset + |row| <= |vector|
    ensures |r| == |row| && forall i :: 0 <= i < |row| ==> r[i] == row[i] - vector[offset + i]
  {
    r := row;
    var i := 0;
    while i < |row|
      invariant 0 <= i <= |row| && |r| == |row|
      invariant forall j :: 0 <= j < |row| ==> r[j] == if j < i then row[j] - vector[offset + j] else row[j]
    {
      r := r[i := r[i] - vector[offset + i]];
      i := i + 1;
    }
  }
}
