/** Points, boxes and row-major addresses of n-dimensional arrays. */
module Geometry {

  type Vec = seq<nat>

  /** n * step, as n steps one after the other, the way strides are walked. */
  function Times(n: nat, step: nat): nat {
    if n == 0 then 0 else Times(n - 1, step) + step
  }

  lemma {:induction false} TimesIsProduct(n: nat, step: nat)
    ensures Times(n, step) == n * step
  {
    if n > 0 {
      TimesIsProduct(n - 1, step);
      assert n * step == (n - 1) * step + step;
    }
  }

  lemma {:induction false} TimesMono(a: nat, b: nat, step: nat)
    requires a <= b
    ensures Times(a, step) <= Times(b, step)
    decreases b
  {
    if a < b { TimesMono(a, b - 1, step); }
  }

  lemma {:induction false} TimesMonoStep(n: nat, s: nat, t: nat)
    requires s <= t
    ensures Times(n, s) <= Times(n, t)
  {
    if n > 0 { TimesMonoStep(n - 1, s, t); }
  }

  lemma {:induction false} TimesPlus(a: nat, b: nat, step: nat)
    ensures Times(a + b, step) == Times(a, step) + Times(b, step)
    decreases b
  {
    if b > 0 { TimesPlus(a, b - 1, step); }
  }

  lemma {:induction false} TimesPlusStep(n: nat, s: nat, t: nat)
    ensures Times(n, s + t) == Times(n, s) + Times(n, t)
  {
    if n > 0 { TimesPlusStep(n - 1, s, t); }
  }

  lemma {:induction false} TimesAssoc(a: nat, b: nat, c: nat)
    ensures Times(a, Times(b, c)) == Times(Times(a, b), c)
    decreases a
  {
    if a > 0 {
      TimesAssoc(a - 1, b, c);
      TimesPlus(Times(a - 1, b), b, c);
    }
  }

  lemma {:induction false} TimesZero(n: nat)
    ensures Times(n, 0) == 0
  {
    if n > 0 { TimesZero(n - 1); }
  }

  /** Division with remainder. */
  lemma {:induction false} DivMod(x: nat, n: nat, v: nat) returns (quot: nat, rem: nat)
    requires x < Times(n, v)
    ensures quot < n && rem < v && x == Times(quot, v) + rem
    decreases n
  {
    if x < v {
      quot, rem := 0, x;
    } else {
      quot, rem := DivMod(x - v, n - 1, v);
      quot := quot + 1;
    }
  }

  ghost predicate InBox(p: Vec, dims: Vec) {
    |p| == |dims| && forall i | 0 <= i < |p| :: p[i] < dims[i]
  }

  /** Number of elements of an array with these dimensions. */
  function Volume(dims: Vec): nat {
    if dims == [] then 1 else Times(dims[0], Volume(dims[1..]))
  }

  /** Address of a point under the given strides. */
  function Dot(p: Vec, strides: Vec): nat
    requires |p| == |strides|
  {
    if p == [] then 0 else Times(p[0], strides[0]) + Dot(p[1..], strides[1..])
  }

  /** Row-major strides of an array whose elements take `unit` addresses. */
  function Strides(dims: Vec, unit: nat): (s: Vec)
    ensures |s| == |dims|
  {
    if dims == [] then [] else [Times(Volume(dims[1..]), unit)] + Strides(dims[1..], unit)
  }

  /** Row-major element number of a point. */
  function Linear(dims: Vec, p: Vec): nat
    requires |p| == |dims|
  {
    if p == [] then 0 else Times(p[0], Volume(dims[1..])) + Linear(dims[1..], p[1..])
  }

  /** In three dimensions: the number of elements, the strides, and the number of a point, as products. */
  lemma RowMajor(a: nat, b: nat, c: nat, i: nat, j: nat, k: nat, unit: nat)
    ensures Volume([a, b, c]) == a * (b * c)
    ensures Strides([a, b, c], unit) == [b * c * unit, c * unit, unit]
    ensures Linear([a, b, c], [i, j, k]) == i * (b * c) + j * c + k
  {
    assert [a, b, c][1..] == [b, c] && [b, c][1..] == [c] && [c][1..] == [];
    assert [i, j, k][1..] == [j, k] && [j, k][1..] == [k] && [k][1..] == [];
    TimesIsProduct(c, 1);
    TimesIsProduct(b, c);
    TimesIsProduct(a, b * c);
    TimesIsProduct(1, unit);
    TimesIsProduct(c, unit);
    TimesIsProduct(b * c, unit);
    TimesIsProduct(k, 1);
    TimesIsProduct(j, c);
    TimesIsProduct(i, b * c);
    assert Volume([]) == 1 && Volume([c]) == c && Volume([b, c]) == b * c;
    assert Strides([], unit) == [] && Strides([c], unit) == [unit] && Strides([b, c], unit) == [c * unit, unit];
    assert Linear([], []) == 0 && Linear([c], [k]) == k && Linear([b, c], [j, k]) == j * c + k;
  }

  function Plus(a: Vec, b: Vec): (c: Vec)
    requires |a| == |b|
    ensures |c| == |a|
    ensures forall i | 0 <= i < |a| :: c[i] == a[i] + b[i]
  {
    seq(|a|, i requires 0 <= i < |a| => a[i] + b[i])
  }

  /** How many addresses a strided box of blocks reaches over, from its first to its last. */
  function Span(dims: Vec, strides: Vec, block: nat): nat
    requires |dims| == |strides|
  {
    if dims == [] then block
    else if dims[0] == 0 then 0
    else Times(dims[0] - 1, strides[0]) + Span(dims[1..], strides[1..], block)
  }

  /** Each stride clears everything the inner dimensions reach. */
  ghost predicate Nested(dims: Vec, strides: Vec, block: nat) {
    && |dims| == |strides|
    && (dims == [] || (Span(dims[1..], strides[1..], block) <= strides[0] && Nested(dims[1..], strides[1..], block)))
  }

  lemma {:induction false} DotLtSpan(p: Vec, dims: Vec, strides: Vec, block: nat)
    requires InBox(p, dims) && |dims| == |strides|
    ensures Dot(p, strides) + block <= Span(dims, strides, block)
  {
    if p != [] {
      DotLtSpan(p[1..], dims[1..], strides[1..], block);
      TimesMono(p[0], dims[0] - 1, strides[0]);
    }
  }

  lemma {:induction false} StridesAt(dims: Vec, unit: nat, i: nat)
    requires i < |dims|
    ensures Strides(dims, unit)[i] == Times(Volume(dims[i + 1..]), unit)
  {
    if i > 0 {
      StridesAt(dims[1..], unit, i - 1);
      assert dims[1..][i..] == dims[i + 1..];
    }
  }

  lemma {:induction false} StridesDrop(dims: Vec, unit: nat, i: nat)
    requires i <= |dims|
    ensures Strides(dims, unit)[i..] == Strides(dims[i..], unit)
  {
    if i > 0 {
      StridesDrop(dims[1..], unit, i - 1);
      assert dims[1..][i - 1..] == dims[i..];
    }
  }

  /** Row-major byte addresses are element numbers times the element size. */
  lemma {:induction false} DotIsLinear(p: Vec, dims: Vec, unit: nat)
    requires |p| == |dims|
    ensures Dot(p, Strides(dims, unit)) == Times(Linear(dims, p), unit)
  {
    if p != [] {
      DotIsLinear(p[1..], dims[1..], unit);
      TimesAssoc(p[0], Volume(dims[1..]), unit);
      TimesPlus(Times(p[0], Volume(dims[1..])), Linear(dims[1..], p[1..]), unit);
    }
  }

  lemma {:induction false} LinearLtVolume(p: Vec, dims: Vec)
    requires InBox(p, dims)
    ensures Linear(dims, p) < Volume(dims)
  {
    if p != [] {
      LinearLtVolume(p[1..], dims[1..]);
      TimesMono(p[0] + 1, dims[0], Volume(dims[1..]));
    }
  }

  /** Every element number below the volume is the number of some point: row-major numbering is onto. */
  lemma {:induction false} Unlinear(x: nat, dims: Vec) returns (p: Vec)
    requires x < Volume(dims)
    ensures InBox(p, dims) && Linear(dims, p) == x
  {
    if dims == [] {
      p := [];
    } else {
      var quot, rem := DivMod(x, dims[0], Volume(dims[1..]));
      var rest := Unlinear(rem, dims[1..]);
      p := [quot] + rest;
      assert p[1..] == rest;
    }
  }

  lemma {:induction false} DotPlus(a: Vec, b: Vec, strides: Vec)
    requires |a| == |b| == |strides|
    ensures Dot(Plus(a, b), strides) == Dot(a, strides) + Dot(b, strides)
  {
    if a != [] {
      assert Plus(a, b)[1..] == Plus(a[1..], b[1..]);
      DotPlus(a[1..], b[1..], strides[1..]);
      TimesPlus(a[0], b[0], strides[0]);
    }
  }

  lemma {:induction false} DotSplit(p: Vec, strides: Vec, k: nat)
    requires |p| == |strides| && k <= |p|
    ensures Dot(p, strides) == Dot(p[..k], strides[..k]) + Dot(p[k..], strides[k..])
  {
    if k == 0 {
      assert p[0..] == p && strides[0..] == strides;
    } else {
      DotSplit(p[1..], strides[1..], k - 1);
      assert p[1..][..k - 1] == p[..k][1..] && strides[1..][..k - 1] == strides[..k][1..];
      assert p[1..][k - 1..] == p[k..] && strides[1..][k - 1..] == strides[k..];
    }
  }

  /** The strides of a volume clear every box no larger than the volume. */
  lemma {:induction false} SmallerBoxNests(sub: Vec, dims: Vec, unit: nat)
    requires |sub| == |dims| && forall i | 0 <= i < |sub| :: sub[i] <= dims[i]
    ensures Nested(sub, Strides(dims, unit), unit)
    ensures Span(sub, Strides(dims, unit), unit) <= Times(Volume(dims), unit)
  {
    if sub != [] {
      SmallerBoxNests(sub[1..], dims[1..], unit);
      var v := Times(Volume(dims[1..]), unit);
      assert Strides(dims, unit)[1..] == Strides(dims[1..], unit);
      TimesMono(sub[0], dims[0], v);
      TimesAssoc(dims[0], Volume(dims[1..]), unit);
    }
  }

  /** A box no larger in any dimension has no more elements, and as many only if it is the same. */
  lemma {:induction false} SmallerBoxSmallerVolume(sub: Vec, dims: Vec)
    requires |sub| == |dims| && (forall i | 0 <= i < |sub| :: sub[i] <= dims[i])
    ensures Volume(sub) <= Volume(dims)
    ensures Volume(sub) == Volume(dims) > 0 ==> sub == dims
  {
    if sub != [] {
      SmallerBoxSmallerVolume(sub[1..], dims[1..]);
      var v, w := Volume(sub[1..]), Volume(dims[1..]);
      TimesMono(sub[0], dims[0], v);
      TimesMonoStep(dims[0], v, w);
      if Volume(sub) == Volume(dims) > 0 {
        assert w > 0 by { if w == 0 { TimesZero(dims[0]); } }
        if v < w {
          TimesMonoStep(dims[0], v + 1, w);
          TimesPlusStep(dims[0], v, 1);
          TimesIsProduct(dims[0], 1);
        }
        if sub[0] < dims[0] { TimesMono(sub[0] + 1, dims[0], v); }
        assert sub == [sub[0]] + sub[1..] && dims == [dims[0]] + dims[1..];
      }
    }
  }
}
