/**
 What a subvolume copy does to memory. A copy is a family of equal blocks of bytes: one block
 for every point of a box, at an address given by strides. The element-by-element copy and the
 copy after folding the contiguous trailing dimensions are two such families; `Unfold` shows
 that they describe the same memory effect.
 */
module BlockCopy {
  import opened Geometry
  import opened Bytes
  import opened Endianness

  /** Some block of the family, placed from `at` on, holds address a. */
  ghost predicate Hit(a: int, at: int, dims: Vec, strides: Vec, block: nat)
    requires |dims| == |strides|
  {
    exists p | InBox(p, dims) :: InBlock(a, at, p, strides, block)
  }

  ghost predicate InBlock(a: int, at: int, p: Vec, strides: Vec, block: nat)
    requires |p| == |strides|
  {
    at + Dot(p, strides) <= a < at + Dot(p, strides) + block
  }

  /** Every block of the family lies inside a buffer of `len` bytes. */
  ghost predicate Inside(len: nat, at: nat, dims: Vec, strides: Vec, block: nat)
    requires |dims| == |strides|
  {
    forall p | InBox(p, dims) :: block == 0 || at + Dot(p, strides) + block <= len
  }

  /** The address the byte for destination address a comes from, for the block at point p. */
  ghost function Origin(a: int, at: nat, from: nat, p: Vec, ds: Vec, ss: Vec, block: nat, u: nat): nat
    requires |p| == |ds| == |ss| && u > 0 && InBlock(a, at, p, ds, block)
  {
    from + Dot(p, ss) + Flip(a - at - Dot(p, ds), u)
  }

  /**
   `now` results from `before` by writing, for every point p of the box, the block of `source`
   at p's source address to p's destination address, with each u-byte word reversed; every
   other byte is as before.
   */
  ghost predicate Copied(now: seq<byte>, before: seq<byte>, source: seq<byte>,
                         at: nat, from: nat, dims: Vec, ds: Vec, ss: Vec, block: nat, u: nat)
    requires |dims| == |ds| == |ss| && u > 0
  {
    && |now| == |before|
    && (forall p, a: int | InBox(p, dims) && 0 <= a < |now| && InBlock(a, at, p, ds, block) ::
          var o := Origin(a, at, from, p, ds, ss, block, u);
          o < |source| && now[a] == source[o])
    && (forall a | 0 <= a < |now| && !Hit(a, at, dims, ds, block) :: now[a] == before[a])
  }

  /** The copied bytes are determined: two results of the same copy are the same. */
  lemma CopiedUnique(now: seq<byte>, now': seq<byte>, before: seq<byte>, source: seq<byte>,
                     at: nat, from: nat, dims: Vec, ds: Vec, ss: Vec, block: nat, u: nat)
    requires |dims| == |ds| == |ss| && u > 0
    requires Copied(now, before, source, at, from, dims, ds, ss, block, u)
    requires Copied(now', before, source, at, from, dims, ds, ss, block, u)
    ensures now == now'
  {}

  /** The points of a box with a first dimension of i + 1: those of the first i slabs, and slab i. */
  lemma SlabPoint(p: Vec, i: nat, inner: Vec, strides: Vec)
    requires |inner| + 1 == |strides| && InBox(p, [i + 1] + inner)
    ensures InBox(p, [i] + inner)
         || (p[0] == i && InBox(p[1..], inner) && Dot(p, strides) == Times(i, strides[0]) + Dot(p[1..], strides[1..]))
  {}

  lemma SlabPointBack(q: Vec, i: nat, n: nat, inner: Vec, strides: Vec)
    requires |inner| + 1 == |strides| && InBox(q, inner) && i < n
    ensures InBox([i] + q, [n] + inner) && Dot([i] + q, strides) == Times(i, strides[0]) + Dot(q, strides[1..])
  {}

  /** Blocks of the first i slabs end before slab i starts. */
  lemma EarlierSlab(p: Vec, i: nat, inner: Vec, strides: Vec, block: nat)
    requires |inner| + 1 == |strides| && InBox(p, [i] + inner) && Span(inner, strides[1..], block) <= strides[0]
    ensures Dot(p, strides) + block <= Times(i, strides[0])
  {
    var dims := [i] + inner;
    assert p[0] < dims[0];
    forall k | 0 <= k < |p| - 1 ensures p[1..][k] < inner[k] { assert p[k + 1] < dims[k + 1]; }
    DotLtSpan(p[1..], inner, strides[1..], block);
    TimesMono(p[0] + 1, i, strides[0]);
  }

  lemma EarlierNotHit(a: int, at: nat, i: nat, inner: Vec, strides: Vec, block: nat)
    requires |inner| + 1 == |strides| && Span(inner, strides[1..], block) <= strides[0]
    ensures Hit(a, at, [i] + inner, strides, block) ==> a < at + Times(i, strides[0])
    ensures Hit(a, at + Times(i, strides[0]), inner, strides[1..], block) ==> at + Times(i, strides[0]) <= a
  {
    if Hit(a, at, [i] + inner, strides, block) {
      var p :| InBox(p, [i] + inner) && InBlock(a, at, p, strides, block);
      EarlierSlab(p, i, inner, strides, block);
    }
  }

  lemma HitsGrow(a: int, at: nat, i: nat, inner: Vec, strides: Vec, block: nat)
    requires |inner| + 1 == |strides|
    ensures Hit(a, at, [i] + inner, strides, block) || Hit(a, at + Times(i, strides[0]), inner, strides[1..], block)
        ==> Hit(a, at, [i + 1] + inner, strides, block)
  {
    if Hit(a, at, [i] + inner, strides, block) {
      var p :| InBox(p, [i] + inner) && InBlock(a, at, p, strides, block);
      assert InBox(p, [i + 1] + inner);
    } else if Hit(a, at + Times(i, strides[0]), inner, strides[1..], block) {
      var q :| InBox(q, inner) && InBlock(a, at + Times(i, strides[0]), q, strides[1..], block);
      SlabPointBack(q, i, i + 1, inner, strides);
      assert InBlock(a, at, [i] + q, strides, block);
    }
  }

  /** Copying slab i after the first i slabs copies the first i + 1 slabs. */
  lemma SlabDone(now: seq<byte>, mid: seq<byte>, before: seq<byte>, midSource: seq<byte>, source: seq<byte>,
                 at: nat, from: nat, i: nat, inner: Vec, ds: Vec, ss: Vec, block: nat, u: nat)
    requires |ds| == |ss| == |inner| + 1 && u > 0 && Span(inner, ds[1..], block) <= ds[0]
    requires Copied(mid, before, source, at, from, [i] + inner, ds, ss, block, u)
    requires Copied(now, mid, midSource, at + Times(i, ds[0]), from + Times(i, ss[0]), inner, ds[1..], ss[1..], block,
                    u)
    requires |midSource| == |source| && forall o | from + Times(i, ss[0]) <= o < |source| :: midSource[o] == source[o]
    ensures Copied(now, before, source, at, from, [i + 1] + inner, ds, ss, block, u)
  {
    forall p, a: int | InBox(p, [i + 1] + inner) && 0 <= a < |now| && InBlock(a, at, p, ds, block)
      ensures var o := Origin(a, at, from, p, ds, ss, block, u); o < |source| && now[a] == source[o]
    {
      SlabByte(now, mid, before, midSource, source, at, from, i, inner, ds, ss, block, u, p, a);
    }
    forall a | 0 <= a < |now| && !Hit(a, at, [i + 1] + inner, ds, block) ensures now[a] == before[a] {
      HitsGrow(a, at, i, inner, ds, block);
    }
  }

  lemma SlabByte(now: seq<byte>, mid: seq<byte>, before: seq<byte>, midSource: seq<byte>, source: seq<byte>,
                 at: nat, from: nat, i: nat, inner: Vec, ds: Vec, ss: Vec, block: nat, u: nat, p: Vec, a: nat)
    requires |ds| == |ss| == |inner| + 1 && u > 0 && Span(inner, ds[1..], block) <= ds[0]
    requires Copied(mid, before, source, at, from, [i] + inner, ds, ss, block, u)
    requires Copied(now, mid, midSource, at + Times(i, ds[0]), from + Times(i, ss[0]), inner, ds[1..], ss[1..], block,
                    u)
    requires |midSource| == |source| && forall o | from + Times(i, ss[0]) <= o < |source| :: midSource[o] == source[o]
    requires InBox(p, [i + 1] + inner) && a < |now| && InBlock(a, at, p, ds, block)
    ensures var o := Origin(a, at, from, p, ds, ss, block, u); o < |source| && now[a] == source[o]
  {
    SlabPoint(p, i, inner, ds);
    SlabPoint(p, i, inner, ss);
    EarlierNotHit(a, at, i, inner, ds, block);
    if InBox(p, [i] + inner) {
      assert Hit(a, at, [i] + inner, ds, block);
      assert now[a] == mid[a];
    } else {
      assert InBlock(a, at + Times(i, ds[0]), p[1..], ds[1..], block);
      assert Origin(a, at + Times(i, ds[0]), from + Times(i, ss[0]), p[1..], ds[1..], ss[1..], block, u)
          == Origin(a, at, from, p, ds, ss, block, u);
    }
  }

  /** Copying no slab leaves everything as it was. */
  lemma NoSlab(before: seq<byte>, source: seq<byte>, at: nat, from: nat, inner: Vec, ds: Vec, ss: Vec, block: nat,
               u: nat)
    requires |ds| == |ss| == |inner| + 1 && u > 0
    ensures Copied(before, before, source, at, from, [0] + inner, ds, ss, block, u)
  {}

  /** Moving a block and then reversing its u-byte words is the copy of a single block. */
  lemma SingleBlock(now: seq<byte>, moved: seq<byte>, before: seq<byte>, source: seq<byte>, at: nat, from: nat,
                    block: nat, u: nat)
    requires u > 0 && Whole(block, u) && |moved| == |before|
    requires block == 0 || (at + block <= |before| && from + block <= |source|)
    requires forall a | at <= a < at + block :: moved[a] == source[from + a - at]
    requires forall a | 0 <= a < |moved| && !(at <= a < at + block) :: moved[a] == before[a]
    requires IsFlipped(now, moved, at, block, u)
    ensures Copied(now, before, source, at, from, [], [], [], block, u)
  {
    forall p, a: int | InBox(p, []) && 0 <= a < |now| && InBlock(a, at, p, [], block)
      ensures var o := Origin(a, at, from, p, [], [], block, u); o < |source| && now[a] == source[o]
    {
      SingleByte(now, moved, source, at, from, block, u, a);
    }
    forall a | 0 <= a < |now| && !Hit(a, at, [], [], block) ensures !(at <= a < at + block) {
      assert InBox([], []);
      assert at <= a < at + block ==> InBlock(a, at, [], [], block);
    }
  }

  lemma SingleByte(now: seq<byte>, moved: seq<byte>, source: seq<byte>, at: nat, from: nat, block: nat, u: nat, a: nat)
    requires u > 0 && Whole(block, u) && at + block <= |moved| && from + block <= |source| && at <= a < at + block
    requires forall a | at <= a < at + block :: moved[a] == source[from + a - at]
    requires IsFlipped(now, moved, at, block, u)
    ensures from + Flip(a - at, u) < |source| && now[a] == source[from + Flip(a - at, u)]
  {
    FlipStays(a - at, u, block);
    assert now[a] == moved[at + Flip(a - at, u)];
  }

  lemma NotFlipped(s: seq<byte>, at: nat, n: nat)
    ensures IsFlipped(s, s, at, n, 1)
  {
    forall a | at <= a < at + n && a < |s| && at + Flip(a - at, 1) < |s| ensures s[a] == s[at + Flip(a - at, 1)] {
      FlipOne(a - at);
    }
  }

  lemma {:induction false} WholeSum(a: nat, b: nat, u: nat)
    requires u > 0 && Whole(a, u) && Whole(b, u)
    ensures Whole(a + b, u)
    decreases a
  {
    if a > 0 { WholeSum(a - u, b, u); }
  }

  lemma {:induction false} WholeProduct(n: nat, b: nat, u: nat)
    requires u > 0 && Whole(b, u)
    ensures Whole(Times(n, b), u)
    decreases n
  {
    if n > 0 {
      WholeProduct(n - 1, b, u);
      WholeSum(Times(n - 1, b), b, u);
    }
  }

  /** The dimensions from k on are laid out contiguously, as in a packed array of `block`-byte elements. */
  ghost predicate Contiguous(dims: Vec, strides: Vec, k: nat, block: nat) {
    |dims| == |strides| && k <= |dims| && strides[k..] == Strides(dims[k..], block)
  }

  /** The address of p is the address of its leading part, plus the packed number of its trailing part. */
  lemma FoldedAddress(p: Vec, dims: Vec, strides: Vec, k: nat, block: nat)
    requires Contiguous(dims, strides, k, block) && |p| == |dims|
    ensures Dot(p, strides) == Dot(p[..k], strides[..k]) + Times(Linear(dims[k..], p[k..]), block)
  {
    DotSplit(p, strides, k);
    DotIsLinear(p[k..], dims[k..], block);
  }

  lemma SplitPoint(p: Vec, dims: Vec, k: nat)
    requires |p| == |dims| && k <= |dims|
    ensures InBox(p, dims) <==> InBox(p[..k], dims[..k]) && InBox(p[k..], dims[k..])
  {}

  /** A byte of a small block lies in the folded block, at the packed number of the trailing point. */
  lemma InFoldedBlock(a: int, at: nat, p: Vec, dims: Vec, strides: Vec, k: nat, block: nat)
    requires Contiguous(dims, strides, k, block) && InBox(p, dims) && InBlock(a, at, p, strides, block)
    ensures InBlock(a, at, p[..k], strides[..k], Times(Volume(dims[k..]), block))
    ensures a - at - Dot(p[..k], strides[..k]) == Times(Linear(dims[k..], p[k..]), block) + (a - at - Dot(p, strides))
  {
    FoldedAddress(p, dims, strides, k, block);
    SplitPoint(p, dims, k);
    LinearLtVolume(p[k..], dims[k..]);
    TimesMono(Linear(dims[k..], p[k..]) + 1, Volume(dims[k..]), block);
  }

  /** Every byte of a folded block lies in some small block. */
  lemma FromFoldedBlock(a: int, at: nat, head: Vec, dims: Vec, strides: Vec, k: nat, block: nat) returns (p: Vec)
    requires Contiguous(dims, strides, k, block) && InBox(head, dims[..k])
    requires InBlock(a, at, head, strides[..k], Times(Volume(dims[k..]), block))
    ensures InBox(p, dims) && p[..k] == head && InBlock(a, at, p, strides, block)
  {
    var q := a - at - Dot(head, strides[..k]);
    var quot, rem := DivMod(q, Volume(dims[k..]), block);
    var tail := Unlinear(quot, dims[k..]);
    p := head + tail;
    assert p[..k] == head && p[k..] == tail;
    SplitPoint(p, dims, k);
    FoldedAddress(p, dims, strides, k, block);
  }

  lemma UnfoldByte(a: int, at: nat, from: nat, p: Vec, dims: Vec, ds: Vec, ss: Vec, k: nat, block: nat, u: nat)
    requires u > 0 && Whole(block, u) && Contiguous(dims, ds, k, block) && Contiguous(dims, ss, k, block)
    requires InBox(p, dims) && InBlock(a, at, p, ds, block)
    ensures InBox(p[..k], dims[..k]) && InBlock(a, at, p[..k], ds[..k], Times(Volume(dims[k..]), block))
    ensures Origin(a, at, from, p[..k], ds[..k], ss[..k], Times(Volume(dims[k..]), block), u)
         == Origin(a, at, from, p, ds, ss, block, u)
  {
    InFoldedBlock(a, at, p, dims, ds, k, block);
    FoldedAddress(p, dims, ss, k, block);
    WholeProduct(Linear(dims[k..], p[k..]), block, u);
    FlipShift(a - at - Dot(p, ds), u, Times(Linear(dims[k..], p[k..]), block));
  }

  /** Copying the folded blocks copies every small block: folding changes nothing. */
  lemma Unfold(now: seq<byte>, before: seq<byte>, source: seq<byte>,
               at: nat, from: nat, dims: Vec, ds: Vec, ss: Vec, k: nat, block: nat, u: nat)
    requires u > 0 && Whole(block, u) && Contiguous(dims, ds, k, block) && Contiguous(dims, ss, k, block)
    requires Copied(now, before, source, at, from, dims[..k], ds[..k], ss[..k], Times(Volume(dims[k..]), block), u)
    ensures Copied(now, before, source, at, from, dims, ds, ss, block, u)
  {
    forall p, a: int | InBox(p, dims) && 0 <= a < |now| && InBlock(a, at, p, ds, block)
      ensures var o := Origin(a, at, from, p, ds, ss, block, u); o < |source| && now[a] == source[o]
    {
      UnfoldByte(a, at, from, p, dims, ds, ss, k, block, u);
    }
    forall a | 0 <= a < |now| && !Hit(a, at, dims, ds, block) ensures now[a] == before[a] {
      HitUnfolds(a, at, dims, ds, k, block);
    }
  }

  lemma HitUnfolds(a: int, at: nat, dims: Vec, strides: Vec, k: nat, block: nat)
    requires Contiguous(dims, strides, k, block)
    ensures Hit(a, at, dims[..k], strides[..k], Times(Volume(dims[k..]), block)) ==> Hit(a, at, dims, strides, block)
  {
    if Hit(a, at, dims[..k], strides[..k], Times(Volume(dims[k..]), block)) {
      var head :| InBox(head, dims[..k]) && InBlock(a, at, head, strides[..k], Times(Volume(dims[k..]), block));
      var p := FromFoldedBlock(a, at, head, dims, strides, k, block);
    }
  }

  lemma InsideFolded(len: nat, at: nat, dims: Vec, strides: Vec, k: nat, block: nat)
    requires Contiguous(dims, strides, k, block) && Inside(len, at, dims, strides, block)
    ensures Inside(len, at, dims[..k], strides[..k], Times(Volume(dims[k..]), block))
  {
    var big := Times(Volume(dims[k..]), block);
    forall head | InBox(head, dims[..k]) ensures big == 0 || at + Dot(head, strides[..k]) + big <= len {
      if big > 0 {
        var a := at + Dot(head, strides[..k]) + big - 1;
        var p := FromFoldedBlock(a, at, head, dims, strides, k, block);
      }
    }
  }

  lemma {:induction false} PackedSpan(dims: Vec, block: nat)
    ensures Times(Volume(dims), block) <= Span(dims, Strides(dims, block), block)
  {
    if dims != [] {
      PackedSpan(dims[1..], block);
      assert Strides(dims, block)[1..] == Strides(dims[1..], block);
      TimesAssoc(dims[0], Volume(dims[1..]), block);
    }
  }

  lemma {:induction false} NestedFolded(dims: Vec, strides: Vec, k: nat, block: nat)
    requires Contiguous(dims, strides, k, block) && Nested(dims, strides, block)
    ensures Nested(dims[..k], strides[..k], Times(Volume(dims[k..]), block))
    ensures Span(dims[..k], strides[..k], Times(Volume(dims[k..]), block)) <= Span(dims, strides, block)
  {
    if k == 0 {
      assert dims[0..] == dims && strides[0..] == strides;
      PackedSpan(dims, block);
    } else {
      var rest, restStrides := dims[1..], strides[1..];
      assert rest[k - 1..] == dims[k..] && restStrides[k - 1..] == strides[k..];
      NestedFolded(rest, restStrides, k - 1, block);
      assert dims[..k] == [dims[0]] + rest[..k - 1] && strides[..k] == [strides[0]] + restStrides[..k - 1];
      assert dims[..k][1..] == rest[..k - 1] && strides[..k][1..] == restStrides[..k - 1];
    }
  }
}
