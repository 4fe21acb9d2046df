/** The recursive copy kernel: src/core/adios_subvolume.c:224-270. */
module CopyKernel {
  import opened Geometry
  import opened Bytes
  import opened Types
  import opened Endianness
  import opened BlockCopy

  /** The word size change_endianness reverses, or 1 when bytes are copied as they are. */
  function Unit(t: Datatype, swap: bool): (u: nat)
    requires t != TString
    ensures u > 0
  {
    if swap then SwapUnit(t) else 1
  }

  /** A block move that also works between overlapping regions, as memmove does. */
  method BlockMove(dst: array<byte>, at: nat, src: array<byte>, from: nat, n: nat)
    requires n == 0 || (at + n <= dst.Length && from + n <= src.Length)
    modifies dst
    ensures forall a | at <= a < at + n :: dst[a] == old(src[from + a - at])
    ensures forall a | 0 <= a < dst.Length && !(at <= a < at + n) :: dst[a] == old(dst[a])
  {
    forall k | 0 <= k < n { dst[at + k] := src[from + k]; }
  }

  /** The base case of copy_subvolume_helper: one block, byte-swapped in place if asked. */
  method CopyBlock(dst: array<byte>, at: nat, src: array<byte>, from: nat, n: nat, t: Datatype, swap: bool,
                   host: Endian)
    requires t != TString && Whole(n, TypeSize(t))
    requires n == 0 || (at + n <= dst.Length && from + n <= src.Length)
    modifies dst
    ensures Copied(dst[..], old(dst[..]), old(src[..]), at, from, [], [], [], n, Unit(t, swap))
  {
    BlockMove(dst, at, src, from, n);
    ghost var moved := dst[..];
    if swap {
      ChangeEndianness(dst, at, n, t, host);
      WholeQuotient(n, TypeSize(t));
      WholeFiner(n, t);
    } else {
      NotFlipped(moved, at, n);
      WholeTimes(1, n);
    }
    SingleBlock(dst[..], moved, old(dst[..]), old(src[..]), at, from, n, Unit(t, swap));
  }

  lemma {:induction false} WholeQuotient(n: nat, u: nat)
    requires u > 0 && Whole(n, u)
    ensures u * (n / u) == n
    decreases n
  {
    if n > 0 {
      WholeQuotient(n - u, u);
      Quotient(n, u, (n - u) / u + 1, 0);
    }
  }

  lemma {:induction false} WholeFiner(n: nat, t: Datatype)
    requires t != TString && Whole(n, TypeSize(t))
    ensures Whole(n, SwapUnit(t))
    decreases n
  {
    if n > 0 { WholeFiner(n - TypeSize(t), t); }
  }

  /** Overlapping buffers: the destination starts no later and strides no faster than the source. */
  ghost predicate Safe(at: nat, from: nat, ds: Vec, ss: Vec) {
    |ds| == |ss| && at <= from && forall i | 0 <= i < |ds| :: ds[i] <= ss[i]
  }

  lemma InsideSlab(len: nat, at: nat, i: nat, n: nat, inner: Vec, strides: Vec, block: nat)
    requires |inner| + 1 == |strides| && i < n && Inside(len, at, [n] + inner, strides, block)
    ensures Inside(len, at + Times(i, strides[0]), inner, strides[1..], block)
  {
    forall q | InBox(q, inner) ensures block == 0 || at + Times(i, strides[0]) + Dot(q, strides[1..]) + block <= len {
      SlabPointBack(q, i, n, inner, strides);
    }
  }

  /**
   copy_subvolume_helper: one loop for each entry of `dims` around the move of a block of
   `block` bytes (the entry of the dimension list on which the recursion ends). The source may
   be the destination buffer itself when the copy is safe.
   */
  method CopyHelper(dst: array<byte>, at: nat, src: array<byte>, from: nat, dims: Vec, block: nat, ds: Vec, ss: Vec,
                    t: Datatype, swap: bool, host: Endian)
    requires |dims| == |ds| == |ss| && t != TString && Whole(block, TypeSize(t))
    requires Nested(dims, ds, block)
    requires Inside(dst.Length, at, dims, ds, block) && Inside(src.Length, from, dims, ss, block)
    requires src != dst || Safe(at, from, ds, ss)
    modifies dst
    ensures Copied(dst[..], old(dst[..]), old(src[..]), at, from, dims, ds, ss, block, Unit(t, swap))
    decreases |dims|, 1
  {
    if |dims| == 0 {
      assert InBox([], dims);
      CopyBlock(dst, at, src, from, block, t, swap, host);
    } else {
      ghost var inner, u := dims[1..], Unit(t, swap);
      assert dims == [dims[0]] + inner;
      var d, s := at, from;
      NoSlab(dst[..], src[..], at, from, inner, ds, ss, block, u);
      for i := 0 to dims[0]
        invariant d == at + Times(i, ds[0]) && s == from + Times(i, ss[0])
        invariant src != dst ==> src[..] == old(src[..])
        invariant Copied(dst[..], old(dst[..]), old(src[..]), at, from, [i] + inner, ds, ss, block, u)
      {
        CopySlab(dst, d, src, s, dims, block, ds, ss, t, swap, host, i, at, from, old(dst[..]), old(src[..]));
        s := s + ss[0];
        d := d + ds[0];
      }
    }
  }

  /** One round of the loop: slab i, after the first i slabs. */
  method CopySlab(dst: array<byte>, d: nat, src: array<byte>, s: nat, dims: Vec, block: nat, ds: Vec, ss: Vec,
                  t: Datatype, swap: bool, host: Endian,
                  ghost i: nat, ghost at: nat, ghost from: nat, ghost before: seq<byte>, ghost source: seq<byte>)
    requires |dims| == |ds| == |ss| > 0 && t != TString && Whole(block, TypeSize(t))
    requires i < dims[0] && d == at + Times(i, ds[0]) && s == from + Times(i, ss[0])
    requires Nested(dims, ds, block)
    requires Inside(dst.Length, at, [dims[0]] + dims[1..], ds, block)
    requires Inside(src.Length, from, [dims[0]] + dims[1..], ss, block)
    requires if src == dst then Safe(at, from, ds, ss) && source == before else src[..] == source
    requires |source| == src.Length
    requires Copied(dst[..], before, source, at, from, [i] + dims[1..], ds, ss, block, Unit(t, swap))
    modifies dst
    ensures src != dst ==> src[..] == source
    ensures Copied(dst[..], before, source, at, from, [i + 1] + dims[1..], ds, ss, block, Unit(t, swap))
    decreases |dims|, 0
  {
    ghost var inner, u := dims[1..], Unit(t, swap);
    ghost var mid, midSource := dst[..], src[..];
    InsideSlab(dst.Length, at, i, dims[0], inner, ds, block);
    InsideSlab(src.Length, from, i, dims[0], inner, ss, block);
    SafeSlab(mid, before, source, at, from, i, inner, ds, ss, block, u, src == dst);
    CopyHelper(dst, d, src, s, dims[1..], block, ds[1..], ss[1..], t, swap, host);
    SlabDone(dst[..], mid, before, midSource, source, at, from, i, inner, ds, ss, block, u);
  }

  /** In a safe overlapping copy, nothing slab i still has to read has been overwritten. */
  lemma SafeSlab(mid: seq<byte>, before: seq<byte>, source: seq<byte>, at: nat, from: nat, i: nat, inner: Vec,
                 ds: Vec, ss: Vec, block: nat, u: nat, overlapping: bool)
    requires |ds| == |ss| == |inner| + 1 && u > 0 && Span(inner, ds[1..], block) <= ds[0]
    requires Copied(mid, before, source, at, from, [i] + inner, ds, ss, block, u)
    requires overlapping ==> source == before && Safe(at, from, ds, ss)
    ensures overlapping ==> Safe(at + Times(i, ds[0]), from + Times(i, ss[0]), ds[1..], ss[1..])
    ensures overlapping ==> forall o | from + Times(i, ss[0]) <= o < |source| :: mid[o] == source[o]
  {
    if overlapping {
      TimesMonoStep(i, ds[0], ss[0]);
      forall o | from + Times(i, ss[0]) <= o < |source| ensures mid[o] == source[o] {
        EarlierNotHit(o, at, i, inner, ds, block);
      }
    }
  }
}
