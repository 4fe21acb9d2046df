/** copy_subvolume_ragged_offset and compaction: src/core/adios_subvolume.c:272-449. */
module CopySubvolume {
  import opened Geometry
  import opened Bytes
  import opened Types
  import opened Endianness
  import opened BlockCopy
  import opened CopyKernel
  import opened CopySpecs

  /** Dimension i is the whole of source, destination and subvolume alike. */
  ghost predicate Covering(c: CopySpec, i: nat)
    requires c.Shaped() && i < |c.subv|
  {
    c.srcOff[i] == 0 && c.dstOff[i] == 0 && c.subv[i] == c.srcDims[i] == c.dstDims[i]
  }

  /** The last dimension that is not covering, or 0 if all are. */
  method LastNoncovering(subv: array<nat>, dstDims: array<nat>, dstOff: array<nat>, srcDims: array<nat>,
                         srcOff: array<nat>)
    returns (last: nat)
    requires 0 < subv.Length == dstDims.Length == dstOff.Length == srcDims.Length == srcOff.Length
    ensures last < subv.Length
    ensures forall i | last < i < subv.Length ::
      Covering(CopySpec(subv[..], dstDims[..], dstOff[..], srcDims[..], srcOff[..]), i)
  {
    last := 0;
    for i := 0 to subv.Length
      invariant last < subv.Length && (last <= i)
      invariant forall j | last < j < i ::
        Covering(CopySpec(subv[..], dstDims[..], dstOff[..], srcDims[..], srcOff[..]), j)
    {
      if srcOff[i] != 0 || dstOff[i] != 0 || subv[i] != srcDims[i] || subv[i] != dstDims[i] {
        last := i;
      }
    }
  }

  /** Number of bytes in the region spanned by the dimensions from `first` on. */
  method ContiguousVolume(subv: array<nat>, first: nat, size: nat) returns (volume: nat)
    requires first <= subv.Length
    ensures volume == Times(Volume(subv[first..]), size)
  {
    volume := 1;
    assert subv[first..] == subv[first..subv.Length];
    TimesIsProduct(1, Volume(subv[first..]));
    for i := first to subv.Length
      invariant Times(volume, Volume(subv[i..])) == Volume(subv[first..])
    {
      assert subv[i..][1..] == subv[i + 1..];
      TimesAssoc(volume, subv[i], Volume(subv[i + 1..]));
      TimesIsProduct(volume, subv[i]);
      volume := volume * subv[i];
    }
    TimesIsProduct(volume, 1);
    TimesIsProduct(volume, size);
    volume := volume * size;
  }

  /** Byte strides of a volume, from the fastest dimension to the slowest. */
  method ComputeStrides(dims: array<nat>, size: nat) returns (strides: array<nat>)
    requires dims.Length <= 32
    ensures fresh(strides) && strides.Length == 32
    ensures strides[..dims.Length] == Strides(dims[..], size)
  {
    strides := new nat[32];
    var volume, i := size, dims.Length;
    TimesIsProduct(1, size);
    while i > 0
      invariant 0 <= i <= dims.Length && volume == Times(Volume(dims[i..]), size)
      invariant forall j | i <= j < dims.Length :: strides[j] == Strides(dims[..], size)[j]
    {
      i := i - 1;
      strides[i] := volume;
      StridesAt(dims[..], size, i);
      assert dims[..][i + 1..] == dims[i + 1..] && dims[i..][1..] == dims[i + 1..];
      TimesAssoc(dims[i], Volume(dims[i + 1..]), size);
      TimesIsProduct(dims[i], volume);
      volume := volume * dims[i];
    }
  }

  /** Byte offset of the box's first element. */
  method StartOffset(off: array<nat>, strides: array<nat>) returns (offset: nat)
    requires off.Length <= strides.Length
    ensures offset == Dot(off[..], strides[..off.Length])
  {
    offset := 0;
    var n := off.Length;
    for i := 0 to n
      invariant offset == Dot(off[..i], strides[..i])
    {
      DotSplit(off[..i + 1], strides[..i + 1], i);
      assert off[..i + 1][..i] == off[..i] && strides[..i + 1][..i] == strides[..i];
      assert off[..i + 1][i..] == [off[i]] && strides[..i + 1][i..] == [strides[i]];
      TimesIsProduct(off[i], strides[i]);
      offset := offset + off[i] * strides[i];
    }
    assert off[..n] == off[..];
  }

  /** The trailing covering dimensions are contiguous in both volumes. */
  lemma CoveringContiguous(c: CopySpec, last: nat, size: nat)
    requires c.Shaped() && last < |c.subv| && forall i | last < i < |c.subv| :: Covering(c, i)
    ensures Contiguous(c.subv, Strides(c.dstDims, size), last, size)
    ensures Contiguous(c.subv, Strides(c.srcDims, size), last, size)
  {
    forall i | last < i < |c.subv| ensures c.subv[i] == c.dstDims[i] == c.srcDims[i] { assert Covering(c, i); }
    SameTail(c.subv, c.dstDims, last, size);
    SameTail(c.subv, c.srcDims, last, size);
  }

  lemma SameTail(subv: Vec, dims: Vec, last: nat, size: nat)
    requires |subv| == |dims| && last < |subv| && forall i | last < i < |subv| :: subv[i] == dims[i]
    ensures Contiguous(subv, Strides(dims, size), last, size)
  {
    StridesDrop(dims, size, last);
    assert subv[last..][1..] == dims[last..][1..];
    assert Strides(subv[last..], size) == Strides(dims[last..], size);
  }

  /** What a caller of the copy has to provide: a box no larger than the destination, inside both buffers. */
  ghost predicate Copyable(dstLen: nat, srcLen: nat, c: CopySpec, dr: nat, sr: nat, size: nat) {
    && c.Shaped() && 0 < |c.subv| <= 32
    && (forall i | 0 <= i < |c.subv| :: c.subv[i] <= c.dstDims[i])
    && dr <= Linear(c.dstDims, c.dstOff) && sr <= Linear(c.srcDims, c.srcOff)
    && Reaches(dstLen, c.subv, c.dstDims, c.dstOff, dr, size)
    && Reaches(srcLen, c.subv, c.srcDims, c.srcOff, sr, size)
  }

  /** The header's condition for copies within one buffer, on start addresses and on strides. */
  ghost predicate SafeOverlap(c: CopySpec, dr: nat, sr: nat, size: nat)
    requires c.Shaped()
  {
    && Corner(c.dstDims, c.dstOff, dr, size) <= Corner(c.srcDims, c.srcOff, sr, size)
    && forall i | 0 <= i < |c.subv| :: Strides(c.dstDims, size)[i] <= Strides(c.srcDims, size)[i]
  }

  /** The facts the helper needs about the folded copy. */
  lemma FoldedReady(dstLen: nat, srcLen: nat, c: CopySpec, dr: nat, sr: nat, size: nat, last: nat)
    requires Copyable(dstLen, srcLen, c, dr, sr, size) && last < |c.subv| && size > 0
    requires forall i | last < i < |c.subv| :: Covering(c, i)
    ensures Corner(c.dstDims, c.dstOff, dr, size) >= 0 && Corner(c.srcDims, c.srcOff, sr, size) >= 0
    ensures var block := Times(Volume(c.subv[last..]), size); var dims := c.subv[..last];
      && Whole(block, size)
      && Nested(dims, Strides(c.dstDims, size)[..last], block)
      && Inside(dstLen, Corner(c.dstDims, c.dstOff, dr, size), dims, Strides(c.dstDims, size)[..last], block)
      && Inside(srcLen, Corner(c.srcDims, c.srcOff, sr, size), dims, Strides(c.srcDims, size)[..last], block)
  {
    CornerStarts(c.dstDims, c.dstOff, dr, size);
    CornerStarts(c.srcDims, c.srcOff, sr, size);
    CoveringContiguous(c, last, size);
    SmallerBoxNests(c.subv, c.dstDims, size);
    NestedFolded(c.subv, Strides(c.dstDims, size), last, size);
    ReachesInside(dstLen, c.subv, c.dstDims, c.dstOff, dr, size);
    ReachesInside(srcLen, c.subv, c.srcDims, c.srcOff, sr, size);
    InsideFolded(dstLen, Corner(c.dstDims, c.dstOff, dr, size), c.subv, Strides(c.dstDims, size), last, size);
    InsideFolded(srcLen, Corner(c.srcDims, c.srcOff, sr, size), c.subv, Strides(c.srcDims, size), last, size);
    assert Whole(size, size);
    WholeProduct(Volume(c.subv[last..]), size, size);
  }

  /** The folded copy is the point-by-point copy. */
  lemma FoldedIsPoints(now: seq<byte>, before: seq<byte>, source: seq<byte>, c: CopySpec, dr: nat, sr: nat,
                       t: Datatype, swap: bool, last: nat)
    requires c.Shaped() && last < |c.subv| && t != TString
    requires forall i | last < i < |c.subv| :: Covering(c, i)
    requires Corner(c.dstDims, c.dstOff, dr, TypeSize(t)) >= 0 && Corner(c.srcDims, c.srcOff, sr, TypeSize(t)) >= 0
    requires Copied(now, before, source, Corner(c.dstDims, c.dstOff, dr, TypeSize(t)),
                    Corner(c.srcDims, c.srcOff, sr, TypeSize(t)),
                    c.subv[..last], Strides(c.dstDims, TypeSize(t))[..last], Strides(c.srcDims, TypeSize(t))[..last],
                    Times(Volume(c.subv[last..]), TypeSize(t)), Unit(t, swap))
    ensures PointsCopied(now, before, source, c, dr, sr, TypeSize(t), Unit(t, swap))
  {
    var size := TypeSize(t);
    CoveringContiguous(c, last, size);
    assert Whole(size, Unit(t, swap)) by {
      if swap { assert Whole(SwapUnit(t), SwapUnit(t)); } else { WholeTimes(1, size); }
    }
    Unfold(now, before, source, Corner(c.dstDims, c.dstOff, dr, size), Corner(c.srcDims, c.srcOff, sr, size),
           c.subv, Strides(c.dstDims, size), Strides(c.srcDims, size), last, size, Unit(t, swap));
    BlocksArePoints(now, before, source, c, dr, sr, size, Unit(t, swap));
  }

  method TakeOffRagged(offset: nat, ragged: nat, size: nat, ghost dims: Vec, ghost off: Vec) returns (start: nat)
    requires |dims| == |off| && ragged <= Linear(dims, off) && offset == Dot(off, Strides(dims, size))
    ensures start == Corner(dims, off, ragged, size)
  {
    CornerStarts(dims, off, ragged, size);
    TimesIsProduct(ragged, size);
    start := offset - ragged * size;
  }

  /** The scalars and strides computed before the copy starts. */
  method PrepareCopy(subv: array<nat>, dstDims: array<nat>, dstOff: array<nat>, dstRagged: nat,
                     srcDims: array<nat>, srcOff: array<nat>, srcRagged: nat, size: nat)
    returns (last: nat, contig: nat, ds: Vec, ss: Vec, at: nat, from: nat)
    requires 0 < subv.Length == dstDims.Length == dstOff.Length == srcDims.Length == srcOff.Length <= 32
    requires dstRagged <= Linear(dstDims[..], dstOff[..]) && srcRagged <= Linear(srcDims[..], srcOff[..])
    ensures last < subv.Length
    ensures forall i | last < i < subv.Length ::
      Covering(CopySpec(subv[..], dstDims[..], dstOff[..], srcDims[..], srcOff[..]), i)
    ensures contig == Times(Volume(subv[..][last..]), size)
    ensures ds == Strides(dstDims[..], size)[..last] && ss == Strides(srcDims[..], size)[..last]
    ensures at == Corner(dstDims[..], dstOff[..], dstRagged, size)
    ensures from == Corner(srcDims[..], srcOff[..], srcRagged, size)
  {
    last := LastNoncovering(subv, dstDims, dstOff, srcDims, srcOff);
    contig := ContiguousVolume(subv, last, size);
    assert subv[..][last..] == subv[last..];
    var srcStrides := ComputeStrides(srcDims, size);
    var dstStrides := ComputeStrides(dstDims, size);
    ss, ds := srcStrides[..last], dstStrides[..last];
    assert ss == srcStrides[..srcDims.Length][..last] && ds == dstStrides[..dstDims.Length][..last];
    var srcOffset := StartOffset(srcOff, srcStrides);
    var dstOffset := StartOffset(dstOff, dstStrides);
    from := TakeOffRagged(srcOffset, srcRagged, size, srcDims[..], srcOff[..]);
    at := TakeOffRagged(dstOffset, dstRagged, size, dstDims[..], dstOff[..]);
  }

  /** Hands the folded dimensions to the helper. */
  method CopyFolded(dst: array<byte>, at: nat, src: array<byte>, from: nat, dims: Vec, block: nat, ds: Vec, ss: Vec,
                    t: Datatype, swap: bool, host: Endian, ghost c: CopySpec, ghost dr: nat, ghost sr: nat)
    requires t != TString && Copyable(dst.Length, src.Length, c, dr, sr, TypeSize(t))
    requires src != dst || SafeOverlap(c, dr, sr, TypeSize(t))
    requires var last := |dims|;
      && last < |c.subv| && (forall i | last < i < |c.subv| :: Covering(c, i))
      && dims == c.subv[..last] && block == Times(Volume(c.subv[last..]), TypeSize(t))
      && ds == Strides(c.dstDims, TypeSize(t))[..last] && ss == Strides(c.srcDims, TypeSize(t))[..last]
    requires at == Corner(c.dstDims, c.dstOff, dr, TypeSize(t)) && from == Corner(c.srcDims, c.srcOff, sr, TypeSize(t))
    modifies dst
    ensures PointsCopied(dst[..], old(dst[..]), old(src[..]), c, dr, sr, TypeSize(t), Unit(t, swap))
  {
    FoldedReady(dst.Length, src.Length, c, dr, sr, TypeSize(t), |dims|);
    CopyHelper(dst, at, src, from, dims, block, ds, ss, t, swap, host);
    FoldedIsPoints(dst[..], old(dst[..]), old(src[..]), c, dr, sr, t, swap, |dims|);
  }

  /**
   copy_subvolume_ragged_offset. The dimension at which the contiguous ones start is overwritten
   in the caller's array for the duration of the copy, and put back. Arrays of dimensions may
   alias each other; the buffers may be the same one if the overlap is safe.
   */
  method CopySubvolumeRaggedOffset(dst: array<byte>, src: array<byte>, subv: array<nat>,
                                   dstDims: array<nat>, dstOff: array<nat>, dstRagged: nat,
                                   srcDims: array<nat>, srcOff: array<nat>, srcRagged: nat,
                                   t: Datatype, swap: bool, host: Endian)
    requires t != TString
    requires Copyable(dst.Length, src.Length, CopySpec(subv[..], dstDims[..], dstOff[..], srcDims[..], srcOff[..]),
                      dstRagged, srcRagged, TypeSize(t))
    requires src != dst || SafeOverlap(CopySpec(subv[..], dstDims[..], dstOff[..], srcDims[..], srcOff[..]),
                                       dstRagged, srcRagged, TypeSize(t))
    modifies dst, subv
    ensures subv[..] == old(subv[..])
    ensures PointsCopied(dst[..], old(dst[..]), old(src[..]),
                         CopySpec(old(subv[..]), old(dstDims[..]), old(dstOff[..]), old(srcDims[..]), old(srcOff[..])),
                         dstRagged, srcRagged, TypeSize(t), Unit(t, swap))
  {
    ghost var c := CopySpec(subv[..], dstDims[..], dstOff[..], srcDims[..], srcOff[..]);
    var last, contig, ds, ss, at, from := PrepareCopy(subv, dstDims, dstOff, dstRagged, srcDims, srcOff, srcRagged,
                                                      TypeSize(t));
    var firstContigOld := subv[last];
    subv[last] := contig;
    assert subv[..last] == c.subv[..last];
    CopyFolded(dst, at, src, from, subv[..last], subv[last], ds, ss, t, swap, host, c, dstRagged, srcRagged);
    subv[last] := firstContigOld;
  }

  /** The copy in plain numbers: the width of an element and, with swapping, that of a word, type by type. */
  lemma CopyInWidths(now: seq<byte>, before: seq<byte>, source: seq<byte>, c: CopySpec, dr: nat, sr: nat, t: Datatype,
                     swap: bool)
    requires t != TString && c.Shaped() && PointsCopied(now, before, source, c, dr, sr, TypeSize(t), Unit(t, swap))
    ensures t in {TByte, TUnsignedByte} ==> PointsCopied(now, before, source, c, dr, sr, 1, 1)
    ensures t in {TShort, TUnsignedShort} ==> PointsCopied(now, before, source, c, dr, sr, 2, if swap then 2 else 1)
    ensures t in {TInteger, TUnsignedInteger, TReal} ==>
      PointsCopied(now, before, source, c, dr, sr, 4, if swap then 4 else 1)
    ensures t in {TLong, TUnsignedLong, TDouble} ==>
      PointsCopied(now, before, source, c, dr, sr, 8, if swap then 8 else 1)
    ensures t == TLongDouble ==> PointsCopied(now, before, source, c, dr, sr, 16, if swap then 16 else 1)
    ensures t == TComplex ==> PointsCopied(now, before, source, c, dr, sr, 8, if swap then 4 else 1)
    ensures t == TDoubleComplex ==> PointsCopied(now, before, source, c, dr, sr, 16, if swap then 8 else 1)
  {
    Widths();
  }
}
