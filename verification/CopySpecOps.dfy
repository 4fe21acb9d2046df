/** Operations on copy specifications: src/core/adios_copyspec.c:145-213. */
module CopySpecOps {
  import opened Geometry
  import opened Bytes
  import opened Endianness
  import opened CopySpecs

  ghost predicate SrcCovering(c: CopySpec)
    requires c.Shaped()
  {
    forall i | 0 <= i < |c.subv| :: c.srcOff[i] == 0 && c.srcDims[i] == c.subv[i]
  }

  ghost predicate DstCovering(c: CopySpec)
    requires c.Shaped()
  {
    forall i | 0 <= i < |c.subv| :: c.dstOff[i] == 0 && c.dstDims[i] == c.subv[i]
  }

  method IsSubvolumeSrcCovering(c: CopySpec) returns (r: bool)
    requires c.Shaped()
    ensures r <==> SrcCovering(c)
  {
    for dim := 0 to |c.subv|
      invariant forall i | 0 <= i < dim :: c.srcOff[i] == 0 && c.srcDims[i] == c.subv[i]
    {
      if c.srcOff[dim] != 0 || c.srcDims[dim] != c.subv[dim] { return false; }
    }
    return true;
  }

  method IsSubvolumeDstCovering(c: CopySpec) returns (r: bool)
    requires c.Shaped()
    ensures r <==> DstCovering(c)
  {
    for dim := 0 to |c.subv|
      invariant forall i | 0 <= i < dim :: c.dstOff[i] == 0 && c.dstDims[i] == c.subv[i]
    {
      if c.dstOff[dim] != 0 || c.dstDims[dim] != c.subv[dim] { return false; }
    }
    return true;
  }

  method IsNoop(c: CopySpec) returns (r: bool)
    requires c.Shaped()
    ensures r <==> SrcCovering(c) && DstCovering(c)
  {
    if c.srcDims != c.dstDims || c.srcDims != c.subv { return false; }
    for dim := 0 to |c.subv|
      invariant forall i | 0 <= i < dim :: c.dstOff[i] == 0 && c.srcOff[i] == 0
    {
      if c.dstOff[dim] != 0 || c.srcOff[dim] != 0 { return false; }
    }
    return true;
  }

  lemma PlusZero(off: Vec, p: Vec)
    requires |off| == |p| && forall i | 0 <= i < |off| :: off[i] == 0
    ensures Plus(off, p) == p
  {}

  /** Every point of the box has the same address in source and destination. */
  ghost predicate SamePlace(c: CopySpec, dr: nat, sr: nat, size: nat)
    requires c.Shaped()
  {
    forall p | InBox(p, c.subv) :: Addr(c.dstDims, c.dstOff, dr, size, p) == Addr(c.srcDims, c.srcOff, sr, size, p)
  }

  lemma SamePlaceCopiesNothing(buf: seq<byte>, c: CopySpec, dr: nat, sr: nat, size: nat)
    requires c.Shaped() && SamePlace(c, dr, sr, size)
    ensures PointsCopied(buf, buf, buf, c, dr, sr, size, 1)
  {
    forall p, a: int | InBox(p, c.subv) && 0 <= a < |buf| && InElement(a, c.dstDims, c.dstOff, dr, size, p)
      ensures a == SourceAddr(a, c, dr, sr, size, 1, p)
    {
      FlipOne(a - Addr(c.dstDims, c.dstOff, dr, size, p));
    }
  }

  /** A buffer that changes when point p is copied from another place. */
  lemma OtherPlaceCopiesSomething(len: nat, c: CopySpec, dr: nat, sr: nat, size: nat, p: Vec) returns (buf: seq<byte>)
    requires c.Shaped() && size > 0 && InBox(p, c.subv)
    requires Reaches(len, c.subv, c.dstDims, c.dstOff, dr, size) && Reaches(len, c.subv, c.srcDims, c.srcOff, sr, size)
    requires Addr(c.dstDims, c.dstOff, dr, size, p) != Addr(c.srcDims, c.srcOff, sr, size, p)
    ensures |buf| == len && !PointsCopied(buf, buf, buf, c, dr, sr, size, 1)
  {
    var a := Addr(c.dstDims, c.dstOff, dr, size, p);
    buf := seq(len, i => if i == a then 1 else 0);
    if PointsCopied(buf, buf, buf, c, dr, sr, size, 1) {
      PointByte(buf, buf, buf, c, dr, sr, size, 1, p, 0);
      FlipOne(0);
    }
  }

  /**
   Copying within one buffer leaves every buffer as it is if and only if every point has the same address on both sides.
   */
  lemma CopiesNothingIff(len: nat, c: CopySpec, dr: nat, sr: nat, size: nat)
    requires c.Shaped() && size > 0
    requires Reaches(len, c.subv, c.dstDims, c.dstOff, dr, size) && Reaches(len, c.subv, c.srcDims, c.srcOff, sr, size)
    ensures (forall buf: seq<byte> | |buf| == len :: PointsCopied(buf, buf, buf, c, dr, sr, size, 1)) <==>
      SamePlace(c, dr, sr, size)
  {
    if SamePlace(c, dr, sr, size) {
      forall buf: seq<byte> | |buf| == len ensures PointsCopied(buf, buf, buf, c, dr, sr, size, 1) {
        SamePlaceCopiesNothing(buf, c, dr, sr, size);
      }
    } else {
      var p :| InBox(p, c.subv) && Addr(c.dstDims, c.dstOff, dr, size, p) != Addr(c.srcDims, c.srcOff, sr, size, p);
      var buf := OtherPlaceCopiesSomething(len, c, dr, sr, size, p);
    }
  }

  /** A no-op spec leaves a buffer that is copied onto itself as it is; there is no room for a ragged offset. */
  lemma NoopCopiesNothing(buf: seq<byte>, c: CopySpec, ragged: nat, size: nat)
    requires c.Shaped() && SrcCovering(c) && DstCovering(c) && ragged <= Linear(c.srcDims, c.srcOff)
    ensures ragged == 0
    ensures PointsCopied(buf, buf, buf, c, 0, ragged, size, 1)
  {
    assert c.srcDims == c.subv && c.dstDims == c.subv;
    LinearZero(c.srcDims, c.srcOff);
    forall p | InBox(p, c.subv) ensures Addr(c.dstDims, c.dstOff, 0, size, p) == Addr(c.srcDims, c.srcOff, 0, size, p) {
      PlusZero(c.srcOff, p);
      PlusZero(c.dstOff, p);
    }
    SamePlaceCopiesNothing(buf, c, 0, 0, size);
  }

  lemma {:induction false} LinearZero(dims: Vec, off: Vec)
    requires |dims| == |off| && forall i | 0 <= i < |off| :: off[i] == 0
    ensures Linear(dims, off) == 0
  {
    if off != [] { LinearZero(dims[1..], off[1..]); }
  }

  /** adios_copyspec_shrink_dst_to_subv: the same box, into a packed destination. */
  function ShrinkDst(c: CopySpec): CopySpec {
    CopySpec(c.subv, c.subv, seq(|c.subv|, _ => 0), c.srcDims, c.srcOff)
  }

  /** adios_copyspec_shrink_src_to_subv: the same box, out of a packed source. */
  function ShrinkSrc(c: CopySpec): CopySpec {
    CopySpec(c.subv, c.dstDims, c.dstOff, c.subv, seq(|c.subv|, _ => 0))
  }

  /** The result of a point-by-point copy is determined by what it starts from. */
  lemma PointsCopiedUnique(now: seq<byte>, now': seq<byte>, before: seq<byte>, source: seq<byte>,
                           c: CopySpec, dr: nat, sr: nat, size: nat, u: nat)
    requires c.Shaped() && u > 0
    requires PointsCopied(now, before, source, c, dr, sr, size, u)
    requires PointsCopied(now', before, source, c, dr, sr, size, u)
    ensures now == now'
  {}

  lemma StagedByte(staged: seq<byte>, before: seq<byte>, packed: seq<byte>, packed0: seq<byte>, source: seq<byte>,
                   c: CopySpec, dr: nat, sr: nat, size: nat, u: nat, p: Vec, a: nat)
    requires c.Shaped() && u > 0
    requires PointsCopied(packed, packed0, source, ShrinkDst(c), 0, sr, size, u)
    requires PointsCopied(staged, before, packed, ShrinkSrc(c), dr, 0, size, 1)
    requires InBox(p, c.subv) && a < |staged| && InElement(a, c.dstDims, c.dstOff, dr, size, p)
    ensures var o := SourceAddr(a, c, dr, sr, size, u, p); 0 <= o < |source| && staged[a] == source[o]
  {
    var into, outOf := ShrinkDst(c), ShrinkSrc(c);
    var b := SourceAddr(a, outOf, dr, 0, size, 1, p);
    FlipOne(a - Addr(c.dstDims, c.dstOff, dr, size, p));
    assert staged[a] == packed[b];
    assert InElement(b, into.dstDims, into.dstOff, 0, size, p);
    assert packed[b] == source[SourceAddr(b, into, 0, sr, size, u, p)];
  }

  /**
   A copy factors through a packed buffer: into it with the destination-shrunk spec, out of it
   with the source-shrunk spec. The bytes are swapped once, on the way in.
   */
  lemma CopyFactorsThroughPacked(direct: seq<byte>, staged: seq<byte>, before: seq<byte>, packed: seq<byte>,
                                 packed0: seq<byte>, source: seq<byte>, c: CopySpec,
                                 dr: nat, sr: nat, size: nat, u: nat)
    requires c.Shaped() && u > 0
    requires PointsCopied(direct, before, source, c, dr, sr, size, u)
    requires PointsCopied(packed, packed0, source, ShrinkDst(c), 0, sr, size, u)
    requires PointsCopied(staged, before, packed, ShrinkSrc(c), dr, 0, size, 1)
    ensures staged == direct
  {
    forall p, a: int | InBox(p, c.subv) && 0 <= a < |staged| && InElement(a, c.dstDims, c.dstOff, dr, size, p)
      ensures var o := SourceAddr(a, c, dr, sr, size, u, p); 0 <= o < |source| && staged[a] == source[o]
    {
      StagedByte(staged, before, packed, packed0, source, c, dr, sr, size, u, p, a);
    }
    PointsCopiedUnique(staged, direct, before, source, c, dr, sr, size, u);
  }

  /**
   The covering tests are exact: a fitting nonempty box covers the source volume if and only if it
   has all its elements, and then every point has the same element number in box and volume.
   */
  lemma SrcCoveringIsIdentity(c: CopySpec)
    requires c.Fits() && Volume(c.srcDims) > 0
    ensures SrcCovering(c) <==> Volume(c.subv) == Volume(c.srcDims)
    ensures SrcCovering(c) ==> forall p | InBox(p, c.subv) :: Linear(c.srcDims, Plus(c.srcOff, p)) == Linear(c.subv, p)
  {
    SmallerBoxSmallerVolume(c.subv, c.srcDims);
    if SrcCovering(c) {
      assert c.srcDims == c.subv;
      forall p | InBox(p, c.subv) ensures Plus(c.srcOff, p) == p { PlusZero(c.srcOff, p); }
    }
  }

  lemma DstCoveringIsIdentity(c: CopySpec)
    requires c.Fits() && Volume(c.dstDims) > 0
    ensures DstCovering(c) <==> Volume(c.subv) == Volume(c.dstDims)
    ensures DstCovering(c) ==> forall p | InBox(p, c.subv) :: Linear(c.dstDims, Plus(c.dstOff, p)) == Linear(c.subv, p)
  {
    SmallerBoxSmallerVolume(c.subv, c.dstDims);
    if DstCovering(c) {
      assert c.dstDims == c.subv;
      forall p | InBox(p, c.subv) ensures Plus(c.dstOff, p) == p { PlusZero(c.dstOff, p); }
    }
  }

  /**
   The no-op test: the box has all elements of both volumes, and then every point has one element number in all three.
   */
  lemma NoopIsIdentity(c: CopySpec)
    requires c.Fits() && Volume(c.srcDims) > 0 && Volume(c.dstDims) > 0
    ensures SrcCovering(c) && DstCovering(c) <==> Volume(c.subv) == Volume(c.srcDims) == Volume(c.dstDims)
    ensures SrcCovering(c) && DstCovering(c) ==> forall p | InBox(p, c.subv) ::
              Linear(c.srcDims, Plus(c.srcOff, p)) == Linear(c.subv, p) == Linear(c.dstDims, Plus(c.dstOff, p))
  {
    SrcCoveringIsIdentity(c);
    DstCoveringIsIdentity(c);
  }
}
