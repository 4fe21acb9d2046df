/** Copy specifications and the point-by-point copy they stand for: src/core/adios_copyspec.h. */
module CopySpecs {
  import opened Geometry
  import opened Bytes
  import opened Endianness
  import opened BlockCopy

  /** adios_subvolume_copy_spec: a box of `subv` points, placed in a destination and in a source volume. */
  datatype CopySpec = CopySpec(subv: Vec, dstDims: Vec, dstOff: Vec, srcDims: Vec, srcOff: Vec) {
    ghost predicate Shaped() {
      |subv| == |dstDims| == |dstOff| == |srcDims| == |srcOff|
    }

    /** The box lies within both volumes. */
    ghost predicate Fits() {
      && Shaped()
      && forall i | 0 <= i < |subv| :: dstOff[i] + subv[i] <= dstDims[i] && srcOff[i] + subv[i] <= srcDims[i]
    }
  }

  /**
   Byte address of point p of a box placed at `off` in a volume, in a buffer that starts
   `ragged` elements into the volume.
   */
  ghost function Addr(dims: Vec, off: Vec, ragged: nat, size: nat, p: Vec): int
    requires |dims| == |off| == |p|
  {
    Times(Linear(dims, Plus(off, p)), size) - Times(ragged, size)
  }

  /** All elements of the box are inside the buffer. */
  ghost predicate Reaches(len: nat, subv: Vec, dims: Vec, off: Vec, ragged: nat, size: nat)
    requires |subv| == |dims| == |off|
  {
    forall p | InBox(p, subv) :: 0 <= Addr(dims, off, ragged, size, p) && Addr(dims, off, ragged, size, p) + size <= len
  }

  ghost predicate InElement(a: int, dims: Vec, off: Vec, ragged: nat, size: nat, p: Vec)
    requires |dims| == |off| == |p|
  {
    Addr(dims, off, ragged, size, p) <= a < Addr(dims, off, ragged, size, p) + size
  }

  /** Address a belongs to some element of the box. */
  ghost predicate Touched(a: int, subv: Vec, dims: Vec, off: Vec, ragged: nat, size: nat)
    requires |subv| == |dims| == |off|
  {
    exists p | InBox(p, subv) :: InElement(a, dims, off, ragged, size, p)
  }

  /** Where the byte at address a of destination element p comes from. */
  ghost function SourceAddr(a: int, c: CopySpec, dr: nat, sr: nat, size: nat, u: nat, p: Vec): int
    requires c.Shaped() && |p| == |c.subv| && u > 0 && InElement(a, c.dstDims, c.dstOff, dr, size, p)
  {
    Addr(c.srcDims, c.srcOff, sr, size, p) + Flip(a - Addr(c.dstDims, c.dstOff, dr, size, p), u)
  }

  /**
   The point-by-point copy: element p of the box moves from its row-major place in the source to
   its row-major place in the destination, u-byte words reversed; nothing else changes.
   */
  ghost predicate PointsCopied(now: seq<byte>, before: seq<byte>, source: seq<byte>,
                               c: CopySpec, dr: nat, sr: nat, size: nat, u: nat)
    requires c.Shaped() && u > 0
  {
    && |now| == |before|
    && (forall p, a: int | InBox(p, c.subv) && 0 <= a < |now| && InElement(a, c.dstDims, c.dstOff, dr, size, p) ::
          var o := SourceAddr(a, c, dr, sr, size, u, p);
          0 <= o < |source| && now[a] == source[o])
    && (forall a | 0 <= a < |now| && !Touched(a, c.subv, c.dstDims, c.dstOff, dr, size) :: now[a] == before[a])
  }

  /** Where the box starts: the offset the code computes before it takes off the ragged offset. */
  ghost function Corner(dims: Vec, off: Vec, ragged: nat, size: nat): int
    requires |dims| == |off|
  {
    Dot(off, Strides(dims, size)) - Times(ragged, size)
  }

  lemma AddrIsStrided(dims: Vec, off: Vec, ragged: nat, size: nat, p: Vec)
    requires |dims| == |off| == |p|
    ensures Addr(dims, off, ragged, size, p) == Corner(dims, off, ragged, size) + Dot(p, Strides(dims, size))
  {
    DotPlus(off, p, Strides(dims, size));
    DotIsLinear(Plus(off, p), dims, size);
  }

  lemma CornerStarts(dims: Vec, off: Vec, ragged: nat, size: nat)
    requires |dims| == |off| && ragged <= Linear(dims, off)
    ensures Corner(dims, off, ragged, size) >= 0
  {
    DotIsLinear(off, dims, size);
    TimesMono(ragged, Linear(dims, off), size);
  }

  /** A copy of one block per element is the point-by-point copy. */
  lemma BlocksArePoints(now: seq<byte>, before: seq<byte>, source: seq<byte>, c: CopySpec, dr: nat, sr: nat, size: nat,
                        u: nat)
    requires c.Shaped() && u > 0
    requires Corner(c.dstDims, c.dstOff, dr, size) >= 0 && Corner(c.srcDims, c.srcOff, sr, size) >= 0
    requires Copied(now, before, source, Corner(c.dstDims, c.dstOff, dr, size), Corner(c.srcDims, c.srcOff, sr, size),
                    c.subv, Strides(c.dstDims, size), Strides(c.srcDims, size), size, u)
    ensures PointsCopied(now, before, source, c, dr, sr, size, u)
  {
    forall p, a: int | InBox(p, c.subv) && 0 <= a < |now| && InElement(a, c.dstDims, c.dstOff, dr, size, p)
      ensures var o := SourceAddr(a, c, dr, sr, size, u, p); 0 <= o < |source| && now[a] == source[o]
    {
      AddrIsStrided(c.dstDims, c.dstOff, dr, size, p);
      AddrIsStrided(c.srcDims, c.srcOff, sr, size, p);
      assert InBlock(a, Corner(c.dstDims, c.dstOff, dr, size), p, Strides(c.dstDims, size), size);
    }
    forall a | 0 <= a < |now| && !Touched(a, c.subv, c.dstDims, c.dstOff, dr, size) ensures now[a] == before[a] {
      HitIsTouched(a, c.subv, c.dstDims, c.dstOff, dr, size);
    }
  }

  lemma HitIsTouched(a: int, subv: Vec, dims: Vec, off: Vec, ragged: nat, size: nat)
    requires |subv| == |dims| == |off| && Corner(dims, off, ragged, size) >= 0
    ensures Hit(a, Corner(dims, off, ragged, size), subv, Strides(dims, size), size)
        <==> Touched(a, subv, dims, off, ragged, size)
  {
    forall p | InBox(p, subv)
      ensures InBlock(a, Corner(dims, off, ragged, size), p, Strides(dims, size), size)
          <==> InElement(a, dims, off, ragged, size, p)
    {
      AddrIsStrided(dims, off, ragged, size, p);
    }
  }

  lemma ReachesInside(len: nat, subv: Vec, dims: Vec, off: Vec, ragged: nat, size: nat)
    requires |subv| == |dims| == |off| && Reaches(len, subv, dims, off, ragged, size)
    requires Corner(dims, off, ragged, size) >= 0
    ensures Inside(len, Corner(dims, off, ragged, size), subv, Strides(dims, size), size)
  {
    forall p | InBox(p, subv) ensures Corner(dims, off, ragged, size) + Dot(p, Strides(dims, size)) + size <= len {
      AddrIsStrided(dims, off, ragged, size, p);
    }
  }

  /** Byte k of a copied element. */
  lemma PointByte(now: seq<byte>, before: seq<byte>, source: seq<byte>, c: CopySpec, dr: nat, sr: nat, size: nat,
                  u: nat, p: Vec, k: nat)
    requires c.Shaped() && u > 0 && PointsCopied(now, before, source, c, dr, sr, size, u) && InBox(p, c.subv)
    requires k < size
    requires 0 <= Addr(c.dstDims, c.dstOff, dr, size, p) && Addr(c.dstDims, c.dstOff, dr, size, p) + size <= |now|
    ensures var a, o := Addr(c.dstDims, c.dstOff, dr, size, p) + k, Addr(c.srcDims, c.srcOff, sr, size, p) + Flip(k, u);
      0 <= o < |source| && now[a] == source[o]
  {
    var a := Addr(c.dstDims, c.dstOff, dr, size, p) + k;
    assert InElement(a, c.dstDims, c.dstOff, dr, size, p) && 0 <= a < |now|;
    assert now[a] == source[SourceAddr(a, c, dr, sr, size, u, p)];
  }

  /** Without byte swapping an element is copied as it is. */
  lemma PointElement(now: seq<byte>, before: seq<byte>, source: seq<byte>, c: CopySpec, dr: nat, sr: nat, size: nat,
                     p: Vec)
    requires c.Shaped() && PointsCopied(now, before, source, c, dr, sr, size, 1) && InBox(p, c.subv)
    requires 0 <= Addr(c.dstDims, c.dstOff, dr, size, p) && Addr(c.dstDims, c.dstOff, dr, size, p) + size <= |now|
    requires 0 <= Addr(c.srcDims, c.srcOff, sr, size, p) && Addr(c.srcDims, c.srcOff, sr, size, p) + size <= |source|
    ensures var a, o := Addr(c.dstDims, c.dstOff, dr, size, p), Addr(c.srcDims, c.srcOff, sr, size, p);
      now[a..a + size] == source[o..o + size]
  {
    var a, o := Addr(c.dstDims, c.dstOff, dr, size, p), Addr(c.srcDims, c.srcOff, sr, size, p);
    var there, here := now[a..a + size], source[o..o + size];
    forall k: int | 0 <= k < size ensures there[k] == here[k] {
      PointByte(now, before, source, c, dr, sr, size, 1, p, k);
      FlipOne(k);
    }
  }
}
