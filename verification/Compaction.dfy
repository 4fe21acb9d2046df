/** In-place compaction of a subvolume to the front of its buffer: src/core/adios_subvolume.c:416-449. */
module Compaction {
  import opened Geometry
  import opened Bytes
  import opened Types
  import opened CopySpecs
  import opened CopySubvolume
  import CopySpecOps

  function Zeros(n: nat): (z: Vec)
    ensures |z| == n && forall i | 0 <= i < n :: z[i] == 0
  {
    seq(n, _ => 0)
  }

  /** A packed box has no longer strides than the volume it was cut from. */
  lemma PackedStrides(sub: Vec, dims: Vec, size: nat, i: nat)
    requires |sub| == |dims| && i < |sub| && forall i | 0 <= i < |sub| :: sub[i] <= dims[i]
    ensures Strides(sub, size)[i] <= Strides(dims, size)[i]
  {
    StridesAt(sub, size, i);
    StridesAt(dims, size, i);
    SmallerBoxSmallerVolume(sub[i + 1..], dims[i + 1..]);
    TimesMono(Volume(sub[i + 1..]), Volume(dims[i + 1..]), size);
  }

  lemma {:induction false} DotMono(p: Vec, s: Vec, t: Vec)
    requires |p| == |s| == |t| && forall i | 0 <= i < |p| :: s[i] <= t[i]
    ensures Dot(p, s) <= Dot(p, t)
  {
    if p != [] {
      DotMono(p[1..], s[1..], t[1..]);
      TimesMonoStep(p[0], s[0], t[0]);
    }
  }

  lemma {:induction false} DotZeros(strides: Vec)
    ensures Dot(Zeros(|strides|), strides) == 0
  {
    if strides != [] {
      assert Zeros(|strides|)[1..] == Zeros(|strides| - 1);
      DotZeros(strides[1..]);
    }
  }

  /** The copy a compaction makes: from the box's place in the volume to a packed array at the buffer's front. */
  ghost function CompactSpec(subv: Vec, bufDims: Vec, bufOff: Vec): CopySpec {
    CopySpec(subv, subv, Zeros(|subv|), bufDims, bufOff)
  }

  /** Compaction always meets the safety condition for overlapping copies. */
  lemma CompactionIsSafe(len: nat, subv: Vec, bufDims: Vec, bufOff: Vec, ragged: nat, size: nat)
    requires 0 < |subv| == |bufDims| == |bufOff| <= 32
    requires forall i | 0 <= i < |subv| :: subv[i] + bufOff[i] <= bufDims[i]
    requires ragged <= Linear(bufDims, bufOff) && Reaches(len, subv, bufDims, bufOff, ragged, size)
    ensures Copyable(len, len, CompactSpec(subv, bufDims, bufOff), 0, ragged, size)
    ensures SafeOverlap(CompactSpec(subv, bufDims, bufOff), 0, ragged, size)
  {
    var c := CompactSpec(subv, bufDims, bufOff);
    var zero := Zeros(|subv|);
    DotZeros(Strides(subv, size));
    CornerStarts(bufDims, bufOff, ragged, size);
    forall i | 0 <= i < |subv| ensures Strides(subv, size)[i] <= Strides(bufDims, size)[i] {
      PackedStrides(subv, bufDims, size, i);
    }
    forall p | InBox(p, subv)
      ensures 0 <= Addr(subv, zero, 0, size, p) && Addr(subv, zero, 0, size, p) + size <= len
    {
      AddrIsStrided(subv, zero, 0, size, p);
      AddrIsStrided(bufDims, bufOff, ragged, size, p);
      DotMono(p, Strides(subv, size), Strides(bufDims, size));
    }
  }

  /**
   compact_subvolume_ragged_offset: afterwards the front of the buffer holds the box's elements,
   as they were before, in row-major order.
   */
  method CompactSubvolumeRaggedOffset(buf: array<byte>, subv: array<nat>, bufDims: array<nat>, bufRagged: nat,
                                      bufOff: array<nat>, t: Datatype, host: Endian)
    requires t != TString
    requires 0 < subv.Length == bufDims.Length == bufOff.Length <= 32
    requires forall i | 0 <= i < subv.Length :: subv[i] + bufOff[i] <= bufDims[i]
    requires bufRagged <= Linear(bufDims[..], bufOff[..])
    requires Reaches(buf.Length, subv[..], bufDims[..], bufOff[..], bufRagged, TypeSize(t))
    modifies buf, subv
    ensures subv[..] == old(subv[..])
    ensures IsCompacted(buf[..], old(buf[..]), old(subv[..]), old(bufDims[..]), old(bufOff[..]), bufRagged, TypeSize(t))
  {
    ghost var c := CompactSpec(subv[..], bufDims[..], bufOff[..]);
    CompactionIsSafe(buf.Length, subv[..], bufDims[..], bufOff[..], bufRagged, TypeSize(t));
    var zero := new nat[subv.Length](_ => 0);
    assert zero[..] == Zeros(subv.Length);
    var noop := CopySpecOps.IsNoop(CopySpec(subv[..], subv[..], zero[..], bufDims[..], bufOff[..]));
    if !noop {
      CopySubvolumeRaggedOffset(buf, buf, subv, subv, zero, 0, bufDims, bufOff, bufRagged, t, false, host);
    } else {
      CopySpecOps.NoopCopiesNothing(buf[..], c, bufRagged, TypeSize(t));
    }
    CompactedElements(buf[..], old(buf[..]), c.subv, c.srcDims, c.srcOff, bufRagged, TypeSize(t));
  }

  /** The front of the buffer holds the box's elements, as they were before, in row-major order. */
  ghost predicate IsCompacted(now: seq<byte>, before: seq<byte>, subv: Vec, bufDims: Vec, bufOff: Vec, ragged: nat,
                              size: nat)
    requires |subv| == |bufDims| == |bufOff|
  {
    forall p | InBox(p, subv) ::
      var a, o := Times(Linear(subv, p), size), Addr(bufDims, bufOff, ragged, size, p);
      a + size <= |now| && 0 <= o && o + size <= |before| && now[a..a + size] == before[o..o + size]
  }

  lemma CompactedElements(now: seq<byte>, before: seq<byte>, subv: Vec, bufDims: Vec, bufOff: Vec, ragged: nat,
                          size: nat)
    requires |subv| == |bufDims| == |bufOff|
    requires PointsCopied(now, before, before, CompactSpec(subv, bufDims, bufOff), 0, ragged, size, 1)
    requires Reaches(|now|, subv, subv, Zeros(|subv|), 0, size)
    requires Reaches(|before|, subv, bufDims, bufOff, ragged, size)
    ensures IsCompacted(now, before, subv, bufDims, bufOff, ragged, size)
  {
    forall p | InBox(p, subv)
      ensures var a, o := Times(Linear(subv, p), size), Addr(bufDims, bufOff, ragged, size, p);
        a + size <= |now| && 0 <= o && o + size <= |before| && now[a..a + size] == before[o..o + size]
    {
      assert Plus(Zeros(|subv|), p) == p;
      PointElement(now, before, before, CompactSpec(subv, bufDims, bufOff), 0, ragged, size, p);
    }
  }
}
