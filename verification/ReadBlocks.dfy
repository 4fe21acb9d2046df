/** Reading a box of a global array from the blocks it was written in: src/core/transforms/adios_patchdata.c:44-90. */
module ReadBlocks {
  import opened Geometry
  import opened Bytes
  import opened Types
  import opened Endianness
  import opened CopyKernel
  import opened CopySpecs
  import opened CopySubvolume
  import opened Intersection

  /** Byte k of the element at global position x of the array that was written. */
  type GlobalArray = (Vec, nat) -> byte

  /** Where element p is in a buffer that starts `ragged` elements into the volume. */
  ghost function Place(dims: Vec, ragged: nat, size: nat, p: Vec): int
    requires |dims| == |p|
  {
    Times(Linear(dims, p), size) - Times(ragged, size)
  }

  /** Element p is inside the buffer. */
  ghost predicate Within(len: nat, dims: Vec, ragged: nat, size: nat, p: Vec)
    requires |dims| == |p|
  {
    0 <= Place(dims, ragged, size, p) && Place(dims, ragged, size, p) + size <= len
  }

  /** The buffer has, at p's element, the bytes of global position off + p, with u-byte words reversed. */
  ghost predicate HoldsAt(buf: seq<byte>, dims: Vec, off: Vec, ragged: nat, size: nat, g: GlobalArray, u: nat, p: Vec)
    requires |dims| == |off| == |p| && u > 0
  {
    var at := Place(dims, ragged, size, p);
    Within(|buf|, dims, ragged, size, p) && forall a | at <= a < at + size :: buf[a] == g(Plus(off, p), Flip(a - at, u))
  }

  ghost predicate Holds(buf: seq<byte>, dims: Vec, off: Vec, ragged: nat, size: nat, g: GlobalArray, u: nat)
    requires |dims| == |off| && u > 0
  {
    forall p | InBox(p, dims) :: HoldsAt(buf, dims, off, ragged, size, g, u, p)
  }

  /** The buffer holds what its volume has of another one. */
  ghost predicate HoldsShared(buf: seq<byte>, dims: Vec, off: Vec, ragged: nat, size: nat, g: GlobalArray, dims2: Vec,
                              off2: Vec)
    requires |dims| == |off| == |dims2| == |off2|
  {
    forall p | InBox(p, dims) && InVolume(Plus(off, p), dims2, off2) :: HoldsAt(buf, dims, off, ragged, size, g, 1, p)
  }

  /** The buffer has room for what its volume has of another one. */
  ghost predicate TakesShared(len: nat, dims: Vec, off: Vec, ragged: nat, size: nat, dims2: Vec, off2: Vec)
    requires |dims| == |off| == |dims2| == |off2|
  {
    forall p | InBox(p, dims) && InVolume(Plus(off, p), dims2, off2) :: Within(len, dims, ragged, size, p)
  }

  lemma {:induction false} QuotientUnique(q: nat, r: nat, q': nat, r': nat, v: nat)
    requires r < v && r' < v && Times(q, v) + r == Times(q', v) + r'
    ensures q == q' && r == r'
  {
    if q < q' { TimesMono(q + 1, q', v); }
    if q' < q { TimesMono(q' + 1, q, v); }
  }

  /** Row-major numbering is one to one. */
  lemma {:induction false} LinearInjective(p: Vec, q: Vec, dims: Vec)
    requires InBox(p, dims) && InBox(q, dims) && Linear(dims, p) == Linear(dims, q)
    ensures p == q
  {
    if p != [] {
      LinearLtVolume(p[1..], dims[1..]);
      LinearLtVolume(q[1..], dims[1..]);
      QuotientUnique(p[0], Linear(dims[1..], p[1..]), q[0], Linear(dims[1..], q[1..]), Volume(dims[1..]));
      LinearInjective(p[1..], q[1..], dims[1..]);
      assert p == [p[0]] + p[1..] && q == [q[0]] + q[1..];
    }
  }

  /** compute_linear_offset_in_volume: the row-major number of a point, from the fastest dimension to the slowest. */
  method ComputeLinearOffset(point: Vec, dims: Vec) returns (offset: nat)
    requires |point| == |dims|
    ensures offset == Linear(dims, point)
  {
    offset := 0;
    var volume: nat, dim: nat := 1, |dims|;
    while dim > 0
      invariant dim <= |dims| && volume == Volume(dims[dim..]) && offset == Linear(dims[dim..], point[dim..])
    {
      dim := dim - 1;
      assert dims[dim..][1..] == dims[dim + 1..] && point[dim..][1..] == point[dim + 1..];
      TimesIsProduct(point[dim], volume);
      TimesIsProduct(dims[dim], volume);
      offset := offset + point[dim] * volume;
      volume := volume * dims[dim];
    }
  }

  lemma ElementsDisjoint(p: Vec, q: Vec, dims: Vec, ragged: nat, size: nat, a: int)
    requires InBox(p, dims) && InBox(q, dims)
    requires Place(dims, ragged, size, p) <= a < Place(dims, ragged, size, p) + size
    requires Place(dims, ragged, size, q) <= a < Place(dims, ragged, size, q) + size
    ensures p == q
  {
    QuotientUnique(Linear(dims, p), a - Place(dims, ragged, size, p), Linear(dims, q), a - Place(dims, ragged, size, q),
                   size);
    LinearInjective(p, q, dims);
  }

  /** A destination point that the source has, seen from the shared box and from the source. */
  lemma SharedPoint(c: CopySpec, dstGoff: Vec, srcGoff: Vec, p: Vec) returns (q: Vec)
    requires |dstGoff| == |srcGoff| && Links(c, dstGoff, srcGoff)
    requires InBox(p, c.dstDims) && InVolume(Plus(dstGoff, p), c.srcDims, srcGoff)
    ensures InBox(q, c.subv) && Plus(c.dstOff, q) == p
    ensures InBox(Plus(c.srcOff, q), c.srcDims) && Plus(srcGoff, Plus(c.srcOff, q)) == Plus(dstGoff, p)
  {
    var x := Plus(dstGoff, p);
    assert InVolume(x, c.dstDims, dstGoff);
    assert InVolume(x, c.subv, Plus(dstGoff, c.dstOff));
    q := seq(|p|, i requires 0 <= i < |p| => x[i] - Plus(dstGoff, c.dstOff)[i]);
    assert Plus(c.dstOff, q) == p;
    assert Plus(srcGoff, Plus(c.srcOff, q)) == x by {
      assert forall i | 0 <= i < |p| :: srcGoff[i] + c.srcOff[i] == Plus(dstGoff, c.dstOff)[i];
    }
  }

  lemma BoxPointInVolume(c: CopySpec, dstGoff: Vec, srcGoff: Vec, q: Vec)
    requires |dstGoff| == |srcGoff| && Links(c, dstGoff, srcGoff) && InBox(q, c.subv)
    ensures InBox(Plus(c.dstOff, q), c.dstDims) && InVolume(Plus(dstGoff, Plus(c.dstOff, q)), c.srcDims, srcGoff)
    ensures InBox(Plus(c.srcOff, q), c.srcDims) && InVolume(Plus(srcGoff, Plus(c.srcOff, q)), c.dstDims, dstGoff)
  {
    var x := Plus(dstGoff, Plus(c.dstOff, q));
    assert x == Plus(srcGoff, Plus(c.srcOff, q)) by {
      assert forall i | 0 <= i < |q| :: Plus(dstGoff, c.dstOff)[i] == Plus(srcGoff, c.srcOff)[i];
    }
    assert InVolume(x, c.subv, Plus(dstGoff, c.dstOff));
  }

  /** What patching does to one destination element. */
  ghost predicate PatchedAt(now: seq<byte>, before: seq<byte>, dstDims: Vec, dstGoff: Vec, dr: nat, srcDims: Vec,
                            srcGoff: Vec, size: nat, g: GlobalArray, u: nat, p: Vec)
    requires |dstDims| == |dstGoff| == |srcDims| == |srcGoff| == |p| && u > 0
  {
    if InVolume(Plus(dstGoff, p), srcDims, srcGoff) then HoldsAt(now, dstDims, dstGoff, dr, size, g, u, p)
    else
      var at := Place(dstDims, dr, size, p);
      Within(|now|, dstDims, dr, size, p) && |now| == |before| && now[at..at + size] == before[at..at + size]
  }

  lemma HeldByte(buf: seq<byte>, dims: Vec, off: Vec, ragged: nat, size: nat, g: GlobalArray, p: Vec, k: nat)
    requires |dims| == |off| == |p| && k < size && HoldsAt(buf, dims, off, ragged, size, g, 1, p)
    ensures buf[Place(dims, ragged, size, p) + k] == g(Plus(off, p), k)
  {
    var a := Place(dims, ragged, size, p) + k;
    FlipOne(k);
    assert buf[a] == g(Plus(off, p), Flip(k, 1));
  }

  /** Byte k of the element at `at` is that of the element at `from`, with u-byte words reversed. */
  ghost predicate ByteMoved(now: seq<byte>, source: seq<byte>, at: int, from: int, u: nat, k: nat)
    requires u > 0
  {
    0 <= at + k < |now| && 0 <= from + Flip(k, u) < |source| && now[at + k] == source[from + Flip(k, u)]
  }

  ghost predicate Moved(now: seq<byte>, source: seq<byte>, at: int, from: int, size: nat, u: nat)
    requires u > 0
  {
    forall k: nat | k < size :: ByteMoved(now, source, at, from, u, k)
  }

  lemma ByteIsMoved(now: seq<byte>, before: seq<byte>, source: seq<byte>, c: CopySpec, dr: nat, sr: nat, size: nat,
                    u: nat, q: Vec, k: nat, at: int, from: int)
    requires c.Shaped() && u > 0 && InBox(q, c.subv) && PointsCopied(now, before, source, c, dr, sr, size, u)
    requires k < size
    requires at == Addr(c.dstDims, c.dstOff, dr, size, q) && from == Addr(c.srcDims, c.srcOff, sr, size, q)
    requires 0 <= at && at + size <= |now|
    ensures ByteMoved(now, source, at, from, u, k)
  {
    PointByte(now, before, source, c, dr, sr, size, u, q, k);
  }

  lemma ElementMoved(now: seq<byte>, before: seq<byte>, source: seq<byte>, c: CopySpec, dr: nat, sr: nat, size: nat,
                     u: nat, q: Vec, at: int, from: int)
    requires c.Shaped() && u > 0 && InBox(q, c.subv) && PointsCopied(now, before, source, c, dr, sr, size, u)
    requires at == Addr(c.dstDims, c.dstOff, dr, size, q) && from == Addr(c.srcDims, c.srcOff, sr, size, q)
    requires 0 <= at && at + size <= |now|
    ensures Moved(now, source, at, from, size, u)
  {
    forall k: nat | k < size ensures ByteMoved(now, source, at, from, u, k) {
      ByteIsMoved(now, before, source, c, dr, sr, size, u, q, k, at, from);
    }
  }

  lemma MovedByteHolds(now: seq<byte>, source: seq<byte>, srcDims: Vec, srcGoff: Vec, sr: nat, size: nat,
                       g: GlobalArray, u: nat, p: Vec, at: int, k: nat)
    requires |srcDims| == |srcGoff| == |p| && u > 0 && Whole(size, u) && k < size
    requires ByteMoved(now, source, at, Place(srcDims, sr, size, p), u, k)
    requires HoldsAt(source, srcDims, srcGoff, sr, size, g, 1, p)
    ensures now[at + k] == g(Plus(srcGoff, p), Flip(k, u))
  {
    FlipStays(k, u, size);
    HeldByte(source, srcDims, srcGoff, sr, size, g, p, Flip(k, u));
  }

  /** An element that was moved holds what the one it came from held. */
  lemma MovedHolds(now: seq<byte>, source: seq<byte>, dstDims: Vec, dstGoff: Vec, srcDims: Vec, srcGoff: Vec,
                   dr: nat, sr: nat, size: nat, g: GlobalArray, u: nat, p: Vec, p': Vec)
    requires |dstDims| == |dstGoff| == |p| && |srcDims| == |srcGoff| == |p'| && u > 0 && Whole(size, u)
    requires Moved(now, source, Place(dstDims, dr, size, p), Place(srcDims, sr, size, p'), size, u)
    requires HoldsAt(source, srcDims, srcGoff, sr, size, g, 1, p') && Plus(srcGoff, p') == Plus(dstGoff, p)
    requires Within(|now|, dstDims, dr, size, p)
    ensures HoldsAt(now, dstDims, dstGoff, dr, size, g, u, p)
  {
    var at := Place(dstDims, dr, size, p);
    forall a | at <= a < at + size ensures now[a] == g(Plus(dstGoff, p), Flip(a - at, u)) {
      var k: nat := a - at;
      assert ByteMoved(now, source, at, Place(srcDims, sr, size, p'), u, k);
      MovedByteHolds(now, source, srcDims, srcGoff, sr, size, g, u, p', at, k);
    }
  }

  lemma PatchedOther(now: seq<byte>, before: seq<byte>, source: seq<byte>, c: CopySpec, dstGoff: Vec, srcGoff: Vec,
                     dr: nat, sr: nat, size: nat, u: nat, p: Vec, a: nat)
    requires |dstGoff| == |srcGoff| && Links(c, dstGoff, srcGoff) && u > 0
    requires PointsCopied(now, before, source, c, dr, sr, size, u)
    requires InBox(p, c.dstDims) && !InVolume(Plus(dstGoff, p), c.srcDims, srcGoff)
    requires Place(c.dstDims, dr, size, p) <= a < Place(c.dstDims, dr, size, p) + size && a < |now|
    ensures now[a] == before[a]
  {
    if Touched(a, c.subv, c.dstDims, c.dstOff, dr, size) {
      var q :| InBox(q, c.subv) && InElement(a, c.dstDims, c.dstOff, dr, size, q);
      BoxPointInVolume(c, dstGoff, srcGoff, q);
      ElementsDisjoint(p, Plus(c.dstOff, q), c.dstDims, dr, size, a);
    }
  }

  lemma Patched(now: seq<byte>, before: seq<byte>, source: seq<byte>, c: CopySpec, dstGoff: Vec, srcGoff: Vec,
                dr: nat, sr: nat, size: nat, g: GlobalArray, u: nat, p: Vec)
    requires |dstGoff| == |srcGoff| && Links(c, dstGoff, srcGoff) && u > 0 && Whole(size, u)
    requires PointsCopied(now, before, source, c, dr, sr, size, u)
    requires HoldsShared(source, c.srcDims, srcGoff, sr, size, g, c.dstDims, dstGoff)
    requires InBox(p, c.dstDims) && Within(|now|, c.dstDims, dr, size, p)
    ensures PatchedAt(now, before, c.dstDims, dstGoff, dr, c.srcDims, srcGoff, size, g, u, p)
  {
    if InVolume(Plus(dstGoff, p), c.srcDims, srcGoff) {
      var q := SharedPoint(c, dstGoff, srcGoff, p);
      assert InVolume(Plus(dstGoff, p), c.dstDims, dstGoff);
      ElementMoved(now, before, source, c, dr, sr, size, u, q,
                   Place(c.dstDims, dr, size, p), Place(c.srcDims, sr, size, Plus(c.srcOff, q)));
      MovedHolds(now, source, c.dstDims, dstGoff, c.srcDims, srcGoff, dr, sr, size, g, u, p, Plus(c.srcOff, q));
    } else {
      var at := Place(c.dstDims, dr, size, p);
      forall a | at <= a < at + size ensures now[a] == before[a] {
        PatchedOther(now, before, source, c, dstGoff, srcGoff, dr, sr, size, u, p, a);
      }
    }
  }

  /** The corner of the box is in the buffer, so the ragged offset does not lie behind it. */
  lemma CornerInside(len: nat, dims: Vec, ragged: nat, size: nat, p: Vec)
    requires |dims| == |p| && Within(len, dims, ragged, size, p) && size > 0
    ensures ragged <= Linear(dims, p)
  {
    if Linear(dims, p) < ragged { TimesMono(Linear(dims, p) + 1, ragged, size); }
  }

  ghost function Origin(n: nat): (p: Vec)
    ensures |p| == n && forall i | 0 <= i < n :: p[i] == 0
  {
    seq(n, i => 0)
  }

  lemma PlusOrigin(off: Vec)
    ensures Plus(off, Origin(|off|)) == off
  {}

  /** With something to copy, both buffers reach all of it. */
  lemma LinkedCopyable(c: CopySpec, dstGoff: Vec, srcGoff: Vec, dstLen: nat, srcLen: nat, dr: nat, sr: nat, size: nat)
    requires |dstGoff| == |srcGoff| && Links(c, dstGoff, srcGoff) && 0 < |c.subv| <= 32 && size > 0
    requires Nonempty(c.subv) || (dr == 0 && sr == 0)
    requires TakesShared(dstLen, c.dstDims, dstGoff, dr, size, c.srcDims, srcGoff)
    requires TakesShared(srcLen, c.srcDims, srcGoff, sr, size, c.dstDims, dstGoff)
    ensures Copyable(dstLen, srcLen, c, dr, sr, size)
  {
    forall p | InBox(p, c.subv)
      ensures 0 <= Addr(c.dstDims, c.dstOff, dr, size, p) && Addr(c.dstDims, c.dstOff, dr, size, p) + size <= dstLen
      ensures 0 <= Addr(c.srcDims, c.srcOff, sr, size, p) && Addr(c.srcDims, c.srcOff, sr, size, p) + size <= srcLen
    {
      BoxPointInVolume(c, dstGoff, srcGoff, p);
      assert Within(dstLen, c.dstDims, dr, size, Plus(c.dstOff, p))
        && Within(srcLen, c.srcDims, sr, size, Plus(c.srcOff, p));
    }
    if Nonempty(c.subv) {
      BoxPointInVolume(c, dstGoff, srcGoff, Origin(|c.subv|));
      PlusOrigin(c.dstOff);
      PlusOrigin(c.srcOff);
      CornerInside(dstLen, c.dstDims, dr, size, c.dstOff);
      CornerInside(srcLen, c.srcDims, sr, size, c.srcOff);
    }
  }

  method ComputeVolume(dims: Vec) returns (volume: nat)
    ensures volume == Volume(dims)
  {
    volume := 1;
    TimesIsProduct(1, Volume(dims));
    for i := 0 to |dims|
      invariant Times(volume, Volume(dims[i..])) == Volume(dims)
    {
      assert dims[i..][1..] == dims[i + 1..];
      TimesAssoc(volume, dims[i], Volume(dims[i + 1..]));
      TimesIsProduct(volume, dims[i]);
      volume := volume * dims[i];
    }
    TimesIsProduct(volume, 1);
  }

  /** A volume has elements if and only if it has a position. */
  lemma VolumePositive(dims: Vec, off: Vec)
    requires |dims| == |off|
    ensures Volume(dims) > 0 <==> exists x :: InVolume(x, dims, off)
  {
    if Volume(dims) > 0 {
      var p := Unlinear(0, dims);
      assert InVolume(Plus(off, p), dims, off);
    } else if exists x :: InVolume(x, dims, off) {
      var x :| InVolume(x, dims, off);
      var p := seq(|x|, i requires 0 <= i < |x| => x[i] - off[i]);
      LinearLtVolume(p, dims);
    }
  }

  method ToArray(v: Vec) returns (a: array<nat>)
    ensures fresh(a) && a[..] == v
  {
    a := new nat[|v|](i requires 0 <= i < |v| => v[i]);
  }

  /** The positions that two volumes share form a box of so many elements. */
  ghost predicate SharedCount(volume: nat, dims1: Vec, off1: Vec, dims2: Vec, off2: Vec)
    requires |dims1| == |off1| == |dims2| == |off2|
  {
    exists dims: Vec, off: Vec :: SharedBox(dims, off, dims1, off1, dims2, off2) && volume == Volume(dims)
  }

  ghost predicate SharedBox(dims: Vec, off: Vec, dims1: Vec, off1: Vec, dims2: Vec, off2: Vec)
    requires |dims1| == |off1| == |dims2| == |off2|
  {
    |dims| == |off| == |dims1|
    && forall x :: InVolume(x, dims, off) <==> InVolume(x, dims1, off1) && InVolume(x, dims2, off2)
  }

  lemma NothingShared(dims1: Vec, off1: Vec, dims2: Vec, off2: Vec)
    requires 0 < |dims1| == |off1| == |dims2| == |off2|
    requires forall x :: !(InVolume(x, dims1, off1) && InVolume(x, dims2, off2))
    ensures SharedCount(0, dims1, off1, dims2, off2)
  {
    var dims := dims1[0 := 0];
    forall x ensures !InVolume(x, dims, off1) { assert dims[0] == 0; }
    assert SharedBox(dims, off1, dims1, off1, dims2, off2) && Volume(dims) == 0;
  }

  /**
   adios_patch_data_bb_to_bb: a destination box takes from a source box everything the two share;
   its other elements stay as they are. Either buffer may start anywhere in its box, as long as what
   the boxes share is in it.
   */
  method PatchData(dst: array<byte>, dstRagged: nat, dstDims: Vec, dstGoff: Vec, src: array<byte>, srcRagged: nat,
                   srcDims: Vec, srcGoff: Vec, t: Datatype, swap: bool, host: Endian, ghost g: GlobalArray)
    returns (volume: nat)
    requires t != TString && src != dst && 0 < |dstDims| == |srcDims| <= 32
    requires AllComparable(dstDims, dstGoff, srcDims, srcGoff)
    requires (Nonempty(dstDims) && Nonempty(srcDims)) || (dstRagged == 0 && srcRagged == 0)
    requires TakesShared(dst.Length, dstDims, dstGoff, dstRagged, TypeSize(t), srcDims, srcGoff)
    requires HoldsShared(src[..], srcDims, srcGoff, srcRagged, TypeSize(t), g, dstDims, dstGoff)
    modifies dst
    ensures SharedCount(volume, dstDims, dstGoff, srcDims, srcGoff)
    ensures volume > 0 <==> exists x :: InVolume(x, dstDims, dstGoff) && InVolume(x, srcDims, srcGoff)
    ensures AllPatched(dst[..], old(dst[..]), dstDims, dstGoff, dstRagged, srcDims, srcGoff, TypeSize(t), g,
                       Unit(t, swap))
  {
    var c := InitFromIntersection(dstDims, dstGoff, srcDims, srcGoff);
    if c.None? {
      volume := 0;
      NothingShared(dstDims, dstGoff, srcDims, srcGoff);
      NothingPatched(dst[..], dstDims, dstGoff, dstRagged, srcDims, srcGoff, TypeSize(t), g, Unit(t, swap));
    } else {
      LinkedCopyable(c.value, dstGoff, srcGoff, dst.Length, src.Length, dstRagged, srcRagged, TypeSize(t));
      CopyWithSpec(dst, dstRagged, src, srcRagged, c.value, t, swap, host);
      volume := ComputeVolume(c.value.subv);
      VolumePositive(c.value.subv, Plus(dstGoff, c.value.dstOff));
      assert SharedBox(c.value.subv, Plus(dstGoff, c.value.dstOff), dstDims, dstGoff, srcDims, srcGoff);
      UnitWhole(t, swap);
      EveryPatched(dst[..], old(dst[..]), src[..], c.value, dstGoff, srcGoff, dstRagged, srcRagged, TypeSize(t), g,
                   Unit(t, swap));
    }
  }

  lemma UnitWhole(t: Datatype, swap: bool)
    requires t != TString
    ensures Whole(TypeSize(t), Unit(t, swap))
  {
    if swap { assert Whole(SwapUnit(t), SwapUnit(t)); } else { WholeTimes(1, TypeSize(t)); }
  }

  /** All elements of the destination box that are in the buffer. */
  ghost predicate AllPatched(now: seq<byte>, before: seq<byte>, dstDims: Vec, dstGoff: Vec, dr: nat, srcDims: Vec,
                             srcGoff: Vec, size: nat, g: GlobalArray, u: nat)
    requires |dstDims| == |dstGoff| == |srcDims| == |srcGoff| && u > 0
  {
    && |now| == |before|
    && forall p | InBox(p, dstDims) && Within(|now|, dstDims, dr, size, p) ::
         PatchedAt(now, before, dstDims, dstGoff, dr, srcDims, srcGoff, size, g, u, p)
  }

  lemma NothingPatched(buf: seq<byte>, dstDims: Vec, dstGoff: Vec, dr: nat, srcDims: Vec, srcGoff: Vec, size: nat,
                       g: GlobalArray, u: nat)
    requires |dstDims| == |dstGoff| == |srcDims| == |srcGoff| && u > 0
    requires forall x :: !(InVolume(x, dstDims, dstGoff) && InVolume(x, srcDims, srcGoff))
    ensures AllPatched(buf, buf, dstDims, dstGoff, dr, srcDims, srcGoff, size, g, u)
  {
    forall p | InBox(p, dstDims) && Within(|buf|, dstDims, dr, size, p)
      ensures PatchedAt(buf, buf, dstDims, dstGoff, dr, srcDims, srcGoff, size, g, u, p)
    {
      assert InVolume(Plus(dstGoff, p), dstDims, dstGoff);
    }
  }

  lemma EveryPatched(now: seq<byte>, before: seq<byte>, source: seq<byte>, c: CopySpec, dstGoff: Vec, srcGoff: Vec,
                     dr: nat, sr: nat, size: nat, g: GlobalArray, u: nat)
    requires |dstGoff| == |srcGoff| && Links(c, dstGoff, srcGoff) && u > 0 && Whole(size, u)
    requires PointsCopied(now, before, source, c, dr, sr, size, u)
    requires HoldsShared(source, c.srcDims, srcGoff, sr, size, g, c.dstDims, dstGoff)
    ensures AllPatched(now, before, c.dstDims, dstGoff, dr, c.srcDims, srcGoff, size, g, u)
  {
    forall p | InBox(p, c.dstDims) && Within(|now|, c.dstDims, dr, size, p)
      ensures PatchedAt(now, before, c.dstDims, dstGoff, dr, c.srcDims, srcGoff, size, g, u, p)
    {
      Patched(now, before, source, c, dstGoff, srcGoff, dr, sr, size, g, u, p);
    }
  }

  /** copy_subvolume_ragged_offset_with_spec. */
  method CopyWithSpec(dst: array<byte>, dstRagged: nat, src: array<byte>, srcRagged: nat, c: CopySpec, t: Datatype,
                      swap: bool, host: Endian)
    requires t != TString && src != dst && Copyable(dst.Length, src.Length, c, dstRagged, srcRagged, TypeSize(t))
    modifies dst
    ensures PointsCopied(dst[..], old(dst[..]), src[..], c, dstRagged, srcRagged, TypeSize(t), Unit(t, swap))
  {
    var subv := ToArray(c.subv);
    var dstDims := ToArray(c.dstDims);
    var dstOff := ToArray(c.dstOff);
    var srcDims := ToArray(c.srcDims);
    var srcOff := ToArray(c.srcOff);
    CopySubvolumeRaggedOffset(dst, src, subv, dstDims, dstOff, dstRagged, srcDims, srcOff, srcRagged, t, swap, host);
  }

  /** One written block: its place in the global array, and a buffer with its elements from number `ragged` on. */
  datatype Block = Block(dims: Vec, goff: Vec, ragged: nat, data: array<byte>)

  /** A block that can be patched into the box: whatever the two share is in both buffers. */
  ghost predicate Patchable(b: Block, dst: array<byte>, dstDims: Vec, dstGoff: Vec, dr: nat, size: nat, g: GlobalArray)
    reads b.data
  {
    && b.data != dst && AllComparable(dstDims, dstGoff, b.dims, b.goff)
    && ((Nonempty(dstDims) && Nonempty(b.dims)) || (dr == 0 && b.ragged == 0))
    && TakesShared(dst.Length, dstDims, dstGoff, dr, size, b.dims, b.goff)
    && HoldsShared(b.data[..], b.dims, b.goff, b.ragged, size, g, dstDims, dstGoff)
  }

  /** Global position x is in one of the blocks. */
  ghost predicate CoveredBy(x: Vec, blocks: seq<Block>) {
    exists i | 0 <= i < |blocks| :: |blocks[i].dims| == |blocks[i].goff| && InVolume(x, blocks[i].dims, blocks[i].goff)
  }

  /**
   Reading by blocks reconstructs the array: whatever the blocks cover of the destination box holds
   the global values afterwards. Blocks may overlap and come in any order.
   */
  method ReadBox(dst: array<byte>, dstRagged: nat, dstDims: Vec, dstGoff: Vec, blocks: seq<Block>, t: Datatype,
                 swap: bool, host: Endian, ghost g: GlobalArray)
    requires t != TString && 0 < |dstDims| == |dstGoff| <= 32
    requires forall b | b in blocks :: Patchable(b, dst, dstDims, dstGoff, dstRagged, TypeSize(t), g)
    modifies dst
    ensures forall p | InBox(p, dstDims) && CoveredBy(Plus(dstGoff, p), blocks) ::
      HoldsAt(dst[..], dstDims, dstGoff, dstRagged, TypeSize(t), g, Unit(t, swap), p)
    ensures (forall p | InBox(p, dstDims) :: CoveredBy(Plus(dstGoff, p), blocks)) ==>
      Holds(dst[..], dstDims, dstGoff, dstRagged, TypeSize(t), g, Unit(t, swap))
  {
    for i := 0 to |blocks|
      invariant forall b | b in blocks :: Patchable(b, dst, dstDims, dstGoff, dstRagged, TypeSize(t), g)
      invariant Held(dst[..], dstDims, dstGoff, dstRagged, blocks, i, TypeSize(t), g, Unit(t, swap))
    {
      ghost var mid := dst[..];
      assert blocks[i] in blocks;
      var _ := PatchData(dst, dstRagged, dstDims, dstGoff, blocks[i].data, blocks[i].ragged, blocks[i].dims,
                         blocks[i].goff, t, swap, host, g);
      OneMoreHeld(dst[..], mid, dstDims, dstGoff, dstRagged, blocks, i, TypeSize(t), g, Unit(t, swap));
    }
    forall p | InBox(p, dstDims) && CoveredBy(Plus(dstGoff, p), blocks)
      ensures HoldsAt(dst[..], dstDims, dstGoff, dstRagged, TypeSize(t), g, Unit(t, swap), p)
    {
      AllHeld(dst[..], dstDims, dstGoff, dstRagged, blocks, TypeSize(t), g, Unit(t, swap), p);
    }
  }

  /** Blocks of the dimensions of the box. */
  ghost predicate SameRank(blocks: seq<Block>, n: nat) {
    forall b | b in blocks :: |b.dims| == |b.goff| == n
  }

  /** What the first n blocks have of the box is in the buffer. */
  ghost predicate Held(buf: seq<byte>, dstDims: Vec, dstGoff: Vec, dr: nat, blocks: seq<Block>, n: nat, size: nat,
                       g: GlobalArray, u: nat)
    requires |dstDims| == |dstGoff| && n <= |blocks| && u > 0 && SameRank(blocks, |dstDims|)
  {
    forall p, j | InBox(p, dstDims) && 0 <= j < n && InVolume(Plus(dstGoff, p), blocks[j].dims, blocks[j].goff) ::
      HoldsAt(buf, dstDims, dstGoff, dr, size, g, u, p)
  }

  lemma OneMoreHeld(now: seq<byte>, before: seq<byte>, dstDims: Vec, dstGoff: Vec, dr: nat, blocks: seq<Block>, i: nat,
                    size: nat, g: GlobalArray, u: nat)
    requires |dstDims| == |dstGoff| && i < |blocks| && u > 0 && SameRank(blocks, |dstDims|)
    requires Held(before, dstDims, dstGoff, dr, blocks, i, size, g, u)
    requires AllPatched(now, before, dstDims, dstGoff, dr, blocks[i].dims, blocks[i].goff, size, g, u)
    requires TakesShared(|now|, dstDims, dstGoff, dr, size, blocks[i].dims, blocks[i].goff)
    ensures Held(now, dstDims, dstGoff, dr, blocks, i + 1, size, g, u)
  {
    forall p, j | InBox(p, dstDims) && 0 <= j < i + 1 && InVolume(Plus(dstGoff, p), blocks[j].dims, blocks[j].goff)
      ensures HoldsAt(now, dstDims, dstGoff, dr, size, g, u, p)
    {
      assert Within(|now|, dstDims, dr, size, p);
      assert PatchedAt(now, before, dstDims, dstGoff, dr, blocks[i].dims, blocks[i].goff, size, g, u, p);
      if j < i { StillHolds(now, before, dstDims, dstGoff, dr, blocks[i].dims, blocks[i].goff, size, g, u, p); }
    }
  }

  lemma AllHeld(buf: seq<byte>, dstDims: Vec, dstGoff: Vec, dr: nat, blocks: seq<Block>, size: nat, g: GlobalArray,
                u: nat, p: Vec)
    requires |dstDims| == |dstGoff| && u > 0 && InBox(p, dstDims) && SameRank(blocks, |dstDims|)
    requires Held(buf, dstDims, dstGoff, dr, blocks, |blocks|, size, g, u) && CoveredBy(Plus(dstGoff, p), blocks)
    ensures HoldsAt(buf, dstDims, dstGoff, dr, size, g, u, p)
  {}

  lemma StillHolds(now: seq<byte>, before: seq<byte>, dstDims: Vec, dstGoff: Vec, dr: nat, srcDims: Vec, srcGoff: Vec,
                   size: nat, g: GlobalArray, u: nat, p: Vec)
    requires |dstDims| == |dstGoff| == |srcDims| == |srcGoff| == |p| && u > 0
    requires HoldsAt(before, dstDims, dstGoff, dr, size, g, u, p)
    requires PatchedAt(now, before, dstDims, dstGoff, dr, srcDims, srcGoff, size, g, u, p)
    ensures HoldsAt(now, dstDims, dstGoff, dr, size, g, u, p)
  {
    var at := Place(dstDims, dr, size, p);
    if !InVolume(Plus(dstGoff, p), srcDims, srcGoff) {
      forall a | at <= a < at + size ensures now[a] == before[a] {
        assert now[at..at + size][a - at] == before[at..at + size][a - at];
      }
    }
  }
}
