/** Intersection of segments and boxes: src/core/adios_subvolume.c:37-120, src/core/adios_copyspec.c:54-88. */
module Intersection {
  import opened Outcomes
  import opened Geometry
  import opened Types
  import opened CopySpecs

  datatype Segment = Segment(start: nat, len: nat)

  const TWO_TO_THE_32: int := 0x1_0000_0000
  const TWO_TO_THE_64: int := 0x1_0000_0000_0000_0000

  /** Conversion of a 64-bit value to a 32-bit int. */
  function ToInt(x: int): (r: int)
    ensures 0 <= x < INT_LIMIT ==> r == x
  {
    var low := x % TWO_TO_THE_32;
    if low < INT_LIMIT then low else low - TWO_TO_THE_32
  }

  /** Conversion of an int to a 64-bit unsigned value. */
  function ToU64(x: int): (r: nat)
    ensures 0 <= x < TWO_TO_THE_64 ==> r == x
  {
    x % TWO_TO_THE_64
  }

  /** intersect_segments, with its temporaries of type int. */
  function IntersectSegments(start1: nat, len1: nat, start2: nat, len2: nat): Option<Segment> {
    // segment 1 is the one that starts first
    var s1 := if start1 > start2 then start2 else start1;
    var l1 := if start1 > start2 then len2 else len1;
    var s2 := if start1 > start2 then ToU64(ToInt(start1)) else start2;
    var l2 := if start1 > start2 then ToU64(ToInt(len1)) else len2;
    var end1, end2 := ToInt(s1 + l1), ToInt(s2 + l2);
    if ToU64(end1) <= s2 then None
    else
      var interEnd := if end1 <= end2 then end1 else end2;
      Some(Segment(s2, ToU64(interEnd - s2)))
  }

  function Max(a: int, b: int): int { if a < b then b else a }
  function Min(a: int, b: int): int { if a < b then a else b }

  /** The set of positions two segments share, if it is not empty. */
  function Overlap(start1: nat, len1: nat, start2: nat, len2: nat): Option<Segment> {
    var lo, hi := Max(start1, start2), Min(start1 + len1, start2 + len2);
    if lo < hi then Some(Segment(lo, hi - lo)) else None
  }

  /** The segment that starts later has no positions, but starts within the other one. */
  predicate EmptyInside(start1: nat, len1: nat, start2: nat, len2: nat) {
    if start1 > start2 then len1 == 0 && start1 < start2 + len2
    else len2 == 0 && start2 < start1 + len1
  }

  /**
   Below 2^31 the result is the shared stretch, except that an empty segment starting within the
   other one is reported as an intersection (of length 0).
   */
  lemma SegmentsExact(start1: nat, len1: nat, start2: nat, len2: nat)
    requires start1 + len1 < INT_LIMIT && start2 + len2 < INT_LIMIT
    ensures IntersectSegments(start1, len1, start2, len2) == Overlap(start1, len1, start2, len2)
        <==> !EmptyInside(start1, len1, start2, len2)
    ensures EmptyInside(start1, len1, start2, len2) ==>
      && IntersectSegments(start1, len1, start2, len2) == Some(Segment(Max(start1, start2), 0))
      && Overlap(start1, len1, start2, len2) == None
  {}

  /** No position lies in both segments. */
  predicate Apart(start1: nat, len1: nat, start2: nat, len2: nat) {
    Min(start1 + len1, start2 + len2) <= Max(start1, start2)
  }

  /**
   Segments that share nothing: the first end, as an int, must not lie behind the second start (an int, too, if they are
   swapped).
   */
  predicate ApartIsSeen(start1: nat, len1: nat, start2: nat, len2: nat) {
    if start1 > start2 then ToU64(ToInt(start2 + len2)) <= ToU64(ToInt(start1))
    else ToU64(ToInt(start1 + len1)) <= start2
  }

  /** Segments that share something: the smaller end is an int, and the other end does not become smaller as one. */
  predicate OverlapIsSeen(start1: nat, len1: nat, start2: nat, len2: nat) {
    var end := Min(start1 + len1, start2 + len2);
    end < INT_LIMIT && end <= ToInt(start1 + len1) && end <= ToInt(start2 + len2)
  }

  lemma SameLowWord(a: nat, b: nat)
    ensures ToInt(a + ToU64(ToInt(b))) == ToInt(a + b)
  {
    var q := b / TWO_TO_THE_32;
    var low := b % TWO_TO_THE_32;
    assert b == low + TWO_TO_THE_32 * q;
    SameRest(a + b, a + low, q);
    SameRest(a + low + TWO_TO_THE_64 - TWO_TO_THE_32, a + low, TWO_TO_THE_32 - 1);
  }

  lemma SameRest(x: int, y: int, q: int)
    requires x == y + TWO_TO_THE_32 * q
    ensures x % TWO_TO_THE_32 == y % TWO_TO_THE_32
  {}

  lemma IntRange(x: nat)
    ensures -INT_LIMIT <= ToInt(x) < INT_LIMIT && ToInt(x) <= x && (x < INT_LIMIT ==> ToInt(x) == x)
  {}

  lemma WordOf(x: int)
    requires -TWO_TO_THE_64 <= x < TWO_TO_THE_64
    ensures ToU64(x) == if x < 0 then x + TWO_TO_THE_64 else x
  {}

  /** The end of intersect_segments: a start, and two ends as ints. */
  function FromEnds(start: nat, end1: int, end2: int): Option<Segment> {
    if ToU64(end1) <= start then None else Some(Segment(start, ToU64(Min(end1, end2) - start)))
  }

  lemma SharedIff(start: nat, seen: nat, end1: nat, end2: nat)
    requires start <= end1 < TWO_TO_THE_64 / 2 && start <= end2 < TWO_TO_THE_64 / 2
    requires seen in {start, ToU64(ToInt(start))}
    ensures var end := Min(end1, end2);
      FromEnds(seen, ToInt(end1), ToInt(end2)) == Some(Segment(start, end - start))
      <==> end < INT_LIMIT && end <= ToInt(end1) && end <= ToInt(end2) && seen < ToU64(ToInt(end1))
    ensures start < Min(end1, end2) < INT_LIMIT && Min(end1, end2) <= ToInt(end1) ==> seen < ToU64(ToInt(end1))
  {
    IntRange(start);
    IntRange(end1);
    IntRange(end2);
    WordOf(ToInt(start));
    WordOf(ToInt(end1));
    if seen == start { WordOf(Min(ToInt(end1), ToInt(end2)) - start); }
  }

  lemma IsFromEnds(start1: nat, len1: nat, start2: nat, len2: nat)
    ensures IntersectSegments(start1, len1, start2, len2) ==
            if start1 > start2 then FromEnds(ToU64(ToInt(start1)), ToInt(start2 + len2), ToInt(start1 + len1))
            else FromEnds(start2, ToInt(start1 + len1), ToInt(start2 + len2))
  {
    if start1 > start2 { SameEnd(start1, len1); }
  }

  /** An end is the same int when its start and its length are ints. */
  lemma SameEnd(start: nat, len: nat)
    ensures ToInt(ToU64(ToInt(start)) + ToU64(ToInt(len))) == ToInt(start + len)
  {
    SameLowWord(ToU64(ToInt(start)), len);
    SameLowWord(len, start);
  }

  lemma SharedOrNone(start: nat, seen: nat, end1: nat, end2: nat)
    requires start <= end2 < TWO_TO_THE_64 / 2 && end1 < TWO_TO_THE_64 / 2 && seen in {start, ToU64(ToInt(start))}
    ensures var end, r := Min(end1, end2), FromEnds(seen, ToInt(end1), ToInt(end2));
      && (r == None <==> ToU64(ToInt(end1)) <= seen)
      && (start <= end ==>
            (r == Some(Segment(start, end - start))
             <==> r != None && end < INT_LIMIT && end <= ToInt(end1) && end <= ToInt(end2)))
      && (start < end < INT_LIMIT && end <= ToInt(end1) ==> r != None)
      && (end1 == start < INT_LIMIT ==> r == None)
  {
    IntRange(start);
    if start <= end1 { SharedIff(start, seen, end1, end2); }
  }

  lemma OverlapIs(start1: nat, len1: nat, start2: nat, len2: nat, start: nat, end: nat)
    requires start == Max(start1, start2) && end == Min(start1 + len1, start2 + len2)
    ensures Overlap(start1, len1, start2, len2) == (if start < end then Some(Segment(start, end - start)) else None)
  {}

  /** A result in the terms of the conditions. */
  ghost predicate Judged(start1: nat, len1: nat, start2: nat, len2: nat, start: nat, end: nat, r: Option<Segment>) {
    && (r == None <==> ApartIsSeen(start1, len1, start2, len2))
    && (start <= end ==>
          (r == Some(Segment(start, end - start)) <==> r != None && OverlapIsSeen(start1, len1, start2, len2)))
    && (start < end && OverlapIsSeen(start1, len1, start2, len2) ==> r != None)
    && (start == end && OverlapIsSeen(start1, len1, start2, len2) && len1 > 0 && len2 > 0 ==> r == None)
  }

  lemma JudgedSwapped(start1: nat, len1: nat, start2: nat, len2: nat, start: nat, end: nat, r: Option<Segment>)
    requires start1 + len1 < TWO_TO_THE_64 / 2 && start2 + len2 < TWO_TO_THE_64 / 2 && start1 > start2
    requires start == Max(start1, start2) && end == Min(start1 + len1, start2 + len2)
    requires r == FromEnds(ToU64(ToInt(start1)), ToInt(start2 + len2), ToInt(start1 + len1))
    ensures Judged(start1, len1, start2, len2, start, end, r)
  {
    SharedOrNone(start1, ToU64(ToInt(start1)), start2 + len2, start1 + len1);
  }

  lemma JudgedInOrder(start1: nat, len1: nat, start2: nat, len2: nat, start: nat, end: nat, r: Option<Segment>)
    requires start1 + len1 < TWO_TO_THE_64 / 2 && start2 + len2 < TWO_TO_THE_64 / 2 && start1 <= start2
    requires start == Max(start1, start2) && end == Min(start1 + len1, start2 + len2)
    requires r == FromEnds(start2, ToInt(start1 + len1), ToInt(start2 + len2))
    ensures Judged(start1, len1, start2, len2, start, end, r)
  {
    SharedOrNone(start2, start2, start1 + len1, start2 + len2);
  }

  /** What intersect_segments makes of the four numbers. */
  lemma ResultIs(start1: nat, len1: nat, start2: nat, len2: nat, start: nat, end: nat, r: Option<Segment>)
    requires start1 + len1 < TWO_TO_THE_64 / 2 && start2 + len2 < TWO_TO_THE_64 / 2
    requires start == Max(start1, start2) && end == Min(start1 + len1, start2 + len2)
    requires r == IntersectSegments(start1, len1, start2, len2)
    ensures Judged(start1, len1, start2, len2, start, end, r)
  {
    IsFromEnds(start1, len1, start2, len2);
    if start1 > start2 {
      JudgedSwapped(start1, len1, start2, len2, start, end, r);
    } else {
      JudgedInOrder(start1, len1, start2, len2, start, end, r);
    }
  }

  /** For all segments that end before 2^63: exactly when the result is the shared stretch. */
  lemma SegmentsRightIff(start1: nat, len1: nat, start2: nat, len2: nat)
    requires start1 + len1 < TWO_TO_THE_64 / 2 && start2 + len2 < TWO_TO_THE_64 / 2
    ensures IntersectSegments(start1, len1, start2, len2) == Overlap(start1, len1, start2, len2)
        <==> if Apart(start1, len1, start2, len2) then ApartIsSeen(start1, len1, start2, len2)
             else OverlapIsSeen(start1, len1, start2, len2)
  {
    var r, start, end := IntersectSegments(start1, len1, start2, len2), Max(start1, start2), Min(start1 + len1,
                                           start2 + len2);
    OverlapIs(start1, len1, start2, len2, start, end);
    ResultIs(start1, len1, start2, len2, start, end, r);
  }

  /** Position `off` and length `dim` are what two sides of the volumes share. */
  ghost predicate Shared(off1: nat, dim1: nat, off2: nat, dim2: nat, off: nat, dim: nat) {
    off == Max(off1, off2) && off + dim == Min(off1 + dim1, off2 + dim2)
  }

  /** A result that serves for a box: the common stretch, which may be empty, or nothing if there is none. */
  ghost predicate Serves(start1: nat, len1: nat, start2: nat, len2: nat, r: Option<Segment>) {
    if r.None? then Apart(start1, len1, start2, len2)
    else Shared(start1, len1, start2, len2, r.value.start, r.value.len)
  }

  /** Segments that touch or overlap, and segments that do not overlap, are told apart as ints. */
  predicate Comparable(start1: nat, len1: nat, start2: nat, len2: nat) {
    var start, end := Max(start1, start2), Min(start1 + len1, start2 + len2);
    && start1 + len1 < TWO_TO_THE_64 / 2 && start2 + len2 < TWO_TO_THE_64 / 2
    && ((end <= start && ApartIsSeen(start1, len1, start2, len2))
        || (start <= end && OverlapIsSeen(start1, len1, start2, len2)))
  }

  lemma SharedIs(start1: nat, len1: nat, start2: nat, len2: nat, start: nat, end: nat, r: Segment)
    requires start == Max(start1, start2) && end == Min(start1 + len1, start2 + len2)
    ensures Shared(start1, len1, start2, len2, r.start, r.len) <==> start <= end && r == Segment(start, end - start)
    ensures Apart(start1, len1, start2, len2) <==> end <= start
  {}

  lemma ServesIffComparable(start1: nat, len1: nat, start2: nat, len2: nat)
    requires start1 + len1 < TWO_TO_THE_64 / 2 && start2 + len2 < TWO_TO_THE_64 / 2
    ensures Serves(start1, len1, start2, len2, IntersectSegments(start1, len1, start2, len2)) <==>
      Comparable(start1, len1, start2, len2)
  {
    var r, start, end := IntersectSegments(start1, len1, start2, len2), Max(start1, start2), Min(start1 + len1,
                                           start2 + len2);
    ResultIs(start1, len1, start2, len2, start, end, r);
    SharedIs(start1, len1, start2, len2, start, end, if r.Some? then r.value else Segment(0, 0));
  }

  /** Below 2^31 everything is comparable. */
  lemma SmallAreComparable(start1: nat, len1: nat, start2: nat, len2: nat)
    requires start1 + len1 < INT_LIMIT && start2 + len2 < INT_LIMIT
    ensures Comparable(start1, len1, start2, len2)
  {}

  /** The int temporaries make 2^31 the exact limit: up to B all answers are right if and only if B < 2^31. */
  lemma SegmentsLimit(B: nat)
    ensures (forall start1: nat, len1: nat, start2: nat, len2: nat
               | 0 < len1 && start1 + len1 <= B && 0 < len2 && start2 + len2 <= B ::
               IntersectSegments(start1, len1, start2, len2) == Overlap(start1, len1, start2, len2))
        <==> B < INT_LIMIT
  {
    if B >= INT_LIMIT {
      var n: nat := INT_LIMIT;
      assert ToInt(n) == -INT_LIMIT;
      assert ToU64(-INT_LIMIT) == TWO_TO_THE_64 - INT_LIMIT;
      assert IntersectSegments(0, n, 0, n) != Overlap(0, n, 0, n);
    } else {
      forall start1: nat, len1: nat, start2: nat, len2: nat
        | 0 < len1 && start1 + len1 <= B && 0 < len2 && start2 + len2 <= B
        ensures IntersectSegments(start1, len1, start2, len2) == Overlap(start1, len1, start2, len2)
      {
        SegmentsExact(start1, len1, start2, len2);
      }
    }
  }

  /** Global position x lies in the box of size `dims` at `off`. */
  ghost predicate InVolume(x: Vec, dims: Vec, off: Vec)
    requires |dims| == |off|
  {
    |x| == |dims| && forall i | 0 <= i < |x| :: off[i] <= x[i] < off[i] + dims[i]
  }

  ghost predicate Nonempty(dims: Vec) {
    forall i | 0 <= i < |dims| :: dims[i] > 0
  }

  /** The result of intersect_volumes, with the offset in global terms and relative to both volumes. */
  datatype Inter = Inter(dims: Vec, off: Vec, rel1: Vec, rel2: Vec) {
    /** The box of the points in both volumes. */
    ghost predicate IsIntersection(dims1: Vec, off1: Vec, dims2: Vec, off2: Vec)
      requires |dims1| == |off1| == |dims2| == |off2|
    {
      && |dims| == |off| == |rel1| == |rel2| == |dims1|
      && (forall i | 0 <= i < |dims| :: off[i] == off1[i] + rel1[i] == off2[i] + rel2[i]
                                     && rel1[i] + dims[i] <= dims1[i] && rel2[i] + dims[i] <= dims2[i])
      && (forall x :: InVolume(x, dims, off) <==> InVolume(x, dims1, off1) && InVolume(x, dims2, off2))
    }
  }

  /** Difference of 64-bit words. */
  function Relative(a: int, b: int): nat {
    ToU64(a - b)
  }

  /** What intersect_segments says of dimension i. */
  function InDimension(dims1: Vec, off1: Vec, dims2: Vec, off2: Vec, i: nat): Option<Segment>
    requires |dims1| == |off1| == |dims2| == |off2| && i < |dims1|
  {
    IntersectSegments(off1[i], dims1[i], off2[i], dims2[i])
  }

  /** The box put together from the segments of all dimensions, whatever they are. */
  ghost predicate ByDimension(r: Inter, dims1: Vec, off1: Vec, dims2: Vec, off2: Vec, n: nat)
    requires |dims1| == |off1| == |dims2| == |off2| && n <= |dims1|
  {
    && |r.dims| == |r.off| == |r.rel1| == |r.rel2| == n
    && (forall i | 0 <= i < n :: InDimension(dims1, off1, dims2, off2, i) == Some(Segment(r.off[i], r.dims[i])))
    && (forall i | 0 <= i < n :: r.rel1[i] == Relative(r.off[i], off1[i]) && r.rel2[i] == Relative(r.off[i], off2[i]))
  }

  /** Two volumes that are comparable in every dimension. */
  ghost predicate AllComparable(dims1: Vec, off1: Vec, dims2: Vec, off2: Vec) {
    && |dims1| == |off1| == |dims2| == |off2|
    && forall i | 0 <= i < |dims1| :: Comparable(off1[i], dims1[i], off2[i], dims2[i])
  }

  /**
   intersect_volumes, dimension by dimension. When the sides of both are comparable, a result is the exact
   intersection, with points if both volumes have points, and no result means that they share none.
   */
  method IntersectVolumes(dims1: Vec, off1: Vec, dims2: Vec, off2: Vec) returns (r: Option<Inter>)
    requires |dims1| == |off1| == |dims2| == |off2|
    ensures r.Some? ==> ByDimension(r.value, dims1, off1, dims2, off2, |dims1|)
    ensures r.None? ==> exists i | 0 <= i < |dims1| :: InDimension(dims1, off1, dims2, off2, i) == None
    ensures AllComparable(dims1, off1, dims2, off2) && r.Some? ==> r.value.IsIntersection(dims1, off1, dims2, off2)
    ensures AllComparable(dims1, off1, dims2, off2) && r.Some? && Nonempty(dims1) && Nonempty(dims2) ==>
      Nonempty(r.value.dims)
    ensures AllComparable(dims1, off1, dims2, off2) && r.None? ==>
      forall x :: !(InVolume(x, dims1, off1) && InVolume(x, dims2, off2))
  {
    r := IntersectSides(dims1, off1, dims2, off2);
    if AllComparable(dims1, off1, dims2, off2) {
      if r.Some? {
        VolumesExact(r.value, dims1, off1, dims2, off2);
      } else {
        ghost var i :| 0 <= i < |dims1| && InDimension(dims1, off1, dims2, off2, i) == None;
        ApartAlong(dims1, off1, dims2, off2, i);
      }
    }
  }

  /** The loop over the dimensions; it stops at the first without an intersection. */
  method IntersectSides(dims1: Vec, off1: Vec, dims2: Vec, off2: Vec) returns (r: Option<Inter>)
    requires |dims1| == |off1| == |dims2| == |off2|
    ensures r.Some? ==> ByDimension(r.value, dims1, off1, dims2, off2, |dims1|)
    ensures r.None? ==> exists i | 0 <= i < |dims1| :: InDimension(dims1, off1, dims2, off2, i) == None
  {
    var inter := Inter([], [], [], []);
    for dim := 0 to |dims1|
      invariant ByDimension(inter, dims1, off1, dims2, off2, dim)
    {
      var side := InDimension(dims1, off1, dims2, off2, dim);
      match side
      case None => return None;
      case Some(seg) =>
        inter := Inter(inter.dims + [seg.len], inter.off + [seg.start],
                       inter.rel1 + [Relative(seg.start, off1[dim])], inter.rel2 + [Relative(seg.start, off2[dim])]);
    }
    return Some(inter);
  }

  lemma ApartAlong(dims1: Vec, off1: Vec, dims2: Vec, off2: Vec, dim: nat)
    requires AllComparable(dims1, off1, dims2, off2) && dim < |dims1|
    requires InDimension(dims1, off1, dims2, off2, dim) == None
    ensures forall x :: !(InVolume(x, dims1, off1) && InVolume(x, dims2, off2))
  {
    assert Comparable(off1[dim], dims1[dim], off2[dim], dims2[dim]);
    ServesIffComparable(off1[dim], dims1[dim], off2[dim], dims2[dim]);
    forall x ensures !(InVolume(x, dims1, off1) && InVolume(x, dims2, off2)) {
      ApartInDimension(x, dims1, off1, dims2, off2, dim);
    }
  }

  lemma SideExact(r: Inter, dims1: Vec, off1: Vec, dims2: Vec, off2: Vec, i: nat)
    requires AllComparable(dims1, off1, dims2, off2) && ByDimension(r, dims1, off1, dims2, off2, |dims1|) && i < |dims1|
    ensures Shared(off1[i], dims1[i], off2[i], dims2[i], r.off[i], r.dims[i])
    ensures r.off[i] == off1[i] + r.rel1[i] == off2[i] + r.rel2[i]
    ensures dims1[i] > 0 && dims2[i] > 0 ==> r.dims[i] > 0
  {
    assert Comparable(off1[i], dims1[i], off2[i], dims2[i]);
    SideServes(off1[i], dims1[i], off2[i], dims2[i], Segment(r.off[i], r.dims[i]));
  }

  lemma SideServes(off1: nat, dim1: nat, off2: nat, dim2: nat, r: Segment)
    requires Comparable(off1, dim1, off2, dim2) && IntersectSegments(off1, dim1, off2, dim2) == Some(r)
    ensures Shared(off1, dim1, off2, dim2, r.start, r.len)
    ensures r.start == off1 + Relative(r.start, off1) == off2 + Relative(r.start, off2)
    ensures dim1 > 0 && dim2 > 0 ==> r.len > 0
  {
    ServesIffComparable(off1, dim1, off2, dim2);
    WordOf(r.start - off1);
    WordOf(r.start - off2);
    ResultIs(off1, dim1, off2, dim2, Max(off1, off2), Min(off1 + dim1, off2 + dim2), Some(r));
  }

  /** When the sides are comparable, the box is the intersection. */
  lemma VolumesExact(r: Inter, dims1: Vec, off1: Vec, dims2: Vec, off2: Vec)
    requires AllComparable(dims1, off1, dims2, off2) && ByDimension(r, dims1, off1, dims2, off2, |dims1|)
    ensures r.IsIntersection(dims1, off1, dims2, off2)
    ensures Nonempty(dims1) && Nonempty(dims2) ==> Nonempty(r.dims)
  {
    forall i | 0 <= i < |dims1|
      ensures Shared(off1[i], dims1[i], off2[i], dims2[i], r.off[i], r.dims[i])
      ensures r.off[i] == off1[i] + r.rel1[i] == off2[i] + r.rel2[i]
      ensures dims1[i] > 0 && dims2[i] > 0 ==> r.dims[i] > 0
    {
      SideExact(r, dims1, off1, dims2, off2, i);
    }
    forall x ensures InVolume(x, r.dims, r.off) <==> InVolume(x, dims1, off1) && InVolume(x, dims2, off2) {
      InAllDimensions(x, r.dims, r.off, dims1, off1, dims2, off2);
    }
  }

  lemma ApartInDimension(x: Vec, dims1: Vec, off1: Vec, dims2: Vec, off2: Vec, dim: nat)
    requires |dims1| == |off1| == |dims2| == |off2| && dim < |dims1|
    requires Apart(off1[dim], dims1[dim], off2[dim], dims2[dim])
    ensures !(InVolume(x, dims1, off1) && InVolume(x, dims2, off2))
  {}

  lemma InAllDimensions(x: Vec, dims: Vec, off: Vec, dims1: Vec, off1: Vec, dims2: Vec, off2: Vec)
    requires |dims| == |off| == |dims1| == |off1| == |dims2| == |off2|
    requires forall i | 0 <= i < |dims| :: Shared(off1[i], dims1[i], off2[i], dims2[i], off[i], dims[i])
    ensures InVolume(x, dims, off) <==> InVolume(x, dims1, off1) && InVolume(x, dims2, off2)
  {}

  /** A copy spec for two volumes of one global space: it fits them, and its box is what they share. */
  ghost predicate Links(c: CopySpec, dstGoff: Vec, srcGoff: Vec)
    requires |dstGoff| == |srcGoff|
  {
    && c.Fits() && |c.subv| == |dstGoff|
    && Plus(dstGoff, c.dstOff) == Plus(srcGoff, c.srcOff)
    && forall x :: InVolume(x, c.subv, Plus(dstGoff, c.dstOff)) <==>
                   InVolume(x, c.dstDims, dstGoff) && InVolume(x, c.srcDims, srcGoff)
  }

  lemma SpecIsShared(i: Inter, dstDims: Vec, dstGoff: Vec, srcDims: Vec, srcGoff: Vec)
    requires |dstDims| == |dstGoff| == |srcDims| == |srcGoff| && i.IsIntersection(dstDims, dstGoff, srcDims, srcGoff)
    ensures Links(CopySpec(i.dims, dstDims, i.rel1, srcDims, i.rel2), dstGoff, srcGoff)
  {
    assert Plus(dstGoff, i.rel1) == i.off == Plus(srcGoff, i.rel2);
  }

  /** adios_copyspec_init_from_intersection: the copy of everything the source has of the destination. */
  method InitFromIntersection(dstDims: Vec, dstGoff: Vec, srcDims: Vec, srcGoff: Vec) returns (r: Option<CopySpec>)
    requires |dstDims| == |dstGoff| == |srcDims| == |srcGoff|
    ensures r.Some? ==> exists i: Inter :: ByDimension(i, dstDims, dstGoff, srcDims, srcGoff, |dstDims|)
                                        && r.value == CopySpec(i.dims, dstDims, i.rel1, srcDims, i.rel2)
    ensures r.Some? ==> r.value.dstDims == dstDims && r.value.srcDims == srcDims
    ensures r.None? ==> exists i | 0 <= i < |dstDims| :: InDimension(dstDims, dstGoff, srcDims, srcGoff, i) == None
    ensures AllComparable(dstDims, dstGoff, srcDims, srcGoff) && r.Some? ==> Links(r.value, dstGoff, srcGoff)
    ensures AllComparable(dstDims, dstGoff, srcDims, srcGoff) && r.Some? && Nonempty(dstDims) && Nonempty(srcDims) ==>
      Nonempty(r.value.subv)
    ensures AllComparable(dstDims, dstGoff, srcDims, srcGoff) && r.None? ==>
      forall x :: !(InVolume(x, dstDims, dstGoff) && InVolume(x, srcDims, srcGoff))
  {
    var inter := IntersectVolumes(dstDims, dstGoff, srcDims, srcGoff);
    match inter
    case None => return None;
    case Some(i) =>
      if AllComparable(dstDims, dstGoff, srcDims, srcGoff) { SpecIsShared(i, dstDims, dstGoff, srcDims, srcGoff); }
      return Some(CopySpec(i.dims, dstDims, i.rel1, srcDims, i.rel2));
  }
}
