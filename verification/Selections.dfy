/** Intersections of selections: src/core/adios_selection_util.c:29-95, 151-168, 196-291. */
module Selections {
  import opened Outcomes
  import opened Geometry
  import opened Intersection
  import opened BlockIndex

  datatype WriteBlock = WriteBlock(isAbsolute: bool, index: int, isSubPg: bool, elementOffset: nat, nelements: nat)

  datatype Selection =
    | BoundingBox(count: Vec, start: Vec)
    | Points(ndim: nat, points: seq<Vec>)
    | Writeblock(wb: WriteBlock)
    | Auto

  /** The global positions a selection stands for. */
  ghost predicate Selects(s: Selection, x: Vec) {
    match s
    case BoundingBox(count, start) => |count| == |start| && InVolume(x, count, start)
    case Points(ndim, points) => |x| == ndim && x in points
    case Writeblock(_) => false
    case Auto => false
  }

  ghost predicate WellFormed(s: Selection, ndim: nat) {
    match s
    case BoundingBox(count, start) => |count| == |start| == ndim
    case Points(n, points) => n == ndim && forall q | q in points :: |q| == ndim
    case _ => true
  }

  /** The points a box keeps of a list, in the list's order. */
  ghost function Kept(points: seq<Vec>, count: Vec, start: Vec): seq<Vec>
    requires |count| == |start|
  {
    if points == [] then []
    else
      var last := points[|points| - 1];
      Kept(points[..|points| - 1], count, start) + if InVolume(last, count, start) then [last] else []
  }

  lemma {:induction false} KeptContains(points: seq<Vec>, count: Vec, start: Vec, x: Vec)
    requires |count| == |start|
    ensures x in Kept(points, count, start) <==> x in points && InVolume(x, count, start)
  {
    if points != [] {
      var n := |points| - 1;
      KeptContains(points[..n], count, start, x);
      assert points == points[..n] + [points[n]];
    }
  }

  /** adios_selection_intersect_bb_pts: each point is tested one coordinate at a time. */
  method IntersectBoxPoints(count: Vec, start: Vec, points: seq<Vec>) returns (r: Option<Selection>)
    requires |count| == |start| && forall q | q in points :: |q| == |count|
    ensures r == if Kept(points, count, start) == [] then None else Some(Points(|count|, Kept(points, count, start)))
  {
    var kept := [];
    for i := 0 to |points|
      invariant kept == Kept(points[..i], count, start)
    {
      var j := 0;
      while j < |count| && !(points[i][j] < start[j] || points[i][j] >= start[j] + count[j])
        invariant 0 <= j <= |count|
        invariant forall k | 0 <= k < j :: start[k] <= points[i][k] < start[k] + count[k]
      {
        j := j + 1;
      }
      assert points[..i + 1][..i] == points[..i];
      if j == |count| { kept := kept + [points[i]]; }
    }
    assert points[..|points|] == points;
    return if |kept| == 0 then None else Some(Points(|count|, kept));
  }

  /** Coordinates that go through the int temporaries of a box intersection are told apart by them. */
  ghost predicate Fitting(count: Vec, start: Vec, s: Selection) {
    s.BoundingBox? ==> AllComparable(count, start, s.count, s.start)
  }

  /**
   adios_selection_intersect_global with a bounding box first: the result selects exactly the
   positions of both; no result means that there are none. Points are exact for all coordinates,
   boxes for those that are comparable.
   */
  method IntersectBox(count: Vec, start: Vec, s: Selection) returns (r: Option<Selection>)
    requires |count| == |start| && WellFormed(s, |count|)
    ensures r.Some? && Fitting(count, start, s) ==>
      forall x :: Selects(r.value, x) <==> InVolume(x, count, start) && Selects(s, x)
    ensures r.None? && Fitting(count, start, s) ==> forall x :: !(InVolume(x, count, start) && Selects(s, x))
    ensures r.Some? && Fitting(count, start, s) && Nonempty(count) && (s.BoundingBox? ==> Nonempty(s.count)) ==>
      exists x :: Selects(r.value, x)
    ensures s.BoundingBox? && r.Some? ==>
      exists i: Inter ::
        ByDimension(i, count, start, s.count, s.start, |count|) && r.value == BoundingBox(i.dims, i.off)
    ensures s.BoundingBox? && r.None? ==>
      exists i | 0 <= i < |count| :: InDimension(count, start, s.count, s.start, i) == None
  {
    match s
    case BoundingBox(count2, start2) =>
      var inter := IntersectVolumes(count, start, count2, start2);
      if inter.None? { return None; }
      r := Some(BoundingBox(inter.value.dims, inter.value.off));
      assert Nonempty(inter.value.dims) ==> Selects(r.value, inter.value.off);
    case Points(ndim, points) =>
      r := IntersectBoxPoints(count, start, points);
      forall x ensures x in Kept(points, count, start) <==> x in points && InVolume(x, count, start) {
        KeptContains(points, count, start, x);
      }
      if r.Some? { assert Selects(r.value, r.value.points[0]); }
    case Writeblock(_) => return None;
    case Auto => return None;
  }

  /** Write-block selection `wb`, used at a time step, selects element e of block number b of the file. */
  ghost predicate SelectsElement(wb: WriteBlock, nblocks: seq<nat>, step: int, b: int, e: int) {
    && (if wb.isAbsolute then b == wb.index && 0 <= b < Before(nblocks, |nblocks|)
        else Numbers(nblocks, step, wb.index, b))
    && (wb.isSubPg ==> wb.elementOffset <= e < wb.elementOffset + wb.nelements)
  }

  /** The block exists at that time step, and a part of it has elements. */
  ghost predicate ValidWriteBlock(wb: WriteBlock, nblocks: seq<nat>, step: int) {
    && (if wb.isAbsolute then 0 <= wb.index < Before(nblocks, |nblocks|)
        else 0 <= step < |nblocks| && 0 <= wb.index < nblocks[step])
    && (wb.isSubPg ==> wb.nelements > 0)
  }

  /** The elements that both selections select. */
  ghost predicate BothSelect(wb1: WriteBlock, wb2: WriteBlock, nblocks: seq<nat>, step: int, b: int, e: int) {
    SelectsElement(wb1, nblocks, step, b, e) && SelectsElement(wb2, nblocks, step, b, e)
  }

  /** Two partial blocks whose elements are told apart as ints. */
  predicate ComparableParts(wb1: WriteBlock, wb2: WriteBlock) {
    wb1.isSubPg && wb2.isSubPg ==> Comparable(wb1.elementOffset, wb1.nelements, wb2.elementOffset, wb2.nelements)
  }

  /** A valid selection selects something. */
  lemma ValidSelects(wb: WriteBlock, nblocks: seq<nat>, step: int)
    requires ValidWriteBlock(wb, nblocks, step)
    ensures exists b, e :: SelectsElement(wb, nblocks, step, b, e)
  {
    if wb.isAbsolute {
      assert SelectsElement(wb, nblocks, step, wb.index, wb.elementOffset);
    } else {
      assert SelectsElement(wb, nblocks, step, Before(nblocks, step) + wb.index, wb.elementOffset);
    }
  }

  /**
   adios_selection_intersect_wb_wb: for every mix of absolute and relative indices and of whole and
   partial blocks the result selects exactly the elements both select; for valid selections there is
   no result if and only if there are none.
   */
  method IntersectWriteblocks(wb1: WriteBlock, wb2: WriteBlock, timestep: int, nblocks: seq<nat>)
    returns (r: Option<WriteBlock>)
    requires ComparableParts(wb1, wb2)
    ensures r.Some? ==>
      forall b, e :: SelectsElement(r.value, nblocks, timestep, b, e) <==> BothSelect(wb1, wb2, nblocks, timestep, b, e)
    ensures r.None? ==> forall b, e :: !BothSelect(wb1, wb2, nblocks, timestep, b, e)
    ensures ValidWriteBlock(wb1, nblocks, timestep) && ValidWriteBlock(wb2, nblocks, timestep) ==>
            (r.Some? ==> ValidWriteBlock(r.value, nblocks, timestep))
            && (r.None? <==> forall b, e :: !BothSelect(wb1, wb2, nblocks, timestep, b, e))
  {
    r := IntersectBlocks(wb1, wb2, timestep, nblocks);
    if r.Some? && ValidWriteBlock(r.value, nblocks, timestep) {
      ValidSelects(r.value, nblocks, timestep);
      var b, e :| SelectsElement(r.value, nblocks, timestep, b, e);
      assert BothSelect(wb1, wb2, nblocks, timestep, b, e);
    }
  }

  /** The elements that two partial blocks share. */
  method IntersectParts(wb1: WriteBlock, wb2: WriteBlock) returns (part: Option<Segment>)
    requires wb1.isSubPg && wb2.isSubPg && ComparableParts(wb1, wb2)
    ensures part.None? ==> Apart(wb1.elementOffset, wb1.nelements, wb2.elementOffset, wb2.nelements)
    ensures part.Some? ==>
      Shared(wb1.elementOffset, wb1.nelements, wb2.elementOffset, wb2.nelements, part.value.start, part.value.len)
    ensures part.Some? && wb1.nelements > 0 && wb2.nelements > 0 ==> part.value.len > 0
  {
    part := IntersectSegments(wb1.elementOffset, wb1.nelements, wb2.elementOffset, wb2.nelements);
    ServesIffComparable(wb1.elementOffset, wb1.nelements, wb2.elementOffset, wb2.nelements);
    if part.Some? { SideServes(wb1.elementOffset, wb1.nelements, wb2.elementOffset, wb2.nelements, part.value); }
  }

  method IntersectBlocks(wb1: WriteBlock, wb2: WriteBlock, timestep: int, nblocks: seq<nat>)
    returns (r: Option<WriteBlock>)
    requires ComparableParts(wb1, wb2)
    ensures r.Some? ==>
      forall b, e :: SelectsElement(r.value, nblocks, timestep, b, e) <==> BothSelect(wb1, wb2, nblocks, timestep, b, e)
    ensures r.None? ==> forall b, e :: !BothSelect(wb1, wb2, nblocks, timestep, b, e)
    ensures r.Some? && ValidWriteBlock(wb1, nblocks, timestep) && ValidWriteBlock(wb2, nblocks, timestep) ==>
            ValidWriteBlock(r.value, nblocks, timestep)
  {
    var isAbs, wbindex;
    if wb1.isAbsolute == wb2.isAbsolute {
      if wb1.index != wb2.index {
        forall b, e ensures !BothSelect(wb1, wb2, nblocks, timestep, b, e) {
          DifferentIndices(wb1, wb2, nblocks, timestep, b, e);
        }
        return None;
      }
      wbindex, isAbs := wb1.index, wb1.isAbsolute;
    } else {
      var index1, index2 := wb1.index, wb2.index;
      if !wb1.isAbsolute { index1 := AbsoluteIndex(nblocks, wb1.index, timestep); }
      if !wb2.isAbsolute { index2 := AbsoluteIndex(nblocks, wb2.index, timestep); }
      forall step, rel, abs | Numbers(nblocks, step, rel, abs) ensures abs < Before(nblocks, |nblocks|) {
        NumberingIsBijective(nblocks, step, rel, step, rel, abs, abs);
      }
      if index1 != index2 { return None; }
      wbindex, isAbs := index1, true;
    }
    if !wb1.isSubPg && !wb2.isSubPg {
      return Some(WriteBlock(isAbs, wbindex, false, 0, 0));
    } else if wb1.isSubPg && wb2.isSubPg {
      var part := IntersectParts(wb1, wb2);
      return if part.None? then None else Some(WriteBlock(isAbs, wbindex, true, part.value.start, part.value.len));
    } else if wb1.isSubPg {
      return Some(wb1);
    } else {
      return Some(wb2);
    }
  }

  lemma DifferentIndices(wb1: WriteBlock, wb2: WriteBlock, nblocks: seq<nat>, step: int, b: int, e: int)
    requires wb1.isAbsolute == wb2.isAbsolute && wb1.index != wb2.index
    ensures !BothSelect(wb1, wb2, nblocks, step, b, e)
  {}
}
