/** adios_find_intersecting_pgs: src/core/adios_read_ext.c:164-256. */
module FindBlocks {
  import opened Outcomes
  import opened Geometry
  import opened Intersection
  import opened BlockIndex
  import opened Selections

  datatype Box = Box(count: Vec, start: Vec)

  datatype PgIntersection = PgIntersection(timestep: nat, blockidx: nat, blockidxInTimestep: nat, inter: Selection,
                                           bounds: Box)

  /** The (timestep, block in timestep) counters after k blocks, counted from step `from`. */
  function Tag(nblocks: seq<nat>, from: nat, k: nat): (nat, nat) {
    if k == 0 then (from, 0)
    else
      var (step, i) := Tag(nblocks, from, k - 1);
      if step < |nblocks| && i + 1 == nblocks[step] then (step + 1, 0) else (step, i + 1)
  }

  /** No step without blocks comes before a step with blocks. */
  ghost predicate NoGap(nblocks: seq<nat>, from: nat, to: nat)
    requires to <= |nblocks|
  {
    forall s, s' | from <= s < s' < to && nblocks[s'] > 0 :: nblocks[s] > 0
  }

  /** As long as no empty step is passed, the counters name the block. */
  lemma {:induction false} TagNumbers(nblocks: seq<nat>, from: nat, to: nat, k: nat)
    requires from < to <= |nblocks| && k <= Before(nblocks, to) - Before(nblocks, from)
    requires forall s | from <= s < to :: nblocks[s] > 0
    ensures var (step, i) := Tag(nblocks, from, k);
      && from <= step <= to && Before(nblocks, from) + k == Before(nblocks, step) + i
      && (if step < to then i < nblocks[step] else i == 0)
  {
    if k > 0 {
      TagNumbers(nblocks, from, to, k - 1);
    }
  }

  /** The range of steps up to the first empty one; all later steps of the range are empty if there is no gap. */
  lemma {:induction false} NonemptyPrefix(nblocks: seq<nat>, from: nat, to: nat) returns (mid: nat)
    requires from <= to <= |nblocks|
    ensures from <= mid <= to && (forall s | from <= s < mid :: nblocks[s] > 0) && (mid < to ==> nblocks[mid] == 0)
    ensures NoGap(nblocks, from, to) ==> Before(nblocks, mid) == Before(nblocks, to)
    ensures !NoGap(nblocks, from, to) ==> mid < to && Before(nblocks, mid) < Before(nblocks, to)
  {
    mid := from;
    while mid < to && nblocks[mid] > 0
      invariant from <= mid <= to && forall s | from <= s < mid :: nblocks[s] > 0
    {
      mid := mid + 1;
    }
    if NoGap(nblocks, from, to) {
      EmptySteps(nblocks, mid, to);
    } else {
      var s, s' :| from <= s < s' < to && nblocks[s'] > 0 && nblocks[s] == 0;
      BeforeMono(nblocks, mid, s');
      BeforeMono(nblocks, s' + 1, to);
    }
  }

  lemma {:induction false} EmptySteps(nblocks: seq<nat>, a: nat, b: nat)
    requires a <= b <= |nblocks| && forall s | a <= s < b :: nblocks[s] == 0
    ensures Before(nblocks, a) == Before(nblocks, b)
    decreases b
  {
    if a < b { EmptySteps(nblocks, a, b - 1); }
  }

  /** The counters after k blocks name the block that comes next. */
  ghost predicate TagRight(nblocks: seq<nat>, from: nat, k: nat)
    requires from <= |nblocks|
  {
    Numbers(nblocks, Tag(nblocks, from, k).0, Tag(nblocks, from, k).1, Before(nblocks, from) + k)
  }

  /** The counters of all requested blocks are right if and only if no empty step comes before a block. */
  lemma TagsRightIffNoGap(nblocks: seq<nat>, from: nat, to: nat)
    requires from < to <= |nblocks|
    ensures (forall k: nat | k < Before(nblocks, to) - Before(nblocks, from) :: TagRight(nblocks, from, k))
        <==> NoGap(nblocks, from, to)
  {
    var mid := NonemptyPrefix(nblocks, from, to);
    BeforeMono(nblocks, from, mid);
    if NoGap(nblocks, from, to) {
      forall k: nat | k < Before(nblocks, to) - Before(nblocks, from) ensures TagRight(nblocks, from, k) {
        TagNumbers(nblocks, from, mid, k);
      }
    } else {
      var k := Before(nblocks, mid) - Before(nblocks, from);
      WrongTag(nblocks, from, mid);
      assert !TagRight(nblocks, from, k);
    }
  }

  /** From the first empty step on, the counters stay in that step and count all further blocks there. */
  lemma {:induction false} TagAfterGap(nblocks: seq<nat>, from: nat, mid: nat, k: nat)
    requires from <= mid < |nblocks| && nblocks[mid] == 0 && (forall s | from <= s < mid :: nblocks[s] > 0)
    requires Before(nblocks, mid) <= Before(nblocks, from) + k
    ensures Tag(nblocks, from, k) == (mid, Before(nblocks, from) + k - Before(nblocks, mid))
  {
    if Before(nblocks, from) + k == Before(nblocks, mid) {
      if from < mid { TagAtEnd(nblocks, from, mid, k); } else { assert k == 0; }
    } else {
      BeforeMono(nblocks, from, mid);
      TagAfterGap(nblocks, from, mid, k - 1);
    }
  }

  /** Once all blocks of the steps before `mid` have been counted, the counters stand at the start of `mid`. */
  lemma TagAtEnd(nblocks: seq<nat>, from: nat, mid: nat, k: nat)
    requires from < mid <= |nblocks| && Before(nblocks, from) + k == Before(nblocks, mid)
    requires forall s | from <= s < mid :: nblocks[s] > 0
    ensures Tag(nblocks, from, k) == (mid, 0)
  {
    var t := Tag(nblocks, from, k);
    TagNumbers(nblocks, from, mid, k);
    PastTheEnd(nblocks, t.0, t.1, mid);
  }

  lemma PastTheEnd(nblocks: seq<nat>, step: nat, i: nat, mid: nat)
    requires step <= mid <= |nblocks| && Before(nblocks, mid) == Before(nblocks, step) + i
    requires (step < mid ==> i < nblocks[step])
    ensures step == mid
  {
    if step < mid { BeforeMono(nblocks, step + 1, mid); }
  }

  lemma WrongTag(nblocks: seq<nat>, from: nat, mid: nat)
    requires from <= mid < |nblocks| && nblocks[mid] == 0 && Before(nblocks, from) <= Before(nblocks, mid)
    requires forall s | from <= s < mid :: nblocks[s] > 0
    ensures !TagRight(nblocks, from, Before(nblocks, mid) - Before(nblocks, from))
  {
    if from < mid { TagAtEnd(nblocks, from, mid, Before(nblocks, mid) - Before(nblocks, from)); }
  }

  /** One entry of the result, for block number b. */
  ghost predicate Describes(r: PgIntersection, b: nat, blocks: seq<Box>, sel: Selection, nblocks: seq<nat>, from: nat)
    requires from <= |nblocks| && Before(nblocks, from) <= b < |blocks|
  {
    && r.blockidx == b && r.bounds == blocks[b]
    && (r.timestep, r.blockidxInTimestep) == Tag(nblocks, from, b - Before(nblocks, from))
    && |blocks[b].count| == |blocks[b].start|
    && (forall x :: Selects(r.inter, x) <==> InVolume(x, blocks[b].count, blocks[b].start) && Selects(sel, x))
    && (Nonempty(blocks[b].count) && (sel.BoundingBox? ==> Nonempty(sel.count)) ==> exists x :: Selects(r.inter, x))
  }

  /** Box and selection go together, and their coordinates fit the intersection's int temporaries. */
  ghost predicate InReach(box: Box, sel: Selection) {
    |box.count| == |box.start| && WellFormed(sel, |box.count|) && Fitting(box.count, box.start, sel)
  }

  ghost predicate Meets(box: Box, sel: Selection) {
    |box.count| == |box.start| && exists x :: InVolume(x, box.count, box.start) && Selects(sel, x)
  }

  /** Every entry is right, and for a block numbered first to end - 1. */
  ghost predicate Right(rs: seq<PgIntersection>, first: nat, end: nat, blocks: seq<Box>, sel: Selection,
                        nblocks: seq<nat>, from: nat)
    requires from <= |nblocks| && first == Before(nblocks, from) && end <= |blocks|
  {
    forall i | 0 <= i < |rs| ::
      first <= rs[i].blockidx < end && Describes(rs[i], rs[i].blockidx, blocks, sel, nblocks, from)
  }

  ghost predicate InOrder(rs: seq<PgIntersection>) {
    forall i, j | 0 <= i < j < |rs| :: rs[i].blockidx < rs[j].blockidx
  }

  /** Some entry is for block b. */
  ghost predicate HasEntry(rs: seq<PgIntersection>, b: nat) {
    exists i | 0 <= i < |rs| :: rs[i].blockidx == b
  }

  ghost predicate Complete(rs: seq<PgIntersection>, first: nat, end: nat, blocks: seq<Box>, sel: Selection)
    requires end <= |blocks|
  {
    forall b | first <= b < end && Meets(blocks[b], sel) :: HasEntry(rs, b)
  }

  /** The entries for the blocks numbered first to end - 1: in order, and none that meets the selection is missing. */
  ghost predicate Found(rs: seq<PgIntersection>, first: nat, end: nat, blocks: seq<Box>, sel: Selection,
                        nblocks: seq<nat>, from: nat)
    requires from <= |nblocks| && first == Before(nblocks, from) && end <= |blocks|
  {
    Right(rs, first, end, blocks, sel, nblocks, from) && InOrder(rs) && Complete(rs, first, end, blocks, sel)
  }

  const INITIAL_INTERSECTION_CAPACITY := 16

  /** Appends to the result array, doubling it first when it is full. */
  method Append(a: array<PgIntersection>, n: nat, r: PgIntersection) returns (b: array<PgIntersection>)
    requires 0 < a.Length && n <= a.Length
    modifies a
    ensures n < b.Length && b[..n + 1] == old(a[..n]) + [r] && (b == a || fresh(b))
  {
    b := a;
    if n == a.Length {
      b := new PgIntersection[2 * a.Length];
      forall i | 0 <= i < n { b[i] := a[i]; }
    }
    b[n] := r;
  }

  /** The entry for one block, if it meets the selection. */
  method Examine(blocks: seq<Box>, b: nat, sel: Selection, timestep: nat, inStep: nat, ghost nblocks: seq<nat>,
                 ghost from: nat)
    returns (r: Option<PgIntersection>)
    requires from <= |nblocks| && Before(nblocks, from) <= b < |blocks|
    requires InReach(blocks[b], sel)
    requires (timestep, inStep) == Tag(nblocks, from, b - Before(nblocks, from))
    ensures r.Some? ==> Describes(r.value, b, blocks, sel, nblocks, from)
    ensures r.None? ==> !Meets(blocks[b], sel)
  {
    var inter := IntersectBox(blocks[b].count, blocks[b].start, sel);
    if inter.None? { return None; }
    return Some(PgIntersection(timestep, b, inStep, inter.value, blocks[b]));
  }

  lemma EntryStays(rs: seq<PgIntersection>, next: seq<PgIntersection>, b: nat)
    requires HasEntry(rs, b) || HasEntry(next, b)
    ensures HasEntry(rs + next, b)
  {
    if HasEntry(rs, b) {
      var i :| 0 <= i < |rs| && rs[i].blockidx == b;
      assert (rs + next)[i].blockidx == b;
    } else {
      var i :| 0 <= i < |next| && next[i].blockidx == b;
      assert (rs + next)[|rs| + i].blockidx == b;
    }
  }

  lemma CompleteNext(rs: seq<PgIntersection>, next: seq<PgIntersection>, first: nat, end: nat, blocks: seq<Box>,
                     sel: Selection)
    requires end < |blocks| && Complete(rs, first, end, blocks, sel)
    requires (Meets(blocks[end], sel) ==> HasEntry(next, end))
    ensures Complete(rs + next, first, end + 1, blocks, sel)
  {
    forall b | first <= b < end + 1 && Meets(blocks[b], sel) ensures HasEntry(rs + next, b) { EntryStays(rs, next, b); }
  }

  /** The entries found so far, and the one of the next block if it meets the selection. */
  lemma FoundNext(rs: seq<PgIntersection>, next: seq<PgIntersection>, first: nat, end: nat, blocks: seq<Box>,
                  sel: Selection, nblocks: seq<nat>, from: nat)
    requires from <= |nblocks| && first == Before(nblocks, from) <= end < |blocks|
    requires Found(rs, first, end, blocks, sel, nblocks, from)
    requires |next| <= 1
    requires if next == [] then !Meets(blocks[end], sel) else Describes(next[0], end, blocks, sel, nblocks, from)
    ensures Found(rs + next, first, end + 1, blocks, sel, nblocks, from)
  {
    if next != [] { assert next[0].blockidx == end && HasEntry(next, end); }
    CompleteNext(rs, next, first, end, blocks, sel);
    RightNext(rs, next, first, end, blocks, sel, nblocks, from);
  }

  lemma RightNext(rs: seq<PgIntersection>, next: seq<PgIntersection>, first: nat, end: nat, blocks: seq<Box>,
                  sel: Selection, nblocks: seq<nat>, from: nat)
    requires from <= |nblocks| && first == Before(nblocks, from) <= end < |blocks| && |next| <= 1
    requires Right(rs, first, end, blocks, sel, nblocks, from) && InOrder(rs)
    requires next == [] || Describes(next[0], end, blocks, sel, nblocks, from)
    ensures Right(rs + next, first, end + 1, blocks, sel, nblocks, from) && InOrder(rs + next)
  {
    var rs' := rs + next;
    forall i | 0 <= i < |rs'|
      ensures first <= rs'[i].blockidx < end + 1 && Describes(rs'[i], rs'[i].blockidx, blocks, sel, nblocks, from)
    {
      if i < |rs| { assert rs'[i] == rs[i]; } else { assert rs'[i] == next[0] && next[0].blockidx == end; }
    }
    OrderedNext(rs, next, end);
  }

  lemma OrderedNext(rs: seq<PgIntersection>, next: seq<PgIntersection>, end: nat)
    requires InOrder(rs) && |next| <= 1 && (forall i | 0 <= i < |rs| :: rs[i].blockidx < end)
    requires forall i | 0 <= i < |next| :: next[i].blockidx == end
    ensures InOrder(rs + next)
  {}

  /** The result array after one more block. */
  method AddEntry(a: array<PgIntersection>, n: nat, entry: Option<PgIntersection>, ghost first: nat, ghost b: nat,
                  ghost blocks: seq<Box>, ghost sel: Selection, ghost nblocks: seq<nat>, ghost from: nat)
    returns (a': array<PgIntersection>, n': nat)
    requires 0 < a.Length && n <= a.Length && from <= |nblocks| && first == Before(nblocks, from) <= b < |blocks|
    requires Found(a[..n], first, b, blocks, sel, nblocks, from)
    requires if entry.Some? then Describes(entry.value, b, blocks, sel, nblocks, from) else !Meets(blocks[b], sel)
    modifies a
    ensures n' <= a'.Length && 0 < a'.Length && (a' == a || fresh(a'))
    ensures Found(a'[..n'], first, b + 1, blocks, sel, nblocks, from)
  {
    ghost var rs := a[..n];
    if entry.Some? {
      FoundNext(rs, [entry.value], first, b, blocks, sel, nblocks, from);
      a' := Append(a, n, entry.value);
      n' := n + 1;
    } else {
      FoundNext(rs, [], first, b, blocks, sel, nblocks, from);
      assert rs + [] == rs;
      a', n' := a, n;
    }
  }

  /** The counters after one more block. */
  method Advance(nblocks: seq<nat>, ghost from: nat, ghost k: nat, timestep: nat, inStep: nat)
    returns (timestep': nat, inStep': nat)
    requires (timestep, inStep) == Tag(nblocks, from, k)
    ensures (timestep', inStep') == Tag(nblocks, from, k + 1)
  {
    timestep', inStep' := timestep, inStep + 1;
    if timestep < |nblocks| && inStep' == nblocks[timestep] {
      inStep' := 0;
      timestep' := timestep + 1;
    }
  }

  method ScanBlocks(nblocks: seq<nat>, blocks: seq<Box>, sel: Selection, fromStep: nat, first: nat, end: nat)
    returns (found: seq<PgIntersection>)
    requires fromStep <= |nblocks| && first == Before(nblocks, fromStep) <= end <= |blocks|
    requires forall b | b in blocks :: InReach(b, sel)
    ensures Found(found, first, end, blocks, sel, nblocks, fromStep)
  {
    var results := new PgIntersection[INITIAL_INTERSECTION_CAPACITY];
    var npg: nat, blockidx, timestep, inStep := 0, first, fromStep, 0;
    while blockidx != end
      invariant first <= blockidx <= end && npg <= results.Length && 0 < results.Length && fresh(results)
      invariant (timestep, inStep) == Tag(nblocks, fromStep, blockidx - first)
      invariant Found(results[..npg], first, blockidx, blocks, sel, nblocks, fromStep)
      decreases end - blockidx
    {
      var entry := Examine(blocks, blockidx, sel, timestep, inStep, nblocks, fromStep);
      results, npg := AddEntry(results, npg, entry, first, blockidx, blocks, sel, nblocks, fromStep);
      timestep, inStep := Advance(nblocks, fromStep, blockidx - first, timestep, inStep);
      blockidx := blockidx + 1;
    }
    found := results[..npg];
  }

  /**
   adios_find_intersecting_pgs, for the steps from `fromStep` on: the blocks that meet the selection,
   in file order, each with its intersection and its counters.
   */
  method FindIntersectingPgs(nblocks: seq<nat>, blocks: seq<Box>, sel: Selection, fromStep: nat, nsteps: nat)
    returns (found: seq<PgIntersection>)
    requires 0 < nsteps && fromStep + nsteps <= |nblocks| && |blocks| == Before(nblocks, |nblocks|)
    requires forall b | b in blocks :: InReach(b, sel)
    ensures Before(nblocks, fromStep + nsteps) <= |blocks|
    ensures Found(found, Before(nblocks, fromStep), Before(nblocks, fromStep + nsteps), blocks, sel, nblocks, fromStep)
  {
    var start, end := BlockRange(nblocks, fromStep, fromStep + nsteps);
    BeforeMono(nblocks, fromStep, fromStep + nsteps);
    BeforeMono(nblocks, fromStep + nsteps, |nblocks|);
    found := ScanBlocks(nblocks, blocks, sel, fromStep, start.value, end.value);
  }
}
