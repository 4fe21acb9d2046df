/** Block numbers across time steps: src/core/adios_read_ext.c:115-161, src/core/adios_read_v1.c:399-412. */
module BlockIndex {

  /** How many blocks steps 0 to k - 1 have. */
  function Before(nblocks: seq<nat>, k: nat): nat
    requires k <= |nblocks|
  {
    if k == 0 then 0 else Before(nblocks, k - 1) + nblocks[k - 1]
  }

  lemma {:induction false} BeforeMono(nblocks: seq<nat>, a: nat, b: nat)
    requires a <= b <= |nblocks|
    ensures Before(nblocks, a) <= Before(nblocks, b)
    decreases b
  {
    if a < b { BeforeMono(nblocks, a, b - 1); }
  }

  /** Block `rel` of step `step` is block number `abs` of the file. */
  ghost predicate Numbers(nblocks: seq<nat>, step: int, rel: int, abs: int) {
    && 0 <= step < |nblocks| && 0 <= rel < nblocks[step]
    && abs == Before(nblocks, step) + rel
  }

  /** adios_get_absolute_writeblock_index; -1 for a step or block that does not exist. */
  method AbsoluteIndex(nblocks: seq<nat>, rel: int, step: int) returns (abs: int)
    ensures 0 <= step < |nblocks| && 0 <= rel < nblocks[step] ==> Numbers(nblocks, step, rel, abs)
    ensures !(0 <= step < |nblocks| && 0 <= rel < nblocks[step]) ==> abs == -1
  {
    if step < 0 || step >= |nblocks| { return -1; }
    if rel < 0 || rel >= nblocks[step] { return -1; }
    abs := rel;
    for i := 0 to step
      invariant abs == rel + Before(nblocks, i)
    {
      abs := abs + nblocks[i];
    }
  }

  /** The search in adios_read_local_var_v1; step is the number of steps when there is no such block. */
  method StepOfIndex(nblocks: seq<nat>, idx: int) returns (step: nat, rel: int)
    ensures 0 <= idx < Before(nblocks, |nblocks|) ==> Numbers(nblocks, step, rel, idx)
    ensures idx >= Before(nblocks, |nblocks|) ==> step == |nblocks|
    ensures idx < 0 ==> step == 0 && rel == idx  // a negative number is not noticed
  {
    step, rel := 0, idx;
    while step < |nblocks| && rel >= nblocks[step]
      invariant step <= |nblocks| && idx == rel + Before(nblocks, step)
      invariant idx >= 0 ==> rel >= 0
      invariant idx < 0 ==> step == 0
    {
      rel := rel - nblocks[step];
      step := step + 1;
    }
    if step < |nblocks| {
      BeforeMono(nblocks, step + 1, |nblocks|);
    }
  }

  /** A file's block numbers and its (step, block in step) pairs correspond one to one. */
  lemma NumberingIsBijective(nblocks: seq<nat>, step: int, rel: int, step': int, rel': int, abs: int, abs': int)
    requires Numbers(nblocks, step, rel, abs) && Numbers(nblocks, step', rel', abs')
    ensures abs == abs' <==> step == step' && rel == rel'
    ensures abs < Before(nblocks, |nblocks|)
  {
    BeforeMono(nblocks, step + 1, |nblocks|);
    if step < step' { BeforeMono(nblocks, step + 1, step'); }
    if step' < step { BeforeMono(nblocks, step' + 1, step); }
  }

  datatype Unset = Unset | Set(value: nat)

  /** compute_blockidx_range; an output that the loop never reaches stays unset. */
  method BlockRange(nblocks: seq<nat>, fromSteps: int, toSteps: int) returns (start: Unset, end: Unset)
    ensures end == if 1 <= toSteps <= |nblocks| then Set(Before(nblocks, toSteps)) else Unset
    ensures start == if 0 <= fromSteps < |nblocks| && !(1 <= toSteps <= fromSteps)
                     then Set(Before(nblocks, fromSteps)) else Unset
  {
    start, end := Unset, Unset;
    var cur := 0;
    for b := 0 to |nblocks|
      invariant cur == Before(nblocks, b) && end == Unset
      invariant !(1 <= toSteps <= b)
      invariant start == if 0 <= fromSteps < b then Set(Before(nblocks, fromSteps)) else Unset
    {
      if b == fromSteps { start := Set(cur); }
      cur := cur + nblocks[b];
      if b == toSteps - 1 {
        end := Set(cur);
        break;
      }
    }
  }
}
