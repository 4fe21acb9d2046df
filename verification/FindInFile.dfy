/** adios_find_intersecting_pgs on an open file, through its info cache: src/core/adios_read_ext.c:164-256. */
module FindInFile {
  import opened BlockIndex
  import opened Selections
  import opened FindBlocks
  import opened InfoCache

  /** What a variable info says of the blocks of a variable: how many each step has, and the box of each. */
  datatype Layout = Layout(nblocks: seq<nat>, blocks: seq<Box>)

  /** The layout has the requested steps, and the selection suits its blocks. */
  ghost predicate Searchable(l: Layout, sel: Selection, fromStep: nat, nsteps: nat) {
    && 0 < nsteps && fromStep + nsteps <= |l.nblocks| && |l.blocks| == Before(l.nblocks, |l.nblocks|)
    && forall b | b in l.blocks :: InReach(b, sel)
  }

  /** The blocks of the requested steps that meet the selection, exactly. */
  ghost predicate FoundIn(found: seq<PgIntersection>, l: Layout, sel: Selection, fromStep: nat, nsteps: nat)
    requires Searchable(l, sel, fromStep, nsteps)
  {
    && Before(l.nblocks, fromStep + nsteps) <= |l.blocks|
    && Found(found, Before(l.nblocks, fromStep), Before(l.nblocks, fromStep + nsteps), l.blocks, sel, l.nblocks,
             fromStep)
  }

  /** The file is switched to the logical view for the inquiry, and back; the inquiry may be answered by the cache. */
  method FindPgsInFile(f: File, cache: InfoCache, varid: nat, layout: VarInfo -> Layout, sel: Selection, fromStep: nat,
                       nsteps: nat)
    returns (found: seq<PgIntersection>)
    requires cache.Valid() && cache.Coherent(f) && f.inqVar(Logical, varid).Some?
    requires Searchable(layout(f.inqVar(Logical, varid).value), sel, fromStep, nsteps)
    modifies f`view, cache, cache.physical, cache.logical
    ensures f.view == old(f.view) && cache.Valid() && cache.Coherent(f)
    ensures FoundIn(found, layout(f.inqVar(Logical, varid).value), sel, fromStep, nsteps)
  {
    var oldView := f.view;
    f.view := Logical;
    var info := cache.InqVarinfo(f, varid);
    f.view := oldView;
    var l := layout(info.value);
    found := FindIntersectingPgs(l.nblocks, l.blocks, sel, fromStep, nsteps);
  }
}
