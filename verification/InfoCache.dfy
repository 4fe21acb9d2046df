/** The cache of variable infos: src/core/adios_infocache.c. */
module InfoCache {
  import opened Outcomes

  datatype View = Physical | Logical

  datatype VarInfo = VarInfo(id: nat, tag: nat)
  datatype TransInfo = TransInfo(id: nat, tag: nat)

  /** An open file: the view inquiries are made in, and what the inquiries answer (nothing, when they fail). */
  class File {
    var view: View
    const inqVar: (View, nat) -> Option<VarInfo>
    const inqTrans: Option<VarInfo> -> Option<TransInfo>

    constructor (view: View, inqVar: (View, nat) -> Option<VarInfo>, inqTrans: Option<VarInfo> -> Option<TransInfo>)
      ensures this.view == view && this.inqVar == inqVar && this.inqTrans == inqTrans
    {
      this.view, this.inqVar, this.inqTrans := view, inqVar, inqTrans;
    }
  }

  const INITIAL_INFOCACHE_SIZE := 16

  function Max(a: nat, b: nat): nat { if a > b then a else b }

  /** The slots that are filled hold what a direct inquiry answers. */
  ghost predicate Faithful<T>(slots: seq<Option<T>>, direct: nat -> Option<T>) {
    forall i | 0 <= i < |slots| && slots[i].Some? :: slots[i] == direct(i)
  }

  class InfoCache {
    var capacity: nat
    var physical: array<Option<VarInfo>>
    var logical: array<Option<VarInfo>>
    var trans: array<Option<TransInfo>>

    ghost predicate Valid()
      reads this
    {
      physical.Length == logical.Length == trans.Length == capacity && physical != logical
    }

    /**
     Every filled slot agrees with a direct inquiry; a transform info comes with the physical info it was asked with.
     */
    ghost predicate Coherent(f: File)
      reads this, physical, logical, trans
      requires Valid()
    {
      && Faithful(physical[..], i => f.inqVar(Physical, i))
      && Faithful(logical[..], i => f.inqVar(Logical, i))
      && Faithful(trans[..], i => f.inqTrans(f.inqVar(Physical, i)))
      && forall i | 0 <= i < capacity && trans[i].Some? :: physical[i].Some? || f.inqTrans(None).Some?
    }

    constructor ()
      ensures Valid() && capacity == INITIAL_INFOCACHE_SIZE
      ensures fresh(physical) && fresh(logical) && fresh(trans)
      ensures forall i | 0 <= i < capacity :: physical[i] == None && logical[i] == None && trans[i] == None
    {
      capacity := INITIAL_INFOCACHE_SIZE;
      physical := new Option<VarInfo>[INITIAL_INFOCACHE_SIZE](_ => None);
      logical := new Option<VarInfo>[INITIAL_INFOCACHE_SIZE](_ => None);
      trans := new Option<TransInfo>[INITIAL_INFOCACHE_SIZE](_ => None);
    }

    static method Resize<T(0)>(a: array<Option<T>>, newcap: nat) returns (b: array<Option<T>>)
      requires a.Length <= newcap
      ensures fresh(b) && b.Length == newcap && b[..a.Length] == a[..]
      ensures forall i | a.Length <= i < newcap :: b[i] == None
    {
      b := new Option<T>[newcap](_ => None);
      forall i | 0 <= i < a.Length { b[i] := a[i]; }
    }

    /** expand_infocache: more slots, all old entries kept, all new ones empty. */
    method Expand(varCapacity: nat)
      requires Valid()
      modifies this
      ensures Valid() && capacity >= varCapacity && capacity >= 2 * old(capacity)
      ensures fresh(physical) && fresh(logical) && fresh(trans)
      ensures forall i | 0 <= i < old(capacity) ::
        physical[i] == old(physical[i]) && logical[i] == old(logical[i]) && trans[i] == old(trans[i])
      ensures forall i | old(capacity) <= i < capacity :: physical[i] == None && logical[i] == None && trans[i] == None
    {
      var newcap := Max(Max(capacity * 2, varCapacity), INITIAL_INFOCACHE_SIZE);
      physical := Resize(physical, newcap);
      logical := Resize(logical, newcap);
      trans := Resize(trans, newcap);
      capacity := newcap;
    }

    /** The arrays are the old ones or new ones. */
    twostate predicate SameOrNew()
      reads this
    {
      && (physical == old(physical) || fresh(physical)) && (logical == old(logical) || fresh(logical))
      && (trans == old(trans) || fresh(trans))
    }

    /** Makes room for a variable. */
    method Reserve(f: File, varid: nat)
      requires Valid() && Coherent(f)
      modifies this
      ensures Valid() && Coherent(f) && varid < capacity && SameOrNew()
    {
      if varid >= capacity { Expand(varid + 1); }
    }

    /** adios_infocache_inq_varinfo: the answer of a direct inquiry in the file's view. */
    method InqVarinfo(f: File, varid: nat) returns (r: Option<VarInfo>)
      requires Valid() && Coherent(f)
      modifies this, physical, logical
      ensures Valid() && Coherent(f) && varid < capacity && SameOrNew()
      ensures r == f.inqVar(f.view, varid)
      ensures f.view == Physical ==> physical[varid] == r
    {
      Reserve(f, varid);
      var varinfos := if f.view == Physical then physical else logical;
      if varinfos[varid].Some? {
        return varinfos[varid];
      }
      r := f.inqVar(f.view, varid);
      varinfos[varid] := r;
    }

    /** adios_infocache_inq_transinfo: asked with the physical info; the file's view is put back. */
    method InqTransinfo(f: File, varid: nat) returns (r: Option<TransInfo>)
      requires Valid() && Coherent(f)
      modifies this, physical, logical, trans, f`view
      ensures Valid() && Coherent(f) && varid < capacity && SameOrNew()
      ensures r == f.inqTrans(f.inqVar(Physical, varid))
      ensures f.view == old(f.view)
    {
      Reserve(f, varid);
      if trans[varid].Some? {
        return trans[varid];
      }
      var oldView := f.view;
      f.view := Physical;
      var vi := InqVarinfo(f, varid);
      f.view := oldView;
      r := f.inqTrans(vi);
      trans[varid] := r;
    }

    /** adios_infocache_invalidate: empties every slot, if a transform inquiry without a variable info fails. */
    method Invalidate(ghost f: File)
      requires Valid() && Coherent(f)
      modifies physical, logical, trans
      ensures Valid() && Coherent(f)
      ensures forall i | 0 <= i < capacity :: physical[i] == None && logical[i] == None
      ensures forall i | 0 <= i < capacity :: trans[i] == if old(physical[i]).Some? then None else old(trans[i])
      ensures f.inqTrans(None) == None ==> forall i | 0 <= i < capacity :: trans[i] == None
    {
      for i := 0 to capacity
        invariant forall j | 0 <= j < i :: physical[j] == None && logical[j] == None
        invariant forall j | 0 <= j < i :: trans[j] == if old(physical[j]).Some? then None else old(trans[j])
        invariant forall j | i <= j < capacity :: physical[j] == old(physical[j]) && trans[j] == old(trans[j])
      {
        if physical[i].Some? { trans[i] := None; }
        physical[i] := None;
        logical[i] := None;
      }
    }
  }
}
