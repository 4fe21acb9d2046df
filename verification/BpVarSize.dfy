/**
 * The size calculator: src/core/adios_internals.c:1914-2054. Each function there adds up in 16-bit words;
 * the sums here are cut to 16 bits when a function returns, which comes to the same.
 */
module BpVarSize {
  import opened IndexRecords
  import opened Types
  import opened BpIndex
  import opened BpVar

  // ---- Sizes.

  /** A dimension is a flag and a number or an id. */
  function ItemSize(i: DimItem): nat {
    if i.IsNumber() then 1 + 8 else 1 + 4
  }

  function DimSize(d: Dim): nat {
    ItemSize(d.local) + ItemSize(d.global) + ItemSize(d.offset)
  }

  function DimsSize(dims: seq<Dim>): nat {
    if dims == [] then 0 else DimsSize(dims[..|dims| - 1]) + DimSize(dims[|dims| - 1])
  }

  /** adios_get_stat_size. */
  function StatLength(t: Datatype, id: nat, s: Stat): nat {
    if id == STAT_HIST then (if s.Histogram? then 4 + 8 + 8 + 4 * (|s.breaks| + 1) + 8 * |s.breaks| else 0)
    else StatSize(t, id)
  }

  /** The first k statistics of a set. */
  function StatSetSize(t: Datatype, ids: seq<nat>, stats: seq<Stat>, k: nat): nat
    requires k <= |ids| == |stats|
  {
    if k == 0 then 0 else StatSetSize(t, ids, stats, k - 1) + StatLength(t, ids[k - 1], stats[k - 1])
  }

  /** Count and length, then the characteristics of an array: dimensions, bitmap, statistics. */
  function CharsSize(v: Var): nat
    requires VarFits(v)
  {
    if v.type_ == TString || v.dims == [] then 5
    else ArraySize(IsComplex(v.type_), StatsSize(v), |v.dims|)
  }

  /** Count and length, dimensions, bitmap, statistics. */
  function ArraySize(complex: bool, stats: nat, ndim: nat): nat {
    5 + (1 + (3 + 24 * ndim)) + (1 + 4) + (1 + AllSets(complex, stats))
  }

  /** Times adios_get_stat_set_count. */
  function AllSets(complex: bool, size: nat): nat {
    if complex then 3 * size else size
  }

  /** One set of statistics. */
  function StatsSize(v: Var): nat
    requires VarFits(v) && v.type_ != TString && v.dims != []
  {
    StatsThere(v);
    var ids := Bits(v.bitmap, 0);
    StatSetSize(v.type_, ids, v.stats[0], |ids|)
  }

  lemma StatsThere(v: Var)
    requires VarFits(v) && v.type_ != TString && v.dims != []
    ensures StatsFit(v.type_, v.bitmap, v.stats) && v.bitmap < U32
    ensures ItemFits(v.type_, Dimensions(Extents(v.dims)))
  {
    var items := HeaderItems(v);
    assert items[0] == Dimensions(Extents(v.dims)) && items[1] == Bitmap(v.bitmap);
    assert items[2] == Stats(v.bitmap, v.stats);
  }

  /** Length, id, name, path, type, flag; then the dimensions; then the characteristics. */
  function Together(name: nat, path: nat, dims: nat, chars: nat): nat {
    8 + (10 + name + path) + (3 + dims) + chars
  }

  function HeaderSize(v: Var): nat
    requires VarFits(v)
  {
    Together(|v.name| % U16, |v.path| % U16, DimsSize(v.dims), CharsSize(v))
  }

  // ---- Sums in 16 bits.

  lemma SameWord(x: nat, y: nat, q: int)
    requires x == y + U16 * q
    ensures x % U16 == y % U16
  {}

  /** What 16 bits keep of a number. */
  lemma WordIff(n: nat)
    ensures n % U16 <= n && (n % U16 == n <==> n < U16)
  {}

  lemma CharsWord(complex: bool, stat: nat, dims: nat)
    ensures (12 + AllSets(complex, stat % U16) + dims % U16) % U16 == (12 + AllSets(complex, stat) + dims) % U16
  {
    var s, d := stat / U16, dims / U16;
    assert stat == U16 * s + stat % U16 && dims == U16 * d + dims % U16;
    SameWord(12 + AllSets(complex, stat) + dims, 12 + AllSets(complex, stat % U16) + dims % U16,
             if complex then 3 * s + d else s + d);
  }

  lemma HeaderWord(k: nat, name: nat, path: nat, chars: nat)
    ensures (k + name + path + chars % U16) % U16 == (k + name % U16 + path % U16 + chars) % U16
  {
    var n, p, c := name / U16, path / U16, chars / U16;
    assert name == U16 * n + name % U16 && path == U16 * p + path % U16 && chars == U16 * c + chars % U16;
    SameWord(k + name + path + chars % U16, k + name % U16 + path % U16 + chars, n + p - c);
  }

  // ---- The calculator.

  /** adios_calc_var_characteristics_stat_overhead, before it is cut to 16 bits. */
  method SumStats(t: Datatype, bitmap: nat, stats: seq<Stat>) returns (sum: nat)
    requires StatSetFits(t, bitmap, stats)
    ensures var ids := Bits(bitmap, 0); sum == StatSetSize(t, ids, stats, |ids|)
  {
    ghost var ids := Bits(bitmap, 0);
    var rest, j, i := bitmap, 0, 0;
    sum := 0;
    while rest != 0  // bitmap >> j
      invariant BitsLeft(ids, i, rest, j) && sum == StatSetSize(t, ids, stats, i)
      decreases rest
    {
      NextBit(ids, i, rest, j);
      if rest % 2 == 1 {
        sum, i := sum + StatLength(t, j, stats[i]), i + 1;
      }
      rest, j := rest / 2, j + 1;
    }
    AllBits(ids, i, j);
  }

  /** adios_calc_var_characteristics_dims_overhead. */
  method CalcExtentsOverhead(dims: seq<Dim>) returns (overhead: nat)
    ensures overhead == (3 + 24 * |dims|) % U16
  {
    var sum := 1 + 2;
    for i := 0 to |dims|
      invariant sum == 3 + 24 * i
    {
      sum := sum + 8 + 8 + 8;
    }
    overhead := sum % U16;
  }

  /** Count and length, bitmap, statistics, dimensions. */
  method AddChars(complex: bool, stats: nat, dims: seq<Dim>) returns (overhead: nat)
    ensures overhead == ArraySize(complex, stats, |dims|) % U16
  {
    var extents := CalcExtentsOverhead(dims);
    overhead := ((1 + 4) + (1 + 4) + 1 + AllSets(complex, stats % U16) + 1 + extents) % U16;
    CharsWord(complex, stats, 3 + 24 * |dims|);
  }

  method CalcArrayCharsOverhead(v: Var) returns (overhead: nat)
    requires VarFits(v) && v.type_ != TString && v.dims != []
    ensures overhead == CharsSize(v) % U16
  {
    StatsThere(v);
    var sum := SumStats(v.type_, v.bitmap, v.stats[0]);
    overhead := AddChars(IsComplex(v.type_), sum, v.dims);
  }

  /** adios_calc_var_characteristics_overhead. */
  method CalcCharsOverhead(v: Var) returns (overhead: nat)
    requires VarFits(v)
    ensures overhead == CharsSize(v) % U16
  {
    if v.type_ != TString && |v.dims| != 0 {
      overhead := CalcArrayCharsOverhead(v);
    } else {
      overhead := 1 + 4;
    }
  }

  /** The loop over the dimensions in adios_calc_var_overhead_v1. */
  method CalcDimsOverhead(dims: seq<Dim>) returns (size: nat)
    ensures size == DimsSize(dims)
  {
    size := 0;
    for i := 0 to |dims|
      invariant size == DimsSize(dims[..i])
    {
      var d := dims[i];
      size := size + 1 + (if d.local.IsNumber() then 8 else 4);
      size := size + 1 + (if d.global.IsNumber() then 8 else 4);
      size := size + 1 + (if d.offset.IsNumber() then 8 else 4);
      assert dims[..i + 1][..i] == dims[..i];
    }
    assert dims[..|dims|] == dims;
  }

  method AddHeader(name: nat, path: nat, dims: nat, ghost all: nat, chars: nat) returns (overhead: nat)
    requires chars == all % U16
    ensures overhead == Together(name % U16, path % U16, dims, all) % U16
  {
    overhead := (8 + 4 + 2 + name + 2 + path + 1 + 1 + 1 + 2 + dims + chars) % U16;
    HeaderWord(21 + dims, name, path, all);
  }

  /** adios_calc_var_overhead_v1. */
  method CalcVarOverhead(v: Var) returns (overhead: nat)
    requires VarFits(v)
    ensures overhead == HeaderSize(v) % U16
  {
    var dims := CalcDimsOverhead(v.dims);
    var chars := CalcCharsOverhead(v);
    overhead := AddHeader(|v.name|, |v.path|, dims, CharsSize(v), chars);
  }
}
