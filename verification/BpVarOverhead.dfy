/** The sizes that are calculated are the sizes of what is written. */
module BpVarOverhead {
  import opened IndexRecords
  import opened Bytes
  import opened Types
  import opened Chunks
  import opened BpIndex
  import opened BpVar
  import opened BpVarSize

  // ---- Dimensions.

  lemma DimLength(w: Endian, d: Dim)
    ensures |Flat(DimFields(w, d))| == DimSize(d)
  {
    FlatThree(DimItemBytes(w, d.local), DimItemBytes(w, d.global), DimItemBytes(w, d.offset));
  }

  lemma {:induction false} DimsLength(w: Endian, dims: seq<Dim>)
    ensures |Flat(DimChunks(w, dims))| == DimsSize(dims)
  {
    if dims != [] {
      var k := |dims| - 1;
      var cs, front := DimChunks(w, dims), DimChunks(w, dims[..k]);
      DimsLength(w, dims[..k]);
      assert cs[..k] == front && cs[..k + 1] == cs;
      FlatStep(cs, k);
      DimLength(w, dims[k]);
    }
  }

  lemma DimListLength(w: Endian, dims: seq<Dim>)
    ensures |Flat(DimListFields(w, dims))| == 3 + DimsSize(dims)
  {
    var cs := DimListFields(w, dims);
    FlatThree(cs[0], cs[1], cs[2]);
    DimsLength(w, dims);
  }

  predicate PlainOffset(d: Dim) {
    d.offset.attr.Some? ==> d.offset.var_.Some? || d.offset.time != No
  }

  /**
   The length stored with the dimensions is the number of their bytes exactly when no local offset is an attribute with
   the flag `No`.
   */
  lemma {:induction false} DimsSizeExactIff(dims: seq<Dim>)
    ensures CalcDimsSize(dims) >= DimsSize(dims)
    ensures CalcDimsSize(dims) == DimsSize(dims) <==> forall i | 0 <= i < |dims| :: PlainOffset(dims[i])
  {
    if dims != [] {
      var k := |dims| - 1;
      var front := dims[..k];
      DimsSizeExactIff(front);
      assert (forall i | 0 <= i < k :: PlainOffset(front[i])) <==> forall i | 0 <= i < k :: PlainOffset(dims[i]);
    }
  }

  // ---- Statistics.

  lemma StatLengthExact(w: Endian, t: Datatype, id: nat, s: Stat)
    requires StatFits(t, id, s)
    ensures |StatBytes(w, t, id, s)| == StatLength(t, id, s)
  {
    if id == STAT_HIST {
      var cs := HistogramFields(w, s);
      WordsLength(w, s.freqs, 4);
      WordsLength(w, s.breaks, 8);
      FlatStep(cs, 0);
      FlatStep(cs, 1);
      FlatStep(cs, 2);
      FlatStep(cs, 3);
      FlatStep(cs, 4);
      assert cs[..5] == cs;
    }
  }

  lemma StatChunkLength(w: Endian, t: Datatype, ids: seq<nat>, stats: seq<Stat>, k: nat)
    requires k < |ids| == |stats| && StatFits(t, ids[k], stats[k])
    ensures |StatChunks(w, t, ids, stats)[k]| == StatLength(t, ids[k], stats[k])
  {
    StatLengthExact(w, t, ids[k], stats[k]);
  }

  lemma {:induction false} StatSetLength(w: Endian, t: Datatype, ids: seq<nat>, stats: seq<Stat>, k: nat)
    requires k <= |ids| == |stats| && forall i | 0 <= i < |ids| :: StatFits(t, ids[i], stats[i])
    ensures |Flat(StatChunks(w, t, ids, stats)[..k])| == StatSetSize(t, ids, stats, k)
  {
    if k > 0 {
      var cs := StatChunks(w, t, ids, stats);
      StatSetLength(w, t, ids, stats, k - 1);
      FlatStep(cs, k - 1);
      StatChunkLength(w, t, ids, stats, k - 1);
    }
  }

  lemma WholeStatSet(w: Endian, t: Datatype, bitmap: nat, stats: seq<Stat>)
    requires StatSetFits(t, bitmap, stats)
    ensures var ids := Bits(bitmap, 0); |Flat(StatChunks(w, t, ids, stats))| == StatSetSize(t, ids, stats, |ids|)
  {
    var ids := Bits(bitmap, 0);
    StatSetLength(w, t, ids, stats, |ids|);
    assert StatChunks(w, t, ids, stats)[..|ids|] == StatChunks(w, t, ids, stats);
  }

  /** Without histograms all sets have the same size. */
  lemma {:induction false} SameSize(t: Datatype, ids: seq<nat>, a: seq<Stat>, b: seq<Stat>, k: nat)
    requires k <= |a| == |b| == |ids| && STAT_HIST !in ids
    ensures StatSetSize(t, ids, a, k) == StatSetSize(t, ids, b, k)
  {
    if k > 0 {
      SameSize(t, ids, a, b, k - 1);
      assert ids[k - 1] in ids;
    }
  }

  lemma OneSet(w: Endian, t: Datatype, bitmap: nat, stats: seq<seq<Stat>>)
    requires StatsFit(t, bitmap, stats) && |stats| == 1
    ensures var ids := Bits(bitmap, 0);
      |Flat(StatSets(w, t, bitmap, stats))| == StatSetSize(t, ids, stats[0], |ids|)
  {
    var cs := StatSets(w, t, bitmap, stats);
    assert cs == [cs[0]];
    FlatOne(cs[0]);
    WholeStatSet(w, t, bitmap, stats[0]);
  }

  lemma ThreeSets(w: Endian, t: Datatype, bitmap: nat, stats: seq<seq<Stat>>)
    requires StatsFit(t, bitmap, stats) && |stats| == 3 && STAT_HIST !in Bits(bitmap, 0)
    ensures var ids := Bits(bitmap, 0);
      |Flat(StatSets(w, t, bitmap, stats))| == 3 * StatSetSize(t, ids, stats[0], |ids|)
  {
    var cs, ids := StatSets(w, t, bitmap, stats), Bits(bitmap, 0);
    Sum3(cs);
    WholeStatSet(w, t, bitmap, stats[0]);
    WholeStatSet(w, t, bitmap, stats[1]);
    WholeStatSet(w, t, bitmap, stats[2]);
    SameSize(t, ids, stats[0], stats[1], |ids|);
    SameSize(t, ids, stats[0], stats[2], |ids|);
  }

  lemma StatSetsLength(w: Endian, v: Var)
    requires VarFits(v) && v.type_ != TString && v.dims != []
    ensures StatsFit(v.type_, v.bitmap, v.stats)
    ensures |Flat(StatSets(w, v.type_, v.bitmap, v.stats))| == AllSets(IsComplex(v.type_), StatsSize(v))
  {
    StatsThere(v);
    if IsComplex(v.type_) {
      ThreeSets(w, v.type_, v.bitmap, v.stats);
    } else {
      OneSet(w, v.type_, v.bitmap, v.stats);
    }
  }

  // ---- Characteristics.

  lemma DimensionsLength(w: Endian, dims: seq<Dim>)
    ensures |Flat(DimensionsFields(w, Extents(dims)))| == 3 + 24 * |dims|
  {
    var cs := DimensionsFields(w, Extents(dims));
    FlatThree(cs[0], cs[1], cs[2]);
    WordsLength(w, Extents(dims), 8);
  }

  lemma BitmapLength(w: Endian, t: Datatype, n: nat)
    requires n < U32
    ensures |ItemBytes(w, t, Bitmap(n))| == 5
  {
    FlatOne(Store(w, n, 4));
  }

  lemma ArrayCharsLength(w: Endian, v: Var)
    requires VarFits(v) && v.type_ != TString && v.dims != []
    ensures |Flat(CharChunks(w, v))| == 1 + (3 + 24 * |v.dims|) + 5 + 1 + AllSets(IsComplex(v.type_), StatsSize(v))
  {
    var items, cs := HeaderItems(v), CharChunks(w, v);
    assert items[0] == Dimensions(Extents(v.dims)) && items[1] == Bitmap(v.bitmap);
    assert items[2] == Stats(v.bitmap, v.stats);
    StatsThere(v);
    DimensionsLength(w, v.dims);
    BitmapLength(w, v.type_, v.bitmap);
    StatSetsLength(w, v);
    Sum3(cs);
  }

  lemma CharsLength(w: Endian, v: Var)
    requires VarFits(v)
    ensures |Flat(CharFields(w, v))| == CharsSize(v)
  {
    var cs := CharFields(w, v);
    FlatThree(cs[0], cs[1], cs[2]);
    if v.type_ != TString && v.dims != [] { ArrayCharsLength(w, v); }
  }

  // ---- The header.

  lemma StartLength(w: Endian, v: Var)
    ensures |Flat(StartFields(w, v))| == 10 + |v.name| % U16 + |v.path| % U16
  {
    Sum5(StartFields(w, v));
  }

  /** The calculated size, before it is cut to 16 bits, is the number of bytes of the header. */
  lemma HeaderSizeExact(w: Endian, v: Var)
    requires VarFits(v)
    ensures HeaderLength(w, v) == HeaderSize(v)
  {
    Sum3(HeaderParts(w, v));
    StartLength(w, v);
    DimListLength(w, v.dims);
    CharsLength(w, v);
  }
}
