/**
 Inputs on which the code departs from what it is meant to do; the exact conditions are proved beside each operation.
 */
module Counterexamples {
  import opened Outcomes
  import opened Bytes
  import opened Types
  import opened IndexRecords
  import opened BpIndex
  import opened BpVar
  import opened BpVarSize
  import opened BpVarParser
  import opened BpDefine
  import opened BpVarCharParser
  import opened BpFile
  import opened BpSurvival
  import opened BlockIndex
  import opened FindBlocks
  import opened IndexMerge
  import opened IndexKeys
  import opened IndexSort
  import opened Intersection
  import opened PgSortRuns

  /** An intersection that starts at 2^31 is reported at a place far outside both segments. */
  lemma SegmentBeyondInt()
    ensures var r := IntersectSegments(0x8000_0000, 2, 0x8000_0000, 1); r != Overlap(0x8000_0000, 2, 0x8000_0000, 1)
  {}

  /** Two blocks with an empty step between them: the second one gets the number of a step that has no blocks. */
  lemma BlockAfterEmptyStep()
    ensures Tag([1, 0, 1], 0, 1) == (1, 0) && Numbers([1, 0, 1], 2, 0, 1) && !TagRight([1, 0, 1], 0, 1)
  {
    assert Tag([1, 0, 1], 0, 0) == (0, 0);
    assert Before([1, 0, 1], 1) == 1 && Before([1, 0, 1], 2) == 1;
  }

  /** A record that is overtaken in the sort loses the upper half of its variable id. */
  lemma IdLostInSort(late: Characteristic, early: Characteristic)
    requires late.varId == 0x1_0000 && early.timeIndex < late.timeIndex
    ensures Truncated([late, early])[0].varId == 0
  {
    assert [late, early][1].timeIndex < [late, early][0].timeIndex;
  }

  /** The second group is earlier than the first: the sort ends, but with a cycle in place of a list. */
  lemma SortMakesCycle()
    ensures exists n :: Ends([1, -1], 0, [5, 3], n)
    ensures forall n, l :: !EndsWithList([1, -1], 0, [5, 3], n, l)
  {
    var ids := [0, 1];
    assert Input([1, -1], 0, [5, 3], ids);
    assert !NoneEarlier([5, 3], ids) by { assert [5, 3][ids[1]] < [5, 3][ids[0]]; }
    EndsIff([1, -1], 0, [5, 3], ids);
    SortsIff([1, -1], 0, [5, 3], ids);
  }

  /** With a third group that is not earlier than the first, the sort does not end. */
  lemma SortRunsForever()
    ensures forall n :: !Ends([1, 2, -1], 0, [5, 3, 7], n)
  {
    var ids := [0, 1, 2];
    assert Input([1, 2, -1], 0, [5, 3, 7], ids);
    assert !EarlyOnesLast([5, 3, 7], ids) by { assert [5, 3, 7][ids[1]] < [5, 3, 7][ids[0]] <= [5, 3, 7][ids[2]]; }
    EndsIff([1, 2, -1], 0, [5, 3, 7], ids);
  }

  /**
   Local dimension 7, global dimension 10, offset 0: the dimension list in the header has the time dimension for the
   last two; the characteristics have all three numbers.
   */
  lemma GlobalNumberLost()
    ensures var d := ParseDimension(Names(None, map[], map[]), Some([55]), Some([49, 48]), Some([48]));
      && d == Defined(Dim(DimItem(7, None, None, No), DimItem(10, None, None, Unknown),
                          DimItem(0, None, None, Unknown)))
      && DimsRead([d.value]) == [DimTriple(DimRead(7, 0, false), DimRead(0, 0, true), DimRead(0, 0, true))]
      && Extents([d.value]) == [7, 10, 0]
  {
    assert Extents([]) == [];
    assert Decimal([]) == 0;
    assert [55][..0] == [] && [48][..0] == [] && [49][..0] == [] && [49, 48][..1] == [49];
    assert Decimal([55]) == 7 && Decimal([48]) == 0 && Decimal([49]) == 1 && Decimal([49, 48]) == 10;
  }

  /** Variables b/c under a, and c under a/b: one key, so the second one loses its entry to the first. */
  lemma SharedKey(e: Entry, f: Entry)
    requires e.path == [97] && e.name == [98, SLASH, 99] && f.path == [97, SLASH, 98] && f.name == [99]
    requires e.groupName == f.groupName
    ensures MergeAll([], [e, f]) == [Joined(e, f)] && ScanAll([], [e, f]) == [e, f]
  {
    assert e.Name() == [97, SLASH, 98, SLASH, 99] == f.Name();
    assert [e, f][1..] == [f] && [f][1..] == [] && [e][1..] == [];
    assert MergeOne([], e) == [e] && MergeOne([e], f) == [Joined(e, f)];
    assert ScanOne([], e) == [e] && ScanOne([e], f) == [e] + ScanOne([], f);
    assert MergeAll([], [e, f]) == MergeAll([e], [f]) == MergeAll([Joined(e, f)], []);
    assert ScanAll([], [e, f]) == ScanAll([e], [f]) == ScanAll([e, f], []);
  }

  /** A variable whose header has 2^16 bytes: the calculated overhead is 0. */
  lemma HeaderTooLong(v: Var)
    requires VarFits(v) && v.dims == [] && |v.name| == 0x1_0000 - 26 && v.path == []
    ensures HeaderSize(v) == U16 && HeaderSize(v) % U16 == 0
  {
    assert DimsSize(v.dims) == 0;
  }

  /** Statistics in the header of a variable of type double, between machines of different order. */
  lemma CountInHeader()
    ensures StatInHeader(Little, Big, TDouble, STAT_CNT, Number(3)) == None
    ensures forall n | 0 <= n < Pow256(8) :: Survives(Little, Big, TDouble, STAT_SUM, n)
  {
    BpVarCharParser.StatsSurviveIff(Little, Big, TDouble, STAT_SUM);
  }

  /** An index with one variable that has one record. */
  function OneRecord(t: Datatype, c: Characteristic): Index {
    Index([], [Entry(1, [], [], [], t, [c])], [])
  }

  lemma OneRecordFits(t: Datatype, c: Characteristic)
    requires SetFits(OfVar, t, c)
    ensures IndexFits(OneRecord(t, c))
  {}

  lemma OneRecordSpoilt(w: Endian, host: Endian, t: Datatype, c: Characteristic)
    requires SetFits(OfVar, t, c) && !SetKept(w, host, OfVar, t, c)
    ensures IndexRead(w, host, OneRecord(t, c)) != OneRecord(t, c)
  {
    var index := OneRecord(t, c);
    OneRecordFits(t, c);
    IndexSurvivesIff(w, host, index);
    assert !EntryKept(w, host, OfVar, index.vars[0]) by { assert index.vars[0].chars[0] == c; }
  }

  /** Bit 5 of the bitmap: a histogram. */
  const HISTOGRAM_ONLY: nat := 32

  /** An index with a histogram does not come back as it was, whoever writes and reads it. */
  lemma HistogramMinimum(w: Endian, host: Endian, s: Stat)
    requires StatFits(TDouble, STAT_HIST, s)
    ensures var c := Characteristic(0, 0, 0, 0, [1, 1, 0], HISTOGRAM_ONLY, [[s]], None, 0);
      IndexFits(OneRecord(TDouble, c)) && IndexRead(w, host, OneRecord(TDouble, c)) != OneRecord(TDouble, c)
  {
    var c := Characteristic(0, 0, 0, 0, [1, 1, 0], HISTOGRAM_ONLY, [[s]], None, 0);
    HistogramBit();
    assert ArrayItems(TDouble, c) == [Dimensions(c.dims), Bitmap(c.bitmap), Stats(c.bitmap, c.stats)];
    assert StatSetFits(TDouble, HISTOGRAM_ONLY, [s]);
    OneRecordFits(TDouble, c);
    OneRecordSpoilt(w, host, TDouble, c);
  }

  lemma HistogramBit()
    ensures Bits(HISTOGRAM_ONLY, 0) == [STAT_HIST]
  {
    assert Bits(1, 5) == [5] + Bits(0, 6) == [5];
    assert Bits(2, 4) == [] + Bits(1, 5) == [5];
    assert Bits(4, 3) == [] + Bits(2, 4) == [5];
    assert Bits(8, 2) == [] + Bits(4, 3) == [5];
    assert Bits(16, 1) == [] + Bits(8, 2) == [5];
    assert Bits(32, 0) == [] + Bits(16, 1) == [5];
  }

  /** The complex number 1, written by a little-endian machine and read by a big-endian one. */
  lemma ComplexOne()
    ensures var c := Characteristic(0, 0, 0, 0, [], 0, [], Some(Pair(1, 0)), 0);
      IndexFits(OneRecord(TComplex, c)) && IndexRead(Little, Big, OneRecord(TComplex, c)) != OneRecord(TComplex, c)
  {
    var c := Characteristic(0, 0, 0, 0, [], 0, [], Some(Pair(1, 0)), 0);
    Pow256Values();
    assert SetFits(OfVar, TComplex, c);
    OneIsNoPalindrome();
    OneRecordFits(TComplex, c);
    OneRecordSpoilt(Little, Big, TComplex, c);
  }

  lemma OneIsNoPalindrome()
    ensures !Palindrome(1, 4)
  {
    Ones(4);
    assert LowBytes(1, 4)[3] == 0 && Rev(LowBytes(1, 4))[3] == LowBytes(1, 4)[0] == 1;
  }
}
