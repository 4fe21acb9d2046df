/** Sorting an index by time: adios_sort_index_v1, src/core/adios_internals.c:2439-2553. */
module IndexSort {
  import opened IndexRecords
  import opened StableSort

  const TIME: Characteristic -> nat := (r: Characteristic) => r.timeIndex

  /** Exchanges neighbours field by field; the variable id goes through a 16-bit temporary. */
  method SwapRecords(a: array<Characteristic>, j: nat)
    requires j + 1 < a.Length
    modifies a
    ensures a[..] == old(a[..])[j := old(a[j + 1])][j + 1 := old(a[j]).(varId := old(a[j]).varId % 0x1_0000)]
  {
    var tOffset, tDims, tVarId, tValue := a[j].offset, a[j].dims, a[j].varId % 0x1_0000, a[j].value;
    var tPayloadOffset, tFileIndex, tTimeIndex := a[j].payloadOffset, a[j].fileIndex, a[j].timeIndex;
    var tBitmap, tStats := a[j].bitmap, a[j].stats;
    var c := a[j + 1];
    a[j] := Characteristic(c.offset, c.payloadOffset, c.fileIndex, c.timeIndex, c.dims, c.bitmap, c.stats, c.value,
                           c.varId);
    a[j + 1] := Characteristic(tOffset, tPayloadOffset, tFileIndex, tTimeIndex, tDims, tBitmap, tStats, tValue, tVarId);
  }

  /** A later record belongs before this one. */
  ghost predicate Overtaken(s: seq<Characteristic>, i: nat)
    requires i < |s|
  {
    exists j | i < j < |s| :: s[j].timeIndex < s[i].timeIndex
  }

  /** The records with the ids of the overtaken ones cut to 16 bits. */
  ghost function Truncated(s: seq<Characteristic>): (r: seq<Characteristic>)
    ensures |r| == |s|
    ensures forall i | 0 <= i < |s| :: r[i] == if Overtaken(s, i) then s[i].(varId := s[i].varId % 0x1_0000) else s[i]
  {
    seq(|s|, i requires 0 <= i < |s| => if Overtaken(s, i) then s[i].(varId := s[i].varId % 0x1_0000) else s[i])
  }

  /** Sorting keeps whole records if and only if every overtaken record has an id below 2^16. */
  lemma WholeRecordsIff(s: seq<Characteristic>)
    ensures Truncated(s) == s <==> forall i | 0 <= i < |s| && Overtaken(s, i) :: s[i].varId < 0x1_0000
  {}

  /** From number m on, no record has a later one before it. */
  ghost predicate TailSorted(s: seq<Characteristic>, m: int) {
    forall p, q | 0 <= p < q < |s| && m <= q :: s[p].timeIndex <= s[q].timeIndex
  }

  /** Record j is the latest so far. */
  ghost predicate LatestAt(s: seq<Characteristic>, j: nat) {
    j < |s| && forall p | 0 <= p < j :: s[p].timeIndex <= s[j].timeIndex
  }

  /** Sorting the truncated records gives the same for both. */
  ghost predicate SameRecords(s: seq<Characteristic>, before: seq<Characteristic>) {
    SameKeys(Truncated(s), Truncated(before), TIME)
  }

  /** The bubble sort of a variable's characteristics: the stable sort of the records, ids of overtaken ones cut. */
  method SortCharacteristics(a: array<Characteristic>)
    modifies a
    ensures StablySorted(a[..], Truncated(old(a[..])), TIME)
  {
    var n := a.Length;
    for i := 0 to n
      invariant SameRecords(a[..], old(a[..])) && TailSorted(a[..], n - i)
    {
      Pass(a, n - i, old(a[..]));
    }
    AllSorted(a[..]);
  }

  /** One pass: the latest of the first m records moves to their end. */
  method Pass(a: array<Characteristic>, m: nat, ghost before: seq<Characteristic>)
    requires 0 < m <= a.Length && SameRecords(a[..], before) && TailSorted(a[..], m)
    modifies a
    ensures SameRecords(a[..], before) && TailSorted(a[..], m - 1)
  {
    for j := 0 to m - 1
      invariant SameRecords(a[..], before) && TailSorted(a[..], m) && LatestAt(a[..], j)
    {
      if a[j].timeIndex > a[j + 1].timeIndex {
        BubbleUp(a, j, m, before);
      } else {
        NextLatest(a[..], j);
      }
    }
    LatestLast(a[..], m);
  }

  lemma NextLatest(s: seq<Characteristic>, j: nat)
    requires LatestAt(s, j) && j + 1 < |s| && s[j].timeIndex <= s[j + 1].timeIndex
    ensures LatestAt(s, j + 1)
  {}

  lemma LatestLast(s: seq<Characteristic>, m: nat)
    requires 0 < m <= |s| && TailSorted(s, m) && LatestAt(s, m - 1)
    ensures TailSorted(s, m - 1)
  {}

  lemma AllSorted(s: seq<Characteristic>)
    requires TailSorted(s, 0)
    ensures Sorted(s, TIME) && Truncated(s) == s
  {}

  method BubbleUp(a: array<Characteristic>, j: nat, m: nat, ghost before: seq<Characteristic>)
    requires j + 1 < m <= a.Length && a[j].timeIndex > a[j + 1].timeIndex
    requires SameRecords(a[..], before) && TailSorted(a[..], m) && LatestAt(a[..], j)
    modifies a
    ensures SameRecords(a[..], before) && TailSorted(a[..], m) && LatestAt(a[..], j + 1)
  {
    ghost var s := a[..];
    SwapRecords(a, j);
    assert a[..] == Swapped(s, j);
    SwapStays(s, j, m);
    SwapSameRecords(s, j, before);
  }

  lemma SwapStays(s: seq<Characteristic>, j: nat, m: nat)
    requires j + 1 < m <= |s| && s[j].timeIndex > s[j + 1].timeIndex && TailSorted(s, m) && LatestAt(s, j)
    ensures TailSorted(Swapped(s, j), m) && LatestAt(Swapped(s, j), j + 1)
  {
    var s' := Swapped(s, j);
    forall p, q | 0 <= p < q < |s| && m <= q ensures s'[p].timeIndex <= s'[q].timeIndex {
      assert s'[p].timeIndex == s[Other(j, p)].timeIndex && s'[q].timeIndex == s[q].timeIndex;
    }
  }

  lemma SwapSameRecords(s: seq<Characteristic>, j: nat, before: seq<Characteristic>)
    requires j + 1 < |s| && s[j].timeIndex > s[j + 1].timeIndex && SameRecords(s, before)
    ensures SameRecords(Swapped(s, j), before)
  {
    var t := Truncated(s);
    TruncatedSwap(s, j);
    assert TIME(t[j]) != TIME(t[j + 1]);
    SwapSame(t, j, TIME);
    SameSame(Truncated(Swapped(s, j)), t, Truncated(before), TIME);
  }

  ghost function Swapped(s: seq<Characteristic>, j: nat): seq<Characteristic>
    requires j + 1 < |s|
  {
    s[j := s[j + 1]][j + 1 := s[j].(varId := s[j].varId % 0x1_0000)]
  }

  /** A swap through the 16-bit temporary is a plain swap of the truncated records. */
  lemma TruncatedSwap(s: seq<Characteristic>, j: nat)
    requires j + 1 < |s| && s[j].timeIndex > s[j + 1].timeIndex
    ensures var t := Truncated(s); Truncated(Swapped(s, j)) == t[j := t[j + 1]][j + 1 := t[j]]
  {
    var s', t := Swapped(s, j), Truncated(s);
    forall i | 0 <= i < |s| ensures Truncated(s')[i] == t[j := t[j + 1]][j + 1 := t[j]][i] {
      OvertakenAfterSwap(s, j, i);
    }
  }

  function Other(j: nat, m: nat): nat {
    if m == j then j + 1 else if m == j + 1 then j else m
  }

  lemma OvertakenAfterSwap(s: seq<Characteristic>, j: nat, i: nat)
    requires j + 1 < |s| && s[j].timeIndex > s[j + 1].timeIndex && i < |s|
    ensures i != j && i != j + 1 ==> (Overtaken(Swapped(s, j), i) <==> Overtaken(s, i))
    ensures Overtaken(Swapped(s, j), j) <==> Overtaken(s, j + 1)
    ensures Overtaken(s, j)
  {
    if i != j && i != j + 1 {
      OvertakenMoves(s, Swapped(s, j), j, i);
      OvertakenMoves(Swapped(s, j), s, j, i);
    }
    OvertakenFirst(s, j);
  }

  lemma OvertakenFirst(s: seq<Characteristic>, j: nat)
    requires j + 1 < |s| && s[j].timeIndex > s[j + 1].timeIndex
    ensures Overtaken(Swapped(s, j), j) <==> Overtaken(s, j + 1)
  {
    var s' := Swapped(s, j);
    if Overtaken(s', j) {
      var m :| j < m < |s'| && s'[m].timeIndex < s'[j].timeIndex;
      assert s[m].timeIndex < s[j + 1].timeIndex;
    }
    if Overtaken(s, j + 1) {
      var m :| j + 1 < m < |s| && s[m].timeIndex < s[j + 1].timeIndex;
      assert s'[m].timeIndex < s'[j].timeIndex;
    }
  }

  lemma OvertakenMoves(s: seq<Characteristic>, s': seq<Characteristic>, j: nat, i: nat)
    requires j + 1 < |s| == |s'| && i < |s| && i != j && i != j + 1
    requires forall m | 0 <= m < |s| :: s[m].timeIndex == s'[Other(j, m)].timeIndex
    ensures Overtaken(s, i) ==> Overtaken(s', i)
  {}
}
