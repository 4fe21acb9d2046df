/** The characteristics in the header of a variable: src/core/adios_bp_v1.c:1428-1680. */
module BpVarCharParser {
  import opened Seqs
  import opened Outcomes
  import opened IndexRecords
  import opened Bytes
  import opened Types
  import opened Chunks
  import opened ReadBuffers
  import opened BpIndex

  /** The first k bytes in reverse order. */
  function SwapFirst(s: seq<byte>, k: nat): (r: seq<byte>)
    requires k <= |s|
    ensures |r| == |s|
  {
    Rev(s[..k]) + s[k..]
  }

  /**
   * A statistic is swapped like an element of the variable, whatever its own size: too few bytes,
   * or bytes beyond its memory. Nothing is known of what comes out in the second case.
   */
  function StatInHeader(w: Endian, host: Endian, t: Datatype, id: nat, s: Stat): Option<Stat> {
    if s.Histogram? || w == host then Some(s)
    else if TypeSize(t) > StatSize(t, id) then None
    else Some(Number(Load(host, SwapFirst(Store(w, s.n, StatSize(t, id)), TypeSize(t)))))
  }

  /**
   Orders that differ: statistics of a kind survive, whatever their value, exactly when they have the size of an
   element.
   */
  lemma StatsSurviveIff(w: Endian, host: Endian, t: Datatype, id: nat)
    requires w != host && t != TString && id != STAT_HIST && id <= STAT_FINITE
    ensures (forall n | 0 <= n < Pow256(StatSize(t, id)) :: Survives(w, host, t, id, n)) <==>
      StatSize(t, id) == TypeSize(t)
  {
    if StatSize(t, id) == TypeSize(t) {
      forall n | 0 <= n < Pow256(StatSize(t, id)) ensures Survives(w, host, t, id, n) {
        SameSizeSurvives(w, host, t, id, n);
      }
    } else {
      PowAbove(StatSize(t, id));
      OtherSizeSpoils(w, host, t, id);
    }
  }

  ghost predicate Survives(w: Endian, host: Endian, t: Datatype, id: nat, n: nat) {
    StatInHeader(w, host, t, id, Number(n)) == Some(Number(n))
  }

  lemma SameSizeSurvives(w: Endian, host: Endian, t: Datatype, id: nat, n: nat)
    requires w != host && StatSize(t, id) == TypeSize(t) && n < Pow256(StatSize(t, id))
    ensures Survives(w, host, t, id, n)
  {
    var s := Store(w, n, TypeSize(t));
    assert SwapFirst(s, |s|) == Rev(s) by { assert s[..|s|] == s; }
    Mirrored(w, host, n, TypeSize(t));
  }

  lemma OtherSizeSpoils(w: Endian, host: Endian, t: Datatype, id: nat)
    requires w != host && t != TString && id != STAT_HIST && id <= STAT_FINITE && StatSize(t, id) != TypeSize(t)
    ensures !Survives(w, host, t, id, 1)
  {
    if TypeSize(t) < StatSize(t, id) { OneIsSpoilt(w, host, StatSize(t, id), TypeSize(t)); }
  }

  lemma {:induction false} PowAbove(n: nat)
    requires n > 0
    ensures Pow256(n) > 1
  {}

  /** The word 1, with too few of its bytes swapped. */
  lemma OneIsSpoilt(w: Endian, host: Endian, size: nat, k: nat)
    requires w != host && 0 < k < size
    ensures Load(host, SwapFirst(Store(w, 1, size), k)) != 1
  {
    var low := LowBytes(1, size);
    var s := SwapFirst(Store(w, 1, size), k);
    Ones(size);
    StoreLoad(host, s);
    assert Store(host, 1, size)[if host == Little then 0 else size - 1] == 1;
    if w == Little {
      assert s[size - 1] == low[size - 1] == 0;
    } else {
      assert s[size - 1] == 1;
      assert low[size - 1] == 0;
    }
  }

  lemma {:induction false} Ones(size: nat)
    requires size > 0
    ensures LowBytes(1, size)[0] == 1 && forall i | 1 <= i < size :: LowBytes(1, size)[i] == 0
  {
    LowBytesStep(1, size);
    Zeros(size - 1);
  }

  lemma {:induction false} Zeros(size: nat)
    ensures forall i | 0 <= i < size :: LowBytes(0, size)[i] == 0
  {
    if size > 0 {
      Zeros(size - 1);
      LowBytesStep(0, size);
    }
  }

  function StatSetInHeader(w: Endian, host: Endian, t: Datatype, ids: seq<nat>,
                           stats: seq<Stat>): (rs: seq<Option<Stat>>)
    requires |ids| == |stats|
    ensures |rs| == |stats|
  {
    seq(|stats|, i requires 0 <= i < |stats| => StatInHeader(w, host, t, ids[i], stats[i]))
  }

  function StatsInHeader(w: Endian, host: Endian, t: Datatype, bitmap: nat,
                         stats: seq<seq<Stat>>): (rs: seq<seq<Option<Stat>>>)
    requires StatsFit(t, bitmap, stats)
    ensures |rs| == |stats|
  {
    seq(|stats|, c requires 0 <= c < |stats| => StatSetInHeader(w, host, t, Bits(bitmap, 0), stats[c]))
  }

  method ParseHistogram(b: ReadBuffer, ghost s: Stat, ghost w: Endian, ghost cs: seq<seq<byte>>, ghost i: nat,
                        ghost t: seq<byte>) returns (r: Stat)
    requires StatFits(TByte, STAT_HIST, s) && b.At(w, cs, i, t) && i < |cs| && cs[i] == Flat(HistogramFields(w, s))
    modifies b`offset
    ensures b.At(w, cs, i + 1, t) && r == s
  {
    ghost var fields, rest := HistogramFields(w, s), Flat(cs[i + 1..]) + t;
    Pow256Values();
    b.Enter(w, cs, i, t, fields);
    var numBreaks := b.Read32(|s.breaks|, w, fields, 0, rest);
    var min := b.Read64(s.min.value, w, fields, 1, rest);
    var max := b.Read64(s.max, w, fields, 2, rest);
    var freqs := b.ReadWords(4, s.freqs, numBreaks + 1, w, fields, 3, rest);
    var breaks := b.ReadWords(8, s.breaks, numBreaks, w, fields, 4, rest);
    b.Leave(w, cs, i, t, fields);
    r := Histogram(Some(min), max, freqs, breaks);
  }

  method ParseNumber(b: ReadBuffer, ty: Datatype, id: nat, ghost n: nat, ghost w: Endian, ghost cs: seq<seq<byte>>,
                     ghost i: nat, ghost t: seq<byte>)
    returns (r: Option<Stat>)
    requires n < Pow256(StatSize(ty, id)) && b.At(w, cs, i, t) && i < |cs| && cs[i] == Store(w, n, StatSize(ty, id))
    modifies b`offset
    ensures b.At(w, cs, i + 1, t) && r == StatInHeader(w, b.host, ty, id, Number(n))
  {
    var data := b.Take(StatSize(ty, id), w, cs, i, t);
    var k := TypeSize(ty);
    if b.change && k > |data| {
      r := None;
    } else {
      if b.change {
        var first := SwapPtr(data[..k], b.host);
        data := first + data[k..];
      }
      r := Some(Number(Load(b.host, data)));
      LoadStore(b.host, n, StatSize(ty, id));
    }
  }

  method ParseHeaderStat(b: ReadBuffer, ty: Datatype, id: nat, ghost s: Stat, ghost w: Endian, ghost cs: seq<seq<byte>>,
                         ghost i: nat, ghost t: seq<byte>)
    returns (r: Option<Stat>)
    requires StatFits(ty, id, s) && b.At(w, cs, i, t) && i < |cs| && cs[i] == StatBytes(w, ty, id, s)
    modifies b`offset
    ensures b.At(w, cs, i + 1, t) && r == StatInHeader(w, b.host, ty, id, s)
  {
    if id == STAT_HIST {
      var h := ParseHistogram(b, s, w, cs, i, t);
      r := Some(h);
    } else {
      r := ParseNumber(b, ty, id, s.n, w, cs, i, t);
    }
  }

  method ParseHeaderStatSet(b: ReadBuffer, ty: Datatype, bitmap: nat, ghost stats: seq<Stat>, ghost w: Endian,
                            ghost cs: seq<seq<byte>>, ghost t: seq<byte>)
    returns (r: seq<Option<Stat>>)
    requires StatSetFits(ty, bitmap, stats) && cs == StatChunks(w, ty, Bits(bitmap, 0), stats) && b.At(w, cs, 0, t)
    modifies b`offset
    ensures b.At(w, cs, |cs|, t) && r == StatSetInHeader(w, b.host, ty, Bits(bitmap, 0), stats)
  {
    ghost var ids := Bits(bitmap, 0);
    ghost var goal := StatSetInHeader(w, b.host, ty, ids, stats);
    r := [];
    var rest, j, idx := bitmap, 0, 0;
    while rest != 0  // bitmap >> j
      invariant BitsLeft(ids, idx, rest, j) && b.At(w, cs, idx, t) && r == goal[..idx]
      decreases rest
    {
      NextBit(ids, idx, rest, j);
      if rest % 2 == 1 {
        var stat := ParseHeaderStat(b, ty, j, stats[idx], w, cs, idx, t);
        PrefixStep(goal, idx);
        r, idx := r + [stat], idx + 1;
      }
      rest, j := rest / 2, j + 1;
    }
    AllBits(ids, idx, j);
  }

  method ParseHeaderStats(b: ReadBuffer, ty: Datatype, bitmap: nat, ghost stats: seq<seq<Stat>>, ghost w: Endian,
                          ghost cs: seq<seq<byte>>, ghost t: seq<byte>)
    returns (r: seq<seq<Option<Stat>>>)
    requires StatsFit(ty, bitmap, stats) && cs == StatSets(w, ty, bitmap, stats) && b.At(w, cs, 0, t)
    modifies b`offset
    ensures b.At(w, cs, |cs|, t) && r == StatsInHeader(w, b.host, ty, bitmap, stats)
  {
    ghost var goal := StatsInHeader(w, b.host, ty, bitmap, stats);
    r := [];
    for c := 0 to StatSetCount(ty)
      invariant b.At(w, cs, c, t) && r == goal[..c]
    {
      ghost var inner, rest := StatChunks(w, ty, Bits(bitmap, 0), stats[c]), Flat(cs[c + 1..]) + t;
      b.Enter(w, cs, c, t, inner);
      var one := ParseHeaderStatSet(b, ty, bitmap, stats[c], w, inner, rest);
      b.Leave(w, cs, c, t, inner);
      PrefixStep(goal, c);
      r := r + [one];
    }
  }
}
