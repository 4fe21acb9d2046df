/** Parsing the parts of an index: src/core/adios_bp_v1.c:187-1109. */
module BpParser {
  import opened Seqs
  import opened Outcomes
  import opened IndexRecords
  import opened Bytes
  import opened Types
  import opened Chunks
  import opened ReadBuffers
  import opened BpIndex

  /** Field i, a name after its length. */
  method ReadStr(b: ReadBuffer, ghost s: seq<byte>, ghost w: Endian, ghost cs: seq<seq<byte>>, ghost i: nat,
                 ghost t: seq<byte>)
    returns (str: seq<byte>)
    requires b.At(w, cs, i, t) && i < |cs| && cs[i] == Str(w, s)
    modifies b`offset
    ensures b.At(w, cs, i + 1, t) && str == Cut(s)
  {
    ghost var inner, rest := [Store(w, |s| % U16, 2), Cut(s)], Flat(cs[i + 1..]) + t;
    FlatTwo(inner[0], inner[1]);
    b.Enter(w, cs, i, t, inner);
    var len := b.Read16(|s| % U16, w, inner, 0, rest);
    str := b.Take(len, w, inner, 1, rest);
    b.Leave(w, cs, i, t, inner);
  }

  /** Field i, the code of a type. */
  method ReadType(b: ReadBuffer, ghost ty: Datatype, ghost w: Endian, ghost cs: seq<seq<byte>>, ghost i: nat,
                  ghost t: seq<byte>) returns (r: Datatype)
    requires b.At(w, cs, i, t) && i < |cs| && cs[i] == Store(w, TypeCode(ty), 1)
    modifies b`offset
    ensures b.At(w, cs, i + 1, t) && r == ty
  {
    Pow256Values();
    var flag := b.ReadWord(1, TypeCode(ty), w, cs, i, t);
    TypeCodeIsUnique(ty);
    r := TypeOfCode(flag);
  }

  // ---- Process groups.

  method ParsePgFields(b: ReadBuffer, ghost e: Pg, ghost w: Endian, ghost cs: seq<seq<byte>>, ghost t: seq<byte>)
    returns (r: Pg)
    requires PgFits(e) && IsPg(w, e, cs) && b.At(w, cs, 0, t)
    modifies b`offset
    ensures b.At(w, cs, 6, t) && r == PgRead(e)
  {
    var groupName := ReadStr(b, e.groupName, w, cs, 0, t);
    var fortran := ReadFlag(b, e.fortran, w, cs, 1, t);
    var processId := b.Read32(e.processId, w, cs, 2, t);
    var timeIndexName := ReadStr(b, OrEmpty(e.timeIndexName), w, cs, 3, t);
    var timeIndex := b.Read32(e.timeIndex, w, cs, 4, t);
    var offsetInFile := b.Read64(e.offsetInFile, w, cs, 5, t);
    r := Pg(groupName, fortran, processId, Some(timeIndexName), timeIndex, offsetInFile);
  }

  /** Field i, 'y' or 'n'. */
  method ReadFlag(b: ReadBuffer, ghost yes: bool, ghost w: Endian, ghost cs: seq<seq<byte>>, ghost i: nat,
                  ghost t: seq<byte>) returns (r: bool)
    requires b.At(w, cs, i, t) && i < |cs| && cs[i] == [if yes then YES else NO]
    modifies b`offset
    ensures b.At(w, cs, i + 1, t) && r == yes
  {
    var flag := b.Take(1, w, cs, i, t);
    r := flag[0] == YES;
  }

  /** Entry i. */
  method ParsePg(b: ReadBuffer, ghost e: Pg, ghost w: Endian, ghost cs: seq<seq<byte>>, ghost i: nat,
                 ghost t: seq<byte>) returns (r: Pg)
    requires PgFits(e) && b.At(w, cs, i, t) && i < |cs| && cs[i] == PgBytes(w, e)
    modifies b`offset
    ensures b.At(w, cs, i + 1, t) && r == PgRead(e)
  {
    ghost var fields := PgFields(w, e);
    b.ReadLength(2, |Flat(fields)|, w, cs, i, t, fields);
    PgIs(w, e);
    r := ParsePgFields(b, e, w, fields, Flat(cs[i + 1..]) + t);
    b.Leave(w, cs, i, t, fields);
  }

  method ParsePgs(b: ReadBuffer, count: nat, ghost es: seq<Pg>, ghost w: Endian, ghost cs: seq<seq<byte>>,
                  ghost t: seq<byte>) returns (pgs: seq<Pg>)
    requires PgsFit(es) && count == |es| && cs == PgChunks(w, es) && b.At(w, cs, 0, t)
    modifies b`offset
    ensures b.At(w, cs, |cs|, t) && pgs == PgsRead(es)
  {
    ghost var goal := PgsRead(es);
    pgs := [];
    for i := 0 to count
      invariant b.At(w, cs, i, t) && pgs == goal[..i]
    {
      var pg := ParsePg(b, es[i], w, cs, i, t);
      PrefixStep(goal, i);
      pgs := pgs + [pg];
    }
  }

  /** adios_parse_process_group_index_v1. */
  method ParsePgSection(b: ReadBuffer, ghost es: seq<Pg>, ghost w: Endian, ghost t: seq<byte>)
    returns (r: Result<seq<Pg>>)
    requires b.offset <= |b.buff| && (|b.buff| - b.offset >= 16 ==> PgsFit(es) && b.At(w, PgSectionFields(w, es), 0, t))
    modifies b`offset
    ensures r == if |b.buff| - old(b.offset) < 16 then Err else Ok(PgsRead(es))
    ensures r.Ok? ==> b.At(w, PgSectionFields(w, es), 3, t)
  {
    if |b.buff| - b.offset < 16 {
      return Err;
    }
    ghost var fields := PgSectionFields(w, es);
    ghost var cs := PgChunks(w, es);
    var count := b.Read64(|es|, w, fields, 0, t);
    var _ := b.Take(8, w, fields, 1, t);
    b.Enter(w, fields, 2, t, cs);
    var pgs := ParsePgs(b, count, es, w, cs, Flat(fields[3..]) + t);
    b.Leave(w, fields, 2, t, cs);
    return Ok(pgs);
  }

  // ---- Statistics.

  method ParseHistogram(b: ReadBuffer, ghost s: Stat, ghost w: Endian, ghost cs: seq<seq<byte>>, ghost i: nat,
                        ghost t: seq<byte>) returns (r: Stat)
    requires StatFits(TByte, STAT_HIST, s) && b.At(w, cs, i, t) && i < |cs| && cs[i] == Flat(HistogramFields(w, s))
    modifies b`offset
    ensures b.At(w, cs, i + 1, t) && r == s.(min := None)
  {
    ghost var fields, rest := HistogramFields(w, s), Flat(cs[i + 1..]) + t;
    Pow256Values();
    b.Enter(w, cs, i, t, fields);
    var numBreaks := b.Read32(|s.breaks|, w, fields, 0, rest);
    var max := b.Read64(s.min.value, w, fields, 1, rest);
    max := b.Read64(s.max, w, fields, 2, rest);
    var freqs := b.ReadWords(4, s.freqs, numBreaks + 1, w, fields, 3, rest);
    var breaks := b.ReadWords(8, s.breaks, numBreaks, w, fields, 4, rest);
    b.Leave(w, cs, i, t, fields);
    r := Histogram(None, max, freqs, breaks);
  }

  method ParseStat(b: ReadBuffer, ty: Datatype, id: nat, ghost s: Stat, ghost w: Endian, ghost cs: seq<seq<byte>>,
                   ghost i: nat, ghost t: seq<byte>)
    returns (r: Stat)
    requires StatFits(ty, id, s) && b.At(w, cs, i, t) && i < |cs| && cs[i] == StatBytes(w, ty, id, s)
    modifies b`offset
    ensures b.At(w, cs, i + 1, t) && r == StatRead(s)
  {
    if id == STAT_HIST {
      r := ParseHistogram(b, s, w, cs, i, t);
    } else {
      var n := b.ReadWord(StatSize(ty, id), s.n, w, cs, i, t);
      r := Number(n);
    }
  }

  /** One statistic for each bit of the bitmap. */
  method ParseStatSet(b: ReadBuffer, ty: Datatype, bitmap: nat, ghost stats: seq<Stat>, ghost w: Endian,
                      ghost cs: seq<seq<byte>>, ghost t: seq<byte>)
    returns (r: seq<Stat>)
    requires StatSetFits(ty, bitmap, stats) && cs == StatChunks(w, ty, Bits(bitmap, 0), stats) && b.At(w, cs, 0, t)
    modifies b`offset
    ensures b.At(w, cs, |cs|, t) && r == StatSetRead(stats)
  {
    ghost var ids := Bits(bitmap, 0);
    ghost var goal := StatSetRead(stats);
    r := [];
    var rest, k, idx := bitmap, 0, 0;
    while rest != 0  // bitmap >> k
      invariant BitsLeft(ids, idx, rest, k) && b.At(w, cs, idx, t) && r == goal[..idx]
      decreases rest
    {
      NextBit(ids, idx, rest, k);
      if rest % 2 == 1 {
        var stat := ParseStat(b, ty, k, stats[idx], w, cs, idx, t);
        PrefixStep(goal, idx);
        r, idx := r + [stat], idx + 1;
      }
      rest, k := rest / 2, k + 1;
    }
  }

  method ParseStats(b: ReadBuffer, ty: Datatype, bitmap: nat, ghost stats: seq<seq<Stat>>, ghost w: Endian,
                    ghost cs: seq<seq<byte>>, ghost t: seq<byte>)
    returns (r: seq<seq<Stat>>)
    requires StatsFit(ty, bitmap, stats) && cs == StatSets(w, ty, bitmap, stats) && b.At(w, cs, 0, t)
    modifies b`offset
    ensures b.At(w, cs, |cs|, t) && r == StatsRead(stats)
  {
    ghost var goal := StatsRead(stats);
    r := [];
    for c := 0 to StatSetCount(ty)
      invariant b.At(w, cs, c, t) && r == goal[..c]
    {
      ghost var inner, rest := StatChunks(w, ty, Bits(bitmap, 0), stats[c]), Flat(cs[c + 1..]) + t;
      b.Enter(w, cs, c, t, inner);
      var one := ParseStatSet(b, ty, bitmap, stats[c], w, inner, rest);
      b.Leave(w, cs, c, t, inner);
      PrefixStep(goal, c);
      r := r + [one];
    }
  }
}
