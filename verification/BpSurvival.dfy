/** Exactly which records come back unchanged. */
module BpSurvival {
  import opened Seqs
  import opened IndexRecords
  import opened Bytes
  import opened Types
  import opened Chunks
  import opened BpIndex
  import opened BpFile

  lemma NameSurvivesIff(s: seq<byte>)
    ensures Cut(s) == s <==> |s| < U16
  {}

  lemma PgSurvivesIff(e: Pg)
    ensures PgRead(e) == e <==> |e.groupName| < U16 && e.timeIndexName.Some? && |e.timeIndexName.value| < U16
  {
    NameSurvivesIff(e.groupName);
    NameSurvivesIff(OrEmpty(e.timeIndexName));
  }

  /** A word whose bytes are the same from both ends. */
  predicate Palindrome(n: nat, size: nat) {
    LowBytes(n, size) == Rev(LowBytes(n, size))
  }

  lemma UnswappedIff(w: Endian, host: Endian, n: nat, size: nat)
    requires n < Pow256(size)
    ensures Load(host, Store(w, n, size)) == n <==> w == host || Palindrome(n, size)
  {
    var low := LowBytes(n, size);
    RevRev(low);
    LoadStore(host, n, size);
    StoreLoad(host, Store(w, n, size));
    if Load(host, Store(w, n, size)) == n { assert Store(host, n, size) == Store(w, n, size); }
  }

  /** Both halves of a complex number look the same from both ends, or the orders are the same. */
  predicate PairKept(w: Endian, host: Endian, size: nat, re: nat, im: nat) {
    w == host || (Palindrome(re, size) && Palindrome(im, size))
  }

  predicate ValueKept(w: Endian, host: Endian, t: Datatype, v: Value) {
    match v
    case Word(_) => true
    case Text(bytes) => |bytes| < U16
    case Pair(re, im) => PairKept(w, host, TypeSize(t) / 2, re, im)
  }

  lemma PairSurvivesIff(w: Endian, host: Endian, size: nat, re: nat, im: nat)
    requires re < Pow256(size) && im < Pow256(size)
    ensures Load(host, Store(w, re, size)) == re && Load(host, Store(w, im, size)) == im <==>
      PairKept(w, host, size, re, im)
  {
    UnswappedIff(w, host, re, size);
    UnswappedIff(w, host, im, size);
  }

  lemma ValueSurvivesIff(w: Endian, host: Endian, t: Datatype, v: Value)
    requires ValueFits(t, v)
    ensures ValueRead(w, host, t, v) == v <==> ValueKept(w, host, t, v)
  {
    match v
    case Word(_) =>
    case Text(bytes) => NameSurvivesIff(bytes);
    case Pair(re, im) => PairSurvivesIff(w, host, TypeSize(t) / 2, re, im);
  }

  predicate NoHistogram(bitmap: nat) {
    STAT_HIST !in Bits(bitmap, 0)
  }

  lemma StatSetSurvivesIff(t: Datatype, bitmap: nat, stats: seq<Stat>)
    requires StatSetFits(t, bitmap, stats)
    ensures StatSetRead(stats) == stats <==> NoHistogram(bitmap)
  {}

  lemma StatsSurviveIff(t: Datatype, bitmap: nat, stats: seq<seq<Stat>>)
    requires StatsFit(t, bitmap, stats)
    ensures StatsRead(stats) == stats <==> NoHistogram(bitmap)
  {
    var rs := StatsRead(stats);
    forall c | 0 <= c < |stats| ensures rs[c] == stats[c] <==> NoHistogram(bitmap) {
      StatSetSurvivesIff(t, bitmap, stats[c]);
    }
    assert rs == stats ==> rs[0] == stats[0];
  }

  predicate ArrayKept(kind: Kind, t: Datatype, c: Characteristic) {
    if kind == OfVar && t != TString && c.dims != [] then NoHistogram(c.bitmap)
    else c.dims == [] && c.bitmap == 0 && c.stats == []
  }

  predicate OneValueKept(w: Endian, host: Endian, kind: Kind, t: Datatype, c: Characteristic) {
    if c.value.Some? then ValueKept(w, host, t, c.value.value) else kind == OfAttr || t != TString
  }

  /** A set has nothing that the file has no place for, and nothing that the parser spoils. */
  predicate SetKept(w: Endian, host: Endian, kind: Kind, t: Datatype, c: Characteristic) {
    ArrayKept(kind, t, c) && OneValueKept(w, host, kind, t, c) && (kind == OfVar ==> c.varId == 0)
  }

  lemma FitsParts(kind: Kind, t: Datatype, c: Characteristic)
    requires SetFits(kind, t, c)
    ensures c.value.Some? ==> ValueFits(t, c.value.value)
    ensures kind == OfVar && t != TString && c.dims != [] ==> StatsFit(t, c.bitmap, c.stats)
  {
    var items := Items(kind, t, c);
    if kind == OfVar {
      if t != TString && c.dims != [] { assert items[6] == Stats(c.bitmap, c.stats); }
      if c.value.Some? { assert items[|items| - 1] == ItemValue(c.value.value); }
    } else if c.value.Some? {
      assert items[4] == ItemValue(c.value.value);
    }
  }

  lemma ArraySurvivesIff(w: Endian, host: Endian, kind: Kind, t: Datatype, c: Characteristic)
    requires SetFits(kind, t, c)
    ensures var r := SetRead(w, host, kind, t, c); r.dims == c.dims && r.bitmap == c.bitmap && r.stats == c.stats <==>
      ArrayKept(kind, t, c)
  {
    if kind == OfVar && t != TString && c.dims != [] {
      FitsParts(kind, t, c);
      StatsSurviveIff(t, c.bitmap, c.stats);
    }
  }

  lemma OneValueSurvivesIff(w: Endian, host: Endian, kind: Kind, t: Datatype, c: Characteristic)
    requires SetFits(kind, t, c)
    ensures SetRead(w, host, kind, t, c).value == c.value <==> OneValueKept(w, host, kind, t, c)
  {
    if c.value.Some? {
      FitsParts(kind, t, c);
      ValueSurvivesIff(w, host, t, c.value.value);
    }
  }

  lemma SetSurvivesIff(w: Endian, host: Endian, kind: Kind, t: Datatype, c: Characteristic)
    requires SetFits(kind, t, c)
    ensures SetRead(w, host, kind, t, c) == c <==> SetKept(w, host, kind, t, c)
  {
    ArraySurvivesIff(w, host, kind, t, c);
    OneValueSurvivesIff(w, host, kind, t, c);
  }

  predicate EntryKept(w: Endian, host: Endian, kind: Kind, e: Entry) {
    && |e.groupName| < U16 && |e.name| < U16 && |e.path| < U16
    && forall i | 0 <= i < |e.chars| :: SetKept(w, host, kind, e.type_, e.chars[i])
  }

  lemma SetsSurviveIff(w: Endian, host: Endian, kind: Kind, t: Datatype, chars: seq<Characteristic>)
    requires SetsFit(kind, t, chars)
    ensures SetsRead(w, host, kind, t, chars) == chars <==>
      forall i | 0 <= i < |chars| :: SetKept(w, host, kind, t, chars[i])
  {
    var rs := SetsRead(w, host, kind, t, chars);
    forall i | 0 <= i < |chars| ensures rs[i] == chars[i] <==> SetKept(w, host, kind, t, chars[i]) {
      SetSurvivesIff(w, host, kind, t, chars[i]);
    }
    SameIff(rs, chars);
  }

  lemma EntrySurvivesIff(w: Endian, host: Endian, kind: Kind, e: Entry)
    requires EntryFits(kind, e)
    ensures EntryRead(w, host, kind, e) == e <==> EntryKept(w, host, kind, e)
  {
    NameSurvivesIff(e.groupName);
    NameSurvivesIff(e.name);
    NameSurvivesIff(e.path);
    SetsSurviveIff(w, host, kind, e.type_, e.chars);
  }

  predicate EntriesKept(w: Endian, host: Endian, kind: Kind, es: seq<Entry>) {
    forall i | 0 <= i < |es| :: EntryKept(w, host, kind, es[i])
  }

  lemma EntriesSurviveIff(w: Endian, host: Endian, kind: Kind, es: seq<Entry>)
    requires EntriesFit(kind, es)
    ensures EntriesRead(w, host, kind, es) == es <==> EntriesKept(w, host, kind, es)
  {
    var rs := EntriesRead(w, host, kind, es);
    forall i | 0 <= i < |es| ensures rs[i] == es[i] <==> EntryKept(w, host, kind, es[i]) {
      EntrySurvivesIff(w, host, kind, es[i]);
    }
    SameIff(rs, es);
  }

  predicate PgsKept(es: seq<Pg>) {
    forall i | 0 <= i < |es| ::
      |es[i].groupName| < U16 && es[i].timeIndexName.Some? && |es[i].timeIndexName.value| < U16
  }

  lemma PgsSurviveIff(es: seq<Pg>)
    ensures PgsRead(es) == es <==> PgsKept(es)
  {
    var rs := PgsRead(es);
    forall i | 0 <= i < |es|
      ensures rs[i] == es[i] <==>
        |es[i].groupName| < U16 && es[i].timeIndexName.Some? && |es[i].timeIndexName.value| < U16
    {
      PgSurvivesIff(es[i]);
    }
    SameIff(rs, es);
  }

  /** An index comes back unchanged exactly when no name is too long and no set holds something that is lost. */
  lemma IndexSurvivesIff(w: Endian, host: Endian, index: Index)
    requires IndexFits(index)
    ensures IndexRead(w, host, index) == index <==>
            PgsKept(index.pgs) && EntriesKept(w, host, OfVar, index.vars) && EntriesKept(w, host, OfAttr, index.attrs)
  {
    PgsSurviveIff(index.pgs);
    EntriesSurviveIff(w, host, OfVar, index.vars);
    EntriesSurviveIff(w, host, OfAttr, index.attrs);
  }

  predicate NoComplex(es: seq<Entry>) {
    forall i | 0 <= i < |es| :: !IsComplex(es[i].type_)
  }

  lemma EntriesAnyOrder(w: Endian, host: Endian, v: Endian, other: Endian, kind: Kind, es: seq<Entry>)
    requires EntriesFit(kind, es) && NoComplex(es)
    ensures EntriesRead(w, host, kind, es) == EntriesRead(v, other, kind, es)
  {
    var a, b := EntriesRead(w, host, kind, es), EntriesRead(v, other, kind, es);
    forall i | 0 <= i < |es| ensures a[i] == b[i] {
      SetsAnyOrder(w, host, v, other, kind, es[i].type_, es[i].chars);
    }
  }

  lemma SetsAnyOrder(w: Endian, host: Endian, v: Endian, other: Endian, kind: Kind, t: Datatype,
                     chars: seq<Characteristic>)
    requires SetsFit(kind, t, chars) && !IsComplex(t)
    ensures SetsRead(w, host, kind, t, chars) == SetsRead(v, other, kind, t, chars)
  {
    forall i | 0 <= i < |chars| ensures SetRead(w, host, kind, t, chars[i]) == SetRead(v, other, kind, t, chars[i]) {
      FitsParts(kind, t, chars[i]);
    }
  }

  /** Without complex values, every writer and every reader give the same records. */
  lemma AnyOrder(w: Endian, host: Endian, v: Endian, other: Endian, index: Index)
    requires IndexFits(index) && NoComplex(index.vars) && NoComplex(index.attrs)
    ensures IndexRead(w, host, index) == IndexRead(v, other, index)
  {
    EntriesAnyOrder(w, host, v, other, OfVar, index.vars);
    EntriesAnyOrder(w, host, v, other, OfAttr, index.attrs);
  }

  // ---- Lengths.

  lemma StoredExactlyIff(order: Endian, n: nat, size: nat)
    ensures Load(order, Store(order, n, size)) == n <==> n < Pow256(size)
  {
    StoreLoad(order, Store(order, n, size));
    if n < Pow256(size) { LoadStore(order, n, size); }
  }

  lemma PgLength(w: Endian, e: Pg)
    ensures |Flat(PgFields(w, e))| == 21 + |Cut(e.groupName)| + |Cut(OrEmpty(e.timeIndexName))|
  {
    Sum6(PgFields(w, e));
  }

  /** The length of a process group entry is right exactly when its names are short enough together. */
  lemma PgLengthExactIff(w: Endian, e: Pg)
    ensures |Flat(PgFields(w, e))| == 21 + |Cut(e.groupName)| + |Cut(OrEmpty(e.timeIndexName))|
    ensures Load(w, Store(w, |Flat(PgFields(w, e))|, 2)) == |Flat(PgFields(w, e))|
            <==> 21 + |Cut(e.groupName)| + |Cut(OrEmpty(e.timeIndexName))| < U16
  {
    PgLength(w, e);
    Pow256Values();
    StoredExactlyIff(w, |Flat(PgFields(w, e))|, 2);
  }

  lemma {:induction false} PrefixesFit(cs: seq<seq<byte>>, prefix: nat)
    requires prefix == 2 || prefix == 4
    requires forall i | 0 <= i < |cs| :: |cs[i]| >= prefix
    ensures (if prefix == 2 then 2 * |cs| else 4 * |cs|) <= |Flat(cs)|
  {
    if cs != [] { PrefixesFit(cs[1..], prefix); }
  }

  lemma WithoutPrefixes(w: Endian, cs: seq<seq<byte>>, prefixes: nat)
    requires prefixes <= |Flat(cs)| < U64
    ensures Load(w, SectionLength(w, cs, prefixes, 8)) + prefixes == |Flat(cs)|
  {
    Pow256Values();
    LoadStore(w, |Flat(cs)| - prefixes, 8);
  }

  /**
   The length of a section, read back, counts its bytes without the prefixes of the entries: 2 bytes for a process
   group.
   */
  lemma PgSectionLengthExact(w: Endian, es: seq<Pg>)
    requires |Flat(PgChunks(w, es))| < U64
    ensures Load(w, PgSectionFields(w, es)[1]) + 2 * |es| == |Flat(PgChunks(w, es))|
  {
    PrefixesFit(PgChunks(w, es), 2);
    WithoutPrefixes(w, PgChunks(w, es), 2 * |es|);
  }

  /** The same for variables and attributes, with 4 bytes for each. */
  lemma SectionLengthExact(w: Endian, kind: Kind, es: seq<Entry>)
    requires EntriesFit(kind, es) && |Flat(EntryChunks(w, kind, es))| < U64
    ensures Load(w, EntrySectionFields(w, kind, es)[1]) + 4 * |es| == |Flat(EntryChunks(w, kind, es))|
  {
    PrefixesFit(EntryChunks(w, kind, es), 4);
    WithoutPrefixes(w, EntryChunks(w, kind, es), 4 * |es|);
  }
}
