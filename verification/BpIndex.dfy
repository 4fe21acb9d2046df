/** The index records of a BP file (src/core/adios_bp_v1.h) and their layout in the file. */
module BpIndex {
  import opened Outcomes
  import opened IndexRecords
  import opened Bytes
  import opened Types
  import opened Chunks

  datatype Kind = OfVar | OfAttr

  /** One characteristic, as it is in the file behind its flag. */
  datatype Item =
    | Offset(n: nat) | PayloadOffset(n: nat) | FileIndex(n: nat) | TimeIndex(n: nat)
    | Dimensions(dims: seq<nat>) | Bitmap(n: nat) | Stats(bitmap: nat, stats: seq<seq<Stat>>)
    | ItemValue(value: Value) | VarId(n: nat)

  const U16: int := 0x1_0000
  const U32: int := 0x1_0000_0000
  const U64: int := 0x1_0000_0000_0000_0000

  const YES: byte := 121  // 'y'
  const NO: byte := 110   // 'n'

  /** enum ADIOS_CHARACTERISTICS. */
  function Flag(item: Item): byte {
    match item
    case ItemValue(_) => 0
    case Offset(_) => 3
    case Dimensions(_) => 4
    case VarId(_) => 5
    case PayloadOffset(_) => 6
    case FileIndex(_) => 7
    case TimeIndex(_) => 8
    case Bitmap(_) => 9
    case Stats(_, _) => 10
  }

  /** The flags, one by one, and the marks for yes and no. */
  lemma Flags(n: nat, dims: seq<nat>, stats: seq<seq<Stat>>, v: Value)
    ensures Flag(ItemValue(v)) == 0 && Flag(Offset(n)) == 3 && Flag(Dimensions(dims)) == 4 && Flag(VarId(n)) == 5
    ensures Flag(PayloadOffset(n)) == 6 && Flag(FileIndex(n)) == 7 && Flag(TimeIndex(n)) == 8
    ensures Flag(Bitmap(n)) == 9 && Flag(Stats(n, stats)) == 10
    ensures YES == 'y' as int && NO == 'n' as int
  {}

  // ---- Names.

  /** What is left of a name whose length is kept in 16 bits. */
  function Cut(s: seq<byte>): seq<byte> {
    s[..|s| % U16]
  }

  /** A name in the file, after its length. */
  function Str(w: Endian, s: seq<byte>): seq<byte> {
    Store(w, |s| % U16, 2) + Cut(s)
  }

  function OrEmpty(s: Option<seq<byte>>): seq<byte> {
    if s.Some? then s.value else []
  }

  // ---- Process groups.

  /** The fields of a process group entry, after its length. */
  function PgFields(w: Endian, e: Pg): (cs: seq<seq<byte>>)
    ensures |cs| == 6
  {
    [Str(w, e.groupName), [if e.fortran then YES else NO], Store(w, e.processId, 4), Str(w, OrEmpty(e.timeIndexName)),
     Store(w, e.timeIndex, 4), Store(w, e.offsetInFile, 8)]
  }

  /** The same, field by field. */
  predicate IsPg(w: Endian, e: Pg, cs: seq<seq<byte>>) {
    && |cs| == 6 && cs[0] == Str(w, e.groupName) && cs[1] == [if e.fortran then YES else NO]
    && cs[2] == Store(w, e.processId, 4)
    && cs[3] == Str(w, OrEmpty(e.timeIndexName)) && cs[4] == Store(w, e.timeIndex, 4)
    && cs[5] == Store(w, e.offsetInFile, 8)
  }

  lemma PgIs(w: Endian, e: Pg)
    ensures IsPg(w, e, PgFields(w, e))
  {}

  function PgBytes(w: Endian, e: Pg): seq<byte> {
    Store(w, |Flat(PgFields(w, e))|, 2) + Flat(PgFields(w, e))
  }

  function PgChunks(w: Endian, es: seq<Pg>): (cs: seq<seq<byte>>)
    ensures |cs| == |es|
  {
    seq(|es|, i requires 0 <= i < |es| => PgBytes(w, es[i]))
  }

  /** The section: count, length without the length prefixes of the entries, entries. */
  function PgSectionFields(w: Endian, es: seq<Pg>): (cs: seq<seq<byte>>)
    ensures |cs| == 3
  {
    [Store(w, |es|, 8), SectionLength(w, PgChunks(w, es), 2 * |es|, 8), Flat(PgChunks(w, es))]
  }

  function Rest(total: nat, prefixes: nat): nat {
    if total < prefixes then 0 else total - prefixes
  }

  /** The stored length of a section: its bytes without `prefixes` bytes in front of entries. */
  function SectionLength(w: Endian, cs: seq<seq<byte>>, prefixes: nat, size: nat): (s: seq<byte>)
    ensures |s| == size
  {
    Store(w, Rest(|Flat(cs)|, prefixes), size)
  }

  lemma SectionLengthIs(w: Endian, cs: seq<seq<byte>>, prefixes: nat, n: nat, size: nat)
    requires |Flat(cs)| == n + prefixes
    ensures SectionLength(w, cs, prefixes, size) == Store(w, n, size)
  {
    assert Rest(|Flat(cs)|, prefixes) == n;
  }

  predicate PgsFit(es: seq<Pg>) {
    |es| < U64 && forall i | 0 <= i < |es| :: PgFits(es[i])
  }

  predicate PgFits(e: Pg) {
    e.processId < U32 && e.timeIndex < U32 && e.offsetInFile < U64
  }

  /** What a reader gets: names are cut, and a missing time index name becomes an empty one. */
  function PgRead(e: Pg): Pg {
    e.(groupName := Cut(e.groupName), timeIndexName := Some(Cut(OrEmpty(e.timeIndexName))))
  }

  function PgsRead(es: seq<Pg>): (rs: seq<Pg>)
    ensures |rs| == |es|
  {
    seq(|es|, i requires 0 <= i < |es| => PgRead(es[i]))
  }

  // ---- Statistics.

  function HistogramFields(w: Endian, s: Stat): (cs: seq<seq<byte>>)
    requires s.Histogram?
    ensures |cs| == 5
  {
    [Store(w, |s.breaks|, 4), Store(w, if s.min.Some? then s.min.value else 0, 8), Store(w, s.max, 8),
     Flat(Words(w, s.freqs, 4)), Flat(Words(w, s.breaks, 8))]
  }

  function StatBytes(w: Endian, t: Datatype, id: nat, s: Stat): seq<byte> {
    if s.Histogram? then Flat(HistogramFields(w, s)) else Store(w, s.n, StatSize(t, id))
  }

  function StatChunks(w: Endian, t: Datatype, ids: seq<nat>, stats: seq<Stat>): (cs: seq<seq<byte>>)
    requires |stats| == |ids|
    ensures |cs| == |ids|
  {
    seq(|ids|, i requires 0 <= i < |ids| => StatBytes(w, t, ids[i], stats[i]))
  }

  predicate AllBelow(ns: seq<nat>, bound: nat) {
    forall i | 0 <= i < |ns| :: ns[i] < bound
  }

  predicate StatFits(t: Datatype, id: nat, s: Stat) {
    if id == STAT_HIST then
      s.Histogram? && |s.breaks| < U32 && |s.freqs| == |s.breaks| + 1 && AllBelow(s.freqs, U32)
      && AllBelow(s.breaks, U64)
      && s.max < U64 && s.min.Some? && s.min.value < U64
    else
      s.Number? && s.n < Pow256(StatSize(t, id))
  }

  /** One statistic for each bit of the bitmap. */
  predicate StatSetFits(t: Datatype, bitmap: nat, stats: seq<Stat>) {
    |stats| == |Bits(bitmap, 0)| && forall i | 0 <= i < |stats| :: StatFits(t, Bits(bitmap, 0)[i], stats[i])
  }

  predicate StatsFit(t: Datatype, bitmap: nat, stats: seq<seq<Stat>>) {
    |stats| == StatSetCount(t) && forall c | 0 <= c < |stats| :: StatSetFits(t, bitmap, stats[c])
  }

  function StatSets(w: Endian, t: Datatype, bitmap: nat, stats: seq<seq<Stat>>): (cs: seq<seq<byte>>)
    requires StatsFit(t, bitmap, stats)
    ensures |cs| == |stats|
  {
    seq(|stats|, c requires 0 <= c < |stats| => Flat(StatChunks(w, t, Bits(bitmap, 0), stats[c])))
  }

  /** The parser reads the minimum of a histogram into the place of the maximum, and then the maximum over it. */
  function StatRead(s: Stat): Stat {
    if s.Histogram? then s.(min := None) else s
  }

  function StatSetRead(stats: seq<Stat>): (rs: seq<Stat>)
    ensures |rs| == |stats|
  {
    seq(|stats|, i requires 0 <= i < |stats| => StatRead(stats[i]))
  }

  function StatsRead(stats: seq<seq<Stat>>): (rs: seq<seq<Stat>>)
    ensures |rs| == |stats|
  {
    seq(|stats|, c requires 0 <= c < |stats| => StatSetRead(stats[c]))
  }

  // ---- Values.

  predicate ValueFits(t: Datatype, v: Value) {
    if t == TString then v.Text?
    else if IsComplex(t) then v.Pair? && v.re < Pow256(TypeSize(t) / 2) && v.im < Pow256(TypeSize(t) / 2)
    else v.Word? && v.n < Pow256(TypeSize(t))
  }

  /** The bytes a value has in memory. */
  function ValueBytes(w: Endian, t: Datatype, v: Value): seq<byte> {
    match v
    case Word(n) => Store(w, n, TypeSize(t))
    case Text(bytes) => bytes
    case Pair(re, im) => Store(w, re, TypeSize(t) / 2) + Store(w, im, TypeSize(t) / 2)
  }

  /** A string comes after its length, of which 16 bits are kept; all of the string is written. */
  function ValueFields(w: Endian, t: Datatype, v: Value): (cs: seq<seq<byte>>)
    requires ValueFits(t, v)
  {
    if t == TString then [Store(w, |v.bytes|, 2), v.bytes] else [ValueBytes(w, t, v)]
  }

  /** A string is read as far as its length says; the bytes of a complex number are never swapped. */
  function ValueRead(w: Endian, host: Endian, t: Datatype, v: Value): Value {
    match v
    case Word(_) => v
    case Text(bytes) => Text(Cut(bytes))
    case Pair(re, im) => Pair(Load(host, Store(w, re, TypeSize(t) / 2)), Load(host, Store(w, im, TypeSize(t) / 2)))
  }

  /** No string is longer than its length can say: the bytes behind a cut length would be taken for something else. */
  predicate ShortValue(v: Value) {
    v.Text? ==> |v.bytes| < U16
  }

  predicate ShortItem(item: Item) {
    item.ItemValue? ==> ShortValue(item.value)
  }

  predicate ShortSet(c: Characteristic) {
    c.value.Some? ==> ShortValue(c.value.value)
  }

  predicate ShortEntry(e: Entry) {
    forall i | 0 <= i < |e.chars| :: ShortSet(e.chars[i])
  }

  predicate ShortEntries(es: seq<Entry>) {
    forall i | 0 <= i < |es| :: ShortEntry(es[i])
  }

  // ---- Characteristics.

  predicate ItemFits(t: Datatype, item: Item) {
    match item
    case Offset(n) => n < U64
    case PayloadOffset(n) => n < U64
    case FileIndex(n) => n < U32
    case TimeIndex(n) => n < U32
    case Dimensions(dims) => |dims| % 3 == 0 && |dims| < 3 * 256 && AllBelow(dims, U64)
    case Bitmap(n) => n < U32
    case Stats(bitmap, stats) => StatsFit(t, bitmap, stats)
    case ItemValue(v) => ValueFits(t, v)
    case VarId(n) => n < U32
  }

  function DimensionsFields(w: Endian, dims: seq<nat>): (cs: seq<seq<byte>>)
    ensures |cs| == 3
  {
    [Store(w, |dims| / 3, 1), Store(w, 8 * |dims|, 2), Flat(Words(w, dims, 8))]
  }

  function ItemFields(w: Endian, t: Datatype, item: Item): seq<seq<byte>>
    requires ItemFits(t, item)
  {
    match item
    case Offset(n) => [Store(w, n, 8)]
    case PayloadOffset(n) => [Store(w, n, 8)]
    case FileIndex(n) => [Store(w, n, 4)]
    case TimeIndex(n) => [Store(w, n, 4)]
    case Dimensions(dims) => DimensionsFields(w, dims)
    case Bitmap(n) => [Store(w, n, 4)]
    case Stats(bitmap, stats) => StatSets(w, t, bitmap, stats)
    case ItemValue(v) => ValueFields(w, t, v)
    case VarId(n) => [Store(w, n, 4)]
  }

  function ItemBytes(w: Endian, t: Datatype, item: Item): seq<byte>
    requires ItemFits(t, item)
  {
    [Flag(item)] + Flat(ItemFields(w, t, item))
  }

  predicate ItemsFit(t: Datatype, items: seq<Item>) {
    forall i | 0 <= i < |items| :: ItemFits(t, items[i])
  }

  function ItemChunks(w: Endian, t: Datatype, items: seq<Item>): (cs: seq<seq<byte>>)
    requires ItemsFit(t, items)
    ensures |cs| == |items|
  {
    seq(|items|, i requires 0 <= i < |items| => ItemBytes(w, t, items[i]))
  }

  /** The characteristics that every set has. */
  function CommonItems(c: Characteristic): (items: seq<Item>)
    ensures |items| == 4
  {
    [Offset(c.offset), PayloadOffset(c.payloadOffset), FileIndex(c.fileIndex), TimeIndex(c.timeIndex)]
  }

  /** Dimensions come with a bitmap and statistics; a scalar has none of these. */
  function ArrayItems(t: Datatype, c: Characteristic): (items: seq<Item>) {
    if t != TString && c.dims != [] then [Dimensions(c.dims), Bitmap(c.bitmap), Stats(c.bitmap, c.stats)] else []
  }

  /** The value of a string variable is always there, if only as an empty string. */
  function ValueItems(kind: Kind, t: Datatype, c: Characteristic): (items: seq<Item>) {
    if c.value.Some? then [ItemValue(c.value.value)]
    else if kind == OfVar && t == TString then [ItemValue(Text([]))]
    else []
  }

  function VarIdItems(c: Characteristic): (items: seq<Item>) {
    if c.varId != 0 then [VarId(c.varId)] else []
  }

  function Items(kind: Kind, t: Datatype, c: Characteristic): seq<Item> {
    CommonItems(c) + (if kind == OfVar then ArrayItems(t, c) + ValueItems(kind, t, c)
                      else ValueItems(kind, t, c) + VarIdItems(c))
  }

  function ItemRead(w: Endian, host: Endian, t: Datatype, item: Item): Item {
    match item
    case ItemValue(v) => ItemValue(ValueRead(w, host, t, v))
    case Stats(bitmap, stats) => Stats(bitmap, StatsRead(stats))
    case _ => item
  }

  /** A record as the parser finds it before it has read anything. */
  const EMPTY: Characteristic := Characteristic(0, 0, 0, 0, [], 0, [], None, 0)

  /** A characteristic goes into its place in the record. */
  function With(c: Characteristic, item: Item): Characteristic {
    match item
    case Offset(n) => c.(offset := n)
    case PayloadOffset(n) => c.(payloadOffset := n)
    case FileIndex(n) => c.(fileIndex := n)
    case TimeIndex(n) => c.(timeIndex := n)
    case Dimensions(dims) => c.(dims := dims)
    case Bitmap(n) => c.(bitmap := n)
    case Stats(_, stats) => c.(stats := stats)
    case ItemValue(v) => c.(value := Some(v))
    case VarId(n) => c.(varId := n)
  }

  predicate SetFits(kind: Kind, t: Datatype, c: Characteristic) {
    ItemsFit(t, Items(kind, t, c))
  }

  /** A set: how many characteristics, how many bytes, the characteristics. */
  function SetFields(w: Endian, kind: Kind, t: Datatype, c: Characteristic): (cs: seq<seq<byte>>)
    requires SetFits(kind, t, c)
    ensures |cs| == 3
  {
    var cs := ItemChunks(w, t, Items(kind, t, c));
    [Store(w, |cs|, 1), Store(w, |Flat(cs)|, 4), Flat(cs)]
  }

  /** What a reader gets: only what is in the file. */
  function SetRead(w: Endian, host: Endian, kind: Kind, t: Datatype, c: Characteristic): Characteristic {
    var isArray := kind == OfVar && t != TString && c.dims != [];
    Characteristic(
      c.offset, c.payloadOffset, c.fileIndex, c.timeIndex,
      if isArray then c.dims else [],
      if isArray then c.bitmap else 0,
      if isArray then StatsRead(c.stats) else [],
      if c.value.Some? then Some(ValueRead(w, host, t, c.value.value))
      else if kind == OfVar && t == TString then Some(Text([])) else None,
      if kind == OfAttr then c.varId else 0)
  }

  function SetsRead(w: Endian, host: Endian, kind: Kind, t: Datatype,
                    chars: seq<Characteristic>): (rs: seq<Characteristic>)
    ensures |rs| == |chars|
  {
    seq(|chars|, i requires 0 <= i < |chars| => SetRead(w, host, kind, t, chars[i]))
  }

  predicate SetsFit(kind: Kind, t: Datatype, cs: seq<Characteristic>) {
    forall i | 0 <= i < |cs| :: SetFits(kind, t, cs[i])
  }

  function SetChunks(w: Endian, kind: Kind, t: Datatype, chars: seq<Characteristic>): (cs: seq<seq<byte>>)
    requires SetsFit(kind, t, chars)
    ensures |cs| == |chars|
  {
    seq(|chars|, i requires 0 <= i < |chars| => Flat(SetFields(w, kind, t, chars[i])))
  }

  // ---- Variables and attributes.

  predicate EntryFits(kind: Kind, e: Entry) {
    e.id < U32 && |e.chars| < U64 && SetsFit(kind, e.type_, e.chars)
  }

  /** The fields of a variable or attribute entry, after its length. */
  function EntryFields(w: Endian, kind: Kind, e: Entry): (cs: seq<seq<byte>>)
    requires EntryFits(kind, e)
    ensures |cs| == 7
  {
    [Store(w, e.id, 4), Str(w, e.groupName), Str(w, e.name), Str(w, e.path), Store(w, TypeCode(e.type_), 1),
     Store(w, |e.chars|, 8), Flat(SetChunks(w, kind, e.type_, e.chars))]
  }

  function EntryBytes(w: Endian, kind: Kind, e: Entry): seq<byte>
    requires EntryFits(kind, e)
  {
    Store(w, |Flat(EntryFields(w, kind, e))|, 4) + Flat(EntryFields(w, kind, e))
  }

  predicate EntriesFit(kind: Kind, es: seq<Entry>) {
    |es| < U32 && forall i | 0 <= i < |es| :: EntryFits(kind, es[i])
  }

  function EntryChunks(w: Endian, kind: Kind, es: seq<Entry>): (cs: seq<seq<byte>>)
    requires EntriesFit(kind, es)
    ensures |cs| == |es|
  {
    seq(|es|, i requires 0 <= i < |es| => EntryBytes(w, kind, es[i]))
  }

  function EntrySectionFields(w: Endian, kind: Kind, es: seq<Entry>): (cs: seq<seq<byte>>)
    requires EntriesFit(kind, es)
    ensures |cs| == 3
  {
    [Store(w, |es|, 4), SectionLength(w, EntryChunks(w, kind, es), 4 * |es|, 8), Flat(EntryChunks(w, kind, es))]
  }

  function EntryRead(w: Endian, host: Endian, kind: Kind, e: Entry): Entry {
    Entry(e.id, Cut(e.groupName), Cut(e.name), Cut(e.path), e.type_, SetsRead(w, host, kind, e.type_, e.chars))
  }

  function EntriesRead(w: Endian, host: Endian, kind: Kind, es: seq<Entry>): (rs: seq<Entry>)
    ensures |rs| == |es|
  {
    seq(|es|, i requires 0 <= i < |es| => EntryRead(w, host, kind, es[i]))
  }

  // ---- The footer.

  datatype Index = Index(pgs: seq<Pg>, vars: seq<Entry>, attrs: seq<Entry>)

  predicate ShortIndex(index: Index) {
    ShortEntries(index.vars) && ShortEntries(index.attrs)
  }

  predicate IndexFits(index: Index) {
    PgsFit(index.pgs) && EntriesFit(OfVar, index.vars) && EntriesFit(OfAttr, index.attrs)
  }

  /** Length of the text with the version of the library, before the last 28 bytes of a file. */
  const INFO_LENGTH: nat := 28

  ghost predicate SectionsLayout(w: Endian, index: Index, cs: seq<seq<byte>>) {
    && IndexFits(index) && |cs| >= 3 && cs[0] == Flat(PgSectionFields(w, index.pgs))
    && cs[1] == Flat(EntrySectionFields(w, OfVar, index.vars))
    && cs[2] == Flat(EntrySectionFields(w, OfAttr, index.attrs))
  }

  /** Where the sections are said to be. */
  datatype Places = Places(pgs: nat, vars: nat, attrs: nat)

  /** The library version and the places of the sections. */
  ghost predicate OffsetsLayout(w: Endian, info: seq<byte>, at: Places, cs: seq<seq<byte>>) {
    |cs| == 7 && cs[3] == info && cs[4] == Store(w, at.pgs, 8) && cs[5] == Store(w, at.vars, 8)
    && cs[6] == Store(w, at.attrs, 8)
  }

  /** The first place is taken to be indexStart, the others count from the start of the buffer. */
  ghost predicate PlacesIn(at: Places, indexStart: nat, bufferStart: nat, cs: seq<seq<byte>>) {
    |cs| == 7 && at.pgs == indexStart && at.vars == indexStart + bufferStart + |cs[0]| && at.attrs == at.vars + |cs[1]|
  }

  ghost predicate IndexLayout(w: Endian, index: Index, info: seq<byte>, at: Places, cs: seq<seq<byte>>) {
    SectionsLayout(w, index, cs) && OffsetsLayout(w, info, at, cs)
  }

  /** The version word, without the high bit that tells the byte order. */
  const VERSION: nat := 0x202
  const HAVE_SUBFILE: nat := 0x100
  const BIG_ENDIAN_BIT: nat := 0x8000_0000

  /** In network order, whatever the machine. */
  function VersionBytes(w: Endian, subfile: bool): seq<byte> {
    Store(Big, (if w == Big then BIG_ENDIAN_BIT else 0) + VERSION + (if subfile then HAVE_SUBFILE else 0), 4)
  }
}
