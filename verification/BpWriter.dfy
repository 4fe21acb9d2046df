/** Writing the index of a BP file: adios_write_index_v1, src/core/adios_internals.c:3482-4205. */
module BpWriter {
  import opened Seqs
  import opened IndexRecords
  import opened Bytes
  import opened Types
  import opened Chunks
  import opened WriteBuffers
  import opened BpIndex

  /** Field k, a length and a name. */
  method PutStr(b: WriteBuffer, str: seq<byte>, size: nat, ghost pre: seq<byte>, ghost cs: seq<seq<byte>>, ghost k: nat)
    returns (newSize: nat)
    requires b.Has(pre, cs, k, size) && k < |cs| && Str(b.host, str) == cs[k]
    modifies b
    ensures b.Has(pre, cs, k + 1, newSize)
  {
    var len := |str| % U16;
    b.BufferWrite(Store(b.host, len, 2));
    b.BufferWrite(str[..len]);
    newSize := size + 2 + len;
    Assoc(old(b.text), Store(b.host, len, 2), str[..len]);
    b.Wrote(old(b.text), size, pre, cs, k);
  }

  // ---- Process groups.

  method WritePgFields(b: WriteBuffer, e: Pg) returns (size: nat)
    requires b.Valid()
    modifies b
    ensures b.Valid() && b.text == old(b.text) + Flat(PgFields(b.host, e)) && size == |Flat(PgFields(b.host, e))|
  {
    ghost var pre, cs := b.text, PgFields(b.host, e);
    b.HasNone(cs);
    size := PutStr(b, e.groupName, 0, pre, cs, 0);
    size := b.Put([if e.fortran then YES else NO], size, pre, cs, 1);
    size := b.Put(Store(b.host, e.processId, 4), size, pre, cs, 2);
    size := PutStr(b, OrEmpty(e.timeIndexName), size, pre, cs, 3);
    size := b.Put(Store(b.host, e.timeIndex, 4), size, pre, cs, 4);
    size := b.Put(Store(b.host, e.offsetInFile, 8), size, pre, cs, 5);
    b.HasAll(pre, cs, size);
  }

  /** One process group entry; its length is patched in at the end. */
  method WritePg(b: WriteBuffer, e: Pg) returns (size: nat)
    requires b.Valid()
    modifies b
    ensures b.Valid() && b.text == old(b.text) + PgBytes(b.host, e) && size + 2 == |PgBytes(b.host, e)|
  {
    ghost var cs := PgFields(b.host, e);
    var start := b.Skip(2, cs);
    ghost var pre := b.text;
    size := WritePgFields(b, e);
    b.IsAll(pre, cs, size);
    b.Fill(start, Store(b.host, size, 2), size, old(b.text), pre, cs);
  }

  method WritePgs(b: WriteBuffer, es: seq<Pg>) returns (groupsCount: nat, indexSize: nat)
    requires b.Valid()
    modifies b
    ensures b.Has(old(b.text), PgChunks(b.host, es), |es|, indexSize + 2 * |es|) && groupsCount == |es|
  {
    ghost var cs := PgChunks(b.host, es);
    b.HasNone(cs);
    groupsCount, indexSize := 0, 0;
    for i := 0 to |es|
      invariant groupsCount == i && b.Has(old(b.text), cs, i, indexSize + 2 * i)
    {
      ghost var before := b.text;
      var groupSize := WritePg(b, es[i]);
      b.Wrote(before, indexSize + 2 * i, old(b.text), cs, i);
      groupsCount, indexSize := groupsCount + 1, indexSize + groupSize;
    }
  }

  /** The process group part of adios_write_index_v1. */
  method WritePgSection(b: WriteBuffer, es: seq<Pg>)
    requires b.Valid()
    modifies b
    ensures b.Valid() && b.text == old(b.text) + Flat(PgSectionFields(b.host, es))
  {
    ghost var cs := PgChunks(b.host, es);
    var start := b.Skip(8 + 8, cs);
    ghost var pre := b.text;
    var groupsCount, indexSize := WritePgs(b, es);
    b.HasAll(pre, cs, indexSize + 2 * |es|);
    SectionLengthIs(b.host, cs, 2 * |es|, indexSize, 8);
    b.FillTwo(start, Store(b.host, groupsCount, 8), Store(b.host, indexSize, 8), indexSize + 2 * |es|, old(b.text), pre,
              cs);
  }

  // ---- Statistics.

  method WriteHistogram(b: WriteBuffer, s: Stat) returns (size: nat)
    requires b.Valid() && s.Histogram? && s.min.Some?
    modifies b
    ensures b.Valid() && b.text == old(b.text) + Flat(HistogramFields(b.host, s))
    ensures size == |Flat(HistogramFields(b.host, s))|
  {
    ghost var pre, cs := b.text, HistogramFields(b.host, s);
    b.HasNone(cs);
    size := b.Put(Store(b.host, |s.breaks|, 4), 0, pre, cs, 0);
    size := b.Put(Store(b.host, s.min.value, 8), size, pre, cs, 1);
    size := b.Put(Store(b.host, s.max, 8), size, pre, cs, 2);
    size := b.Put(Flat(Words(b.host, s.freqs, 4)), size, pre, cs, 3);
    size := b.Put(Flat(Words(b.host, s.breaks, 8)), size, pre, cs, 4);
    b.HasAll(pre, cs, size);
  }

  method WriteStat(b: WriteBuffer, t: Datatype, id: nat, s: Stat) returns (size: nat)
    requires b.Valid() && StatFits(t, id, s)
    modifies b
    ensures b.Valid() && b.text == old(b.text) + StatBytes(b.host, t, id, s) && size == |StatBytes(b.host, t, id, s)|
  {
    if id == STAT_HIST {
      size := WriteHistogram(b, s);
    } else {
      size := StatSize(t, id);
      b.BufferWrite(Store(b.host, s.n, size));
    }
  }

  /** One statistic for each bit of the bitmap. */
  method WriteStatSet(b: WriteBuffer, t: Datatype, bitmap: nat, stats: seq<Stat>) returns (size: nat)
    requires b.Valid() && StatSetFits(t, bitmap, stats)
    modifies b
    ensures b.Valid() && b.text == old(b.text) + Flat(StatChunks(b.host, t, Bits(bitmap, 0), stats))
    ensures size == |Flat(StatChunks(b.host, t, Bits(bitmap, 0), stats))|
  {
    ghost var ids := Bits(bitmap, 0);
    ghost var pre, cs := b.text, StatChunks(b.host, t, ids, stats);
    b.HasNone(cs);
    var rest, j, idx := bitmap, 0, 0;
    size := 0;
    while rest != 0  // bitmap >> j
      invariant BitsLeft(ids, idx, rest, j) && b.Has(pre, cs, idx, size)
      decreases rest
    {
      NextBit(ids, idx, rest, j);
      if rest % 2 == 1 {
        ghost var before := b.text;
        var n := WriteStat(b, t, j, stats[idx]);
        b.Wrote(before, size, pre, cs, idx);
        size, idx := size + n, idx + 1;
      }
      rest, j := rest / 2, j + 1;
    }
    b.HasAll(pre, cs, size);
  }

  method WriteStats(b: WriteBuffer, t: Datatype, bitmap: nat, stats: seq<seq<Stat>>) returns (size: nat)
    requires b.Valid() && StatsFit(t, bitmap, stats)
    modifies b
    ensures b.Valid() && b.text == old(b.text) + Flat(StatSets(b.host, t, bitmap, stats))
    ensures size == |Flat(StatSets(b.host, t, bitmap, stats))|
  {
    ghost var pre, cs := b.text, StatSets(b.host, t, bitmap, stats);
    b.HasNone(cs);
    size := 0;
    for c := 0 to StatSetCount(t)
      invariant b.Has(pre, cs, c, size)
    {
      ghost var before := b.text;
      var n := WriteStatSet(b, t, bitmap, stats[c]);
      b.Wrote(before, size, pre, cs, c);
      size := size + n;
    }
    b.HasAll(pre, cs, size);
  }

  // ---- Characteristics.

  /** The one field of a characteristic that is a single word. */
  method WriteField(b: WriteBuffer, bytes: seq<byte>) returns (size: nat)
    requires b.Valid()
    modifies b
    ensures b.Valid() && b.text == old(b.text) + Flat([bytes]) && size == |Flat([bytes])|
  {
    b.BufferWrite(bytes);
    size := |bytes|;
    FlatOne(bytes);
  }

  method WriteDimensions(b: WriteBuffer, t: Datatype, dims: seq<nat>) returns (size: nat)
    requires b.Valid() && ItemFits(t, Dimensions(dims))
    modifies b
    ensures b.Valid() && b.text == old(b.text) + Flat(ItemFields(b.host, t, Dimensions(dims)))
    ensures size == |Flat(ItemFields(b.host, t, Dimensions(dims)))|
  {
    ghost var pre, cs := b.text, ItemFields(b.host, t, Dimensions(dims));
    b.HasNone(cs);
    var count := |dims| / 3;
    var len := 3 * 8 * count;
    size := b.Put(Store(b.host, count, 1), 0, pre, cs, 0);
    size := b.Put(Store(b.host, len, 2), size, pre, cs, 1);
    size := b.Put(Flat(Words(b.host, dims, 8)), size, pre, cs, 2);
    b.HasAll(pre, cs, size);
  }

  method WriteText(b: WriteBuffer, text: seq<byte>) returns (size: nat)
    requires b.Valid()
    modifies b
    ensures b.Valid() && b.text == old(b.text) + Flat([Store(b.host, |text|, 2), text])
    ensures size == |Flat([Store(b.host, |text|, 2), text])|
  {
    ghost var pre, cs := b.text, [Store(b.host, |text|, 2), text];
    b.HasNone(cs);
    size := b.Put(Store(b.host, |text|, 2), 0, pre, cs, 0);
    size := b.Put(text, size, pre, cs, 1);
    b.HasAll(pre, cs, size);
  }

  method WriteValue(b: WriteBuffer, t: Datatype, v: Value) returns (size: nat)
    requires b.Valid() && ValueFits(t, v)
    modifies b
    ensures b.Valid() && b.text == old(b.text) + Flat(ValueFields(b.host, t, v))
    ensures size == |Flat(ValueFields(b.host, t, v))|
  {
    if t == TString {
      size := WriteText(b, v.bytes);
    } else {
      size := WriteField(b, ValueBytes(b.host, t, v));
    }
  }

  method WriteItemFields(b: WriteBuffer, t: Datatype, item: Item) returns (size: nat)
    requires b.Valid() && ItemFits(t, item)
    modifies b
    ensures b.Valid() && b.text == old(b.text) + Flat(ItemFields(b.host, t, item))
    ensures size == |Flat(ItemFields(b.host, t, item))|
  {
    match item
    case Offset(n) => size := WriteField(b, Store(b.host, n, 8));
    case PayloadOffset(n) => size := WriteField(b, Store(b.host, n, 8));
    case FileIndex(n) => size := WriteField(b, Store(b.host, n, 4));
    case TimeIndex(n) => size := WriteField(b, Store(b.host, n, 4));
    case Dimensions(dims) => size := WriteDimensions(b, t, dims);
    case Bitmap(n) => size := WriteField(b, Store(b.host, n, 4));
    case Stats(bitmap, stats) => size := WriteStats(b, t, bitmap, stats);
    case ItemValue(v) => size := WriteValue(b, t, v);
    case VarId(n) => size := WriteField(b, Store(b.host, n, 4));
  }

  /** The first k characteristics of a set are in the buffer. */
  ghost predicate HasItems(b: WriteBuffer, t: Datatype, pre: seq<byte>, items: seq<Item>, k: nat, length: nat)
    reads b
  {
    ItemsFit(t, items) && b.Has(pre, ItemChunks(b.host, t, items), k, length)
  }

  /** Characteristic k of a set: its flag, then its fields. */
  method PutItem(b: WriteBuffer, t: Datatype, item: Item, length: nat, ghost pre: seq<byte>, ghost items: seq<Item>,
                 ghost k: nat)
    returns (newLength: nat)
    requires HasItems(b, t, pre, items, k, length) && k < |items| && items[k] == item
    modifies b
    ensures HasItems(b, t, pre, items, k + 1, newLength)
  {
    b.BufferWrite([Flag(item)]);
    var n := WriteItemFields(b, t, item);
    newLength := length + 1 + n;
    Assoc(old(b.text), [Flag(item)], Flat(ItemFields(b.host, t, item)));
    b.Wrote(old(b.text), length, pre, ItemChunks(b.host, t, items), k);
  }

  /** The characteristics that every set starts with. */
  method WriteCommonItems(b: WriteBuffer, t: Datatype, c: Characteristic, ghost pre: seq<byte>, ghost items: seq<Item>)
    returns (count: nat, length: nat)
    requires HasItems(b, t, pre, items, 0, 0) && CommonItems(c) <= items
    modifies b
    ensures count == 4 && HasItems(b, t, pre, items, 4, length)
  {
    length := PutItem(b, t, Offset(c.offset), 0, pre, items, 0);
    length := PutItem(b, t, PayloadOffset(c.payloadOffset), length, pre, items, 1);
    length := PutItem(b, t, FileIndex(c.fileIndex), length, pre, items, 2);
    length := PutItem(b, t, TimeIndex(c.timeIndex), length, pre, items, 3);
    count := 4;
  }

  /** The rest of a set of a variable. */
  method WriteVarItems(b: WriteBuffer, t: Datatype, c: Characteristic, n: nat, size: nat, ghost pre: seq<byte>,
                       ghost items: seq<Item>)
    returns (count: nat, length: nat)
    requires n == 4 && HasItems(b, t, pre, items, 4, size) && items == Items(OfVar, t, c)
    modifies b
    ensures count == |items| && HasItems(b, t, pre, items, count, length)
  {
    count, length := n, size;
    if t == TString {
      length := PutItem(b, t, ItemValue(if c.value.Some? then c.value.value else Text([])), length, pre, items, count);
      count := count + 1;
    } else {
      if |c.dims| != 0 {
        length := PutItem(b, t, Dimensions(c.dims), length, pre, items, count);
        length := PutItem(b, t, Bitmap(c.bitmap), length, pre, items, count + 1);
        length := PutItem(b, t, Stats(c.bitmap, c.stats), length, pre, items, count + 2);
        count := count + 3;
      }
      if c.value.Some? {
        length := PutItem(b, t, ItemValue(c.value.value), length, pre, items, count);
        count := count + 1;
      }
    }
  }

  /** The rest of a set of an attribute. */
  method WriteAttrItems(b: WriteBuffer, t: Datatype, c: Characteristic, n: nat, size: nat, ghost pre: seq<byte>,
                        ghost items: seq<Item>)
    returns (count: nat, length: nat)
    requires n == 4 && HasItems(b, t, pre, items, 4, size) && items == Items(OfAttr, t, c)
    modifies b
    ensures count == |items| && HasItems(b, t, pre, items, count, length)
  {
    count, length := n, size;
    if c.value.Some? {
      length := PutItem(b, t, ItemValue(c.value.value), length, pre, items, count);
      count := count + 1;
    }
    if c.varId != 0 {
      length := PutItem(b, t, VarId(c.varId), length, pre, items, count);
      count := count + 1;
    }
  }

  /** One set; the number of its characteristics and their length are patched in at the end. */
  method WriteSet(b: WriteBuffer, kind: Kind, t: Datatype, c: Characteristic) returns (size: nat)
    requires b.Valid() && SetFits(kind, t, c)
    modifies b
    ensures b.Valid() && b.text == old(b.text) + Flat(SetFields(b.host, kind, t, c))
    ensures size == |Flat(SetFields(b.host, kind, t, c))|
  {
    ghost var items := Items(kind, t, c);
    ghost var cs := ItemChunks(b.host, t, items);
    var start := b.Skip(1 + 4, cs);
    ghost var pre := b.text;
    var count, length := WriteCommonItems(b, t, c, pre, items);
    if kind == OfVar {
      count, length := WriteVarItems(b, t, c, count, length, pre, items);
    } else {
      count, length := WriteAttrItems(b, t, c, count, length, pre, items);
    }
    FinishSet(b, kind, t, c, start, count, length, old(b.text), pre);
    size := 1 + 4 + length;
  }

  method FinishSet(b: WriteBuffer, kind: Kind, t: Datatype, c: Characteristic, start: nat, count: nat, length: nat,
                   ghost before: seq<byte>, ghost pre: seq<byte>)
    requires SetFits(kind, t, c) && count == |Items(kind, t, c)|
    requires HasItems(b, t, pre, Items(kind, t, c), count, length)
    requires Gap(before, pre, 5) && start == |before|
    modifies b
    ensures b.Valid() && b.text == before + Flat(SetFields(b.host, kind, t, c))
    ensures 5 + length == |Flat(SetFields(b.host, kind, t, c))|
  {
    ghost var cs := ItemChunks(b.host, t, Items(kind, t, c));
    b.HasAll(pre, cs, length);
    b.FillTwo(start, Store(b.host, count, 1), Store(b.host, length, 4), length, before, pre, cs);
  }
}
