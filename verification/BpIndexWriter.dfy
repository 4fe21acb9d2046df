/** Writing a whole index and the version word: src/core/adios_internals.c:3482-4258. */
module BpIndexWriter {
  import opened IndexRecords
  import opened Bytes
  import opened Types
  import opened Chunks
  import opened WriteBuffers
  import opened BpIndex
  import opened BpWriter

  method WriteSets(b: WriteBuffer, kind: Kind, t: Datatype, chars: seq<Characteristic>) returns (size: nat)
    requires b.Valid() && SetsFit(kind, t, chars)
    modifies b
    ensures b.Valid() && b.text == old(b.text) + Flat(SetChunks(b.host, kind, t, chars))
    ensures size == |Flat(SetChunks(b.host, kind, t, chars))|
  {
    ghost var pre, cs := b.text, SetChunks(b.host, kind, t, chars);
    b.HasNone(cs);
    size := 0;
    for i := 0 to |chars|
      invariant b.Has(pre, cs, i, size)
    {
      ghost var before := b.text;
      var n := WriteSet(b, kind, t, chars[i]);
      b.Wrote(before, size, pre, cs, i);
      size := size + n;
    }
    b.HasAll(pre, cs, size);
  }

  method WriteEntryFields(b: WriteBuffer, kind: Kind, e: Entry, ghost pre: seq<byte>, ghost cs: seq<seq<byte>>)
    returns (size: nat)
    requires EntryFits(kind, e) && cs == EntryFields(b.host, kind, e) && b.Has(pre, cs, 0, 0)
    modifies b
    ensures b.Has(pre, cs, 6, size)
  {
    size := b.Put(Store(b.host, e.id, 4), 0, pre, cs, 0);
    size := PutStr(b, e.groupName, size, pre, cs, 1);
    size := PutStr(b, e.name, size, pre, cs, 2);
    size := PutStr(b, e.path, size, pre, cs, 3);
    size := b.Put(Store(b.host, TypeCode(e.type_), 1), size, pre, cs, 4);
    size := b.Put(Store(b.host, |e.chars|, 8), size, pre, cs, 5);
  }

  /** One variable or attribute; its length is patched in at the end. */
  method WriteEntry(b: WriteBuffer, kind: Kind, e: Entry) returns (size: nat)
    requires b.Valid() && EntryFits(kind, e)
    modifies b
    ensures b.Valid() && b.text == old(b.text) + EntryBytes(b.host, kind, e)
    ensures size + 4 == |EntryBytes(b.host, kind, e)|
  {
    ghost var cs := EntryFields(b.host, kind, e);
    var start := b.Skip(4, cs);
    ghost var pre := b.text;
    size := WriteEntryFields(b, kind, e, pre, cs);
    ghost var before := b.text;
    var n := WriteSets(b, kind, e.type_, e.chars);
    b.Wrote(before, size, pre, cs, 6);
    size := size + n;
    b.HasAll(pre, cs, size);
    b.Fill(start, Store(b.host, size, 4), size, old(b.text), pre, cs);
  }

  method WriteEntries(b: WriteBuffer, kind: Kind, es: seq<Entry>) returns (count: nat, indexSize: nat)
    requires b.Valid() && EntriesFit(kind, es)
    modifies b
    ensures b.Has(old(b.text), EntryChunks(b.host, kind, es), |es|, indexSize + 4 * |es|) && count == |es|
  {
    ghost var cs := EntryChunks(b.host, kind, es);
    b.HasNone(cs);
    count, indexSize := 0, 0;
    for i := 0 to |es|
      invariant count == i && b.Has(old(b.text), cs, i, indexSize + 4 * i)
    {
      ghost var before := b.text;
      var size := WriteEntry(b, kind, es[i]);
      b.Wrote(before, indexSize + 4 * i, old(b.text), cs, i);
      count, indexSize := count + 1, indexSize + size;
    }
  }

  /** The variable part, and the attribute part, of adios_write_index_v1. */
  method WriteEntrySection(b: WriteBuffer, kind: Kind, es: seq<Entry>)
    requires b.Valid() && EntriesFit(kind, es)
    modifies b
    ensures b.Valid() && b.text == old(b.text) + Flat(EntrySectionFields(b.host, kind, es))
  {
    ghost var cs := EntryChunks(b.host, kind, es);
    var start := b.Skip(4 + 8, cs);
    ghost var pre := b.text;
    var count, indexSize := WriteEntries(b, kind, es);
    b.HasAll(pre, cs, indexSize + 4 * |es|);
    SectionLengthIs(b.host, cs, 4 * |es|, indexSize, 8);
    b.FillTwo(start, Store(b.host, count, 4), Store(b.host, indexSize, 8), indexSize + 4 * |es|, old(b.text), pre, cs);
  }

  method WriteSections(b: WriteBuffer, indexStart: nat, index: Index, ghost cs: seq<seq<byte>>)
    returns (varsStart: nat, attrsStart: nat, ghost size: nat)
    requires b.Valid() && SectionsLayout(b.host, index, cs)
    modifies b
    ensures b.Has(old(b.text), cs, 3, size)
    ensures varsStart == indexStart + |old(b.text)| + |cs[0]|
    ensures attrsStart == indexStart + |old(b.text)| + |cs[0]| + |cs[1]|
  {
    WritePgSection(b, index.pgs);
    varsStart := b.offset + indexStart;
    WriteEntrySection(b, OfVar, index.vars);
    attrsStart := b.offset + indexStart;
    WriteEntrySection(b, OfAttr, index.attrs);
    FirstThree(old(b.text), cs);
    size := |Flat(cs[..3])|;
  }

  lemma FirstThree(before: seq<byte>, cs: seq<seq<byte>>)
    requires |cs| >= 3
    ensures ((before + cs[0]) + cs[1]) + cs[2] == before + Flat(cs[..3])
  {
    assert cs[..3] == [cs[0], cs[1], cs[2]];
    OneByOne(before, cs[0], cs[1], cs[2]);
  }

  method WriteOffsets(b: WriteBuffer, info: seq<byte>, pgStart: nat, varsStart: nat, attrsStart: nat,
                      ghost size: nat, ghost pre: seq<byte>, ghost cs: seq<seq<byte>>)
    requires b.Has(pre, cs, 3, size) && OffsetsLayout(b.host, info, Places(pgStart, varsStart, attrsStart), cs)
    modifies b
    ensures b.Valid() && b.text == pre + Flat(cs)
  {
    ghost var n := b.Add(info, size, pre, cs, 3);
    n := b.Add(Store(b.host, pgStart, 8), n, pre, cs, 4);
    n := b.Add(Store(b.host, varsStart, 8), n, pre, cs, 5);
    n := b.Add(Store(b.host, attrsStart, 8), n, pre, cs, 6);
    b.HasAll(pre, cs, n);
  }

  /** adios_write_index_v1. */
  method WriteIndex(b: WriteBuffer, indexStart: nat, index: Index, info: seq<byte>, ghost at: Places,
                    ghost cs: seq<seq<byte>>)
    requires b.Valid() && IndexLayout(b.host, index, info, at, cs) && PlacesIn(at, indexStart, |b.text|, cs)
    modifies b
    ensures b.Valid() && b.text == old(b.text) + Flat(cs)
  {
    var pgStart := indexStart;
    ghost var size;
    var varsStart, attrsStart;
    varsStart, attrsStart, size := WriteSections(b, indexStart, index, cs);
    assert Places(pgStart, varsStart, attrsStart) == at;
    WriteOffsets(b, info, pgStart, varsStart, attrsStart, size, old(b.text), cs);
  }

  /** adios_write_version_v1 and adios_write_version_flag_v1. */
  method WriteVersion(b: WriteBuffer, subfile: bool)
    requires b.Valid()
    modifies b
    ensures b.Valid() && b.text == old(b.text) + VersionBytes(b.host, subfile)
  {
    var test := if b.host == Big then 0x8000_0000 else 0;
    test := test + 2 + 0x200 + (if subfile then 0x100 else 0);
    b.BufferWrite(Store(Big, test, 4));
  }
}
