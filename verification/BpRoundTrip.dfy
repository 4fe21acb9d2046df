/** Writing an index and reading it back, on machines of any byte order. */
module BpRoundTrip {
  import opened Bytes
  import opened Chunks
  import opened WriteBuffers
  import opened BpIndex
  import opened BpIndexWriter
  import opened BpFile

  /** The chunks of an index, from the bytes of its three sections and their places. */
  ghost function Seven(p: seq<byte>, v: seq<byte>, a: seq<byte>, w: Endian, info: seq<byte>,
                       at: Places): (cs: seq<seq<byte>>)
    ensures |cs| == 7 && cs[0] == p && cs[1] == v && cs[2] == a && OffsetsLayout(w, info, at, cs)
  {
    [p, v, a, info, Store(w, at.pgs, 8), Store(w, at.vars, 8), Store(w, at.attrs, 8)]
  }

  ghost function PgPart(w: Endian, index: Index): seq<byte> { Flat(PgSectionFields(w, index.pgs)) }

  ghost function VarPart(w: Endian, index: Index): seq<byte>
    requires IndexFits(index)
  {
    Flat(EntrySectionFields(w, OfVar, index.vars))
  }

  ghost function AttrPart(w: Endian, index: Index): seq<byte>
    requires IndexFits(index)
  {
    Flat(EntrySectionFields(w, OfAttr, index.attrs))
  }

  ghost function IndexPlaces(w: Endian, index: Index, indexStart: nat, bufferStart: nat): Places
    requires IndexFits(index)
  {
    var vars := indexStart + bufferStart + |PgPart(w, index)|;
    Places(indexStart, vars, vars + |VarPart(w, index)|)
  }

  ghost function IndexChunks(w: Endian, index: Index, info: seq<byte>, indexStart: nat,
                             bufferStart: nat): (cs: seq<seq<byte>>)
    requires IndexFits(index)
  {
    Seven(PgPart(w, index), VarPart(w, index), AttrPart(w, index), w, info,
          IndexPlaces(w, index, indexStart, bufferStart))
  }

  lemma IndexChunksLaidOut(w: Endian, index: Index, info: seq<byte>, indexStart: nat, bufferStart: nat)
    requires IndexFits(index)
    ensures IndexLayout(w, index, info, IndexPlaces(w, index, indexStart, bufferStart),
                        IndexChunks(w, index, info, indexStart, bufferStart))
    ensures PlacesIn(IndexPlaces(w, index, indexStart, bufferStart), indexStart, bufferStart,
                     IndexChunks(w, index, info, indexStart, bufferStart))
  {}

  /** The bytes of an index and the version word, in an empty buffer. */
  method WriteFooter(w: Endian, indexStart: nat, index: Index, info: seq<byte>, subfile: bool, ghost at: Places,
                     ghost cs: seq<seq<byte>>) returns (footer: seq<byte>)
    requires IndexLayout(w, index, info, at, cs) && PlacesIn(at, indexStart, 0, cs)
    ensures footer == Flat(cs) + VersionBytes(w, subfile)
  {
    var b := new WriteBuffer(w);
    WriteIndex(b, indexStart, index, info, at, cs);
    WriteVersion(b, subfile);
    footer := b.data[..b.offset];
    assert [] + Flat(cs) == Flat(cs);
  }

  /** An index appended to a file is found and read by any machine. */
  method RoundTrip(w: Endian, host: Endian, data: seq<byte>, index: Index, info: seq<byte>, subfile: bool)
    returns (r: Index)
    requires IndexFits(index) && ShortIndex(index) && |info| == INFO_LENGTH
    requires |data| + |Flat(IndexChunks(w, index, info, |data|, 0))| + 4 < U64
    ensures r == IndexRead(w, host, index)
  {
    ghost var at, cs := IndexPlaces(w, index, |data|, 0), IndexChunks(w, index, info, |data|, 0);
    IndexChunksLaidOut(w, index, info, |data|, 0);
    var footer := WriteFooter(w, |data|, index, info, subfile, at, cs);
    var file := data + footer;
    r := ReadIndex(file, host, w, data, index, info, subfile, at, cs);
  }

  /** An offset that leads to a chunk of the file. */
  ghost predicate LeadsTo(w: Endian, file: seq<byte>, word: seq<byte>, chunk: seq<byte>) {
    var at := Load(w, word); at + |chunk| <= |file| && file[at..at + |chunk|] == chunk
  }

  lemma ItsPlaceLeads(w: Endian, file: seq<byte>, data: seq<byte>, cs: seq<seq<byte>>, k: nat, t: seq<byte>, at: nat)
    requires k < |cs| && file == data + (Flat(cs) + t) && |file| < U64 && at == |data| + |Flat(cs[..k])|
    ensures LeadsTo(w, file, Store(w, at, 8), cs[k]) && Load(w, Store(w, at, 8)) == at
  {
    Chunk(file, data, cs, k, t);
    Pow256Values();
    LoadStore(w, at, 8);
  }

  /** The last two offsets always lead to their sections, even when the buffer held something before the index. */
  lemma OffsetsLeadToSections(w: Endian, info: seq<byte>, data: seq<byte>, pre: seq<byte>, t: seq<byte>, at: Places,
                              cs: seq<seq<byte>>, file: seq<byte>)
    requires OffsetsLayout(w, info, at, cs) && PlacesIn(at, |data|, |pre|, cs)
    requires file == (data + pre) + (Flat(cs) + t) && |file| < U64
    ensures LeadsTo(w, file, cs[5], cs[1]) && LeadsTo(w, file, cs[6], cs[2])
  {
    FirstTwo(cs);
    ItsPlaceLeads(w, file, data + pre, cs, 1, t, at.vars);
    ItsPlaceLeads(w, file, data + pre, cs, 2, t, at.attrs);
  }

  lemma FirstTwo(cs: seq<seq<byte>>)
    requires |cs| >= 2
    ensures |Flat(cs[..1])| == |cs[0]| && |Flat(cs[..2])| == |cs[0]| + |cs[1]|
  {
    FlatStep(cs, 0);
    FlatStep(cs, 1);
  }

  /**
   The first is the place of the process group section only when the index was written from the start of the buffer.
   */
  lemma PgOffsetRightIff(w: Endian, info: seq<byte>, data: seq<byte>, pre: seq<byte>, t: seq<byte>, at: Places,
                         cs: seq<seq<byte>>, file: seq<byte>)
    requires OffsetsLayout(w, info, at, cs) && PlacesIn(at, |data|, |pre|, cs)
    requires file == (data + pre) + (Flat(cs) + t) && |file| < U64
    ensures LeadsTo(w, file, Store(w, |data| + |pre|, 8), cs[0])
    ensures cs[4] == Store(w, |data| + |pre|, 8) <==> pre == []
  {
    ItsPlaceLeads(w, file, data + pre, cs, 0, t, |data| + |pre|);
    Pow256Values();
    LoadStore(w, |data|, 8);
  }
}
