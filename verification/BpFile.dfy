/** An index written at the end of a file is found and read back. */
module BpFile {
  import opened Seqs
  import opened Outcomes
  import opened IndexRecords
  import opened Bytes
  import opened Chunks
  import opened ReadBuffers
  import opened BpIndex
  import opened BpParser
  import opened BpIndexParser
  import opened BpFooter

  function IndexRead(w: Endian, host: Endian, index: Index): Index {
    Index(PgsRead(index.pgs), EntriesRead(w, host, OfVar, index.vars), EntriesRead(w, host, OfAttr, index.attrs))
  }

  /** A file: process groups, then an index written from the start of a buffer, then the version word. */
  ghost predicate IsFile(file: seq<byte>, w: Endian, data: seq<byte>, index: Index, info: seq<byte>, subfile: bool,
                         at: Places, cs: seq<seq<byte>>) {
    && |info| == INFO_LENGTH && IndexLayout(w, index, info, at, cs) && PlacesIn(at, |data|, 0, cs)
    && |file| < U64 && file == data + (Flat(cs) + VersionBytes(w, subfile))
  }

  /** From chunk k on. */
  lemma FromChunk(file: seq<byte>, data: seq<byte>, cs: seq<seq<byte>>, k: nat, t: seq<byte>)
    requires k <= |cs| && file == data + (Flat(cs) + t)
    ensures |data| + |Flat(cs[..k])| <= |file| && file[|data| + |Flat(cs[..k])|..] == Flat(cs[k..]) + t
  {
    var a, b := Flat(cs[..k]), Flat(cs[k..]);
    assert cs == cs[..k] + cs[k..];
    FlatConcat(cs[..k], cs[k..]);
    Assoc(a, b, t);
    assert file == (data + a) + (b + t);
  }

  lemma Chunk(file: seq<byte>, data: seq<byte>, cs: seq<seq<byte>>, k: nat, t: seq<byte>)
    requires k < |cs| && file == data + (Flat(cs) + t)
    ensures var at := |data| + |Flat(cs[..k])|; at + |cs[k]| <= |file| && file[at..at + |cs[k]|] == cs[k]
  {
    FromChunk(file, data, cs, k, t);
    FlatNext(cs, k, t);
    var at := |data| + |Flat(cs[..k])|;
    assert file[at..at + |cs[k]|] == file[at..][..|cs[k]|];
  }

  /** Where the sections and the last 28 bytes are. */
  lemma Positions(cs: seq<seq<byte>>)
    requires |cs| == 7 && |cs[3]| == 28 && |cs[4]| == |cs[5]| == |cs[6]| == 8
    ensures |Flat(cs[..0])| == 0 && |Flat(cs[..1])| == |cs[0]| && |Flat(cs[..2])| == |cs[0]| + |cs[1]|
    ensures |Flat(cs[..4])| == |cs[0]| + |cs[1]| + |cs[2]| + 28
    ensures |Flat(cs)| == |cs[0]| + |cs[1]| + |cs[2]| + 52
  {
    FlatStep(cs, 0);
    FlatStep(cs, 1);
    FlatStep(cs, 2);
    FlatStep(cs, 3);
    FlatStep(cs, 4);
    FlatStep(cs, 5);
    FlatStep(cs, 6);
    assert cs[..7] == cs;
  }

  lemma SectionsNotShort(w: Endian, index: Index)
    requires IndexFits(index)
    ensures |Flat(PgSectionFields(w, index.pgs))| >= 16
    ensures |Flat(EntrySectionFields(w, OfVar, index.vars))| >= 10
    ensures |Flat(EntrySectionFields(w, OfAttr, index.attrs))| >= 10
  {}

  /** The last 28 bytes. */
  lemma Trailer(file: seq<byte>, data: seq<byte>, cs: seq<seq<byte>>, version: seq<byte>)
    requires |cs| == 7 && |cs[3]| == 28 && |cs[4]| == |cs[5]| == |cs[6]| == 8 && |version| == 4
    requires file == data + (Flat(cs) + version)
    ensures |file| == |data| + |cs[0]| + |cs[1]| + |cs[2]| + 56
    ensures file[|file| - 28..] == Flat([cs[4], cs[5], cs[6]]) + version
  {
    Positions(cs);
    FromChunk(file, data, cs, 4, version);
    assert cs[4..] == [cs[4], cs[5], cs[6]];
  }

  /** The version word and the offsets, out of the last 28 bytes. */
  method ReadTrailer(last: seq<byte>, fileSize: nat, host: Endian, ghost w: Endian, ghost subfile: bool, ghost pgs: nat,
                     ghost vars: nat, ghost attrs: nat)
    returns (slices: Slices, change: bool)
    requires pgs <= vars <= attrs <= fileSize - 28 && fileSize < U64
    requires last == Flat([Store(w, pgs, 8), Store(w, vars, 8), Store(w, attrs, 8)]) + VersionBytes(w, subfile)
    ensures slices == Slices(pgs, vars - pgs, vars, attrs - vars, attrs, fileSize - 28 - attrs) && change == (w != host)
  {
    ghost var offsets := [Store(w, pgs, 8), Store(w, vars, 8), Store(w, attrs, 8)];
    FlatThree(offsets[0], offsets[1], offsets[2]);
    var b := new ReadBuffer(host, last, 24, false);
    assert last[24..28] == VersionBytes(w, subfile);
    var _ := ParseVersion(b, w, subfile);
    b.offset := 0;
    assert last[0..] == last && offsets[0..] == offsets;
    var r := ParseIndexOffsets(b, fileSize, pgs, vars, attrs, w, offsets, VersionBytes(w, subfile));
    slices, change := r.value, b.change;
  }

  /** The process group section, read from where the offsets say. */
  method ReadPgs(file: seq<byte>, host: Endian, change: bool, at: nat, size: nat, ghost w: Endian, ghost es: seq<Pg>)
    returns (r: Result<seq<Pg>>)
    requires PgsFit(es) && change == (w != host) && size >= 16 && Cuts(file, at, size, Flat(PgSectionFields(w, es)))
    ensures r == Ok(PgsRead(es))
  {
    var b := new ReadBuffer(host, file[at..at + size], 0, change);
    ghost var fields := PgSectionFields(w, es);
    assert b.buff[0..] == Flat(fields[0..]) + [];
    r := ParsePgSection(b, es, w, []);
  }

  /** The variable or the attribute section, with `t` after it. */
  method ReadEntries(file: seq<byte>, host: Endian, change: bool, kind: Kind, at: nat, size: nat, ghost w: Endian,
                     ghost es: seq<Entry>, ghost t: seq<byte>)
    returns (r: Result<seq<Entry>>)
    requires EntriesFit(kind, es) && ShortEntries(es) && change == (w != host) && size >= 10
    requires Cuts(file, at, size, Flat(EntrySectionFields(w, kind, es)) + t)
    ensures r == Ok(EntriesRead(w, host, kind, es))
  {
    var b := new ReadBuffer(host, file[at..at + size], 0, change);
    ghost var fields := EntrySectionFields(w, kind, es);
    assert fields[0..] == fields && b.buff[0..] == b.buff;
    r := ParseEntrySection(b, kind, es, w, t);
  }

  /** The slices that the offsets stand for are the sections. */
  lemma SlicesAreSections(file: seq<byte>, data: seq<byte>, cs: seq<seq<byte>>, version: seq<byte>)
    requires |cs| == 7 && |cs[3]| == 28 && |cs[4]| == |cs[5]| == |cs[6]| == 8 && |version| == 4
    requires file == data + (Flat(cs) + version)
    ensures |file| == |data| + |cs[0]| + |cs[1]| + |cs[2]| + 56
    ensures file[|data|..|data| + |cs[0]|] == cs[0]
    ensures file[|data| + |cs[0]|..|data| + |cs[0]| + |cs[1]|] == cs[1]
    ensures file[|data| + |cs[0]| + |cs[1]|..|file| - 28] == cs[2] + cs[3]
  {
    Positions(cs);
    Chunk(file, data, cs, 0, version);
    Chunk(file, data, cs, 1, version);
    var at := |data| + |cs[0]| + |cs[1]|;
    FromChunk(file, data, cs, 2, version);
    FlatNext(cs, 2, version);
    FlatNext(cs, 3, version);
    TwoChunks(file[at..], cs[2], cs[3], Flat(cs[4..]) + version);
    assert file[at..|file| - 28] == file[at..][..|cs[2]| + 28];
  }

  lemma TwoChunks(s: seq<byte>, a: seq<byte>, b: seq<byte>, t: seq<byte>)
    requires s == a + (b + t)
    ensures s[..|a| + |b|] == a + b
  {}

  /** The slices lie where the sections are; the last one goes on over the library version. */
  ghost predicate Locates(s: Slices, file: seq<byte>, cs: seq<seq<byte>>) {
    && |cs| >= 4
    && Cuts(file, s.pgs, s.pgSize, cs[0])
    && Cuts(file, s.vars, s.varsSize, cs[1])
    && Cuts(file, s.attrs, s.attrsSize, cs[2] + cs[3])
  }

  ghost predicate Cuts(file: seq<byte>, at: nat, size: nat, chunk: seq<byte>) {
    at + size <= |file| && file[at..at + size] == chunk
  }

  method FindSections(file: seq<byte>, host: Endian, ghost w: Endian, ghost data: seq<byte>, ghost info: seq<byte>,
                      ghost subfile: bool, ghost at: Places, ghost cs: seq<seq<byte>>)
    returns (slices: Slices, change: bool)
    requires OffsetsLayout(w, info, at, cs) && PlacesIn(at, |data|, 0, cs)
    requires |info| == INFO_LENGTH && |file| < U64 && file == data + (Flat(cs) + VersionBytes(w, subfile))
    ensures Locates(slices, file, cs) && change == (w != host)
  {
    ghost var version := VersionBytes(w, subfile);
    Trailer(file, data, cs, version);
    slices, change := ReadTrailer(file[|file| - 28..], |file|, host, w, subfile, at.pgs, at.vars, at.attrs);
    SlicesAreSections(file, data, cs, version);
  }

  method ReadSections(file: seq<byte>, host: Endian, change: bool, slices: Slices, ghost w: Endian, ghost index: Index,
                      ghost cs: seq<seq<byte>>)
    returns (r: Index)
    requires SectionsLayout(w, index, cs) && ShortIndex(index) && change == (w != host) && Locates(slices, file, cs)
    ensures r == IndexRead(w, host, index)
  {
    SectionsNotShort(w, index);
    var pgs := ReadPgs(file, host, change, slices.pgs, slices.pgSize, w, index.pgs);
    NothingAfter(cs[1]);
    var vars := ReadEntries(file, host, change, OfVar, slices.vars, slices.varsSize, w, index.vars, []);
    var attrs := ReadEntries(file, host, change, OfAttr, slices.attrs, slices.attrsSize, w, index.attrs, cs[3]);
    r := Index(pgs.value, vars.value, attrs.value);
  }

  lemma NothingAfter(s: seq<byte>)
    ensures s + [] == s
  {}

  /** Opening a file: version word, offsets, then each section. */
  method ReadIndex(file: seq<byte>, host: Endian, ghost w: Endian, ghost data: seq<byte>, ghost index: Index,
                   ghost info: seq<byte>, ghost subfile: bool, ghost at: Places, ghost cs: seq<seq<byte>>)
    returns (r: Index)
    requires IsFile(file, w, data, index, info, subfile, at, cs) && ShortIndex(index)
    ensures r == IndexRead(w, host, index)
  {
    var slices, change := FindSections(file, host, w, data, info, subfile, at, cs);
    r := ReadSections(file, host, change, slices, w, index, cs);
  }
}
