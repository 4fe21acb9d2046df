/** A group is written, then its index; whoever reads the index finds the data of every variable. */
module BpWhole {
  import opened Bytes
  import opened Types
  import opened Chunks
  import opened WriteBuffers
  import opened IndexRecords
  import opened BpIndex
  import opened BpVar
  import opened BpVarSize
  import opened BpVarOverhead
  import opened BpGroup
  import opened BpGroupWriter
  import opened BpBuild
  import opened BpFile
  import opened BpRoundTrip

  /** Where the first variable starts in the file, when the group starts at `start`. */
  ghost function FirstVar(w: Endian, g: Group, totalSize: nat, start: nat): nat {
    start + |Flat(GroupHeaderParts(w, g, totalSize))| + 12
  }

  /** A group is something, its variables, and something else. */
  lemma GroupSplit(w: Endian, g: Group, totalSize: nat) returns (a: seq<byte>, z: seq<byte>)
    requires GroupFits(g)
    ensures Flat(GroupParts(w, g, totalSize)) == a + (Flat(VarChunks(w, g.vars)) + z)
    ensures |a| == |Flat(GroupHeaderParts(w, g, totalSize))| + 12
  {
    var parts, section := GroupParts(w, g, totalSize), SectionFields(w, VarChunks(w, g.vars));
    FlatThree(parts[0], parts[1], parts[2]);
    FlatThree(section[0], section[1], section[2]);
    a, z := parts[0] + (section[0] + section[1]), parts[2];
    Regroup(parts[0], section[0], section[1], section[2], z);
  }

  lemma Regroup(h: seq<byte>, c: seq<byte>, l: seq<byte>, f: seq<byte>, z: seq<byte>)
    ensures h + ((c + (l + f)) + z) == (h + (c + l)) + (f + z)
  {}

  lemma Around(before: seq<byte>, a: seq<byte>, f: seq<byte>, z: seq<byte>, after: seq<byte>)
    ensures (before + (a + (f + z))) + after == (before + a) + (f + (z + after))
  {}

  /** The bytes are in the file, from there on. */
  ghost predicate FoundAt(file: seq<byte>, at: nat, bytes: seq<byte>) {
    at + |bytes| <= |file| && file[at..at + |bytes|] == bytes
  }

  lemma ChunkFound(file: seq<byte>, before: seq<byte>, a: seq<byte>, cs: seq<seq<byte>>, z: seq<byte>, after: seq<byte>,
                   i: nat, at: nat)
    requires i < |cs| && file == (before + (a + (Flat(cs) + z))) + after && at == |before| + |a| + |Flat(cs[..i])|
    ensures FoundAt(file, at, cs[i])
  {
    Around(before, a, Flat(cs), z, after);
    Chunk(file, before + a, cs, i, z + after);
  }

  lemma TailFound(file: seq<byte>, at: nat, header: seq<byte>, data: seq<byte>)
    requires FoundAt(file, at, header + data)
    ensures FoundAt(file, at + |header|, data)
  {
    assert file[at + |header|..at + |header| + |data|] == file[at..at + |header + data|][|header|..];
  }

  /** The place is that of the data if and only if the header is below 2^16 bytes, and then the data is there. */
  ghost predicate Leads(file: seq<byte>, at: nat, header: seq<byte>, data: seq<byte>, said: nat) {
    && said + |data| <= |file| && (said == at + |header| <==> |header| < U16)
    && (|header| < U16 ==> file[said..said + |data|] == data)
  }

  /** An offset that counts only 16 bits of the header leads to the data if and only if the header has no more. */
  lemma LeadsIff(file: seq<byte>, at: nat, header: seq<byte>, data: seq<byte>, said: nat)
    requires FoundAt(file, at, header + data) && said == at + |header| % U16
    ensures Leads(file, at, header, data, said)
  {
    TailFound(file, at, header, data);
    WordIff(|header|);
  }

  lemma HeaderBytesLength(w: Endian, v: Var)
    requires VarFits(v)
    ensures |HeaderBytes(w, v)| == HeaderLength(w, v)
  {}

  /** The index of the file: one group, its variables, and the attributes as given. */
  ghost predicate IsIndexOf(index: Index, w: Endian, g: Group, offsets: seq<nat>, fileIndex: nat) {
    GroupFits(g) && |offsets| == |g.vars| && index.vars == Built(w, g, offsets, fileIndex)
  }

  /** Where the index that was read says that the data of an entry's record is. */
  function FoundOffset(index: Index, place: (nat, nat)): (r: nat) {
    var (k, n) := place;
    if k < |index.vars| && n < |index.vars[k].chars| then index.vars[k].chars[n].payloadOffset else 0
  }

  /** The entry of a variable, and how many earlier variables have their records there. */
  function PlaceIn(es: seq<Entry>, g: Group, i: nat): (r: (nat, nat))
    requires i < |g.vars|
  {
    (Position(es, NameOf(g.vars[i])), Earlier(g.vars, NameOf(g.vars[i]), i))
  }

  lemma FoundIsSaid(w: Endian, host: Endian, index: Index, g: Group, offsets: seq<nat>, fileIndex: nat, i: nat)
    requires IsIndexOf(index, w, g, offsets, fileIndex) && i < |g.vars|
    ensures FoundOffset(IndexRead(w, host, index), PlaceIn(index.vars, g, i)) == SaidPayload(g.vars[i], offsets[i])
  {
    RecordOfVar(w, g, offsets, fileIndex, i);
    var (k, n) := PlaceIn(index.vars, g, i);
    var e := index.vars[k];
    assert EntriesRead(w, host, OfVar, index.vars)[k] == EntryRead(w, host, OfVar, e);
    assert SetsRead(w, host, OfVar, e.type_, e.chars)[n].payloadOffset == e.chars[n].payloadOffset;
  }

  /** A group behind what is in the file already. */
  method WriteGroupBytes(w: Endian, start: nat, g: Group, totalSize: nat) returns (bytes: seq<byte>, offsets: seq<nat>)
    requires GroupFits(g)
    ensures bytes == Flat(GroupParts(w, g, totalSize))
    ensures StartsAt(offsets, FirstVar(w, g, totalSize, start), VarChunks(w, g.vars), |g.vars|)
  {
    var b := new WriteBuffer(w);
    offsets := WriteGroup(b, start, g, totalSize);
    bytes := b.data[..b.offset];
    assert [] + Flat(GroupParts(w, g, totalSize)) == Flat(GroupParts(w, g, totalSize));
  }

  /** The offsets that the writer of the group records. */
  ghost function OffsetsOf(w: Endian, g: Group, totalSize: nat, start: nat): (offsets: seq<nat>)
    requires GroupFits(g)
    ensures StartsAt(offsets, FirstVar(w, g, totalSize, start), VarChunks(w, g.vars), |g.vars|)
  {
    seq(|g.vars|, i requires 0 <= i < |g.vars| => FirstVar(w, g, totalSize, start) + |Flat(VarChunks(w, g.vars)[..i])|)
  }

  lemma OffsetsUnique(a: seq<nat>, b: seq<nat>, start: nat, cs: seq<seq<byte>>, n: nat)
    requires StartsAt(a, start, cs, n) && StartsAt(b, start, cs, n)
    ensures a == b
  {}

  /** The index written behind the group. */
  ghost function IndexOf(w: Endian, g: Group, totalSize: nat, start: nat, processId: nat, fileIndex: nat,
                         attrs: seq<Entry>): Index
    requires GroupFits(g)
  {
    Index([Pg(g.name, g.fortran, processId, g.timeIndexName, g.timeIndex, start)],
          Built(w, g, OffsetsOf(w, g, totalSize, start), fileIndex), attrs)
  }

  /** It fits the file when its numbers do and variables that share an entry have one type. */
  lemma IndexOfFits(w: Endian, g: Group, totalSize: nat, start: nat, processId: nat, fileIndex: nat, attrs: seq<Entry>,
                    types: FullName -> Datatype)
    requires GroupFits(g) && |g.vars| < U32 && g.timeIndex < U32 && processId < U32 && fileIndex < U32 && start < U64
    requires EntriesFit(OfAttr, attrs) && ShortEntries(attrs) && ShortStrings(g)
    requires forall i | 0 <= i < |g.vars| :: SaidPayload(g.vars[i], OffsetsOf(w, g, totalSize, start)[i]) < U64
    requires forall i | 0 <= i < |g.vars| :: g.vars[i].type_ == types(NameOf(g.vars[i]))
    ensures IndexFits(IndexOf(w, g, totalSize, start, processId, fileIndex, attrs))
    ensures ShortIndex(IndexOf(w, g, totalSize, start, processId, fileIndex, attrs))
  {
    BuiltFits(w, g, OffsetsOf(w, g, totalSize, start), fileIndex, types);
  }

  /** The index fits behind `start` bytes. */
  ghost predicate FitsBehind(w: Endian, index: Index, info: seq<byte>, start: nat) {
    IndexFits(index) && ShortIndex(index) && |info| == INFO_LENGTH
    && start + |Flat(IndexChunks(w, index, info, start, 0))| + 4 < U64
  }

  /** An index behind some data, written and read. */
  method WriteAndRead(w: Endian, host: Endian, data: seq<byte>, index: Index, info: seq<byte>, subfile: bool,
                      ghost goal: Index, ghost start: nat)
    returns (found: Index, file: seq<byte>)
    requires index == goal && start == |data| && FitsBehind(w, goal, info, start)
    ensures found == IndexRead(w, host, goal) && data <= file
  {
    ghost var at, cs := IndexPlaces(w, goal, start, 0), IndexChunks(w, goal, info, start, 0);
    IndexChunksLaidOut(w, goal, info, start, 0);
    var footer := WriteFooter(w, |data|, index, info, subfile, at, cs);
    file := data + footer;
    found := ReadIndex(file, host, w, data, index, info, subfile, at, cs);
  }

  /** Where the index goes. */
  ghost function GroupEnd(w: Endian, g: Group, totalSize: nat, start: nat): nat
    requires GroupFits(g)
  {
    start + |Flat(GroupParts(w, g, totalSize))|
  }

  /** The group, its index and the footer; and the index as another machine reads it. */
  method WriteAll(w: Endian, host: Endian, before: seq<byte>, g: Group, totalSize: nat, processId: nat, fileIndex: nat,
                  attrs: seq<Entry>, info: seq<byte>, subfile: bool, ghost goal: Index, ghost end: nat)
    returns (written: Index, found: Index, file: seq<byte>)
    requires GroupFits(g) && end == GroupEnd(w, g, totalSize, |before|)
    requires goal == IndexOf(w, g, totalSize, |before|, processId, fileIndex, attrs) && FitsBehind(w, goal, info, end)
    ensures written == goal && found == IndexRead(w, host, goal) && before + Flat(GroupParts(w, g, totalSize)) <= file
  {
    var bytes, offsets := WriteGroupBytes(w, |before|, g, totalSize);
    OffsetsUnique(offsets, OffsetsOf(w, g, totalSize, |before|), FirstVar(w, g, totalSize, |before|),
                  VarChunks(w, g.vars), |g.vars|);
    var entries := BuildEntries(w, g, offsets, fileIndex);
    written := Index([Pg(g.name, g.fortran, processId, g.timeIndexName, g.timeIndex, |before|)], entries, attrs);
    found, file := WriteAndRead(w, host, before + bytes, written, info, subfile, goal, end);
  }

  /** The place of variable i, from where the index says its data is. */
  lemma OffsetLeads(file: seq<byte>, w: Endian, host: Endian, before: seq<byte>, g: Group, totalSize: nat,
                    fileIndex: nat, index: Index, i: nat, at: nat, header: seq<byte>)
    requires GroupFits(g) && i < |g.vars| && before + Flat(GroupParts(w, g, totalSize)) <= file
    requires IsIndexOf(index, w, g, OffsetsOf(w, g, totalSize, |before|), fileIndex)
    requires at == OffsetsOf(w, g, totalSize, |before|)[i] && header == HeaderBytes(w, g.vars[i])
    ensures FoundAt(file, at, header + g.vars[i].data)
    ensures FoundOffset(IndexRead(w, host, index), PlaceIn(index.vars, g, i)) == at + |header| % U16
  {
    FoundIsSaid(w, host, index, g, OffsetsOf(w, g, totalSize, |before|), fileIndex, i);
    SaidIs(w, g.vars[i], at, |header|);
    ItsBytes(file, w, g, totalSize, before, i, at);
  }

  lemma PlaceOf(w: Endian, g: Group, totalSize: nat, start: nat, i: nat, first: nat)
    requires GroupFits(g) && i < |g.vars| && first == |Flat(GroupHeaderParts(w, g, totalSize))| + 12
    ensures OffsetsOf(w, g, totalSize, start)[i] == start + first + |Flat(VarChunks(w, g.vars)[..i])|
  {}

  lemma PrefixSplit(file: seq<byte>, before: seq<byte>, bytes: seq<byte>)
    requires before + bytes <= file
    ensures file == (before + bytes) + file[|before + bytes|..]
  {}

  /** Header and data of variable i are at the place that the writer records. */
  lemma ItsBytes(file: seq<byte>, w: Endian, g: Group, totalSize: nat, before: seq<byte>, i: nat, at: nat)
    requires GroupFits(g) && i < |g.vars| && before + Flat(GroupParts(w, g, totalSize)) <= file
    requires at == OffsetsOf(w, g, totalSize, |before|)[i]
    ensures FoundAt(file, at, VarChunks(w, g.vars)[i])
  {
    var a, z := GroupSplit(w, g, totalSize);
    PlaceOf(w, g, totalSize, |before|, i, |a|);
    PrefixSplit(file, before, Flat(GroupParts(w, g, totalSize)));
    ChunkFound(file, before, a, VarChunks(w, g.vars), z, file[|before + Flat(GroupParts(w, g, totalSize))|..], i, at);
  }

  lemma SaidIs(w: Endian, v: Var, offset: nat, header: nat)
    requires VarFits(v) && header == |HeaderBytes(w, v)|
    ensures SaidPayload(v, offset) == offset + header % U16
  {
    HeaderBytesLength(w, v);
    HeaderSizeExact(w, v);
  }

  /** Exactly when the header is short, the data is where the index says. */
  lemma DataFound(file: seq<byte>, w: Endian, host: Endian, before: seq<byte>, g: Group, totalSize: nat, fileIndex: nat,
                  index: Index, i: nat, offset: nat, at: nat, header: seq<byte>)
    requires GroupFits(g) && i < |g.vars| && before + Flat(GroupParts(w, g, totalSize)) <= file
    requires IsIndexOf(index, w, g, OffsetsOf(w, g, totalSize, |before|), fileIndex)
    requires offset == FoundOffset(IndexRead(w, host, index), PlaceIn(index.vars, g, i))
    requires at == OffsetsOf(w, g, totalSize, |before|)[i] && header == HeaderBytes(w, g.vars[i])
    ensures Leads(file, at, header, g.vars[i].data, offset)
  {
    OffsetLeads(file, w, host, before, g, totalSize, fileIndex, index, i, at, header);
    LeadsIff(file, at, header, g.vars[i].data, offset);
  }

  /** Takes the data of variable i from where the index says. */
  method TakeData(written: Index, found: Index, file: seq<byte>, g: Group, i: nat, ghost w: Endian, ghost host: Endian,
                  ghost before: seq<byte>, ghost totalSize: nat, ghost fileIndex: nat)
    returns (offset: nat, data: seq<byte>)
    requires GroupFits(g) && i < |g.vars| && before + Flat(GroupParts(w, g, totalSize)) <= file
    requires IsIndexOf(written, w, g, OffsetsOf(w, g, totalSize, |before|), fileIndex)
    requires found == IndexRead(w, host, written)
    ensures RightlyFound(w, g, totalSize, |before|, i, offset, data)
  {
    offset := FoundOffset(found, PlaceIn(written.vars, g, i));
    DataFound(file, w, host, before, g, totalSize, fileIndex, written, i, offset,
              OffsetsOf(w, g, totalSize, |before|)[i], HeaderBytes(w, g.vars[i]));
    data := file[offset..offset + |g.vars[i].data|];
  }

  /** The place is that of the data if and only if the header is below 2^16 bytes, and then the data is found there. */
  ghost predicate RightlyFound(w: Endian, g: Group, totalSize: nat, start: nat, i: nat, offset: nat, data: seq<byte>)
    requires GroupFits(g) && i < |g.vars|
  {
    var header := |HeaderBytes(w, g.vars[i])|;
    && (offset == OffsetsOf(w, g, totalSize, start)[i] + header <==> header < U16)
    && |data| == |g.vars[i].data| && (header < U16 ==> data == g.vars[i].data)
  }

  /**
   Write the group, build its index, write the footer, open the file on another machine, and take the
   data of variable i from where the index says. Variables may share a key.
   */
  method WriteAndFind(w: Endian, host: Endian, before: seq<byte>, g: Group, totalSize: nat, processId: nat,
                      fileIndex: nat, attrs: seq<Entry>, info: seq<byte>, subfile: bool, i: nat,
                      ghost index: Index, ghost end: nat)
    returns (offset: nat, data: seq<byte>)
    requires GroupFits(g) && i < |g.vars| && end == GroupEnd(w, g, totalSize, |before|)
    requires index == IndexOf(w, g, totalSize, |before|, processId, fileIndex, attrs) && FitsBehind(w, index, info, end)
    ensures RightlyFound(w, g, totalSize, |before|, i, offset, data)
  {
    var written, found, file := WriteAll(w, host, before, g, totalSize, processId, fileIndex, attrs, info, subfile,
                                         index, end);
    offset, data := TakeData(written, found, file, g, i, w, host, before, totalSize, fileIndex);
  }
}
