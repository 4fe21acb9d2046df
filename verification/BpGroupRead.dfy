/** A whole process group, written and read on another machine: src/write/adios_posix1.c:554-609. */
module BpGroupRead {
  import opened Outcomes
  import opened Bytes
  import opened Types
  import opened Chunks
  import opened WriteBuffers
  import opened ReadBuffers
  import opened BpIndex
  import opened BpVar
  import opened BpVarSize
  import opened BpVarOverhead
  import opened BpVarHeader
  import opened BpPayload
  import opened BpAgreement
  import opened BpGroup
  import opened BpGroupSize
  import opened BpGroupWriter
  import opened BpGroupParser

  datatype VarRead = VarRead(header: VarHeader, payload: Payload)

  datatype GroupRead = GroupRead(header: GroupHeader, vars: seq<VarRead>, attrs: seq<AttributeRead>)

  /** How many bytes the application has for the data of a variable, if it wants it. */
  type Wanted = VarHeader -> Option<nat>

  /** Header and data of a variable as they are read. */
  ghost predicate IsVar(r: VarRead, w: Endian, host: Endian, v: Var, wanted: Wanted) {
    && Measured(w, v) && r.header == HeaderRead(w, host, v)
    && IsPayload(r.payload, v.data, v.type_, wanted(r.header), w != host)
  }

  /** The cursor stays right behind the data: the size of the characteristics is not cut. */
  ghost predicate VarReadable(w: Endian, v: Var) {
    Measured(w, v) && CharsSize(v) < U16
  }

  ghost predicate AllReadable(w: Endian, vs: seq<Var>) {
    (forall i | 0 <= i < |vs| :: VarFits(vs[i])) && forall i | 0 <= i < |vs| :: VarReadable(w, vs[i])
  }

  ghost predicate GroupReadable(w: Endian, g: Group, totalSize: nat) {
    && GroupFits(g) && GroupNumbersFit(g, totalSize) && |g.vars| < U32 && |g.attrs| < U32
    && AllReadable(w, g.vars)
    && (forall i | 0 <= i < |g.attrs| :: AttributeNumbersFit(g.attrs[i]))
    && 12 + |Flat(VarChunks(w, g.vars))| < U64 && 12 + |Flat(AttributeChunks(w, g.attrs))| < U64
  }

  lemma HeaderAtLeast(w: Endian, v: Var)
    requires VarFits(v)
    ensures HeaderLength(w, v) >= 23
  {
    StartLength(w, v);
    DimListLength(w, v.dims);
    Sum3(HeaderParts(w, v));
    Sum3(CharFields(w, v));
  }

  lemma BytesLeft(b: ReadBuffer, w: Endian, cs: seq<seq<byte>>, i: nat, t: seq<byte>)
    requires b.At(w, cs, i, t) && i < |cs|
    ensures |b.buff| - b.offset >= |cs[i]|
  {
    assert |b.buff[b.offset..]| == |Flat(cs[i..]) + t|;
    FlatNext(cs, i, t);
  }

  /** Header and data, on field i. */
  method ParseVar(b: ReadBuffer, wanted: Wanted, ghost v: Var, ghost w: Endian, ghost cs: seq<seq<byte>>, ghost i: nat,
                  ghost t: seq<byte>) returns (r: VarRead)
    requires VarReadable(w, v) && b.At(w, cs, i, t) && i < |cs| && cs[i] == HeaderBytes(w, v) + v.data
    modifies b`offset
    ensures b.At(w, cs, i + 1, t) && IsVar(r, w, b.host, v, wanted)
  {
    ghost var both, rest, parts := [HeaderBytes(w, v), v.data], Flat(cs[i + 1..]) + t, LengthAndParts(w, v);
    FlatTwo(both[0], both[1]);
    FlatTwo(parts[0], parts[1]);
    b.Enter(w, cs, i, t, both);
    b.Enter(w, both, 0, rest, parts);
    HeaderAtLeast(w, v);
    LengthFits(b, w, v, Flat(both[1..]) + rest);
    var header := ParseVarHeader(b, v, w, Flat(both[1..]) + rest);
    b.Leave(w, both, 0, rest, parts);
    PayloadSizeExactIff(w, b.host, v);
    var payload := ParsePayload(b, header.value.payloadSize, header.value.type_, wanted(header.value), w, both, 1,
                                rest);
    b.Leave(w, cs, i, t, both);
    r := VarRead(header.value, payload);
  }

  lemma LengthFits(b: ReadBuffer, w: Endian, v: Var, t: seq<byte>)
    requires VarFits(v) && b.At(w, LengthAndParts(w, v), 0, t)
    ensures |b.buff| - b.offset >= HeaderLength(w, v)
  {
    WholeLength(w, v);
    assert LengthAndParts(w, v)[0..] == LengthAndParts(w, v);
    assert |b.buff[b.offset..]| == |Flat(LengthAndParts(w, v)) + t|;
  }

  ghost predicate AreVars(rs: seq<VarRead>, w: Endian, host: Endian, vs: seq<Var>, wanted: Wanted, n: nat) {
    n == |rs| <= |vs| && forall i | 0 <= i < n :: IsVarAt(rs, w, host, vs, wanted, i)
  }

  ghost predicate IsVarAt(rs: seq<VarRead>, w: Endian, host: Endian, vs: seq<Var>, wanted: Wanted, i: nat) {
    i < |rs| && i < |vs| && IsVar(rs[i], w, host, vs[i], wanted)
  }

  lemma StillVarAt(rs: seq<VarRead>, w: Endian, host: Endian, vs: seq<Var>, wanted: Wanted, i: nat, r: VarRead)
    requires IsVarAt(rs, w, host, vs, wanted, i)
    ensures IsVarAt(rs + [r], w, host, vs, wanted, i)
  {
    assert (rs + [r])[i] == rs[i];
  }

  lemma OneMoreVar(rs: seq<VarRead>, w: Endian, host: Endian, vs: seq<Var>, wanted: Wanted, i: nat, r: VarRead)
    requires AreVars(rs, w, host, vs, wanted, i) && i < |vs| && IsVar(r, w, host, vs[i], wanted)
    ensures AreVars(rs + [r], w, host, vs, wanted, i + 1)
  {
    forall j | 0 <= j < i + 1 ensures IsVarAt(rs + [r], w, host, vs, wanted, j) {
      if j < i { StillVarAt(rs, w, host, vs, wanted, j, r); } else { assert (rs + [r])[j] == r; }
    }
  }

  lemma ChunkOf(w: Endian, vs: seq<Var>, i: nat)
    requires AllReadable(w, vs) && i < |vs|
    ensures VarReadable(w, vs[i]) && VarChunks(w, vs)[i] == HeaderBytes(w, vs[i]) + vs[i].data
  {}

  method ParseVars(b: ReadBuffer, count: nat, wanted: Wanted, ghost vs: seq<Var>, ghost w: Endian,
                   ghost cs: seq<seq<byte>>, ghost t: seq<byte>) returns (r: seq<VarRead>)
    requires AllReadable(w, vs) && count == |vs| && cs == VarChunks(w, vs)
    requires b.At(w, cs, 0, t)
    modifies b`offset
    ensures b.At(w, cs, |cs|, t) && AreVars(r, w, b.host, vs, wanted, |vs|)
  {
    r := [];
    for i := 0 to count
      invariant b.At(w, cs, i, t) && AreVars(r, w, b.host, vs, wanted, i)
    {
      ChunkOf(w, vs, i);
      var v := ParseVar(b, wanted, vs[i], w, cs, i, t);
      OneMoreVar(r, w, b.host, vs, wanted, i, v);
      r := r + [v];
    }
  }

  ghost predicate AreAttributes(rs: seq<AttributeRead>, attrs: seq<Attribute>, change: bool, n: nat) {
    n == |rs| <= |attrs| && forall i | 0 <= i < n :: IsAttribute(rs[i], attrs[i], change)
  }

  lemma AttributeAtLeast(w: Endian, a: Attribute)
    ensures |AttributeBytes(w, a)| >= 15
  {
    AttributeLength(w, a);
    WordIff(|a.name|);
    WordIff(|a.path|);
  }

  method ParseAttributes(b: ReadBuffer, count: nat, ghost attrs: seq<Attribute>, ghost w: Endian,
                         ghost cs: seq<seq<byte>>, ghost t: seq<byte>) returns (r: seq<AttributeRead>)
    requires (forall i | 0 <= i < |attrs| :: AttributeNumbersFit(attrs[i])) && count == |attrs|
    requires cs == AttributeChunks(w, attrs) && b.At(w, cs, 0, t)
    modifies b`offset
    ensures b.At(w, cs, |cs|, t) && AreAttributes(r, attrs, w != b.host, |attrs|)
  {
    r := [];
    for i := 0 to count
      invariant b.At(w, cs, i, t) && AreAttributes(r, attrs, w != b.host, i)
    {
      BytesLeft(b, w, cs, i, t);
      AttributeAtLeast(w, attrs[i]);
      var a := ParseAttribute(b, attrs[i], w, cs, i, t);
      r := r + [a.value];
    }
  }

  lemma SectionLeft(b: ReadBuffer, w: Endian, cs: seq<seq<byte>>, t: seq<byte>)
    requires b.At(w, SectionFields(w, cs), 0, t)
    ensures |b.buff| - b.offset >= 12
  {
    var fields := SectionFields(w, cs);
    Sum3(fields);
    assert fields[0..] == fields;
    assert |b.buff[b.offset..]| == |Flat(fields) + t|;
  }

  /** Part i: the variables. */
  method ParseVarSection(b: ReadBuffer, wanted: Wanted, ghost vs: seq<Var>, ghost w: Endian,
                         ghost outer: seq<seq<byte>>, ghost i: nat, ghost t: seq<byte>) returns (r: seq<VarRead>)
    requires AllReadable(w, vs) && |vs| < U32 && 12 + |Flat(VarChunks(w, vs))| < U64
    requires b.At(w, outer, i, t) && i < |outer| && outer[i] == Flat(SectionFields(w, VarChunks(w, vs)))
    modifies b`offset
    ensures b.At(w, outer, i + 1, t) && AreVars(r, w, b.host, vs, wanted, |vs|)
  {
    ghost var cs, rest := VarChunks(w, vs), Flat(outer[i + 1..]) + t;
    ghost var fields := SectionFields(w, cs);
    b.Enter(w, outer, i, t, fields);
    SectionLeft(b, w, cs, rest);
    var section := ParseSectionHeader(b, 12, w, cs, rest);
    b.Enter(w, fields, 2, rest, cs);
    r := ParseVars(b, section.value.0, wanted, vs, w, cs, Flat(fields[3..]) + rest);
    b.Leave(w, fields, 2, rest, cs);
    b.Leave(w, outer, i, t, fields);
  }

  /** Part i: the attributes. */
  method ParseAttributeSection(b: ReadBuffer, ghost attrs: seq<Attribute>, ghost w: Endian, ghost outer: seq<seq<byte>>,
                               ghost i: nat, ghost t: seq<byte>) returns (r: seq<AttributeRead>)
    requires (forall i | 0 <= i < |attrs| :: AttributeNumbersFit(attrs[i])) && |attrs| < U32
    requires 12 + |Flat(AttributeChunks(w, attrs))| < U64
    requires b.At(w, outer, i, t) && i < |outer| && outer[i] == Flat(SectionFields(w, AttributeChunks(w, attrs)))
    modifies b`offset
    ensures b.At(w, outer, i + 1, t) && AreAttributes(r, attrs, w != b.host, |attrs|)
  {
    ghost var cs, rest := AttributeChunks(w, attrs), Flat(outer[i + 1..]) + t;
    ghost var fields := SectionFields(w, cs);
    b.Enter(w, outer, i, t, fields);
    SectionLeft(b, w, cs, rest);
    var section := ParseSectionHeader(b, 10, w, cs, rest);
    b.Enter(w, fields, 2, rest, cs);
    r := ParseAttributes(b, section.value.0, attrs, w, cs, Flat(fields[3..]) + rest);
    b.Leave(w, fields, 2, rest, cs);
    b.Leave(w, outer, i, t, fields);
  }

  lemma GroupLeft(b: ReadBuffer, w: Endian, g: Group, totalSize: nat, t: seq<byte>)
    requires b.At(w, GroupHeaderParts(w, g, totalSize), 0, t)
    ensures |b.buff| - b.offset >= 24
  {
    var parts := GroupHeaderParts(w, g, totalSize);
    FlatTwo(parts[0], parts[1]);
    Sum6(NameFields(w, g, totalSize));
    Sum3(MethodFields(w, g.methods));
    assert parts[0..] == parts;
    assert |b.buff[b.offset..]| == |Flat(parts) + t|;
  }

  /** The group is read as it was written. */
  ghost predicate IsGroup(r: GroupRead, w: Endian, host: Endian, g: Group, wanted: Wanted) {
    && IsHeaderOf(r.header, g) && AreVars(r.vars, w, host, g.vars, wanted, |g.vars|)
    && AreAttributes(r.attrs, g.attrs, w != host, |g.attrs|)
  }

  ghost predicate AreParts(w: Endian, g: Group, totalSize: nat, parts: seq<seq<byte>>)
    requires GroupFits(g)
  {
    && |parts| == 3 && parts[0] == Flat(GroupHeaderParts(w, g, totalSize))
    && parts[1] == Flat(SectionFields(w, VarChunks(w, g.vars)))
    && parts[2] == Flat(SectionFields(w, AttributeChunks(w, g.attrs)))
  }

  /** Part 0: the header. */
  method ParseHeaderPart(b: ReadBuffer, ghost g: Group, ghost totalSize: nat, ghost w: Endian,
                         ghost parts: seq<seq<byte>>, ghost t: seq<byte>) returns (r: GroupHeader)
    requires GroupNumbersFit(g, totalSize) && b.At(w, parts, 0, t) && 0 < |parts|
    requires parts[0] == Flat(GroupHeaderParts(w, g, totalSize))
    modifies b`offset
    ensures b.At(w, parts, 1, t) && IsHeaderOf(r, g)
  {
    ghost var header, rest := GroupHeaderParts(w, g, totalSize), Flat(parts[1..]) + t;
    b.Enter(w, parts, 0, t, header);
    GroupLeft(b, w, g, totalSize, rest);
    var h := ParseGroupHeader(b, g, totalSize, w, rest);
    b.Leave(w, parts, 0, t, header);
    r := h.value;
  }

  /** The loops of a reader over a group: header, variables with their data, attributes. */
  method ParseGroup(b: ReadBuffer, wanted: Wanted, ghost g: Group, ghost totalSize: nat, ghost w: Endian,
                    ghost parts: seq<seq<byte>>, ghost t: seq<byte>) returns (r: GroupRead)
    requires GroupReadable(w, g, totalSize) && AreParts(w, g, totalSize, parts) && b.At(w, parts, 0, t)
    modifies b`offset
    ensures b.At(w, parts, 3, t) && IsGroup(r, w, b.host, g, wanted)
  {
    var header := ParseHeaderPart(b, g, totalSize, w, parts, t);
    var vars := ParseVarSection(b, wanted, g.vars, w, parts, 1, t);
    var attrs := ParseAttributeSection(b, g.attrs, w, parts, 2, t);
    r := GroupRead(header, vars, attrs);
  }

  /** A group behind some bytes. */
  method WriteBehind(w: Endian, before: seq<byte>, baseOffset: nat, g: Group, totalSize: nat,
                     ghost parts: seq<seq<byte>>)
    returns (file: seq<byte>)
    requires GroupFits(g) && parts == GroupParts(w, g, totalSize)
    ensures file == before + Flat(parts)
  {
    var out := new WriteBuffer(w);
    out.BufferWrite(before);
    assert [] + before == before;
    var _ := WriteGroup(out, baseOffset, g, totalSize);
    file := out.data[..out.offset];
  }

  method ReadBehind(file: seq<byte>, start: nat, host: Endian, change: bool, wanted: Wanted, ghost g: Group,
                    ghost totalSize: nat, ghost w: Endian, ghost parts: seq<seq<byte>>)
    returns (r: GroupRead, end: nat)
    requires GroupReadable(w, g, totalSize) && AreParts(w, g, totalSize, parts) && change == (w != host)
    requires start <= |file| && file[start..] == Flat(parts)
    ensures IsGroup(r, w, host, g, wanted) && end == |file|
  {
    var b := new ReadBuffer(host, file, start, change);
    assert parts[0..] == parts && Flat(parts) + [] == Flat(parts);
    r := ParseGroup(b, wanted, g, totalSize, w, parts, []);
    end := b.offset;
    Used(b, start, w, parts, []);
  }

  /** A group behind some bytes, written and read on another machine, to its end. */
  method WriteAndReadGroup(w: Endian, host: Endian, before: seq<byte>, baseOffset: nat, g: Group, totalSize: nat,
                           wanted: Wanted) returns (r: GroupRead, end: nat)
    requires GroupReadable(w, g, totalSize)
    ensures IsGroup(r, w, host, g, wanted) && end == |before| + |Flat(GroupParts(w, g, totalSize))|
  {
    ghost var parts := GroupParts(w, g, totalSize);
    var file := WriteBehind(w, before, baseOffset, g, totalSize, parts);
    assert file[|before|..] == Flat(parts);
    r, end := ReadBehind(file, |before|, host, w != host, wanted, g, totalSize, w, parts);
  }
}
