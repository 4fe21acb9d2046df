/**
 Parsing a process group: src/core/adios_bp_v1.c:1111-1242, 1798-2016, and the loop in src/write/adios_posix1.c:554-609.
 */
module BpGroupParser {
  import opened Seqs
  import opened Outcomes
  import opened Bytes
  import opened Types
  import opened Chunks
  import opened Endianness
  import opened ReadBuffers
  import opened BpIndex
  import opened BpParser
  import opened BpVar
  import opened BpVarSize
  import opened BpVarOverhead
  import opened BpVarHeader
  import opened BpPayload
  import opened BpAgreement
  import opened BpGroup

  // ---- The header of a group.

  /** struct adios_process_group_header_struct_v1 */
  datatype GroupHeader = GroupHeader(fortran: bool, name: seq<byte>, coordVar: nat, timeIndexName: seq<byte>,
                                     timeIndex: nat, methods: seq<Transport>)

  predicate GroupNumbersFit(g: Group, totalSize: nat) {
    totalSize < U64 && OrNoId(g.coordVar) < U32 && g.timeIndex < U32 && |g.methods| < 256
  }

  /** The header as it was written, names cut where their lengths are. */
  ghost predicate IsHeaderOf(h: GroupHeader, g: Group) {
    && h.fortran == g.fortran && h.name == Cut(g.name)
    && h.coordVar == (if g.coordVar.Some? then g.coordVar.value else 0)
    && h.timeIndexName == (if g.timeIndexName.Some? then Cut(g.timeIndexName.value) else [])
    && h.timeIndex == g.timeIndex && |h.methods| == |g.methods|
    && forall i | 0 <= i < |g.methods| :: h.methods[i] == Transport(g.methods[i].id, Cut(g.methods[i].parameters))
  }

  method ParseNames(b: ReadBuffer, ghost g: Group, ghost totalSize: nat, ghost w: Endian, ghost cs: seq<seq<byte>>,
                    ghost t: seq<byte>)
    returns (fortran: bool, name: seq<byte>, coordVar: nat, timeIndexName: seq<byte>, timeIndex: nat)
    requires GroupNumbersFit(g, totalSize) && IsNames(w, g, totalSize, cs) && b.At(w, cs, 0, t)
    modifies b`offset
    ensures b.At(w, cs, 6, t) && fortran == g.fortran && name == Cut(g.name) && coordVar == OrNoId(g.coordVar)
    ensures timeIndexName == Cut(OrEmpty(g.timeIndexName)) && timeIndex == g.timeIndex
  {
    var _ := b.Read64(totalSize, w, cs, 0, t);
    fortran := ReadFlag(b, g.fortran, w, cs, 1, t);
    name := ReadStr(b, g.name, w, cs, 2, t);
    coordVar := b.Read32(OrNoId(g.coordVar), w, cs, 3, t);
    timeIndexName := ReadStr(b, OrEmpty(g.timeIndexName), w, cs, 4, t);
    timeIndex := b.Read32(g.timeIndex, w, cs, 5, t);
  }

  method ParseMethod(b: ReadBuffer, ghost m: Transport, ghost w: Endian, ghost cs: seq<seq<byte>>, ghost i: nat,
                     ghost t: seq<byte>) returns (r: Transport)
    requires b.At(w, cs, i, t) && i < |cs| && cs[i] == MethodBytes(w, m)
    modifies b`offset
    ensures b.At(w, cs, i + 1, t) && r == Transport(m.id, Cut(m.parameters))
  {
    ghost var inner, rest := [[m.id], Str(w, m.parameters)], Flat(cs[i + 1..]) + t;
    FlatTwo(inner[0], inner[1]);
    b.Enter(w, cs, i, t, inner);
    var id := b.Take(1, w, inner, 0, rest);
    var parameters := ReadStr(b, m.parameters, w, inner, 1, rest);
    b.Leave(w, cs, i, t, inner);
    r := Transport(id[0], parameters);
  }

  /** The methods that are read. */
  ghost predicate AreMethods(rs: seq<Transport>, ms: seq<Transport>, n: nat) {
    n == |rs| <= |ms| && forall i | 0 <= i < n :: rs[i] == Transport(ms[i].id, Cut(ms[i].parameters))
  }

  method ParseMethods(b: ReadBuffer, count: nat, ghost ms: seq<Transport>, ghost w: Endian, ghost cs: seq<seq<byte>>,
                      ghost t: seq<byte>) returns (r: seq<Transport>)
    requires count == |ms| && cs == MethodChunks(w, ms) && b.At(w, cs, 0, t)
    modifies b`offset
    ensures b.At(w, cs, |cs|, t) && AreMethods(r, ms, |ms|)
  {
    r := [];
    for i := 0 to count
      invariant b.At(w, cs, i, t) && AreMethods(r, ms, i)
    {
      var m := ParseMethod(b, ms[i], w, cs, i, t);
      r := r + [m];
    }
  }

  /** Part i: count, length that nobody looks at, methods. */
  method ParseMethodList(b: ReadBuffer, ghost ms: seq<Transport>, ghost w: Endian, ghost outer: seq<seq<byte>>,
                         ghost i: nat, ghost t: seq<byte>) returns (r: seq<Transport>)
    requires |ms| < 256 && b.At(w, outer, i, t) && i < |outer| && outer[i] == Flat(MethodFields(w, ms))
    modifies b`offset
    ensures b.At(w, outer, i + 1, t) && AreMethods(r, ms, |ms|)
  {
    ghost var fields, rest, cs := MethodFields(w, ms), Flat(outer[i + 1..]) + t, MethodChunks(w, ms);
    b.Enter(w, outer, i, t, fields);
    Pow256Values();
    var count := b.ReadWord(1, |ms|, w, fields, 0, rest);
    var _ := b.Take(2, w, fields, 1, rest);
    b.Enter(w, fields, 2, rest, cs);
    r := ParseMethods(b, count, ms, w, cs, Flat(fields[3..]) + rest);
    b.Leave(w, fields, 2, rest, cs);
    b.Leave(w, outer, i, t, fields);
  }

  /** Both parts of the header. */
  method ParseHeaderOf(b: ReadBuffer, ghost g: Group, ghost totalSize: nat, ghost w: Endian, ghost cs: seq<seq<byte>>,
                       ghost t: seq<byte>) returns (r: GroupHeader)
    requires GroupNumbersFit(g, totalSize) && cs == GroupHeaderParts(w, g, totalSize) && b.At(w, cs, 0, t)
    modifies b`offset
    ensures b.At(w, cs, 2, t) && IsHeaderOf(r, g)
  {
    ghost var fields := NameFields(w, g, totalSize);
    NamesAre(w, g, totalSize);
    b.Enter(w, cs, 0, t, fields);
    var fortran, name, coordVar, timeIndexName, timeIndex :=
      ParseNames(b, g, totalSize, w, fields, Flat(cs[1..]) + t);
    b.Leave(w, cs, 0, t, fields);
    var methods := ParseMethodList(b, g.methods, w, cs, 1, t);
    r := GroupHeader(fortran, name, coordVar, timeIndexName, timeIndex, methods);
  }

  /** adios_parse_process_group_header_v1. */
  method ParseGroupHeader(b: ReadBuffer, ghost g: Group, ghost totalSize: nat, ghost w: Endian, ghost t: seq<byte>)
    returns (r: Result<GroupHeader>)
    requires b.offset <= |b.buff|
    requires |b.buff| - b.offset >= 24 ==>
      GroupNumbersFit(g, totalSize) && b.At(w, GroupHeaderParts(w, g, totalSize), 0, t)
    modifies b`offset
    ensures r.Err? <==> |b.buff| - old(b.offset) < 24
    ensures r.Ok? ==> IsHeaderOf(r.value, g) && b.At(w, GroupHeaderParts(w, g, totalSize), 2, t)
  {
    if |b.buff| - b.offset < 24 {
      return Err;
    }
    var header := ParseHeaderOf(b, g, totalSize, w, GroupHeaderParts(w, g, totalSize), t);
    return Ok(header);
  }

  // ---- Sections.

  /** adios_parse_vars_header_v1 and adios_parse_attributes_header_v1, which ask for 12 and for 10 bytes. */
  method ParseSectionHeader(b: ReadBuffer, least: nat, ghost w: Endian, ghost cs: seq<seq<byte>>, ghost t: seq<byte>)
    returns (r: Result<(nat, nat)>)
    requires b.offset <= |b.buff|
    requires |b.buff| - b.offset >= least ==>
      |cs| < U32 && 12 + |Flat(cs)| < U64 && b.At(w, SectionFields(w, cs), 0, t)
    modifies b`offset
    ensures r.Err? <==> |b.buff| - old(b.offset) < least
    ensures r.Ok? ==> r.value == (|cs|, 12 + |Flat(cs)|) && b.At(w, SectionFields(w, cs), 2, t)
  {
    if |b.buff| - b.offset < least {
      return Err;
    }
    ghost var fields := SectionFields(w, cs);
    var count := b.Read32(|cs|, w, fields, 0, t);
    var length := b.Read64(12 + |Flat(cs)|, w, fields, 1, t);
    return Ok((count, length));
  }

  // ---- Values between machines.

  /** swap_adios_type: the bytes of one element are reversed, those of a complex number, too. */
  method SwapType(bytes: seq<byte>, ty: Datatype, host: Endian) returns (swapped: seq<byte>)
    requires ty != TString ==> |bytes| == TypeSize(ty)
    ensures swapped == if ty == TString then bytes else Rev(bytes)
  {
    if ty == TString { return bytes; }
    Widths();
    swapped := SwapPtr(bytes, host);
  }

  /** swap_adios_type_array: every whole element is reversed. */
  method SwapTypeArray(data: array<byte>, ty: Datatype, host: Endian)
    requires ty != TString
    modifies data
    ensures IsFlipped(data[..], old(data[..]), 0, TypeSize(ty) * (data.Length / TypeSize(ty)), TypeSize(ty))
  {
    Widths();
    var size, done := TypeSize(ty), 0;
    for i := 0 to data.Length / size
      invariant done == size * i <= data.Length && Whole(done, size)
      invariant IsFlipped(data[..], old(data[..]), 0, done, size)
    {
      WholeElements(data.Length, size, i);
      SwapWord(data, 0, done, size, host, old(data[..]));
      done := done + size;
    }
  }

  /**
   What becomes of the data of a variable: not asked for, too big, taken, or a division by the length of an empty
   string.
   */
  datatype Payload = Skipped | Refused | Taken(bytes: seq<byte>) | Divided

  /** The bytes that arrive: between different orders those of every element are reversed. */
  ghost predicate Arrives(bytes: seq<byte>, data: seq<byte>, ty: Datatype, change: bool)
    requires ty != TString
  {
    if change then IsFlipped(bytes, data, 0, TypeSize(ty) * (|data| / TypeSize(ty)), TypeSize(ty)) else bytes == data
  }

  /** What the parser makes of the data, when the application has `wanted` bytes for it, or does not want it. */
  ghost predicate IsPayload(r: Payload, data: seq<byte>, ty: Datatype, wanted: Option<nat>, change: bool) {
    if wanted.None? then r == Skipped
    else if wanted.value < |data| then r == Refused
    else if ty == TString then r == if change then Divided else Taken(data)
    else r.Taken? && Arrives(r.bytes, data, ty, change)
  }

  method TakePayload(data: seq<byte>, ty: Datatype, change: bool, host: Endian) returns (r: Payload)
    ensures IsPayload(r, data, ty, Some(|data|), change)
  {
    if !change { return Taken(data); }
    if ty == TString { return Divided; }  // the number of elements is a division by the size of ""
    var payload := new byte[|data|](i requires 0 <= i < |data| => data[i]);
    assert payload[..] == data;
    SwapTypeArray(payload, ty, host);
    return Taken(payload[..]);
  }

  /** adios_parse_var_data_payload_v1, on field i. */
  method ParsePayload(b: ReadBuffer, size: nat, ty: Datatype, wanted: Option<nat>, ghost w: Endian,
                      ghost cs: seq<seq<byte>>, ghost i: nat, ghost t: seq<byte>) returns (r: Payload)
    requires b.At(w, cs, i, t) && i < |cs| && size == |cs[i]|
    modifies b`offset
    ensures b.At(w, cs, i + 1, t) && IsPayload(r, cs[i], ty, wanted, w != b.host)
  {
    var data := b.Take(size, w, cs, i, t);
    if wanted.None? { return Skipped; }
    if wanted.value < size { return Refused; }
    r := TakePayload(data, ty, b.change, b.host);
  }

  /** An element of a number type means the same on both machines. */
  lemma NumberArrives(w: Endian, host: Endian, n: nat, size: nat)
    requires n < Pow256(size) && w != host
    ensures Rev(Store(w, n, size)) == Store(host, n, size) && Load(host, Rev(Store(w, n, size))) == n
  {
    RevRev(LowBytes(n, size));
    LoadStore(host, n, size);
  }

  /** The real and the imaginary part of a complex number change places. */
  lemma ComplexArrives(w: Endian, host: Endian, re: nat, im: nat, half: nat)
    requires w != host
    ensures Rev(Store(w, re, half) + Store(w, im, half)) == Store(host, im, half) + Store(host, re, half)
  {
    RevOfConcat(Store(w, re, half), Store(w, im, half));
    RevRev(LowBytes(re, half));
    RevRev(LowBytes(im, half));
  }

  lemma RevOfConcat(a: seq<byte>, b: seq<byte>)
    ensures Rev(a + b) == Rev(b) + Rev(a)
  {}

  /** A complex number arrives as it was if and only if both parts are the same. */
  lemma ComplexArrivesIff(w: Endian, host: Endian, re: nat, im: nat, half: nat)
    requires w != host && re < Pow256(half) && im < Pow256(half)
    ensures Rev(Store(w, re, half) + Store(w, im, half)) == Store(host, re, half) + Store(host, im, half) <==> re == im
  {
    ComplexArrives(w, host, re, im, half);
    var a, c := Store(host, re, half), Store(host, im, half);
    assert (c + a)[..half] == c && (a + c)[..half] == a;
    LoadStore(host, re, half);
    LoadStore(host, im, half);
  }

  // ---- Attributes.

  /** struct adios_attribute_struct_v1 */
  datatype AttributeContent = RefersTo(varId: nat) | Holds(type_: Datatype, value: seq<byte>)

  datatype AttributeRead = AttributeRead(id: nat, name: seq<byte>, path: seq<byte>, content: AttributeContent)

  predicate AttributeNumbersFit(a: Attribute) {
    a.id < U32 && (a.varId.Some? ==> a.varId.value < U32) && AttributeFits(a)
  }

  /** The attribute as it was written; a value that is no string has its bytes reversed between different orders. */
  ghost predicate IsAttribute(r: AttributeRead, a: Attribute, change: bool) {
    && r.id == a.id && r.name == Cut(a.name) && r.path == Cut(a.path)
    && (a.varId.Some? ==> r.content == RefersTo(a.varId.value))
    && (a.varId.None? ==> r.content == Holds(a.type_, ValueArrives(a.type_, a.value[..|a.value| % U32], change)))
  }

  function ValueArrives(ty: Datatype, value: seq<byte>, change: bool): seq<byte> {
    if change && ty != TString then Rev(value) else value
  }

  predicate IsAttributeStart(w: Endian, a: Attribute, cs: seq<seq<byte>>) {
    && |cs| == 4 && cs[0] == Store(w, a.id, 4) && cs[1] == Str(w, a.name) && cs[2] == Str(w, a.path)
    && cs[3] == [if a.varId.Some? then YES else NO]
  }

  lemma AttributeStartIs(w: Endian, a: Attribute)
    ensures IsAttributeStart(w, a, AttributeStart(w, a))
  {}

  method ParseAttributeStart(b: ReadBuffer, ghost a: Attribute, ghost w: Endian, ghost cs: seq<seq<byte>>,
                             ghost t: seq<byte>) returns (id: nat, name: seq<byte>, path: seq<byte>, isVar: bool)
    requires AttributeNumbersFit(a) && IsAttributeStart(w, a, cs) && b.At(w, cs, 0, t)
    modifies b`offset
    ensures b.At(w, cs, 4, t) && id == a.id && name == Cut(a.name) && path == Cut(a.path) && isVar == a.varId.Some?
  {
    id := b.Read32(a.id, w, cs, 0, t);
    name := ReadStr(b, a.name, w, cs, 1, t);
    path := ReadStr(b, a.path, w, cs, 2, t);
    isVar := ReadFlag(b, a.varId.Some?, w, cs, 3, t);
  }

  /** A value is never cut if it is no string. */
  lemma KeptWhole(a: Attribute)
    requires AttributeFits(a) && a.varId.None? && a.type_ != TString
    ensures Kept(a.value) == a.value && |a.value| == TypeSize(a.type_)
  {
    Widths();
  }

  method ParseValueOf(b: ReadBuffer, ghost a: Attribute, ghost w: Endian, ghost cs: seq<seq<byte>>, ghost t: seq<byte>)
    returns (r: AttributeContent)
    requires AttributeFits(a) && a.varId.None? && cs == AttributeEnd(w, a) && b.At(w, cs, 0, t)
    modifies b`offset
    ensures b.At(w, cs, 3, t) && r == Holds(a.type_, ValueArrives(a.type_, Kept(a.value), w != b.host))
  {
    var ty := ReadType(b, a.type_, w, cs, 0, t);
    var length := b.Read32(|Kept(a.value)|, w, cs, 1, t);
    var value := b.Take(length, w, cs, 2, t);
    if b.change {
      if a.type_ != TString { KeptWhole(a); }
      value := SwapType(value, ty, b.host);
    }
    r := Holds(ty, value);
  }

  method ParseContent(b: ReadBuffer, isVar: bool, ghost a: Attribute, ghost w: Endian, ghost cs: seq<seq<byte>>,
                      ghost i: nat, ghost t: seq<byte>) returns (r: AttributeContent)
    requires AttributeNumbersFit(a) && isVar == a.varId.Some? && b.At(w, cs, i, t) && i < |cs|
    requires cs[i] == Flat(AttributeEnd(w, a))
    modifies b`offset
    ensures b.At(w, cs, i + 1, t)
    ensures a.varId.Some? ==> r == RefersTo(a.varId.value)
    ensures a.varId.None? ==> r == Holds(a.type_, ValueArrives(a.type_, Kept(a.value), w != b.host))
  {
    ghost var fields, rest := AttributeEnd(w, a), Flat(cs[i + 1..]) + t;
    b.Enter(w, cs, i, t, fields);
    if isVar {
      var varId := b.Read32(a.varId.value, w, fields, 0, rest);
      r := RefersTo(varId);
    } else {
      r := ParseValueOf(b, a, w, fields, rest);
    }
    b.Leave(w, cs, i, t, fields);
  }

  method ParseAttributeParts(b: ReadBuffer, ghost a: Attribute, ghost w: Endian, ghost cs: seq<seq<byte>>,
                             ghost t: seq<byte>) returns (r: AttributeRead)
    requires AttributeNumbersFit(a) && cs == AttributeParts(w, a) && b.At(w, cs, 0, t)
    modifies b`offset
    ensures b.At(w, cs, 2, t) && IsAttribute(r, a, w != b.host)
  {
    ghost var fields := AttributeStart(w, a);
    AttributeStartIs(w, a);
    b.Enter(w, cs, 0, t, fields);
    var id, name, path, isVar := ParseAttributeStart(b, a, w, fields, Flat(cs[1..]) + t);
    b.Leave(w, cs, 0, t, fields);
    var content := ParseContent(b, isVar, a, w, cs, 1, t);
    r := AttributeRead(id, name, path, content);
  }

  /** adios_parse_attribute_v1, on field i. */
  method ParseAttribute(b: ReadBuffer, ghost a: Attribute, ghost w: Endian, ghost cs: seq<seq<byte>>, ghost i: nat,
                        ghost t: seq<byte>) returns (r: Result<AttributeRead>)
    requires b.offset <= |b.buff|
    requires |b.buff| - b.offset >= 15 ==>
      AttributeNumbersFit(a) && b.At(w, cs, i, t) && i < |cs| && cs[i] == AttributeBytes(w, a)
    modifies b`offset
    ensures r.Err? <==> |b.buff| - old(b.offset) < 15
    ensures r.Ok? ==> IsAttribute(r.value, a, w != b.host) && b.At(w, cs, i + 1, t)
  {
    if |b.buff| - b.offset < 15 {
      return Err;
    }
    ghost var parts := AttributeParts(w, a);
    b.ReadLength(4, |Flat(parts)|, w, cs, i, t, parts);
    var attribute := ParseAttributeParts(b, a, w, parts, Flat(cs[i + 1..]) + t);
    b.Leave(w, cs, i, t, parts);
    return Ok(attribute);
  }

  /** A number that an attribute holds is the same on both machines. */
  lemma NumberOfAttribute(w: Endian, host: Endian, a: Attribute, n: nat)
    requires a.varId.None? && AttributeFits(a) && a.type_ != TString && n < Pow256(TypeSize(a.type_))
    requires a.value == Store(w, n, TypeSize(a.type_))
    ensures Load(host, ValueArrives(a.type_, a.value, w != host)) == n
  {
    LoadStore(host, n, TypeSize(a.type_));
    if w != host { NumberArrives(w, host, n, TypeSize(a.type_)); }
  }
}
