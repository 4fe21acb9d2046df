/** Writing a process group: src/core/adios_internals.c:2132-2214, 5114-5302. */
module BpGroupWriter {
  import opened Seqs
  import opened Bytes
  import opened Types
  import opened Chunks
  import opened WriteBuffers
  import opened BpIndex
  import opened BpWriter
  import opened BpVar
  import opened BpVarWriter
  import opened BpGroup

  // ---- Header.

  method WriteNames(b: WriteBuffer, g: Group, totalSize: nat)
    requires b.Valid()
    modifies b
    ensures b.Valid() && b.text == old(b.text) + Flat(NameFields(b.host, g, totalSize))
  {
    ghost var pre, cs := b.text, NameFields(b.host, g, totalSize);
    b.HasNone(cs);
    var size := b.Put(Store(b.host, totalSize, 8), 0, pre, cs, 0);
    size := b.Put([if g.fortran then YES else NO], size, pre, cs, 1);
    size := PutStr(b, g.name, size, pre, cs, 2);
    size := b.Put(Store(b.host, OrNoId(g.coordVar), 4), size, pre, cs, 3);
    size := PutStr(b, OrEmpty(g.timeIndexName), size, pre, cs, 4);
    size := b.Put(Store(b.host, g.timeIndex, 4), size, pre, cs, 5);
    b.HasAll(pre, cs, size);
  }

  method CountMethods(ms: seq<Transport>) returns (count: nat, length: nat)
    ensures count == |ms| && length == MethodsLength(ms)
  {
    count, length := 0, 0;
    for i := 0 to |ms|
      invariant count == i && length == MethodsLength(ms[..i])
    {
      count := count + 1;
      length := length + 1 + 2 + |ms[i].parameters|;
      assert ms[..i + 1][..i] == ms[..i];
    }
    assert ms[..|ms|] == ms;
  }

  method WriteMethod(b: WriteBuffer, m: Transport)
    requires b.Valid()
    modifies b
    ensures b.Valid() && b.text == old(b.text) + MethodBytes(b.host, m)
  {
    b.BufferWrite([m.id]);
    var len := |m.parameters| % U16;
    b.BufferWrite(Store(b.host, len, 2));
    b.BufferWrite(m.parameters[..len]);
    Assoc(old(b.text) + [m.id], Store(b.host, len, 2), m.parameters[..len]);
    Assoc(old(b.text), [m.id], Str(b.host, m.parameters));
  }

  method WriteMethods(b: WriteBuffer, ms: seq<Transport>)
    requires b.Valid()
    modifies b
    ensures b.Valid() && b.text == old(b.text) + Flat(MethodChunks(b.host, ms))
  {
    ghost var pre, cs := b.text, MethodChunks(b.host, ms);
    ghost var size: nat := 0;
    b.HasNone(cs);
    for i := 0 to |ms|
      invariant b.Has(pre, cs, i, size)
    {
      ghost var before := b.text;
      WriteMethod(b, ms[i]);
      b.Wrote(before, size, pre, cs, i);
      size := size + |cs[i]|;
    }
    b.HasAll(pre, cs, size);
  }

  method WriteMethodList(b: WriteBuffer, ms: seq<Transport>)
    requires b.Valid()
    modifies b
    ensures b.Valid() && b.text == old(b.text) + Flat(MethodFields(b.host, ms))
  {
    ghost var pre, cs := b.text, MethodFields(b.host, ms);
    b.HasNone(cs);
    var count, length := CountMethods(ms);
    var size := b.Put(Store(b.host, count, 1), 0, pre, cs, 0);
    size := b.Put(Store(b.host, length, 2), size, pre, cs, 1);
    ghost var before := b.text;
    WriteMethods(b, ms);
    b.Wrote(before, size, pre, cs, 2);
    b.HasAll(pre, cs, size + |cs[2]|);
  }

  /** adios_write_process_group_header_v1. */
  method WriteGroupHeader(b: WriteBuffer, g: Group, totalSize: nat)
    requires b.Valid()
    modifies b
    ensures b.Valid() && b.text == old(b.text) + Flat(GroupHeaderParts(b.host, g, totalSize))
  {
    WriteNames(b, g, totalSize);
    WriteMethodList(b, g.methods);
    FlatTwo(Flat(NameFields(b.host, g, totalSize)), Flat(MethodFields(b.host, g.methods)));
    Assoc(old(b.text), Flat(NameFields(b.host, g, totalSize)), Flat(MethodFields(b.host, g.methods)));
  }

  // ---- Variables: adios_write_open_vars_v1, headers and data, adios_write_close_vars_v1.

  method WriteOneVar(b: WriteBuffer, baseOffset: nat, v: Var) returns (writeOffset: nat)
    requires b.Valid() && VarFits(v)
    modifies b
    ensures b.Valid() && b.text == old(b.text) + (HeaderBytes(b.host, v) + v.data)
    ensures writeOffset == baseOffset + |old(b.text)|
  {
    var total;
    total, writeOffset := WriteVarHeader(b, baseOffset, v);
    WriteVarPayload(b, v);
    Assoc(old(b.text), HeaderBytes(b.host, v), v.data);
  }

  /** All variables; `offsets` are the places that their headers are said to have in the file. */
  method WriteVars(b: WriteBuffer, baseOffset: nat, vs: seq<Var>)
    returns (offsets: seq<nat>, varsWritten: nat, ghost size: nat)
    requires b.Valid() && forall i | 0 <= i < |vs| :: VarFits(vs[i])
    modifies b
    ensures b.Has(old(b.text), VarChunks(b.host, vs), |vs|, size) && varsWritten == |vs|
    ensures StartsAt(offsets, baseOffset + |old(b.text)|, VarChunks(b.host, vs), |vs|)
  {
    ghost var pre, cs := b.text, VarChunks(b.host, vs);
    b.HasNone(cs);
    offsets, varsWritten, size := [], 0, 0;
    for i := 0 to |vs|
      invariant varsWritten == i && b.Has(pre, cs, i, size) && StartsAt(offsets, baseOffset + |pre|, cs, i)
    {
      var offset;
      offset, size := PutVar(b, baseOffset, vs[i], size, pre, cs, i);
      NextStart(offsets, baseOffset + |pre|, cs, i, offset);
      offsets := offsets + [offset];
      varsWritten := varsWritten + 1;
    }
  }

  method PutVar(b: WriteBuffer, baseOffset: nat, v: Var, ghost size: nat, ghost pre: seq<byte>,
                ghost cs: seq<seq<byte>>, ghost i: nat)
    returns (offset: nat, ghost newSize: nat)
    requires VarFits(v) && b.Has(pre, cs, i, size) && i < |cs| && cs[i] == HeaderBytes(b.host, v) + v.data
    modifies b
    ensures b.Has(pre, cs, i + 1, newSize) && offset == baseOffset + |pre| + |Flat(cs[..i])|
  {
    offset := WriteOneVar(b, baseOffset, v);
    b.Wrote(old(b.text), size, pre, cs, i);
    newSize := size + |cs[i]|;
  }

  /** adios_write_close_vars_v1 and adios_write_close_attributes_v1. */
  method CloseSection(b: WriteBuffer, varsStart: nat, varsWritten: nat, ghost size: nat, ghost before: seq<byte>,
                      ghost pre: seq<byte>, ghost cs: seq<seq<byte>>)
    requires b.Has(pre, cs, |cs|, size) && Gap(before, pre, 12) && varsStart == |before| && varsWritten == |cs|
    modifies b
    ensures b.Valid() && b.text == before + Flat(SectionFields(b.host, cs))
  {
    b.HasAll(pre, cs, size);
    var length := b.offset - varsStart;
    b.FillTwo(varsStart, Store(b.host, varsWritten, 4), Store(b.host, length, 8), size, before, pre, cs);
  }

  method WriteVarSection(b: WriteBuffer, baseOffset: nat, vs: seq<Var>) returns (offsets: seq<nat>)
    requires b.Valid() && forall i | 0 <= i < |vs| :: VarFits(vs[i])
    modifies b
    ensures b.Valid() && b.text == old(b.text) + Flat(SectionFields(b.host, VarChunks(b.host, vs)))
    ensures StartsAt(offsets, baseOffset + |old(b.text)| + 12, VarChunks(b.host, vs), |vs|)
  {
    var varsStart := b.Skip(4 + 8, VarChunks(b.host, vs));
    ghost var pre := b.text;
    var varsWritten;
    ghost var size;
    offsets, varsWritten, size := WriteVars(b, baseOffset, vs);
    CloseSection(b, varsStart, varsWritten, size, old(b.text), pre, VarChunks(b.host, vs));
  }

  // ---- Attributes.

  method WriteAttributeStart(b: WriteBuffer, a: Attribute) returns (size: nat)
    requires b.Valid()
    modifies b
    ensures b.Valid() && b.text == old(b.text) + Flat(AttributeStart(b.host, a))
    ensures size == |Flat(AttributeStart(b.host, a))|
  {
    ghost var pre, cs := b.text, AttributeStart(b.host, a);
    b.HasNone(cs);
    size := b.Put(Store(b.host, a.id, 4), 0, pre, cs, 0);
    size := PutStr(b, a.name, size, pre, cs, 1);
    size := PutStr(b, a.path, size, pre, cs, 2);
    size := b.Put([if a.varId.Some? then YES else NO], size, pre, cs, 3);
    b.HasAll(pre, cs, size);
  }

  method WriteAttributeEnd(b: WriteBuffer, a: Attribute) returns (size: nat)
    requires b.Valid()
    modifies b
    ensures b.Valid() && b.text == old(b.text) + Flat(AttributeEnd(b.host, a))
    ensures size == |Flat(AttributeEnd(b.host, a))|
  {
    ghost var pre, cs := b.text, AttributeEnd(b.host, a);
    b.HasNone(cs);
    if a.varId.Some? {
      size := b.Put(Store(b.host, a.varId.value, 4), 0, pre, cs, 0);
    } else {
      size := b.Put(Store(b.host, TypeCode(a.type_), 1), 0, pre, cs, 0);
      var t := |a.value| % U32;
      size := b.Put(Store(b.host, t, 4), size, pre, cs, 1);
      size := b.Put(a.value[..t], size, pre, cs, 2);
    }
    b.HasAll(pre, cs, size);
  }

  /** adios_write_attribute_v1: the length is patched in at the end. */
  method WriteAttribute(b: WriteBuffer, a: Attribute)
    requires b.Valid()
    modifies b
    ensures b.Valid() && b.text == old(b.text) + AttributeBytes(b.host, a)
  {
    ghost var cs := AttributeParts(b.host, a);
    var start := b.Skip(4, cs);
    ghost var pre := b.text;
    var size := WriteAttributeStart(b, a);
    b.Wrote(pre, 0, pre, cs, 0);
    ghost var before := b.text;
    var n := WriteAttributeEnd(b, a);
    b.Wrote(before, size, pre, cs, 1);
    b.HasAll(pre, cs, size + n);
    b.Fill(start, Store(b.host, size + n, 4), size + n, old(b.text), pre, cs);
  }

  method WriteAttributes(b: WriteBuffer, attrs: seq<Attribute>) returns (varsWritten: nat, ghost size: nat)
    requires b.Valid()
    modifies b
    ensures b.Has(old(b.text), AttributeChunks(b.host, attrs), |attrs|, size) && varsWritten == |attrs|
  {
    ghost var pre, cs := b.text, AttributeChunks(b.host, attrs);
    b.HasNone(cs);
    varsWritten, size := 0, 0;
    for i := 0 to |attrs|
      invariant varsWritten == i && b.Has(pre, cs, i, size)
    {
      ghost var before := b.text;
      WriteAttribute(b, attrs[i]);
      b.Wrote(before, size, pre, cs, i);
      varsWritten := varsWritten + 1;
      size := size + |cs[i]|;
    }
  }

  method WriteAttributeSection(b: WriteBuffer, attrs: seq<Attribute>)
    requires b.Valid()
    modifies b
    ensures b.Valid() && b.text == old(b.text) + Flat(SectionFields(b.host, AttributeChunks(b.host, attrs)))
  {
    var varsStart := b.Skip(4 + 8, AttributeChunks(b.host, attrs));
    ghost var pre := b.text;
    var varsWritten;
    ghost var size;
    varsWritten, size := WriteAttributes(b, attrs);
    CloseSection(b, varsStart, varsWritten, size, old(b.text), pre, AttributeChunks(b.host, attrs));
  }

  /** A whole process group, every variable and every attribute once. */
  method WriteGroup(b: WriteBuffer, baseOffset: nat, g: Group, totalSize: nat) returns (offsets: seq<nat>)
    requires b.Valid() && GroupFits(g)
    modifies b
    ensures b.Valid() && b.text == old(b.text) + Flat(GroupParts(b.host, g, totalSize))
    ensures StartsAt(offsets, baseOffset + |old(b.text)| + |Flat(GroupHeaderParts(b.host, g, totalSize))| + 12,
                     VarChunks(b.host, g.vars), |g.vars|)
  {
    WriteGroupHeader(b, g, totalSize);
    offsets := WriteVarSection(b, baseOffset, g.vars);
    WriteAttributeSection(b, g.attrs);
    ghost var cs := GroupParts(b.host, g, totalSize);
    OneByOne(old(b.text), cs[0], cs[1], cs[2]);
    assert cs == [cs[0], cs[1], cs[2]];
  }
}
