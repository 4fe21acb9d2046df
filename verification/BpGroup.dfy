/** A process group: header, variables with their data, attributes. */
module BpGroup {
  import opened Outcomes
  import opened Bytes
  import opened Types
  import opened Chunks
  import opened BpIndex
  import opened BpVar

  /** A transport method and its parameters. */
  datatype Transport = Transport(id: byte, parameters: seq<byte>)

  /** An attribute has a value, or refers to a variable. */
  datatype Attribute = Attribute(id: nat, name: seq<byte>, path: seq<byte>, varId: Option<nat>, type_: Datatype,
                                 value: seq<byte>)

  datatype Group = Group(name: seq<byte>, fortran: bool, coordVar: Option<nat>, timeIndexName: Option<seq<byte>>,
                         timeIndex: nat, methods: seq<Transport>, vars: seq<Var>, attrs: seq<Attribute>)

  /** A value has the size of its type; a string has any. */
  predicate AttributeFits(a: Attribute) {
    a.varId.None? && a.type_ != TString ==> |a.value| == TypeSize(a.type_)
  }

  predicate GroupFits(g: Group) {
    && (forall i | 0 <= i < |g.vars| :: VarFits(g.vars[i]))
    && (forall i | 0 <= i < |g.attrs| :: AttributeFits(g.attrs[i]))
  }

  // ---- Header.

  function MethodBytes(w: Endian, m: Transport): seq<byte> {
    [m.id] + Str(w, m.parameters)
  }

  function MethodChunks(w: Endian, ms: seq<Transport>): (cs: seq<seq<byte>>)
    ensures |cs| == |ms|
  {
    seq(|ms|, i requires 0 <= i < |ms| => MethodBytes(w, ms[i]))
  }

  /** The length of the methods as the writer counts it, from the lengths of the whole parameters. */
  function MethodsLength(ms: seq<Transport>): nat {
    if ms == [] then 0 else MethodsLength(ms[..|ms| - 1]) + 1 + 2 + |ms[|ms| - 1].parameters|
  }

  function MethodFields(w: Endian, ms: seq<Transport>): (cs: seq<seq<byte>>)
    ensures |cs| == 3
  {
    [Store(w, |ms|, 1), Store(w, MethodsLength(ms), 2), Flat(MethodChunks(w, ms))]
  }

  function OrNoId(id: Option<nat>): nat {
    if id.Some? then id.value else 0
  }

  function NameFields(w: Endian, g: Group, totalSize: nat): (cs: seq<seq<byte>>)
    ensures |cs| == 6
  {
    [Store(w, totalSize, 8), [if g.fortran then YES else NO], Str(w, g.name), Store(w, OrNoId(g.coordVar), 4),
     Str(w, OrEmpty(g.timeIndexName)), Store(w, g.timeIndex, 4)]
  }

  /** The same, field by field. */
  predicate IsNames(w: Endian, g: Group, totalSize: nat, cs: seq<seq<byte>>) {
    && |cs| == 6 && cs[0] == Store(w, totalSize, 8) && cs[1] == [if g.fortran then YES else NO]
    && cs[2] == Str(w, g.name) && cs[3] == Store(w, OrNoId(g.coordVar), 4)
    && cs[4] == Str(w, OrEmpty(g.timeIndexName)) && cs[5] == Store(w, g.timeIndex, 4)
  }

  lemma NamesAre(w: Endian, g: Group, totalSize: nat)
    ensures IsNames(w, g, totalSize, NameFields(w, g, totalSize))
  {}

  // ---- Variables and attributes.

  function VarChunks(w: Endian, vs: seq<Var>): (cs: seq<seq<byte>>)
    requires forall i | 0 <= i < |vs| :: VarFits(vs[i])
    ensures |cs| == |vs|
  {
    seq(|vs|, i requires 0 <= i < |vs| => HeaderBytes(w, vs[i]) + vs[i].data)
  }

  function AttributeStart(w: Endian, a: Attribute): (cs: seq<seq<byte>>)
    ensures |cs| == 4
  {
    [Store(w, a.id, 4), Str(w, a.name), Str(w, a.path), [if a.varId.Some? then YES else NO]]
  }

  /** What is written of a value whose length is kept in 32 bits. */
  function Kept(value: seq<byte>): (k: seq<byte>)
    ensures |k| == |value| % U32
  {
    value[..|value| % U32]
  }

  function AttributeEnd(w: Endian, a: Attribute): (cs: seq<seq<byte>>) {
    if a.varId.Some? then [Store(w, a.varId.value, 4)]
    else [Store(w, TypeCode(a.type_), 1), Store(w, |Kept(a.value)|, 4), Kept(a.value)]
  }

  function AttributeParts(w: Endian, a: Attribute): (cs: seq<seq<byte>>)
    ensures |cs| == 2
  {
    [Flat(AttributeStart(w, a)), Flat(AttributeEnd(w, a))]
  }

  function AttributeBytes(w: Endian, a: Attribute): seq<byte> {
    Store(w, |Flat(AttributeParts(w, a))|, 4) + Flat(AttributeParts(w, a))
  }

  function AttributeChunks(w: Endian, attrs: seq<Attribute>): (cs: seq<seq<byte>>)
    ensures |cs| == |attrs|
  {
    seq(|attrs|, i requires 0 <= i < |attrs| => AttributeBytes(w, attrs[i]))
  }

  /** Where each of the chunks starts, when the first starts at `start`. */
  ghost predicate StartsAt(offsets: seq<nat>, start: nat, cs: seq<seq<byte>>, n: nat) {
    n <= |cs| && |offsets| == n && forall i | 0 <= i < n :: offsets[i] == start + |Flat(cs[..i])|
  }

  lemma NextStart(offsets: seq<nat>, start: nat, cs: seq<seq<byte>>, i: nat, offset: nat)
    requires StartsAt(offsets, start, cs, i) && i < |cs| && offset == start + |Flat(cs[..i])|
    ensures StartsAt(offsets + [offset], start, cs, i + 1)
  {}

  /** A section: how many entries, how many bytes with these two numbers, the entries. */
  function SectionFields(w: Endian, cs: seq<seq<byte>>): (fields: seq<seq<byte>>)
    ensures |fields| == 3
  {
    [Store(w, |cs|, 4), Store(w, 12 + |Flat(cs)|, 8), Flat(cs)]
  }

  function GroupHeaderParts(w: Endian, g: Group, totalSize: nat): (cs: seq<seq<byte>>)
    ensures |cs| == 2
  {
    [Flat(NameFields(w, g, totalSize)), Flat(MethodFields(w, g.methods))]
  }

  function GroupParts(w: Endian, g: Group, totalSize: nat): (cs: seq<seq<byte>>)
    requires GroupFits(g)
    ensures |cs| == 3
  {
    [Flat(GroupHeaderParts(w, g, totalSize)), Flat(SectionFields(w, VarChunks(w, g.vars))),
     Flat(SectionFields(w, AttributeChunks(w, g.attrs)))]
  }
}
