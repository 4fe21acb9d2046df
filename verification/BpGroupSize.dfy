/**
 The size of a process group: adios_calc_overhead_v1, src/core/adios_internals.c:2056-2130, against what is written.
 */
module BpGroupSize {
  import opened Bytes
  import opened Chunks
  import opened WriteBuffers
  import opened BpIndex
  import opened BpVar
  import opened BpVarSize
  import opened BpVarOverhead
  import opened BpGroup
  import opened BpGroupWriter

  // ---- The calculator.

  /** adios_calc_attribute_overhead_v1, in 32 bits. */
  function AttributeOverhead(a: Attribute): nat {
    AttributeTotal(a, |a.value|) % U32
  }

  /** Length, id, name, path, flag; then an id, or type, length and value. */
  function AttributeTotal(a: Attribute, value: nat): nat {
    4 + 4 + 2 + |a.name| + 2 + |a.path| + 1 + (if a.varId.Some? then 4 else 1 + 4 + value)
  }

  function AttributesOverhead(attrs: seq<Attribute>): nat {
    if attrs == [] then 0 else AttributesOverhead(attrs[..|attrs| - 1]) + AttributeOverhead(attrs[|attrs| - 1])
  }

  predicate AllFit(vs: seq<Var>) {
    forall i | 0 <= i < |vs| :: VarFits(vs[i])
  }

  /** The headers, each in 16 bits. */
  function VarsOverhead(vs: seq<Var>): nat
    requires AllFit(vs)
  {
    if vs == [] then 0 else VarsOverhead(vs[..|vs| - 1]) + HeaderSize(vs[|vs| - 1]) % U16
  }

  function Overhead(g: Group): nat
    requires AllFit(g.vars)
  {
    24 + |g.name| + |OrEmpty(g.timeIndexName)| + MethodsLength(g.methods)
    + 12 + VarsOverhead(g.vars) + 12 + AttributesOverhead(g.attrs)
  }

  method CalcVarsOverhead(vs: seq<Var>) returns (overhead: nat)
    requires AllFit(vs)
    ensures overhead == VarsOverhead(vs)
  {
    overhead := 0;
    for i := 0 to |vs|
      invariant overhead == VarsOverhead(vs[..i])
    {
      var n := CalcVarOverhead(vs[i]);
      overhead := overhead + n;
      assert vs[..i + 1][..i] == vs[..i];
    }
    assert vs[..|vs|] == vs;
  }

  method CalcAttributesOverhead(attrs: seq<Attribute>) returns (overhead: nat)
    ensures overhead == AttributesOverhead(attrs)
  {
    overhead := 0;
    for i := 0 to |attrs|
      invariant overhead == AttributesOverhead(attrs[..i])
    {
      overhead := overhead + AttributeOverhead(attrs[i]);
      assert attrs[..i + 1][..i] == attrs[..i];
    }
    assert attrs[..|attrs|] == attrs;
  }

  /** adios_calc_overhead_v1. */
  method CalcOverhead(g: Group) returns (overhead: nat)
    requires AllFit(g.vars)
    ensures overhead == Overhead(g)
  {
    overhead := 8 + 1 + 2 + |g.name| + 4 + 2 + |OrEmpty(g.timeIndexName)| + 4 + 1 + 2;
    var count, methods := CountMethods(g.methods);
    var vars := CalcVarsOverhead(g.vars);
    var attrs := CalcAttributesOverhead(g.attrs);
    overhead := overhead + methods + 4 + 8 + vars + 4 + 8 + attrs;
  }

  // ---- What is written.

  predicate Short(s: seq<byte>) { |s| < U16 }

  /** What is not written of a text whose length is kept in 16 bits. */
  function Lost(s: seq<byte>): nat { Above16(|s|) }

  /** What 16 and 32 bits lose of a number. */
  function Above16(n: nat): nat { n - n % U16 }

  function Above32(n: nat): nat { n - n % U32 }

  lemma LostIsNothing(s: seq<byte>)
    ensures Lost(s) == 0 <==> Short(s)
  {
    WordIff(|s|);
  }

  function ParametersLost(ms: seq<Transport>): nat {
    if ms == [] then 0 else ParametersLost(ms[..|ms| - 1]) + Lost(ms[|ms| - 1].parameters)
  }

  function AttributeNamesLost(attrs: seq<Attribute>): nat {
    if attrs == [] then 0
    else AttributeNamesLost(attrs[..|attrs| - 1]) + Lost(attrs[|attrs| - 1].name) + Lost(attrs[|attrs| - 1].path)
  }

  /** The bytes of names and parameters that are counted but not written; those of variables are not counted either. */
  function NamesLost(g: Group): nat {
    Lost(g.name) + Lost(OrEmpty(g.timeIndexName)) + ParametersLost(g.methods) + AttributeNamesLost(g.attrs)
  }

  lemma {:induction false} NoParametersLost(ms: seq<Transport>)
    ensures ParametersLost(ms) == 0 <==> forall i | 0 <= i < |ms| :: Short(ms[i].parameters)
  {
    if ms != [] {
      var k := |ms| - 1;
      NoParametersLost(ms[..k]);
      LostIsNothing(ms[k].parameters);
      assert (forall i | 0 <= i < k :: Short(ms[..k][i].parameters)) <==>
        forall i | 0 <= i < k :: Short(ms[i].parameters);
    }
  }

  predicate ShortlyNamed(a: Attribute) { Short(a.name) && Short(a.path) }

  lemma {:induction false} NoAttributeNamesLost(attrs: seq<Attribute>)
    ensures AttributeNamesLost(attrs) == 0 <==> forall i | 0 <= i < |attrs| :: ShortlyNamed(attrs[i])
  {
    if attrs != [] {
      var k := |attrs| - 1;
      NoAttributeNamesLost(attrs[..k]);
      LostIsNothing(attrs[k].name);
      LostIsNothing(attrs[k].path);
      assert (forall i | 0 <= i < k :: ShortlyNamed(attrs[..k][i])) <==>
        forall i | 0 <= i < k :: ShortlyNamed(attrs[i]);
    }
  }

  /** Names and parameters are not cut. */
  predicate ShortNames(g: Group) {
    && Short(g.name) && Short(OrEmpty(g.timeIndexName))
    && (forall i | 0 <= i < |g.methods| :: Short(g.methods[i].parameters))
    && (forall i | 0 <= i < |g.attrs| :: ShortlyNamed(g.attrs[i]))
  }

  lemma NoNamesLost(g: Group)
    ensures NamesLost(g) == 0 <==> ShortNames(g)
  {
    LostIsNothing(g.name);
    LostIsNothing(OrEmpty(g.timeIndexName));
    NoParametersLost(g.methods);
    NoAttributeNamesLost(g.attrs);
  }

  lemma StrLength(w: Endian, s: seq<byte>)
    ensures |Str(w, s)| + Lost(s) == 2 + |s|
  {}

  lemma NamesLength(w: Endian, g: Group, totalSize: nat)
    ensures |Flat(NameFields(w, g, totalSize))| + Lost(g.name) + Lost(OrEmpty(g.timeIndexName))
      == 21 + |g.name| + |OrEmpty(g.timeIndexName)|
  {
    Sum6(NameFields(w, g, totalSize));
    StrLength(w, g.name);
    StrLength(w, OrEmpty(g.timeIndexName));
  }

  lemma {:induction false} MethodsBytes(w: Endian, ms: seq<Transport>)
    ensures |Flat(MethodChunks(w, ms))| + ParametersLost(ms) == MethodsLength(ms)
  {
    if ms != [] {
      var k := |ms| - 1;
      var cs, front := MethodChunks(w, ms), MethodChunks(w, ms[..k]);
      MethodsBytes(w, ms[..k]);
      assert cs[..k] == front && cs[..k + 1] == cs;
      FlatStep(cs, k);
      StrLength(w, ms[k].parameters);
    }
  }

  lemma GroupHeaderLength(w: Endian, g: Group, totalSize: nat)
    ensures |Flat(GroupHeaderParts(w, g, totalSize))|
            + Lost(g.name) + Lost(OrEmpty(g.timeIndexName)) + ParametersLost(g.methods)
         == 24 + |g.name| + |OrEmpty(g.timeIndexName)| + MethodsLength(g.methods)
  {
    NamesLength(w, g, totalSize);
    var cs := MethodFields(w, g.methods);
    Sum3(cs);
    MethodsBytes(w, g.methods);
    FlatTwo(Flat(NameFields(w, g, totalSize)), Flat(cs));
  }

  /** The bytes of an attribute in the file, with its names in full. */
  function AttributeSize(a: Attribute): nat {
    AttributeTotal(a, |Kept(a.value)|)
  }

  predicate ShortAttribute(a: Attribute) { AttributeSize(a) < U32 }

  predicate ShortAttributes(attrs: seq<Attribute>) {
    forall i | 0 <= i < |attrs| :: ShortAttribute(attrs[i])
  }

  lemma SameInWord(n: nat, value: nat)
    ensures (n + value) % U32 == (n + value % U32) % U32
  {
    var q := value / U32;
    assert n + value == (n + value % U32) + U32 * q;
  }

  /** The overhead is the size, in 32 bits. */
  lemma OverheadIsSize(a: Attribute)
    ensures AttributeOverhead(a) == AttributeSize(a) % U32
  {
    if a.varId.None? { SameInWord(18 + |a.name| + |a.path|, |a.value|); }
  }

  lemma WordLess32(n: nat)
    ensures n % U32 <= n && (n % U32 == n <==> n < U32)
  {}

  lemma AttributeStartLength(w: Endian, a: Attribute)
    ensures |Flat(AttributeStart(w, a))| + Lost(a.name) + Lost(a.path) == 4 + 2 + |a.name| + 2 + |a.path| + 1
  {
    var cs := AttributeStart(w, a);
    Sum4(cs);
    StrLength(w, a.name);
    StrLength(w, a.path);
    assert cs[..4] == cs;
  }

  lemma AttributeEndLength(w: Endian, a: Attribute)
    ensures |Flat(AttributeEnd(w, a))| == if a.varId.Some? then 4 else 1 + 4 + |Kept(a.value)|
  {
    var end := AttributeEnd(w, a);
    if a.varId.Some? { FlatOne(end[0]); } else { Sum3(end); }
  }

  lemma AttributeLength(w: Endian, a: Attribute)
    ensures |AttributeBytes(w, a)| + Lost(a.name) + Lost(a.path) == AttributeSize(a)
  {
    AttributeStartLength(w, a);
    AttributeEndLength(w, a);
    FlatTwo(Flat(AttributeStart(w, a)), Flat(AttributeEnd(w, a)));
  }

  lemma ShortAttributesLast(attrs: seq<Attribute>)
    requires attrs != []
    ensures ShortAttributes(attrs) <==> ShortAttributes(attrs[..|attrs| - 1]) && ShortAttribute(attrs[|attrs| - 1])
  {
    var k := |attrs| - 1;
    if ShortAttributes(attrs[..k]) && ShortAttribute(attrs[k]) {
      forall i | 0 <= i < |attrs| ensures ShortAttribute(attrs[i]) { assert i < k ==> attrs[i] == attrs[..k][i]; }
    }
    if ShortAttributes(attrs) {
      forall i | 0 <= i < k ensures ShortAttribute(attrs[..k][i]) { assert attrs[..k][i] == attrs[i]; }
    }
  }

  lemma AttributeChunksFront(w: Endian, attrs: seq<Attribute>)
    requires attrs != []
    ensures AttributeChunks(w, attrs)[..|attrs| - 1] == AttributeChunks(w, attrs[..|attrs| - 1])
  {}

  lemma AttributeChunksSnoc(w: Endian, attrs: seq<Attribute>, k: nat)
    requires |attrs| == k + 1
    ensures |Flat(AttributeChunks(w, attrs))| == |Flat(AttributeChunks(w, attrs[..k]))| + |AttributeBytes(w, attrs[k])|
  {
    AttributeChunksFront(w, attrs);
    FlatLast(AttributeChunks(w, attrs));
  }

  /** What the 32-bit sizes of attributes lose. */
  function AttributesLost(attrs: seq<Attribute>): nat {
    if attrs == [] then 0 else AttributesLost(attrs[..|attrs| - 1]) + Above32(AttributeSize(attrs[|attrs| - 1]))
  }

  /** Attributes take what is calculated, but for names that are cut and sizes that do not fit 32 bits. */
  lemma {:induction false} AttributesLength(w: Endian, attrs: seq<Attribute>)
    ensures |Flat(AttributeChunks(w, attrs))| + AttributeNamesLost(attrs)
      == AttributesOverhead(attrs) + AttributesLost(attrs)
  {
    if attrs != [] {
      var k := |attrs| - 1;
      AttributesLength(w, attrs[..k]);
      AttributeChunksSnoc(w, attrs, k);
      AttributeLength(w, attrs[k]);
      OverheadIsSize(attrs[k]);
    }
  }

  lemma {:induction false} NothingLostOfAttributes(attrs: seq<Attribute>)
    ensures AttributesLost(attrs) == 0 <==> ShortAttributes(attrs)
  {
    if attrs != [] {
      var k := |attrs| - 1;
      NothingLostOfAttributes(attrs[..k]);
      WordLess32(AttributeSize(attrs[k]));
      ShortAttributesLast(attrs);
    }
  }

  /** The data of all variables. */
  function DataSize(vs: seq<Var>): nat {
    if vs == [] then 0 else DataSize(vs[..|vs| - 1]) + VarSize(vs[|vs| - 1])
  }

  predicate ShortHeader(v: Var) {
    VarFits(v) && HeaderSize(v) < U16
  }

  predicate ShortHeaders(vs: seq<Var>) {
    forall i | 0 <= i < |vs| :: ShortHeader(vs[i])
  }

  lemma VarLength(w: Endian, v: Var)
    requires VarFits(v)
    ensures |HeaderBytes(w, v) + v.data| == HeaderSize(v) + VarSize(v)
  {
    HeaderSizeExact(w, v);
  }

  lemma VarChunksSnoc(w: Endian, vs: seq<Var>)
    requires AllFit(vs) && vs != []
    ensures |Flat(VarChunks(w, vs))|
      == |Flat(VarChunks(w, vs[..|vs| - 1]))| + HeaderSize(vs[|vs| - 1]) + VarSize(vs[|vs| - 1])
  {
    VarChunksFront(w, vs);
    FlatLast(VarChunks(w, vs));
    VarLength(w, vs[|vs| - 1]);
  }

  lemma VarChunksFront(w: Endian, vs: seq<Var>)
    requires AllFit(vs) && vs != []
    ensures VarChunks(w, vs)[..|vs| - 1] == VarChunks(w, vs[..|vs| - 1])
  {}

  /** What the 16-bit sizes of headers lose. */
  function HeadersLost(vs: seq<Var>): nat
    requires AllFit(vs)
  {
    if vs == [] then 0 else HeadersLost(vs[..|vs| - 1]) + Above16(HeaderSize(vs[|vs| - 1]))
  }

  /** Headers and data take what is calculated, but for headers that do not fit 16 bits. */
  lemma {:induction false} VarsLength(w: Endian, vs: seq<Var>)
    requires AllFit(vs)
    ensures |Flat(VarChunks(w, vs))| == VarsOverhead(vs) + DataSize(vs) + HeadersLost(vs)
  {
    if vs != [] {
      VarsLength(w, vs[..|vs| - 1]);
      VarChunksSnoc(w, vs);
    }
  }

  lemma {:induction false} NothingLostOfHeaders(vs: seq<Var>)
    requires AllFit(vs)
    ensures HeadersLost(vs) == 0 <==> ShortHeaders(vs)
  {
    if vs != [] {
      NothingLostOfHeaders(vs[..|vs| - 1]);
      WordIff(HeaderSize(vs[|vs| - 1]));
      ShortLast(vs);
    }
  }

  lemma ShortEach(vs: seq<Var>, i: nat)
    requires i < |vs| && ShortHeaders(vs[..|vs| - 1]) && ShortHeader(vs[|vs| - 1])
    ensures ShortHeader(vs[i])
  {
    if i < |vs| - 1 { assert vs[i] == vs[..|vs| - 1][i]; }
  }

  lemma ShortLast(vs: seq<Var>)
    requires vs != []
    ensures ShortHeaders(vs) <==> ShortHeaders(vs[..|vs| - 1]) && ShortHeader(vs[|vs| - 1])
  {
    var k := |vs| - 1;
    if ShortHeaders(vs[..k]) && ShortHeader(vs[k]) {
      forall i | 0 <= i < |vs| ensures ShortHeader(vs[i]) { ShortEach(vs, i); }
    }
    if ShortHeaders(vs) {
      forall i | 0 <= i < k ensures ShortHeader(vs[..k][i]) { assert vs[..k][i] == vs[i]; }
    }
  }

  lemma SectionBytes(w: Endian, cs: seq<seq<byte>>)
    ensures |Flat(SectionFields(w, cs))| == 12 + |Flat(cs)|
  {
    Sum3(SectionFields(w, cs));
  }

  lemma GroupLength(w: Endian, g: Group, totalSize: nat)
    requires GroupFits(g)
    ensures |Flat(GroupParts(w, g, totalSize))|
         == |Flat(GroupHeaderParts(w, g, totalSize))|
            + 12 + |Flat(VarChunks(w, g.vars))| + 12 + |Flat(AttributeChunks(w, g.attrs))|
  {
    Sum3(GroupParts(w, g, totalSize));
    SectionBytes(w, VarChunks(w, g.vars));
    SectionBytes(w, AttributeChunks(w, g.attrs));
  }

  /** Nothing in the group is too long for the word its size is added up in. */
  predicate ShortEverything(g: Group) {
    ShortHeaders(g.vars) && ShortAttributes(g.attrs)
  }

  /** What the words that sizes are added up in lose. */
  function SizesLost(g: Group): nat
    requires AllFit(g.vars)
  {
    HeadersLost(g.vars) + AttributesLost(g.attrs)
  }

  /** Bytes are conserved: what is written and what names lose is what is calculated, the data, and what sizes lose. */
  lemma BytesConserved(w: Endian, g: Group, totalSize: nat)
    requires GroupFits(g)
    ensures |Flat(GroupParts(w, g, totalSize))| + NamesLost(g) == Overhead(g) + DataSize(g.vars) + SizesLost(g)
  {
    GroupLength(w, g, totalSize);
    GroupHeaderLength(w, g, totalSize);
    VarsLength(w, g.vars);
    AttributesLength(w, g.attrs);
  }

  /**
   A group whose names are not cut takes its overhead and its data exactly when no header and no attribute is too long.
   */
  lemma BytesConservedIff(w: Endian, g: Group, totalSize: nat)
    requires GroupFits(g)
    ensures |Flat(GroupParts(w, g, totalSize))| == Overhead(g) + DataSize(g.vars) <==> NamesLost(g) == SizesLost(g)
    ensures NamesLost(g) == 0 <==> ShortNames(g)
    ensures SizesLost(g) == 0 <==> ShortEverything(g)
  {
    BytesConserved(w, g, totalSize);
    NoNamesLost(g);
    NothingLostOfHeaders(g.vars);
    NothingLostOfAttributes(g.attrs);
  }

  /** How far the cursor moves when a group is written. */
  method GroupAdvance(b: WriteBuffer, baseOffset: nat, g: Group, totalSize: nat) returns (advance: nat, overhead: nat)
    requires b.Valid() && GroupFits(g)
    modifies b
    ensures b.Valid() && b.text == old(b.text) + Flat(GroupParts(b.host, g, totalSize))
    ensures b.offset == old(b.offset) + advance
    ensures advance + NamesLost(g) == overhead + DataSize(g.vars) + SizesLost(g)
    ensures ShortNames(g) ==> (advance == overhead + DataSize(g.vars) <==> ShortEverything(g))
  {
    var start := b.offset;
    overhead := CalcOverhead(g);
    var _ := WriteGroup(b, baseOffset, g, totalSize);
    advance := b.offset - start;
    BytesConserved(b.host, g, totalSize);
    BytesConservedIff(b.host, g, totalSize);
  }
}
