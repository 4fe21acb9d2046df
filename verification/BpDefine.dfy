/** Defining the dimensions of a variable: src/core/adios_internals.c:42-62, 231-600, 1754-1839. */
module BpDefine {
  import opened Outcomes
  import opened Bytes
  import opened Types
  import opened BpIndex
  import opened BpVar
  import opened BpVarSize
  import opened BpVarOverhead
  import opened BpVarParser

  // ---- Texts.

  const MINUS: byte := 45
  const ZERO: byte := 48

  predicate IsDigit(c: byte) { ZERO <= c < ZERO + 10 }

  predicate IsDigits(text: seq<byte>) {
    forall i | 0 <= i < |text| :: IsDigit(text[i])
  }

  /** adios_int_is_var, negated: digits, perhaps behind a minus sign. */
  predicate IsNumeral(text: seq<byte>) {
    text != [] && (text[0] == MINUS || IsDigit(text[0])) && IsDigits(text[1..])
  }

  function Decimal(digits: seq<byte>): nat
    requires IsDigits(digits)
  {
    if digits == [] then 0 else 10 * Decimal(digits[..|digits| - 1]) + (digits[|digits| - 1] - ZERO)
  }

  /** The number as an unsigned 64-bit word. */
  function Rank(text: seq<byte>): (n: nat)
    requires IsNumeral(text)
    ensures n < U64
  {
    var n: int := if text[0] == MINUS then 0 - Decimal(text[1..]) else Decimal(text);
    n % U64
  }

  /** What strcasecmp compares. */
  function Lower(text: seq<byte>): seq<byte> {
    seq(|text|, i requires 0 <= i < |text| => if 65 <= text[i] <= 90 then text[i] + 32 else text[i])
  }

  /** Capital letters become small ones; the characters around the alphabet stay. */
  lemma LowerLetters()
    ensures Lower([64, 65, 90, 91, 97, 122]) == [64, 97, 122, 91, 97, 122]
  {}

  /** A negative number wraps around. */
  lemma NegativeRank()
    ensures IsNumeral([MINUS, 53]) && Rank([MINUS, 53]) == 0xffff_ffff_ffff_fffb
  {
    assert [MINUS, 53][1..] == [53] && [53][..0] == [];
    assert Decimal([]) == 0 && Decimal([53]) == 5;
  }

  // ---- One dimension.

  /** The names of a group: variables under their full paths, attributes under lower-case names. */
  datatype Names = Names(timeIndexName: Option<seq<byte>>, vars: map<seq<byte>, Ref>, attrs: map<seq<byte>, Ref>) {
    predicate IsTime(text: seq<byte>) { timeIndexName.Some? && Lower(timeIndexName.value) == Lower(text) }

    /** Ids are counted from 1. */
    predicate Numbered() {
      (forall k | k in vars :: vars[k].id > 0) && (forall k | k in attrs :: attrs[k].id > 0)
    }
  }

  datatype DimError =
    | DimensionRequired | InvalidDimension
    | GlobalDimRequired | InvalidGlobalDimension
    | OffsetRequired | InvalidOffset
    | InvalidVarAsDimension

  datatype Definition<+T> = Defined(value: T) | Refused(error: DimError)

  /** A variable before an attribute; only whole numbers are dimensions. */
  function Reference(g: Names, text: seq<byte>, time: Flag3): Definition<DimItem>
    requires text in g.vars || Lower(text) in g.attrs
  {
    var isVar := text in g.vars;
    var ref := if isVar then g.vars[text] else g.attrs[Lower(text)];
    if !Integral(ref.type_) then Refused(InvalidVarAsDimension)
    else if isVar then Defined(DimItem(0, Some(ref), None, time))
    else Defined(DimItem(0, None, Some(ref), time))
  }

  /** The local dimension: here, and only here, the flag is set to `No`. */
  function ParseLocal(g: Names, text: seq<byte>): Definition<DimItem> {
    if g.IsTime(text) then Defined(DimItem(0, None, None, Yes))
    else if IsNumeral(text) then Defined(DimItem(Rank(text), None, None, No))
    else if text in g.vars || Lower(text) in g.attrs then Reference(g, text, No)
    else Refused(InvalidDimension)
  }

  /**
   The global dimension or the local offset: the flag stays what calloc made it unless the name is that of the time
   index.
   */
  function ParseOther(g: Names, text: seq<byte>, error: DimError): Definition<DimItem> {
    if IsNumeral(text) then Defined(DimItem(Rank(text), None, None, Unknown))
    else if text in g.vars || Lower(text) in g.attrs then Reference(g, text, Unknown)
    else if g.IsTime(text) then Defined(DimItem(0, None, None, Yes))
    else Refused(error)
  }

  /** adios_parse_dimension. */
  function ParseDimension(g: Names, local: Option<seq<byte>>, global: Option<seq<byte>>,
                          offset: Option<seq<byte>>): Definition<Dim> {
    if local.None? then Refused(DimensionRequired) else
    var l := ParseLocal(g, local.value);
    if l.Refused? then Refused(l.error)
    else if global.None? then Refused(GlobalDimRequired) else
    var n := ParseOther(g, global.value, InvalidGlobalDimension);
    if n.Refused? then Refused(n.error)
    else if offset.None? then Refused(OffsetRequired) else
    var o := ParseOther(g, offset.value, InvalidOffset);
    if o.Refused? then Refused(o.error) else Defined(Dim(l.value, n.value, o.value))
  }

  // ---- What definitions look like.

  /** A number, or a reference to a whole number, or the time dimension. */
  predicate RefersWell(i: DimItem) {
    && !(i.var_.Some? && i.attr.Some?)
    && (i.var_.Some? ==> Integral(i.var_.value.type_) && i.var_.value.id > 0)
    && (i.attr.Some? ==> Integral(i.attr.value.type_) && i.attr.value.id > 0)
    && (i.Refers() ==> i.time != Yes) && (i.Refers() || i.time == Yes ==> i.rank == 0)
  }

  predicate Definable(d: Dim) {
    && RefersWell(d.local) && RefersWell(d.global) && RefersWell(d.offset)
    && d.local.time != Unknown && d.global.time != No && d.offset.time != No
  }

  predicate AllDefinable(dims: seq<Dim>) {
    forall i | 0 <= i < |dims| :: Definable(dims[i])
  }

  lemma LocalRefersWell(g: Names, text: seq<byte>)
    requires g.Numbered()
    ensures var r := ParseLocal(g, text); r.Defined? ==> RefersWell(r.value) && r.value.time != Unknown
  {}

  lemma OtherRefersWell(g: Names, text: seq<byte>, error: DimError)
    requires g.Numbered()
    ensures var r := ParseOther(g, text, error); r.Defined? ==> RefersWell(r.value) && r.value.time != No
  {}

  lemma ParsedIsDefinable(g: Names, local: Option<seq<byte>>, global: Option<seq<byte>>, offset: Option<seq<byte>>)
    requires g.Numbered()
    ensures var r := ParseDimension(g, local, global, offset); r.Defined? ==> Definable(r.value)
  {
    if local.Some? { LocalRefersWell(g, local.value); }
    if global.Some? { OtherRefersWell(g, global.value, InvalidGlobalDimension); }
    if offset.Some? { OtherRefersWell(g, offset.value, InvalidOffset); }
  }

  // ---- What the texts stand for.

  function Referred(g: Names, text: seq<byte>): Option<Ref> {
    if text in g.vars then Some(g.vars[text]) else if Lower(text) in g.attrs then Some(g.attrs[Lower(text)]) else None
  }

  function ValueReferred(g: Names, text: seq<byte>): nat {
    var ref := Referred(g, text);
    if ref.Some? && ref.value.value.Some? then ref.value.value.value else 0
  }

  function IdReferred(g: Names, text: seq<byte>): nat {
    var ref := Referred(g, text);
    if ref.Some? then ref.value.id else 0
  }

  /** A variable found under the text is taken before an attribute, and only whole numbers are taken. */
  lemma ReferenceIs(g: Names, text: seq<byte>, time: Flag3)
    requires Referred(g, text).Some?
    ensures var r := Reference(g, text, time); r.Defined? <==> Integral(Referred(g, text).value.type_)
    ensures var r := Reference(g, text, time);
      r.Defined? ==> r.value.time == time && (r.value.var_.Some? <==> text in g.vars)
                     && (if text in g.vars then r.value.var_ else r.value.attr) == Referred(g, text)
  {}

  /** The extent that a local dimension stands for: 1 for time, a number, or the value of what is referred to. */
  function LocalValue(g: Names, text: seq<byte>): nat {
    if g.IsTime(text) then 1 else if IsNumeral(text) then Rank(text) else ValueReferred(g, text)
  }

  /** The same for a global dimension or an offset, for which the time dimension comes last. */
  function OtherValue(g: Names, text: seq<byte>): nat {
    if IsNumeral(text) then Rank(text) else if Referred(g, text).Some? then ValueReferred(g, text) else 1
  }

  /** What the header's dimension list is read as: a number, an id, or the time dimension. */
  function LocalListed(g: Names, text: seq<byte>): DimRead {
    if g.IsTime(text) then DimRead(0, 0, true)
    else if IsNumeral(text) then DimRead(Rank(text), 0, false)
    else DimRead(0, IdReferred(g, text), false)
  }

  /** A number is lost. */
  function OtherListed(g: Names, text: seq<byte>): DimRead {
    if !IsNumeral(text) && Referred(g, text).Some? then DimRead(0, IdReferred(g, text), false) else DimRead(0, 0, true)
  }

  lemma LocalSays(g: Names, text: seq<byte>)
    requires g.Numbered() && ParseLocal(g, text).Defined?
    ensures var i := ParseLocal(g, text).value;
      i.Extent() == LocalValue(g, text) && DimItemRead(i) == LocalListed(g, text)
  {}

  lemma OtherSays(g: Names, text: seq<byte>, error: DimError)
    requires g.Numbered() && ParseOther(g, text, error).Defined?
    ensures var i := ParseOther(g, text, error).value;
      i.Extent() == OtherValue(g, text) && DimItemRead(i) == OtherListed(g, text)
  {}

  /** Extents and list entries of a dimension are what its three texts say. */
  lemma DimensionSays(g: Names, local: seq<byte>, global: seq<byte>, offset: seq<byte>)
    requires g.Numbered() && ParseDimension(g, Some(local), Some(global), Some(offset)).Defined?
    ensures var d := ParseDimension(g, Some(local), Some(global), Some(offset)).value;
      && d.local.Extent() == LocalValue(g, local) && DimItemRead(d.local) == LocalListed(g, local)
      && d.global.Extent() == OtherValue(g, global) && DimItemRead(d.global) == OtherListed(g, global)
      && d.offset.Extent() == OtherValue(g, offset) && DimItemRead(d.offset) == OtherListed(g, offset)
  {
    LocalSays(g, local);
    OtherSays(g, global, InvalidGlobalDimension);
    OtherSays(g, offset, InvalidOffset);
  }

  /** The default for a global dimension and an offset that are not given. */
  const DEFAULT: seq<byte> := [ZERO]

  function TextAt(texts: seq<seq<byte>>, i: nat): seq<byte> {
    if i < |texts| then texts[i] else DEFAULT
  }

  function DimAt(g: Names, dims: seq<seq<byte>>, globals: seq<seq<byte>>, offsets: seq<seq<byte>>,
                 i: nat): Definition<Dim>
    requires i < |dims|
  {
    ParseDimension(g, Some(dims[i]), Some(TextAt(globals, i)), Some(TextAt(offsets, i)))
  }

  /** These texts define these dimensions. */
  ghost predicate Defines(g: Names, dims: seq<seq<byte>>, globals: seq<seq<byte>>, offsets: seq<seq<byte>>,
                          ds: seq<Dim>) {
    && g.Numbered() && |ds| == |dims|
    && forall i | 0 <= i < |dims| :: DimAt(g, dims, globals, offsets, i) == Defined(ds[i])
  }

  /** Words i of the texts, three for each dimension. */
  ghost predicate ExtentsSay(ns: seq<nat>, g: Names, dims: seq<seq<byte>>, globals: seq<seq<byte>>,
                             offsets: seq<seq<byte>>) {
    && |ns| == 3 * |dims|
    && forall i | 0 <= i < |dims| ::
         && ns[3 * i] == LocalValue(g, dims[i])
         && ns[3 * i + 1] == OtherValue(g, TextAt(globals, i))
         && ns[3 * i + 2] == OtherValue(g, TextAt(offsets, i))
  }

  ghost predicate ListSays(rs: seq<DimTriple>, g: Names, dims: seq<seq<byte>>, globals: seq<seq<byte>>,
                           offsets: seq<seq<byte>>) {
    && |rs| == |dims|
    && forall i | 0 <= i < |dims| :: rs[i] ==
         DimTriple(LocalListed(g, dims[i]), OtherListed(g, TextAt(globals, i)), OtherListed(g, TextAt(offsets, i)))
  }

  /** Whatever is defined: extents and dimension list are those of the texts. */
  lemma DefinitionSays(g: Names, dims: seq<seq<byte>>, globals: seq<seq<byte>>, offsets: seq<seq<byte>>, ds: seq<Dim>)
    requires Defines(g, dims, globals, offsets, ds)
    ensures ExtentsSay(Extents(ds), g, dims, globals, offsets) && ListSays(DimsRead(ds), g, dims, globals, offsets)
  {
    forall i | 0 <= i < |dims|
      ensures Extents(ds)[3 * i] == LocalValue(g, dims[i])
      ensures Extents(ds)[3 * i + 1] == OtherValue(g, TextAt(globals, i))
      ensures Extents(ds)[3 * i + 2] == OtherValue(g, TextAt(offsets, i))
      ensures DimsRead(ds)[i] ==
        DimTriple(LocalListed(g, dims[i]), OtherListed(g, TextAt(globals, i)), OtherListed(g, TextAt(offsets, i)))
    {
      ExtentsAt(ds, i);
      assert DimAt(g, dims, globals, offsets, i) == Defined(ds[i]);
      DimensionSays(g, dims[i], TextAt(globals, i), TextAt(offsets, i));
    }
  }

  predicate FirstRefused(g: Names, dims: seq<seq<byte>>, globals: seq<seq<byte>>, offsets: seq<seq<byte>>, i: nat,
                         error: DimError)
    requires i < |dims|
  {
    && DimAt(g, dims, globals, offsets, i) == Refused(error)
    && forall j | 0 <= j < i :: DimAt(g, dims, globals, offsets, j).Defined?
  }

  /** The loop in adios_common_define_var: all dimensions, or the error of the first one that is refused. */
  method DefineDimensions(g: Names, dims: seq<seq<byte>>, globals: seq<seq<byte>>, offsets: seq<seq<byte>>)
    returns (r: Definition<seq<Dim>>)
    requires g.Numbered()
    ensures r.Defined? <==> forall i | 0 <= i < |dims| :: DimAt(g, dims, globals, offsets, i).Defined?
    ensures r.Defined? ==> |r.value| == |dims| && AllDefinable(r.value)
    ensures r.Defined? ==> Defines(g, dims, globals, offsets, r.value)
    ensures r.Refused? ==> exists i | 0 <= i < |dims| :: FirstRefused(g, dims, globals, offsets, i, r.error)
  {
    var ds: seq<Dim> := [];
    for i := 0 to |dims|
      invariant |ds| == i && AllDefinable(ds)
      invariant forall j | 0 <= j < i :: DimAt(g, dims, globals, offsets, j) == Defined(ds[j])
    {
      var d := DimAt(g, dims, globals, offsets, i);
      if d.Refused? {
        assert FirstRefused(g, dims, globals, offsets, i, d.error);
        return Refused(d.error);
      }
      ParsedIsDefinable(g, Some(dims[i]), Some(TextAt(globals, i)), Some(TextAt(offsets, i)));
      ds := ds + [d.value];
    }
    r := Defined(ds);
  }

  // ---- What holds of them.

  /** The announced length of the dimensions is right for every definition. */
  lemma DefinedLengthExact(dims: seq<Dim>)
    requires AllDefinable(dims)
    ensures CalcDimsSize(dims) == DimsSize(dims)
  {
    DimsSizeExactIff(dims);
    forall i | 0 <= i < |dims| ensures PlainOffset(dims[i]) { assert Definable(dims[i]); }
  }

  /** The number of elements that the extents say. */
  function ExtentProduct(dims: seq<Dim>): nat {
    if dims == [] then 1 else dims[0].local.Extent() * ExtentProduct(dims[1..])
  }

  /** The flag of a local dimension is always set. */
  predicate LocalsKnown(dims: seq<Dim>) {
    forall i | 0 <= i < |dims| :: dims[i].local.Refers() || dims[i].local.time != Unknown
  }

  /** A reference to a variable or an attribute that is no whole number. */
  predicate OddReference(i: DimItem) {
    if i.var_.Some? then !Integral(i.var_.value.type_) else i.attr.Some? && !Integral(i.attr.value.type_)
  }

  predicate NoneOdd(dims: seq<Dim>) {
    forall i | 0 <= i < |dims| :: !OddReference(dims[i].local)
  }

  lemma FactorIs(i: DimItem)
    requires i.Refers() || i.time != Unknown
    ensures i.Factor() == if OddReference(i) then 0 else i.Extent()
  {}

  lemma ProductIff(f: nat, e: nat, s: nat, p: nat, odd: bool, rest: bool)
    requires f == (if odd then 0 else e) && (rest ==> s == p) && (!rest ==> s == 0)
    ensures !odd && rest ==> f * s == e * p
    ensures !(!odd && rest) ==> f * s == 0
  {}

  lemma {:induction false} SpaceIs(dims: seq<Dim>)
    requires LocalsKnown(dims)
    ensures SpaceSize(dims) == if NoneOdd(dims) then ExtentProduct(dims) else 0
  {
    if dims != [] {
      SpaceIs(dims[1..]);
      FactorIs(dims[0].local);
      NoneOddSplit(dims);
      ProductIff(dims[0].local.Factor(), dims[0].local.Extent(), SpaceSize(dims[1..]), ExtentProduct(dims[1..]),
                 OddReference(dims[0].local), NoneOdd(dims[1..]));
    }
  }

  lemma NoneOddSplit(dims: seq<Dim>)
    requires dims != []
    ensures NoneOdd(dims) <==> !OddReference(dims[0].local) && NoneOdd(dims[1..])
  {
    if !OddReference(dims[0].local) && NoneOdd(dims[1..]) {
      forall i | 0 <= i < |dims| ensures !OddReference(dims[i].local) { assert i > 0 ==> dims[i] == dims[1..][i - 1]; }
    }
  }

  /**
   The space of an array is what its extents say exactly when that is nothing or no local dimension is an odd reference.
   */
  lemma SpaceExactIff(dims: seq<Dim>)
    requires LocalsKnown(dims)
    ensures SpaceSize(dims) == ExtentProduct(dims) <==> ExtentProduct(dims) == 0 || NoneOdd(dims)
  {
    SpaceIs(dims);
  }

  /** Definitions have no odd references. */
  lemma DefinedSpaceExact(dims: seq<Dim>)
    requires AllDefinable(dims)
    ensures SpaceSize(dims) == ExtentProduct(dims)
  {
    SpaceExactIff(dims);
  }

  /** A global dimension or an offset that is a number. */
  predicate Numeric(i: DimItem) { !i.Refers() && i.time == Unknown }

  /**
   A definition is read back as it was meant if and only if it has no numbers for global dimensions and offsets, the
   defaults included.
   */
  lemma DefinedReadIff(dims: seq<Dim>)
    requires AllDefinable(dims)
    ensures DimsRead(dims) == DimsMeant(dims) <==>
      forall i | 0 <= i < |dims| :: !Numeric(dims[i].global) && !Numeric(dims[i].offset)
  {
    DimsReadIff(dims);
    forall i | 0 <= i < |dims|
      ensures DimReadable(dims[i]) <==> !Numeric(dims[i].global) && !Numeric(dims[i].offset)
    {
      assert Definable(dims[i]);
    }
  }
}
