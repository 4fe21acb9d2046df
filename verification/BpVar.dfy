/** A variable in a process group, and the layout of the header in front of its data. */
module BpVar {
  import opened Outcomes
  import opened IndexRecords
  import opened Bytes
  import opened Types
  import opened Chunks
  import opened BpIndex

  /** enum ADIOS_FLAG; a flag that nobody sets is unknown. */
  datatype Flag3 = Unknown | Yes | No

  /**
   A scalar variable or an attribute that a dimension refers to; its value may be missing, and is cut to a whole number.
   */
  datatype Ref = Ref(id: nat, type_: Datatype, value: Option<nat>) {
    /** cast_var_data_as_uint64: no number without a value, and none of a string or a complex value. */
    function Cast(): Option<nat> { if type_ == TString || IsComplex(type_) then None else value }

    /** What adios_multiply_dimensions accepts. */
    function Whole(): Option<nat> { if Integral(type_) then value else None }
  }

  /** struct adios_dimension_item_struct: a number only if the flag says that it is not the time dimension. */
  datatype DimItem = DimItem(rank: nat, var_: Option<Ref>, attr: Option<Ref>, time: Flag3) {
    predicate Refers() { var_.Some? || attr.Some? }

    predicate IsNumber() { !Refers() && time == No }

    /** The id that stands in the file for a reference, and 0 for whatever else is not a number. */
    function Id(): nat {
      if var_.Some? then var_.value.id else if attr.Some? then attr.value.id else 0
    }

    predicate Fits() { rank < U64 && Id() < U32 && Extent() < U64 }

    /** adios_get_dim_value. */
    function Extent(): nat {
      if var_.Some? then OrZero(var_.value.Cast())
      else if attr.Some? then OrZero(attr.value.Cast())
      else if time == Yes then 1 else rank
    }

    /** What the space of an array is multiplied by; anything but a whole number makes it 0. */
    function Factor(): nat {
      if var_.Some? then OrZero(var_.value.Whole())
      else if attr.Some? then OrZero(attr.value.Whole())
      else if time == No then rank else 1
    }
  }

  function OrZero(n: Option<nat>): nat {
    if n.Some? then n.value else 0
  }

  datatype Dim = Dim(local: DimItem, global: DimItem, offset: DimItem) {
    predicate Fits() { local.Fits() && global.Fits() && offset.Fits() }
  }

  /** A variable; `data` is what the application passes to be written, `textLength` the length of a string. */
  datatype Var = Var(id: nat, name: seq<byte>, path: seq<byte>, type_: Datatype, isDim: bool, dims: seq<Dim>,
                     bitmap: nat, stats: seq<seq<Stat>>, textLength: nat, data: seq<byte>)

  /** adios_get_dimension_space_size: the time dimension takes no space. */
  function SpaceSize(dims: seq<Dim>): nat {
    if dims == [] then 1 else dims[0].local.Factor() * SpaceSize(dims[1..])
  }

  /** adios_get_var_size. */
  function VarSize(v: Var): nat {
    (if v.type_ == TString then v.textLength else TypeSize(v.type_)) * (if v.dims == [] then 1 else SpaceSize(v.dims))
  }

  function DimItemBytes(w: Endian, i: DimItem): seq<byte> {
    if i.IsNumber() then [NO] + Store(w, i.rank, 8) else [YES] + Store(w, i.Id(), 4)
  }

  function DimFields(w: Endian, d: Dim): (cs: seq<seq<byte>>)
    ensures |cs| == 3
  {
    [DimItemBytes(w, d.local), DimItemBytes(w, d.global), DimItemBytes(w, d.offset)]
  }

  /** The same, field by field. */
  predicate IsDim(w: Endian, d: Dim, cs: seq<seq<byte>>) {
    |cs| == 3 && cs[0] == DimItemBytes(w, d.local) && cs[1] == DimItemBytes(w, d.global)
    && cs[2] == DimItemBytes(w, d.offset)
  }

  lemma DimIs(w: Endian, d: Dim)
    ensures IsDim(w, d, DimFields(w, d))
  {}

  function DimChunks(w: Endian, dims: seq<Dim>): (cs: seq<seq<byte>>)
    ensures |cs| == |dims|
  {
    seq(|dims|, i requires 0 <= i < |dims| => Flat(DimFields(w, dims[i])))
  }

  /** calc_dimension_size: a local offset that is an attribute is taken for a number. */
  function CalcDimSize(d: Dim): nat {
    (if d.local.IsNumber() then 9 else 5) + (if d.global.IsNumber() then 9 else 5)
    + (if d.offset.var_.None? && d.offset.time == No then 9 else 5)
  }

  function CalcDimsSize(dims: seq<Dim>): nat {
    if dims == [] then 0 else CalcDimsSize(dims[..|dims| - 1]) + CalcDimSize(dims[|dims| - 1])
  }

  /** The values of the dimensions, three for each. */
  function Extents(dims: seq<Dim>): (ns: seq<nat>)
    ensures |ns| == 3 * |dims|
  {
    if dims == [] then [] else
      var d := dims[|dims| - 1];
      Extents(dims[..|dims| - 1]) + [d.local.Extent(), d.global.Extent(), d.offset.Extent()]
  }

  /** Three values for each dimension: local, global, offset. */
  lemma {:induction false} ExtentsAt(dims: seq<Dim>, i: nat)
    requires i < |dims|
    ensures Extents(dims)[3 * i] == dims[i].local.Extent() && Extents(dims)[3 * i + 1] == dims[i].global.Extent()
    ensures Extents(dims)[3 * i + 2] == dims[i].offset.Extent()
  {
    if i < |dims| - 1 { ExtentsAt(dims[..|dims| - 1], i); }
  }

  predicate IsArray(v: Var) { v.type_ != TString && v.dims != [] }

  /** An array has dimensions, a bitmap and statistics in its header. */
  function HeaderItems(v: Var): seq<Item> {
    if IsArray(v) then [Dimensions(Extents(v.dims)), Bitmap(v.bitmap), Stats(v.bitmap, v.stats)] else []
  }

  predicate VarFits(v: Var) {
    && v.id < U32 && |v.dims| < 256 && (forall i | 0 <= i < |v.dims| :: v.dims[i].Fits())
    && ItemsFit(v.type_, HeaderItems(v)) && (IsComplex(v.type_) ==> STAT_HIST !in Bits(v.bitmap, 0))
    && |v.data| == VarSize(v)
  }

  function CharChunks(w: Endian, v: Var): (cs: seq<seq<byte>>)
    requires VarFits(v)
    ensures |cs| == |HeaderItems(v)|
  {
    ItemChunks(w, v.type_, HeaderItems(v))
  }

  function CharFields(w: Endian, v: Var): (cs: seq<seq<byte>>)
    requires VarFits(v)
    ensures |cs| == 3
  {
    [Store(w, |CharChunks(w, v)|, 1), Store(w, |Flat(CharChunks(w, v))|, 4), Flat(CharChunks(w, v))]
  }

  function StartFields(w: Endian, v: Var): (cs: seq<seq<byte>>)
    ensures |cs| == 5
  {
    [Store(w, v.id, 4), Str(w, v.name), Str(w, v.path), Store(w, TypeCode(v.type_), 1), [if v.isDim then YES else NO]]
  }

  /** The same, field by field. */
  predicate IsStart(w: Endian, v: Var, cs: seq<seq<byte>>) {
    && |cs| == 5 && cs[0] == Store(w, v.id, 4) && cs[1] == Str(w, v.name) && cs[2] == Str(w, v.path)
    && cs[3] == Store(w, TypeCode(v.type_), 1) && cs[4] == [if v.isDim then YES else NO]
  }

  lemma StartIs(w: Endian, v: Var)
    ensures IsStart(w, v, StartFields(w, v))
  {}

  function DimListFields(w: Endian, dims: seq<Dim>): (cs: seq<seq<byte>>)
    ensures |cs| == 3
  {
    [Store(w, |dims|, 1), Store(w, CalcDimsSize(dims) % U16, 2), Flat(DimChunks(w, dims))]
  }

  /** The parts of a header, after the length of header and data. */
  function HeaderParts(w: Endian, v: Var): (cs: seq<seq<byte>>)
    requires VarFits(v)
    ensures |cs| == 3
  {
    [Flat(StartFields(w, v)), Flat(DimListFields(w, v.dims)), Flat(CharFields(w, v))]
  }

  /** Bytes of the whole header. */
  function HeaderLength(w: Endian, v: Var): nat
    requires VarFits(v)
  {
    8 + |Flat(HeaderParts(w, v))|
  }

  /**
   The length that the writer puts in front: the sizes of the dimensions and the characteristics pass through 16 bits.
   */
  function LengthOfVar(w: Endian, v: Var): nat
    requires VarFits(v)
  {
    8 + |Flat(StartFields(w, v))| + |Flat(DimListFields(w, v.dims))| % U16 + |Flat(CharFields(w, v))| % U16 + VarSize(v)
  }

  function HeaderBytes(w: Endian, v: Var): seq<byte>
    requires VarFits(v)
  {
    Store(w, LengthOfVar(w, v), 8) + Flat(HeaderParts(w, v))
  }
}
