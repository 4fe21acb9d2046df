/** Parsing the header of a variable: adios_parse_var_data_header_v1, src/core/adios_bp_v1.c:1244-1685. */
module BpVarParser {
  import opened Seqs
  import opened Bytes
  import opened Chunks
  import opened ReadBuffers
  import opened BpIndex
  import opened BpVar

  // ---- Dimensions.

  /** struct adios_dimension_item_struct_v1 */
  datatype DimRead = DimRead(rank: nat, varId: nat, time: bool)

  datatype DimTriple = DimTriple(local: DimRead, global: DimRead, offset: DimRead)

  /** What a reader gets: a number, or an id; id 0 is taken for the time dimension. */
  function DimItemRead(i: DimItem): DimRead {
    if i.IsNumber() then DimRead(i.rank, 0, false) else DimRead(0, i.Id(), i.Id() == 0)
  }

  function DimsRead(dims: seq<Dim>): (rs: seq<DimTriple>)
    ensures |rs| == |dims|
  {
    seq(|dims|, i requires 0 <= i < |dims| =>
      DimTriple(DimItemRead(dims[i].local), DimItemRead(dims[i].global), DimItemRead(dims[i].offset)))
  }

  /** What a dimension stands for. */
  function ItemMeant(i: DimItem): DimRead {
    if i.Refers() then DimRead(0, i.Id(), false)
    else if i.time == Yes then DimRead(0, 0, true)
    else DimRead(i.rank, 0, false)
  }

  function DimsMeant(dims: seq<Dim>): (rs: seq<DimTriple>)
    ensures |rs| == |dims|
  {
    seq(|dims|, i requires 0 <= i < |dims| =>
      DimTriple(ItemMeant(dims[i].local), ItemMeant(dims[i].global), ItemMeant(dims[i].offset)))
  }

  /** A reference with an id of its own, the time dimension, or a number that is flagged as one. */
  predicate Readable(i: DimItem) {
    if i.Refers() then i.Id() != 0 else i.time != Unknown
  }

  predicate DimReadable(d: Dim) { Readable(d.local) && Readable(d.global) && Readable(d.offset) }

  /** What is not readable is read as the time dimension. */
  lemma ItemReadIff(i: DimItem)
    ensures DimItemRead(i) == ItemMeant(i) <==> Readable(i)
    ensures !Readable(i) ==> DimItemRead(i) == DimRead(0, 0, true)
  {}

  /** The dimensions come back if and only if all of them are readable. */
  lemma DimsReadIff(dims: seq<Dim>)
    ensures DimsRead(dims) == DimsMeant(dims) <==> forall i | 0 <= i < |dims| :: DimReadable(dims[i])
  {
    SameIff(DimsRead(dims), DimsMeant(dims));
    forall i | 0 <= i < |dims| ensures DimsRead(dims)[i] == DimsMeant(dims)[i] <==> DimReadable(dims[i]) {
      ItemReadIff(dims[i].local);
      ItemReadIff(dims[i].global);
      ItemReadIff(dims[i].offset);
    }
  }

  /**
   A dimension is read as the time dimension exactly when it is, unless it refers to something with id 0 or is a number
   without a flag.
   */
  lemma TimeIffTime(i: DimItem)
    ensures (DimItemRead(i).time <==> i.time == Yes && !i.Refers()) <==> Readable(i)
  {}

  /** A number comes back if and only if its flag is `No`. */
  lemma NumberReadIff(i: DimItem)
    requires !i.Refers() && i.time != Yes
    ensures DimItemRead(i) == DimRead(i.rank, 0, false) <==> i.time == No
  {}

  method ParseDimItem(b: ReadBuffer, ghost i: DimItem, ghost w: Endian, ghost cs: seq<seq<byte>>, ghost k: nat,
                      ghost t: seq<byte>) returns (r: DimRead)
    requires i.Fits() && b.At(w, cs, k, t) && k < |cs| && cs[k] == DimItemBytes(w, i)
    modifies b`offset
    ensures b.At(w, cs, k + 1, t) && r == DimItemRead(i)
  {
    ghost var word := if i.IsNumber() then Store(w, i.rank, 8) else Store(w, i.Id(), 4);
    ghost var inner, rest := [[if i.IsNumber() then NO else YES], word], Flat(cs[k + 1..]) + t;
    FlatTwo(inner[0], inner[1]);
    b.Enter(w, cs, k, t, inner);
    var flag := b.Take(1, w, inner, 0, rest);
    if flag[0] == YES {
      var id := b.Read32(i.Id(), w, inner, 1, rest);
      r := DimRead(0, id, id == 0);
    } else {
      var rank := b.Read64(i.rank, w, inner, 1, rest);
      r := DimRead(rank, 0, false);
    }
    b.Leave(w, cs, k, t, inner);
  }

  method ParseDim(b: ReadBuffer, ghost d: Dim, ghost w: Endian, ghost cs: seq<seq<byte>>, ghost k: nat,
                  ghost t: seq<byte>) returns (r: DimTriple)
    requires d.Fits() && b.At(w, cs, k, t) && k < |cs| && cs[k] == Flat(DimFields(w, d))
    modifies b`offset
    ensures b.At(w, cs, k + 1, t) && r == DimTriple(DimItemRead(d.local), DimItemRead(d.global), DimItemRead(d.offset))
  {
    ghost var inner, rest := DimFields(w, d), Flat(cs[k + 1..]) + t;
    b.Enter(w, cs, k, t, inner);
    var local := ParseDimItem(b, d.local, w, inner, 0, rest);
    var global := ParseDimItem(b, d.global, w, inner, 1, rest);
    var offset := ParseDimItem(b, d.offset, w, inner, 2, rest);
    b.Leave(w, cs, k, t, inner);
    r := DimTriple(local, global, offset);
  }

  method ParseDims(b: ReadBuffer, count: nat, ghost dims: seq<Dim>, ghost w: Endian, ghost cs: seq<seq<byte>>,
                   ghost t: seq<byte>)
    returns (r: seq<DimTriple>)
    requires (forall i | 0 <= i < |dims| :: dims[i].Fits()) && count == |dims| && cs == DimChunks(w, dims)
    requires b.At(w, cs, 0, t)
    modifies b`offset
    ensures b.At(w, cs, |cs|, t) && r == DimsRead(dims)
  {
    ghost var goal := DimsRead(dims);
    r := [];
    for i := 0 to count
      invariant b.At(w, cs, i, t) && r == goal[..i]
    {
      var d := ParseDim(b, dims[i], w, cs, i, t);
      PrefixStep(goal, i);
      r := r + [d];
    }
  }

  /** Part i: count, length that nobody looks at, dimensions. */
  method ParseDimList(b: ReadBuffer, ghost dims: seq<Dim>, ghost w: Endian, ghost outer: seq<seq<byte>>, ghost i: nat,
                      ghost t: seq<byte>)
    returns (r: seq<DimTriple>)
    requires |dims| < 256 && forall i | 0 <= i < |dims| :: dims[i].Fits()
    requires b.At(w, outer, i, t) && i < |outer| && outer[i] == Flat(DimListFields(w, dims))
    modifies b`offset
    ensures b.At(w, outer, i + 1, t) && r == DimsRead(dims)
  {
    ghost var fields, rest, cs := DimListFields(w, dims), Flat(outer[i + 1..]) + t, DimChunks(w, dims);
    b.Enter(w, outer, i, t, fields);
    Pow256Values();
    var count := b.ReadWord(1, |dims|, w, fields, 0, rest);
    var _ := b.Take(2, w, fields, 1, rest);
    b.Enter(w, fields, 2, rest, cs);
    r := ParseDims(b, count, dims, w, cs, Flat(fields[3..]) + rest);
    b.Leave(w, fields, 2, rest, cs);
    b.Leave(w, outer, i, t, fields);
  }
}
