/** Writing the header and the data of a variable: src/core/adios_internals.c:4309-4673, 5114-5184. */
module BpVarWriter {
  import opened Seqs
  import opened Bytes
  import opened Types
  import opened Chunks
  import opened WriteBuffers
  import opened BpIndex
  import opened BpWriter
  import opened BpVar

  // ---- Dimensions.

  method PutDimItem(b: WriteBuffer, i: DimItem, size: nat, ghost pre: seq<byte>, ghost cs: seq<seq<byte>>, ghost k: nat)
    returns (newSize: nat)
    requires b.Has(pre, cs, k, size) && k < |cs| && cs[k] == DimItemBytes(b.host, i)
    modifies b
    ensures b.Has(pre, cs, k + 1, newSize)
  {
    if i.IsNumber() {
      b.BufferWrite([NO]);
      b.BufferWrite(Store(b.host, i.rank, 8));
      newSize := size + 1 + 8;
      Assoc(old(b.text), [NO], Store(b.host, i.rank, 8));
    } else {
      b.BufferWrite([YES]);
      b.BufferWrite(Store(b.host, i.Id(), 4));
      newSize := size + 1 + 4;
      Assoc(old(b.text), [YES], Store(b.host, i.Id(), 4));
    }
    b.Wrote(old(b.text), size, pre, cs, k);
  }

  method PutDimItems(b: WriteBuffer, d: Dim, ghost pre: seq<byte>, ghost cs: seq<seq<byte>>) returns (size: nat)
    requires IsDim(b.host, d, cs) && b.Has(pre, cs, 0, 0)
    modifies b
    ensures b.Has(pre, cs, 3, size)
  {
    size := PutDimItem(b, d.local, 0, pre, cs, 0);
    size := PutDimItem(b, d.global, size, pre, cs, 1);
    size := PutDimItem(b, d.offset, size, pre, cs, 2);
  }

  method WriteDim(b: WriteBuffer, d: Dim) returns (size: nat)
    requires b.Valid()
    modifies b
    ensures b.Valid() && b.text == old(b.text) + Flat(DimFields(b.host, d)) && size == |Flat(DimFields(b.host, d))|
  {
    ghost var pre, cs := b.text, DimFields(b.host, d);
    b.HasNone(cs);
    DimIs(b.host, d);
    size := PutDimItems(b, d, pre, cs);
    b.HasAll(pre, cs, size);
  }

  /** calc_dimensions_size. */
  method CalcDimensionsSize(dims: seq<Dim>) returns (size: nat)
    ensures size == CalcDimsSize(dims) % U16
  {
    size := 0;
    for i := 0 to |dims|
      invariant size == CalcDimsSize(dims[..i]) % U16
    {
      size := (size + CalcDimSize(dims[i])) % U16;
      assert dims[..i + 1][..i] == dims[..i];
    }
    assert dims[..|dims|] == dims;
  }

  method WriteDims(b: WriteBuffer, dims: seq<Dim>) returns (size: nat)
    requires b.Valid()
    modifies b
    ensures b.Valid() && b.text == old(b.text) + Flat(DimChunks(b.host, dims))
    ensures size == |Flat(DimChunks(b.host, dims))|
  {
    ghost var pre, cs := b.text, DimChunks(b.host, dims);
    b.HasNone(cs);
    size := 0;
    for i := 0 to |dims|
      invariant b.Has(pre, cs, i, size)
    {
      ghost var before := b.text;
      var n := WriteDim(b, dims[i]);
      b.Wrote(before, size, pre, cs, i);
      size := size + n;
    }
    b.HasAll(pre, cs, size);
  }

  // ---- Characteristics.

  /** The three values of a dimension, at the end of a list of words. */
  method PutExtents(b: WriteBuffer, d: Dim, length: nat, ghost pre: seq<byte>, ghost ns: seq<nat>, ghost k: nat)
    returns (newLength: nat)
    requires k + 3 <= |ns| && b.Has(pre, Words(b.host, ns, 8), k, length)
    requires ns[k] == d.local.Extent() && ns[k + 1] == d.global.Extent() && ns[k + 2] == d.offset.Extent()
    modifies b
    ensures b.Has(pre, Words(b.host, ns, 8), k + 3, newLength)
  {
    ghost var cs := Words(b.host, ns, 8);
    newLength := b.Put(Store(b.host, d.local.Extent(), 8), length, pre, cs, k);
    newLength := b.Put(Store(b.host, d.global.Extent(), 8), newLength, pre, cs, k + 1);
    newLength := b.Put(Store(b.host, d.offset.Extent(), 8), newLength, pre, cs, k + 2);
  }

  method WriteExtents(b: WriteBuffer, dims: seq<Dim>) returns (count: nat, length: nat)
    requires b.Valid()
    modifies b
    ensures b.Has(old(b.text), Words(b.host, Extents(dims), 8), 3 * |dims|, length) && count == |dims|
    ensures length == 24 * |dims|
  {
    ghost var ns := Extents(dims);
    ghost var cs := Words(b.host, ns, 8);
    b.HasNone(cs);
    count, length := 0, 0;
    for i := 0 to |dims|
      invariant count == i && b.Has(old(b.text), cs, 3 * i, length)
    {
      ExtentsAt(dims, i);
      length := PutExtents(b, dims[i], length, old(b.text), ns, 3 * i);
      count := count + 1;
    }
    WordsLength(b.host, ns, 8);
    b.HasAll(old(b.text), cs, length);
  }

  /** adios_write_var_characteristics_dims_v1: count and length are patched in after the values. */
  method WriteDimsCharacteristic(b: WriteBuffer, dims: seq<Dim>) returns (size: nat)
    requires b.Valid()
    modifies b
    ensures b.Valid() && b.text == old(b.text) + Flat(DimensionsFields(b.host, Extents(dims)))
    ensures size == |Flat(DimensionsFields(b.host, Extents(dims)))|
  {
    ghost var cs := Words(b.host, Extents(dims), 8);
    var start := b.Skip(1 + 2, cs);
    ghost var pre := b.text;
    var count, length := WriteExtents(b, dims);
    assert |Extents(dims)| / 3 == count && 8 * |Extents(dims)| == length;
    b.FillTwo(start, Store(b.host, count, 1), Store(b.host, length, 2), length, old(b.text), pre, cs);
    size := 3 + length;
  }

  /** A characteristic that is not just handed to WriteItemFields. */
  method PutDims(b: WriteBuffer, t: Datatype, dims: seq<Dim>, length: nat, ghost pre: seq<byte>, ghost items: seq<Item>,
                 ghost k: nat)
    returns (newLength: nat)
    requires HasItems(b, t, pre, items, k, length) && k < |items| && items[k] == Dimensions(Extents(dims))
    modifies b
    ensures HasItems(b, t, pre, items, k + 1, newLength)
  {
    ghost var item := items[k];
    b.BufferWrite([4]);
    var n := WriteDimsCharacteristic(b, dims);
    newLength := length + 1 + n;
    Assoc(old(b.text), [Flag(item)], Flat(ItemFields(b.host, t, item)));
    b.Wrote(old(b.text), length, pre, ItemChunks(b.host, t, items), k);
  }

  /** Dimensions, bitmap and statistics. */
  method PutArray(b: WriteBuffer, v: Var, ghost pre: seq<byte>, ghost items: seq<Item>) returns (length: nat)
    requires HasItems(b, v.type_, pre, items, 0, 0)
    requires items == [Dimensions(Extents(v.dims)), Bitmap(v.bitmap), Stats(v.bitmap, v.stats)]
    modifies b
    ensures HasItems(b, v.type_, pre, items, 3, length)
  {
    length := PutDims(b, v.type_, v.dims, 0, pre, items, 0);
    length := PutItem(b, v.type_, Bitmap(v.bitmap), length, pre, items, 1);
    length := PutItem(b, v.type_, Stats(v.bitmap, v.stats), length, pre, items, 2);
  }

  /** adios_write_var_characteristics_v1. */
  method WriteCharacteristics(b: WriteBuffer, v: Var) returns (size: nat)
    requires b.Valid() && VarFits(v)
    modifies b
    ensures b.Valid() && b.text == old(b.text) + Flat(CharFields(b.host, v)) && size == |Flat(CharFields(b.host, v))|
  {
    ghost var items, cs := HeaderItems(v), CharChunks(b.host, v);
    var start := b.Skip(1 + 4, cs);
    ghost var pre := b.text;
    var count, length := 0, 0;
    if v.type_ != TString && |v.dims| != 0 {
      length := PutArray(b, v, pre, items);
      count := 3;
    }
    b.HasAll(pre, cs, length);
    b.FillTwo(start, Store(b.host, count, 1), Store(b.host, length, 4), length, old(b.text), pre, cs);
    size := 1 + 4 + length;
  }

  // ---- The header.

  method WriteHeaderStart(b: WriteBuffer, v: Var) returns (size: nat)
    requires b.Valid()
    modifies b
    ensures b.Valid() && b.text == old(b.text) + Flat(StartFields(b.host, v)) && size == |Flat(StartFields(b.host, v))|
  {
    ghost var pre, cs := b.text, StartFields(b.host, v);
    b.HasNone(cs);
    StartIs(b.host, v);
    size := PutNames(b, v, pre, cs);
    size := PutType(b, v, size, pre, cs);
    b.HasAll(pre, cs, size);
  }

  method PutNames(b: WriteBuffer, v: Var, ghost pre: seq<byte>, ghost cs: seq<seq<byte>>) returns (size: nat)
    requires IsStart(b.host, v, cs) && b.Has(pre, cs, 0, 0)
    modifies b
    ensures b.Has(pre, cs, 3, size)
  {
    size := b.Put(Store(b.host, v.id, 4), 0, pre, cs, 0);
    size := PutStr(b, v.name, size, pre, cs, 1);
    size := PutStr(b, v.path, size, pre, cs, 2);
  }

  method PutType(b: WriteBuffer, v: Var, size: nat, ghost pre: seq<byte>, ghost cs: seq<seq<byte>>)
    returns (newSize: nat)
    requires IsStart(b.host, v, cs) && b.Has(pre, cs, 3, size)
    modifies b
    ensures b.Has(pre, cs, 5, newSize)
  {
    newSize := b.Put(Store(b.host, TypeCode(v.type_), 1), size, pre, cs, 3);
    newSize := b.Put([if v.isDim then YES else NO], newSize, pre, cs, 4);
  }

  /** adios_write_dimensions_v1; the caller gets the size in 16 bits. */
  method WriteDimensionList(b: WriteBuffer, dims: seq<Dim>) returns (size: nat)
    requires b.Valid()
    modifies b
    ensures b.Valid() && b.text == old(b.text) + Flat(DimListFields(b.host, dims))
    ensures size == |Flat(DimListFields(b.host, dims))|
  {
    ghost var pre, cs := b.text, DimListFields(b.host, dims);
    b.HasNone(cs);
    var dimensionsSize := CalcDimensionsSize(dims);
    size := b.Put(Store(b.host, |dims|, 1), 0, pre, cs, 0);
    size := b.Put(Store(b.host, dimensionsSize, 2), size, pre, cs, 1);
    ghost var before := b.text;
    var n := WriteDims(b, dims);
    b.Wrote(before, size, pre, cs, 2);
    size := size + n;
    b.HasAll(pre, cs, size);
  }

  /** The parts of a header, and the length to be put in front. */
  method WriteHeaderParts(b: WriteBuffer, v: Var, ghost pre: seq<byte>, ghost cs: seq<seq<byte>>)
    returns (totalSize: nat, ghost size: nat)
    requires VarFits(v) && cs == HeaderParts(b.host, v) && b.Has(pre, cs, 0, 0)
    modifies b
    ensures b.Has(pre, cs, 3, size) && totalSize == LengthOfVar(b.host, v)
  {
    ghost var before := b.text;
    var start := WriteHeaderStart(b, v);
    b.Wrote(before, 0, pre, cs, 0);
    before := b.text;
    var dims := WriteDimensionList(b, v.dims);
    b.Wrote(before, start, pre, cs, 1);
    before := b.text;
    var chars := WriteCharacteristics(b, v);
    b.Wrote(before, start + dims, pre, cs, 2);
    size := start + dims + chars;
    totalSize := 8 + start + dims % U16 + chars % U16 + VarSize(v);
  }

  /** adios_write_var_header_v1: the length of header and data is patched in at the end. */
  method WriteVarHeader(b: WriteBuffer, baseOffset: nat, v: Var) returns (totalSize: nat, writeOffset: nat)
    requires b.Valid() && VarFits(v)
    modifies b
    ensures b.Valid() && b.text == old(b.text) + HeaderBytes(b.host, v)
    ensures totalSize == LengthOfVar(b.host, v) && writeOffset == baseOffset + |old(b.text)|
  {
    ghost var cs := HeaderParts(b.host, v);
    writeOffset := b.offset + baseOffset;
    var start := b.Skip(8, cs);
    ghost var pre := b.text;
    ghost var size;
    totalSize, size := WriteHeaderParts(b, v, pre, cs);
    b.Fill(start, Store(b.host, totalSize, 8), size, old(b.text), pre, cs);
  }

  /** adios_write_var_payload_v1. */
  method WriteVarPayload(b: WriteBuffer, v: Var)
    requires b.Valid() && VarFits(v)
    modifies b
    ensures b.Valid() && b.text == old(b.text) + v.data
  {
    b.BufferWrite(v.data[..VarSize(v)]);
  }
}
