/** Writer, size calculator, index and parser agree on where the data of a variable starts and how long it is. */
module BpAgreement {
  import opened Bytes
  import opened Chunks
  import opened WriteBuffers
  import opened ReadBuffers
  import opened BpIndex
  import opened BpFooter
  import opened BpVar
  import opened BpVarWriter
  import opened BpVarSize
  import opened BpVarOverhead
  import opened BpVarHeader
  import opened BpPayload

  lemma {:induction false} DimsSizeBound(dims: seq<Dim>)
    ensures DimsSize(dims) <= 27 * |dims|
  {
    if dims != [] { DimsSizeBound(dims[..|dims| - 1]); }
  }

  lemma DimListFitsWord(w: Endian, dims: seq<Dim>)
    requires |dims| < 256
    ensures |Flat(DimListFields(w, dims))| % U16 == 3 + DimsSize(dims)
  {
    DimListLength(w, dims);
    DimsSizeBound(dims);
    WordIff(|Flat(DimListFields(w, dims))|);
  }

  lemma LengthSum(w: Endian, v: Var)
    requires VarFits(v)
    ensures LengthOfVar(w, v) == HeaderSize(v) - CharsSize(v) + CharsSize(v) % U16 + VarSize(v)
  {
    var s, d, c := |Flat(StartFields(w, v))|, |Flat(DimListFields(w, v.dims))|, |Flat(CharFields(w, v))|;
    assert LengthOfVar(w, v) == 8 + s + d % U16 + c % U16 + VarSize(v);
    StartLength(w, v);
    DimListFitsWord(w, v.dims);
    CharsLength(w, v);
  }

  lemma LostIff(size: nat, chars: nat, start: nat)
    requires start + chars < U64 && start + chars % U16 + size < U64
    ensures Minus(start + chars % U16 + size, start + chars) == size <==> chars < U16
  {}

  /** The parsed size of the data is the right one exactly when the characteristics fit in 16 bits. */
  lemma PayloadSizeExactIff(w: Endian, host: Endian, v: Var)
    requires Measured(w, v)
    ensures HeaderRead(w, host, v).payloadSize == VarSize(v) <==> CharsSize(v) < U16
  {
    LengthSum(w, v);
    HeaderSizeExact(w, v);
    LostIff(VarSize(v), CharsSize(v), HeaderSize(v) - CharsSize(v));
  }

  /**
   * payload_offset in the index (src/core/adios_internals.c:3266-3269): the overhead is that of the variable as
   * it was defined, and the length of its path is taken out again and replaced by that of the current one.
   */
  method IndexPayloadOffset(writeOffset: nat, defined: Var, path: seq<byte>) returns (offset: int)
    requires VarFits(defined)
    ensures offset == writeOffset + HeaderSize(defined) % U16 - |defined.path| + |path|
  {
    var overhead := CalcVarOverhead(defined);
    offset := writeOffset + overhead - |defined.path| + |path|;
  }

  lemma PathInSize(v: Var, path: seq<byte>)
    requires VarFits(v)
    ensures VarFits(v.(path := path)) && HeaderSize(v.(path := path)) == HeaderSize(v) - |v.path| % U16 + |path| % U16
  {}

  /** The offset in the index is that of the data exactly when the header of the variable as defined fits in 16 bits. */
  lemma IndexOffsetExactIff(w: Endian, writeOffset: nat, defined: Var, path: seq<byte>, offset: int)
    requires |path| < U16 && |defined.path| < U16 && VarFits(defined)
    requires offset == writeOffset + HeaderSize(defined) % U16 - |defined.path| + |path|
    ensures VarFits(defined.(path := path))
    ensures offset == writeOffset + HeaderLength(w, defined.(path := path)) <==> HeaderSize(defined) < U16
  {
    var v := defined.(path := path);
    PathInSize(defined, path);
    HeaderSizeExact(w, v);
    var n, m, before, now := HeaderSize(defined), HeaderSize(v), |defined.path|, |path|;
    WordIff(n);
    WordIff(before);
    WordIff(now);
    assert HeaderLength(w, v) == m == n - before + now;
  }

  /** A header and the data, after `before`. */
  method WriteVar(w: Endian, before: seq<byte>, baseOffset: nat, v: Var)
    returns (file: seq<byte>, cursor: nat, writeOffset: nat)
    requires VarFits(v)
    ensures file == before + HeaderBytes(w, v) + v.data && cursor == |before| + HeaderLength(w, v)
    ensures writeOffset == baseOffset + |before|
  {
    var b := new WriteBuffer(w);
    b.BufferWrite(before);
    assert [] + before == before;
    var total;
    total, writeOffset := WriteVarHeader(b, baseOffset, v);
    cursor := b.offset;
    WriteVarPayload(b, v);
    file := b.data[..b.offset];
  }

  /** A variable is written after `before`, with its current path, and its header is parsed on another machine. */
  method WriteAndParse(w: Endian, host: Endian, before: seq<byte>, baseOffset: nat, defined: Var, path: seq<byte>)
    returns (writerCursor: nat, indexOffset: int, parserCursor: nat, header: VarHeader)
    requires |path| < U16 && |defined.path| < U16 && VarFits(defined) && Measured(w, defined.(path := path))
    ensures parserCursor == writerCursor == |before| + HeaderLength(w, defined.(path := path))
    ensures indexOffset == baseOffset + writerCursor <==> HeaderSize(defined) < U16
    ensures header == HeaderRead(w, host, defined.(path := path))
  {
    var v := defined.(path := path);
    var file, cursor, writeOffset := WriteVar(w, before, baseOffset, v);
    writerCursor := cursor;
    indexOffset := IndexPayloadOffset(writeOffset, defined, path);
    IndexOffsetExactIff(w, writeOffset, defined, path, indexOffset);
    parserCursor, header := ParseIn(file, host, w != host, |before|, w, before, v);
  }

  lemma HeaderIsNext(file: seq<byte>, w: Endian, before: seq<byte>, v: Var)
    requires VarFits(v) && file == before + HeaderBytes(w, v) + v.data
    ensures |before| <= |file| && file[|before|..] == Flat(LengthAndParts(w, v)) + v.data
  {
    FlatTwo(LengthAndParts(w, v)[0], LengthAndParts(w, v)[1]);
    After(file, before, HeaderBytes(w, v), v.data);
  }

  lemma After(file: seq<byte>, a: seq<byte>, b: seq<byte>, c: seq<byte>)
    requires file == a + b + c
    ensures file[|a|..] == b + c
  {}

  method ParseIn(file: seq<byte>, host: Endian, change: bool, start: nat, ghost w: Endian, ghost before: seq<byte>,
                 ghost v: Var)
    returns (cursor: nat, header: VarHeader)
    requires Measured(w, v) && change == (w != host) && start == |before| && file == before + HeaderBytes(w, v) + v.data
    ensures cursor == start + HeaderLength(w, v) && header == HeaderRead(w, host, v)
  {
    HeaderIsNext(file, w, before, v);
    var b := new ReadBuffer(host, file, start, change);
    assert LengthAndParts(w, v)[0..] == LengthAndParts(w, v);
    header := ParseMeasured(b, v, w, v.data);
    cursor := b.offset;
  }
}
