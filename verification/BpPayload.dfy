/** Where the data of a variable starts, for the writer, the size calculator, the index and the parser. */
module BpPayload {
  import opened Outcomes
  import opened Bytes
  import opened Chunks
  import opened ReadBuffers
  import opened BpIndex
  import opened BpFooter
  import opened BpVar
  import opened BpVarParser
  import opened BpVarHeader

  /** The header with the length in front. */
  ghost function LengthAndParts(w: Endian, v: Var): (cs: seq<seq<byte>>)
    requires VarFits(v)
    ensures |cs| == 2
  {
    [Store(w, LengthOfVar(w, v), 8), Flat(HeaderParts(w, v))]
  }

  ghost predicate Measured(w: Endian, v: Var) {
    VarFits(v) && LengthOfVar(w, v) < U64 && HeaderLength(w, v) < U64
  }

  ghost function HeaderRead(w: Endian, host: Endian, v: Var): VarHeader
    requires Measured(w, v)
  {
    VarHeader(v.id, Cut(v.name), Cut(v.path), v.type_, v.isDim, DimsRead(v.dims), CharsRead(w, host, v),
              Minus(LengthOfVar(w, v), HeaderLength(w, v)))
  }

  /** The parts of a header; the payload size is left for the caller to set. */
  method ParseHeaderParts(b: ReadBuffer, ghost v: Var, ghost w: Endian, ghost cs: seq<seq<byte>>, ghost t: seq<byte>)
    returns (r: VarHeader)
    requires VarFits(v) && cs == HeaderParts(w, v) && b.At(w, cs, 0, t)
    modifies b`offset
    ensures b.At(w, cs, 3, t)
    ensures r == VarHeader(v.id, Cut(v.name), Cut(v.path), v.type_, v.isDim, DimsRead(v.dims),
                           CharsRead(w, b.host, v), 0)
  {
    var id, name, path, ty, isDim := ParseStart(b, v, w, cs, 0, t);
    var dims := ParseDimList(b, v.dims, w, cs, 1, t);
    var chars := ParseCharList(b, ty, v, w, cs, 2, t);
    r := VarHeader(id, name, path, ty, isDim, dims, chars, 0);
  }

  method ParseLengthAndParts(b: ReadBuffer, ghost v: Var, ghost w: Endian, ghost whole: seq<seq<byte>>,
                             ghost t: seq<byte>)
    returns (lengthOfVar: nat, r: VarHeader)
    requires Measured(w, v) && whole == LengthAndParts(w, v) && b.At(w, whole, 0, t)
    modifies b`offset
    ensures b.At(w, whole, 2, t) && lengthOfVar == LengthOfVar(w, v)
    ensures r == VarHeader(v.id, Cut(v.name), Cut(v.path), v.type_, v.isDim, DimsRead(v.dims),
                           CharsRead(w, b.host, v), 0)
  {
    ghost var parts := HeaderParts(w, v);
    lengthOfVar := b.Read64(LengthOfVar(w, v), w, whole, 0, t);
    b.Enter(w, whole, 1, t, parts);
    r := ParseHeaderParts(b, v, w, parts, Flat(whole[2..]) + t);
    b.Leave(w, whole, 1, t, parts);
  }

  lemma WholeLength(w: Endian, v: Var)
    requires VarFits(v)
    ensures |Flat(LengthAndParts(w, v))| == HeaderLength(w, v)
  {
    FlatTwo(LengthAndParts(w, v)[0], LengthAndParts(w, v)[1]);
  }

  method ParseMeasured(b: ReadBuffer, ghost v: Var, ghost w: Endian, ghost t: seq<byte>) returns (r: VarHeader)
    requires Measured(w, v) && b.At(w, LengthAndParts(w, v), 0, t)
    modifies b`offset
    ensures r == HeaderRead(w, b.host, v) && b.offset == old(b.offset) + HeaderLength(w, v)
    ensures b.At(w, LengthAndParts(w, v), 2, t)
  {
    var initialOffset := b.offset;
    ghost var whole := LengthAndParts(w, v);
    assert whole[0..] == whole;
    var lengthOfVar, header := ParseLengthAndParts(b, v, w, whole, t);
    Used(b, initialOffset, w, whole, t);
    WholeLength(w, v);
    r := header.(payloadSize := Minus(lengthOfVar, b.offset - initialOffset));
  }

  /** adios_parse_var_data_header_v1: the cursor ends on the first byte of the data. */
  method ParseVarHeader(b: ReadBuffer, ghost v: Var, ghost w: Endian, ghost t: seq<byte>) returns (r: Result<VarHeader>)
    requires b.offset <= |b.buff|
    requires (|b.buff| - b.offset >= 23 ==> Measured(w, v) && b.At(w, LengthAndParts(w, v), 0, t))
    modifies b`offset
    ensures |b.buff| - old(b.offset) < 23 ==> r == Err
    ensures |b.buff| - old(b.offset) >= 23 ==>
      r == Ok(HeaderRead(w, b.host, v)) && b.offset == old(b.offset) + HeaderLength(w, v)
    ensures r.Ok? ==> b.At(w, LengthAndParts(w, v), 2, t)
  {
    if |b.buff| - b.offset < 23 {
      return Err;
    }
    var header := ParseMeasured(b, v, w, t);
    return Ok(header);
  }

  /** How far the cursor has moved. */
  lemma Used(b: ReadBuffer, start: nat, w: Endian, cs: seq<seq<byte>>, t: seq<byte>)
    requires start <= |b.buff| && b.buff[start..] == Flat(cs) + t && b.At(w, cs, |cs|, t)
    ensures b.offset == start + |Flat(cs)|
  {}
}
