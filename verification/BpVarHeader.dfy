/** The whole header of a variable, and where its data starts: src/core/adios_bp_v1.c:1244-1685. */
module BpVarHeader {
  import opened Outcomes
  import opened IndexRecords
  import opened Bytes
  import opened Types
  import opened Chunks
  import opened ReadBuffers
  import opened BpIndex
  import opened BpParser
  import opened BpItemParser
  import opened BpVar
  import opened BpVarSize
  import opened BpVarParser
  import opened BpVarCharParser

  /** What the parser keeps of the characteristics; it never sets the number of dimensions. */
  datatype HeaderChars = HeaderChars(dimsCount: nat, dims: seq<nat>, bitmap: nat, stats: seq<seq<Option<Stat>>>)

  datatype VarHeader = VarHeader(id: nat, name: seq<byte>, path: seq<byte>, type_: Datatype, isDim: bool,
                                 dims: seq<DimTriple>,
                                 chars: HeaderChars, payloadSize: nat)

  /** After k characteristics. */
  ghost function CharsAfter(w: Endian, host: Endian, v: Var, k: nat): HeaderChars
    requires VarFits(v) && k <= |HeaderItems(v)|
  {
    if k == 0 then HeaderChars(0, [], 0, [])
    else
      StatsThere(v);
      HeaderChars(0, Extents(v.dims), if k < 2 then 0 else v.bitmap,
                  if k < 3 then [] else StatsInHeader(w, host, v.type_, v.bitmap, v.stats))
  }

  ghost function CharsRead(w: Endian, host: Endian, v: Var): HeaderChars
    requires VarFits(v)
  {
    CharsAfter(w, host, v, |HeaderItems(v)|)
  }

  lemma ItemsOfArray(v: Var)
    requires VarFits(v) && HeaderItems(v) != []
    ensures IsArray(v) && |HeaderItems(v)| == 3 && HeaderItems(v)[0] == Dimensions(Extents(v.dims))
    ensures HeaderItems(v)[1] == Bitmap(v.bitmap)
    ensures HeaderItems(v)[2] == Stats(v.bitmap, v.stats)
  {}

  /** A characteristic goes into its place. */
  ghost function WithItem(w: Endian, host: Endian, ty: Datatype, c: HeaderChars, item: Item): HeaderChars
    requires ItemFits(ty, item)
  {
    match item
    case Dimensions(dims) => c.(dims := dims)
    case Bitmap(n) => c.(bitmap := n)
    case Stats(bitmap, stats) => c.(stats := StatsInHeader(w, host, ty, bitmap, stats))
    case _ => c
  }

  /** The characteristic behind a flag. */
  method ParseHeaderItemFields(b: ReadBuffer, ty: Datatype, flag: byte, c: HeaderChars, ghost item: Item,
                               ghost w: Endian, ghost cs: seq<seq<byte>>, ghost t: seq<byte>)
    returns (r: HeaderChars)
    requires ItemFits(ty, item) && flag == Flag(item) && flag in {4, 9, 10} && cs == ItemFields(w, ty, item)
    requires b.At(w, cs, 0, t)
    requires item.Stats? ==> c.bitmap == item.bitmap
    modifies b`offset
    ensures b.At(w, cs, |cs|, t) && r == WithItem(w, b.host, ty, c, item)
  {
    if flag == 4 {
      var dims := ParseDimensions(b, ty, item.dims, w, cs, t);
      r := c.(dims := dims);
    } else if flag == 9 {
      var n := b.Read32(item.n, w, cs, 0, t);
      r := c.(bitmap := n);
    } else {
      var stats := ParseHeaderStats(b, ty, c.bitmap, item.stats, w, cs, t);
      r := c.(stats := stats);
    }
  }

  method ParseHeaderItem(b: ReadBuffer, ty: Datatype, c: HeaderChars, ghost item: Item, ghost w: Endian,
                         ghost cs: seq<seq<byte>>, ghost i: nat, ghost t: seq<byte>)
    returns (r: HeaderChars)
    requires ItemFits(ty, item) && b.At(w, cs, i, t) && i < |cs| && cs[i] == ItemBytes(w, ty, item)
    requires Flag(item) in {4, 9, 10}
    requires item.Stats? ==> c.bitmap == item.bitmap
    modifies b`offset
    ensures b.At(w, cs, i + 1, t) && r == WithItem(w, b.host, ty, c, item)
  {
    ghost var fields, rest := ItemFields(w, ty, item), Flat(cs[i + 1..]) + t;
    ghost var both := [[Flag(item)], Flat(fields)];
    FlatTwo([Flag(item)], Flat(fields));
    b.Enter(w, cs, i, t, both);
    var flag := b.Take(1, w, both, 0, rest);
    b.Enter(w, both, 1, rest, fields);
    r := ParseHeaderItemFields(b, ty, flag[0], c, item, w, fields, Flat(both[2..]) + rest);
    b.Leave(w, both, 1, rest, fields);
    b.Leave(w, cs, i, t, both);
  }

  /** What the next characteristic does to what has been read. */
  lemma CharsStep(w: Endian, host: Endian, v: Var, i: nat)
    requires VarFits(v) && i < |HeaderItems(v)|
    ensures ItemFits(v.type_, HeaderItems(v)[i]) && Flag(HeaderItems(v)[i]) in {4, 9, 10}
    ensures HeaderItems(v)[i].Stats? ==> CharsAfter(w, host, v, i).bitmap == HeaderItems(v)[i].bitmap
    ensures CharsAfter(w, host, v, i + 1) == WithItem(w, host, v.type_, CharsAfter(w, host, v, i), HeaderItems(v)[i])
  {
    ItemsOfArray(v);
    StatsThere(v);
  }

  method ParseChars(b: ReadBuffer, ty: Datatype, count: nat, ghost v: Var, ghost w: Endian, ghost cs: seq<seq<byte>>,
                    ghost t: seq<byte>)
    returns (r: HeaderChars)
    requires VarFits(v) && ty == v.type_ && count == |HeaderItems(v)| && cs == CharChunks(w, v) && b.At(w, cs, 0, t)
    modifies b`offset
    ensures b.At(w, cs, |cs|, t) && r == CharsRead(w, b.host, v)
  {
    r := HeaderChars(0, [], 0, []);
    for i := 0 to count
      invariant b.At(w, cs, i, t) && r == CharsAfter(w, b.host, v, i)
    {
      CharsStep(w, b.host, v, i);
      r := ParseHeaderItem(b, ty, r, HeaderItems(v)[i], w, cs, i, t);
    }
  }

  /** Part i: count, length that nobody looks at, characteristics. */
  method ParseCharList(b: ReadBuffer, ty: Datatype, ghost v: Var, ghost w: Endian, ghost outer: seq<seq<byte>>,
                       ghost i: nat, ghost t: seq<byte>)
    returns (r: HeaderChars)
    requires VarFits(v) && ty == v.type_ && b.At(w, outer, i, t) && i < |outer| && outer[i] == Flat(CharFields(w, v))
    modifies b`offset
    ensures b.At(w, outer, i + 1, t) && r == CharsRead(w, b.host, v)
  {
    ghost var fields, rest, cs := CharFields(w, v), Flat(outer[i + 1..]) + t, CharChunks(w, v);
    b.Enter(w, outer, i, t, fields);
    Pow256Values();
    var count := b.ReadWord(1, |cs|, w, fields, 0, rest);
    var _ := b.Take(4, w, fields, 1, rest);
    b.Enter(w, fields, 2, rest, cs);
    r := ParseChars(b, ty, count, v, w, cs, Flat(fields[3..]) + rest);
    b.Leave(w, fields, 2, rest, cs);
    b.Leave(w, outer, i, t, fields);
  }

  /** Id, name, path, type and flag. */
  method ParseStartFields(b: ReadBuffer, ghost v: Var, ghost w: Endian, ghost cs: seq<seq<byte>>, ghost t: seq<byte>)
    returns (id: nat, name: seq<byte>, path: seq<byte>, ty: Datatype, isDim: bool)
    requires v.id < U32 && IsStart(w, v, cs) && b.At(w, cs, 0, t)
    modifies b`offset
    ensures b.At(w, cs, 5, t)
    ensures id == v.id && name == Cut(v.name) && path == Cut(v.path) && ty == v.type_ && isDim == v.isDim
  {
    id := b.Read32(v.id, w, cs, 0, t);
    name := ReadStr(b, v.name, w, cs, 1, t);
    path := ReadStr(b, v.path, w, cs, 2, t);
    ty := ReadType(b, v.type_, w, cs, 3, t);
    isDim := ReadFlag(b, v.isDim, w, cs, 4, t);
  }

  /** Part i: id, name, path, type and flag. */
  method ParseStart(b: ReadBuffer, ghost v: Var, ghost w: Endian, ghost outer: seq<seq<byte>>, ghost i: nat,
                    ghost t: seq<byte>)
    returns (id: nat, name: seq<byte>, path: seq<byte>, ty: Datatype, isDim: bool)
    requires v.id < U32 && b.At(w, outer, i, t) && i < |outer| && outer[i] == Flat(StartFields(w, v))
    modifies b`offset
    ensures b.At(w, outer, i + 1, t)
    ensures id == v.id && name == Cut(v.name) && path == Cut(v.path) && ty == v.type_ && isDim == v.isDim
  {
    ghost var fields := StartFields(w, v);
    StartIs(w, v);
    b.Enter(w, outer, i, t, fields);
    id, name, path, ty, isDim := ParseStartFields(b, v, w, fields, Flat(outer[i + 1..]) + t);
    b.Leave(w, outer, i, t, fields);
  }
}
