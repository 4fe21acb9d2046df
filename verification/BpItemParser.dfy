/** Parsing one characteristic: the switch in adios_parse_vars_index_v1 and adios_parse_attributes_index_v1. */
module BpItemParser {
  import opened Outcomes
  import opened IndexRecords
  import opened Bytes
  import opened Types
  import opened Chunks
  import opened ReadBuffers
  import opened BpIndex
  import opened BpParser

  /** A string is read as far as its length says; what is left of a longer one stays in front of the cursor. */
  method ParseText(b: ReadBuffer, ghost text: seq<byte>, ghost w: Endian, ghost cs: seq<seq<byte>>, ghost t: seq<byte>)
    returns (r: seq<byte>)
    requires cs == [Store(w, |text|, 2), text] && b.At(w, cs, 0, t)
    modifies b`offset
    ensures r == Cut(text) && b.At(w, [text[|Cut(text)|..]], 0, t)
    ensures |text| < U16 ==> b.At(w, cs, 2, t)
  {
    ghost var parts := [Store(w, |text| % U16, 2), Cut(text), text[|Cut(text)|..]];
    TextParts(w, text, cs, parts);
    assert parts[0..] == parts && cs[0..] == cs;
    var size := b.Read16(|text| % U16, w, parts, 0, t);
    r := b.Take(size, w, parts, 1, t);
    TextLeft(b, text, w, cs, parts, t);
  }

  lemma TextLeft(b: ReadBuffer, text: seq<byte>, w: Endian, cs: seq<seq<byte>>, parts: seq<seq<byte>>, t: seq<byte>)
    requires |cs| == 2 && |parts| == 3 && parts[2] == text[|Cut(text)|..] && b.At(w, parts, 2, t)
    ensures b.At(w, [text[|Cut(text)|..]], 0, t)
    ensures |text| < U16 ==> b.At(w, cs, 2, t)
  {
    var left := text[|Cut(text)|..];
    assert parts[2..] == [left] == [left][0..];
    FlatOne(left);
    if |text| < U16 {
      assert left == [] && Flat(cs[2..]) == [];
    }
  }

  lemma TextParts(w: Endian, text: seq<byte>, cs: seq<seq<byte>>, parts: seq<seq<byte>>)
    requires cs == [Store(w, |text|, 2), text] && parts == [Store(w, |text| % U16, 2), Cut(text), text[|Cut(text)|..]]
    ensures Flat(cs) == Flat(parts)
  {
    LowTwo(w, |text|);
    FlatTwo(cs[0], cs[1]);
    FlatThree(parts[0], parts[1], parts[2]);
    assert parts[1] + parts[2] == text;
  }

  /** Two bytes hold 16 bits of a number. */
  lemma LowTwo(w: Endian, n: nat)
    ensures Store(w, n, 2) == Store(w, n % U16, 2)
  {
    TwoBytes(n);
    TwoBytes(n % U16);
    SameDigits(n, n / U16, n % U16);
  }

  lemma SameDigits(n: nat, q: nat, m: nat)
    requires n == U16 * q + m
    ensures n % 256 == m % 256 && n / 256 % 256 == m / 256 % 256
  {
    LastDigit(n, 256 * q, m);
    LastDigit(n / 256, q, m / 256);
  }

  lemma LastDigit(n: nat, q: nat, m: nat)
    requires n == 256 * q + m
    ensures n % 256 == m % 256 && n / 256 == q + m / 256
  {}

  lemma TwoBytes(n: nat)
    ensures LowBytes(n, 2) == [n % 256, n / 256 % 256]
  {
    LowBytesStep(n, 2);
    LowBytesStep(n / 256, 1);
  }

  /** The two parts of a complex number, as they are. */
  method ParsePair(b: ReadBuffer, half: nat, ghost re: nat, ghost im: nat, ghost w: Endian, ghost cs: seq<seq<byte>>,
                   ghost t: seq<byte>) returns (r: Value)
    requires cs == [Store(w, re, half) + Store(w, im, half)] && b.At(w, cs, 0, t)
    modifies b`offset
    ensures b.At(w, cs, 1, t) && r == Pair(Load(b.host, Store(w, re, half)), Load(b.host, Store(w, im, half)))
  {
    var data := b.Take(2 * half, w, cs, 0, t);
    r := Pair(Load(b.host, data[..half]), Load(b.host, data[half..]));
    assert data[..half] == Store(w, re, half) && data[half..] == Store(w, im, half);
  }

  method ParseValue(b: ReadBuffer, ty: Datatype, ghost v: Value, ghost w: Endian, ghost cs: seq<seq<byte>>,
                    ghost t: seq<byte>) returns (r: Value)
    requires ValueFits(ty, v) && ShortValue(v) && cs == ValueFields(w, ty, v) && b.At(w, cs, 0, t)
    modifies b`offset
    ensures b.At(w, cs, |cs|, t) && r == ValueRead(w, b.host, ty, v)
  {
    if ty == TString {
      var text := ParseText(b, v.bytes, w, cs, t);
      r := Text(text);
    } else if IsComplex(ty) {
      r := ParsePair(b, TypeSize(ty) / 2, v.re, v.im, w, cs, t);
    } else {
      var n := b.ReadWord(TypeSize(ty), v.n, w, cs, 0, t);
      r := Word(n);
    }
  }

  method ParseDimensions(b: ReadBuffer, ty: Datatype, ghost dims: seq<nat>, ghost w: Endian, ghost cs: seq<seq<byte>>,
                         ghost t: seq<byte>)
    returns (r: seq<nat>)
    requires ItemFits(ty, Dimensions(dims)) && cs == ItemFields(w, ty, Dimensions(dims)) && b.At(w, cs, 0, t)
    modifies b`offset
    ensures b.At(w, cs, 3, t) && r == dims
  {
    Pow256Values();
    var count := b.Take(1, w, cs, 0, t);
    var length := b.Read16(8 * |dims|, w, cs, 1, t);
    r := b.ReadWords(8, dims, length / 8, w, cs, 2, t);
  }

  predicate IsWord(flag: byte) { flag in {3, 5, 6, 7, 8, 9} }

  /** A characteristic that is a single word. */
  method ParseWord(b: ReadBuffer, ty: Datatype, flag: byte, c: Characteristic, ghost item: Item,
                   ghost w: Endian, ghost cs: seq<seq<byte>>, ghost t: seq<byte>) returns (r: Characteristic)
    requires ItemFits(ty, item) && flag == Flag(item) && IsWord(flag) && cs == ItemFields(w, ty, item)
    requires b.At(w, cs, 0, t)
    modifies b`offset
    ensures b.At(w, cs, |cs|, t) && r == With(c, item)
  {
    if flag == 3 || flag == 6 {
      var n := b.Read64(item.n, w, cs, 0, t);
      r := if flag == 3 then c.(offset := n) else c.(payloadOffset := n);
    } else {
      var n := b.Read32(item.n, w, cs, 0, t);
      match flag
      case 5 => r := c.(varId := n);
      case 7 => r := c.(fileIndex := n);
      case 8 => r := c.(timeIndex := n);
      case _ => r := c.(bitmap := n);
    }
  }

  /** The characteristic behind a flag, into the record. */
  method ParseItemFields(b: ReadBuffer, ty: Datatype, flag: byte, c: Characteristic, ghost item: Item,
                         ghost w: Endian, ghost cs: seq<seq<byte>>, ghost t: seq<byte>) returns (r: Characteristic)
    requires ItemFits(ty, item) && ShortItem(item) && flag == Flag(item) && cs == ItemFields(w, ty, item)
    requires b.At(w, cs, 0, t)
    requires item.Stats? ==> c.bitmap == item.bitmap
    modifies b`offset
    ensures b.At(w, cs, |cs|, t) && r == With(c, ItemRead(w, b.host, ty, item))
  {
    if IsWord(flag) {
      r := ParseWord(b, ty, flag, c, item, w, cs, t);
    } else if flag == 0 {
      var v := ParseValue(b, ty, item.value, w, cs, t);
      r := c.(value := Some(v));
    } else if flag == 4 {
      var dims := ParseDimensions(b, ty, item.dims, w, cs, t);
      r := c.(dims := dims);
    } else {
      var stats := ParseStats(b, ty, c.bitmap, item.stats, w, cs, t);
      r := c.(stats := stats);
    }
  }

  /** Characteristic i of a set. */
  method ParseItem(b: ReadBuffer, ty: Datatype, c: Characteristic, ghost item: Item,
                   ghost w: Endian, ghost cs: seq<seq<byte>>, ghost i: nat, ghost t: seq<byte>)
    returns (r: Characteristic)
    requires ItemFits(ty, item) && ShortItem(item) && b.At(w, cs, i, t) && i < |cs| && cs[i] == ItemBytes(w, ty, item)
    requires item.Stats? ==> c.bitmap == item.bitmap
    modifies b`offset
    ensures b.At(w, cs, i + 1, t) && r == With(c, ItemRead(w, b.host, ty, item))
  {
    ghost var fields, rest := ItemFields(w, ty, item), Flat(cs[i + 1..]) + t;
    ghost var both := [[Flag(item)], Flat(fields)];
    FlatTwo([Flag(item)], Flat(fields));
    b.Enter(w, cs, i, t, both);
    var flag := b.Take(1, w, both, 0, rest);
    b.Enter(w, both, 1, rest, fields);
    r := ParseItemFields(b, ty, flag[0], c, item, w, fields, Flat(both[2..]) + rest);
    b.Leave(w, both, 1, rest, fields);
    b.Leave(w, cs, i, t, both);
  }
}
