/** The last 28 bytes of a file, and reading a whole index back: src/core/adios_bp_v1.c:110-185. */
module BpFooter {
  import opened Outcomes
  import opened Bytes
  import opened ReadBuffers
  import opened BpIndex

  // ---- The version word.

  /** The highest byte of a 32-bit word, on a machine of either order. */
  lemma HighByte(order: Endian, n: nat)
    requires n < U32
    ensures Store(order, n, 4)[if order == Big then 0 else 3] == n / 0x100_0000
  {
    assert Store(order, n, 4)[if order == Big then 0 else 3] == LowBytes(n, 4)[3] == Digit(n, 3);
    assert Digit(n, 3) == Digit(n / 256, 2) == Digit(n / 256 / 256, 1) == Digit(n / 256 / 256 / 256, 0);
  }

  /** adios_parse_version: the order of the writer is in the high bit. */
  method ParseVersion(b: ReadBuffer, ghost w: Endian, ghost subfile: bool) returns (r: Result<nat>)
    requires |b.buff| >= 4 ==> b.offset + 4 <= |b.buff| && b.buff[b.offset..b.offset + 4] == VersionBytes(w, subfile)
    modifies b`change
    ensures |b.buff| < 4 ==> r == Err && b.change == old(b.change)
    ensures |b.buff| >= 4 ==> r == Ok(VERSION + if subfile then HAVE_SUBFILE else 0) && b.change == (w != b.host)
  {
    if |b.buff| < 4 {
      return Err;
    }
    var version := Load(Big, b.buff[b.offset..b.offset + 4]);  // ntohl
    Pow256Values();
    LoadStore(Big, (if w == Big then BIG_ENDIAN_BIT else 0) + VERSION + (if subfile then HAVE_SUBFILE else 0), 4);
    HighByte(b.host, version);
    var v := Store(b.host, version, 4);
    if (v[0] != 0 && b.host == Big) || (v[3] == 0 && b.host == Little) {
      b.change := false;
    } else {
      b.change := true;
    }
    return Ok(version % 0x8000_0000);
  }

  // ---- Where the sections are.

  datatype Slices = Slices(pgs: nat, pgSize: nat, vars: nat, varsSize: nat, attrs: nat, attrsSize: nat)

  /** Difference of 64-bit words. */
  function Minus(a: int, b: int): (r: nat)
    requires 0 <= b < U64 && -U64 < a < U64
    ensures r < U64 && r - (a - b) in {0, U64, 0x2_0000_0000_0000_0000}
  {
    if a - b >= 0 then a - b else if a - b + U64 >= 0 then a - b + U64 else a - b + 2 * U64
  }

  /** adios_parse_index_offsets_v1; the attributes are taken to go on up to the last 28 bytes. */
  method ParseIndexOffsets(b: ReadBuffer, fileSize: nat, ghost pgs: nat, ghost vars: nat, ghost attrs: nat,
                           ghost w: Endian, ghost cs: seq<seq<byte>>, ghost t: seq<byte>) returns (r: Result<Slices>)
    requires b.offset <= |b.buff| && fileSize < U64
    requires |b.buff| - b.offset >= 24 ==>
      pgs < U64 && vars < U64 && attrs < U64 && cs == [Store(w, pgs, 8), Store(w, vars, 8), Store(w, attrs, 8)]
      && b.At(w, cs, 0, t)
    modifies b`offset
    ensures r == if |b.buff| - old(b.offset) < 24 then Err else
        Ok(Slices(pgs, Minus(vars, pgs), vars, Minus(attrs, vars), attrs, Minus(fileSize - 28, attrs)))
  {
    if |b.buff| - b.offset < 24 {
      return Err;
    }
    var attrsEnd := fileSize - 28;
    var pgOffset := b.Read64(pgs, w, cs, 0, t);
    var varsOffset := b.Read64(vars, w, cs, 1, t);
    var attrsOffset := b.Read64(attrs, w, cs, 2, t);
    return Ok(Slices(pgOffset, Minus(varsOffset, pgOffset), varsOffset, Minus(attrsOffset, varsOffset),
                     attrsOffset, Minus(attrsEnd, attrsOffset)));
  }
}
