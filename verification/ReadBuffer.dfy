/**
 The buffer a parser walks over (struct adios_bp_buffer_struct_v1, src/core/adios_bp_v1.h) and its byte-swapping reads.
 */
module ReadBuffers {
  import opened Bytes
  import opened Chunks
  import opened Endianness

  /** The bytes of a word written by a `w` machine, in the order of a `host` machine. */
  lemma Mirrored(w: Endian, host: Endian, n: nat, size: nat)
    requires n < Pow256(size)
    ensures Load(host, if w != host then Rev(Store(w, n, size)) else Store(w, n, size)) == n
  {
    RevRev(LowBytes(n, size));
    assert (if w != host then Rev(Store(w, n, size)) else Store(w, n, size)) == Store(host, n, size);
    LoadStore(host, n, size);
  }

  lemma MirrorIsRev(now: seq<byte>, before: seq<byte>)
    requires IsMirror(now, before, 0, |before|)
    ensures now == Rev(before)
  {}

  /** swap_ptr on a copy of some bytes; sizes it does not know are left alone. */
  method SwapPtr(bytes: seq<byte>, host: Endian) returns (swapped: seq<byte>)
    ensures swapped == if |bytes| in {0, 1, 2, 4, 8, 16} then Rev(bytes) else bytes
  {
    var data := new byte[|bytes|];
    StoreAt(data, 0, bytes);
    assert data[..] == bytes;
    match |bytes| {
      case 2 => SwapPtr16(data, 0, host);
      case 4 => SwapPtr32(data, 0, host);
      case 8 => SwapPtr64(data, 0, host);
      case 16 => SwapPtr128(data, 0, host);
      case _ =>
    }
    swapped := data[..];
    if |bytes| in {2, 4, 8, 16} { MirrorIsRev(swapped, bytes); }
  }

  class ReadBuffer {
    var buff: seq<byte>
    var offset: nat
    const host: Endian
    /** change_endianness */
    var change: bool

    constructor (host: Endian, buff: seq<byte>, offset: nat, change: bool)
      ensures this.host == host && this.buff == buff && this.offset == offset && this.change == change
    {
      this.host, this.buff, this.offset, this.change := host, buff, offset, change;
    }

    /** At field i of a record that a `w` machine wrote, with the bytes `t` after it. */
    ghost predicate At(w: Endian, cs: seq<seq<byte>>, i: nat, t: seq<byte>)
      reads this
    {
      offset <= |buff| && change == (w != host) && i <= |cs| && buff[offset..] == Flat(cs[i..]) + t
    }

    /** Copies field i out of the buffer. */
    method Take(n: nat, ghost w: Endian, ghost cs: seq<seq<byte>>, ghost i: nat, ghost t: seq<byte>)
      returns (bytes: seq<byte>)
      requires At(w, cs, i, t) && i < |cs| && |cs[i]| == n
      modifies this`offset
      ensures At(w, cs, i + 1, t) && bytes == cs[i]
    {
      FlatNext(cs, i, t);
      bytes := buff[offset..offset + n];
      assert bytes == buff[offset..][..n];
      assert buff[offset + n..] == buff[offset..][n..];
      offset := offset + n;
    }

    /** Reads field i, a word, and swaps its bytes when the writer had the other order. */
    method ReadWord(size: nat, ghost n: nat, ghost w: Endian, ghost cs: seq<seq<byte>>, ghost i: nat,
                    ghost t: seq<byte>) returns (word: nat)
      requires size in {0, 1, 2, 4, 8, 16} && n < Pow256(size) && At(w, cs, i, t) && i < |cs|
      requires cs[i] == Store(w, n, size)
      modifies this`offset
      ensures At(w, cs, i + 1, t) && word == n
    {
      var bytes := Take(size, w, cs, i, t);
      if change {
        bytes := SwapPtr(bytes, host);
      }
      word := Load(host, bytes);
      Mirrored(w, host, n, size);
    }

    method Read16(ghost n: nat, ghost w: Endian, ghost cs: seq<seq<byte>>, ghost i: nat, ghost t: seq<byte>)
      returns (word: nat)
      requires n < 0x1_0000 && At(w, cs, i, t) && i < |cs| && cs[i] == Store(w, n, 2)
      modifies this`offset
      ensures At(w, cs, i + 1, t) && word == n
    {
      Pow256Values();
      word := ReadWord(2, n, w, cs, i, t);
    }

    method Read32(ghost n: nat, ghost w: Endian, ghost cs: seq<seq<byte>>, ghost i: nat, ghost t: seq<byte>)
      returns (word: nat)
      requires n < 0x1_0000_0000 && At(w, cs, i, t) && i < |cs| && cs[i] == Store(w, n, 4)
      modifies this`offset
      ensures At(w, cs, i + 1, t) && word == n
    {
      Pow256Values();
      word := ReadWord(4, n, w, cs, i, t);
    }

    method Read64(ghost n: nat, ghost w: Endian, ghost cs: seq<seq<byte>>, ghost i: nat, ghost t: seq<byte>)
      returns (word: nat)
      requires n < 0x1_0000_0000_0000_0000 && At(w, cs, i, t) && i < |cs| && cs[i] == Store(w, n, 8)
      modifies this`offset
      ensures At(w, cs, i + 1, t) && word == n
    {
      Pow256Values();
      word := ReadWord(8, n, w, cs, i, t);
    }

    /** Reads a length that nobody looks at, in front of the fields of field i. */
    method ReadLength(size: nat, ghost n: nat, ghost w: Endian, ghost cs: seq<seq<byte>>, ghost i: nat,
                      ghost t: seq<byte>, ghost inner: seq<seq<byte>>)
      requires At(w, cs, i, t) && i < |cs| && cs[i] == Store(w, n, size) + Flat(inner)
      modifies this`offset
      ensures At(w, inner, 0, Flat(cs[i + 1..]) + t)
    {
      FlatTwo(Store(w, n, size), Flat(inner));
      ghost var both, rest := [Store(w, n, size), Flat(inner)], Flat(cs[i + 1..]) + t;
      Enter(w, cs, i, t, both);
      var _ := Take(size, w, both, 0, rest);
      Enter(w, both, 1, rest, inner);
      assert Flat(both[2..]) + rest == rest;
    }

    /** Field i of a record has fields of its own. */
    lemma Enter(w: Endian, cs: seq<seq<byte>>, i: nat, t: seq<byte>, inner: seq<seq<byte>>)
      requires At(w, cs, i, t) && i < |cs| && cs[i] == Flat(inner)
      ensures At(w, inner, 0, Flat(cs[i + 1..]) + t)
    {}

    /** At the end of the fields of field i. */
    lemma Leave(w: Endian, cs: seq<seq<byte>>, i: nat, t: seq<byte>, inner: seq<seq<byte>>)
      requires i < |cs| && At(w, inner, |inner|, Flat(cs[i + 1..]) + t)
      ensures At(w, cs, i + 1, t)
    {}

    /** Reads field i, an array of words. */
    method ReadWords(size: nat, ghost ns: seq<nat>, count: nat, ghost w: Endian, ghost cs: seq<seq<byte>>, ghost i: nat,
                     ghost t: seq<byte>)
      returns (words: seq<nat>)
      requires size in {4, 8} && count == |ns| && (forall k | 0 <= k < |ns| :: ns[k] < Pow256(size))
      requires At(w, cs, i, t) && i < |cs| && cs[i] == Flat(Words(w, ns, size))
      modifies this`offset
      ensures At(w, cs, i + 1, t) && words == ns
    {
      ghost var inner := Words(w, ns, size);
      ghost var rest := Flat(cs[i + 1..]) + t;
      Enter(w, cs, i, t, inner);
      words := [];
      for k := 0 to count
        invariant At(w, inner, k, rest) && words == ns[..k]
      {
        var word := ReadWord(size, ns[k], w, inner, k, rest);
        words := words + [word];
      }
      Leave(w, cs, i, t, inner);
    }
  }
}
