/** The growing output buffer: buffer_write, src/core/adios_internals.c:1887-1910. */
module WriteBuffers {
  import opened Seqs
  import opened Bytes
  import opened Chunks

  /** `pre` is `before` and n more bytes, not yet filled in. */
  ghost predicate Gap(before: seq<byte>, pre: seq<byte>, n: nat) {
    |pre| == |before| + n && pre[..|before|] == before
  }

  lemma GapFilled(before: seq<byte>, pre: seq<byte>, n: nat, prefix: seq<byte>, body: seq<byte>, now: seq<byte>)
    requires Gap(before, pre, n) && |prefix| == n
    requires now == (pre + body)[..|before|] + prefix + (pre + body)[|before| + n..]
    ensures now == before + (prefix + body)
  {}

  class WriteBuffer {
    /** The allocated memory. */
    var data: seq<byte>
    var offset: nat
    const host: Endian
    /** What has been written: an unbounded byte array, as long as the cursor says. */
    ghost var text: seq<byte>

    ghost predicate Valid()
      reads this
    {
      offset <= |data| && text == data[..offset]
    }

    constructor (host: Endian)
      ensures Valid() && text == [] && this.host == host
    {
      data, offset, text := [], 0, [];
      this.host := host;
    }

    /** Makes the buffer long enough; what the new memory holds is not known. */
    method Reserve(n: nat)
      requires Valid()
      modifies this`data
      ensures Valid() && n <= |data|
    {
      if n > |data| {
        var more := new byte[n + 1000000 - |data|];
        data := data + more[..];
      }
    }

    /** buffer_write at the cursor. */
    method BufferWrite(bytes: seq<byte>)
      requires Valid()
      modifies this
      ensures Valid() && text == old(text) + bytes
    {
      Reserve(offset + |bytes|);
      data := data[..offset] + bytes + data[offset + |bytes|..];
      offset := offset + |bytes|;
      text := text + bytes;
    }

    /** The buffer has, after `pre`, the first k fields of a record, and `size` counts their bytes. */
    ghost predicate Has(pre: seq<byte>, cs: seq<seq<byte>>, k: nat, size: nat)
      reads this
    {
      Valid() && k <= |cs| && text == pre + Flat(cs[..k]) && size == |Flat(cs[..k])|
    }

    /** Writes field k of a record and counts its bytes. */
    method Put(bytes: seq<byte>, size: nat, ghost pre: seq<byte>, ghost cs: seq<seq<byte>>, ghost k: nat)
      returns (newSize: nat)
      requires Has(pre, cs, k, size) && k < |cs| && bytes == cs[k]
      modifies this
      ensures Has(pre, cs, k + 1, newSize)
    {
      BufferWrite(bytes);
      newSize := size + |bytes|;
      Wrote(old(text), size, pre, cs, k);
    }

    /** Writes field k of a record whose bytes nobody counts. */
    method Add(bytes: seq<byte>, ghost size: nat, ghost pre: seq<byte>, ghost cs: seq<seq<byte>>, ghost k: nat)
      returns (ghost newSize: nat)
      requires Has(pre, cs, k, size) && k < |cs| && bytes == cs[k]
      modifies this
      ensures Has(pre, cs, k + 1, newSize) && newSize == size + |bytes|
    {
      BufferWrite(bytes);
      newSize := size + |bytes|;
      Wrote(old(text), size, pre, cs, k);
    }

    /** Field k has been added to what was there. */
    lemma Wrote(before: seq<byte>, size: nat, pre: seq<byte>, cs: seq<seq<byte>>, k: nat)
      requires Valid() && k < |cs| && before == pre + Flat(cs[..k]) && size == |Flat(cs[..k])| && text == before + cs[k]
      ensures Has(pre, cs, k + 1, size + |cs[k]|)
    {
      FlatStep(cs, k);
      Assoc(pre, Flat(cs[..k]), cs[k]);
    }

    lemma HasNone(cs: seq<seq<byte>>)
      requires Valid()
      ensures Has(text, cs, 0, 0)
    {}

    lemma HasAll(pre: seq<byte>, cs: seq<seq<byte>>, size: nat)
      requires Has(pre, cs, |cs|, size)
      ensures text == pre + Flat(cs) && size == |Flat(cs)|
    {
      assert cs[..|cs|] == cs;
    }

    lemma IsAll(pre: seq<byte>, cs: seq<seq<byte>>, size: nat)
      requires Valid() && text == pre + Flat(cs) && size == |Flat(cs)|
      ensures Has(pre, cs, |cs|, size)
    {
      assert cs[..|cs|] == cs;
    }

    /** Leaves room for n bytes that are patched in later. */
    method Skip(n: nat, ghost cs: seq<seq<byte>>) returns (start: nat)
      requires Valid()
      modifies this
      ensures Gap(old(text), text, n) && start == |old(text)| && Has(text, cs, 0, 0)
    {
      start := offset;
      Reserve(offset + n);
      offset := offset + n;
      text := data[..offset];
      HasNone(cs);
    }

    /** buffer_write at another cursor: only the bytes there are touched. */
    method Patch(at: nat, bytes: seq<byte>)
      requires Valid() && at + |bytes| <= |text|
      modifies this
      ensures Valid() && text == old(text)[..at] + bytes + old(text)[at + |bytes|..]
    {
      data := data[..at] + bytes + data[at + |bytes|..];
      text := text[..at] + bytes + text[at + |bytes|..];
    }

    /** Fills in the room left in front of a complete record. */
    method Fill(start: nat, prefix: seq<byte>, ghost size: nat, ghost before: seq<byte>, ghost pre: seq<byte>,
                ghost cs: seq<seq<byte>>)
      requires Has(pre, cs, |cs|, size) && Gap(before, pre, |prefix|) && start == |before|
      modifies this
      ensures Valid() && text == before + (prefix + Flat(cs))
    {
      HasAll(pre, cs, size);
      Patch(start, prefix);
      GapFilled(before, pre, |prefix|, prefix, Flat(cs), text);
    }

    /** The same for room for two numbers, a count and a length. */
    method FillTwo(start: nat, count: seq<byte>, length: seq<byte>, ghost size: nat, ghost before: seq<byte>,
                   ghost pre: seq<byte>, ghost cs: seq<seq<byte>>)
      requires Has(pre, cs, |cs|, size) && Gap(before, pre, |count| + |length|) && start == |before|
      modifies this
      ensures Valid() && text == before + Flat([count, length, Flat(cs)])
      ensures |Flat([count, length, Flat(cs)])| == |count| + |length| + size
    {
      HasAll(pre, cs, size);
      Fill(start, count + length, size, before, pre, cs);
      FlatThree(count, length, Flat(cs));
      Assoc(count, length, Flat(cs));
    }
  }
}
