/** Byte chunks one after the other. */
module Chunks {
  import opened Seqs
  import opened Bytes

  function Flat(cs: seq<seq<byte>>): seq<byte> {
    if cs == [] then [] else cs[0] + Flat(cs[1..])
  }

  /** The bytes an array of words has in memory. */
  function Words(w: Endian, ns: seq<nat>, size: nat): (cs: seq<seq<byte>>)
    ensures |cs| == |ns|
  {
    seq(|ns|, i requires 0 <= i < |ns| => Store(w, ns[i], size))
  }

  lemma {:induction false} FlatConcat(a: seq<seq<byte>>, b: seq<seq<byte>>)
    ensures Flat(a + b) == Flat(a) + Flat(b)
  {
    if a == [] {
      assert a + b == b && [] + Flat(b) == Flat(b);
    } else {
      FlatConcat(a[1..], b);
      assert (a + b)[0] == a[0] && (a + b)[1..] == a[1..] + b;
      Assoc(a[0], Flat(a[1..]), Flat(b));
    }
  }

  lemma FlatOne(c: seq<byte>)
    ensures Flat([c]) == c
  {}

  lemma FlatTwo(c: seq<byte>, d: seq<byte>)
    ensures Flat([c, d]) == c + d
  {
    assert [c, d][1..] == [d];
    FlatOne(d);
  }

  lemma FlatThree(c: seq<byte>, d: seq<byte>, e: seq<byte>)
    ensures Flat([c, d, e]) == c + (d + e)
  {
    assert [c, d, e][1..] == [d, e];
    FlatTwo(d, e);
  }

  /** Chunk i is what comes next, and then the rest. */
  lemma FlatNext(cs: seq<seq<byte>>, i: nat, t: seq<byte>)
    requires i < |cs|
    ensures Flat(cs[i..]) + t == cs[i] + (Flat(cs[i + 1..]) + t)
  {}

  lemma FlatStep(cs: seq<seq<byte>>, k: nat)
    requires k < |cs|
    ensures Flat(cs[..k + 1]) == Flat(cs[..k]) + cs[k]
  {
    assert cs[..k + 1] == cs[..k] + [cs[k]];
    FlatConcat(cs[..k], [cs[k]]);
    FlatOne(cs[k]);
  }

  lemma {:induction false} WordsLength(w: Endian, ns: seq<nat>, size: nat)
    requires size == 4 || size == 8
    ensures |Flat(Words(w, ns, size))| == if size == 4 then 4 * |ns| else 8 * |ns|
  {
    if ns != [] {
      assert Words(w, ns, size)[1..] == Words(w, ns[1..], size);
      WordsLength(w, ns[1..], size);
    }
  }

  lemma FlatLast(cs: seq<seq<byte>>)
    requires cs != []
    ensures |Flat(cs)| == |Flat(cs[..|cs| - 1])| + |cs[|cs| - 1]|
  {
    FlatStep(cs, |cs| - 1);
    assert cs[..|cs|] == cs;
  }

  /** Three chunks written one by one. */
  lemma OneByOne(before: seq<byte>, x: seq<byte>, y: seq<byte>, z: seq<byte>)
    ensures ((before + x) + y) + z == before + Flat([x, y, z])
  {
    FlatThree(x, y, z);
    Assoc(before, x, y);
    Assoc(before, x + y, z);
    Assoc(x, y, z);
  }

  // ---- Sums of lengths.

  lemma Sum3(cs: seq<seq<byte>>)
    requires |cs| == 3
    ensures |Flat(cs)| == |cs[0]| + |cs[1]| + |cs[2]|
  {
    assert cs == [cs[0], cs[1], cs[2]];
    FlatThree(cs[0], cs[1], cs[2]);
  }

  lemma Sum4(cs: seq<seq<byte>>)
    requires |cs| >= 4
    ensures |Flat(cs[..4])| == |cs[0]| + |cs[1]| + |cs[2]| + |cs[3]|
  {
    FlatStep(cs, 0);
    FlatStep(cs, 1);
    FlatStep(cs, 2);
    FlatStep(cs, 3);
  }

  lemma Sum5(cs: seq<seq<byte>>)
    requires |cs| == 5
    ensures |Flat(cs)| == |cs[0]| + |cs[1]| + |cs[2]| + |cs[3]| + |cs[4]|
  {
    Sum4(cs);
    FlatStep(cs, 4);
    assert cs[..5] == cs;
  }

  lemma Sum6(cs: seq<seq<byte>>)
    requires |cs| == 6
    ensures |Flat(cs)| == |cs[0]| + |cs[1]| + |cs[2]| + |cs[3]| + |cs[4]| + |cs[5]|
  {
    Sum4(cs);
    FlatStep(cs, 4);
    FlatStep(cs, 5);
    assert cs[..6] == cs;
  }
}
