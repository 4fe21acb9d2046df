/** Bytes of machine words, in either byte order. */
module Bytes {

  type byte = b: int | 0 <= b < 256

  datatype Endian = Little | Big

  function Pow256(n: nat): (r: nat)
    ensures r > 0
  {
    if n == 0 then 1 else 256 * Pow256(n - 1)
  }

  function Rev(s: seq<byte>): (r: seq<byte>)
    ensures |r| == |s|
    ensures forall k | 0 <= k < |s| :: r[k] == s[|s| - 1 - k]
  {
    seq(|s|, k requires 0 <= k < |s| => s[|s| - 1 - k])
  }

  /** Byte i of n, counted from the least significant one. */
  function Digit(n: nat, i: nat): byte {
    if i == 0 then n % 256 else Digit(n / 256, i - 1)
  }

  /** The `size` low-order bytes of n, least significant first. */
  function LowBytes(n: nat, size: nat): (s: seq<byte>)
    ensures |s| == size
  {
    seq(size, i requires 0 <= i < size => Digit(n, i))
  }

  lemma LowBytesStep(n: nat, size: nat)
    requires size > 0
    ensures LowBytes(n, size) == [n % 256] + LowBytes(n / 256, size - 1)
  {}

  function Value(s: seq<byte>): nat {
    if s == [] then 0 else s[0] + 256 * Value(s[1..])
  }

  /** The bytes a machine of the given order keeps in memory for the word n. */
  function Store(order: Endian, n: nat, size: nat): (s: seq<byte>)
    ensures |s| == size
  {
    if order == Little then LowBytes(n, size) else Rev(LowBytes(n, size))
  }

  function Load(order: Endian, s: seq<byte>): nat {
    if order == Little then Value(s) else Value(Rev(s))
  }

  lemma {:induction false} ValueOfLowBytes(n: nat, size: nat)
    requires n < Pow256(size)
    ensures Value(LowBytes(n, size)) == n
  {
    if size > 0 {
      ValueOfLowBytes(n / 256, size - 1);
      LowBytesStep(n, size);
    }
  }

  lemma {:induction false} LowBytesOfValue(s: seq<byte>)
    ensures LowBytes(Value(s), |s|) == s
    ensures Value(s) < Pow256(|s|)
  {
    if s != [] {
      LowBytesOfValue(s[1..]);
      LowBytesStep(Value(s), |s|);
    }
  }

  lemma RevRev(s: seq<byte>)
    ensures Rev(Rev(s)) == s
  {}

  /** Loading what was stored gives the word back, on every machine. */
  lemma LoadStore(order: Endian, n: nat, size: nat)
    requires n < Pow256(size)
    ensures Load(order, Store(order, n, size)) == n
  {
    ValueOfLowBytes(n, size);
    RevRev(LowBytes(n, size));
  }

  lemma StoreLoad(order: Endian, s: seq<byte>)
    ensures Store(order, Load(order, s), |s|) == s
    ensures Load(order, s) < Pow256(|s|)
  {
    LowBytesOfValue(s);
    LowBytesOfValue(Rev(s));
    RevRev(s);
  }

  lemma Pow256Values()
    ensures Pow256(0) == 1 && Pow256(1) == 0x100 && Pow256(2) == 0x1_0000 && Pow256(3) == 0x100_0000
    ensures Pow256(4) == 0x1_0000_0000 && Pow256(5) == 0x100_0000_0000 && Pow256(6) == 0x1_0000_0000_0000
    ensures Pow256(7) == 0x100_0000_0000_0000 && Pow256(8) == 0x1_0000_0000_0000_0000
  {}
}
