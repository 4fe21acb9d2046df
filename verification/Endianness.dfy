/** In-place byte swapping: src/core/adios_endianness.c, and change_endianness of src/core/util.c. */
module Endianness {
  import opened Bytes
  import opened Types

  /** One byte field of a word, masked out and shifted down to the low end: (d & (0xFF << 8k)) >> 8k. */
  function Field(d: nat, k: nat): (f: byte) { (d / Pow256(k)) % 256 }

  // The mask-and-shift expressions of swap_16_ptr, swap_32_ptr and swap_64_ptr on unsigned words.

  function Swapped16(d: nat): nat { d / 256 + (d * 256) % 0x1_0000 }

  function Swapped32(d: nat): nat {
    Field(d, 0) * 0x100_0000 + Field(d, 1) * 0x1_0000 + Field(d, 2) * 0x100 + Field(d, 3)
  }

  function Swapped64(d: nat): nat {
    Field(d, 0) * 0x100_0000_0000_0000 + Field(d, 1) * 0x1_0000_0000_0000
    + Field(d, 2) * 0x100_0000_0000 + Field(d, 3) * 0x1_0000_0000
    + Field(d, 4) * 0x100_0000 + Field(d, 5) * 0x1_0000 + Field(d, 6) * 0x100 + Field(d, 7)
  }

  lemma DivDiv(x: nat, p: nat)
    requires p > 0
    ensures x / (256 * p) == (x / 256) / p
  {
    var y := x / 256;
    var q, r := y / p, y % p;
    assert x == 256 * y + x % 256;
    assert y == p * q + r;
    assert 256 * y == (256 * p) * q + 256 * r;
    var rest := 256 * r + x % 256;
    assert x == (256 * p) * q + rest && rest < 256 * p;
    Quotient(x, 256 * p, q, rest);
  }

  lemma MulMono(d: nat, a: nat, b: nat)
    ensures a <= b ==> d * a <= d * b
  {}

  lemma Quotient(x: nat, d: nat, q: nat, r: nat)
    requires d > 0 && r < d && x == d * q + r
    ensures x / d == q
  {
    var q' := x / d;
    assert x == d * q' + x % d;
    if q' < q { MulMono(d, q' + 1, q); }
    if q < q' { MulMono(d, q + 1, q'); }
  }

  lemma {:induction false} FieldIsByte(s: seq<byte>, k: nat)
    requires k < |s|
    ensures Field(Value(s), k) == s[k]
  {
    if k > 0 {
      FieldIsByte(s[1..], k - 1);
      DivDiv(Value(s), Pow256(k - 1));
    }
  }

  lemma Value2(s: seq<byte>)
    requires |s| == 2
    ensures Value(s) == s[0] + 0x100 * (s[1] as int)
  {
    assert s[1..][1..] == [];
    assert Value(s[1..]) == s[1];
  }

  lemma Value4(s: seq<byte>)
    requires |s| == 4
    ensures Value(s) == s[0] + 0x100 * (s[1] as int) + 0x1_0000 * (s[2] as int) + 0x100_0000 * (s[3] as int)
  {
    assert Value(s[1..][1..]) == s[2] + 256 * Value(s[1..][1..][1..]);
    assert s[1..][1..][1..] == [s[3]];
  }

  lemma Value8(s: seq<byte>)
    requires |s| == 8
    ensures Value(s) == s[0] + 0x100 * (s[1] as int) + 0x1_0000 * (s[2] as int) + 0x100_0000 * (s[3] as int)
                      + 0x1_0000_0000 * (s[4] as int) + 0x100_0000_0000 * (s[5] as int)
                      + 0x1_0000_0000_0000 * (s[6] as int) + 0x100_0000_0000_0000 * (s[7] as int)
  {
    var t := s[4..];
    assert Value(s[3..]) == s[3] + 256 * Value(t) by { assert s[3..][1..] == t; }
    assert Value(s[2..]) == s[2] + 256 * Value(s[3..]) by { assert s[2..][1..] == s[3..]; }
    assert Value(s[1..]) == s[1] + 256 * Value(s[2..]) by { assert s[1..][1..] == s[2..]; }
    Value4(t);
  }

  lemma Swapped16Of(a: byte, b: byte)
    ensures Swapped16(a + 0x100 * (b as int)) == b + 0x100 * (a as int)
  {
    var d := a + 0x100 * (b as int);
    assert d / 256 == b;
    assert d * 256 == 0x100 * (a as int) + 0x1_0000 * (b as int);
  }

  /** swap_16 is byte reversal of the word. */
  lemma Swap16Reverses(order: Endian, s: seq<byte>)
    requires |s| == 2
    ensures Swapped16(Load(order, s)) == Load(order, Rev(s))
  {
    RevRev(s);
    var t := if order == Little then s else Rev(s);
    Value2(t);
    Value2(Rev(t));
    Swapped16Of(t[0], t[1]);
  }

  /** swap_32 is byte reversal of the word. */
  lemma Swap32Reverses(order: Endian, s: seq<byte>)
    requires |s| == 4
    ensures Swapped32(Load(order, s)) == Load(order, Rev(s))
  {
    var t := if order == Little then s else Rev(s);
    RevRev(s);
    assert Rev(t) == if order == Little then Rev(s) else s;
    forall k: nat | k < 4 ensures Field(Value(t), k) == t[k] { FieldIsByte(t, k); }
    Value4(Rev(t));
  }

  /** swap_64 is byte reversal of the word. */
  lemma Swap64Reverses(order: Endian, s: seq<byte>)
    requires |s| == 8
    ensures Swapped64(Load(order, s)) == Load(order, Rev(s))
  {
    var t := if order == Little then s else Rev(s);
    RevRev(s);
    assert Rev(t) == if order == Little then Rev(s) else s;
    forall k: nat | k < 8 ensures Field(Value(t), k) == t[k] { FieldIsByte(t, k); }
    Value8(Rev(t));
  }

  lemma Swap64Stored(order: Endian, s: seq<byte>)
    requires |s| == 8
    ensures Store(order, Swapped64(Load(order, s)), 8) == Rev(s)
  {
    Swap64Reverses(order, s);
    StoreLoad(order, Rev(s));
  }

  /** `now` is `before` with the n bytes from `at` on in reverse order. */
  ghost predicate IsMirror(now: seq<byte>, before: seq<byte>, at: nat, n: nat) {
    && |now| == |before| >= at + n
    && (forall i | at <= i < at + n :: now[i] == before[2 * at + n - 1 - i])
    && (forall i | 0 <= i < |now| && !(at <= i < at + n) :: now[i] == before[i])
  }

  method StoreAt(data: array<byte>, at: nat, bytes: seq<byte>)
    requires at + |bytes| <= data.Length
    modifies data
    ensures forall i | 0 <= i < data.Length :: data[i] == if at <= i < at + |bytes| then bytes[i - at] else old(data[i])
  {
    forall k | 0 <= k < |bytes| { data[at + k] := bytes[k]; }
  }

  method SwapPtr16(data: array<byte>, at: nat, host: Endian)
    requires at + 2 <= data.Length
    modifies data
    ensures IsMirror(data[..], old(data[..]), at, 2)
  {
    var word := data[at..at + 2];
    var d := Load(host, word);
    Swap16Reverses(host, word);
    StoreLoad(host, Rev(word));
    StoreAt(data, at, Store(host, Swapped16(d), 2));
  }

  method SwapPtr32(data: array<byte>, at: nat, host: Endian)
    requires at + 4 <= data.Length
    modifies data
    ensures IsMirror(data[..], old(data[..]), at, 4)
  {
    var word := data[at..at + 4];
    var d := Load(host, word);
    Swap32Reverses(host, word);
    StoreLoad(host, Rev(word));
    StoreAt(data, at, Store(host, Swapped32(d), 4));
  }

  /** The bytes of the swapped 64-bit word at `at`. */
  method Swapped64At(data: array<byte>, at: nat, host: Endian) returns (bytes: seq<byte>)
    requires at + 8 <= data.Length
    ensures |bytes| == 8 && forall k | 0 <= k < 8 :: bytes[k] == data[at + 7 - k]
  {
    var word := data[at..at + 8];
    bytes := Store(host, Swapped64(Load(host, word)), 8);
    Swap64Stored(host, word);
  }

  method SwapPtr64(data: array<byte>, at: nat, host: Endian)
    requires at + 8 <= data.Length
    modifies data
    ensures IsMirror(data[..], old(data[..]), at, 8)
  {
    var word := Swapped64At(data, at, host);
    StoreAt(data, at, word);
  }

  lemma HalvesMirror(now: seq<byte>, before: seq<byte>, at: nat, low: seq<byte>, high: seq<byte>)
    requires at + 16 <= |before| == |now| && |low| == |high| == 8
    requires forall k | 0 <= k < 8 :: low[k] == before[at + 7 - k] && high[k] == before[at + 15 - k]
    requires forall i | 0 <= i < |now| ::
      now[i] == if at <= i < at + 8 then high[i - at] else if at + 8 <= i < at + 16 then low[i - at - 8] else before[i]
    ensures IsMirror(now, before, at, 16)
  {}

  /** swap_128_ptr: each half is swapped in turn and the halves change places. */
  method SwapPtr128(data: array<byte>, at: nat, host: Endian)
    requires at + 16 <= data.Length
    modifies data
    ensures IsMirror(data[..], old(data[..]), at, 16)
  {
    var low := Swapped64At(data, at, host);
    StoreAt(data, at, low);
    var high := Swapped64At(data, at + 8, host);
    var first := data[at..at + 8];
    assert first == low;
    StoreAt(data, at + 8, first);
    StoreAt(data, at, high);
    HalvesMirror(data[..], old(data[..]), at, low, high);
  }

  /** change_endianness swaps words of this size: whole elements, or the two halves of a complex one. */
  function SwapUnit(t: Datatype): (u: nat)
    requires t != TString
    ensures u in {1, 2, 4, 8, 16}
    ensures TypeSize(t) == if IsComplex(t) then u + u else u
  {
    match t
    case TComplex => 4
    case TDoubleComplex => 8
    case _ => TypeSize(t)
  }

  /** n bytes are a whole number of u-byte words. */
  ghost predicate Whole(n: nat, u: nat)
    requires u > 0
    decreases n
  {
    n == 0 || (n >= u && Whole(n - u, u))
  }

  /** Where the byte at offset q comes from, when every u-byte word is reversed. */
  ghost function Flip(q: nat, u: nat): nat
    requires u > 0
    decreases q
  {
    if q < u then u - 1 - q else u + Flip(q - u, u)
  }

  lemma {:induction false} FlipInWord(q: nat, u: nat, base: nat)
    requires u > 0 && Whole(base, u) && base <= q < base + u
    ensures Flip(q, u) == 2 * base + u - 1 - q
  {
    if base > 0 { FlipInWord(q - u, u, base - u); }
  }

  /** Flipping never leaves a stretch of whole words. */
  lemma {:induction false} FlipStays(q: nat, u: nat, n: nat)
    requires u > 0 && Whole(n, u) && q < n
    ensures Flip(q, u) < n
  {
    if q >= u { FlipStays(q - u, u, n - u); }
  }

  lemma {:induction false} FlipShift(q: nat, u: nat, n: nat)
    requires u > 0 && Whole(n, u)
    ensures Flip(n + q, u) == n + Flip(q, u)
  {
    if n > 0 { FlipShift(q, u, n - u); }
  }

  /** Reversing every one-byte word changes nothing. */
  lemma {:induction false} FlipOne(q: nat)
    ensures Flip(q, 1) == q
  {
    if q > 0 { FlipOne(q - 1); }
  }

  lemma {:induction false} WholeTimes(u: nat, i: nat)
    requires u > 0
    ensures Whole(u * i, u)
  {
    if i > 0 {
      WholeTimes(u, i - 1);
      assert u * i == u * (i - 1) + u;
    }
  }

  /** `now` is `before` with every u-byte word of the n bytes from `at` on reversed. */
  ghost predicate IsFlipped(now: seq<byte>, before: seq<byte>, at: nat, n: nat, u: nat)
    requires u > 0
  {
    && |now| == |before|
    && (forall a | at <= a < at + n && a < |now| && at + Flip(a - at, u) < |now| ::
          now[a] == before[at + Flip(a - at, u)])
    && (forall i | 0 <= i < |now| && !(at <= i < at + n) :: now[i] == before[i])
  }

  lemma FlipNextByte(now: seq<byte>, mid: seq<byte>, before: seq<byte>, at: nat, n: nat, u: nat, a: nat)
    requires u > 0 && Whole(n, u) && IsFlipped(mid, before, at, n, u) && IsMirror(now, mid, at + n, u)
    requires at <= a < at + n + u
    ensures at + Flip(a - at, u) < |before| && now[a] == before[at + Flip(a - at, u)]
  {
    if at + n <= a {
      FlipInWord(a - at, u, n);
      assert now[a] == mid[2 * (at + n) + u - 1 - a];
    } else {
      FlipStays(a - at, u, n);
      assert now[a] == mid[a];
    }
  }

  lemma FlipNextWord(now: seq<byte>, mid: seq<byte>, before: seq<byte>, at: nat, n: nat, u: nat)
    requires u > 0 && Whole(n, u) && IsFlipped(mid, before, at, n, u) && IsMirror(now, mid, at + n, u)
    ensures IsFlipped(now, before, at, n + u, u)
  {
    forall a | at <= a < at + n + u
      ensures at + Flip(a - at, u) < |now| && now[a] == before[at + Flip(a - at, u)]
    {
      FlipNextByte(now, mid, before, at, n, u, a);
    }
  }

  /** Swaps the next word of u bytes, n bytes into a block; one-byte words have nothing to swap. */
  method SwapWord(data: array<byte>, at: nat, n: nat, u: nat, host: Endian, ghost before: seq<byte>)
    requires u in {1, 2, 4, 8, 16} && at + n + u <= data.Length && Whole(n, u)
    requires IsFlipped(data[..], before, at, n, u)
    modifies data
    ensures Whole(n + u, u) && IsFlipped(data[..], before, at, n + u, u)
  {
    ghost var mid := data[..];
    match u {
      case 2 => SwapPtr16(data, at + n, host);
      case 4 => SwapPtr32(data, at + n, host);
      case 8 => SwapPtr64(data, at + n, host);
      case 16 => SwapPtr128(data, at + n, host);
      case _ =>
    }
    FlipNextWord(data[..], mid, before, at, n, u);
  }

  /** Swaps one element, n bytes into a block: a single word, or both halves of a complex number. */
  method SwapElement(data: array<byte>, at: nat, n: nat, t: Datatype, host: Endian, ghost before: seq<byte>)
    requires t != TString && at + n + TypeSize(t) <= data.Length && Whole(n, SwapUnit(t))
    requires IsFlipped(data[..], before, at, n, SwapUnit(t))
    modifies data
    ensures Whole(n + TypeSize(t), SwapUnit(t))
    ensures IsFlipped(data[..], before, at, n + TypeSize(t), SwapUnit(t))
  {
    SwapWord(data, at, n, SwapUnit(t), host, before);
    if IsComplex(t) {
      SwapWord(data, at, n + SwapUnit(t), SwapUnit(t), host, before);
    }
  }

  lemma WholeElements(len: nat, size: nat, i: nat)
    requires size > 0 && i < len / size
    ensures size * i + size == size * (i + 1) <= len
  {
    MulMono(size, i + 1, len / size);
  }

  /** change_endianness: the words of all whole elements are reversed, a partial last element is left alone. */
  method ChangeEndianness(data: array<byte>, at: nat, len: nat, t: Datatype, host: Endian)
    requires t != TString && (len == 0 || at + len <= data.Length)
    modifies data
    ensures IsFlipped(data[..], old(data[..]), at, TypeSize(t) * (len / TypeSize(t)), SwapUnit(t))
  {
    var done := 0;
    for i := 0 to len / TypeSize(t)
      invariant done == TypeSize(t) * i <= len && Whole(done, SwapUnit(t))
      invariant IsFlipped(data[..], old(data[..]), at, done, SwapUnit(t))
    {
      WholeElements(len, TypeSize(t), i);
      SwapElement(data, at, done, t, host, old(data[..]));
      done := done + TypeSize(t);
    }
  }
}
