/** ADIOS element types and their sizes: src/core/adios_bp_v1.c:2225-2359, src/public/adios_types.h:16-35. */
module Types {

  datatype Datatype =
    | TByte | TShort | TInteger | TLong
    | TUnsignedByte | TUnsignedShort | TUnsignedInteger | TUnsignedLong
    | TReal | TDouble | TLongDouble
    | TString | TComplex | TDoubleComplex

  /** Values of type int are below this. */
  const INT_LIMIT: int := 0x8000_0000

  predicate Integral(t: Datatype) {
    || t == TByte || t == TShort || t == TInteger || t == TLong
    || t == TUnsignedByte || t == TUnsignedShort || t == TUnsignedInteger || t == TUnsignedLong
  }

  predicate IsComplex(t: Datatype) { t == TComplex || t == TDoubleComplex }

  /** Size of one element; a string has no fixed size. */
  function TypeSize(t: Datatype): (n: nat)
    ensures n > 0 <==> t != TString
    ensures n in {0, 1, 2, 4, 8, 16}
  {
    match t
    case TByte | TUnsignedByte => 1
    case TString => 0
    case TShort | TUnsignedShort => 2
    case TInteger | TUnsignedInteger | TReal => 4
    case TLong | TUnsignedLong | TDouble | TComplex => 8
    case TLongDouble | TDoubleComplex => 16
  }

  /** The sizes, type by type. */
  lemma Widths()
    ensures TypeSize(TByte) == TypeSize(TUnsignedByte) == 1
    ensures TypeSize(TShort) == TypeSize(TUnsignedShort) == 2
    ensures TypeSize(TInteger) == TypeSize(TUnsignedInteger) == TypeSize(TReal) == 4
    ensures TypeSize(TLong) == TypeSize(TUnsignedLong) == TypeSize(TDouble) == TypeSize(TComplex) == 8
    ensures TypeSize(TLongDouble) == TypeSize(TDoubleComplex) == 16
    ensures TypeSize(TString) == 0
  {}

  /** The value of enum ADIOS_DATATYPES that stands for the type in a file. */
  function TypeCode(t: Datatype): (code: nat)
    ensures code < 256
  {
    match t
    case TByte => 0
    case TShort => 1
    case TInteger => 2
    case TLong => 4
    case TReal => 5
    case TDouble => 6
    case TLongDouble => 7
    case TString => 9
    case TComplex => 10
    case TDoubleComplex => 11
    case TUnsignedByte => 50
    case TUnsignedShort => 51
    case TUnsignedInteger => 52
    case TUnsignedLong => 54
  }

  /** The type a code stands for. */
  function TypeOfCode(code: nat): Datatype {
    match code
    case 0 => TByte
    case 1 => TShort
    case 2 => TInteger
    case 4 => TLong
    case 5 => TReal
    case 6 => TDouble
    case 7 => TLongDouble
    case 9 => TString
    case 10 => TComplex
    case 11 => TDoubleComplex
    case 50 => TUnsignedByte
    case 51 => TUnsignedShort
    case 52 => TUnsignedInteger
    case _ => TUnsignedLong
  }

  lemma TypeCodeIsUnique(t: Datatype)
    ensures TypeOfCode(TypeCode(t)) == t
  {}

  /** The codes, type by type. */
  lemma Codes()
    ensures TypeCode(TByte) == 0 && TypeCode(TShort) == 1 && TypeCode(TInteger) == 2 && TypeCode(TLong) == 4
    ensures TypeCode(TUnsignedByte) == 50 && TypeCode(TUnsignedShort) == 51
    ensures TypeCode(TUnsignedInteger) == 52 && TypeCode(TUnsignedLong) == 54
    ensures TypeCode(TReal) == 5 && TypeCode(TDouble) == 6 && TypeCode(TLongDouble) == 7
    ensures TypeCode(TString) == 9 && TypeCode(TComplex) == 10 && TypeCode(TDoubleComplex) == 11
  {}

  // Statistics, in the order of their bits in a bitmap.
  const STAT_MIN := 0
  const STAT_MAX := 1
  const STAT_CNT := 2
  const STAT_SUM := 3
  const STAT_SUM_SQUARE := 4
  const STAT_HIST := 5
  const STAT_FINITE := 6

  /** Size of a statistic other than a histogram: adios_get_stat_size. */
  function StatSize(t: Datatype, id: nat): (n: nat)
    ensures n <= 16
  {
    if id == STAT_FINITE then 1
    else if id == STAT_CNT then 4
    else if id > STAT_FINITE || id == STAT_HIST then 0
    else if t == TComplex then 8
    else if t == TDoubleComplex then 16
    else if id == STAT_SUM || id == STAT_SUM_SQUARE then 8
    else TypeSize(t)
  }

  /** The numbers of the statistics, and their sizes for a double, a complex and a double complex variable. */
  lemma StatWidths()
    ensures StatSize(TDouble, 0) == StatSize(TDouble, 1) == StatSize(TDouble, 3) == StatSize(TDouble, 4) == 8
    ensures StatSize(TComplex, 0) == StatSize(TComplex, 1) == StatSize(TComplex, 3) == StatSize(TComplex, 4) == 8
    ensures forall i | i in {0, 1, 3, 4} :: StatSize(TDoubleComplex, i) == 16
    ensures forall t | t !in {TComplex, TDoubleComplex} :: StatSize(t, 0) == StatSize(t, 1) == TypeSize(t)
    ensures forall t | t !in {TComplex, TDoubleComplex} :: StatSize(t, 3) == StatSize(t, 4) == 8
    ensures forall t :: StatSize(t, 2) == 4 && StatSize(t, 6) == 1
    ensures STAT_HIST == 5
  {}

  /** Complex numbers have statistics for magnitude, real and imaginary part: adios_get_stat_set_count. */
  function StatSetCount(t: Datatype): nat {
    if IsComplex(t) then 3 else 1
  }

  /** The bits set in a bitmap, from bit j on, lowest first. */
  function Bits(bitmap: nat, j: nat): (ids: seq<nat>)
    decreases bitmap
  {
    if bitmap == 0 then [] else (if bitmap % 2 == 1 then [j] else []) + Bits(bitmap / 2, j + 1)
  }

  /** Bit j: (bitmap >> j) & 1. */
  predicate BitSet(bitmap: nat, j: nat) {
    if j == 0 then bitmap % 2 == 1 else BitSet(bitmap / 2, j - 1)
  }

  lemma {:induction false} BitsFrom(bitmap: nat, j: nat)
    ensures forall i | 0 <= i < |Bits(bitmap, j)| :: j <= Bits(bitmap, j)[i]
    decreases bitmap
  {
    if bitmap != 0 { BitsFrom(bitmap / 2, j + 1); }
  }

  /** The bits of a bitmap come in increasing order. */
  lemma {:induction false} BitsIncrease(bitmap: nat, j: nat)
    ensures forall a, b | 0 <= a < b < |Bits(bitmap, j)| :: Bits(bitmap, j)[a] < Bits(bitmap, j)[b]
    decreases bitmap
  {
    if bitmap != 0 {
      BitsIncrease(bitmap / 2, j + 1);
      BitsFrom(bitmap / 2, j + 1);
    }
  }

  lemma {:induction false} NoBit(i: nat)
    ensures !BitSet(0, i)
  {
    if i > 0 { NoBit(i - 1); }
  }

  lemma InRest(bitmap: nat, j: nat, x: nat)
    requires bitmap != 0 && x != j
    ensures x in Bits(bitmap, j) <==> x in Bits(bitmap / 2, j + 1)
  {}

  /** They are the bits that are set. */
  lemma {:induction false} BitsAreSet(bitmap: nat, j: nat, i: nat)
    ensures j + i in Bits(bitmap, j) <==> BitSet(bitmap, i)
    decreases bitmap
  {
    if bitmap == 0 {
      NoBit(i);
    } else if i == 0 {
      BitsFrom(bitmap / 2, j + 1);
    } else {
      InRest(bitmap, j, j + i);
      BitsAreSet(bitmap / 2, j + 1, i - 1);
    }
  }

  /** What is left of the bitmap names the statistics from idx on. */
  ghost predicate BitsLeft(ids: seq<nat>, idx: nat, rest: nat, k: nat) {
    idx <= |ids| && ids[idx..] == Bits(rest, k)
  }

  lemma NextBit(ids: seq<nat>, idx: nat, rest: nat, k: nat)
    requires BitsLeft(ids, idx, rest, k) && rest != 0
    ensures rest % 2 == 1 ==> idx < |ids| && ids[idx] == k && BitsLeft(ids, idx + 1, rest / 2, k + 1)
    ensures rest % 2 != 1 ==> BitsLeft(ids, idx, rest / 2, k + 1)
  {}

  lemma AllBits(ids: seq<nat>, idx: nat, k: nat)
    requires BitsLeft(ids, idx, 0, k)
    ensures idx == |ids|
  {}
}
