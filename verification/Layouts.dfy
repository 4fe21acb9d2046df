/** Small records byte by byte, as a little-endian machine writes them. */
module Layouts {
  import opened Outcomes
  import opened Bytes
  import opened Types
  import opened Chunks
  import opened IndexRecords
  import opened BpIndex
  import opened BpVar
  import opened BpGroup

  // ---- Words below 256.

  lemma {:induction false} NoHigherDigit(i: nat)
    ensures Digit(0, i) == 0
  {
    if i > 0 { NoHigherDigit(i - 1); }
  }

  lemma LowDigits(n: byte, i: nat)
    ensures Digit(n, i) == if i == 0 then n else 0
  {
    if i > 0 { NoHigherDigit(i - 1); }
  }

  lemma Word1(n: byte)
    ensures Store(Little, n, 1) == [n]
  {
    LowDigits(n, 0);
  }

  lemma Word2(n: byte)
    ensures Store(Little, n, 2) == [n, 0]
  {
    LowDigits(n, 0);
    LowDigits(n, 1);
  }

  lemma Word4(n: byte)
    ensures Store(Little, n, 4) == [n, 0, 0, 0]
  {
    LowDigits(n, 0);
    LowDigits(n, 1);
    LowDigits(n, 2);
    LowDigits(n, 3);
  }

  lemma Word8(n: byte)
    ensures Store(Little, n, 8) == [n, 0, 0, 0, 0, 0, 0, 0]
  {
    var s := Store(Little, n, 8);
    forall i | 0 <= i < 8 ensures s[i] == [n, 0, 0, 0, 0, 0, 0, 0][i] { LowDigits(n, i); }
  }

  /** A name of one character. */
  lemma Name1(c: byte)
    ensures Str(Little, [c]) == [1, 0, c]
  {
    Word2(1);
    assert Cut([c]) == [c];
  }

  const G: byte := 'g' as int
  const P: byte := 'p' as int
  const T: byte := 't' as int
  const V: byte := 'v' as int
  const Y: byte := 'y' as int
  const N: byte := 'n' as int

  // ---- The index.

  /** Group g of process 1, with time index t at 2 and offset 3. */
  lemma GroupInIndex()
    ensures PgFields(Little, Pg([G], true, 1, Some([T]), 2, 3)) ==
      [[1, 0, G], [Y], [1, 0, 0, 0], [1, 0, T], [2, 0, 0, 0], [3, 0, 0, 0, 0, 0, 0, 0]]
  {
    Name1(G);
    Name1(T);
    Word4(1);
    Word4(2);
    Word8(3);
  }

  /** Variable v under path p of group g, with id 5 and one record. */
  lemma VariableInIndex(c: Characteristic)
    requires SetFits(OfVar, TInteger, c)
    ensures var e := Entry(5, [G], [V], [P], TInteger, [c]);
      && EntryFits(OfVar, e)
      && EntryFields(Little, OfVar, e)[..6] ==
           [[5, 0, 0, 0], [1, 0, G], [1, 0, V], [1, 0, P], [2], [1, 0, 0, 0, 0, 0, 0, 0]]
      && EntryFields(Little, OfVar, e)[6] == Flat([Flat(SetFields(Little, OfVar, TInteger, c))])
  {
    Name1(G);
    Name1(V);
    Name1(P);
    Word4(5);
    Word1(2);
    Word8(1);
    assert SetChunks(Little, OfVar, TInteger, [c]) == [Flat(SetFields(Little, OfVar, TInteger, c))];
  }

  /** What every record begins with: offset 6, data at 7, file 8, time 9. */
  lemma RecordInIndex(c: Characteristic)
    requires c.offset == 6 && c.payloadOffset == 7 && c.fileIndex == 8 && c.timeIndex == 9
    ensures ItemsFit(TInteger, CommonItems(c))
    ensures ItemChunks(Little, TInteger, CommonItems(c)) ==
      [[3, 6, 0, 0, 0, 0, 0, 0, 0], [6, 7, 0, 0, 0, 0, 0, 0, 0], [7, 8, 0, 0, 0], [8, 9, 0, 0, 0]]
  {
    Word8(6);
    Word8(7);
    Word4(8);
    Word4(9);
    FlatOne([6, 0, 0, 0, 0, 0, 0, 0]);
    FlatOne([7, 0, 0, 0, 0, 0, 0, 0]);
    FlatOne([8, 0, 0, 0]);
    FlatOne([9, 0, 0, 0]);
    assert [3] + [6, 0, 0, 0, 0, 0, 0, 0] == [3, 6, 0, 0, 0, 0, 0, 0, 0];
    assert [6] + [7, 0, 0, 0, 0, 0, 0, 0] == [6, 7, 0, 0, 0, 0, 0, 0, 0];
    assert [7] + [8, 0, 0, 0] == [7, 8, 0, 0, 0];
    assert [8] + [9, 0, 0, 0] == [8, 9, 0, 0, 0];
  }

  /** Dimensions 7, 10 and 0: how many, how many bytes, local, global, offset. */
  lemma DimensionsInIndex()
    ensures DimensionsFields(Little, [7, 10, 0]) ==
      [[1], [24, 0], Flat([[7, 0, 0, 0, 0, 0, 0, 0], [10, 0, 0, 0, 0, 0, 0, 0], [0, 0, 0, 0, 0, 0, 0, 0]])]
  {
    Word1(1);
    Word2(24);
    Word8(7);
    Word8(10);
    Word8(0);
    assert Words(Little, [7, 10, 0], 8) ==
      [[7, 0, 0, 0, 0, 0, 0, 0], [10, 0, 0, 0, 0, 0, 0, 0], [0, 0, 0, 0, 0, 0, 0, 0]];
  }

  // ---- A group.

  /** Group g at time 3, with time index t and without a coordination variable, of 9 bytes, they say. */
  lemma GroupNames(g: Group)
    requires g.name == [G] && !g.fortran && g.coordVar == None && g.timeIndexName == Some([T]) && g.timeIndex == 3
    ensures NameFields(Little, g, 9) ==
      [[9, 0, 0, 0, 0, 0, 0, 0], [N], [1, 0, G], [0, 0, 0, 0], [1, 0, T], [3, 0, 0, 0]]
  {
    Word8(9);
    Name1(G);
    Word4(0);
    Name1(T);
    Word4(3);
  }

  /** One method, number 2 with parameter p. */
  lemma GroupMethods()
    ensures MethodFields(Little, [Transport(2, [P])]) == [[1], [4, 0], [2, 1, 0, P]]
  {
    var ms := [Transport(2, [P])];
    Word1(1);
    assert ms[..0] == [] && MethodsLength([]) == 0 && MethodsLength(ms) == 4;
    Word2(4);
    Name1(P);
    assert MethodBytes(Little, ms[0]) == [2, 1, 0, P];
    assert MethodChunks(Little, ms) == [[2, 1, 0, P]];
    FlatOne([2, 1, 0, P]);
  }

  /** Variable v under path p, with id 5, an integer that no dimension refers to. */
  lemma VariableStart(v: Var)
    requires v.id == 5 && v.name == [V] && v.path == [P] && v.type_ == TInteger && !v.isDim
    ensures StartFields(Little, v) == [[5, 0, 0, 0], [1, 0, V], [1, 0, P], [2], [N]]
  {
    Word4(5);
    Name1(V);
    Name1(P);
    Word1(2);
  }

  /** A dimension: number 7, a reference to id 5, the time dimension. */
  lemma DimensionInList(a: Ref)
    requires a.id == 5
    ensures var d := Dim(DimItem(7, None, None, No), DimItem(0, Some(a), None, Unknown), DimItem(0, None, None, Yes));
      DimFields(Little, d) == [[N, 7, 0, 0, 0, 0, 0, 0, 0], [Y, 5, 0, 0, 0], [Y, 0, 0, 0, 0]]
  {
    Word8(7);
    Word4(5);
    Word4(0);
    assert [N] + [7, 0, 0, 0, 0, 0, 0, 0] == [N, 7, 0, 0, 0, 0, 0, 0, 0];
    assert [Y] + [5, 0, 0, 0] == [Y, 5, 0, 0, 0] && [Y] + [0, 0, 0, 0] == [Y, 0, 0, 0, 0];
  }

  /** Attribute v under path p, with id 5, that refers to variable 6. */
  lemma AttributeOfVariable(a: Attribute)
    requires a.id == 5 && a.name == [V] && a.path == [P] && a.varId == Some(6)
    ensures AttributeStart(Little, a) == [[5, 0, 0, 0], [1, 0, V], [1, 0, P], [Y]]
    ensures AttributeEnd(Little, a) == [[6, 0, 0, 0]]
  {
    Word4(5);
    Name1(V);
    Name1(P);
    Word4(6);
  }

  /** An attribute that holds the byte 8. */
  lemma AttributeWithValue(a: Attribute)
    requires a.varId == None && a.type_ == TUnsignedByte && a.value == [8]
    ensures AttributeEnd(Little, a) == [[50], [1, 0, 0, 0], [8]]
  {
    Word1(50);
    Word4(1);
    assert Kept([8]) == [8];
  }

  /** A section: how many, how many bytes with these two numbers, the entries. */
  lemma Section()
    ensures SectionFields(Little, [[1, 2], [3]]) == [[2, 0, 0, 0], [15, 0, 0, 0, 0, 0, 0, 0], [1, 2, 3]]
  {
    FlatTwo([1, 2], [3]);
    assert [1, 2] + [3] == [1, 2, 3];
    Word4(2);
    Word8(15);
  }
}
