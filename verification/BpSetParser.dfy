/** A set of characteristics becomes a record again. */
module BpSetParser {
  import opened Outcomes
  import opened IndexRecords
  import opened Bytes
  import opened Types
  import opened Chunks
  import opened ReadBuffers
  import opened BpIndex
  import opened BpItemParser

  /** Reading these characteristics into c gives `goal`, and the bitmap is there before the statistics. */
  ghost predicate Builds(w: Endian, host: Endian, ty: Datatype, c: Characteristic, items: seq<Item>,
                         goal: Characteristic)
    decreases items
  {
    if items == [] then c == goal
    else
      && (items[0].Stats? ==> c.bitmap == items[0].bitmap)
      && Builds(w, host, ty, With(c, ItemRead(w, host, ty, items[0])), items[1..], goal)
  }

  lemma BuildsFirst(w: Endian, host: Endian, ty: Datatype, c: Characteristic, item: Item, rest: seq<Item>,
                    goal: Characteristic)
    requires item.Stats? ==> c.bitmap == item.bitmap
    requires Builds(w, host, ty, With(c, ItemRead(w, host, ty, item)), rest, goal)
    ensures Builds(w, host, ty, c, [item] + rest, goal)
  {}

  lemma BuildsNext(w: Endian, host: Endian, ty: Datatype, c: Characteristic, items: seq<Item>, k: nat,
                   goal: Characteristic)
    requires k < |items| && Builds(w, host, ty, c, items[k..], goal)
    ensures items[k].Stats? ==> c.bitmap == items[k].bitmap
    ensures Builds(w, host, ty, With(c, ItemRead(w, host, ty, items[k])), items[k + 1..], goal)
  {}

  lemma BuildsCommon(w: Endian, host: Endian, ty: Datatype, c: Characteristic, rest: seq<Item>, goal: Characteristic)
    requires Builds(w, host, ty, Base(c), rest, goal)
    ensures Builds(w, host, ty, EMPTY, CommonItems(c) + rest, goal)
  {
    var c1 := With(EMPTY, Offset(c.offset));
    var c2 := With(c1, PayloadOffset(c.payloadOffset));
    var c3 := With(c2, FileIndex(c.fileIndex));
    var r3 := [TimeIndex(c.timeIndex)] + rest;
    var r2 := [FileIndex(c.fileIndex)] + r3;
    var r1 := [PayloadOffset(c.payloadOffset)] + r2;
    BuildsFirst(w, host, ty, c3, TimeIndex(c.timeIndex), rest, goal);
    BuildsFirst(w, host, ty, c2, FileIndex(c.fileIndex), r3, goal);
    BuildsFirst(w, host, ty, c1, PayloadOffset(c.payloadOffset), r2, goal);
    BuildsFirst(w, host, ty, EMPTY, Offset(c.offset), r1, goal);
    FourAndRest(Offset(c.offset), PayloadOffset(c.payloadOffset), FileIndex(c.fileIndex), TimeIndex(c.timeIndex), rest);
  }

  lemma FourAndRest(a: Item, b: Item, c: Item, d: Item, rest: seq<Item>)
    ensures [a, b, c, d] + rest == [a] + ([b] + ([c] + ([d] + rest)))
  {}

  /** A record with what comes with an array. */
  function ArrayBase(b: Characteristic, c: Characteristic): Characteristic {
    b.(dims := c.dims, bitmap := c.bitmap, stats := StatsRead(c.stats))
  }

  lemma BuildsArray(w: Endian, host: Endian, ty: Datatype, b: Characteristic, c: Characteristic, rest: seq<Item>,
                    goal: Characteristic)
    requires ty != TString && c.dims != [] && Builds(w, host, ty, ArrayBase(b, c), rest, goal)
    ensures Builds(w, host, ty, b, ArrayItems(ty, c) + rest, goal)
  {}

  /** At most one more characteristic. */
  lemma BuildsLast(w: Endian, host: Endian, ty: Datatype, c: Characteristic, items: seq<Item>, goal: Characteristic)
    requires |items| <= 1 && (items == [] ==> c == goal)
    requires items != [] ==> !items[0].Stats? && With(c, ItemRead(w, host, ty, items[0])) == goal
    ensures Builds(w, host, ty, c, items, goal)
  {}

  /** The characteristics that every set has, in a record. */
  function Base(c: Characteristic): Characteristic {
    Characteristic(c.offset, c.payloadOffset, c.fileIndex, c.timeIndex, [], 0, [], None, 0)
  }

  lemma BuildsArrayVar(w: Endian, host: Endian, ty: Datatype, c: Characteristic)
    requires ty != TString && c.dims != []
    ensures Builds(w, host, ty, Base(c), ArrayItems(ty, c) + ValueItems(OfVar, ty, c), SetRead(w, host, OfVar, ty, c))
  {
    var goal, values := SetRead(w, host, OfVar, ty, c), ValueItems(OfVar, ty, c);
    BuildsLast(w, host, ty, ArrayBase(Base(c), c), values, goal);
    BuildsArray(w, host, ty, Base(c), c, values, goal);
  }

  lemma BuildsScalarVar(w: Endian, host: Endian, ty: Datatype, c: Characteristic)
    requires ty == TString || c.dims == []
    ensures Builds(w, host, ty, Base(c), ArrayItems(ty, c) + ValueItems(OfVar, ty, c), SetRead(w, host, OfVar, ty, c))
  {}

  lemma BuildsVar(w: Endian, host: Endian, ty: Datatype, c: Characteristic)
    ensures Builds(w, host, ty, EMPTY, Items(OfVar, ty, c), SetRead(w, host, OfVar, ty, c))
  {
    if ty != TString && c.dims != [] { BuildsArrayVar(w, host, ty, c); } else { BuildsScalarVar(w, host, ty, c); }
    BuildsCommon(w, host, ty, c, ArrayItems(ty, c) + ValueItems(OfVar, ty, c), SetRead(w, host, OfVar, ty, c));
  }

  lemma BuildsAttr(w: Endian, host: Endian, ty: Datatype, c: Characteristic)
    ensures Builds(w, host, ty, EMPTY, Items(OfAttr, ty, c), SetRead(w, host, OfAttr, ty, c))
  {
    var goal, values, ids := SetRead(w, host, OfAttr, ty, c), ValueItems(OfAttr, ty, c), VarIdItems(c);
    BuildsLast(w, host, ty, Base(c).(value := goal.value), ids, goal);
    if c.value.Some? {
      BuildsFirst(w, host, ty, Base(c), ItemValue(c.value.value), ids, goal);
    } else {
      assert values + ids == ids;
    }
    BuildsCommon(w, host, ty, c, values + ids, goal);
  }

  /** Each record is rebuilt from its characteristics. */
  lemma BuildsSet(w: Endian, host: Endian, kind: Kind, ty: Datatype, c: Characteristic)
    ensures Builds(w, host, ty, EMPTY, Items(kind, ty, c), SetRead(w, host, kind, ty, c))
  {
    if kind == OfVar { BuildsVar(w, host, ty, c); } else { BuildsAttr(w, host, ty, c); }
  }

  lemma ShortItems(kind: Kind, ty: Datatype, c: Characteristic)
    requires ShortSet(c)
    ensures forall i | 0 <= i < |Items(kind, ty, c)| :: ShortItem(Items(kind, ty, c)[i])
  {}

  method ParseItems(b: ReadBuffer, ty: Datatype, count: nat, ghost items: seq<Item>, ghost goal: Characteristic,
                    ghost w: Endian, ghost cs: seq<seq<byte>>, ghost t: seq<byte>) returns (c: Characteristic)
    requires ItemsFit(ty, items) && count == |items| && cs == ItemChunks(w, ty, items) && b.At(w, cs, 0, t)
    requires forall i | 0 <= i < |items| :: ShortItem(items[i])
    requires Builds(w, b.host, ty, EMPTY, items, goal)
    modifies b`offset
    ensures b.At(w, cs, |cs|, t) && c == goal
  {
    c := EMPTY;
    assert items[0..] == items;
    for item := 0 to count
      invariant b.At(w, cs, item, t) && Builds(w, b.host, ty, c, items[item..], goal)
    {
      BuildsNext(w, b.host, ty, c, items, item, goal);
      c := ParseItem(b, ty, c, items[item], w, cs, item, t);
    }
  }

  /** Set i. */
  method ParseSet(b: ReadBuffer, kind: Kind, ty: Datatype, ghost c: Characteristic,
                  ghost w: Endian, ghost cs: seq<seq<byte>>, ghost i: nat, ghost t: seq<byte>)
    returns (r: Characteristic)
    requires SetFits(kind, ty, c) && ShortSet(c) && b.At(w, cs, i, t) && i < |cs|
    requires cs[i] == Flat(SetFields(w, kind, ty, c))
    modifies b`offset
    ensures b.At(w, cs, i + 1, t) && r == SetRead(w, b.host, kind, ty, c)
  {
    ghost var items := Items(kind, ty, c);
    ghost var fields, rest, inner := SetFields(w, kind, ty, c), Flat(cs[i + 1..]) + t, ItemChunks(w, ty, items);
    b.Enter(w, cs, i, t, fields);
    Pow256Values();
    var count := b.ReadWord(1, |items|, w, fields, 0, rest);
    var _ := b.Take(4, w, fields, 1, rest);
    b.Enter(w, fields, 2, rest, inner);
    BuildsSet(w, b.host, kind, ty, c);
    ShortItems(kind, ty, c);
    r := ParseItems(b, ty, count, items, SetRead(w, b.host, kind, ty, c), w, inner, Flat(fields[3..]) + rest);
    b.Leave(w, fields, 2, rest, inner);
    b.Leave(w, cs, i, t, fields);
  }
}
