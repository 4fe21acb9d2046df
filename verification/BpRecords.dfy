/**
 What the index of a group says of a variable, as it is built and as it is read: src/core/adios_internals.c:3249-3418.
 */
module BpRecords {
  import opened Outcomes
  import opened Bytes
  import opened Types
  import opened IndexRecords
  import opened BpIndex
  import opened BpVar
  import opened BpVarSize
  import opened BpVarHeader
  import opened BpPayload
  import opened BpDefine
  import opened BpGroup
  import opened BpBuild
  import opened BpFile
  import opened BpWhole
  import opened IndexMerge

  // ---- The entry of a variable.

  /** The first variable with the key. */
  ghost predicate IsFirst(vs: seq<Var>, j: nat, key: FullName) {
    j < |vs| && NameOf(vs[j]) == key && forall i | 0 <= i < j :: NameOf(vs[i]) != key
  }

  /** The entry says of a variable what does not change from record to record. */
  ghost predicate Heads(e: Entry, g: Group, v: Var) {
    e.id == v.id && e.groupName == g.name && e.name == v.name && e.path == v.path && e.type_ == v.type_
  }

  ghost predicate SameHead(e: Entry, f: Entry) {
    e.id == f.id && e.groupName == f.groupName && e.name == f.name && e.path == f.path && e.type_ == f.type_
  }

  /** The entry under a key keeps its place and its head; a new one has the head of its first item. */
  ghost predicate HeadKept(es: seq<Entry>, items: seq<Entry>, now: seq<Entry>, key: FullName) {
    var p, q := Position(es, key), Position(items, key);
    if p < |es| then Position(now, key) == p < |now| && SameHead(now[p], es[p])
    else q < |items| ==> Position(now, key) < |now| && SameHead(now[Position(now, key)], items[q])
  }

  lemma {:induction false} PositionOfConcat(es: seq<Entry>, e: Entry, key: FullName)
    ensures Position(es + [e], key) == if Position(es, key) < |es| then Position(es, key)
                                       else if e.Name() == key then |es| else |es| + 1
  {
    if es != [] && es[0].Name() != key {
      PositionOfConcat(es[1..], e, key);
      assert (es + [e])[1..] == es[1..] + [e];
    }
  }

  lemma {:induction false} PositionOfUpdate(es: seq<Entry>, k: nat, e: Entry, key: FullName)
    requires k < |es| && e.Name() == es[k].Name()
    ensures Position(es[k := e], key) == Position(es, key)
  {
    if k > 0 && es[0].Name() != key {
      PositionOfUpdate(es[1..], k - 1, e, key);
      assert es[k := e][1..] == es[1..][k - 1 := e];
    } else if k == 0 {
      assert es[k := e][1..] == es[1..];
    }
  }

  lemma HeadAfterOne(es: seq<Entry>, e: Entry, key: FullName)
    ensures var now, p := MergeOne(es, e), Position(es, key);
      && (p < |es| ==> Position(now, key) == p < |now| && SameHead(now[p], es[p]))
      && (p == |es| && e.Name() == key ==> Position(now, key) == p < |now| && now[p] == e)
      && (p == |es| && e.Name() != key ==> Position(now, key) == |now|)
  {
    var k := Position(es, e.Name());
    MergedIs(es, e, k);
    PositionOfConcat(es, e, key);
    if k < |es| { PositionOfUpdate(es, k, Joined(es[k], e), key); }
  }

  lemma {:induction false} HeadAfterAll(es: seq<Entry>, items: seq<Entry>, key: FullName)
    ensures HeadKept(es, items, MergeAll(es, items), key)
    decreases items
  {
    if items != [] {
      HeadAfterOne(es, items[0], key);
      HeadAfterAll(MergeOne(es, items[0]), items[1..], key);
    }
  }

  lemma {:induction false} FirstItem(items: seq<Entry>, vs: seq<Var>, key: FullName)
    requires |items| == |vs| && forall i | 0 <= i < |vs| :: items[i].Name() == NameOf(vs[i])
    ensures Position(items, key) < |items| ==> IsFirst(vs, Position(items, key), key)
    ensures Position(items, key) == |items| ==> forall i | 0 <= i < |vs| :: NameOf(vs[i]) != key
  {
    if items != [] && items[0].Name() != key {
      FirstItem(items[1..], vs[1..], key);
      assert forall i | 0 < i < |vs| :: vs[i] == vs[1..][i - 1];
    }
  }

  /** The entry of a key has id, name, path and type of the first variable with that key. */
  lemma EntryHeads(w: Endian, g: Group, offsets: seq<nat>, fileIndex: nat, i: nat) returns (j: nat)
    requires GroupFits(g) && |offsets| == |g.vars| && i < |g.vars|
    ensures j <= i && IsFirst(g.vars, j, NameOf(g.vars[i]))
    ensures var es, k := Built(w, g, offsets, fileIndex), Position(Built(w, g, offsets, fileIndex), NameOf(g.vars[i]));
      k < |es| && Heads(es[k], g, g.vars[j])
  {
    var items, key := EntriesOf(w, g, offsets, fileIndex), NameOf(g.vars[i]);
    HeadAfterAll([], items, key);
    FirstItem(items, g.vars, key);
    j := Position(items, key);
    assert items[j] == EntryOf(w, g, g.vars[j], offsets[j], fileIndex);
  }

  // ---- The record of a variable.

  /** The values of the dimensions, three for each. */
  ghost predicate DimsSay(ns: seq<nat>, dims: seq<Dim>) {
    && |ns| == 3 * |dims|
    && forall j | 0 <= j < |dims| ::
         ns[3 * j] == dims[j].local.Extent() && ns[3 * j + 1] == dims[j].global.Extent()
         && ns[3 * j + 2] == dims[j].offset.Extent()
  }

  lemma ExtentsSayDims(dims: seq<Dim>)
    ensures DimsSay(Extents(dims), dims)
  {
    forall j | 0 <= j < |dims|
      ensures Extents(dims)[3 * j] == dims[j].local.Extent() && Extents(dims)[3 * j + 1] == dims[j].global.Extent()
      ensures Extents(dims)[3 * j + 2] == dims[j].offset.Extent()
    {
      ExtentsAt(dims, j);
    }
  }

  /** The bytes of a scalar are those of the value, as a `w` machine has it in memory. */
  ghost predicate SaysData(w: Endian, v: Var, x: Value) {
    match x
    case Word(n) => Store(w, n, |v.data|) == v.data
    case Text(bytes) => bytes == v.data
    case Pair(re, im) => |v.data| % 2 == 0 && Store(w, re, |v.data| / 2) + Store(w, im, |v.data| / 2) == v.data
  }

  /** The kind of value that a type has. */
  ghost predicate RightKind(t: Datatype, x: Value) {
    match x
    case Word(_) => t != TString && t != TComplex && t != TDoubleComplex
    case Text(_) => t == TString
    case Pair(_, _) => t == TComplex || t == TDoubleComplex
  }

  /** Where and when: what every record says. */
  ghost predicate Placed(c: Characteristic, v: Var, offset: nat, fileIndex: nat, timeIndex: nat)
    requires VarFits(v)
  {
    && c.offset == offset && c.payloadOffset == offset + HeaderSize(v) % U16
    && c.fileIndex == fileIndex && c.timeIndex == timeIndex && c.varId == 0
  }

  /** An array: dimensions, bitmap and statistics, no value. */
  ghost predicate SaysArray(c: Characteristic, v: Var, stats: seq<seq<Stat>>) {
    DimsSay(c.dims, v.dims) && c.bitmap == v.bitmap && c.stats == stats && c.value == None
  }

  /** A scalar: just a value. */
  ghost predicate SaysScalar(c: Characteristic) {
    c.dims == [] && c.bitmap == 0 && c.stats == [] && c.value.Some?
  }

  lemma ScalarSays(w: Endian, v: Var)
    requires VarFits(v) && v.dims == []
    ensures SaysData(w, v, ValueOf(w, v)) && RightKind(v.type_, ValueOf(w, v))
  {
    if v.type_ != TString {
      OneElement(v);
      if IsComplex(v.type_) {
        HalvesSay(w, v.data, TypeSize(v.type_) / 2);
      } else {
        StoreLoad(w, v.data);
      }
    } else {
      TextLength(v);
    }
  }

  lemma TextLength(v: Var)
    requires VarFits(v) && v.type_ == TString && v.dims == []
    ensures |v.data| == v.textLength
  {}

  lemma HalvesSay(w: Endian, data: seq<byte>, half: nat)
    requires |data| == 2 * half
    ensures Store(w, Load(w, data[..half]), half) + Store(w, Load(w, data[half..]), half) == data
  {
    StoreLoad(w, data[..half]);
    StoreLoad(w, data[half..]);
  }

  /** The record that is built for variable i, field by field. */
  lemma RecordBuilt(w: Endian, g: Group, offsets: seq<nat>, fileIndex: nat, i: nat, c: Characteristic)
    requires GroupFits(g) && |offsets| == |g.vars| && i < |g.vars|
    requires var es, key := Built(w, g, offsets, fileIndex), NameOf(g.vars[i]);
      RecordPlaced(es, Position(es, key), Earlier(g.vars, key, i), c)
    ensures Placed(c, g.vars[i], offsets[i], fileIndex, g.timeIndex)
    ensures g.vars[i].type_ != TString && g.vars[i].dims != [] ==> SaysArray(c, g.vars[i], g.vars[i].stats)
    ensures g.vars[i].type_ == TString || g.vars[i].dims == [] ==> SaysScalar(c)
    ensures g.vars[i].dims == [] ==> SaysData(w, g.vars[i], c.value.value) && RightKind(g.vars[i].type_, c.value.value)
  {
    RecordOfVar(w, g, offsets, fileIndex, i);
    var v := g.vars[i];
    ExtentsSayDims(v.dims);
    if v.dims == [] { ScalarSays(w, v); }
  }

  // ---- The same, read on another machine.

  /** The value that is read: a string as far as its length says; the bytes of a complex number as they are. */
  ghost predicate SaysDataRead(w: Endian, host: Endian, v: Var, x: Value) {
    match x
    case Word(n) => Store(w, n, |v.data|) == v.data
    case Text(bytes) => bytes == v.data[..|v.data| % U16]
    case Pair(re, im) => |v.data| % 2 == 0 && Store(host, re, |v.data| / 2) + Store(host, im, |v.data| / 2) == v.data
  }

  lemma ValueSaysRead(w: Endian, host: Endian, v: Var, x: Value)
    requires VarFits(v) && v.dims == [] && SaysData(w, v, x) && RightKind(v.type_, x)
    ensures SaysDataRead(w, host, v, ValueRead(w, host, v.type_, x))
    ensures RightKind(v.type_, ValueRead(w, host, v.type_, x))
  {
    if v.type_ != TString { OneElement(v); }
    match x
    case Pair(re, im) =>
      StoreLoad(host, Store(w, re, TypeSize(v.type_) / 2));
      StoreLoad(host, Store(w, im, TypeSize(v.type_) / 2));
    case _ =>
  }

  /** The record of variable i in the index that another machine reads. */
  ghost predicate ReadAs(found: Index, place: (nat, nat), c: Characteristic) {
    place.0 < |found.vars| && place.1 < |found.vars[place.0].chars| && found.vars[place.0].chars[place.1] == c
  }

  /**
   The record of variable i as it is read, field by field; the variables that share the entry have one type.
   A histogram comes without its minimum.
   */
  lemma RecordReadBack(w: Endian, host: Endian, index: Index, g: Group, offsets: seq<nat>, fileIndex: nat, i: nat,
                       c: Characteristic)
    requires IsIndexOf(index, w, g, offsets, fileIndex) && i < |g.vars|
    requires ReadAs(IndexRead(w, host, index), PlaceIn(index.vars, g, i), c)
    requires forall j | 0 <= j < |g.vars| && NameOf(g.vars[j]) == NameOf(g.vars[i]) ::
      g.vars[j].type_ == g.vars[i].type_
    ensures Placed(c, g.vars[i], offsets[i], fileIndex, g.timeIndex)
    ensures g.vars[i].type_ != TString && g.vars[i].dims != [] ==> SaysArray(c, g.vars[i], StatsRead(g.vars[i].stats))
    ensures g.vars[i].type_ == TString || g.vars[i].dims == [] ==> SaysScalar(c)
    ensures g.vars[i].dims == [] ==>
      SaysDataRead(w, host, g.vars[i], c.value.value) && RightKind(g.vars[i].type_, c.value.value)
  {
    var v, place := g.vars[i], PlaceIn(index.vars, g, i);
    RecordOfVar(w, g, offsets, fileIndex, i);
    var j := EntryHeads(w, g, offsets, fileIndex, i);
    var e := index.vars[place.0];
    var built := e.chars[place.1];
    RecordBuilt(w, g, offsets, fileIndex, i, built);
    assert e.type_ == v.type_;
    assert EntriesRead(w, host, OfVar, index.vars)[place.0] == EntryRead(w, host, OfVar, e);
    assert c == SetRead(w, host, OfVar, v.type_, built);
    if v.dims == [] { ValueSaysRead(w, host, v, built.value.value); }
  }

  /** The record is there. */
  lemma RecordIsRead(w: Endian, host: Endian, index: Index, g: Group, offsets: seq<nat>, fileIndex: nat, i: nat)
    returns (c: Characteristic)
    requires IsIndexOf(index, w, g, offsets, fileIndex) && i < |g.vars|
    ensures ReadAs(IndexRead(w, host, index), PlaceIn(index.vars, g, i), c)
  {
    RecordOfVar(w, g, offsets, fileIndex, i);
    var place := PlaceIn(index.vars, g, i);
    c := IndexRead(w, host, index).vars[place.0].chars[place.1];
  }

  /** The dimensions of an array in the index are what the texts of its definition say. */
  lemma RecordSaysTexts(c: Characteristic, v: Var, stats: seq<seq<Stat>>, n: Names, dims: seq<seq<byte>>,
                        globals: seq<seq<byte>>, offsets: seq<seq<byte>>)
    requires SaysArray(c, v, stats) && Defines(n, dims, globals, offsets, v.dims)
    ensures ExtentsSay(c.dims, n, dims, globals, offsets)
  {
    DefinitionSays(n, dims, globals, offsets, v.dims);
    forall i | 0 <= i < |dims|
      ensures c.dims[3 * i] == LocalValue(n, dims[i]) && c.dims[3 * i + 1] == OtherValue(n, TextAt(globals, i))
      ensures c.dims[3 * i + 2] == OtherValue(n, TextAt(offsets, i))
    {
      ExtentsAt(v.dims, i);
    }
  }

  /** So are those in the header of the variable, and its dimension list says as much of them as it keeps. */
  lemma HeaderSaysTexts(w: Endian, host: Endian, v: Var, n: Names, dims: seq<seq<byte>>, globals: seq<seq<byte>>,
                        offsets: seq<seq<byte>>)
    requires Measured(w, v) && v.type_ != TString && v.dims != [] && Defines(n, dims, globals, offsets, v.dims)
    ensures var header := HeaderRead(w, host, v);
      ExtentsSay(header.chars.dims, n, dims, globals, offsets) && ListSays(header.dims, n, dims, globals, offsets)
  {
    DefinitionSays(n, dims, globals, offsets, v.dims);
    ItemsOfArray(v);
  }
}
