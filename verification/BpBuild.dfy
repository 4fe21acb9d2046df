/** Building the index of a process group: adios_build_index_v1, src/core/adios_internals.c:3221-3480. */
module BpBuild {
  import opened Seqs
  import opened Outcomes
  import opened Bytes
  import opened Types
  import opened IndexRecords
  import opened BpIndex
  import opened BpVar
  import opened BpVarSize
  import opened BpGroup
  import opened BpAgreement
  import opened IndexMerge

  /** The value that the bytes of a scalar stand for. */
  function ValueOf(w: Endian, v: Var): Value {
    if v.type_ == TString then Text(if v.textLength <= |v.data| then v.data[..v.textLength] else v.data)
    else if IsComplex(v.type_) && |v.data| == TypeSize(v.type_) then
      var half := TypeSize(v.type_) / 2;
      Pair(Load(w, v.data[..half]), Load(w, v.data[half..]))
    else Word(Load(w, v.data))
  }

  /** The one record that a variable has after it was written. */
  function RecordOf(w: Endian, v: Var, offset: nat, payloadOffset: nat, fileIndex: nat,
                    timeIndex: nat): Characteristic {
    if IsArray(v)
    then Characteristic(offset, payloadOffset, fileIndex, timeIndex, Extents(v.dims), v.bitmap, v.stats, None, 0)
    else Characteristic(offset, payloadOffset, fileIndex, timeIndex, [], 0, [], Some(ValueOf(w, v)), 0)
  }

  /** Where the data of a variable is said to be. */
  function SaidPayload(v: Var, offset: nat): nat
    requires VarFits(v)
  {
    offset + HeaderSize(v) % U16
  }

  function EntryOf(w: Endian, g: Group, v: Var, offset: nat, fileIndex: nat): Entry
    requires VarFits(v)
  {
    Entry(v.id, g.name, v.name, v.path, v.type_,
          [RecordOf(w, v, offset, SaidPayload(v, offset), fileIndex, g.timeIndex)])
  }

  function EntriesOf(w: Endian, g: Group, offsets: seq<nat>, fileIndex: nat): (es: seq<Entry>)
    requires GroupFits(g) && |offsets| == |g.vars|
    ensures |es| == |g.vars|
  {
    seq(|g.vars|, i requires 0 <= i < |g.vars| => EntryOf(w, g, g.vars[i], offsets[i], fileIndex))
  }

  lemma SamePath(payload: int, v: Var, offset: nat)
    requires VarFits(v) && payload == offset + HeaderSize(v) % U16 - |v.path| + |v.path|
    ensures payload == SaidPayload(v, offset)
  {}

  /** The entry of one variable. */
  method BuildEntry(w: Endian, g: Group, v: Var, offset: nat, fileIndex: nat) returns (e: Entry)
    requires VarFits(v)
    ensures e == EntryOf(w, g, v, offset, fileIndex)
  {
    var payload := IndexPayloadOffset(offset, v, v.path);
    SamePath(payload, v, offset);
    e := Entry(v.id, g.name, v.name, v.path, v.type_, [RecordOf(w, v, offset, payload, fileIndex, g.timeIndex)]);
  }

  /** The variables of the index: those with the same key share an entry. */
  function Built(w: Endian, g: Group, offsets: seq<nat>, fileIndex: nat): seq<Entry>
    requires GroupFits(g) && |offsets| == |g.vars|
  {
    MergeAll([], EntriesOf(w, g, offsets, fileIndex))
  }

  method BuildEntries(w: Endian, g: Group, offsets: seq<nat>, fileIndex: nat) returns (es: seq<Entry>)
    requires GroupFits(g) && |offsets| == |g.vars|
    ensures es == Built(w, g, offsets, fileIndex)
  {
    ghost var goal := EntriesOf(w, g, offsets, fileIndex);
    assert goal[0..] == goal;
    es := [];
    for i := 0 to |g.vars|
      invariant MergeAll(es, goal[i..]) == MergeAll([], goal)
    {
      var e := BuildEntry(w, g, g.vars[i], offsets[i], fileIndex);
      assert e == goal[i] && goal[i..][1..] == goal[i + 1..];
      es := MergeOne(es, e);
    }
  }

  // ---- Where a variable is in the index.

  function NameOf(v: Var): FullName { KeyOf(v.path, v.name) }

  /** The first entry with the key. */
  function Position(es: seq<Entry>, key: FullName): (k: nat)
    ensures k <= |es|
  {
    if es == [] || es[0].Name() == key then 0 else 1 + Position(es[1..], key)
  }

  /** How many of the first n variables have the key. */
  function Earlier(vs: seq<Var>, key: FullName, n: nat): nat
    requires n <= |vs|
  {
    if n == 0 then 0 else Earlier(vs, key, n - 1) + if NameOf(vs[n - 1]) == key then 1 else 0
  }

  lemma {:induction false} RecordsAtPosition(es: seq<Entry>, key: FullName)
    requires Distinct(es)
    ensures RecordsOf(key, es) == if Position(es, key) < |es| then es[Position(es, key)].chars else []
  {
    if es != [] {
      if es[0].Name() == key { NoRecords(key, es[1..]); } else { RecordsAtPosition(es[1..], key); }
    }
  }

  lemma FrontOfConcat<T>(a: seq<T>, b: seq<T>)
    requires a != []
    ensures (a + b)[0] == a[0] && (a + b)[1..] == a[1..] + b
  {}

  lemma RecordsFront(key: FullName, es: seq<Entry>)
    requires es != []
    ensures RecordsOf(key, es) == (if es[0].Name() == key then es[0].chars else []) + RecordsOf(key, es[1..])
  {}

  lemma {:induction false} RecordsOfConcat(key: FullName, a: seq<Entry>, b: seq<Entry>)
    ensures RecordsOf(key, a + b) == RecordsOf(key, a) + RecordsOf(key, b)
  {
    if a == [] {
      assert a + b == b;
    } else {
      RecordsOfConcat(key, a[1..], b);
      FrontOfConcat(a, b);
      RecordsFront(key, a);
      RecordsFront(key, a + b);
      Assoc(if a[0].Name() == key then a[0].chars else [], RecordsOf(key, a[1..]), RecordsOf(key, b));
    }
  }

  /** Entries with one record each, under the names of the variables. */
  ghost predicate NamedAs(es: seq<Entry>, vs: seq<Var>) {
    |es| == |vs| && forall i | 0 <= i < |es| :: |es[i].chars| == 1 && es[i].Name() == NameOf(vs[i])
  }

  lemma RecordsStep(key: FullName, es: seq<Entry>, n: nat)
    requires n < |es|
    ensures |RecordsOf(key, es[..n + 1])|
      == |RecordsOf(key, es[..n])| + if es[n].Name() == key then |es[n].chars| else 0
  {
    PrefixStep(es, n);
    RecordsOfConcat(key, es[..n], [es[n]]);
    assert RecordsOf(key, [es[n]]) == (if es[n].Name() == key then es[n].chars else []) + RecordsOf(key, []);
  }

  lemma {:induction false} EarlierRecords(es: seq<Entry>, vs: seq<Var>, key: FullName, n: nat)
    requires NamedAs(es, vs) && n <= |vs|
    ensures |RecordsOf(key, es[..n])| == Earlier(vs, key, n)
  {
    if n > 0 {
      EarlierRecords(es, vs, key, n - 1);
      RecordsStep(key, es, n - 1);
      assert |es[n - 1].chars| == 1 && es[n - 1].Name() == NameOf(vs[n - 1]);
    }
  }

  /** The records of a key have that of entry i behind those of the entries before. */
  lemma RecordAt(es: seq<Entry>, i: nat)
    requires i < |es| && |es[i].chars| == 1
    ensures var rs, n := RecordsOf(es[i].Name(), es), |RecordsOf(es[i].Name(), es[..i])|;
      n < |rs| && rs[n] == es[i].chars[0]
  {
    var key := es[i].Name();
    RecordsOfConcat(key, es[..i], es[i..]);
    assert es == es[..i] + es[i..];
    assert RecordsOf(key, es[i..]) == es[i].chars + RecordsOf(key, es[i..][1..]);
  }

  /** Its record is number so many in the entry of its key, as many earlier variables have that key. */
  ghost predicate RecordPlaced(es: seq<Entry>, k: nat, n: nat, c: Characteristic) {
    k < |es| && n < |es[k].chars| && es[k].chars[n] == c
  }

  lemma RecordOfVar(w: Endian, g: Group, offsets: seq<nat>, fileIndex: nat, i: nat)
    requires GroupFits(g) && |offsets| == |g.vars| && i < |g.vars|
    ensures var es, key := Built(w, g, offsets, fileIndex), NameOf(g.vars[i]);
      RecordPlaced(es, Position(es, key), Earlier(g.vars, key, i),
                   EntryOf(w, g, g.vars[i], offsets[i], fileIndex).chars[0])
  {
    var items, es, key := EntriesOf(w, g, offsets, fileIndex), Built(w, g, offsets, fileIndex), NameOf(g.vars[i]);
    assert items[i] == EntryOf(w, g, g.vars[i], offsets[i], fileIndex);
    MergeKeepsFirstSeenOrder([], items);
    MergeConcatenatesRecords(key, [], items, (k: FullName) => g.name);
    assert RecordsOf(key, es) == [] + RecordsOf(key, items) == RecordsOf(key, items);
    RecordAt(items, i);
    EarlierRecords(items, g.vars, key, i);
    RecordsAtPosition(es, key);
  }

  // ---- The entries fit the file.

  lemma ScalarFits(w: Endian, v: Var)
    requires VarFits(v) && !IsArray(v)
    ensures ValueFits(v.type_, ValueOf(w, v))
  {
    if v.type_ != TString {
      OneElement(v);
      if IsComplex(v.type_) {
        HalvesFit(w, v.data, TypeSize(v.type_) / 2);
      } else {
        StoreLoad(w, v.data);
      }
    }
  }

  lemma OneElement(v: Var)
    requires VarFits(v) && v.type_ != TString && v.dims == []
    ensures |v.data| == TypeSize(v.type_)
  {}

  lemma HalvesFit(w: Endian, data: seq<byte>, half: nat)
    requires |data| == 2 * half
    ensures Load(w, data[..half]) < Pow256(half) && Load(w, data[half..]) < Pow256(half)
  {
    StoreLoad(w, data[..half]);
    StoreLoad(w, data[half..]);
  }

  lemma RecordFits(w: Endian, v: Var, offset: nat, payloadOffset: nat, fileIndex: nat, timeIndex: nat)
    requires VarFits(v) && offset < U64 && payloadOffset < U64 && fileIndex < U32 && timeIndex < U32
    ensures SetFits(OfVar, v.type_, RecordOf(w, v, offset, payloadOffset, fileIndex, timeIndex))
  {
    if IsArray(v) {
      StatsThere(v);
    } else {
      ScalarFits(w, v);
    }
  }

  /** Strings that are scalars are not longer than their length can say. */
  predicate ShortStrings(g: Group) {
    forall i | 0 <= i < |g.vars| :: g.vars[i].type_ == TString ==> |g.vars[i].data| < U16
  }

  lemma EntryOfFits(w: Endian, g: Group, v: Var, offset: nat, fileIndex: nat)
    requires VarFits(v) && SaidPayload(v, offset) < U64 && fileIndex < U32 && g.timeIndex < U32
    ensures EntryFits(OfVar, EntryOf(w, g, v, offset, fileIndex))
    ensures (v.type_ == TString ==> |v.data| < U16) ==> ShortEntry(EntryOf(w, g, v, offset, fileIndex))
  {
    RecordFits(w, v, offset, SaidPayload(v, offset), fileIndex, g.timeIndex);
  }

  /** Every entry has the type that `types` gives for its key. */
  ghost predicate Typed(es: seq<Entry>, types: FullName -> Datatype) {
    forall i | 0 <= i < |es| :: es[i].type_ == types(es[i].Name())
  }

  /** Fit for a file, but for the number of records. */
  ghost predicate Sound(es: seq<Entry>) {
    forall i | 0 <= i < |es| :: es[i].id < U32 && SetsFit(OfVar, es[i].type_, es[i].chars)
  }

  lemma JoinedFits(x: Entry, e: Entry)
    requires x.type_ == e.type_ && SetsFit(OfVar, x.type_, x.chars) && SetsFit(OfVar, e.type_, e.chars)
    ensures SetsFit(OfVar, x.type_, Joined(x, e).chars)
    ensures ShortEntry(x) && ShortEntry(e) ==> ShortEntry(Joined(x, e))
  {}

  lemma MergedIs(es: seq<Entry>, e: Entry, k: nat)
    requires k == Position(es, e.Name())
    ensures k == |es| ==> MergeOne(es, e) == es + [e]
    ensures k < |es| ==> es[k].Name() == e.Name()
    ensures k < |es| ==> MergeOne(es, e) == if es[k].groupName == e.groupName then es[k := Joined(es[k], e)] else es
  {
    FirstOne(es, e.Name());
    if k == |es| { MergeOneMiss(es, e); } else { MergeOneHit(es, e, k); }
  }

  lemma {:induction false} FirstOne(es: seq<Entry>, key: FullName)
    ensures forall i | 0 <= i < Position(es, key) :: es[i].Name() != key
    ensures Position(es, key) < |es| ==> es[Position(es, key)].Name() == key
  {
    if es != [] && es[0].Name() != key {
      FirstOne(es[1..], key);
      assert forall i | 0 < i < |es| :: es[i] == es[1..][i - 1];
    }
  }

  lemma MergedSound(es: seq<Entry>, e: Entry, types: FullName -> Datatype)
    requires Typed(es, types) && Typed([e], types) && Sound(es) && Sound([e])
    ensures Typed(MergeOne(es, e), types) && Sound(MergeOne(es, e)) && |MergeOne(es, e)| <= |es| + 1
    ensures ShortEntries(es) && ShortEntry(e) ==> ShortEntries(MergeOne(es, e))
  {
    var k := Position(es, e.Name());
    MergedIs(es, e, k);
    assert [e][0] == e;
    if k < |es| { JoinedFits(es[k], e); }
  }

  lemma {:induction false} AllMergedSound(es: seq<Entry>, items: seq<Entry>, types: FullName -> Datatype)
    requires Typed(es, types) && Typed(items, types) && Sound(es) && Sound(items)
    ensures Sound(MergeAll(es, items)) && |MergeAll(es, items)| <= |es| + |items|
    ensures ShortEntries(es) && ShortEntries(items) ==> ShortEntries(MergeAll(es, items))
    decreases items
  {
    if items != [] {
      MergedSound(es, items[0], types);
      AllMergedSound(MergeOne(es, items[0]), items[1..], types);
    }
  }

  lemma {:induction false} NoMoreThanAll(es: seq<Entry>, k: nat)
    requires k < |es|
    ensures |es[k].chars| <= Total(es)
  {
    if k > 0 { NoMoreThanAll(es[1..], k - 1); }
  }

  lemma {:induction false} OneEach(es: seq<Entry>)
    requires forall i | 0 <= i < |es| :: |es[i].chars| == 1
    ensures Total(es) == |es|
  {
    if es != [] { OneEach(es[1..]); }
  }

  lemma BuiltFits(w: Endian, g: Group, offsets: seq<nat>, fileIndex: nat, types: FullName -> Datatype)
    requires GroupFits(g) && |offsets| == |g.vars| < U32 && fileIndex < U32 && g.timeIndex < U32
    requires forall i | 0 <= i < |g.vars| :: SaidPayload(g.vars[i], offsets[i]) < U64
    requires forall i | 0 <= i < |g.vars| :: g.vars[i].type_ == types(NameOf(g.vars[i]))
    ensures EntriesFit(OfVar, Built(w, g, offsets, fileIndex))
    ensures ShortStrings(g) ==> ShortEntries(Built(w, g, offsets, fileIndex))
  {
    var items, es := EntriesOf(w, g, offsets, fileIndex), Built(w, g, offsets, fileIndex);
    EntriesOfFit(w, g, offsets, fileIndex);
    AllMergedSound([], items, types);
    MergeNeverInvents([], items);
    OneEach(items);
    forall k | 0 <= k < |es| ensures |es[k].chars| < U32 { NoMoreThanAll(es, k); }
  }

  lemma EntriesOfFit(w: Endian, g: Group, offsets: seq<nat>, fileIndex: nat)
    requires GroupFits(g) && |offsets| == |g.vars| < U32 && fileIndex < U32 && g.timeIndex < U32
    requires forall i | 0 <= i < |g.vars| :: SaidPayload(g.vars[i], offsets[i]) < U64
    ensures EntriesFit(OfVar, EntriesOf(w, g, offsets, fileIndex))
    ensures ShortStrings(g) ==> ShortEntries(EntriesOf(w, g, offsets, fileIndex))
  {
    forall i | 0 <= i < |g.vars|
      ensures EntryFits(OfVar, EntryOf(w, g, g.vars[i], offsets[i], fileIndex))
      ensures ShortStrings(g) ==> ShortEntry(EntryOf(w, g, g.vars[i], offsets[i], fileIndex))
    {
      EntryOfFits(w, g, g.vars[i], offsets[i], fileIndex);
    }
  }
}
