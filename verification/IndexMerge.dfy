/** Merging variable indexes: src/core/adios_internals.c:2235-2331, 2404-2436. */
module IndexMerge {
  import opened Seqs
  import opened Bytes
  import opened IndexRecords
  import opened LinkedList

  /** The reference: scan the list for the key; add to the entry found, or append a new one. */
  function MergeOne(es: seq<Entry>, e: Entry): seq<Entry> {
    if es == [] then [e]
    else if es[0].Name() == e.Name() then
      if es[0].groupName == e.groupName then [es[0].(chars := es[0].chars + e.chars)] + es[1..]
      else es  // same variable in two groups: reported, not merged
    else [es[0]] + MergeOne(es[1..], e)
  }

  function MergeAll(es: seq<Entry>, items: seq<Entry>): seq<Entry>
    decreases items
  {
    if items == [] then es else MergeAll(MergeOne(es, items[0]), items[1..])
  }

  lemma {:induction false} MergeOneMiss(es: seq<Entry>, e: Entry)
    requires forall i | 0 <= i < |es| :: es[i].Name() != e.Name()
    ensures MergeOne(es, e) == es + [e]
  {
    if es != [] {
      MergeOneMiss(es[1..], e);
      assert es == [es[0]] + es[1..];
    }
  }

  lemma {:induction false} MergeOneHit(es: seq<Entry>, e: Entry, k: nat)
    requires k < |es| && es[k].Name() == e.Name() && forall i | 0 <= i < k :: es[i].Name() != e.Name()
    ensures MergeOne(es, e) ==
            if es[k].groupName == e.groupName then es[k := es[k].(chars := es[k].chars + e.chars)] else es
  {
    if k > 0 {
      MergeOneHit(es[1..], e, k - 1);
      assert es == [es[0]] + es[1..];
    }
  }

  /** A variable of the index with the room allocated for its records. */
  datatype IndexVar = IndexVar(entry: Entry, capacity: nat)

  /** The entries of the nodes of a list. */
  ghost function EntriesAt(nodes: seq<IndexVar>, ids: seq<nat>): (es: seq<Entry>)
    requires forall i | 0 <= i < |ids| :: ids[i] < |nodes|
    ensures |es| == |ids| && forall i | 0 <= i < |ids| :: es[i] == nodes[ids[i]].entry
  {
    seq(|ids|, i requires 0 <= i < |ids| => nodes[ids[i]].entry)
  }

  /** The hash table gives, for each path and name, the node of the list that has them. */
  ghost predicate HashExact(hash: map<FullName, nat>, nodes: seq<IndexVar>, ids: seq<nat>) {
    && (forall i | 0 <= i < |ids| :: ids[i] < |nodes|)
    && (forall i | 0 <= i < |ids| :: nodes[ids[i]].entry.Name() in hash && hash[nodes[ids[i]].entry.Name()] == ids[i])
    && (forall k | k in hash :: hash[k] in ids && nodes[hash[k]].entry.Name() == k)
  }

  ghost predicate Covered(v: IndexVar) {
    |v.entry.chars| <= v.capacity
  }

  ghost predicate AllCovered(nodes: seq<IndexVar>, ids: seq<nat>) {
    forall i | 0 <= i < |ids| :: ids[i] < |nodes| && Covered(nodes[ids[i]])
  }

  lemma HashMiss(hash: map<FullName, nat>, nodes: seq<IndexVar>, ids: seq<nat>, x: nat)
    requires HashExact(hash, nodes, ids) && x < |nodes| && x !in ids && nodes[x].entry.Name() !in hash
    ensures HashExact(hash[nodes[x].entry.Name() := x], nodes, ids + [x])
    ensures EntriesAt(nodes, ids + [x]) == MergeOne(EntriesAt(nodes, ids), nodes[x].entry)
  {
    MergeOneMiss(EntriesAt(nodes, ids), nodes[x].entry);
  }

  /** An entry with the records of another one behind its own. */
  function Joined(v: Entry, e: Entry): Entry {
    v.(chars := v.chars + e.chars)
  }

  /** Only one node of a list has a key. */
  lemma OneNode(hash: map<FullName, nat>, nodes: seq<IndexVar>, ids: seq<nat>, key: FullName, i: nat)
    requires HashExact(hash, nodes, ids) && key in hash && i < |ids| && ids[i] != hash[key]
    ensures EntriesAt(nodes, ids)[i].Name() != key
  {}

  /** The linear scan stops at the node that the hash table gives. */
  lemma HashHit(hash: map<FullName, nat>, nodes: seq<IndexVar>, next: seq<int>, root: int, ids: seq<nat>, e: Entry)
    returns (k: nat)
    requires HashExact(hash, nodes, ids) && e.Name() in hash && IsList(next, root, ids)
    ensures k < |ids| && ids[k] == hash[e.Name()]
    ensures nodes[ids[k]].entry.Name() == e.Name()
    ensures MergeOne(EntriesAt(nodes, ids), e) ==
            if nodes[ids[k]].entry.groupName != e.groupName then EntriesAt(nodes, ids)
            else EntriesAt(nodes, ids)[k := Joined(nodes[ids[k]].entry, e)]
  {
    k :| 0 <= k < |ids| && ids[k] == hash[e.Name()];
    var es := EntriesAt(nodes, ids);
    forall i | 0 <= i < k ensures es[i].Name() != e.Name() {
      SameNode(next, root, ids, i, k);
      OneNode(hash, nodes, ids, e.Name(), i);
    }
    assert es[k].Name() == e.Name();
    MergeOneHit(es, e, k);
  }

  /** One node of a list gets new contents under the same key. */
  lemma NodeChanged(hash: map<FullName, nat>, nodes: seq<IndexVar>, next: seq<int>, root: int, ids: seq<nat>, k: nat,
                    v: IndexVar)
    requires HashExact(hash, nodes, ids) && IsList(next, root, ids) && k < |ids|
    requires v.entry.Name() == nodes[ids[k]].entry.Name()
    ensures HashExact(hash, nodes[ids[k] := v], ids)
    ensures EntriesAt(nodes[ids[k] := v], ids) == EntriesAt(nodes, ids)[k := v.entry]
    ensures AllCovered(nodes, ids) && Covered(v) ==> AllCovered(nodes[ids[k] := v], ids)
  {
    forall i | 0 <= i < |ids| ensures ids[i] == ids[k] <==> i == k { SameNode(next, root, ids, i, k); }
  }

  /** The node found gets the records of another one: what the linear scan does. */
  lemma JoinedAt(hash: map<FullName, nat>, nodes: seq<IndexVar>, next: seq<int>, root: int, ids: seq<nat>, e: Entry,
                 v: IndexVar)
    requires HashExact(hash, nodes, ids) && AllCovered(nodes, ids) && IsList(next, root, ids) && e.Name() in hash
    requires nodes[hash[e.Name()]].entry.groupName == e.groupName && v.entry == Joined(nodes[hash[e.Name()]].entry, e)
    requires Covered(v)
    ensures HashExact(hash, nodes[hash[e.Name()] := v], ids) && AllCovered(nodes[hash[e.Name()] := v], ids)
    ensures EntriesAt(nodes[hash[e.Name()] := v], ids) == MergeOne(EntriesAt(nodes, ids), e)
  {
    var k := HashHit(hash, nodes, next, root, ids, e);
    NodeChanged(hash, nodes, next, root, ids, k, v);
  }

  lemma NotJoined(hash: map<FullName, nat>, nodes: seq<IndexVar>, next: seq<int>, root: int, ids: seq<nat>, e: Entry)
    requires HashExact(hash, nodes, ids) && IsList(next, root, ids) && e.Name() in hash
    requires nodes[hash[e.Name()]].entry.groupName != e.groupName
    ensures EntriesAt(nodes, ids) == MergeOne(EntriesAt(nodes, ids), e)
  {
    var k := HashHit(hash, nodes, next, root, ids, e);
  }

  /** The records are copied behind those of v, in more memory if there is not enough. */
  method Grown(v: IndexVar, item: Entry) returns (r: IndexVar)
    requires Covered(v)
    ensures r.entry == Joined(v.entry, item) && Covered(r) && r.capacity >= v.capacity
  {
    var capacity := v.capacity;
    if |v.entry.chars| + |item.chars| > v.capacity {
      var newItems := if |item.chars| == 1 then 100 else |item.chars|;
      capacity := |v.entry.chars| + newItems;
    }
    r := IndexVar(v.entry.(chars := v.entry.chars + item.chars), capacity);
  }

  /** The variable index: a linked list with its tail, and a hash table over it. */
  class VarIndex {
    /** The memory: all nodes, of this list and of others, and their links. */
    var nodes: seq<IndexVar>
    var next: seq<int>
    var root: int
    var tail: int
    var hash: map<FullName, nat>
    /** The nodes of the list, in order. */
    ghost var ids: seq<nat>

    /** Links, tail and hash table agree, and every allocation covers its records. */
    ghost predicate Valid()
      reads this
    {
      && |next| == |nodes| && IsList(next, root, ids)
      && (ids != [] ==> tail == ids[|ids| - 1])
      && HashExact(hash, nodes, ids)
      && AllCovered(nodes, ids)
    }

    ghost function Entries(): seq<Entry>
      requires Valid()
      reads this
    {
      EntriesAt(nodes, ids)
    }

    constructor (nodes: seq<IndexVar>, next: seq<int>)
      requires |next| == |nodes|
      ensures Valid() && Entries() == [] && this.nodes == nodes && this.next == next && ids == []
    {
      this.nodes, this.next := nodes, next;
      root, tail, hash, ids := NULL, NULL, map[], [];
    }

    /** Links a new variable in, as the first one or behind the tail. */
    method LinkLast(x: nat)
      requires Valid() && x < |nodes| && x !in ids
      modifies this`next, this`root, this`tail, this`ids
      ensures |next| == |nodes| && IsList(next, root, ids) && ids == old(ids) + [x] && tail == x
      ensures forall n | 0 <= n < |next| && n != x && n !in old(ids) :: next[n] == old(next[n])
    {
      if root == NULL {
        next := next[x := NULL];
        root := x;
      } else {
        Appended(next, root, ids, x);
        next := next[x := NULL];
        next := next[tail := x];
      }
      tail := x;
      ids := ids + [x];
    }

    /** A new variable goes into the list and into the hash table. */
    method AddNew(x: nat)
      requires Valid() && x < |nodes| && x !in ids && Covered(nodes[x]) && nodes[x].entry.Name() !in hash
      modifies this`next, this`root, this`tail, this`hash, this`ids
      ensures Valid() && ids == old(ids) + [x] && Entries() == MergeOne(old(Entries()), nodes[x].entry)
      ensures forall n | 0 <= n < |next| && n != x && n !in old(ids) :: next[n] == old(next[n])
    {
      HashMiss(hash, nodes, ids, x);
      LinkLast(x);
      hash := hash[nodes[x].entry.Name() := x];
    }

    /** index_append_var_v1: one hash lookup and the tail pointer do what the linear scan does. */
    method Append(x: nat)
      requires Valid() && x < |nodes| && x !in ids && Covered(nodes[x])
      modifies this
      ensures Valid() && Entries() == MergeOne(old(Entries()), old(nodes[x].entry))
      ensures |nodes| == |old(nodes)| && forall i | 0 <= i < |ids| :: ids[i] == x || ids[i] in old(ids)
      ensures forall n | 0 <= n < |nodes| && n != x && n !in old(ids) ::
        nodes[n] == old(nodes[n]) && next[n] == old(next[n])
    {
      var item := nodes[x].entry;
      if item.Name() !in hash {
        AddNew(x);
      } else {
        AddRecords(hash[item.Name()], x);
      }
    }

    /** The records of x go to the end of those of the node found; x itself is freed. */
    method AddRecords(olditem: nat, x: nat)
      requires Valid() && x < |nodes| && x !in ids && nodes[x].entry.Name() in hash
      requires olditem == hash[nodes[x].entry.Name()]
      modifies this`nodes
      ensures Valid() && Entries() == MergeOne(old(Entries()), old(nodes[x].entry))
      ensures |nodes| == |old(nodes)| && forall n | 0 <= n < |nodes| && n !in ids :: nodes[n] == old(nodes[n])
    {
      if nodes[olditem].entry.groupName != nodes[x].entry.groupName {
        NotJoined(hash, nodes, next, root, ids, nodes[x].entry);
      } else {
        var v := Grown(nodes[olditem], nodes[x].entry);
        JoinedAt(hash, nodes, next, root, ids, nodes[x].entry, v);
        SetNode(olditem, v);
      }
    }

    method SetNode(n: nat, v: IndexVar)
      requires Valid() && n < |nodes| && n in ids && HashExact(hash, nodes[n := v], ids)
      requires AllCovered(nodes[n := v], ids)
      modifies this`nodes
      ensures Valid() && nodes == old(nodes)[n := v]
    {
      nodes := nodes[n := v];
    }

    /** One round of the merge: item number i is unlinked and appended. */
    method MergeNext(x: nat, ghost items: seq<nat>, ghost es: seq<Entry>, ghost i: nat)
      requires Valid() && Remaining(nodes, next, ids, items, es, i) && i < |items| && x == items[i]
      modifies this
      ensures Valid() && Remaining(nodes, next, ids, items, es, i + 1) && Entries() == MergeOne(old(Entries()), es[i])
    {
      NextItem(nodes, next, ids, items, es, i);
      OtherNode(next, root, ids, x, NULL);
      next := next[x := NULL];
      Append(x);
      StillRemaining(old(nodes), old(next), old(ids), items, es, i, nodes, next, ids);
    }

    /** The variables part of adios_merge_index_v1: takes the other list apart, following its links. */
    method MergeVars(newRoot: int, ghost items: seq<nat>)
      requires Valid() && IsList(next, newRoot, items)
      requires forall i | 0 <= i < |items| :: items[i] !in ids && Covered(nodes[items[i]])
      modifies this
      ensures Valid() && Entries() == MergeAll(old(Entries()), old(EntriesAt(nodes, items)))
    {
      ghost var es, i := EntriesAt(nodes, items), 0;
      var v := newRoot;
      assert es[0..] == es;
      while v != NULL
        invariant Valid() && Remaining(nodes, next, ids, items, es, i) && v == At(items, i)
        invariant MergeAll(Entries(), es[i..]) == MergeAll(old(Entries()), es)
        decreases |items| - i
      {
        NextItem(nodes, next, ids, items, es, i);
        var vTemp := next[v];
        MergeNext(v, items, es, i);
        v := vTemp;
        i := i + 1;
      }
    }
  }

  /** The items from i on are linked as they were, hold what they held, and are not in the index. */
  ghost predicate Remaining(nodes: seq<IndexVar>, next: seq<int>, ids: seq<nat>, items: seq<nat>, es: seq<Entry>,
                            i: nat) {
    && |next| == |nodes| && i <= |items| == |es| && Linked(next, items, i)
    && (forall j | i <= j < |items| :: nodes[items[j]].entry == es[j] && Covered(nodes[items[j]]) && items[j] !in ids)
  }

  /** Appending item i leaves the later ones alone. */
  lemma StillRemaining(nodes: seq<IndexVar>, next: seq<int>, ids: seq<nat>, items: seq<nat>, es: seq<Entry>, i: nat,
                       nodes': seq<IndexVar>, next': seq<int>, ids': seq<nat>)
    requires Remaining(nodes, next, ids, items, es, i) && i < |items| && |nodes'| == |nodes| == |next'|
    requires forall n | 0 <= n < |nodes| && n != items[i] && n !in ids :: nodes'[n] == nodes[n] && next'[n] == next[n]
    requires forall j | 0 <= j < |ids'| :: ids'[j] == items[i] || ids'[j] in ids
    ensures Remaining(nodes', next', ids', items, es, i + 1)
  {
    forall j | i < j < |items| ensures items[j] != items[i] { NoNodeTwice(next, items, i, j); }
    forall j | i < j < |items| ensures next'[items[j]] == At(items, j + 1) {
      assert next[items[j]] == At(items, j + 1);
    }
  }

  lemma NextItem(nodes: seq<IndexVar>, next: seq<int>, ids: seq<nat>, items: seq<nat>, es: seq<Entry>, i: nat)
    requires Remaining(nodes, next, ids, items, es, i) && i < |items|
    ensures nodes[items[i]].entry == es[i] && Covered(nodes[items[i]]) && items[i] !in ids
    ensures next[items[i]] == At(items, i + 1)
    ensures es[i..][1..] == es[i + 1..]
  {}

  /** The keys of a list, in order. */
  ghost function Keys(es: seq<Entry>): seq<FullName> {
    if es == [] then [] else [es[0].Name()] + Keys(es[1..])
  }

  /** The keys of `seen`, and then those of the items, each where it is first seen. */
  ghost function FirstSeen(seen: seq<FullName>, items: seq<Entry>): seq<FullName>
    decreases items
  {
    if items == [] then seen
    else FirstSeen(if items[0].Name() in seen then seen else seen + [items[0].Name()], items[1..])
  }

  /** All records under key k, in list order. */
  ghost function RecordsOf(k: FullName, es: seq<Entry>): seq<Characteristic> {
    if es == [] then [] else (if es[0].Name() == k then es[0].chars else []) + RecordsOf(k, es[1..])
  }

  /** How many records a list has. */
  ghost function Total(es: seq<Entry>): nat {
    if es == [] then 0 else |es[0].chars| + Total(es[1..])
  }

  /** No key occurs twice. */
  ghost predicate Distinct(es: seq<Entry>) {
    es == [] || (es[0].Name() !in Keys(es[1..]) && Distinct(es[1..]))
  }

  /** Which key is in which group. */
  ghost function Pairs(es: seq<Entry>): set<(FullName, seq<byte>)> {
    set e | e in es :: (e.Name(), e.groupName)
  }

  ghost predicate OneGroupEach(ps: set<(FullName, seq<byte>)>) {
    forall p, q | p in ps && q in ps && p.0 == q.0 :: p == q
  }

  lemma {:induction false} KeysOfMergeOne(es: seq<Entry>, e: Entry)
    ensures Keys(MergeOne(es, e)) == if e.Name() in Keys(es) then Keys(es) else Keys(es) + [e.Name()]
    ensures Distinct(es) ==> Distinct(MergeOne(es, e))
  {
    if es != [] {
      var m := MergeOne(es, e);
      if es[0].Name() == e.Name() {
        assert m[1..] == es[1..];
      } else {
        KeysOfMergeOne(es[1..], e);
        assert m[1..] == MergeOne(es[1..], e);
      }
    }
  }

  /** Every key occurs once, in the order in which keys first appear. */
  lemma {:induction false} MergeKeepsFirstSeenOrder(es: seq<Entry>, items: seq<Entry>)
    requires Distinct(es)
    ensures Keys(MergeAll(es, items)) == FirstSeen(Keys(es), items)
    ensures Distinct(MergeAll(es, items))
    decreases items
  {
    if items != [] {
      KeysOfMergeOne(es, items[0]);
      MergeKeepsFirstSeenOrder(MergeOne(es, items[0]), items[1..]);
    }
  }

  lemma {:induction false} NoRecords(k: FullName, es: seq<Entry>)
    requires k !in Keys(es)
    ensures RecordsOf(k, es) == []
  {
    if es != [] { NoRecords(k, es[1..]); }
  }

  /** Every entry is in the group that `groups` gives for its key. */
  ghost predicate Grouped(es: seq<Entry>, groups: FullName -> seq<byte>) {
    forall i | 0 <= i < |es| :: es[i].groupName == groups(es[i].Name())
  }

  lemma {:induction false} RecordsOfMergeOne(k: FullName, es: seq<Entry>, e: Entry, groups: FullName -> seq<byte>)
    requires Distinct(es) && Grouped(es, groups) && e.groupName == groups(e.Name())
    ensures RecordsOf(k, MergeOne(es, e)) == RecordsOf(k, es) + if e.Name() == k then e.chars else []
    ensures Grouped(MergeOne(es, e), groups)
  {
    if es != [] {
      var m := MergeOne(es, e);
      if es[0].Name() == e.Name() {
        assert m[1..] == es[1..];
        if k == e.Name() { NoRecords(k, es[1..]); }
      } else {
        RecordsOfMergeOne(k, es[1..], e, groups);
        assert m[1..] == MergeOne(es[1..], e);
      }
    }
  }

  lemma PairsOfRest(es: seq<Entry>)
    requires es != []
    ensures Pairs(es) == {(es[0].Name(), es[0].groupName)} + Pairs(es[1..])
  {}

  lemma {:induction false} PairsOfMergeOne(es: seq<Entry>, e: Entry)
    requires OneGroupEach(Pairs(es) + {(e.Name(), e.groupName)})
    ensures Pairs(MergeOne(es, e)) == Pairs(es) + {(e.Name(), e.groupName)}
  {
    if es != [] {
      var m := MergeOne(es, e);
      PairsOfRest(es);
      PairsOfRest(m);
      assert (es[0].Name(), es[0].groupName) in Pairs(es);
      if es[0].Name() != e.Name() {
        PairsOfMergeOne(es[1..], e);
        assert m[1..] == MergeOne(es[1..], e);
      } else {
        assert m[1..] == es[1..];
      }
    }
  }

  /** The records of a variable are those of all its items, in order of arrival. */
  lemma {:induction false} MergeConcatenatesRecords(k: FullName, es: seq<Entry>, items: seq<Entry>,
                                                    groups: FullName -> seq<byte>)
    requires Distinct(es) && Grouped(es, groups) && Grouped(items, groups)
    ensures RecordsOf(k, MergeAll(es, items)) == RecordsOf(k, es) + RecordsOf(k, items)
    decreases items
  {
    if items != [] {
      var e, m := items[0], MergeOne(es, items[0]);
      RecordsOfMergeOne(k, es, e, groups);
      KeysOfMergeOne(es, e);
      MergeConcatenatesRecords(k, m, items[1..], groups);
      Assoc(RecordsOf(k, es), if e.Name() == k then e.chars else [], RecordsOf(k, items[1..]));
    }
  }

  lemma {:induction false} TotalOfMergeOne(es: seq<Entry>, e: Entry)
    ensures Total(es) <= Total(MergeOne(es, e)) <= Total(es) + |e.chars|
    ensures OneGroupEach(Pairs(es) + {(e.Name(), e.groupName)}) ==> Total(MergeOne(es, e)) == Total(es) + |e.chars|
    ensures OneGroupEach(Pairs(es)) && Total(MergeOne(es, e)) == Total(es) + |e.chars| && e.chars != [] ==>
      OneGroupEach(Pairs(es) + {(e.Name(), e.groupName)})
  {
    if es != [] {
      var m := MergeOne(es, e);
      PairsOfRest(es);
      if es[0].Name() == e.Name() {
        assert m[1..] == es[1..];
      } else {
        TotalOfMergeOne(es[1..], e);
        assert m[1..] == MergeOne(es[1..], e);
      }
    }
  }

  lemma {:induction false} MergeNeverInvents(es: seq<Entry>, items: seq<Entry>)
    ensures Total(MergeAll(es, items)) <= Total(es) + Total(items)
    decreases items
  {
    if items != [] {
      TotalOfMergeOne(es, items[0]);
      MergeNeverInvents(MergeOne(es, items[0]), items[1..]);
    }
  }

  /** Merging keeps all records if and only if no variable is in two groups. */
  lemma {:induction false} MergeConservesRecords(es: seq<Entry>, items: seq<Entry>)
    requires OneGroupEach(Pairs(es)) && forall i | 0 <= i < |items| :: items[i].chars != []
    ensures Total(MergeAll(es, items)) == Total(es) + Total(items) <==> OneGroupEach(Pairs(es) + Pairs(items))
    decreases items
  {
    if items != [] {
      var e, m := items[0], MergeOne(es, items[0]);
      PairsOfRest(items);
      TotalOfMergeOne(es, e);
      MergeNeverInvents(m, items[1..]);
      if OneGroupEach(Pairs(es) + {(e.Name(), e.groupName)}) {
        PairsOfMergeOne(es, e);
        assert Pairs(m) + Pairs(items[1..]) == Pairs(es) + Pairs(items);
        MergeConservesRecords(m, items[1..]);
      } else {
        assert Pairs(es) + {(e.Name(), e.groupName)} <= Pairs(es) + Pairs(items);
      }
    }
  }
}
