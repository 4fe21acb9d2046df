/** The process group part of adios_sort_index_v1: src/core/adios_internals.c:2448-2486. */
module PgSort {
  import opened Seqs
  import opened LinkedList
  import opened StableSort

  /** Time index of each node. */
  ghost function TimeOf(times: seq<nat>): nat -> nat {
    (n: nat) => if n < |times| then times[n] else 0
  }

  /** The place of x: after the nodes that are not later, before the first later one. */
  ghost predicate IsPlace(ids: seq<nat>, times: seq<nat>, x: nat, k: nat)
    requires x < |times| && forall i | 0 <= i < |ids| :: ids[i] < |times|
  {
    && k <= |ids|
    && (forall i | 0 <= i < k :: times[ids[i]] <= times[x])
    && (k < |ids| ==> times[x] < times[ids[k]])
  }

  /**
   The walk along the new list: the first node later than x, and the one before it (the head itself if there is none).
   */
  method FindPlace(next: seq<int>, root: nat, times: seq<nat>, x: nat, ghost ids: seq<nat>)
    returns (node: int, prev: nat, ghost k: nat)
    requires IsList(next, root, ids) && ids != [] && |times| == |next| && x < |next|
    ensures IsPlace(ids, times, x, k)
    ensures node == At(ids, k) && prev == ids[if k == 0 then 0 else k - 1]
  {
    node, prev, k := root, root, 0;
    while node != NULL && times[x] >= times[node]
      invariant k <= |ids| && node == At(ids, k) && prev == ids[if k == 0 then 0 else k - 1]
      invariant forall i | 0 <= i < k :: times[ids[i]] <= times[x]
      decreases |ids| - k
    {
      prev := node;
      assert next[ids[k]] == At(ids, k + 1);
      node := next[node];
      k := k + 1;
    }
  }

  /** One round of the insertion: links x in where FindPlace says. */
  method InsertNode(next: seq<int>, root: nat, times: seq<nat>, x: nat, ghost ids: seq<nat>)
    returns (next': seq<int>, ghost k: nat)
    requires IsList(next, root, ids) && ids != [] && |times| == |next| && x < |next| && x !in ids
    ensures IsPlace(ids, times, x, k) && |next'| == |next|
    // the list grows by x, unless x is earlier than the head: then head and x form a cycle
    ensures times[root] <= times[x] ==> k > 0 && next' == next[ids[k - 1] := x][x := At(ids, k)]
    ensures times[root] <= times[x] ==> IsList(next', root, ids[..k] + [x] + ids[k..])
    ensures times[root] > times[x] ==> next' == next[x := root][root := x]
    ensures (exists l :: IsList(next', root, l)) <==> times[root] <= times[x]
  {
    var node, prev;
    node, prev, k := FindPlace(next, root, times, x, ids);
    if node == NULL {
      next' := next[prev := x][x := NULL];
    } else {
      next' := next[x := node][prev := x];
    }
    if times[root] <= times[x] {
      Relinked(next, next', root, ids, x, k);
    } else {
      NeverAList(next', root, x);
    }
  }

  /** Two nodes linked to each other are not a list that ends. */
  lemma NeverAList(next: seq<int>, root: nat, x: nat)
    requires root < |next| && x < |next| && next[root] == x && next[x] == root
    ensures forall l :: !IsList(next, root, l)
  {
    forall l ensures !IsList(next, root, l) {
      if IsList(next, root, l) { NoShortCycle(next, root, l); }
    }
  }

  /** Inserting after the equal and earlier nodes keeps the list sorted and equal nodes in order. */
  lemma InsertedSorted(ids: seq<nat>, times: seq<nat>, x: nat, k: nat, before: seq<nat>)
    requires x < |times| && (forall i | 0 <= i < |ids| :: ids[i] < |times|) && IsPlace(ids, times, x, k)
    requires StablySorted(ids, before, TimeOf(times))
    ensures StablySorted(ids[..k] + [x] + ids[k..], before + [x], TimeOf(times))
  {
    LaterAfterPlace(ids, times, x, k);
    SortedInsert(ids, times, x, k);
    forall t ensures WithKey(ids[..k] + [x] + ids[k..], TimeOf(times), t) == WithKey(before + [x], TimeOf(times), t) {
      SameAt(ids, before, TimeOf(times), t);
      InsertedWithKey(ids, times, x, k, t);
      WithKeyConcat(before, [x], TimeOf(times), t);
    }
  }

  lemma LaterAfterPlace(ids: seq<nat>, times: seq<nat>, x: nat, k: nat)
    requires x < |times| && (forall i | 0 <= i < |ids| :: ids[i] < |times|) && IsPlace(ids, times, x, k)
    requires Sorted(ids, TimeOf(times))
    ensures forall i | k <= i < |ids| :: times[x] < times[ids[i]]
  {
    forall i | k <= i < |ids| ensures times[x] < times[ids[i]] {
      assert i == k || TimeOf(times)(ids[k]) <= TimeOf(times)(ids[i]);
    }
  }

  lemma InsertedWithKey(ids: seq<nat>, times: seq<nat>, x: nat, k: nat, t: nat)
    requires x < |times| && k <= |ids| && (forall i | 0 <= i < |ids| :: ids[i] < |times|)
    requires forall i | k <= i < |ids| :: times[x] < times[ids[i]]
    ensures WithKey(ids[..k] + [x] + ids[k..], TimeOf(times), t)
      == WithKey(ids, TimeOf(times), t) + WithKey([x], TimeOf(times), t)
  {
    var time := TimeOf(times);
    WithKeyConcat(ids[..k] + [x], ids[k..], time, t);
    WithKeyConcat(ids[..k], [x], time, t);
    WithKeyConcat(ids[..k], ids[k..], time, t);
    assert ids[..k] + ids[k..] == ids;
    if t == time(x) { NoneWithKey(ids[k..], time, t); } else { NoneWithKey([x], time, t); }
    Exchange(WithKey(ids[..k], time, t), WithKey([x], time, t), WithKey(ids[k..], time, t));
  }

  lemma SortedInsert(ids: seq<nat>, times: seq<nat>, x: nat, k: nat)
    requires x < |times| && (forall i | 0 <= i < |ids| :: ids[i] < |times|) && IsPlace(ids, times, x, k)
    requires Sorted(ids, TimeOf(times)) && forall i | k <= i < |ids| :: times[x] < times[ids[i]]
    ensures Sorted(ids[..k] + [x] + ids[k..], TimeOf(times))
  {}

  /** The state of the sort after i nodes: they form the new list, and the others are linked as they were. */
  ghost predicate Progress(next: seq<int>, root: int, sorted: seq<nat>, times: seq<nat>, ids: seq<nat>, i: nat) {
    && i <= |ids| && |next| == |times| && IsList(next, root, sorted) && StablySorted(sorted, ids[..i], TimeOf(times))
    && Apart(next, sorted, ids, i)
    && (if i == 0 then sorted == [] else sorted != [] && sorted[0] == ids[0])
  }

  /** The nodes from number i on are still linked to one another, and are not in the new list. */
  ghost predicate Apart(next: seq<int>, sorted: seq<nat>, ids: seq<nat>, i: nat) {
    Linked(next, ids, i) && forall j | i <= j < |ids| :: ids[j] !in sorted
  }

  /** Moving node i changes the links of list nodes and of its own only. */
  lemma ApartNext(next: seq<int>, next': seq<int>, sorted: seq<nat>, sorted': seq<nat>, ids: seq<nat>, i: nat)
    requires Apart(next, sorted, ids, i) && i < |ids| && |next'| == |next|
    requires forall n | 0 <= n < |next| && n != ids[i] && n !in sorted :: next'[n] == next[n]
    requires forall n | n in sorted' :: n in sorted || n == ids[i]
    ensures Apart(next', sorted', ids, i + 1)
  {
    forall j | i < j < |ids| ensures ids[j] != ids[i] { NoNodeTwice(next, ids, i, j); }
    forall j | i < j < |ids| ensures next'[ids[j]] == At(ids, j + 1) { assert next[ids[j]] == At(ids, j + 1); }
  }

  lemma ProgressFirst(next: seq<int>, root: int, times: seq<nat>, ids: seq<nat>)
    requires Progress(next, root, [], times, ids, 0) && ids != []
    ensures next[ids[0]] == At(ids, 1) && Progress(next[ids[0] := NULL], ids[0], [ids[0]], times, ids, 1)
  {
    var x := ids[0];
    assert next[ids[0]] == At(ids, 1);
    ApartNext(next, next[x := NULL], [], [x], ids, 0);
    assert ids[..1] == [x];
  }

  lemma ProgressNext(next: seq<int>, root: int, sorted: seq<nat>, times: seq<nat>, ids: seq<nat>, i: nat, k: nat)
    requires Progress(next, root, sorted, times, ids, i) && 0 < i < |ids| && 0 < k && IsPlace(sorted, times, ids[i], k)
    ensures next[ids[i]] == At(ids, i + 1)
    ensures Progress(next[sorted[k - 1] := ids[i]][ids[i] := At(sorted, k)], root, sorted[..k] + [ids[i]] + sorted[k..],
                     times, ids, i + 1)
  {
    var x := ids[i];
    var next', grown := next[sorted[k - 1] := x][x := At(sorted, k)], sorted[..k] + [x] + sorted[k..];
    Relinked(next, next', root, sorted, x, k);
    InsertedSorted(sorted, times, x, k, ids[..i]);
    assert ids[..i + 1] == ids[..i] + [x];
    ApartNext(next, next', sorted, grown, ids, i);
  }

  /** One round of the sort. */
  method SortStep(next0: seq<int>, root0: int, times: seq<nat>, x: nat, ghost list: seq<nat>, ghost ids: seq<nat>,
                  ghost i: nat)
    returns (next: seq<int>, root: int, ghost sorted: seq<nat>)
    requires Progress(next0, root0, list, times, ids, i) && i < |ids| && x == ids[i] && times[ids[0]] <= times[x]
    ensures Progress(next, root, sorted, times, ids, i + 1)
  {
    if root0 == NULL {
      ProgressFirst(next0, root0, times, ids);
      root := x;
      next := next0[x := NULL];
      sorted := [x];
    } else {
      ghost var k;
      root := root0;
      next, k := InsertNode(next0, root, times, x, list);
      ProgressNext(next0, root, list, times, ids, i, k);
      sorted := list[..k] + [x] + list[k..];
    }
  }

  /**
   The insertion sort of the process groups, when none of them is earlier than the first: the new
   list has all of them, sorted stably, and no cycle.
   */
  method SortProcessGroups(next0: seq<int>, root0: int, times: seq<nat>, ghost ids: seq<nat>)
    returns (next: seq<int>, root: int)
    requires IsList(next0, root0, ids) && |times| == |next0|
    requires forall i | 0 <= i < |ids| :: times[ids[0]] <= times[ids[i]]
    ensures exists sorted :: IsList(next, root, sorted) && StablySorted(sorted, ids, TimeOf(times))
  {
    var p1 := root0;
    ghost var sorted: seq<nat>, i := [], 0;
    next, root := next0, NULL;
    while p1 != NULL
      invariant Progress(next, root, sorted, times, ids, i) && p1 == At(ids, i)
      decreases |ids| - i
    {
      var x: nat := p1;
      assert next[ids[i]] == At(ids, i + 1);
      p1 := next[x];
      next, root, sorted := SortStep(next, root, times, x, sorted, ids, i);
      i := i + 1;
    }
    assert ids[..|ids|] == ids;
  }
}
