/** All runs of the process group sort, also those that do not end: src/core/adios_internals.c:2448-2486. */
module PgSortRuns {
  import opened LinkedList
  import opened StableSort
  import opened PgSort

  /** Between two insertions, or on the walk along the new list. */
  datatype Walk = Idle | On(node: int, prev: int)

  /** Links, the head of the new list, the next group to be moved, and the walk. */
  datatype State = State(next: seq<int>, root: int, p1: int, walk: Walk)

  ghost predicate Known(times: seq<nat>, ids: seq<nat>) {
    forall i | 0 <= i < |ids| :: ids[i] < |times|
  }

  ghost predicate InRange(link: int, n: nat) { NULL <= link < n }

  ghost predicate Wf(s: State, times: seq<nat>) {
    && |s.next| == |times| && (forall i | 0 <= i < |s.next| :: InRange(s.next[i], |times|))
    && InRange(s.root, |times|) && InRange(s.p1, |times|)
    && (s.walk.On? ==> InRange(s.walk.node, |times|) && 0 <= s.walk.prev < |times| && 0 <= s.p1)
  }

  /** One step of the source's loops; nothing happens any more when all groups have been moved. */
  ghost function Step(s: State, times: seq<nat>): (s': State)
    requires Wf(s, times)
    ensures Wf(s', times)
  {
    match s.walk
    case Idle =>
      if s.p1 == NULL then s
      else if s.root == NULL then State(s.next[s.p1 := NULL], s.p1, s.next[s.p1], Idle)
      else s.(walk := On(s.root, s.root))
    case On(node, prev) =>
      if node != NULL && times[s.p1] >= times[node] then s.(walk := On(s.next[node], node))
      else if node == NULL then
        var linked := s.next[prev := s.p1];
        State(linked[s.p1 := NULL], s.root, linked[s.p1], Idle)
      else State(s.next[s.p1 := node][prev := s.p1], s.root, s.next[s.p1], Idle)
  }

  ghost function Run(s: State, times: seq<nat>, n: nat): (s': State)
    requires Wf(s, times)
    ensures Wf(s', times)
    decreases n
  {
    if n == 0 then s else Run(Step(s, times), times, n - 1)
  }

  ghost predicate Done(s: State) { s.walk.Idle? && s.p1 == NULL }

  lemma {:induction false} RunPlus(s: State, times: seq<nat>, a: nat, b: nat)
    requires Wf(s, times)
    ensures Run(s, times, a + b) == Run(Run(s, times, a), times, b)
    decreases a
  {
    if a > 0 { RunPlus(Step(s, times), times, a - 1, b); }
  }

  lemma {:induction false} DoneStays(s: State, times: seq<nat>, n: nat)
    requires Wf(s, times) && Done(s)
    ensures Run(s, times, n) == s
    decreases n
  {
    if n > 0 { DoneStays(s, times, n - 1); }
  }

  // ---- Insertions into a list that ends.

  function Prev(ids: seq<nat>, k: nat): int
    requires ids != [] && k <= |ids|
  {
    if k == 0 then ids[0] else ids[k - 1]
  }

  ghost predicate AllUpTo(ids: seq<nat>, times: seq<nat>, x: nat, k: nat) {
    k <= |ids| && x < |times| && forall i | 0 <= i < k :: ids[i] < |times| && times[ids[i]] <= times[x]
  }

  lemma {:induction false} WalkTo(s: State, times: seq<nat>, ids: seq<nat>, j: nat, k: nat)
    requires Wf(s, times) && IsList(s.next, s.root, ids) && ids != [] && j <= k && s.p1 >= 0
    requires AllUpTo(ids, times, s.p1, k)
    requires s.walk == On(At(ids, j), Prev(ids, j))
    ensures Run(s, times, k - j) == s.(walk := On(At(ids, k), Prev(ids, k)))
    decreases k - j
  {
    if j < k {
      assert s.next[ids[j]] == At(ids, j + 1);
      WalkTo(s.(walk := On(At(ids, j + 1), Prev(ids, j + 1))), times, ids, j + 1, k);
    }
  }

  /** A whole insertion: to the head, along the list, and the linking. */
  lemma InsertRun(s: State, times: seq<nat>, ids: seq<nat>, k: nat)
    requires Wf(s, times) && s.walk == Idle && IsList(s.next, s.root, ids) && ids != [] && s.p1 >= 0 && s.p1 !in ids
    requires 0 < k <= |ids| && AllUpTo(ids, times, s.p1, k) && (k < |ids| ==> times[s.p1] < times[ids[k]])
    ensures Run(s, times, k + 2) == State(s.next[ids[k - 1] := s.p1][s.p1 := At(ids, k)], s.root, s.next[s.p1], Idle)
  {
    var a := s.(walk := On(s.root, s.root));
    var b := s.(walk := On(At(ids, k), ids[k - 1]));
    WalkTo(a, times, ids, 0, k);
    RunPlus(a, times, k, 1);
    assert Run(b, times, 1) == Step(b, times);
    assert s.next[s.p1 := At(ids, k)][ids[k - 1] := s.p1] == s.next[ids[k - 1] := s.p1][s.p1 := At(ids, k)];
  }

  lemma FirstRun(s: State, times: seq<nat>)
    requires Wf(s, times) && s.walk == Idle && s.root == NULL && s.p1 >= 0
    ensures Run(s, times, 1) == State(s.next[s.p1 := NULL], s.p1, s.next[s.p1], Idle)
  {
    assert Run(Step(s, times), times, 0) == Step(s, times);
  }

  function Start(next: seq<int>, root: int): State {
    State(next, NULL, root, Idle)
  }

  lemma PlaceOf(sorted: seq<nat>, times: seq<nat>, x: nat) returns (k: nat)
    requires x < |times| && forall i | 0 <= i < |sorted| :: sorted[i] < |times|
    ensures IsPlace(sorted, times, x, k) && AllUpTo(sorted, times, x, k)
    ensures sorted != [] && times[sorted[0]] <= times[x] ==> k > 0
  {
    k := 0;
    while k < |sorted| && times[sorted[k]] <= times[x]
      invariant AllUpTo(sorted, times, x, k)
    {
      k := k + 1;
    }
  }

  /** The run has moved the first i groups, none of them earlier than the first, and is between two insertions. */
  ghost predicate Moved(s: State, times: seq<nat>, sorted: seq<nat>, ids: seq<nat>, i: nat) {
    Wf(s, times) && s.walk == Idle && s.p1 == At(ids, i) && Progress(s.next, s.root, sorted, times, ids, i)
  }

  lemma MoveNext(s: State, times: seq<nat>, sorted: seq<nat>, ids: seq<nat>, i: nat) returns (n: nat, sorted': seq<nat>)
    requires Moved(s, times, sorted, ids, i) && i < |ids| && times[ids[0]] <= times[ids[i]]
    ensures Moved(Run(s, times, n), times, sorted', ids, i + 1)
  {
    if i == 0 {
      FirstRun(s, times);
      ProgressFirst(s.next, s.root, times, ids);
      n, sorted' := 1, [ids[0]];
    } else {
      var x := ids[i];
      var k := PlaceOf(sorted, times, x);
      InsertRun(s, times, sorted, k);
      ProgressNext(s.next, s.root, sorted, times, ids, i, k);
      n, sorted' := k + 2, sorted[..k] + [x] + sorted[k..];
    }
  }

  lemma {:induction false} MoveMany(s: State, times: seq<nat>, ids: seq<nat>, i: nat) returns (n: nat, sorted: seq<nat>)
    requires Moved(s, times, [], ids, 0) && i <= |ids| && forall j | 0 <= j < i :: times[ids[0]] <= times[ids[j]]
    ensures Moved(Run(s, times, n), times, sorted, ids, i)
    decreases i
  {
    if i == 0 {
      n, sorted := 0, [];
    } else {
      var m, list := MoveMany(s, times, ids, i - 1);
      var k;
      k, sorted := MoveNext(Run(s, times, m), times, list, ids, i - 1);
      RunPlus(s, times, m, k);
      n := m + k;
    }
  }

  // ---- After an insertion before the head.

  /** The head and node c are linked to each other; the groups from number i on are still to be moved. */
  ghost predicate Cycle(s: State, times: seq<nat>, ids: seq<nat>, i: nat, c: nat) {
    && Wf(s, times) && s.walk == Idle && 0 < i <= |ids| && s.root == ids[0] && c < |times| && Linked(s.next, ids, i)
    && s.next[ids[0]] == c && s.next[c] == ids[0] && times[c] < times[ids[0]] && s.p1 == At(ids, i)
    && (forall j | i <= j < |ids| :: ids[j] != ids[0] && ids[j] != c)
  }

  /** A group that is earlier than the head is linked in behind it, and the head behind the group. */
  lemma EarlyRun(s: State, times: seq<nat>)
    requires Wf(s, times) && s.walk == Idle && s.p1 >= 0 && s.root >= 0 && times[s.p1] < times[s.root]
    ensures Run(s, times, 2) == State(s.next[s.p1 := s.root][s.root := s.p1], s.root, s.next[s.p1], Idle)
  {
    var a := Step(s, times);
    assert Run(a, times, 1) == Run(Step(a, times), times, 0);
  }

  lemma CycleLinks(next: seq<int>, ids: seq<nat>, i: nat, next': seq<int>)
    requires Linked(next, ids, i) && 0 < i < |ids| && (forall j | i <= j < |ids| :: ids[j] != ids[0])
    requires next' == next[ids[i] := ids[0]][ids[0] := ids[i]]
    ensures next[ids[i]] == At(ids, i + 1) && Linked(next', ids, i + 1) && forall j | i < j < |ids| :: ids[j] != ids[i]
  {
    forall j | i < j < |ids| ensures ids[j] != ids[i] { NoNodeTwice(next, ids, i, j); }
    forall j | i < j < |ids| ensures next'[ids[j]] == At(ids, j + 1) { assert next[ids[j]] == At(ids, j + 1); }
  }

  lemma CycleStarts(s: State, times: seq<nat>, sorted: seq<nat>, ids: seq<nat>, i: nat)
    requires Moved(s, times, sorted, ids, i) && 0 < i < |ids| && times[ids[i]] < times[ids[0]]
    ensures Cycle(Run(s, times, 2), times, ids, i + 1, ids[i])
  {
    assert sorted[0] in sorted;
    EarlyRun(s, times);
    CycleLinks(s.next, ids, i, s.next[ids[i] := ids[0]][ids[0] := ids[i]]);
  }

  lemma CycleGoesOn(s: State, times: seq<nat>, ids: seq<nat>, i: nat, c: nat)
    requires Cycle(s, times, ids, i, c) && i < |ids| && times[ids[i]] < times[ids[0]]
    ensures Cycle(Run(s, times, 2), times, ids, i + 1, ids[i])
  {
    EarlyRun(s, times);
    CycleLinks(s.next, ids, i, s.next[ids[i] := ids[0]][ids[0] := ids[i]]);
  }

  /** The walk goes round in the cycle: the group is not earlier than either node of it. */
  ghost predicate Stuck(s: State, times: seq<nat>, c: int) {
    && Wf(s, times) && s.walk.On? && s.root >= 0 && 0 <= c < |times| && s.next[s.root] == c && s.next[c] == s.root
    && times[s.p1] >= times[s.root] >= times[c] && (s.walk.node == s.root || s.walk.node == c)
  }

  lemma {:induction false} StuckForever(s: State, times: seq<nat>, c: int, n: nat)
    requires Stuck(s, times, c)
    ensures !Done(Run(s, times, n))
    decreases n
  {
    if n > 0 { StuckForever(Step(s, times), times, c, n - 1); }
  }

  /** No group that is not earlier than the first comes after number i. */
  ghost predicate AllEarly(times: seq<nat>, ids: seq<nat>, i: nat)
    requires Known(times, ids)
  {
    forall j | i <= j < |ids| :: times[ids[j]] < times[ids[0]]
  }

  /** From a cycle the run ends only if all later groups are early too, and then with a cycle. */
  lemma {:induction false} CycleRun(s: State, times: seq<nat>, ids: seq<nat>, i: nat, c: nat, n: nat)
    requires Cycle(s, times, ids, i, c) && Done(Run(s, times, n))
    ensures AllEarly(times, ids, i)
    ensures forall l :: !IsList(Run(s, times, n).next, Run(s, times, n).root, l)
    decreases |ids| - i
  {
    if i == |ids| {
      DoneStays(s, times, n);
      NeverAList(s.next, ids[0], c);
    } else {
      var a := Step(s, times);
      if times[ids[i]] >= times[ids[0]] {
        StuckForever(a, times, c, if n == 0 then 0 else n - 1);
      } else {
        assert n >= 2 by { assert Run(a, times, 0) == a; }
        RunPlus(s, times, 2, n - 2);
        CycleGoesOn(s, times, ids, i, c);
        CycleRun(Run(s, times, 2), times, ids, i + 1, ids[i], n - 2);
      }
    }
  }

  lemma {:induction false} CycleEnds(s: State, times: seq<nat>, ids: seq<nat>, i: nat, c: nat) returns (n: nat)
    requires Cycle(s, times, ids, i, c) && AllEarly(times, ids, i)
    ensures Done(Run(s, times, n))
    decreases |ids| - i
  {
    if i == |ids| {
      n := 0;
    } else {
      CycleGoesOn(s, times, ids, i, c);
      var m := CycleEnds(Run(s, times, 2), times, ids, i + 1, ids[i]);
      RunPlus(s, times, 2, m);
      n := 2 + m;
    }
  }

  // ---- The whole sort.

  ghost predicate NoneEarlier(times: seq<nat>, ids: seq<nat>)
    requires Known(times, ids)
  {
    forall i | 0 <= i < |ids| :: times[ids[0]] <= times[ids[i]]
  }

  /** The list to be sorted, in memory where all links stay inside. */
  ghost predicate Input(next: seq<int>, root: int, times: seq<nat>, ids: seq<nat>) {
    Wf(Start(next, root), times) && IsList(next, root, ids)
  }

  lemma StartMoved(next: seq<int>, root: int, times: seq<nat>, ids: seq<nat>)
    requires Input(next, root, times, ids)
    ensures Moved(Start(next, root), times, [], ids, 0)
  {}

  /** The first group that is earlier than the head. */
  lemma FirstEarly(times: seq<nat>, ids: seq<nat>) returns (i: nat)
    requires Known(times, ids) && !NoneEarlier(times, ids)
    ensures 0 < i < |ids| && times[ids[i]] < times[ids[0]] && forall j | 0 <= j < i :: times[ids[0]] <= times[ids[j]]
  {
    i := 0;
    while times[ids[0]] <= times[ids[i]]
      invariant i < |ids| && forall j | 0 <= j < i :: times[ids[0]] <= times[ids[j]]
      invariant exists j :: i <= j < |ids| && times[ids[0]] > times[ids[j]]
      decreases |ids| - i
    {
      i := i + 1;
    }
  }

  /** A run up to the first early group and through its insertion. */
  lemma ReachCycle(next: seq<int>, root: int, times: seq<nat>, ids: seq<nat>) returns (n: nat, i: nat)
    requires Input(next, root, times, ids) && !NoneEarlier(times, ids)
    ensures 0 < i < |ids| && times[ids[i]] < times[ids[0]] && forall j | 0 <= j < i :: times[ids[0]] <= times[ids[j]]
    ensures Cycle(Run(Start(next, root), times, n), times, ids, i + 1, ids[i])
  {
    i := FirstEarly(times, ids);
    StartMoved(next, root, times, ids);
    var m, sorted := MoveMany(Start(next, root), times, ids, i);
    CycleStarts(Run(Start(next, root), times, m), times, sorted, ids, i);
    RunPlus(Start(next, root), times, m, 2);
    n := m + 2;
  }

  /** A run that has ended stays where it is, so any later state is the end. */
  lemma SameEnd(s: State, times: seq<nat>, a: nat, b: nat)
    requires Wf(s, times) && Done(Run(s, times, a)) && a <= b
    ensures Run(s, times, b) == Run(s, times, a)
  {
    RunPlus(s, times, a, b - a);
    DoneStays(Run(s, times, a), times, b - a);
  }

  /** With an early group, the run ends only if all groups after it are early too, and never with a list. */
  lemma EarlySpoils(next: seq<int>, root: int, times: seq<nat>, ids: seq<nat>, n: nat) returns (i: nat)
    requires Input(next, root, times, ids) && !NoneEarlier(times, ids) && Done(Run(Start(next, root), times, n))
    ensures 0 < i < |ids| && AllEarly(times, ids, i) && forall j | 0 <= j < i :: times[ids[0]] <= times[ids[j]]
    ensures forall l :: !IsList(Run(Start(next, root), times, n).next, Run(Start(next, root), times, n).root, l)
  {
    var m;
    m, i := ReachCycle(next, root, times, ids);
    var s := Start(next, root);
    SameEnd(s, times, n, n + m);
    RunPlus(s, times, m, n);
    CycleRun(Run(s, times, m), times, ids, i + 1, ids[i], n);
  }

  /** Without one, the run ends with the stable sort. */
  lemma RunSorts(next: seq<int>, root: int, times: seq<nat>, ids: seq<nat>) returns (n: nat, sorted: seq<nat>)
    requires Input(next, root, times, ids) && NoneEarlier(times, ids)
    ensures Sorts(next, root, times, ids, n, sorted)
  {
    StartMoved(next, root, times, ids);
    n, sorted := MoveMany(Start(next, root), times, ids, |ids|);
    assert ids[..|ids|] == ids;
  }

  /** After n steps the sort has ended, and its list runs through `sorted`, the stable sort of the groups. */
  ghost predicate Sorts(next: seq<int>, root: int, times: seq<nat>, ids: seq<nat>, n: nat, sorted: seq<nat>) {
    && Ends(next, root, times, n)
    && IsList(Run(Start(next, root), times, n).next, Run(Start(next, root), times, n).root, sorted)
    && StablySorted(sorted, ids, TimeOf(times))
  }

  /** After n steps the sort has ended with a list that ends, whatever is in it. */
  ghost predicate EndsWithList(next: seq<int>, root: int, times: seq<nat>, n: nat, l: seq<nat>) {
    && Ends(next, root, times, n)
    && IsList(Run(Start(next, root), times, n).next, Run(Start(next, root), times, n).root, l)
  }

  /**
   The sort ends with a proper list if and only if no group is earlier than the first, and then it is the stable sort.
   */
  lemma SortsIff(next: seq<int>, root: int, times: seq<nat>, ids: seq<nat>)
    requires Input(next, root, times, ids)
    ensures (exists n, l :: EndsWithList(next, root, times, n, l)) <==> NoneEarlier(times, ids)
    ensures (exists n, l :: Sorts(next, root, times, ids, n, l)) <==> NoneEarlier(times, ids)
  {
    if NoneEarlier(times, ids) {
      var n, sorted := RunSorts(next, root, times, ids);
      assert EndsWithList(next, root, times, n, sorted);
    } else {
      forall n, l ensures !EndsWithList(next, root, times, n, l) {
        if EndsWithList(next, root, times, n, l) { var i := EarlySpoils(next, root, times, ids, n); }
      }
      forall n, l ensures !Sorts(next, root, times, ids, n, l) {
        assert !EndsWithList(next, root, times, n, l);
      }
    }
  }

  /** No group that is not earlier than the first comes after one that is. */
  ghost predicate EarlyOnesLast(times: seq<nat>, ids: seq<nat>)
    requires Known(times, ids)
  {
    forall i, j | 0 <= i < j < |ids| :: times[ids[i]] < times[ids[0]] ==> times[ids[j]] < times[ids[0]]
  }

  /** After n steps the sort has ended. */
  ghost predicate Ends(next: seq<int>, root: int, times: seq<nat>, n: nat) {
    Wf(Start(next, root), times) && Done(Run(Start(next, root), times, n))
  }

  /** The sort ends at all if and only if no group that is not earlier than the first comes after one that is. */
  lemma EndsIff(next: seq<int>, root: int, times: seq<nat>, ids: seq<nat>)
    requires Input(next, root, times, ids)
    ensures (exists n :: Ends(next, root, times, n)) <==> EarlyOnesLast(times, ids)
  {
    if NoneEarlier(times, ids) {
      var n, sorted := RunSorts(next, root, times, ids);
      assert Ends(next, root, times, n);
      LastFrom(times, ids, |ids|);
    } else {
      var m, i := ReachCycle(next, root, times, ids);
      var s := Start(next, root);
      if EarlyOnesLast(times, ids) {
        var k := CycleEnds(Run(s, times, m), times, ids, i + 1, ids[i]);
        RunPlus(s, times, m, k);
        assert Ends(next, root, times, m + k);
      }
      forall n | Ends(next, root, times, n) ensures EarlyOnesLast(times, ids) {
        var j := EarlySpoils(next, root, times, ids, n);
        LastFrom(times, ids, j);
      }
    }
  }

  lemma LastFrom(times: seq<nat>, ids: seq<nat>, k: nat)
    requires Known(times, ids) && k <= |ids| && AllEarly(times, ids, k)
    requires forall j | 0 <= j < k :: times[ids[0]] <= times[ids[j]]
    ensures EarlyOnesLast(times, ids)
  {
    forall i, j | 0 <= i < j < |ids| && times[ids[i]] < times[ids[0]]
      ensures times[ids[j]] < times[ids[0]]
    {
      assert i >= k;
    }
  }
}
