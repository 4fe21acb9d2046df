/** Singly linked lists in memory: nodes are numbered, and `next` gives the node after each one. */
module LinkedList {

  const NULL: int := -1

  function At(ids: seq<nat>, i: nat): int {
    if i < |ids| then ids[i] else NULL
  }

  /** From `root`, the links run through exactly these nodes and end. */
  ghost predicate IsList(next: seq<int>, root: int, ids: seq<nat>) {
    root == At(ids, 0) && Linked(next, ids, 0)
  }

  /** The nodes from number i on are linked to one another, and the last one to nothing. */
  ghost predicate Linked(next: seq<int>, ids: seq<nat>, i: nat) {
    && (forall j | 0 <= j < |ids| :: ids[j] < |next|)
    && (forall j {:trigger next[ids[j]]} | i <= j < |ids| :: next[ids[j]] == At(ids, j + 1))
  }

  /** A list that ends has no node twice. */
  lemma {:induction false} NoNodeTwice(next: seq<int>, ids: seq<nat>, i: nat, j: nat)
    requires Linked(next, ids, i) && i < j < |ids|
    ensures ids[i] != ids[j]
    decreases |ids| - j
  {
    assert next[ids[i]] == At(ids, i + 1) && next[ids[j]] == At(ids, j + 1);
    if j + 1 < |ids| { NoNodeTwice(next, ids, i + 1, j + 1); }
  }

  lemma SameNode(next: seq<int>, root: int, ids: seq<nat>, i: nat, j: nat)
    requires IsList(next, root, ids) && i < |ids| && j < |ids|
    ensures ids[i] == ids[j] <==> i == j
  {
    if i < j { NoNodeTwice(next, ids, i, j); }
    if j < i { NoNodeTwice(next, ids, j, i); }
  }

  /** A list does not come back to its first node after two steps. */
  lemma NoShortCycle(next: seq<int>, root: nat, l: seq<nat>)
    requires IsList(next, root, l) && root < |next| && 0 <= next[root] < |next|
    ensures next[next[root]] != root
  {
    assert next[l[0]] == At(l, 1) && next[l[1]] == At(l, 2);
    if |l| > 2 { NoNodeTwice(next, l, 0, 2); }
  }

  /** A node linked in behind node k - 1. */
  lemma Relinked(next: seq<int>, next': seq<int>, root: nat, ids: seq<nat>, x: nat, k: nat)
    requires IsList(next, root, ids) && 0 < k <= |ids| && x < |next| && x !in ids
    requires next' == next[ids[k - 1] := x][x := At(ids, k)]
    ensures IsList(next', root, ids[..k] + [x] + ids[k..])
  {
    var grown := ids[..k] + [x] + ids[k..];
    forall j | 0 <= j < |grown| ensures next'[grown[j]] == At(grown, j + 1) { RelinkedAt(next, root, ids, x, k, j); }
  }

  lemma RelinkedAt(next: seq<int>, root: nat, ids: seq<nat>, x: nat, k: nat, j: nat)
    requires IsList(next, root, ids) && 0 < k <= |ids| && x < |next| && x !in ids && j <= |ids|
    ensures var grown := ids[..k] + [x] + ids[k..]; next[ids[k - 1] := x][x := At(ids, k)][grown[j]] == At(grown, j + 1)
  {
    if j != k {
      var i := if j < k then j else j - 1;
      SameNode(next, root, ids, i, k - 1);
      assert next[ids[i]] == At(ids, i + 1);
    }
  }

  /** A node linked in behind the last one. */
  lemma Appended(next: seq<int>, root: nat, ids: seq<nat>, x: nat)
    requires IsList(next, root, ids) && ids != [] && x < |next| && x !in ids
    ensures IsList(next[x := NULL][ids[|ids| - 1] := x], root, ids + [x])
  {
    var last := |ids| - 1;
    assert next[x := NULL][ids[last] := x] == next[ids[last] := x][x := NULL];
    Relinked(next, next[ids[last] := x][x := NULL], root, ids, x, |ids|);
    assert ids[..|ids|] + [x] + ids[|ids|..] == ids + [x];
  }

  /** A node outside a list does not matter to it. */
  lemma OtherNode(next: seq<int>, root: int, ids: seq<nat>, x: nat, link: int)
    requires IsList(next, root, ids) && x < |next| && x !in ids
    ensures IsList(next[x := link], root, ids)
  {}
}
