/** What it means to be sorted stably by a key. */
module StableSort {
  import opened Seqs

  /** The elements with key t, in order. */
  ghost function WithKey<T>(s: seq<T>, key: T -> nat, t: nat): seq<T> {
    if s == [] then [] else (if key(s[0]) == t then [s[0]] else []) + WithKey(s[1..], key, t)
  }

  ghost predicate Sorted<T>(s: seq<T>, key: T -> nat) {
    forall i, j | 0 <= i < j < |s| :: key(s[i]) <= key(s[j])
  }

  /** For each key, the same elements in the same order. */
  ghost predicate SameKeys<T>(a: seq<T>, b: seq<T>, key: T -> nat) {
    forall t :: WithKey(a, key, t) == WithKey(b, key, t)
  }

  lemma SameAt<T>(a: seq<T>, b: seq<T>, key: T -> nat, t: nat)
    requires SameKeys(a, b, key)
    ensures WithKey(a, key, t) == WithKey(b, key, t)
  {}

  /** `now` is `before`, sorted, with elements of equal keys in their old order. */
  ghost predicate StablySorted<T>(now: seq<T>, before: seq<T>, key: T -> nat) {
    Sorted(now, key) && SameKeys(now, before, key)
  }

  lemma SameHead<T>(x: T, u: seq<T>, y: T, v: seq<T>)
    requires [x] + u == [y] + v
    ensures x == y && u == v
  {
    assert ([x] + u)[0] == x && ([y] + v)[0] == y;
    assert ([x] + u)[1..] == u && ([y] + v)[1..] == v;
  }

  lemma {:induction false} WithKeyConcat<T>(a: seq<T>, b: seq<T>, key: T -> nat, t: nat)
    ensures WithKey(a + b, key, t) == WithKey(a, key, t) + WithKey(b, key, t)
  {
    if a == [] {
      assert a + b == b;
    } else {
      WithKeyConcat(a[1..], b, key, t);
      assert (a + b)[0] == a[0] && (a + b)[1..] == a[1..] + b;
      Assoc(if key(a[0]) == t then [a[0]] else [], WithKey(a[1..], key, t), WithKey(b, key, t));
    }
  }

  /** Exchanging two neighbours of different keys changes no key's elements. */
  lemma SwapKeepsKeys<T>(s: seq<T>, j: nat, key: T -> nat, t: nat)
    requires j + 1 < |s| && key(s[j]) != key(s[j + 1])
    ensures WithKey(s[j := s[j + 1]][j + 1 := s[j]], key, t) == WithKey(s, key, t)
  {
    var x, y := [s[j]], [s[j + 1]];
    var before, after := s[..j], s[j + 2..];
    assert s == before + (x + (y + after));
    assert s[j := s[j + 1]][j + 1 := s[j]] == before + (y + (x + after));
    WithKeyConcat(before, x + (y + after), key, t);
    WithKeyConcat(before, y + (x + after), key, t);
    WithKeyConcat(x, y + after, key, t);
    WithKeyConcat(y, after, key, t);
    WithKeyConcat(y, x + after, key, t);
    WithKeyConcat(x, after, key, t);
    assert WithKey(x, key, t) == [] || WithKey(y, key, t) == [];
  }

  lemma SwapSame<T>(s: seq<T>, j: nat, key: T -> nat)
    requires j + 1 < |s| && key(s[j]) != key(s[j + 1])
    ensures SameKeys(s[j := s[j + 1]][j + 1 := s[j]], s, key)
  {
    forall t ensures WithKey(s[j := s[j + 1]][j + 1 := s[j]], key, t) == WithKey(s, key, t) {
      SwapKeepsKeys(s, j, key, t);
    }
  }

  lemma SameSame<T>(a: seq<T>, b: seq<T>, c: seq<T>, key: T -> nat)
    requires SameKeys(a, b, key) && SameKeys(b, c, key)
    ensures SameKeys(a, c, key)
  {
    forall t ensures WithKey(a, key, t) == WithKey(c, key, t) {
      SameAt(a, b, key, t);
      SameAt(b, c, key, t);
    }
  }

  lemma {:induction false} NoneWithKey<T>(s: seq<T>, key: T -> nat, t: nat)
    requires forall i | 0 <= i < |s| :: key(s[i]) != t
    ensures WithKey(s, key, t) == []
  {
    if s != [] { NoneWithKey(s[1..], key, t); }
  }

  lemma HeadHasKey<T>(s: seq<T>, key: T -> nat)
    ensures s == [] || WithKey(s, key, key(s[0])) != []
  {}

  lemma SmallestFirst<T>(s: seq<T>, key: T -> nat, t: nat)
    requires Sorted(s, key) && WithKey(s, key, t) != []
    ensures s != [] && key(s[0]) <= t
  {}

  lemma {:induction false} WithKeyCounts<T>(s: seq<T>, key: T -> nat, x: T)
    ensures multiset(s)[x] == multiset(WithKey(s, key, key(x)))[x]
  {
    if s != [] {
      WithKeyCounts(s[1..], key, x);
      assert s == [s[0]] + s[1..];
    }
  }

  /** A stable sort is a permutation. */
  lemma StableIsPermutation<T>(now: seq<T>, before: seq<T>, key: T -> nat)
    requires StablySorted(now, before, key)
    ensures multiset(now) == multiset(before)
  {
    forall x ensures multiset(now)[x] == multiset(before)[x] {
      SameAt(now, before, key, key(x));
      WithKeyCounts(now, key, x);
      WithKeyCounts(before, key, x);
    }
  }

  /** The first element of a sorted sequence is the first with the smallest key. */
  lemma SameFirst<T>(a: seq<T>, b: seq<T>, key: T -> nat)
    requires Sorted(a, key) && Sorted(b, key) && SameKeys(a, b, key)
    ensures a == [] <==> b == []
    ensures a != [] ==> a[0] == b[0]
  {
    if a != [] {
      SameAt(a, b, key, key(a[0]));
      HeadHasKey(a, key);
      SmallestFirst(b, key, key(a[0]));
    }
    if b != [] {
      SameAt(a, b, key, key(b[0]));
      HeadHasKey(b, key);
      SmallestFirst(a, key, key(b[0]));
      SameHead(a[0], WithKey(a[1..], key, key(a[0])), b[0], WithKey(b[1..], key, key(b[0])));
    }
  }

  /** There is only one way to sort stably. */
  lemma {:induction false} StableIsUnique<T>(a: seq<T>, b: seq<T>, key: T -> nat)
    requires Sorted(a, key) && Sorted(b, key) && SameKeys(a, b, key)
    ensures a == b
  {
    SameFirst(a, b, key);
    if a != [] {
      TailsSame(a, b, key);
      StableIsUnique(a[1..], b[1..], key);
      assert a == [a[0]] + a[1..] && b == [b[0]] + b[1..];
    }
  }

  lemma TailsSame<T>(a: seq<T>, b: seq<T>, key: T -> nat)
    requires a != [] && b != [] && a[0] == b[0] && SameKeys(a, b, key)
    ensures SameKeys(a[1..], b[1..], key)
  {
    forall t ensures WithKey(a[1..], key, t) == WithKey(b[1..], key, t) {
      SameAt(a, b, key, t);
      TailsAgree(a, b, key, t);
    }
  }

  lemma TailsAgree<T>(a: seq<T>, b: seq<T>, key: T -> nat, t: nat)
    requires a != [] && b != [] && a[0] == b[0] && WithKey(a, key, t) == WithKey(b, key, t)
    ensures WithKey(a[1..], key, t) == WithKey(b[1..], key, t)
  {
    if key(a[0]) == t {
      SameHead(a[0], WithKey(a[1..], key, t), b[0], WithKey(b[1..], key, t));
    } else {
      assert [] + WithKey(a[1..], key, t) == WithKey(a[1..], key, t);
      assert [] + WithKey(b[1..], key, t) == WithKey(b[1..], key, t);
    }
  }
}
