/** Joined keys: when the merge by key is a merge by path and name. src/core/qhashtbl.c:191-207. */
module IndexKeys {
  import opened Bytes
  import opened IndexRecords
  import opened IndexMerge

  /** Path and name of an entry. */
  type Place = (seq<byte>, seq<byte>)

  function PlaceOf(e: Entry): Place { (e.path, e.name) }

  function PlaceKey(p: Place): FullName { KeyOf(p.0, p.1) }

  /** The scan for an entry with the same path and the same name. */
  function ScanOne(es: seq<Entry>, e: Entry): seq<Entry> {
    if es == [] then [e]
    else if PlaceOf(es[0]) == PlaceOf(e) then
      if es[0].groupName == e.groupName then [Joined(es[0], e)] + es[1..] else es
    else [es[0]] + ScanOne(es[1..], e)
  }

  function ScanAll(es: seq<Entry>, items: seq<Entry>): seq<Entry>
    decreases items
  {
    if items == [] then es else ScanAll(ScanOne(es, items[0]), items[1..])
  }

  ghost function Places(es: seq<Entry>): set<Place> {
    set e | e in es :: PlaceOf(e)
  }

  /** No two different paths and names have the same key. */
  ghost predicate NoClash(ps: set<Place>) {
    forall p, q | p in ps && q in ps && PlaceKey(p) == PlaceKey(q) :: p == q
  }

  lemma PlacesOfRest(es: seq<Entry>)
    requires es != []
    ensures Places(es) == {PlaceOf(es[0])} + Places(es[1..])
  {}

  lemma {:induction false} PlacesOfScanOne(es: seq<Entry>, e: Entry)
    ensures Places(ScanOne(es, e)) == Places(es) + {PlaceOf(e)}
  {
    if es != [] {
      var m := ScanOne(es, e);
      PlacesOfRest(es);
      PlacesOfRest(m);
      if PlaceOf(es[0]) == PlaceOf(e) {
        assert m[1..] == es[1..];
      } else {
        PlacesOfScanOne(es[1..], e);
        assert m[1..] == ScanOne(es[1..], e);
      }
    }
  }

  /** The scan loses no path and name. */
  lemma {:induction false} PlacesOfScanAll(es: seq<Entry>, items: seq<Entry>)
    ensures Places(ScanAll(es, items)) == Places(es) + Places(items)
    decreases items
  {
    if items != [] {
      PlacesOfScanOne(es, items[0]);
      PlacesOfScanAll(ScanOne(es, items[0]), items[1..]);
      PlacesOfRest(items);
    }
  }

  /** In a list in which every key occurs once, nothing clashes. */
  lemma {:induction false} DistinctNoClash(es: seq<Entry>)
    requires Distinct(es)
    ensures NoClash(Places(es))
  {
    if es != [] {
      DistinctNoClash(es[1..]);
      PlacesOfRest(es);
      forall p | p in Places(es[1..]) ensures PlaceKey(p) != es[0].Name() {
        var e :| e in es[1..] && PlaceOf(e) == p;
        InKeys(es[1..], e);
      }
    }
  }

  lemma {:induction false} InKeys(es: seq<Entry>, e: Entry)
    requires e in es
    ensures e.Name() in Keys(es)
  {
    if es[0] != e { InKeys(es[1..], e); }
  }

  lemma {:induction false} SameStep(es: seq<Entry>, e: Entry)
    requires NoClash(Places(es) + {PlaceOf(e)})
    ensures ScanOne(es, e) == MergeOne(es, e)
  {
    if es != [] {
      PlacesOfRest(es);
      assert PlaceKey(PlaceOf(es[0])) == es[0].Name() && PlaceKey(PlaceOf(e)) == e.Name();
      SameStep(es[1..], e);
    }
  }

  lemma {:induction false} SameWithoutClash(es: seq<Entry>, items: seq<Entry>)
    requires NoClash(Places(es) + Places(items))
    ensures ScanAll(es, items) == MergeAll(es, items)
    decreases items
  {
    if items != [] {
      PlacesOfRest(items);
      SameStep(es, items[0]);
      PlacesOfScanOne(es, items[0]);
      assert Places(ScanOne(es, items[0])) + Places(items[1..]) == Places(es) + Places(items);
      SameWithoutClash(ScanOne(es, items[0]), items[1..]);
    }
  }

  /** The merge by key is a scan by path and name if and only if no two different paths and names share a key. */
  lemma ByPlaceIff(es: seq<Entry>, items: seq<Entry>)
    requires Distinct(es)
    ensures ScanAll(es, items) == MergeAll(es, items) <==> NoClash(Places(es) + Places(items))
  {
    if NoClash(Places(es) + Places(items)) {
      SameWithoutClash(es, items);
    } else if ScanAll(es, items) == MergeAll(es, items) {
      PlacesOfScanAll(es, items);
      MergeKeepsFirstSeenOrder(es, items);
      DistinctNoClash(MergeAll(es, items));
      assert false;
    }
  }

  // ---- Names that do not clash.

  /** No slash in the name. */
  predicate Plain(p: Place) { SLASH !in p.1 }

  lemma LastSlash(s: seq<byte>, a: seq<byte>, b: seq<byte>)
    requires s == a + [SLASH] + b && SLASH !in b
    ensures s[|a|] == SLASH && forall k | |a| < k < |s| :: s[k] != SLASH
    ensures a == s[..|a|] && b == s[|a| + 1..]
  {}

  lemma EndsIn(s: seq<byte>, a: seq<byte>, b: seq<byte>, c: seq<byte>, d: seq<byte>)
    requires s == a + [SLASH] + b == c + [SLASH] + d && SLASH !in b && SLASH !in d
    ensures a == c && b == d
  {
    LastSlash(s, a, b);
    LastSlash(s, c, d);
  }

  /** A key that is joined with a slash: what is in front of the slash. */
  function Front(path: seq<byte>): seq<byte> {
    if path == [SLASH] then [] else path
  }

  lemma KeyParts(p: Place)
    ensures p.0 != [] ==> PlaceKey(p) == Front(p.0) + [SLASH] + p.1
    ensures p.0 == [] ==> PlaceKey(p) == p.1
  {
    assert [] + [SLASH] + p.1 == [SLASH] + p.1;
  }

  /** Names without slashes never clash, whatever the paths. */
  lemma PlainNamesDoNotClash(p: Place, q: Place)
    requires Plain(p) && Plain(q) && PlaceKey(p) == PlaceKey(q)
    ensures p == q
  {
    KeyParts(p);
    KeyParts(q);
    if p.0 != [] && q.0 != [] { EndsIn(PlaceKey(p), Front(p.0), p.1, Front(q.0), q.1); }
  }
}
