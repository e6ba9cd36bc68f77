/** `remove_duplicates_from_list(items)`, which is `list(set(items))`: each distinct value
    of `items` exactly once, in an order Python leaves unspecified. The model keeps
    first occurrences, but its contract and every lemma about it speak only of which
    values occur, never of their order. */
module Dedupe {

  /** No value occurs twice. */
  predicate NoDuplicates<T(==)>(s: seq<T>) {
    forall i, j :: 0 <= i < j < |s| ==> s[i] != s[j]
  }

  /** The set of values occurring in `s` (Python's `set(s)`). */
  function Elements<T>(s: seq<T>): set<T> {
    set x | x in s
  }

  /** `r` is an acceptable result of deduplicating `items`, in whatever order. */
  predicate IsDedupeOf<T(==)>(r: seq<T>, items: seq<T>) {
    NoDuplicates(r) && Elements(r) == Elements(items)
  }

  function RemoveDuplicates<T(==)>(items: seq<T>): (r: seq<T>)
    ensures NoDuplicates(r)
    ensures Elements(r) == Elements(items)
  {
    if items == [] then []
    else
      var kept := RemoveDuplicates(items[..|items| - 1]);
      var x := items[|items| - 1];
      assert Elements(items) == Elements(items[..|items| - 1]) + {x} by {
        assert items == items[..|items| - 1] + [x];
      }
      if x in kept then kept else kept + [x]
  }

  /** Appending a value adds just that value to the set of values. */
  lemma ElementsOfSnoc<T>(s: seq<T>, x: T)
    ensures Elements(s + [x]) == Elements(s) + {x}
  {
  }

  /** A list has at least as many entries as distinct values, and exactly as many
      precisely when no value repeats. */
  lemma {:induction false} ElementsCardinality<T>(s: seq<T>)
    ensures |Elements(s)| <= |s|
    ensures |Elements(s)| == |s| <==> NoDuplicates(s)
  {
    if s != [] {
      var p, x := s[..|s| - 1], s[|s| - 1];
      assert s == p + [x];
      ElementsCardinality(p);
      ElementsOfSnoc(p, x);
      if x in p {
        assert Elements(s) == Elements(p);
        var i :| 0 <= i < |p| && p[i] == x;
        assert s[i] == s[|s| - 1];
      } else {
        assert |Elements(s)| == |Elements(p)| + 1;
        assert NoDuplicates(s) <==> NoDuplicates(p);
      }
    }
  }

  /** Deduplicating never lengthens a list, and keeps its length exactly when the list
      had no duplicates. */
  lemma RemoveDuplicatesLength<T>(items: seq<T>)
    ensures |RemoveDuplicates(items)| <= |items|
    ensures |RemoveDuplicates(items)| == |items| <==> NoDuplicates(items)
  {
    ElementsCardinality(items);
    ElementsCardinality(RemoveDuplicates(items));
  }

  /** In a list without duplicates every value occurs at most once, and conversely. */
  lemma {:induction false} NoDuplicatesMultiplicity<T>(s: seq<T>)
    ensures NoDuplicates(s) <==> forall x :: multiset(s)[x] <= 1
  {
    if s != [] {
      var p, y := s[..|s| - 1], s[|s| - 1];
      assert s == p + [y];
      NoDuplicatesMultiplicity(p);
      if y in p {
        var i :| 0 <= i < |p| && p[i] == y;
        assert s[i] == s[|s| - 1];
        assert multiset(s)[y] == multiset(p)[y] + 1;
      } else {
        assert NoDuplicates(s) <==> NoDuplicates(p);
        forall x ensures multiset(s)[x] == (if x == y then 1 else multiset(p)[x]) {
        }
      }
    }
  }

  /** Two lists without duplicates that hold the same values are permutations of each
      other. */
  lemma DistinctSameElementsSameMultiset<T>(a: seq<T>, b: seq<T>)
    requires NoDuplicates(a) && NoDuplicates(b)
    requires Elements(a) == Elements(b)
    ensures multiset(a) == multiset(b)
  {
    NoDuplicatesMultiplicity(a);
    NoDuplicatesMultiplicity(b);
    forall x ensures multiset(a)[x] == multiset(b)[x] {
      assert x in a <==> x in Elements(a);
      assert x in b <==> x in Elements(b);
    }
  }

  /** A permutation of a list without duplicates has none either. */
  lemma PermutationKeepsNoDuplicates<T>(a: seq<T>, b: seq<T>)
    requires NoDuplicates(a) && multiset(a) == multiset(b)
    ensures NoDuplicates(b)
    ensures Elements(a) == Elements(b)
  {
    NoDuplicatesMultiplicity(a);
    NoDuplicatesMultiplicity(b);
    assert forall x :: x in a <==> x in multiset(a);
    assert forall x :: x in b <==> x in multiset(b);
  }

  /** Any two acceptable deduplications of one list are permutations of each other, so
      the order Python's `set` happens to use changes nothing but the order. */
  lemma DedupeUniqueUpToOrder<T>(r: seq<T>, items: seq<T>)
    requires IsDedupeOf(r, items)
    ensures multiset(r) == multiset(RemoveDuplicates(items))
  {
    DistinctSameElementsSameMultiset(r, RemoveDuplicates(items));
  }

  /** A list without duplicates is only reordered by deduplication. */
  lemma RemoveDuplicatesOfDistinct<T>(items: seq<T>)
    requires NoDuplicates(items)
    ensures multiset(RemoveDuplicates(items)) == multiset(items)
  {
    DistinctSameElementsSameMultiset(RemoveDuplicates(items), items);
  }
}
