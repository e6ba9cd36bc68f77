/** `sort_list(items, ascending=True)`: a new list holding the strings of `items` in
    ascending order, or in descending order when `ascending` is false. The model is a
    recursive insertion sort; the lemmas show that its result is the one and only
    sorted permutation of the input, so it is the list Python's `sorted` returns. */
module Sorting {
  import opened StringOrder

  /** `x` may come before `y` in a list sorted in the given direction. */
  predicate InOrder(x: string, y: string, ascending: bool) {
    if ascending then LessEq(x, y) else LessEq(y, x)
  }

  /** Non-decreasing when `ascending`, non-increasing otherwise. */
  predicate Sorted(s: seq<string>, ascending: bool) {
    forall i, j :: 0 <= i < j < |s| ==> InOrder(s[i], s[j], ascending)
  }

  /** `InOrder` is a total order in either direction. */
  lemma InOrderTotalOrder(x: string, y: string, z: string, ascending: bool)
    ensures InOrder(x, y, ascending) && InOrder(y, x, ascending) ==> x == y
    ensures InOrder(x, y, ascending) && InOrder(y, z, ascending) ==> InOrder(x, z, ascending)
    ensures InOrder(x, y, ascending) || InOrder(y, x, ascending)
  {
    LessEqTotalOrder(x, y, z);
    LessEqTotalOrder(z, y, x);
  }

  /** A sorted list stays sorted when an element that may precede all of it is put in front. */
  lemma PrependSorted(x: string, s: seq<string>, ascending: bool)
    requires Sorted(s, ascending)
    requires forall e | e in multiset(s) :: InOrder(x, e, ascending)
    ensures Sorted([x] + s, ascending)
  {
  }

  /** Inserts `x` into the sorted list `s` at its place. */
  function Insert(x: string, s: seq<string>, ascending: bool): (r: seq<string>)
    requires Sorted(s, ascending)
    ensures Sorted(r, ascending)
    ensures multiset(r) == multiset(s) + multiset{x}
  {
    if s == [] then [x]
    else if InOrder(x, s[0], ascending) then
      InsertFront(x, s, ascending);
      [x] + s
    else
      var rest := Insert(x, s[1..], ascending);
      InsertBehind(x, s, rest, ascending);
      [s[0]] + rest
  }

  lemma InsertFront(x: string, s: seq<string>, ascending: bool)
    requires Sorted(s, ascending) && s != [] && InOrder(x, s[0], ascending)
    ensures Sorted([x] + s, ascending)
  {
    forall e | e in multiset(s) ensures InOrder(x, e, ascending) {
      var j :| 0 <= j < |s| && s[j] == e;
      InOrderTotalOrder(x, s[0], e, ascending);
    }
    PrependSorted(x, s, ascending);
  }

  lemma InsertBehind(x: string, s: seq<string>, rest: seq<string>, ascending: bool)
    requires Sorted(s, ascending) && s != [] && !InOrder(x, s[0], ascending)
    requires Sorted(rest, ascending) && multiset(rest) == multiset(s[1..]) + multiset{x}
    ensures Sorted([s[0]] + rest, ascending)
    ensures multiset([s[0]] + rest) == multiset(s) + multiset{x}
  {
    InOrderTotalOrder(x, s[0], x, ascending);
    forall e | e in multiset(rest) ensures InOrder(s[0], e, ascending) {
      if e != x {
        assert e in multiset(s[1..]);
        var j :| 0 <= j < |s[1..]| && s[1..][j] == e;
        assert s[j + 1] == e;
      }
    }
    PrependSorted(s[0], rest, ascending);
    assert s == [s[0]] + s[1..];
  }

  /** `sorted(items, reverse=not ascending)`. */
  function SortList(items: seq<string>, ascending: bool := true): (r: seq<string>)
    ensures Sorted(r, ascending)
    ensures multiset(r) == multiset(items)
  {
    if items == [] then []
    else
      assert items == [items[0]] + items[1..];
      Insert(items[0], SortList(items[1..], ascending), ascending)
  }

  /** Two sorted lists with the same elements (counted with multiplicity) are equal:
      there is exactly one sorted permutation of a list. */
  lemma {:induction false} SortedPermutationUnique(a: seq<string>, b: seq<string>, ascending: bool)
    requires Sorted(a, ascending) && Sorted(b, ascending)
    requires multiset(a) == multiset(b)
    ensures a == b
  {
    assert |a| == |multiset(a)| == |multiset(b)| == |b|;
    if a != [] {
      SortedHeadsEqual(a, b, ascending);
      assert a == [a[0]] + a[1..] && b == [b[0]] + b[1..];
      assert multiset(a[1..]) == multiset(a) - multiset{a[0]};
      assert multiset(b[1..]) == multiset(b) - multiset{a[0]};
      SortedPermutationUnique(a[1..], b[1..], ascending);
    }
  }

  /** Two sorted permutations of one list start with the same element: its least one. */
  lemma SortedHeadsEqual(a: seq<string>, b: seq<string>, ascending: bool)
    requires Sorted(a, ascending) && Sorted(b, ascending)
    requires multiset(a) == multiset(b) && a != [] && b != []
    ensures a[0] == b[0]
  {
    assert a[0] in multiset(b) && b[0] in multiset(a);
    var i :| 0 <= i < |b| && b[i] == a[0];
    var j :| 0 <= j < |a| && a[j] == b[0];
    assert InOrder(b[0], a[0], ascending) && InOrder(a[0], b[0], ascending);
    InOrderTotalOrder(a[0], b[0], a[0], ascending);
  }

  /** `SortList` is fully characterised by its two promises: `r` is the result of
      sorting `items` if and only if `r` is sorted and a permutation of `items`. */
  lemma SortListCharacterization(items: seq<string>, ascending: bool, r: seq<string>)
    ensures r == SortList(items, ascending) <==>
      Sorted(r, ascending) && multiset(r) == multiset(items)
  {
    if Sorted(r, ascending) && multiset(r) == multiset(items) {
      SortedPermutationUnique(r, SortList(items, ascending), ascending);
    }
  }

  /** Sorting an already sorted list gives it back unchanged. */
  lemma SortListOfSorted(items: seq<string>, ascending: bool)
    requires Sorted(items, ascending)
    ensures SortList(items, ascending) == items
  {
    SortedPermutationUnique(SortList(items, ascending), items, ascending);
  }

  /** Sorting is idempotent: `sort_list(sort_list(L)) == sort_list(L)`, in either direction. */
  lemma SortListIdempotent(items: seq<string>, ascending: bool)
    ensures SortList(SortList(items, ascending), ascending) == SortList(items, ascending)
  {
    SortListOfSorted(SortList(items, ascending), ascending);
  }

  /** The result depends only on which strings occur how often, not on their input order. */
  lemma SortListDependsOnlyOnMultiset(a: seq<string>, b: seq<string>, ascending: bool)
    requires multiset(a) == multiset(b)
    ensures SortList(a, ascending) == SortList(b, ascending)
  {
    SortedPermutationUnique(SortList(a, ascending), SortList(b, ascending), ascending);
  }

  /** The result has as many entries as the input. */
  lemma SortListLength(items: seq<string>, ascending: bool)
    ensures |SortList(items, ascending)| == |items|
  {
    assert |multiset(SortList(items, ascending))| == |multiset(items)|;
  }

  /** Reversing a list mirrors its order. */
  function Reverse(s: seq<string>): (r: seq<string>)
    ensures |r| == |s|
    ensures forall i :: 0 <= i < |s| ==> r[i] == s[|s| - 1 - i]
  {
    if s == [] then [] else Reverse(s[1..]) + [s[0]]
  }

  /** `sorted(items, reverse=True)` is the ascending result read backwards (equal strings
      cannot be told apart, so the reversal of equal runs is invisible). */
  lemma DescendingIsReversedAscending(items: seq<string>)
    ensures SortList(items, false) == Reverse(SortList(items, true))
  {
    var up := SortList(items, true);
    var down := Reverse(up);
    assert Sorted(down, false) by {
      forall i, j | 0 <= i < j < |down| ensures InOrder(down[i], down[j], false) {
        assert InOrder(up[|up| - 1 - j], up[|up| - 1 - i], true);
      }
    }
    assert multiset(down) == multiset(up) by {
      ReverseMultiset(up);
    }
    SortedPermutationUnique(SortList(items, false), down, false);
  }

  lemma {:induction false} ReverseMultiset(s: seq<string>)
    ensures multiset(Reverse(s)) == multiset(s)
  {
    if s != [] {
      ReverseMultiset(s[1..]);
      assert s == [s[0]] + s[1..];
    }
  }
}
