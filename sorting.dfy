/**
 * Ascending sort of integer timestamps (the script's `sorted(...)`),
 * modelled as insertion sort, with the facts the gap rule needs: the
 * result is sorted, is a permutation of the input, is the only sorted
 * permutation, and starts with the minimum and ends with the maximum.
 */
module Sorting {

  predicate Sorted(s: seq<int>) {
    forall i, j :: 0 <= i < j < |s| ==> s[i] <= s[j]
  }

  /** `lo` is an element of `s` and no element is below it. */
  predicate IsLeast(lo: int, s: seq<int>) {
    lo in s && forall x :: x in s ==> lo <= x
  }

  /** `hi` is an element of `s` and no element is above it. */
  predicate IsGreatest(hi: int, s: seq<int>) {
    hi in s && forall x :: x in s ==> x <= hi
  }

  /** Places `x` before the first element of `s` that is not below it. */
  function Insert(x: int, s: seq<int>): (r: seq<int>)
    ensures |r| == |s| + 1
  {
    if s == [] || x <= s[0] then [x] + s
    else [s[0]] + Insert(x, s[1..])
  }

  /** Inserting adds exactly one copy of the element. */
  lemma {:induction false} InsertPermutes(x: int, s: seq<int>)
    ensures multiset(Insert(x, s)) == multiset(s) + multiset{x}
  {
    if s != [] && x > s[0] {
      InsertPermutes(x, s[1..]);
      assert s == [s[0]] + s[1..];
    }
  }

  /** Inserting into a sorted sequence keeps it sorted. */
  lemma {:induction false} InsertSorted(x: int, s: seq<int>)
    requires Sorted(s)
    ensures Sorted(Insert(x, s))
  {
    if s == [] || x <= s[0] {
      SortedCons(x, s);
    } else {
      var rest := Insert(x, s[1..]);
      SortedTail(s);
      InsertSorted(x, s[1..]);
      InsertPermutes(x, s[1..]);
      forall k | 0 <= k < |rest| ensures s[0] <= rest[k] {
        assert rest[k] in multiset(rest);
        if rest[k] != x {
          assert rest[k] in s[1..];
        }
      }
      SortedCons(s[0], rest);
    }
  }

  /** A sorted sequence stays sorted when an element no larger than all of it is put in front. */
  lemma SortedCons(x: int, s: seq<int>)
    requires Sorted(s)
    requires forall k :: 0 <= k < |s| ==> x <= s[k]
    ensures Sorted([x] + s)
  {
  }

  /** The ascending order of `s`, by insertion. */
  function SortAscending(s: seq<int>): (r: seq<int>)
    ensures |r| == |s|
  {
    if s == [] then []
    else Insert(s[0], SortAscending(s[1..]))
  }

  /** SortAscending gives a sorted permutation of its input. */
  lemma {:induction false} SortAscendingCorrect(s: seq<int>)
    ensures Sorted(SortAscending(s))
    ensures multiset(SortAscending(s)) == multiset(s)
  {
    if s != [] {
      SortAscendingCorrect(s[1..]);
      InsertSorted(s[0], SortAscending(s[1..]));
      InsertPermutes(s[0], SortAscending(s[1..]));
      assert s == [s[0]] + s[1..];
    }
  }

  /** A sorted permutation is unique, so any correct sort gives the result of SortAscending. */
  lemma {:induction false} SortedPermutationUnique(a: seq<int>, b: seq<int>)
    requires Sorted(a) && Sorted(b)
    requires multiset(a) == multiset(b)
    ensures a == b
  {
    if a != [] {
      SameHead(a, b);
      TailsPermute(a, b);
      SortedTail(a);
      SortedTail(b);
      SortedPermutationUnique(a[1..], b[1..]);
      assert a == [a[0]] + a[1..] && b == [b[0]] + b[1..];
    }
  }

  /** The tail of a sorted sequence is sorted. */
  lemma SortedTail(s: seq<int>)
    requires s != [] && Sorted(s)
    ensures Sorted(s[1..])
  {
    forall i, j | 0 <= i < j < |s| - 1 ensures s[1..][i] <= s[1..][j] {
      assert s[1..][i] == s[i + 1] && s[1..][j] == s[j + 1];
    }
  }

  /** Sorting forgets the input order: permutations of each other sort alike. */
  lemma SortIgnoresOrder(a: seq<int>, b: seq<int>)
    requires multiset(a) == multiset(b)
    ensures SortAscending(a) == SortAscending(b)
  {
    SortAscendingCorrect(a);
    SortAscendingCorrect(b);
    SortedPermutationUnique(SortAscending(a), SortAscending(b));
  }

  /** Two sorted permutations of a non-empty sequence have the same length and start alike. */
  lemma SameHead(a: seq<int>, b: seq<int>)
    requires a != [] && Sorted(a) && Sorted(b)
    requires multiset(a) == multiset(b)
    ensures |b| == |a| && a[0] == b[0]
  {
    assert |multiset(a)| == |multiset(b)|;
    assert a[0] in multiset(b) && b[0] in multiset(a);
    FirstIsLeast(a, b[0]);
    FirstIsLeast(b, a[0]);
  }

  /** Permutations with the same head have permuted tails. */
  lemma TailsPermute(a: seq<int>, b: seq<int>)
    requires a != [] && b != [] && a[0] == b[0]
    requires multiset(a) == multiset(b)
    ensures multiset(a[1..]) == multiset(b[1..])
  {
    TailMultiset(a);
    TailMultiset(b);
  }

  /** Dropping the head removes one copy of it from the multiset. */
  lemma TailMultiset(s: seq<int>)
    requires s != []
    ensures multiset(s[1..]) == multiset(s) - multiset{s[0]}
  {
    assert s == [s[0]] + s[1..];
  }

  /** In a sorted sequence the first element is below every element. */
  lemma FirstIsLeast(s: seq<int>, x: int)
    requires Sorted(s) && x in multiset(s)
    ensures s[0] <= x
  {
    var k :| 0 <= k < |s| && s[k] == x;
  }

  /** In a sorted sequence the last element is above every element. */
  lemma LastIsGreatest(s: seq<int>, x: int)
    requires Sorted(s) && x in multiset(s)
    ensures x <= s[|s| - 1]
  {
    var k :| 0 <= k < |s| && s[k] == x;
  }

  /** The ascending order of `s` starts at its least element and ends at its greatest. */
  lemma SortedEnds(s: seq<int>, lo: int, hi: int)
    requires IsLeast(lo, s) && IsGreatest(hi, s)
    ensures |SortAscending(s)| == |s| > 0
    ensures SortAscending(s)[0] == lo && SortAscending(s)[|s| - 1] == hi
  {
    var t := SortAscending(s);
    SortAscendingCorrect(s);
    assert |multiset(t)| == |multiset(s)|;
    assert t[0] in multiset(s) && t[|t| - 1] in multiset(s);
    assert lo in multiset(t) && hi in multiset(t);
    FirstIsLeast(t, lo);
    LastIsGreatest(t, hi);
    assert t[0] in s && t[|t| - 1] in s;
    assert lo <= t[0] && t[|t| - 1] <= hi;
  }
}
