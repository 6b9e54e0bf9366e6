/** Sorting by a comparator, as main.c does with the C library's qsort.

    qsort promises only that, for a comparator that is a consistent total
    order, the array ends up sorted and holds the same elements. The model
    states that promise with a reference sort (insertion into a sorted
    sequence) and proves that, for an antisymmetric total order, every
    sorted permutation is that one: the outcome does not depend on how
    the library sorts. */
module Sorting {

  /** le is a total order: any two elements compare, the order is
      transitive, and only equal elements compare both ways. */
  ghost predicate IsTotalOrder<T(!new)>(le: (T, T) -> bool) {
    && (forall x, y :: le(x, y) || le(y, x))
    && (forall x, y, z :: le(x, y) && le(y, z) ==> le(x, z))
    && (forall x, y :: le(x, y) && le(y, x) ==> x == y)
  }

  predicate Sorted<T>(s: seq<T>, le: (T, T) -> bool) {
    forall i, j :: 0 <= i < j < |s| ==> le(s[i], s[j])
  }

  /** Inserts x before the first element it precedes. */
  function Insert<T>(x: T, s: seq<T>, le: (T, T) -> bool): (r: seq<T>)
    ensures multiset(r) == multiset(s) + multiset{x}
  {
    if |s| == 0 || le(x, s[0]) then [x] + s
    else
      assert s == [s[0]] + s[1..];
      [s[0]] + Insert(x, s[1..], le)
  }

  /** The reference sort: insertion sort. */
  function SortSeq<T>(s: seq<T>, le: (T, T) -> bool): (r: seq<T>)
    ensures multiset(r) == multiset(s)
  {
    if |s| == 0 then []
    else
      assert s == [s[0]] + s[1..];
      Insert(s[0], SortSeq(s[1..], le), le)
  }

  lemma {:induction false} InsertSorted<T(!new)>(x: T, s: seq<T>, le: (T, T) -> bool)
    requires IsTotalOrder(le) && Sorted(s, le)
    ensures Sorted(Insert(x, s, le), le)
  {
    if |s| == 0 || le(x, s[0]) {
      var r := [x] + s;
      forall i, j | 0 <= i < j < |r| ensures le(r[i], r[j]) {
        if i > 0 {
          assert r[i] == s[i - 1] && r[j] == s[j - 1];
        } else if j > 1 {
          assert le(s[0], s[j - 1]);
        }
      }
    } else {
      InsertSorted(x, s[1..], le);
      var rest := Insert(x, s[1..], le);
      var r := [s[0]] + rest;
      forall j | 0 <= j < |rest| ensures le(s[0], rest[j]) {
        assert rest[j] in multiset(rest);
        if rest[j] != x {
          assert rest[j] in s[1..];
          var m :| 0 <= m < |s[1..]| && s[1..][m] == rest[j];
          assert s[m + 1] == rest[j];
        }
      }
      forall i, j | 0 <= i < j < |r| ensures le(r[i], r[j]) {
        if i > 0 {
          assert r[i] == rest[i - 1] && r[j] == rest[j - 1];
        } else {
          assert r[j] == rest[j - 1];
        }
      }
    }
  }

  /** The reference sort returns a sorted permutation of its input. */
  lemma {:induction false} SortSeqSorted<T(!new)>(s: seq<T>, le: (T, T) -> bool)
    requires IsTotalOrder(le)
    ensures Sorted(SortSeq(s, le), le) && multiset(SortSeq(s, le)) == multiset(s)
  {
    if |s| > 0 {
      SortSeqSorted(s[1..], le);
      InsertSorted(s[0], SortSeq(s[1..], le), le);
    }
  }

  /** The head of a sorted sequence precedes each of its elements. */
  lemma SortedHeadFirst<T(!new)>(s: seq<T>, x: T, le: (T, T) -> bool)
    requires IsTotalOrder(le) && Sorted(s, le) && x in s
    ensures le(s[0], x)
  {
  }

  lemma SameTails<T>(s: seq<T>, t: seq<T>)
    requires |s| > 0 && |t| > 0 && s[0] == t[0] && multiset(s) == multiset(t)
    ensures multiset(s[1..]) == multiset(t[1..])
  {
    assert s == [s[0]] + s[1..] && t == [t[0]] + t[1..];
    assert multiset(s[1..]) == multiset(s) - multiset{s[0]};
    assert multiset(t[1..]) == multiset(t) - multiset{t[0]};
  }

  /** Under an antisymmetric total order a sorted permutation is unique:
      two sorted sequences with the same elements are equal. */
  lemma {:induction false} SortedUnique<T(!new)>(s: seq<T>, t: seq<T>, le: (T, T) -> bool)
    requires IsTotalOrder(le) && Sorted(s, le) && Sorted(t, le)
    requires multiset(s) == multiset(t)
    ensures s == t
  {
    assert |s| == |multiset(s)| == |multiset(t)| == |t|;
    if |s| > 0 {
      assert s[0] in multiset(t) && t[0] in multiset(s);
      SortedHeadFirst(t, s[0], le);
      SortedHeadFirst(s, t[0], le);
      SameTails(s, t);
      SortedUnique(s[1..], t[1..], le);
      assert s == [s[0]] + s[1..] && t == [t[0]] + t[1..];
    }
  }

  /** Any sorted permutation is what the reference sort returns. */
  lemma SortedIsSortSeq<T(!new)>(s: seq<T>, r: seq<T>, le: (T, T) -> bool)
    requires IsTotalOrder(le) && Sorted(r, le) && multiset(r) == multiset(s)
    ensures r == SortSeq(s, le)
  {
    SortSeqSorted(s, le);
    SortedUnique(r, SortSeq(s, le), le);
  }

  /** qsort over the first n elements of a: they end up sorted, as a
      permutation of what was there; the rest of the array is untouched. */
  method SortPrefix<T(!new)>(a: array<T>, n: nat, le: (T, T) -> bool)
    requires n <= a.Length
    requires IsTotalOrder(le)
    modifies a
    ensures a[..n] == SortSeq(old(a[..n]), le)
    ensures Sorted(a[..n], le) && multiset(a[..n]) == multiset(old(a[..n]))
    ensures a[n..] == old(a[n..])
  {
    var sorted := SortSeq(a[..n], le);
    SortSeqSorted(a[..n], le);
    assert |sorted| == |multiset(sorted)| == n;
    forall i | 0 <= i < n {
      a[i] := sorted[i];
    }
    assert a[..n] == sorted;
  }
}
