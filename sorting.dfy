/**
 * The pages' newest-first ordering: `arr.sort((a, b) => key(b) - key(a))` on a
 * fresh array (the response data, or a `[...arr]` copy). `Array.prototype.sort`
 * is stable, so elements with the same timestamp keep their input order; the
 * model is a stable insertion sort on values.
 */
module Sorting {
  import Seqs
  import Paging

  /** Keys never increase from left to right. */
  predicate SortedDesc<T>(key: T -> int, s: seq<T>) {
    forall i, j :: 0 <= i < j < |s| ==> key(s[i]) >= key(s[j])
  }

  /** The elements whose key is `k`, in their order in `s`. */
  function WithKey<T>(key: T -> int, k: int, s: seq<T>): seq<T> {
    if s == [] then [] else (if key(s[0]) == k then [s[0]] else []) + WithKey(key, k, s[1..])
  }

  /** Places `x` before the first element with a smaller key, so after those with an equal one. */
  function Insert<T>(key: T -> int, x: T, s: seq<T>): (r: seq<T>)
    ensures |r| == |s| + 1
  {
    if s == [] then [x]
    else if key(s[0]) < key(x) then [x] + s
    else [s[0]] + Insert(key, x, s[1..])
  }

  /** The sorted copy: each element in turn is inserted into the sorted earlier ones. */
  function SortNewestFirst<T>(key: T -> int, s: seq<T>): seq<T> {
    if s == [] then [] else Insert(key, s[|s| - 1], SortNewestFirst(key, s[..|s| - 1]))
  }

  /** Insertion adds one occurrence of `x` and keeps every other element. */
  lemma {:induction false} InsertPermutes<T>(key: T -> int, x: T, s: seq<T>)
    ensures multiset(Insert(key, x, s)) == multiset(s) + multiset{x}
  {
    if s != [] && key(s[0]) >= key(x) {
      InsertPermutes(key, x, s[1..]);
      assert s == [s[0]] + s[1..];
    }
  }

  /** `WithKey` on a list with one more element in front. */
  lemma WithKeyCons<T>(key: T -> int, k: int, x: T, s: seq<T>)
    ensures WithKey(key, k, [x] + s) == (if key(x) == k then [x] else []) + WithKey(key, k, s)
  {
    assert ([x] + s)[1..] == s;
  }

  lemma {:induction false} WithKeyAbsent<T>(key: T -> int, k: int, s: seq<T>)
    requires forall i :: 0 <= i < |s| ==> key(s[i]) != k
    ensures WithKey(key, k, s) == []
  {
    if s != [] {
      WithKeyAbsent(key, k, s[1..]);
    }
  }

  lemma {:induction false} WithKeySnoc<T>(key: T -> int, k: int, s: seq<T>, x: T)
    ensures WithKey(key, k, s + [x]) == WithKey(key, k, s) + (if key(x) == k then [x] else [])
  {
    if s == [] {
      WithKeyCons(key, k, x, []);
      assert s + [x] == [x] + [];
    } else {
      assert s + [x] == [s[0]] + (s[1..] + [x]);
      assert s == [s[0]] + s[1..];
      WithKeyCons(key, k, s[0], s[1..] + [x]);
      WithKeyCons(key, k, s[0], s[1..]);
      WithKeySnoc(key, k, s[1..], x);
    }
  }

  /** A sorted list stays sorted with an element in front whose key is at least every key in it. */
  lemma SortedCons<T>(key: T -> int, x: T, s: seq<T>)
    requires SortedDesc(key, s)
    requires forall i :: 0 <= i < |s| ==> key(x) >= key(s[i])
    ensures SortedDesc(key, [x] + s)
  {
    var r := [x] + s;
    forall i, j | 0 <= i < j < |r|
      ensures key(r[i]) >= key(r[j])
    {
      assert r[j] == s[j - 1];
      if i > 0 {
        assert r[i] == s[i - 1];
      }
    }
  }

  /** Every element of the result is `x` or an element of `s`. */
  lemma InsertMember<T>(key: T -> int, x: T, s: seq<T>, i: int)
    requires 0 <= i < |Insert(key, x, s)|
    ensures Insert(key, x, s)[i] == x || Insert(key, x, s)[i] in s
  {
    InsertPermutes(key, x, s);
    assert Insert(key, x, s)[i] in multiset(Insert(key, x, s));
  }

  /** Insertion keeps the order sorted. */
  lemma {:induction false} InsertSorted<T>(key: T -> int, x: T, s: seq<T>)
    requires SortedDesc(key, s)
    ensures SortedDesc(key, Insert(key, x, s))
  {
    if s == [] {
    } else if key(s[0]) < key(x) {
      assert forall i :: 0 <= i < |s| ==> key(s[0]) >= key(s[i]);
      SortedCons(key, x, s);
    } else {
      var tail := s[1..];
      assert SortedDesc(key, tail) by {
        forall i, j | 0 <= i < j < |tail|
          ensures key(tail[i]) >= key(tail[j])
        {
          assert tail[i] == s[i + 1] && tail[j] == s[j + 1];
        }
      }
      var rest := Insert(key, x, tail);
      InsertSorted(key, x, tail);
      forall i | 0 <= i < |rest|
        ensures key(s[0]) >= key(rest[i])
      {
        InsertMember(key, x, tail, i);
        if rest[i] != x {
          var m :| 0 <= m < |tail| && tail[m] == rest[i];
          assert s[m + 1] == rest[i];
        }
      }
      SortedCons(key, s[0], rest);
    }
  }

  /** Insertion appends `x` to the elements with its key, and changes no other key's elements. */
  lemma {:induction false} InsertStable<T>(key: T -> int, x: T, s: seq<T>, k: int)
    requires SortedDesc(key, s)
    ensures WithKey(key, k, Insert(key, x, s)) == WithKey(key, k, s) + (if key(x) == k then [x] else [])
    decreases |s|, 1
  {
    if s == [] {
      WithKeyCons(key, k, x, []);
    } else if key(s[0]) < key(x) {
      WithKeyCons(key, k, x, s);
      if key(x) == k {
        WithKeyAbsent(key, k, s);
      }
    } else {
      InsertStableFront(key, x, s, k);
    }
  }

  /** The case of `InsertStable` where `x` goes after the first element. */
  lemma {:induction false} InsertStableFront<T>(key: T -> int, x: T, s: seq<T>, k: int)
    requires SortedDesc(key, s) && s != [] && key(s[0]) >= key(x)
    ensures WithKey(key, k, Insert(key, x, s)) == WithKey(key, k, s) + (if key(x) == k then [x] else [])
    decreases |s|, 0
  {
    var tail := if key(x) == k then [x] else [];
    var head := if key(s[0]) == k then [s[0]] else [];
    var rest := Insert(key, x, s[1..]);
    assert SortedDesc(key, s[1..]) by {
      forall i, j | 0 <= i < j < |s[1..]|
        ensures key(s[1..][i]) >= key(s[1..][j])
      {
        assert s[1..][i] == s[i + 1] && s[1..][j] == s[j + 1];
      }
    }
    InsertStable(key, x, s[1..], k);
    WithKeyCons(key, k, s[0], rest);
    WithKeyCons(key, k, s[0], s[1..]);
    assert s == [s[0]] + s[1..];
    assert WithKey(key, k, Insert(key, x, s)) == head + (WithKey(key, k, s[1..]) + tail);
  }

  /** The copy is ordered newest first. */
  lemma {:induction false} SortNewestFirstSorted<T>(key: T -> int, s: seq<T>)
    ensures SortedDesc(key, SortNewestFirst(key, s))
  {
    if s != [] {
      var sortedInit := SortNewestFirst(key, s[..|s| - 1]);
      SortNewestFirstSorted(key, s[..|s| - 1]);
      InsertSorted(key, s[|s| - 1], sortedInit);
    }
  }

  /** The copy holds the same elements as many times as the input. */
  lemma {:induction false} SortNewestFirstPermutes<T>(key: T -> int, s: seq<T>)
    ensures multiset(SortNewestFirst(key, s)) == multiset(s)
  {
    if s != [] {
      var init := s[..|s| - 1];
      var x := s[|s| - 1];
      InsertPermutes(key, x, SortNewestFirst(key, init));
      SortNewestFirstPermutes(key, init);
      assert s == init + [x];
    }
  }

  /** Elements sharing the key `k` appear in the copy in their input order. */
  lemma {:induction false} SortNewestFirstStable<T>(key: T -> int, s: seq<T>, k: int)
    ensures WithKey(key, k, SortNewestFirst(key, s)) == WithKey(key, k, s)
  {
    if s != [] {
      var init := s[..|s| - 1];
      var x := s[|s| - 1];
      var sortedInit := SortNewestFirst(key, init);
      SortNewestFirstSorted(key, init);
      SortNewestFirstStable(key, init, k);
      InsertStable(key, x, sortedInit, k);
      WithKeySnoc(key, k, init, x);
      assert s == init + [x];
    }
  }

  /**
   * The copy is ordered newest first, holds the same elements as many times as
   * the input, and elements sharing a key appear in input order.
   */
  lemma SortNewestFirstFacts<T>(key: T -> int, s: seq<T>)
    ensures SortedDesc(key, SortNewestFirst(key, s))
    ensures multiset(SortNewestFirst(key, s)) == multiset(s)
    ensures |SortNewestFirst(key, s)| == |s|
    ensures forall k :: WithKey(key, k, SortNewestFirst(key, s)) == WithKey(key, k, s)
  {
    var r := SortNewestFirst(key, s);
    SortNewestFirstSorted(key, s);
    SortNewestFirstPermutes(key, s);
    assert |r| == |multiset(r)|;
    forall k
      ensures WithKey(key, k, r) == WithKey(key, k, s)
    {
      SortNewestFirstStable(key, s, k);
    }
  }

  /** A run of consecutive elements of a sorted list is sorted. */
  lemma SortedSlice<T>(key: T -> int, s: seq<T>, a: nat, b: nat)
    requires SortedDesc(key, s) && a <= b <= |s|
    ensures SortedDesc(key, s[a..b])
  {
    forall i, j | 0 <= i < j < b - a
      ensures key(s[a..b][i]) >= key(s[a..b][j])
    {
      assert s[a..b][i] == s[a + i] && s[a..b][j] == s[a + j];
    }
  }

  lemma SliceMembers<T>(s: seq<T>, a: nat, b: nat)
    requires a <= b <= |s|
    ensures forall x :: x in s[a..b] ==> x in multiset(s)
  {
    forall x | x in s[a..b]
      ensures x in multiset(s)
    {
      var i :| 0 <= i < b - a && s[a..b][i] == x;
      assert s[a + i] == x;
    }
  }

  /**
   * A page of a newest-first copy holds at most `size` items, ordered newest
   * first, each taken from the list, and it is the run of the sorted copy that
   * starts at `(page - 1) * size`.
   */
  lemma SortedPageFacts<T>(key: T -> int, s: seq<T>, page: int, size: nat)
    requires page >= 1 && size > 0
    ensures var r := Paging.PageOf(SortNewestFirst(key, s), page, size);
      |r| <= size && SortedDesc(key, r) && forall x :: x in r ==> x in s
    ensures var sorted, start := SortNewestFirst(key, s), (page - 1) * size;
      0 <= start < |sorted| ==> Paging.PageOf(sorted, page, size) == sorted[start..Paging.Min(start + size, |sorted|)]
  {
    var sorted := SortNewestFirst(key, s);
    SortNewestFirstFacts(key, s);
    Paging.PageShape(sorted, page, size);
    Paging.PageStarts(page, size);
    var start := (page - 1) * size;
    if start < |sorted| {
      var e := Paging.Min(start + size, |sorted|);
      SortedSlice(key, sorted, start, e);
      SliceMembers(sorted, start, e);
    }
  }

  /** Filtering a sorted list keeps it sorted. */
  lemma {:induction false} FilterSorted<T>(key: T -> int, p: T -> bool, s: seq<T>)
    requires SortedDesc(key, s)
    ensures SortedDesc(key, Seqs.Filter(p, s))
  {
    if s != [] {
      FilterSorted(key, p, s[1..]);
      var rest := Seqs.Filter(p, s[1..]);
      forall j | 0 <= j < |rest|
        ensures key(s[0]) >= key(rest[j])
      {
        assert rest[j] in s[1..];
      }
    }
  }
}
