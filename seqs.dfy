/**
 * Array operations the pages rely on: `filter`, `find`, and a counter object
 * built with `acc[key] = (acc[key] || 0) + 1` and read back with
 * `Object.entries` (modelled as a list of entries in first-insertion order).
 */
module Seqs {

  /** `s.filter(p)`. */
  function Filter<T>(p: T -> bool, s: seq<T>): (r: seq<T>)
    ensures |r| <= |s|
    ensures forall i :: 0 <= i < |r| ==> r[i] in s && p(r[i])
    ensures forall i :: 0 <= i < |s| && p(s[i]) ==> s[i] in r
  {
    if s == [] then [] else (if p(s[0]) then [s[0]] else []) + Filter(p, s[1..])
  }

  /** Filtering distributes over concatenation: the kept elements stay in input order. */
  lemma {:induction false} FilterAppend<T>(p: T -> bool, a: seq<T>, b: seq<T>)
    ensures Filter(p, a + b) == Filter(p, a) + Filter(p, b)
  {
    if a == [] {
      assert a + b == b;
    } else {
      assert (a + b)[1..] == a[1..] + b;
      FilterAppend(p, a[1..], b);
    }
  }

  /** `idx` lists strictly increasing positions of `s` whose elements, in turn, are `r`. */
  ghost predicate Positions<T>(r: seq<T>, s: seq<T>, idx: seq<nat>) {
    && |idx| == |r|
    && (forall i :: 0 <= i < |idx| ==> idx[i] < |s| && r[i] == s[idx[i]])
    && (forall i, j :: 0 <= i < j < |idx| ==> idx[i] < idx[j])
  }

  /** `r` is an ordered sublist of `s`: it keeps some of its elements, in their order. */
  ghost predicate SublistOf<T>(r: seq<T>, s: seq<T>) {
    exists idx :: Positions(r, s, idx)
  }

  /** Every list is a sublist of itself, at the positions 0, 1, 2, ... */
  lemma SublistOfSelf<T>(s: seq<T>)
    ensures SublistOf(s, s)
  {
    assert Positions(s, s, seq(|s|, i requires 0 <= i < |s| => i));
  }

  /** Every position one further on. */
  function Shift(idx: seq<nat>): (r: seq<nat>)
    ensures |r| == |idx| && forall i :: 0 <= i < |idx| ==> r[i] == idx[i] + 1
  {
    if idx == [] then [] else [idx[0] + 1] + Shift(idx[1..])
  }

  /** The positions in `x :: s` of elements kept from `s`, with `x` itself kept or not. */
  lemma ConsPositions<T>(x: T, keep: bool, s: seq<T>, r: seq<T>, idx: seq<nat>)
    requires Positions(r, s, idx)
    ensures keep ==> Positions([x] + r, [x] + s, [0] + Shift(idx))
    ensures !keep ==> Positions(r, [x] + s, Shift(idx))
  {
    var sh := Shift(idx);
    var xs := [x] + s;
    forall i | 0 <= i < |sh|
      ensures sh[i] < |xs| && r[i] == xs[sh[i]]
    {
      assert xs[idx[i] + 1] == s[idx[i]];
    }
    assert Positions(r, xs, sh);
    if keep {
      var xr := [x] + r;
      var xi := [0] + sh;
      forall i | 0 <= i < |xi|
        ensures xi[i] < |xs| && xr[i] == xs[xi[i]]
      {
        if i > 0 {
          assert xi[i] == sh[i - 1] && xr[i] == r[i - 1];
        }
      }
      forall i, j | 0 <= i < j < |xi|
        ensures xi[i] < xi[j]
      {
        assert xi[j] == sh[j - 1];
        if i > 0 {
          assert xi[i] == sh[i - 1];
        }
      }
    }
  }

  /** The positions a filter keeps. */
  lemma {:induction false} FilterPositions<T>(p: T -> bool, s: seq<T>) returns (idx: seq<nat>)
    ensures Positions(Filter(p, s), s, idx)
  {
    if s == [] {
      idx := [];
    } else {
      var rest := FilterPositions(p, s[1..]);
      assert s == [s[0]] + s[1..];
      ConsPositions(s[0], p(s[0]), s[1..], Filter(p, s[1..]), rest);
      idx := if p(s[0]) then [0] + Shift(rest) else Shift(rest);
    }
  }

  /** A filter returns an ordered sublist of its input. */
  lemma FilterIsSublist<T>(p: T -> bool, s: seq<T>)
    ensures SublistOf(Filter(p, s), s)
  {
    var idx := FilterPositions(p, s);
  }

  /** An element is kept exactly when it is in the input and passes the test. */
  lemma FilterMembers<T>(p: T -> bool, s: seq<T>)
    ensures forall x :: x in Filter(p, s) <==> x in s && p(x)
  {
    var r := Filter(p, s);
    forall x | x in r
      ensures x in s && p(x)
    {
      var i :| 0 <= i < |r| && r[i] == x;
    }
    forall x | x in s && p(x)
      ensures x in r
    {
      var i :| 0 <= i < |s| && s[i] == x;
    }
  }

  /** Filtering a list with one more element at the end. */
  lemma FilterSnoc<T>(p: T -> bool, s: seq<T>, x: T)
    ensures Filter(p, s + [x]) == Filter(p, s) + (if p(x) then [x] else [])
  {
    FilterAppend(p, s, [x]);
    assert [x][1..] == [];
  }

  /** A filter that every element passes returns its input. */
  lemma {:induction false} FilterKeepsAll<T>(p: T -> bool, s: seq<T>)
    requires forall i :: 0 <= i < |s| ==> p(s[i])
    ensures Filter(p, s) == s
  {
    if s != [] {
      FilterKeepsAll(p, s[1..]);
    }
  }

  /** Two filters in a row keep what passes both tests (`pq`), in input order. */
  lemma {:induction false} FilterFilter<T>(p: T -> bool, q: T -> bool, pq: T -> bool, s: seq<T>)
    requires forall x :: pq(x) == (p(x) && q(x))
    ensures Filter(q, Filter(p, s)) == Filter(pq, s)
  {
    if s != [] {
      FilterFilter(p, q, pq, s[1..]);
      if p(s[0]) {
        var kept := [s[0]] + Filter(p, s[1..]);
        assert Filter(p, s) == kept;
        assert kept[0] == s[0] && kept[1..] == Filter(p, s[1..]);
        assert Filter(q, kept) == (if q(s[0]) then [s[0]] else []) + Filter(q, Filter(p, s[1..]));
      } else {
        assert Filter(p, s) == Filter(p, s[1..]);
      }
    }
  }

  /** A filter that no element passes returns the empty list. */
  lemma {:induction false} FilterNone<T>(p: T -> bool, s: seq<T>)
    requires forall i :: 0 <= i < |s| ==> !p(s[i])
    ensures Filter(p, s) == []
  {
    if s != [] {
      FilterNone(p, s[1..]);
    }
  }

  /** Filtering twice by the same test changes nothing the second time. */
  lemma FilterTwice<T>(p: T -> bool, s: seq<T>)
    ensures Filter(p, Filter(p, s)) == Filter(p, s)
  {
    FilterKeepsAll(p, Filter(p, s));
  }

  /** The filters of `p` and of `!p` split the input: their sizes add up to its length. */
  lemma {:induction false} FilterSplit<T>(p: T -> bool, s: seq<T>)
    ensures |Filter(p, s)| + |Filter(x => !p(x), s)| == |s|
  {
    if s != [] {
      FilterSplit(p, s[1..]);
    }
  }

  /** Index of the first element satisfying `p` (`findIndex`), or |s|. */
  function FirstIndex<T>(p: T -> bool, s: seq<T>): (k: nat)
    ensures k <= |s|
    ensures k < |s| ==> p(s[k])
    ensures forall j :: 0 <= j < k ==> !p(s[j])
  {
    if s == [] then 0 else if p(s[0]) then 0 else 1 + FirstIndex(p, s[1..])
  }

  // ------------------------------------------------------------ counter objects

  /** A counter entry `[name, value]` of `Object.entries(counts)`. */
  datatype Entry<K> = Entry(name: K, value: nat)

  /** `k` is a key of the counter object. */
  predicate HasName<K(==)>(es: seq<Entry<K>>, k: K) {
    es != [] && (es[0].name == k || HasName(es[1..], k))
  }

  /** Every key appears in one entry only. */
  predicate DistinctNames<K(==)>(es: seq<Entry<K>>) {
    es == [] || (!HasName(es[1..], es[0].name) && DistinctNames(es[1..]))
  }

  /** `counts[k]`, with an absent key read as 0 (`counts[k] || 0`). */
  function Lookup<K(==)>(es: seq<Entry<K>>, k: K): nat {
    if es == [] then 0 else if es[0].name == k then es[0].value else Lookup(es[1..], k)
  }

  /** `counts[k] = (counts[k] || 0) + 1`: a new key goes last, an existing one keeps its place. */
  function Bump<K(==)>(es: seq<Entry<K>>, k: K): seq<Entry<K>> {
    if es == [] then [Entry(k, 1)]
    else if es[0].name == k then [Entry(k, es[0].value + 1)] + es[1..]
    else [es[0]] + Bump(es[1..], k)
  }

  function SumValues<K>(es: seq<Entry<K>>): nat {
    if es == [] then 0 else es[0].value + SumValues(es[1..])
  }

  lemma SumOfFour<K>(es: seq<Entry<K>>)
    requires |es| == 4
    ensures SumValues(es) == es[0].value + es[1].value + es[2].value + es[3].value
  {
    var t1, t2, t3 := es[1..], es[2..], es[3..];
    assert t1[1..] == t2 && t2[1..] == t3 && t3[1..] == [];
    assert SumValues(t3) == es[3].value;
    assert SumValues(t2) == es[2].value + es[3].value;
  }

  /** One increment: the sum grows by one, only `k`'s count changes, keys stay distinct. */
  lemma {:induction false} BumpFacts<K>(es: seq<Entry<K>>, k: K)
    requires DistinctNames(es)
    ensures SumValues(Bump(es, k)) == SumValues(es) + 1
    ensures DistinctNames(Bump(es, k))
    ensures forall x :: HasName(Bump(es, k), x) <==> HasName(es, x) || x == k
    ensures Lookup(Bump(es, k), k) == Lookup(es, k) + 1
    ensures forall x :: x != k ==> Lookup(Bump(es, k), x) == Lookup(es, x)
  {
    if es != [] {
      var b := Bump(es, k);
      if es[0].name == k {
        assert b[1..] == es[1..];
      } else {
        BumpFacts(es[1..], k);
        assert b[1..] == Bump(es[1..], k);
      }
    }
  }

  /** The counter object after a `for (const a of s) counts[key(a)]++` loop. */
  function Tally<T, K(==)>(key: T -> K, s: seq<T>): seq<Entry<K>> {
    if s == [] then [] else Bump(Tally(key, s[..|s| - 1]), key(s[|s| - 1]))
  }

  /** The tally of one more element of `s` bumps that element's key. */
  lemma TallyStep<T, K>(key: T -> K, s: seq<T>, i: nat)
    requires i < |s|
    ensures Tally(key, s[..i + 1]) == Bump(Tally(key, s[..i]), key(s[i]))
  {
    assert s[..i + 1][..i] == s[..i];
  }

  /** Number of elements of `s` whose key is `k`. */
  function CountKey<T, K(==)>(key: T -> K, s: seq<T>, k: K): nat {
    if s == [] then 0 else CountKey(key, s[..|s| - 1], k) + (if key(s[|s| - 1]) == k then 1 else 0)
  }

  /**
   * The counter holds one entry per distinct key, each key's count is the number
   * of elements with that key, and the counts add up to the number of elements.
   */
  lemma {:induction false} TallyFacts<T, K>(key: T -> K, s: seq<T>)
    ensures DistinctNames(Tally(key, s))
    ensures SumValues(Tally(key, s)) == |s|
    ensures forall k :: HasName(Tally(key, s), k) <==> exists i :: 0 <= i < |s| && key(s[i]) == k
    ensures forall k :: Lookup(Tally(key, s), k) == CountKey(key, s, k)
  {
    if s != [] {
      var init := s[..|s| - 1];
      TallyFacts(key, init);
      BumpFacts(Tally(key, init), key(s[|s| - 1]));
      forall k | exists i :: 0 <= i < |s| && key(s[i]) == k
        ensures HasName(Tally(key, s), k)
      {
        var i :| 0 <= i < |s| && key(s[i]) == k;
        if i < |init| { assert key(init[i]) == k; }
      }
      forall k | HasName(Tally(key, s), k)
        ensures exists i :: 0 <= i < |s| && key(s[i]) == k
      {
        if k != key(s[|s| - 1]) {
          var i :| 0 <= i < |init| && key(init[i]) == k;
          assert key(s[i]) == k;
        }
      }
    }
  }
}
