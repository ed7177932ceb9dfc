/**
 * Client-side pagination over in-memory arrays: `Array.prototype.slice`,
 * `Math.ceil(n / size)` page counts and the Prev/Next buttons.
 */
module Paging {

  /** `Math.ceil(n / k)` for a natural `n` and a positive `k`. */
  function CeilDiv(n: nat, k: nat): (r: nat)
    requires k > 0
    ensures r * k >= n
    ensures r == 0 || (r - 1) * k < n
  {
    (n + k - 1) / k
  }

  /** `Math.max(1, Math.ceil(n / size))`: the page count shown when at least one page exists. */
  function TotalPages(n: nat, size: nat): (r: nat)
    requires size > 0
    ensures r >= 1
    ensures r * size >= n
    ensures r == 1 || (r - 1) * size < n
  {
    var c := CeilDiv(n, size);
    if c < 1 then 1 else c
  }

  /** An index argument of `slice` as JavaScript resolves it: negative counts from the end. */
  function SliceIndex(n: nat, i: int): (r: nat)
    ensures r <= n
    ensures 0 <= i <= n ==> r == i
  {
    if i < 0 then (if n + i < 0 then 0 else n + i) else if i > n then n else i
  }

  /** `s.slice(start, end)`. */
  function Slice<T>(s: seq<T>, start: int, end: int): seq<T> {
    var a := SliceIndex(|s|, start);
    var b := SliceIndex(|s|, end);
    if b <= a then [] else s[a..b]
  }

  /** `s.slice((page - 1) * size, (page - 1) * size + size)`. */
  function PageOf<T>(s: seq<T>, page: int, size: nat): seq<T> {
    Slice(s, (page - 1) * size, (page - 1) * size + size)
  }

  function Min(a: int, b: int): int { if a < b then a else b }

  function Max(a: int, b: int): int { if a < b then b else a }

  /**
   * A page (numbered from 1) is the run of at most `size` consecutive elements
   * starting at `(page - 1) * size`; for the pages up to `ceil(n / size)` it holds
   * `min(size, n - (page - 1) * size)` elements, and past them it is empty.
   */
  lemma PageShape<T>(s: seq<T>, page: int, size: nat)
    requires page >= 1 && size > 0
    ensures var start := (page - 1) * size;
      && |PageOf(s, page, size)| <= size
      && (start < |s| ==> PageOf(s, page, size) == s[start..Min(start + size, |s|)])
      && (start >= |s| ==> PageOf(s, page, size) == [])
      && (page <= CeilDiv(|s|, size) ==> |PageOf(s, page, size)| == Min(size, |s| - start) > 0)
      && (page > CeilDiv(|s|, size) ==> PageOf(s, page, size) == [])
  {
    var q: nat := page - 1;
    var start := q * size;
    var c := CeilDiv(|s|, size);
    if page <= c {
      MulMono(q, c - 1, size);
    } else {
      MulMono(c, q, size);
    }
  }

  lemma MulMono(a: nat, b: nat, k: nat)
    requires a <= b
    ensures a * k <= b * k
  {
  }

  /** Pages 1 to `k` laid end to end. */
  function Pages<T>(s: seq<T>, size: nat, k: nat): seq<T> {
    if k == 0 then [] else Pages(s, size, k - 1) + PageOf(s, k, size)
  }

  /** The first `k` pages are the first `min(k * size, n)` elements, in order. */
  lemma {:induction false} PagesPrefix<T>(s: seq<T>, size: nat, k: nat)
    requires size > 0
    ensures Pages(s, size, k) == s[..Min(k * size, |s|)]
  {
    if k > 0 {
      PagesPrefix(s, size, k - 1);
      PageShape(s, k, size);
      PageStarts(k, size);
      var start := (k - 1) * size;
      var prev := Pages(s, size, k - 1);
      var page := PageOf(s, k, size);
      assert Pages(s, size, k) == prev + page;
      if start < |s| {
        var e := Min(start + size, |s|);
        assert prev == s[..start] && page == s[start..e];
        PrefixSplit(s, start, e);
      } else {
        assert page == [];
        assert prev == s[..|s|];
      }
    }
  }

  lemma PageStarts(k: nat, size: nat)
    requires k > 0
    ensures 0 <= (k - 1) * size && k * size == (k - 1) * size + size
  {
    MulMono(0, k - 1, size);
  }

  lemma PrefixSplit<T>(s: seq<T>, a: nat, b: nat)
    requires a <= b <= |s|
    ensures s[..a] + s[a..b] == s[..b]
  {
  }

  /** Walking through all `ceil(n / size)` pages shows every element exactly once, in input order. */
  lemma PagesCoverAll<T>(s: seq<T>, size: nat)
    requires size > 0
    ensures Pages(s, size, CeilDiv(|s|, size)) == s
  {
    PagesPrefix(s, size, CeilDiv(|s|, size));
  }

  /** The Prev button: `Math.max(1, p - 1)`. */
  function Prev(p: int): int {
    Max(1, p - 1)
  }

  /** The Next button: `Math.min(total, p + 1)`. */
  function Next(p: int, total: int): int {
    Min(total, p + 1)
  }

  /** From a page in [1, total], Prev and Next stay in [1, total]; Prev never goes below 1. */
  lemma PrevNextInRange(p: int, total: int)
    requires 1 <= p <= total
    ensures 1 <= Prev(p) <= total && 1 <= Next(p, total) <= total
    ensures Prev(p) == (if p == 1 then 1 else p - 1)
    ensures Next(p, total) == (if p == total then total else p + 1)
  {
  }
}
