/** Page arithmetic: `Array.prototype.slice` on non-negative bounds,
    `Math.ceil(n / k)` on integers, the page `(p - 1)k .. pk` of a list
    (`getPaginatedPoems` in src/utils/DataManager.js, `renderPoemList` in
    src/main.js) and the result object of `getPaginatedPoems`. */
module Paging {

  function Min(a: int, b: int): int {
    if a <= b then a else b
  }

  function Max(a: int, b: int): int {
    if a <= b then b else a
  }

  /** `s.slice(start, end)` for non-negative bounds: both bounds are clamped
      to the length, and a reversed range is empty. */
  function Slice<T>(s: seq<T>, start: nat, end: nat): (r: seq<T>)
    ensures |r| == Max(0, Min(end, |s|) - Min(start, |s|))
    ensures forall k :: 0 <= k < |r| ==> start + k < |s| && r[k] == s[start + k]
  {
    var lo := Min(start, |s|);
    var hi := Min(end, |s|);
    if hi <= lo then [] else s[lo..hi]
  }

  /** `Math.ceil(n / k)`: the least number of blocks of `k` that hold `n` items. */
  function CeilDiv(n: nat, k: nat): (c: nat)
    requires k >= 1
    ensures c * k >= n
    ensures c == 0 || (c - 1) * k < n
  {
    (n + k - 1) / k
  }

  /** There are no pages exactly when there are no items. */
  lemma CeilDivZero(n: nat, k: nat)
    requires k >= 1
    ensures CeilDiv(n, k) == 0 <==> n == 0
  {
  }

  /** Page `p` (from 1) of `k` items: `s.slice((p - 1) * k, (p - 1) * k + k)`. */
  function PageItems<T>(s: seq<T>, p: nat, k: nat): (r: seq<T>)
    requires p >= 1 && k >= 1
    ensures |r| <= k
    ensures forall j :: 0 <= j < |r| ==> (p - 1) * k + j < |s| && r[j] == s[(p - 1) * k + j]
  {
    Slice(s, (p - 1) * k, (p - 1) * k + k)
  }

  lemma MulLe(a: nat, b: nat, k: nat)
    requires a <= b
    ensures a * k <= b * k
  {
  }

  /** A page is empty exactly when its number is past the page count; in
      particular every list, the empty one included, has an empty page 1
      only when it is empty. */
  lemma PageEmptyIffPastLast<T>(s: seq<T>, p: nat, k: nat)
    requires p >= 1 && k >= 1
    ensures PageItems(s, p, k) == [] <==> p > CeilDiv(|s|, k)
  {
    var c := CeilDiv(|s|, k);
    if p > c {
      MulLe(c, p - 1, k);
    } else {
      MulLe(p - 1, c - 1, k);
    }
  }

  /** Every page but the last is full. */
  lemma PageFull<T>(s: seq<T>, p: nat, k: nat)
    requires p >= 1 && k >= 1 && p < CeilDiv(|s|, k)
    ensures |PageItems(s, p, k)| == k
  {
    MulLe(p, CeilDiv(|s|, k) - 1, k);
  }

  /** Pages 1 to `m`, one after the other. */
  function Pages<T>(s: seq<T>, k: nat, m: nat): seq<T>
    requires k >= 1
  {
    if m == 0 then [] else Pages(s, k, m - 1) + PageItems(s, m, k)
  }

  /** The first `m` pages are the first `m * k` items (or all of them). */
  lemma PagesPrefix<T>(s: seq<T>, k: nat, m: nat)
    requires k >= 1
    ensures Pages(s, k, m) == s[..Min(m * k, |s|)]
  {
    PagesPrefixAt(s, k, m, m * k);
  }

  /** The same with the item count `n = m * k` named, so the induction
      does no multiplication. */
  lemma {:induction false} PagesPrefixAt<T>(s: seq<T>, k: nat, m: nat, n: nat)
    requires k >= 1 && n == m * k
    ensures Pages(s, k, m) == s[..Min(n, |s|)]
  {
    if m > 0 {
      PageBounds(s, m, k, n);
      PagesPrefixAt(s, k, m - 1, n - k);
      SliceWithin(s, n - k, n);
      PrefixJoin(s, Min(n - k, |s|), Min(n, |s|));
    }
  }

  /** Page `m` of `k` items ends at item `n = m * k`. */
  lemma PageBounds<T>(s: seq<T>, m: nat, k: nat, n: nat)
    requires m >= 1 && k >= 1 && n == m * k
    ensures n >= k && n - k == (m - 1) * k
    ensures PageItems(s, m, k) == Slice(s, n - k, n)
  {
  }

  /** A slice with ordered bounds is the sequence slice between the clamped bounds. */
  lemma SliceWithin<T>(s: seq<T>, start: nat, end: nat)
    requires start <= end
    ensures Slice(s, start, end) == s[Min(start, |s|)..Min(end, |s|)]
  {
  }

  /** A prefix followed by the next part is the longer prefix. */
  lemma PrefixJoin<T>(s: seq<T>, lo: nat, hi: nat)
    requires lo <= hi <= |s|
    ensures s[..lo] + s[lo..hi] == s[..hi]
  {
  }

  /** Pages 1 to `ceil(n / k)` put together give back the whole list. */
  lemma PagesCoverAll<T>(s: seq<T>, k: nat)
    requires k >= 1
    ensures Pages(s, k, CeilDiv(|s|, k)) == s
  {
    PagesPrefix(s, k, CeilDiv(|s|, k));
  }

  /** The object `getPaginatedPoems` returns. */
  datatype PageResult<T> = PageResult(items: seq<T>, totalItems: nat, currentPage: nat, totalPages: nat, hasMore: bool)

  /** The page `p` of `k` items of `s`, with its counts. */
  function Paginate<T>(s: seq<T>, p: nat, k: nat): (r: PageResult<T>)
    requires p >= 1 && k >= 1
    ensures r.items == PageItems(s, p, k) && r.currentPage == p
    ensures r.totalItems == |s| && r.totalPages == CeilDiv(|s|, k)
    ensures r.hasMore <==> p * k < |s|
  {
    var start := (p - 1) * k;
    var end := start + k;
    assert end == p * k;
    PageResult(Slice(s, start, end), |s|, p, CeilDiv(|s|, k), end < |s|)
  }

  /** More items follow exactly when the next page is non-empty, which is
      exactly when this is not the last page. */
  lemma HasMoreIffNextPage<T>(s: seq<T>, p: nat, k: nat)
    requires p >= 1 && k >= 1
    ensures Paginate(s, p, k).hasMore <==> PageItems(s, p + 1, k) != []
    ensures Paginate(s, p, k).hasMore <==> p < CeilDiv(|s|, k)
  {
    PageEmptyIffPastLast(s, p + 1, k);
  }
}
