/** The row of page buttons both paginators draw: a contiguous window of
    page numbers, with page 1 in front and the last page behind when the
    window does not reach them, and a '...' wherever numbers are skipped.
    `generatePageNumbers` in src/components/Pagination/Pagination.jsx and
    `renderPagination` in src/main.js build it with different windows. */
module PageList {

  /** One entry of the row: a page button or an ellipsis. */
  datatype PageEntry = Page(n: int) | Ellipsis

  /** The numbers `lo`, `lo + 1`, ..., `hi` (none when `hi < lo`). */
  function IntRange(lo: int, hi: int): (r: seq<int>)
    ensures |r| == if hi < lo then 0 else hi - lo + 1
    ensures forall k :: 0 <= k < |r| ==> r[k] == lo + k
    decreases hi - lo
  {
    if hi < lo then [] else IntRange(lo, hi - 1) + [hi]
  }

  /** The buttons for pages `lo` to `hi`, pushed one by one. */
  function Range(lo: int, hi: int): (r: seq<PageEntry>)
    ensures |r| == if hi < lo then 0 else hi - lo + 1
    ensures forall k :: 0 <= k < |r| ==> r[k] == Page(lo + k)
    decreases hi - lo
  {
    if hi < lo then [] else Range(lo, hi - 1) + [Page(hi)]
  }

  /** Each number strictly above the one before. */
  predicate StrictlyIncreasing(nums: seq<int>) {
    forall i, j :: 0 <= i < j < |nums| ==> nums[i] < nums[j]
  }

  /** The row for an increasing list of page numbers: a button per number,
      and an ellipsis between two neighbours exactly when they are more than
      one apart. */
  function Decorate(nums: seq<int>): (r: seq<PageEntry>)
    ensures |r| >= |nums|
  {
    if nums == [] then []
    else if |nums| == 1 then [Page(nums[0])]
    else
      var init := nums[..|nums| - 1];
      Decorate(init) + Gap(init[|init| - 1], nums[|nums| - 1]) + [Page(nums[|nums| - 1])]
  }

  /** What stands between the buttons of two neighbouring numbers. */
  function Gap(prev: int, next: int): seq<PageEntry> {
    if next > prev + 1 then [Ellipsis] else []
  }

  /** The row both paginators push for the window `start..end` of `total`
      pages: page 1 and a '...' when the window starts late, the window,
      then a '...' and the last page when it ends early. */
  function Bar(start: int, end: int, total: int): seq<PageEntry> {
    Front(start) + Range(start, end) + Back(end, total)
  }

  /** Page 1, and a '...' after it, when the window starts late. */
  function Front(start: int): seq<PageEntry> {
    if start > 1 then [Page(1)] + (if start > 2 then [Ellipsis] else []) else []
  }

  /** A '...' and the last page when the window ends early. */
  function Back(end: int, total: int): seq<PageEntry> {
    if end < total then (if end < total - 1 then [Ellipsis] else []) + [Page(total)] else []
  }

  /** The pushes both paginators make for the window `start..end`. */
  method PushBar(start: int, end: int, total: int) returns (pages: seq<PageEntry>)
    ensures pages == Bar(start, end, total)
  {
    pages := [];
    if start > 1 {
      pages := pages + [Page(1)];
      if start > 2 {
        pages := pages + [Ellipsis];
      }
    }
    assert pages == Front(start);
    pages := PushRange(pages, start, end);
    var middle := pages;
    if end < total {
      if end < total - 1 {
        pages := pages + [Ellipsis];
      }
      pages := pages + [Page(total)];
    }
    assert pages == middle + Back(end, total);
  }

  /** The loop pushing the window's buttons, from `start` to `end`. */
  method PushRange(pages: seq<PageEntry>, start: int, end: int) returns (r: seq<PageEntry>)
    ensures r == pages + Range(start, end)
  {
    r := pages;
    var i := start;
    while i <= end
      invariant start <= i && (i <= end + 1 || i == start)
      invariant r == pages + Range(start, i - 1)
      decreases end - i
    {
      assert Range(start, i) == Range(start, i - 1) + [Page(i)];
      r := r + [Page(i)];
      i := i + 1;
    }
    if start <= end {
      assert i - 1 == end;
    } else {
      assert Range(start, i - 1) == [] == Range(start, end);
    }
  }

  /** The page numbers shown for the window `start..end` of `total` pages. */
  function BarNumbers(start: int, end: int, total: int): seq<int> {
    (if start > 1 then [1] else []) + IntRange(start, end) + (if end < total then [total] else [])
  }

  /** A run of consecutive numbers gets no ellipsis. */
  lemma {:induction false} DecorateRange(lo: int, hi: int)
    ensures Decorate(IntRange(lo, hi)) == Range(lo, hi)
    decreases hi - lo
  {
    if lo < hi {
      DecorateRange(lo, hi - 1);
      assert IntRange(lo, hi)[..hi - lo] == IntRange(lo, hi - 1);
    }
  }

  /** Appending a number above the last adds its button, and an ellipsis
      when it is more than one above the last. */
  lemma DecorateSnoc(xs: seq<int>, y: int)
    requires xs != []
    ensures Decorate(xs + [y]) == Decorate(xs) + Gap(xs[|xs| - 1], y) + [Page(y)]
    ensures y == xs[|xs| - 1] + 1 ==> Decorate(xs + [y]) == Decorate(xs) + [Page(y)]
  {
    var s := xs + [y];
    var init := s[..|s| - 1];
    assert init == xs;
    assert s[|s| - 1] == y;
    assert init[|init| - 1] == xs[|xs| - 1];
    assert Decorate(s) == Decorate(init) + Gap(init[|init| - 1], s[|s| - 1]) + [Page(s[|s| - 1])];
    if y == xs[|xs| - 1] + 1 {
      assert Gap(xs[|xs| - 1], y) == [];
      assert Decorate(xs) + [] == Decorate(xs);
    }
  }

  /** The front part of the row: page 1 and the '...' before a late window. */
  lemma DecorateFront(start: int, end: int)
    requires 1 <= start <= end
    ensures Decorate((if start > 1 then [1] else []) + IntRange(start, end)) == Front(start) + Range(start, end)
  {
    var nums := (if start > 1 then [1] else []) + IntRange(start, end);
    if start > 1 {
      assert nums == [1] + IntRange(start, end);
      DecorateLate(start, end);
    } else {
      assert nums == IntRange(start, end);
      DecorateRange(start, end);
    }
  }

  /** A window starting after page 1 gets page 1 in front, and a '...' when
      it starts after page 2. */
  lemma {:induction false} DecorateLate(start: int, end: int)
    requires 1 < start <= end
    ensures Decorate([1] + IntRange(start, end)) == Front(start) + Range(start, end)
    decreases end - start
  {
    if end == start {
      DecorateLateFirst(start);
    } else {
      DecorateLate(start, end - 1);
      DecorateLateNext(start, end);
    }
  }

  /** The base case: a window of one page. */
  lemma DecorateLateFirst(start: int)
    requires 1 < start
    ensures Decorate([1] + IntRange(start, start)) == Front(start) + Range(start, start)
  {
    assert [1] + IntRange(start, start) == [1] + [start];
    DecorateSnoc([1], start);
    assert Decorate([1]) == [Page(1)];
    assert Front(start) == [Page(1)] + Gap(1, start);
    assert Range(start, start) == [Page(start)];
  }

  /** The step: one more page at the end of the window. */
  lemma DecorateLateNext(start: int, end: int)
    requires 1 < start < end
    requires Decorate([1] + IntRange(start, end - 1)) == Front(start) + Range(start, end - 1)
    ensures Decorate([1] + IntRange(start, end)) == Front(start) + Range(start, end)
  {
    var init := [1] + IntRange(start, end - 1);
    assert IntRange(start, end) == IntRange(start, end - 1) + [end];
    assert [1] + IntRange(start, end) == init + [end];
    assert init[|init| - 1] == end - 1;
    DecorateSnoc(init, end);
    assert Range(start, end) == Range(start, end - 1) + [Page(end)];
  }

  /** The row is the decorated list of its page numbers: an ellipsis stands
      exactly between neighbours more than one apart. */
  lemma BarDecorated(start: int, end: int, total: int)
    requires 1 <= start <= end <= total
    ensures Bar(start, end, total) == Decorate(BarNumbers(start, end, total))
  {
    var withFront := (if start > 1 then [1] else []) + IntRange(start, end);
    var middle := Front(start) + Range(start, end);
    DecorateFront(start, end);
    assert Bar(start, end, total) == middle + Back(end, total);
    if end < total {
      assert withFront[|withFront| - 1] == end;
      assert BarNumbers(start, end, total) == withFront + [total];
      DecorateSnoc(withFront, total);
      assert Back(end, total) == Gap(end, total) + [Page(total)];
      Associate(middle, Gap(end, total), [Page(total)]);
    } else {
      assert BarNumbers(start, end, total) == withFront;
      assert Back(end, total) == [];
      assert middle + [] == middle;
    }
  }

  /** The page numbers strictly increase from 1 to `total` and include the
      whole window. */
  lemma BarNumbersIncreasing(start: int, end: int, total: int)
    requires 1 <= start <= end <= total
    ensures StrictlyIncreasing(BarNumbers(start, end, total))
    ensures BarNumbers(start, end, total)[0] == 1
    ensures BarNumbers(start, end, total)[|BarNumbers(start, end, total)| - 1] == total
    ensures forall p :: start <= p <= end ==> p in BarNumbers(start, end, total)
  {
    var mid := IntRange(start, end);
    var nums := BarNumbers(start, end, total);
    forall p | start <= p <= end
      ensures p in nums
    {
      assert mid[p - start] == p;
    }
  }

  lemma Associate<T>(a: seq<T>, b: seq<T>, c: seq<T>)
    ensures a + b + c == a + (b + c)
  {
  }

  /** Page numbers, in order, of a row. */
  function Numbers(s: seq<PageEntry>): (r: seq<int>)
    ensures |r| <= |s|
  {
    if s == [] then []
    else Numbers(s[..|s| - 1]) + (if s[|s| - 1].Page? then [s[|s| - 1].n] else [])
  }

  /** Decorating loses no number and adds none: reading the numbers back
      gives the list decorated. */
  lemma {:induction false} NumbersDecorate(nums: seq<int>)
    ensures Numbers(Decorate(nums)) == nums
  {
    if |nums| == 1 {
      assert nums == [nums[0]];
      NumbersPage(nums[0]);
    } else if |nums| > 1 {
      var init := nums[..|nums| - 1];
      var last := nums[|nums| - 1];
      assert nums == init + [last];
      DecorateSnoc(init, last);
      NumbersDecorate(init);
      NumbersNext(Decorate(init), init[|init| - 1], last);
    }
  }

  /** The numbers of a row followed by a gap and one more button. */
  lemma NumbersNext(d: seq<PageEntry>, prev: int, last: int)
    ensures Numbers(d + Gap(prev, last) + [Page(last)]) == Numbers(d) + [last]
  {
    var gap := Gap(prev, last);
    NumbersAppend(d + gap, [Page(last)]);
    NumbersAppend(d, gap);
    NumbersGap(prev, last);
    NumbersPage(last);
    assert Numbers(d) + [] == Numbers(d);
  }

  lemma NumbersPage(n: int)
    ensures Numbers([Page(n)]) == [n]
  {
    assert [Page(n)][..0] == [];
  }

  lemma NumbersGap(prev: int, next: int)
    ensures Numbers(Gap(prev, next)) == []
  {
    assert [Ellipsis][..0] == [];
  }

  lemma {:induction false} NumbersAppend(a: seq<PageEntry>, b: seq<PageEntry>)
    ensures Numbers(a + b) == Numbers(a) + Numbers(b)
    decreases |b|
  {
    if b == [] {
      assert a + b == a;
    } else {
      var init := b[..|b| - 1];
      assert (a + b)[..|a + b| - 1] == a + init;
      NumbersAppend(a, init);
    }
  }
}
