/** The pagination component of src/components/Pagination/Pagination.jsx:
    the page count, the seven-page window of `generatePageNumbers`, the
    "items a to b of n" line and the previous/next buttons. */
module PaginationView {
  import opened Maybe
  import opened Paging
  import opened PageList

  const MaxVisiblePages: int := 7

  /** The window `startPage..endPage` for more than seven pages: centred on
      the current page where it fits, pushed against either end where not. */
  function SevenWindow(cur: int, total: int): (w: (int, int))
    requires total > MaxVisiblePages
    ensures w.1 - w.0 == MaxVisiblePages - 1
    ensures 1 <= w.0 && w.1 <= total
    ensures 1 <= cur <= total ==> w.0 <= cur <= w.1
    ensures 4 <= cur <= total - 3 ==> w.0 == cur - 3
  {
    var halfVisible := MaxVisiblePages / 2;
    var start := Max(1, cur - halfVisible);
    var end := Min(total, start + MaxVisiblePages - 1);
    var start' := if end - start < MaxVisiblePages - 1 then Max(1, end - MaxVisiblePages + 1) else start;
    (start', end)
  }

  /** What `generatePageNumbers` returns. */
  function PageNumbers(cur: int, total: nat): seq<PageEntry> {
    if total <= MaxVisiblePages then Range(1, total)
    else
      var w := SevenWindow(cur, total);
      Bar(w.0, w.1, total)
  }

  /** `generatePageNumbers`: every page when there are at most seven,
      otherwise page 1, the window and the last page, with '...' where
      pages are skipped. */
  method GeneratePageNumbers(cur: int, total: nat) returns (pages: seq<PageEntry>)
    ensures pages == PageNumbers(cur, total)
  {
    pages := [];
    if total <= MaxVisiblePages {
      for i := 1 to total + 1
        invariant pages == Range(1, i - 1)
      {
        assert Range(1, i) == Range(1, i - 1) + [Page(i)];
        pages := pages + [Page(i)];
      }
    } else {
      var halfVisible := MaxVisiblePages / 2;
      var startPage := Max(1, cur - halfVisible);
      var endPage := Min(total, startPage + MaxVisiblePages - 1);
      if endPage - startPage < MaxVisiblePages - 1 {
        startPage := Max(1, endPage - MaxVisiblePages + 1);
      }
      assert (startPage, endPage) == SevenWindow(cur, total);
      pages := PushBar(startPage, endPage, total);
    }
  }

  /** With at most seven pages every page is listed, in order, without '...'. */
  lemma FewPagesAllListed(cur: int, total: nat)
    requires total <= MaxVisiblePages
    ensures |PageNumbers(cur, total)| == total
    ensures forall k :: 0 <= k < total ==> PageNumbers(cur, total)[k] == Page(k + 1)
    ensures Ellipsis !in PageNumbers(cur, total)
  {
  }

  /** With more than seven pages the list is page 1, a window of exactly
      seven pages holding the current page, and the last page; the numbers
      strictly increase and a '...' stands exactly between numbers more than
      one apart. */
  lemma ManyPagesWindow(cur: int, total: nat)
    requires total > MaxVisiblePages
    ensures var w := SevenWindow(cur, total);
      && PageNumbers(cur, total) == Decorate(BarNumbers(w.0, w.1, total))
      && StrictlyIncreasing(BarNumbers(w.0, w.1, total))
      && BarNumbers(w.0, w.1, total)[0] == 1
      && BarNumbers(w.0, w.1, total)[|BarNumbers(w.0, w.1, total)| - 1] == total
      && (1 <= cur <= total ==> cur in BarNumbers(w.0, w.1, total))
  {
    var w := SevenWindow(cur, total);
    BarDecorated(w.0, w.1, total);
    BarNumbersIncreasing(w.0, w.1, total);
  }

  /** What the component draws: the item range line, the previous button,
      the page entries and the next button. */
  datatype View = View(
    firstItem: int,
    lastItem: int,
    totalItems: nat,
    prevDisabled: bool,
    pages: seq<PageEntry>,
    nextDisabled: bool)

  /** The component for page `cur` of `totalItems` items, `per` to a page;
      nothing when there is at most one page. */
  function Render(cur: int, totalItems: nat, per: nat): (v: Option<View>)
    requires per >= 1
    ensures v.None? <==> CeilDiv(totalItems, per) <= 1
  {
    var totalPages := CeilDiv(totalItems, per);
    if totalPages <= 1 then None
    else Some(View((cur - 1) * per + 1, Min(cur * per, totalItems), totalItems,
                   cur == 1, PageNumbers(cur, totalPages), cur == totalPages))
  }

  /** The component is drawn exactly when the items need a second page. */
  lemma RenderedIffMoreThanOnePage(cur: int, totalItems: nat, per: nat)
    requires per >= 1
    ensures Render(cur, totalItems, per).Some? <==> totalItems > per
  {
    var c := CeilDiv(totalItems, per);
    if totalItems > per {
      assert c * per >= totalItems;
      if c <= 1 {
        MulLe(c, 1, per);
      }
    } else if c >= 2 {
      MulLe(1, c - 1, per);
    }
  }

  /** The range line names exactly the items of the current page: items
      `firstItem` to `lastItem`, counting from 1, are that page. */
  lemma InfoLineMatchesPage<T>(s: seq<T>, cur: int, per: nat)
    requires per >= 1 && 1 <= cur <= CeilDiv(|s|, per)
    requires Render(cur, |s|, per).Some?
    ensures var v := Render(cur, |s|, per).value;
      && 1 <= v.firstItem <= v.lastItem <= |s|
      && PageItems(s, cur, per) == s[v.firstItem - 1..v.lastItem]
  {
    PageSpan(s, cur, per);
    var v := Render(cur, |s|, per).value;
    assert v.firstItem == (cur - 1) * per + 1 && v.lastItem == Min(cur * per, |s|);
  }

  /** A page in range is the items from `(cur - 1) * per` up to `cur * per`
      or the end. */
  lemma PageSpan<T>(s: seq<T>, cur: int, per: nat)
    requires per >= 1 && 1 <= cur <= CeilDiv(|s|, per)
    ensures 0 <= (cur - 1) * per < Min(cur * per, |s|)
      && PageItems(s, cur, per) == s[(cur - 1) * per..Min(cur * per, |s|)]
  {
    var start := (cur - 1) * per;
    var page := PageItems(s, cur, per);
    PageEmptyIffPastLast(s, cur, per);
    assert start + 0 < |s| && page[0] == s[start + 0];
    assert start + per == cur * per;
    assert page == Slice(s, start, start + per);
  }

  /** From a page in range the enabled buttons lead to pages in range:
      "previous" is enabled only above page 1 and "next" only below the last. */
  lemma NavigationInRange(cur: int, totalItems: nat, per: nat)
    requires per >= 1 && Render(cur, totalItems, per).Some?
    requires 1 <= cur <= CeilDiv(totalItems, per)
    ensures var v := Render(cur, totalItems, per).value;
      && (!v.prevDisabled ==> 1 <= cur - 1 <= CeilDiv(totalItems, per))
      && (!v.nextDisabled ==> 1 <= cur + 1 <= CeilDiv(totalItems, per))
      && (v.prevDisabled <==> cur == 1)
      && (v.nextDisabled <==> cur == CeilDiv(totalItems, per))
  {
  }
}
