/** The single-page app of src/main.js: the global `appState` (corpus,
    filtered view, page position, dynasty and author counters) and the
    functions that replace its parts — loading, counting, filtering and the
    page-button click — together with what the page shows from it: the
    overview numbers, the dynasty chart and selector in `dynastyOrder` rank,
    the poems of the current page and the pagination row with its ±2 window. */
module MainPage {
  import opened Text
  import opened Maybe
  import opened CsvLine
  import opened Records
  import opened Counting
  import opened Sorting
  import opened Stats
  import opened Filtering
  import opened Paging
  import opened PageList
  import opened Ranking
  import PaginationView

  /** `parseCSV` of src/main.js: the header line, then each data line that is
      not blank, built into a record (missing values read as ''), cleaned and
      admitted. */
  method ParseCSV(csvText: string) returns (poems: seq<Poem>)
    ensures poems == ParseText(csvText, Lenient)
  {
    var lines := Split(Trim(csvText), '\n');
    var headers := ParseCSVLine(lines[0]);
    var data := lines[1..];
    poems := [];
    for i := 0 to |data|
      invariant poems == ParseRows(headers, data[..i], Lenient)
    {
      var row := ParseRow(headers, data[i]);
      ParseRowsPrefix(headers, data, i, Lenient);
      if row.Some? {
        poems := poems + [row.value];
      }
    }
    assert data[..|data|] == data;
  }

  /** The body of the row loop of `parseCSV`: a line that is not blank is
      read, built into a record, cleaned, and kept if admitted. */
  method ParseRow(headers: seq<string>, line: string) returns (row: Option<Poem>)
    ensures row == RowPoem(headers, line, Lenient)
  {
    if Trim(line) == "" {
      return None;
    }
    var values := ParseCSVLine(line);
    var record := BuildRow(headers, values);
    var poem := ToPoem(record);
    row := if Admitted(poem) then Some(poem) else None;
  }

  /** The two lines' values agree in every header's column. */
  predicate AgreeOnHeaderColumns(headers: seq<string>, line: string, line': string) {
    forall i :: 0 <= i < |headers| ==> ValueAt(ParseLine(line), i) == ValueAt(ParseLine(line'), i)
  }

  /** A blank line gives no record, and a line is never dropped for having
      too few or too many fields: what it yields depends on its first
      `|headers|` values only. */
  lemma LenientRows(headers: seq<string>, line: string, line': string)
    ensures Trim(line) == "" ==> RowPoem(headers, line, Lenient).None?
    ensures Trim(line) != "" && Trim(line') != "" && AgreeOnHeaderColumns(headers, line, line')
            ==> RowPoem(headers, line, Lenient) == RowPoem(headers, line', Lenient)
  {
    if Trim(line) == "" {
      assert RowPoem(headers, line, Lenient) == None;
    } else if Trim(line') != "" && AgreeOnHeaderColumns(headers, line, line') {
      SameLeadingValues(headers, line, line');
    }
  }

  /** Two lines that are not blank and agree on their first `|headers|`
      values yield the same record. */
  lemma SameLeadingValues(headers: seq<string>, line: string, line': string)
    requires Trim(line) != "" && Trim(line') != "" && AgreeOnHeaderColumns(headers, line, line')
    ensures RowPoem(headers, line, Lenient) == RowPoem(headers, line', Lenient)
  {
    var row := RowObject(headers, ParseLine(line));
    RowObjectUsesHeaderColumns(headers, ParseLine(line), ParseLine(line'));
    assert row == RowObject(headers, ParseLine(line'));
    assert RowPoem(headers, line, Lenient) == if Admitted(ToPoem(row)) then Some(ToPoem(row)) else None;
    assert RowPoem(headers, line', Lenient) == if Admitted(ToPoem(row)) then Some(ToPoem(row)) else None;
  }

  /** The order object `dynastyOrder`: ranks 1 to 7 in this order. */
  const DynastyOrder: seq<string> := ["六朝", "唐", "宋", "元", "明", "清", "当代"]

  /** `dynastyOrder[d] || 999`. */
  function DynastyRank(d: string): int {
    RankIn(DynastyOrder, d)
  }

  function EntryRank(e: Entry): int {
    DynastyRank(e.key)
  }

  /** The bars of `renderDynastyChart`: `Object.entries(dynastyStats)` sorted
      by rank. */
  function ChartRows(t: Table): seq<Entry> {
    SortBy(t, EntryRank)
  }

  /** The options of `renderDynastyFilter`: `Object.keys(dynastyStats)`
      sorted by rank. */
  function FilterOptions(t: Table): seq<string> {
    SortBy(Keys(t), DynastyRank)
  }

  /** In the chart, a listed dynasty never follows an unlisted one, and two
      listed dynasties come in the order of `dynastyOrder`. */
  lemma ChartRowsOrder(t: Table, i: int, j: int)
    requires 0 <= i < j < |ChartRows(t)|
    ensures var a := ChartRows(t)[i].key; var b := ChartRows(t)[j].key;
      && (b in DynastyOrder ==> a in DynastyOrder)
      && (a in DynastyOrder && b in DynastyOrder ==> Position(DynastyOrder, a) <= Position(DynastyOrder, b))
  {
    var a := ChartRows(t)[i].key;
    var b := ChartRows(t)[j].key;
    assert EntryRank(ChartRows(t)[i]) <= EntryRank(ChartRows(t)[j]);
    RankInMeaning(DynastyOrder, a);
    RankInMeaning(DynastyOrder, b);
  }

  /** The chart shows every counter entry once, and the dynasties missing
      from `dynastyOrder` keep the order in which the corpus first named
      them. */
  lemma ChartRowsStable(t: Table)
    ensures multiset(ChartRows(t)) == multiset(t)
    ensures WithKey(ChartRows(t), EntryRank, Unranked) == WithKey(t, EntryRank, Unranked)
  {
    SortByStable(t, EntryRank, Unranked);
  }

  /** The selector lists the dynasties in the same order as the chart. */
  lemma FilterOptionsMatchChart(t: Table)
    ensures FilterOptions(t) == Keys(ChartRows(t))
  {
    KeysSortBy(t, EntryRank, DynastyRank);
  }

  lemma KeysAppend(t: Table, e: Entry)
    ensures Keys(t + [e]) == Keys(t) + [e.key]
  {
  }

  /** Sorting entries by a key of their name and sorting the names by that
      key list the names alike. */
  lemma {:induction false} KeysSortBy(t: Table, entryKey: Entry -> int, nameKey: string -> int)
    requires forall e :: entryKey(e) == nameKey(e.key)
    ensures Keys(SortBy(t, entryKey)) == SortBy(Keys(t), nameKey)
    decreases |t|
  {
    if t != [] {
      var n := |t| - 1;
      var init := t[..n];
      assert Keys(t)[..n] == Keys(init);
      assert Keys(t)[n] == t[n].key;
      var sorted := SortBy(init, entryKey);
      assert SortBy(t, entryKey) == Insert(sorted, t[n], entryKey);
      assert SortBy(Keys(t), nameKey) == Insert(SortBy(Keys(init), nameKey), t[n].key, nameKey);
      KeysSortBy(init, entryKey, nameKey);
      KeysInsert(sorted, t[n], entryKey, nameKey);
    }
  }

  lemma {:induction false} KeysInsert(s: Table, x: Entry, entryKey: Entry -> int, nameKey: string -> int)
    requires forall e :: entryKey(e) == nameKey(e.key)
    ensures Keys(Insert(s, x, entryKey)) == Insert(Keys(s), x.key, nameKey)
    decreases |s|
  {
    if s == [] {
      KeysAppend(s, x);
    } else {
      var n := |s| - 1;
      var ks := Keys(s);
      assert ks[n] == s[n].key;
      assert entryKey(s[n]) == nameKey(ks[n]) && entryKey(x) == nameKey(x.key);
      if entryKey(s[n]) <= entryKey(x) {
        assert Insert(s, x, entryKey) == s + [x];
        assert Insert(ks, x.key, nameKey) == ks + [x.key];
        KeysAppend(s, x);
      } else {
        assert Insert(s, x, entryKey) == Insert(s[..n], x, entryKey) + [s[n]];
        assert Insert(ks, x.key, nameKey) == Insert(ks[..n], x.key, nameKey) + [ks[n]];
        assert ks[..n] == Keys(s[..n]);
        KeysInsert(s[..n], x, entryKey, nameKey);
        KeysAppend(Insert(s[..n], x, entryKey), s[n]);
      }
    }
  }

  /** What `renderPagination` draws: the previous button (disabled on page 1)
      with its target, the page entries, and the next button (disabled on
      the last page) with its target. */
  datatype PaginationBar = PaginationBar(
    prevDisabled: bool,
    prevPage: int,
    pages: seq<PageEntry>,
    nextDisabled: bool,
    nextPage: int)

  /** The window `max(1, cur - 2) .. min(total, cur + 2)`. */
  function Window(cur: int, total: int): (int, int) {
    (Max(1, cur - 2), Min(total, cur + 2))
  }

  /** The pagination row for page `cur` of `n` items, `per` to a page;
      nothing when there is at most one page. */
  function Pagination(n: nat, cur: int, per: nat): Option<PaginationBar>
    requires per >= 1
  {
    var total := CeilDiv(n, per);
    if total <= 1 then None
    else
      var w := Window(cur, total);
      Some(PaginationBar(cur == 1, cur - 1, Bar(w.0, w.1, total), cur == total, cur + 1))
  }

  /** A page the row lets the user go to: an enabled arrow's target or a
      numbered button. */
  predicate Targets(b: PaginationBar, page: int) {
    (!b.prevDisabled && page == b.prevPage) || Page(page) in b.pages || (!b.nextDisabled && page == b.nextPage)
  }

  /** The row is drawn exactly when the items need a second page. */
  lemma PaginationShownIffMoreThanOnePage(n: nat, cur: int, per: nat)
    requires per >= 1
    ensures Pagination(n, cur, per).Some? <==> n > per
  {
    PaginationView.RenderedIffMoreThanOnePage(cur, n, per);
  }

  /** From a page in range the row is page 1, at most five consecutive
      pages around the current one, and the last page, strictly increasing,
      with a '...' exactly between numbers more than one apart. */
  lemma PaginationWindow(n: nat, cur: int, per: nat)
    requires per >= 1 && Pagination(n, cur, per).Some?
    requires 1 <= cur <= CeilDiv(n, per)
    ensures var total := CeilDiv(n, per); var w := Window(cur, total);
      && w.0 <= cur <= w.1 && w.1 - w.0 <= 4
      && (w.0 == cur - 2 || w.0 == 1) && (w.1 == cur + 2 || w.1 == total)
      && Pagination(n, cur, per).value.pages == Decorate(BarNumbers(w.0, w.1, total))
      && StrictlyIncreasing(BarNumbers(w.0, w.1, total))
      && BarNumbers(w.0, w.1, total)[0] == 1
      && BarNumbers(w.0, w.1, total)[|BarNumbers(w.0, w.1, total)| - 1] == total
      && (forall p :: w.0 <= p <= w.1 ==> p in BarNumbers(w.0, w.1, total))
  {
    var total := CeilDiv(n, per);
    var w := Window(cur, total);
    BarDecorated(w.0, w.1, total);
    BarNumbersIncreasing(w.0, w.1, total);
  }

  /** Every page the row lets the user go to is a page in range, and the
      arrows are disabled exactly on the first and on the last page. */
  lemma TargetsInRange(n: nat, cur: int, per: nat, page: int)
    requires per >= 1 && Pagination(n, cur, per).Some?
    requires 1 <= cur <= CeilDiv(n, per)
    ensures var b := Pagination(n, cur, per).value;
      && (b.prevDisabled <==> cur == 1) && (b.nextDisabled <==> cur == CeilDiv(n, per))
      && (Targets(b, page) ==> 1 <= page <= CeilDiv(n, per))
  {
    var total := CeilDiv(n, per);
    var w := Window(cur, total);
    var b := Pagination(n, cur, per).value;
    if Page(page) in b.pages {
      BarPagesInRange(w.0, w.1, total, page);
    }
  }

  /** Every button of the row for a window inside `1..total` is a page of
      `1..total`. */
  lemma BarPagesInRange(start: int, end: int, total: int, page: int)
    requires 1 <= start && end <= total && total >= 1
    requires Page(page) in Bar(start, end, total)
    ensures 1 <= page <= total
  {
    var front := Front(start);
    var mid := Range(start, end);
    var back := Back(end, total);
    assert Bar(start, end, total) == front + mid + back;
    assert Page(page) in front || Page(page) in mid || Page(page) in back;
    if Page(page) in mid {
      var k :| 0 <= k < |mid| && mid[k] == Page(page);
    }
  }

  /** What the poem list shows: the no-results note, or the poems of the
      page followed by the pagination row. */
  datatype ListView = NoResults | Listing(poems: seq<Poem>, pagination: Option<PaginationBar>)

  /** `renderPoemList` for page `cur` of `filtered`, `per` to a page. */
  function PoemListView(filtered: seq<Poem>, cur: nat, per: nat): ListView
    requires cur >= 1 && per >= 1
  {
    var shown := PageItems(filtered, cur, per);
    if shown == [] then NoResults else Listing(shown, Pagination(|filtered|, cur, per))
  }

  /** The list shows the no-results note exactly when the current page is
      past the last one; otherwise it shows that page's poems: those from
      position `(cur - 1) * per` up to `cur * per` or the end of the view. */
  lemma PoemListShows(filtered: seq<Poem>, cur: nat, per: nat)
    requires cur >= 1 && per >= 1
    ensures PoemListView(filtered, cur, per).NoResults? <==> cur > CeilDiv(|filtered|, per)
    ensures PoemListView(filtered, cur, per).Listing? ==>
      && 0 <= (cur - 1) * per < Min(cur * per, |filtered|)
      && PoemListView(filtered, cur, per).poems == filtered[(cur - 1) * per..Min(cur * per, |filtered|)]
  {
    var shown := PageItems(filtered, cur, per);
    PageEmptyIffPastLast(filtered, cur, per);
    assert PoemListView(filtered, cur, per)
        == if shown == [] then NoResults else Listing(shown, Pagination(|filtered|, cur, per));
    if shown != [] {
      PaginationView.PageSpan(filtered, cur, per);
    }
  }

  class AppState {
    var allPoems: seq<Poem>
    var filteredPoems: seq<Poem>
    var currentPage: int
    var poemsPerPage: nat
    var dynastyStats: Table
    var authorStats: Table

    /** Every stored poem is a valid record, the filtered view keeps corpus
        order, and the page position and size are positive. */
    ghost predicate Valid()
      reads this
    {
      && IsSubsequence(filteredPoems, allPoems)
      && (forall k :: 0 <= k < |allPoems| ==> ValidPoem(allPoems[k]))
      && currentPage >= 1 && poemsPerPage >= 1
    }

    /** The counters are the tallies of the corpus, as after `calculateStats`. */
    ghost predicate StatsCurrent()
      reads this
    {
      dynastyStats == Tally(Dynasties(allPoems)) && authorStats == Tally(Authors(allPoems))
    }

    /** The initial `appState`. */
    constructor ()
      ensures allPoems == [] && filteredPoems == []
      ensures currentPage == 1 && poemsPerPage == 10
      ensures dynastyStats == [] && authorStats == []
      ensures Valid() && StatsCurrent()
    {
      allPoems := [];
      filteredPoems := [];
      currentPage := 1;
      poemsPerPage := 10;
      dynastyStats := [];
      authorStats := [];
    }

    /** The part of `loadPoemsData` that runs once the text has arrived:
        the parsed corpus becomes both the corpus and the view. */
    method LoadPoemsData(csvText: string)
      requires Valid()
      modifies this
      ensures allPoems == ParseText(csvText, Lenient) && filteredPoems == allPoems
      ensures currentPage == old(currentPage) && poemsPerPage == old(poemsPerPage)
      ensures dynastyStats == old(dynastyStats) && authorStats == old(authorStats)
      ensures Valid()
    {
      allPoems := ParseCSV(csvText);
      filteredPoems := allPoems;
      SubsequenceReflexive(allPoems);
    }

    /** `calculateStats`: both counters rebuilt from the corpus. */
    method CalculateStats()
      modifies this
      ensures StatsCurrent()
      ensures allPoems == old(allPoems) && filteredPoems == old(filteredPoems)
      ensures currentPage == old(currentPage) && poemsPerPage == old(poemsPerPage)
    {
      dynastyStats, authorStats := CountStats(allPoems);
    }

    /** `renderOverview` with `getTimeSpan`: the number of poems, of distinct
        authors and of distinct dynasties, and the time-span label read off
        the dynasty counter. */
    method RenderOverview() returns (o: Overview)
      requires StatsCurrent()
      ensures o == CorpusOverview(allPoems)
      ensures o.timeSpan == Span1500 <==> SixDynasties in Dynasties(allPoems) && Contemporary in Dynasties(allPoems)
      ensures o.timeSpan == Span1000 <==> SixDynasties in Dynasties(allPoems) && Contemporary !in Dynasties(allPoems)
      ensures o.timeSpan == SpanCenturies <==> SixDynasties !in Dynasties(allPoems)
    {
      var dynasties := Keys(dynastyStats);
      var timeSpan;
      if SixDynasties in dynasties && Contemporary in dynasties {
        timeSpan := Span1500;
      } else if SixDynasties in dynasties {
        timeSpan := Span1000;
      } else {
        timeSpan := SpanCenturies;
      }
      TimeSpanOfCorpus(allPoems);
      o := Overview(|allPoems|, |authorStats|, |dynastyStats|, timeSpan);
    }

    /** `renderPagination`: nothing for at most one page; otherwise the
        arrows and the ±2 window with page 1, the last page and '...'
        pushed around it. */
    method RenderPagination() returns (bar: Option<PaginationBar>)
      requires Valid()
      ensures bar == Pagination(|filteredPoems|, currentPage, poemsPerPage)
    {
      var totalPages := CeilDiv(|filteredPoems|, poemsPerPage);
      if totalPages <= 1 {
        return None;
      }
      var startPage := Max(1, currentPage - 2);
      var endPage := Min(totalPages, currentPage + 2);
      var pages := PushBar(startPage, endPage, totalPages);
      bar := Some(PaginationBar(currentPage == 1, currentPage - 1, pages,
                                currentPage == totalPages, currentPage + 1));
    }

    /** `renderPoemList`: the slice of the view for the current page, or the
        no-results note when it is empty; the pagination row follows the poems. */
    method RenderPoemList() returns (v: ListView)
      requires Valid()
      ensures v == PoemListView(filteredPoems, currentPage, poemsPerPage)
      ensures v.NoResults? <==> currentPage > CeilDiv(|filteredPoems|, poemsPerPage)
    {
      var startIndex := (currentPage - 1) * poemsPerPage;
      var endIndex := startIndex + poemsPerPage;
      var poemsToShow := Slice(filteredPoems, startIndex, endIndex);
      assert poemsToShow == PageItems(filteredPoems, currentPage, poemsPerPage);
      PoemListShows(filteredPoems, currentPage, poemsPerPage);
      if |poemsToShow| == 0 {
        return NoResults;
      }
      var bar := RenderPagination();
      v := Listing(poemsToShow, bar);
      assert v == Listing(PageItems(filteredPoems, currentPage, poemsPerPage),
                          Pagination(|filteredPoems|, currentPage, poemsPerPage));
    }

    /** `filterPoems`: the poems of the selected dynasty (any when none is
        selected) that contain the lower-cased search text in their title,
        author or content (any when the text is empty), in corpus order;
        then page 1 is shown. */
    method FilterPoems(dynastyFilter: string, searchInput: string) returns (v: ListView)
      requires Valid()
      modifies this
      ensures filteredPoems == MainFilter(allPoems, dynastyFilter, ToLower(searchInput))
      ensures filteredPoems == Filter(allPoems, Filters(searchInput, dynastyFilter, "all"))
      ensures currentPage == 1
      ensures allPoems == old(allPoems) && poemsPerPage == old(poemsPerPage)
      ensures dynastyStats == old(dynastyStats) && authorStats == old(authorStats)
      ensures Valid()
      ensures v == PoemListView(filteredPoems, 1, poemsPerPage)
      ensures v.NoResults? <==> filteredPoems == []
    {
      var searchText := ToLower(searchInput);
      filteredPoems := MainFilter(allPoems, dynastyFilter, searchText);
      MainFilterAsFilter(allPoems, dynastyFilter, searchInput);
      FilterSubsequence(allPoems, Filters(searchInput, dynastyFilter, "all"));
      currentPage := 1;
      CeilDivZero(|filteredPoems|, poemsPerPage);
      v := RenderPoemList();
    }

    /** The pagination click handler: go to the page of the clicked button
        and show it. From a page in range, every button leads to a page in
        range, so the list is never empty there. */
    method GoToPage(page: int) returns (v: ListView)
      requires Valid()
      requires Pagination(|filteredPoems|, currentPage, poemsPerPage).Some?
      requires Targets(Pagination(|filteredPoems|, currentPage, poemsPerPage).value, page)
      modifies this
      ensures currentPage == page
      ensures allPoems == old(allPoems) && filteredPoems == old(filteredPoems) && poemsPerPage == old(poemsPerPage)
      ensures dynastyStats == old(dynastyStats) && authorStats == old(authorStats)
      ensures Valid()
      ensures v == PoemListView(filteredPoems, currentPage, poemsPerPage)
      ensures old(currentPage) <= CeilDiv(|filteredPoems|, poemsPerPage) ==> v.Listing?
    {
      var b := Pagination(|filteredPoems|, currentPage, poemsPerPage).value;
      if currentPage <= CeilDiv(|filteredPoems|, poemsPerPage) {
        TargetsInRange(|filteredPoems|, currentPage, poemsPerPage, page);
      } else {
        TargetsAtLeastOne(|filteredPoems|, currentPage, poemsPerPage, page);
      }
      currentPage := page;
      v := RenderPoemList();
    }
  }

  /** Every button of the row leads to a page numbered 1 or more. */
  lemma TargetsAtLeastOne(n: nat, cur: int, per: nat, page: int)
    requires per >= 1 && cur >= 1 && Pagination(n, cur, per).Some?
    requires Targets(Pagination(n, cur, per).value, page)
    ensures page >= 1
  {
    var total := CeilDiv(n, per);
    var w := Window(cur, total);
    if Page(page) in Pagination(n, cur, per).value.pages {
      BarPagesInRange(w.0, w.1, total, page);
    }
  }
}
