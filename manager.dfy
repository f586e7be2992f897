/** The `DataManager` class of src/utils/DataManager.js: the poem corpus,
    its filtered view, the dynasty and author counters, the page position and
    the stored filters, with the operations that replace them. */
module Manager {
  import opened Text
  import opened CsvLine
  import opened Records
  import opened Counting
  import opened Stats
  import opened Filtering
  import opened Paging

  class DataManager {
    var allPoems: seq<Poem>
    var filteredPoems: seq<Poem>
    var dynastyStats: Table
    var authorStats: Table
    var currentPage: nat
    var poemsPerPage: nat
    var filters: Filters

    /** The counters are the tallies of the corpus, the filtered view keeps
        corpus order, every stored poem is a valid record, and the page
        position and size are positive. */
    ghost predicate Valid()
      reads this
    {
      && dynastyStats == Tally(Dynasties(allPoems))
      && authorStats == Tally(Authors(allPoems))
      && IsSubsequence(filteredPoems, allPoems)
      && (forall k :: 0 <= k < |allPoems| ==> ValidPoem(allPoems[k]))
      && currentPage >= 1 && poemsPerPage >= 1
    }

    constructor ()
      ensures allPoems == [] && filteredPoems == []
      ensures dynastyStats == [] && authorStats == []
      ensures currentPage == 1 && poemsPerPage == 10
      ensures filters == DefaultFilters
      ensures Valid()
    {
      allPoems := [];
      filteredPoems := [];
      dynastyStats := [];
      authorStats := [];
      currentPage := 1;
      poemsPerPage := 10;
      filters := DefaultFilters;
    }

    /** The part of `loadData` that runs once the text has arrived. */
    method Load(csvText: string) returns (poems: seq<Poem>)
      requires Valid()
      modifies this
      ensures allPoems == ParseText(csvText, Strict) && filteredPoems == allPoems
      ensures poems == allPoems
      ensures filters == old(filters) && currentPage == old(currentPage) && poemsPerPage == old(poemsPerPage)
      ensures Valid()
    {
      var parsed := ParseCSV(csvText);
      SubsequenceReflexive(parsed);
      allPoems := parsed;
      CalculateStats();
      filteredPoems := parsed;
      poems := parsed;
    }

    /** `parseCSV`: the header line, then each data line whose field count
        matches, built into a record, cleaned and admitted. */
    method ParseCSV(csvText: string) returns (poems: seq<Poem>)
      ensures poems == ParseText(csvText, Strict)
    {
      var lines := Split(Trim(csvText), '\n');
      var headers := ParseCSVLine(lines[0]);
      var data := lines[1..];
      poems := [];
      for i := 0 to |data|
        invariant poems == ParseRows(headers, data[..i], Strict)
      {
        ParseRowsPrefix(headers, data, i, Strict);
        var values := ParseCSVLine(data[i]);
        if |values| != |headers| {
          assert RowPoem(headers, data[i], Strict).None?;
          continue;
        }
        var row := BuildRow(headers, values);
        var poem := ToPoem(row);
        if Admitted(poem) {
          poems := poems + [poem];
        }
      }
      assert data[..|data|] == data;
    }

    /** `calculateStats`: both counters rebuilt from the corpus. */
    method CalculateStats()
      modifies this
      ensures dynastyStats == Tally(Dynasties(allPoems)) && authorStats == Tally(Authors(allPoems))
      ensures allPoems == old(allPoems) && filteredPoems == old(filteredPoems)
      ensures filters == old(filters) && currentPage == old(currentPage) && poemsPerPage == old(poemsPerPage)
    {
      dynastyStats, authorStats := CountStats(allPoems);
    }

    /** `getStats`: the number of poems, of distinct authors and of distinct
        dynasties, and the time span. */
    method GetStats() returns (o: Overview)
      requires Valid()
      ensures o == CorpusOverview(allPoems)
      ensures o.poemCount == |allPoems|
      ensures o.authorCount == |set x | x in Authors(allPoems)|
      ensures o.dynastyCount == |set x | x in Dynasties(allPoems)|
    {
      var span := GetTimeSpan();
      o := Overview(|allPoems|, |authorStats|, |dynastyStats|, span);
    }

    /** `getTimeSpan`, read off the corpus. */
    method GetTimeSpan() returns (span: string)
      requires Valid()
      ensures span == TimeSpan(Keys(dynastyStats))
      ensures span == Span1500 <==> SixDynasties in Dynasties(allPoems) && Contemporary in Dynasties(allPoems)
      ensures span == Span1000 <==> SixDynasties in Dynasties(allPoems) && Contemporary !in Dynasties(allPoems)
      ensures span == SpanCenturies <==> SixDynasties !in Dynasties(allPoems)
    {
      var dynasties := Keys(dynastyStats);
      TimeSpanOfCorpus(allPoems);
      if SixDynasties in dynasties && Contemporary in dynasties {
        span := Span1500;
      } else if SixDynasties in dynasties {
        span := Span1000;
      } else {
        span := SpanCenturies;
      }
    }

    /** `applyFilters`: merge the given keys into the stored filters, go back
        to page 1 and recompute the filtered view. */
    method ApplyFilters(patch: FilterPatch) returns (r: seq<Poem>)
      requires Valid()
      modifies this
      ensures filters == Merge(old(filters), patch) && currentPage == 1
      ensures filteredPoems == Filter(allPoems, filters) && r == filteredPoems
      ensures allPoems == old(allPoems) && poemsPerPage == old(poemsPerPage)
      ensures dynastyStats == old(dynastyStats) && authorStats == old(authorStats)
      ensures Valid()
    {
      filters := Merge(filters, patch);
      currentPage := 1;
      filteredPoems := Filter(allPoems, filters);
      FilterSubsequence(allPoems, filters);
      r := filteredPoems;
    }

    /** `getPaginatedPoems`: remember the page and its size, and return the
        page of the filtered view with its counts. */
    method GetPaginatedPoems(page: nat, itemsPerPage: nat) returns (r: PageResult<Poem>)
      requires Valid() && page >= 1 && itemsPerPage >= 1
      modifies this
      ensures currentPage == page && poemsPerPage == itemsPerPage
      ensures r == Paginate(filteredPoems, page, itemsPerPage)
      ensures allPoems == old(allPoems) && filteredPoems == old(filteredPoems) && filters == old(filters)
      ensures dynastyStats == old(dynastyStats) && authorStats == old(authorStats)
      ensures Valid()
    {
      r := Paginate(filteredPoems, page, itemsPerPage);
      currentPage := page;
      poemsPerPage := itemsPerPage;
    }

    /** `resetFilters`: the default filters, the whole corpus as the view,
        page 1; the page size stays. The view is then what applying the
        default filters gives. */
    method ResetFilters() returns (r: seq<Poem>)
      requires Valid()
      modifies this
      ensures filters == DefaultFilters && filteredPoems == allPoems && currentPage == 1
      ensures filteredPoems == Filter(allPoems, filters)
      ensures r == filteredPoems
      ensures allPoems == old(allPoems) && poemsPerPage == old(poemsPerPage)
      ensures dynastyStats == old(dynastyStats) && authorStats == old(authorStats)
      ensures Valid()
    {
      DefaultKeepsAll(allPoems);
      SubsequenceReflexive(allPoems);
      filters := DefaultFilters;
      filteredPoems := allPoems;
      currentPage := 1;
      r := filteredPoems;
    }

    /** `getDynastyStats`: each dynasty's count is its number of poems. */
    method GetDynastyStats() returns (t: Table)
      requires Valid()
      ensures t == dynastyStats
      ensures forall d :: Get(t, d) == multiset(Dynasties(allPoems))[d]
      ensures Total(t) == |allPoems|
    {
      t := dynastyStats;
      forall d ensures Get(t, d) == multiset(Dynasties(allPoems))[d] {
        TallyCounts(Dynasties(allPoems), d);
      }
      TallyTotal(Dynasties(allPoems));
    }

    /** `getAuthorStats`: each author's count is their number of poems. */
    method GetAuthorStats() returns (t: Table)
      requires Valid()
      ensures t == authorStats
      ensures forall a :: Get(t, a) == multiset(Authors(allPoems))[a]
      ensures Total(t) == |allPoems|
    {
      t := authorStats;
      forall a ensures Get(t, a) == multiset(Authors(allPoems))[a] {
        TallyCounts(Authors(allPoems), a);
      }
      TallyTotal(Authors(allPoems));
    }

    /** `getCurrentFilters`: a copy of the stored filters. */
    method GetCurrentFilters() returns (f: Filters)
      ensures f == filters
    {
      f := filters;
    }

    /** `getAllPoems`: the corpus, every record valid. */
    method GetAllPoems() returns (ps: seq<Poem>)
      requires Valid()
      ensures ps == allPoems
      ensures forall k :: 0 <= k < |ps| ==> ValidPoem(ps[k])
    {
      ps := allPoems;
    }

    /** `getFilteredPoems`: the view, a subsequence of the corpus. */
    method GetFilteredPoems() returns (ps: seq<Poem>)
      requires Valid()
      ensures ps == filteredPoems
      ensures IsSubsequence(ps, allPoems)
    {
      ps := filteredPoems;
    }
  }
}
