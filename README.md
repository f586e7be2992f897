# Jinling poetry: the poem data engine, its paginators, the word cloud and the event timeline

This project models, in Dafny, the client-side logic of the Jinling (Nanjing) poetry site:

- **The poem data engine.** It exists twice: as the `DataManager` class (src/utils/DataManager.js) and as the global `appState` of the plain single-page app (src/main.js). It covers:
  - the CSV line tokenizer;
  - the row parser with its cleaning and admission rules (strict in the class, lenient in the app);
  - the dynasty and author counters;
  - the overview numbers and the time-span label;
  - the search/dynasty filter;
  - the page slice with its counts.
- **The two page-button rows.**
  - src/main.js draws a ±2 window around the current page.
  - The React `Pagination` component draws a seven-page window.
  - Both put page 1, the last page and '...' around the window.
- **Word-frequency extraction of the word cloud.** It has three steps:
  - matching a fixed list of two-character words;
  - counting frequent single CJK characters;
  - ranking the top fifty.
- **The historical-event timeline.** This covers:
  - the year read from a period string;
  - the column fallbacks and the twenty-row cap;
  - the sort by dynasty rank and year;
  - the fixed fallback lists.

Modules, one per concept:

| module | file | models |
|---|---|---|
| `Text` | text.dfy | JavaScript `trim` (its full whitespace set), quote stripping, ASCII `toLowerCase`, `includes`, `split`, `parseInt` on digits |
| `CsvLine` | csv_line.dfy | `parseCSVLine` (shared by both apps) |
| `Records` | records.dfy | the row object, cleaning, admission, `parseCSV` in both variants |
| `Counting` | counting.dfy | counters in plain objects (insertion-ordered key/count lists) |
| `Stats` | stats.dfy | `calculateStats`, `getStats`, `getTimeSpan` |
| `Filtering` | filtering.dfy | `applyFilters` and the `filterPoems` predicate |
| `Paging` | paging.dfy | `slice`, `Math.ceil(n / k)`, page slices, `getPaginatedPoems`' result |
| `Manager` | manager.dfy | class `DataManager` |
| `PageList` | page_list.dfy | the page-button row shared by both paginators |
| `PaginationView` | pagination_view.dfy | the `Pagination` component |
| `MainPage` | main_page.dfy | class `AppState` and the rest of src/main.js |
| `Sorting` | sorting.dfy | the stable `Array.prototype.sort` with a numeric comparator |
| `Ranking` | ranking.dfy | `dynastyOrder[name] \|\| 999` |
| `WordCloud` | word_cloud.dfy | `segmentText`, `processPoems` |
| `LocationEvent` | location_event.dfy | `extractYear`, the row-to-event chain, the fallback lists |
| `Maybe` | maybe.dfy | `Option` |

State that the sources update in place is modelled as classes:

- `DataManager`'s fields and the `appState` object are classes whose methods reassign the fields.
- Their `Valid()` invariant holds the following:
  - every stored poem is an admitted, cleaned record;
  - the filtered view is an order-preserving subsequence of the corpus;
  - the page number and the page size are positive;
  - for `DataManager`, the counters are the tallies of the corpus.

Loops become methods proved against specification functions:

- the tokenizer, the row loop, the counting loop;
- the page-button pushes;
- the word-cloud loops.

The specification functions carry the properties as lemmas.

The code is followed where it differs from its specification text:

- Empty text gives an empty poem list rather than an error.
- `getPaginatedPoems` reports 0 pages, not 1, for an empty view.

## Model

| member | source | states |
|---|---|---|
| Text.Trim | src/utils/DataManager.js:89 | the result has no whitespace at either end, and everything cut off on either side is whitespace |
| Text.StripQuotes | src/utils/DataManager.js:52 | no double quote is left, and every other character keeps its count; a quote-free string is unchanged |
| Text.Clean | src/utils/DataManager.js:52-56 | a cleaned field has no double quote and no surrounding whitespace |
| Text.CleanIdempotent | src/utils/DataManager.js:52-56 | cleaning a cleaned value changes nothing |
| Text.ToLower | src/utils/DataManager.js:146-152 | same length; each character lower-cased (ASCII letters) or kept |
| Text.SplitPieces | src/utils/DataManager.js:37 | no piece of `split('\n')` contains the separator |
| Text.JoinSplit | src/utils/DataManager.js:37 | joining the pieces of a split with the separator gives back the text |
| Text.DigitsValueDecimal | src/components/LocationEvent/LocationEvent.jsx:146 | `parseInt` of the decimal digits of `n` reads back `n` |
| CsvLine.ParseLine | src/utils/DataManager.js:71-101 | one field per comma met outside quotes, plus one; every field trimmed |
| CsvLine.ParseCSVLine | src/main.js:96-129 | the scanning loop (the same in src/utils/DataManager.js:71-101) returns exactly the fields `ParseLine` describes |
| CsvLine.ParseLineWithoutQuotes | src/utils/DataManager.js:88-96 | a line without quotes is split on every comma, each piece trimmed |
| CsvLine.QuotedFieldKeepsComma | src/utils/DataManager.js:81-92 | a comma inside a quoted span stays in its field |
| CsvLine.EscapedQuoteField | src/utils/DataManager.js:81-86 | `""` inside quotes puts one `"` into the field and consumes both characters |
| CsvLine.ScanDropsLoneQuotes | src/utils/DataManager.js:81-87 | a quote that is not doubled only flips the flag and never reaches a field |
| CsvLine.ScanQuotes | src/utils/DataManager.js:81-99 | for every line and starting state, the fields hold exactly the quotes already gathered plus one per `""` met inside quotes; any other quote only flips the flag |
| CsvLine.ParseLineQuotes | src/utils/DataManager.js:71-101 | the fields of a line hold exactly as many quotes as the line has escaped pairs |
| Text.TrimCount | src/utils/DataManager.js:89 | `trim` keeps every character that is not whitespace, as often as it occurs |
| Records.RowObject | src/utils/DataManager.js:46-49 | the row object has exactly the header names as keys |
| Records.RowObjectLastColumn | src/utils/DataManager.js:47-49 | a header's value is the value of its last column; missing values read as '' |
| Records.RowObjectUsesHeaderColumns | src/main.js:71-73 | only the first `headers.length` values matter: extra values are ignored |
| Records.BuildRow | src/utils/DataManager.js:46-49 | the header loop (the same in src/main.js:70-73) builds exactly `RowObject` |
| Records.ToPoem | src/utils/DataManager.js:51-56 | the five named fields are cleaned and every other column is kept as read |
| Records.RowPoem | src/utils/DataManager.js:43-61 | a line yields a record only if it is admitted, and every record yielded is valid (non-empty, quote-free, trimmed fields) |
| Records.ParseRows | src/utils/DataManager.js:41-65 | at most one record per line, each valid |
| Records.RowPoemKept | src/utils/DataManager.js:43-60 | a line with the header's field count (strict) or not blank (lenient) whose cleaned row is admitted yields exactly that cleaned row (the same in src/main.js:67-82) |
| Records.ParseRowsMembers | src/utils/DataManager.js:41-65 | a record is in the result exactly when some line yields it: nothing admitted is dropped and nothing else is added (the same in src/main.js:66-87) |
| Records.ParseRowsAppend | src/utils/DataManager.js:41-65 | lines are parsed independently and records keep line order |
| Records.StrictRowFieldCount | src/utils/DataManager.js:44 | a strict row is admitted only with as many fields as the header |
| Records.HeaderOnly | src/utils/DataManager.js:37-41 | text with no line after the header, including empty text, gives no records in either variant |
| Records.AdmittedNeedsColumns | src/utils/DataManager.js:59 | a row is admitted only if the header names title, author, content and dynasty |
| Records.BlankLineOneField | src/main.js:67 | a blank line tokenizes to a single field |
| Records.VariantsAgree | src/main.js:61-93 | when every line has the header's field count, the lenient parser of src/main.js and the strict one of DataManager admit the same records |
| Counting.Bump | src/utils/DataManager.js:110 | keys stay distinct; an existing key keeps its place, a new key goes last |
| Counting.BumpGet | src/utils/DataManager.js:110 | the bumped key's count rises by one, no other count changes |
| Counting.TallyCounts | src/utils/DataManager.js:108-113 | each key's count is its number of occurrences |
| Counting.TallyKeys | src/utils/DataManager.js:108-113 | the keys are exactly the values counted |
| Counting.TallyTotal | src/utils/DataManager.js:108-113 | the counts sum to the number of values counted |
| Counting.TallySize | src/utils/DataManager.js:120-121 | the number of keys is the number of distinct values |
| Stats.CountStats | src/main.js:137-143 | the counting loop (the same in src/utils/DataManager.js:108-113) yields the dynasty and author tallies |
| Stats.TimeSpan | src/main.js:162-171 | the label is one of '1500+ 年', '1000+ 年', '数百年' |
| Stats.TimeSpanOfCorpus | src/utils/DataManager.js:127-136 | '1500+ 年' iff the corpus has both 六朝 and 当代 poems; '1000+ 年' iff 六朝 but not 当代; '数百年' iff no 六朝 |
| Stats.CorpusOverview | src/utils/DataManager.js:117-124 | poem count is the corpus size; author and dynasty counts are the numbers of distinct authors and dynasties |
| Stats.CountersOfCorpus | src/utils/DataManager.js:104-114 | each dynasty's (author's) count is its number of poems, and each counter sums to the corpus size |
| Filtering.Merge | src/utils/DataManager.js:140 | a key given in the patch replaces the stored value; a key not given keeps it |
| Filtering.MergeProperties | src/utils/DataManager.js:140 | merging is idempotent, and a patch naming every key forgets the old filters |
| Filtering.FilterSubsequence | src/utils/DataManager.js:143 | the filtered list is a subsequence of the corpus (order kept) |
| Filtering.FilterMembership | src/utils/DataManager.js:143-182 | a poem is kept iff it is in the corpus and matches |
| Filtering.FilterIdempotent | src/utils/DataManager.js:143-182 | filtering again with the same filters changes nothing |
| Filtering.DefaultKeepsAll | src/utils/DataManager.js:205-213 | the default filters keep the whole corpus, as `resetFilters` expects |
| Filtering.UnknownScopeIsAll | src/utils/DataManager.js:154-171 | an unknown `searchType` searches like 'all' |
| Filtering.ScopedWithinAll | src/utils/DataManager.js:154-171 | a scoped search finds a subset of the 'all' search |
| Filtering.MainFilter | src/main.js:389-397 | every kept poem passes the dynasty and the three-field search test |
| Filtering.MainKeepsAsAll | src/main.js:390-396 | the src/main.js predicate is the DataManager predicate with scope 'all' |
| Filtering.MainFilterAsFilter | src/main.js:389-397 | so the two apps filter a corpus to the same list |
| Paging.Slice | src/utils/DataManager.js:196 | `slice` with clamped bounds: length and elements |
| Paging.CeilDiv | src/utils/DataManager.js:199 | the least number of pages of `k` that hold `n` items |
| Paging.CeilDivZero | src/utils/DataManager.js:199 | there are no pages exactly when there are no items |
| Paging.PageItems | src/utils/DataManager.js:192-196 | page `p` holds at most `k` items, the ones from `(p-1)k` on |
| Paging.PageEmptyIffPastLast | src/utils/DataManager.js:192-199 | a page is empty exactly when its number exceeds the page count |
| Paging.PageFull | src/utils/DataManager.js:192-199 | every page before the last is full |
| Paging.PagesPrefix | src/utils/DataManager.js:192-196 | pages 1 to `m` together are the first `m·k` items |
| Paging.PagesCoverAll | src/utils/DataManager.js:192-199 | pages 1 to `ceil(n/k)` concatenate to the whole list |
| Paging.Paginate | src/utils/DataManager.js:188-202 | the result's items, total items, page, page count and `hasMore` iff `p·k < n` |
| Paging.HasMoreIffNextPage | src/utils/DataManager.js:200 | `hasMore` iff the next page is non-empty iff this is not the last page |
| Manager.DataManager.constructor | src/utils/DataManager.js:3-15 | empty corpus and counters, page 1 of 10, default filters |
| Manager.DataManager.Load | src/utils/DataManager.js:25-28 | the corpus is the strict parse of the text, the view is the corpus, the counters are its tallies |
| Manager.DataManager.ParseCSV | src/utils/DataManager.js:36-68 | the row loop returns exactly the strict parse |
| Manager.DataManager.CalculateStats | src/utils/DataManager.js:104-114 | both counters become the tallies of the corpus; nothing else changes |
| Manager.DataManager.GetStats | src/utils/DataManager.js:117-124 | poem count, distinct authors, distinct dynasties, time span |
| Manager.DataManager.GetTimeSpan | src/utils/DataManager.js:127-136 | the three labels, each iff its condition on the corpus' dynasties |
| Manager.DataManager.ApplyFilters | src/utils/DataManager.js:139-185 | filters merged, page 1, the view is the corpus filtered, the rest unchanged |
| Manager.DataManager.GetPaginatedPoems | src/utils/DataManager.js:188-202 | page and size stored, the page of the view and its counts returned |
| Manager.DataManager.ResetFilters | src/utils/DataManager.js:205-214 | default filters, the whole corpus as the view, page 1, page size kept |
| Manager.DataManager.GetDynastyStats | src/utils/DataManager.js:217-219 | each dynasty maps to its number of poems; counts sum to the corpus size |
| Manager.DataManager.GetAuthorStats | src/utils/DataManager.js:222-224 | each author maps to their number of poems; counts sum to the corpus size |
| Manager.DataManager.GetCurrentFilters | src/utils/DataManager.js:227-229 | a copy of the stored filters |
| Manager.DataManager.GetAllPoems | src/utils/DataManager.js:232-234 | the corpus, every record valid |
| Manager.DataManager.GetFilteredPoems | src/utils/DataManager.js:237-239 | the view, a subsequence of the corpus |
| PageList.PushBar | src/main.js:330-350 | the pushes around the window (the same in src/components/Pagination/Pagination.jsx:29-45) build exactly `Bar` |
| PageList.BarDecorated | src/components/Pagination/Pagination.jsx:29-45 | '...' stands exactly between neighbouring numbers more than one apart |
| PageList.BarNumbersIncreasing | src/components/Pagination/Pagination.jsx:29-45 | the numbers strictly increase from 1 to the last page and include the whole window |
| PageList.NumbersDecorate | src/components/Pagination/Pagination.jsx:29-45 | the decorations add no number and lose none |
| PaginationView.SevenWindow | src/components/Pagination/Pagination.jsx:21-27 | the window spans exactly seven pages inside `1..total`, holds the current page, and is centred when it fits |
| PaginationView.GeneratePageNumbers | src/components/Pagination/Pagination.jsx:12-49 | the loops return exactly `PageNumbers` |
| PaginationView.FewPagesAllListed | src/components/Pagination/Pagination.jsx:16-19 | with at most seven pages the list is 1..total with no '...' |
| PaginationView.ManyPagesWindow | src/components/Pagination/Pagination.jsx:20-46 | with more than seven pages: page 1, the window, the last page, strictly increasing, '...' exactly at gaps, current page included |
| PaginationView.Render | src/components/Pagination/Pagination.jsx:6-10 | nothing is drawn exactly when there is at most one page |
| PaginationView.RenderedIffMoreThanOnePage | src/components/Pagination/Pagination.jsx:6-10 | drawn exactly when there are more items than fit on one page |
| PaginationView.InfoLineMatchesPage | src/components/Pagination/Pagination.jsx:56 | on an existing page the "a-b of n" line has 1 ≤ a ≤ b ≤ n, and the page holds exactly items a to b |
| PaginationView.NavigationInRange | src/components/Pagination/Pagination.jsx:59-89 | previous is disabled iff on page 1, next iff on the last page, and enabled arrows lead to pages in range |
| Ranking.RankInMeaning | src/components/LocationEvent/LocationEvent.jsx:91 | a listed name ranks at its place (from 1); any other ranks 999, after every listed one |
| Sorting.SortBy | src/components/LocationEvent/LocationEvent.jsx:94-100 | the result is sorted by the key and is a permutation of the input |
| Sorting.SortByStable | src/main.js:179-180 | elements with equal keys keep their relative order |
| Sorting.SortBySorted | src/components/LocationEvent/LocationEvent.jsx:94-100 | an already sorted list is left as it is |
| MainPage.ParseCSV | src/main.js:61-93 | the row loop returns exactly the lenient parse |
| MainPage.ParseRow | src/main.js:67-85 | one line: skipped if blank, else built, cleaned and kept if admitted |
| MainPage.LenientRows | src/main.js:67-73 | a blank line gives no record, and a line's record depends only on its first `headers.length` values |
| MainPage.ChartRowsOrder | src/main.js:179-180 | in the chart a listed dynasty never follows an unlisted one, and listed ones follow `dynastyOrder` |
| MainPage.ChartRowsStable | src/main.js:179-180 | every counter entry shown once; unlisted dynasties keep their first-seen order |
| MainPage.FilterOptionsMatchChart | src/main.js:266-267 | the selector lists the dynasties in the chart's order |
| MainPage.KeysSortBy | src/main.js:266-267 | sorting entries by a key of their name and sorting the names by that key agree |
| MainPage.PaginationShownIffMoreThanOnePage | src/main.js:310-315 | the row is drawn exactly when there are more items than fit on one page |
| MainPage.PaginationWindow | src/main.js:327-350 | the window is `max(1,cur-2)..min(total,cur+2)`, holds the current page, and the row is 1, window, total with '...' exactly at gaps |
| MainPage.TargetsInRange | src/main.js:320-357 | previous disabled iff page 1, next iff the last page; every clickable button leads to a page in range |
| MainPage.PoemListShows | src/main.js:281-288 | the no-results note shows exactly when the current page is past the last; otherwise the poems shown are the non-empty run of the filtered list from item (cur-1)·per up to min(cur·per, n) |
| MainPage.AppState.constructor | src/main.js:4-11 | empty corpus and counters, page 1 of 10 |
| MainPage.AppState.LoadPoemsData | src/main.js:51-52 | the corpus is the lenient parse of the text and the view is the corpus |
| MainPage.AppState.CalculateStats | src/main.js:132-146 | both counters become the tallies of the corpus; nothing else changes |
| MainPage.AppState.RenderOverview | src/main.js:149-171 | the overview numbers and the time-span label, each label iff its condition on the corpus |
| MainPage.AppState.RenderPagination | src/main.js:308-360 | the pushes return exactly the pagination row |
| MainPage.AppState.RenderPoemList | src/main.js:279-305 | the page's poems and the row, or the no-results note exactly when the page is past the last |
| MainPage.AppState.FilterPoems | src/main.js:385-401 | the view is the corpus filtered (as DataManager's 'all' search), page 1, no-results exactly when nothing matches |
| MainPage.AppState.GoToPage | src/main.js:375-381 | the clicked button's page becomes current; from a page in range the new page is never empty |
| WordCloud.CommonWordsArePairs | src/components/WordCloud/WordCloud.jsx:17-38 | every listed word has two characters |
| WordCloud.CleanText | src/components/WordCloud/WordCloud.jsx:13 | each punctuation character becomes a space, all else kept |
| WordCloud.CleanKeepsCjk | src/components/WordCloud/WordCloud.jsx:13 | cleaning keeps every CJK character's count |
| WordCloud.OccIffContains | src/components/WordCloud/WordCloud.jsx:42-44 | a word has a match exactly when the text contains it |
| WordCloud.CommonMatchesCount | src/components/WordCloud/WordCloud.jsx:41-47 | each word appears once per non-overlapping match for every time it is listed |
| WordCloud.CommonMatchesListed | src/components/WordCloud/WordCloud.jsx:41-47 | no unlisted word comes out of the matching step |
| WordCloud.CjkCount | src/components/WordCloud/WordCloud.jsx:50 | the CJK characters of the text, each once per occurrence |
| WordCloud.CountedCount | src/components/WordCloud/WordCloud.jsx:52-56 | stop characters are dropped, the rest kept once per occurrence |
| WordCloud.HighFrequencyCount | src/components/WordCloud/WordCloud.jsx:59-65 | a character is pushed `min(count, 5)` times if seen at least 3 times, else not at all |
| WordCloud.SegmentWordCount | src/components/WordCloud/WordCloud.jsx:11-68 | a word (not a single character) appears (times listed) × (matches) times |
| WordCloud.BeautyListed | src/components/WordCloud/WordCloud.jsx:32 | the word list holds '佳人' (at least) twice |
| WordCloud.BeautyListedTwice | src/components/WordCloud/WordCloud.jsx:32 | '佳人' is listed twice, so each match counts at least twice |
| WordCloud.SegmentCharCount | src/components/WordCloud/WordCloud.jsx:50-65 | with two-character words, a counted CJK character contributes nothing below 3 occurrences, else `min(count, 5)` |
| WordCloud.CharCount | src/components/WordCloud/WordCloud.jsx:50-65 | the same for the component's own word list |
| WordCloud.SegmentText | src/components/WordCloud/WordCloud.jsx:11-68 | the three loops return exactly `Segment(text)` |
| WordCloud.MatchListed | src/components/WordCloud/WordCloud.jsx:41-47 | the matching loop pushes the listed words' matches word by word |
| WordCloud.CountChars | src/components/WordCloud/WordCloud.jsx:51-56 | `charFreq` is the tally of the counted characters in first-seen order |
| WordCloud.PushFrequent | src/components/WordCloud/WordCloud.jsx:59-65 | the frequent characters are pushed after the words |
| WordCloud.WordFreq | src/components/WordCloud/WordCloud.jsx:72-81 | the word counter has distinct keys |
| WordCloud.NonEmptyCount | src/components/WordCloud/WordCloud.jsx:77 | the `length >= 1` test drops no non-empty word |
| WordCloud.WordFreqTotal | src/components/WordCloud/WordCloud.jsx:72-81 | a word's frequency is the sum over poems of its multiplicity in their segmentation |
| WordCloud.ProcessPoems | src/components/WordCloud/WordCloud.jsx:71-91 | the counting loops and the chain return exactly `Rank(WordFreq(poems))` |
| WordCloud.CountWords | src/components/WordCloud/WordCloud.jsx:76-80 | each non-empty word of a poem counted once more |
| WordCloud.FrequentMembers | src/components/WordCloud/WordCloud.jsx:85 | an entry survives the filter iff its count is at least 2 |
| WordCloud.Weighted | src/components/WordCloud/WordCloud.jsx:88 | each word keeps its place with weight `freq * 3` |
| WordCloud.RankShape | src/components/WordCloud/WordCloud.jsx:84-88 | at most 50 entries, no word twice, non-increasing weight, every weight ≥ 6 and a multiple of 3 |
| WordCloud.RankWeights | src/components/WordCloud/WordCloud.jsx:85-88 | each weight is three times the word's total frequency |
| WordCloud.RankTop | src/components/WordCloud/WordCloud.jsx:86-87 | a frequent word left out means 50 entries, each at least as heavy |
| LocationEvent.FindRun | src/components/LocationEvent/LocationEvent.jsx:145 | the leftmost start of three ASCII digits, or none |
| LocationEvent.ExtractYear | src/components/LocationEvent/LocationEvent.jsx:143-147 | null iff no three digits stand together; otherwise at most 9999 |
| LocationEvent.ExtractYearLeftmost | src/components/LocationEvent/LocationEvent.jsx:145-146 | the value of the leftmost run, greedily extended to four digits |
| LocationEvent.YearRoundTrip | src/components/LocationEvent/LocationEvent.jsx:143-147 | a 3- or 4-digit year followed by a non-digit is read back as itself |
| LocationEvent.FirstNonBlank | src/components/LocationEvent/LocationEvent.jsx:80 | the value found is non-blank; none iff all are blank |
| LocationEvent.FirstNonBlankIsFirst | src/components/LocationEvent/LocationEvent.jsx:80 | the value found is the first non-blank one |
| LocationEvent.NameOf | src/components/LocationEvent/LocationEvent.jsx:75-86 | the name is non-empty and trimmed |
| LocationEvent.NameFallback | src/components/LocationEvent/LocationEvent.jsx:75-86 | the first non-blank name column, trimmed, else `事件<index+1>` |
| LocationEvent.MakeEvent | src/components/LocationEvent/LocationEvent.jsx:84-92 | id is position + 1; name, dynasty, period and description non-empty; year at most 9999 |
| LocationEvent.EventOrder | src/components/LocationEvent/LocationEvent.jsx:91 | order is the dynasty's rank 1..15, or 999 exactly for an unlisted dynasty |
| LocationEvent.SortKeyLexicographic | src/components/LocationEvent/LocationEvent.jsx:94-100 | the single sort key orders by rank, then by year (null as 0) |
| LocationEvent.Mapped | src/components/LocationEvent/LocationEvent.jsx:74-93 | one event per row, built from that row and its position |
| LocationEvent.ProcessEventsCount | src/components/LocationEvent/LocationEvent.jsx:72-73 | one event per row among the first twenty |
| LocationEvent.ProcessEventsProvenance | src/components/LocationEvent/LocationEvent.jsx:72-93 | each event is the one built from the row its id names |
| LocationEvent.ProcessEventsComplete | src/components/LocationEvent/LocationEvent.jsx:72-93 | every row among the first twenty has its event on the timeline |
| LocationEvent.ProcessEventsIdsDistinct | src/components/LocationEvent/LocationEvent.jsx:85 | no two events share an id |
| LocationEvent.SameIdSameEvent | src/components/LocationEvent/LocationEvent.jsx:85 | an id names one event |
| LocationEvent.ProcessEventsYears | src/components/LocationEvent/LocationEvent.jsx:90 | every year has at most four digits |
| LocationEvent.ProcessEventsOrdered | src/components/LocationEvent/LocationEvent.jsx:94-100 | ordered by rank, and by year within a rank |
| LocationEvent.ProcessEventsStable | src/components/LocationEvent/LocationEvent.jsx:94-100 | events of equal rank and year keep their row order |
| LocationEvent.FallbackIsSamplePrefix | src/components/LocationEvent/LocationEvent.jsx:124-133 | the failure list is the first eight sample events |
| LocationEvent.LoadEventsSize | src/components/LocationEvent/LocationEvent.jsx:101-133 | 1 to 20 events; ten for an empty parse, eight on failure |

## Left out

- Network access. `fetch`, the HTTP status check and `response.text()` are not modelled: the methods take the text that arrived, and the event timeline takes a `LoadOutcome` saying whether loading failed.
- The CSV parser library. `Papa.parse` is foreign code; its rows are a parameter, one map from column name to value per row.
- DOM and HTML. This covers `innerHTML` templates, `escapeHtml`, the injected chart styles, `showError`, `scrollToTop`, JSX and React state. The model returns what would be drawn as data (`ListView`, `PaginationBar`, `View`, `Overview`, chart rows).
- Timers and the search debounce.
- Floating point and randomness: chart bar percentages, the word cloud's weight scaling, colours and canvas drawing.
- MainPage.AppState.RenderPoemList: on an empty page, src/main.js returns without redrawing the pagination row, so the previous row stays on screen. The model returns the no-results note with no row and does not track the stale one. For the same reason, `GoToPage` accepts only buttons of the row for the current state.
- Text.ToLower: `toLowerCase` is modelled on ASCII letters only. Full Unicode case mapping is not modelled.
- Counting.Bump: a key such as "constructor", which names an `Object.prototype` member, would read an inherited value in JavaScript. Such keys are not modelled. Every key is treated as an own property, and keys keep insertion order; that holds for the non-numeric keys here.
- Ranking.RankIn: `dynastyOrder[name] || 999` would read an inherited `Object.prototype` member for a name such as "constructor", and the comparator would then compute `NaN`. The model reads only the listed dynasties and gives every other name 999.
- Manager.DataManager.GetPaginatedPoems: the default arguments `page = 1` and `itemsPerPage = 10` are not modelled; every caller in the source passes both.
- Paging.Slice: `slice` with negative bounds is not modelled. `getPaginatedPoems` is required to get a page and a page size of at least 1.
- Records.RowPoem: the `try`/`catch` around each row of `parseCSV` is not modelled, since the modelled parsing never throws.
- WordCloud.BeautyListedTwice: it states that '佳人' counts at least twice per match. The exact factor of two follows from `SegmentWordCount` and the list, but it is not proved for the literal list.
- LocationEvent.LoadEvents: the sample and fallback events are copied as the source writes them. Their years are set by hand, for example 700 for '618-907年' where `extractYear` would read 618; no property relates them to `extractYear`.
- The `console` logging and the `loading`/`error` flags of the timeline.
