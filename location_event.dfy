/** The historical-event timeline of
    src/components/LocationEvent/LocationEvent.jsx: the year read out of a
    period string, the event built from each parsed row with its column
    fallbacks, the twenty-row cap, the ordering by dynasty rank and year, and
    the fixed lists shown when there are no rows or loading fails. The
    parsed rows are the parser's output: one map from column name to value
    per row. */
module LocationEvent {
  import opened Text
  import opened Maybe
  import opened Sorting
  import opened Paging
  import opened Ranking

  /** One parsed row: column name to value. */
  type Row = map<string, string>

  /** `row[column]`; a missing column reads as the empty string, which the
      `||` fallbacks treat the same way. */
  function Cell(row: Row, column: string): string {
    if column in row then row[column] else ""
  }

  /** `a || b` on strings. */
  function Or(a: string, b: string): string {
    if a != "" then a else b
  }

  // ---------------------------------------------------------------------
  // extractYear

  /** Three ASCII digits (`\d`) start at `i`. */
  predicate ThreeDigitsAt(s: string, i: int) {
    0 <= i && i + 3 <= |s| && IsDigit(s[i]) && IsDigit(s[i + 1]) && IsDigit(s[i + 2])
  }

  /** The length of the match of `\d{3,4}` at a run of three digits: the
      quantifier is greedy, so a fourth digit is taken when there is one. */
  function MatchLength(s: string, i: int): nat
    requires ThreeDigitsAt(s, i)
  {
    if i + 4 <= |s| && IsDigit(s[i + 3]) then 4 else 3
  }

  /** Where the search for `\d{3,4}` succeeds, scanning from `from`: the
      leftmost three-digit run. */
  function FindRun(s: string, from: nat): (r: Option<nat>)
    ensures r.Some? ==> from <= r.value && ThreeDigitsAt(s, r.value)
    ensures r.Some? ==> forall j :: from <= j < r.value ==> !ThreeDigitsAt(s, j)
    ensures r.None? ==> forall j :: from <= j ==> !ThreeDigitsAt(s, j)
    decreases |s| - from
  {
    if from + 3 > |s| then None
    else if ThreeDigitsAt(s, from) then Some(from)
    else FindRun(s, from + 1)
  }

  /** `extractYear(periodStr)`: nothing for the empty string or when no
      three digits stand together, else the number written by the leftmost
      run of three digits and the digit after it, if any. */
  function ExtractYear(periodStr: string): (y: Option<nat>)
    ensures y.None? <==> forall i :: !ThreeDigitsAt(periodStr, i)
    ensures y.Some? ==> y.value <= 9999
  {
    if periodStr == [] then None
    else
      match FindRun(periodStr, 0)
      case None => None
      case Some(i) =>
        var digits := periodStr[i..i + MatchLength(periodStr, i)];
        DigitsValueBound(digits);
        assert Pow10(|digits|) <= 10000 by {
          assert Pow10(3) == 1000;
        }
        Some(DigitsValue(digits))
  }

  /** The year is read from the leftmost three-digit run, greedily extended
      to four digits. */
  lemma ExtractYearLeftmost(s: string, i: nat)
    requires ThreeDigitsAt(s, i)
    requires forall j :: 0 <= j < i ==> !ThreeDigitsAt(s, j)
    ensures ExtractYear(s) == Some(DigitsValue(s[i..i + MatchLength(s, i)]))
  {
    var r := FindRun(s, 0);
  }

  /** The digits of a number of three or four digits. */
  lemma {:induction false} DecimalLength(n: nat)
    requires n < 10000
    ensures |Decimal(n)| == if n < 10 then 1 else if n < 100 then 2 else if n < 1000 then 3 else 4
  {
    if n >= 10 {
      DecimalLength(n / 10);
    }
  }

  /** A year written out in digits and followed by a non-digit (a unit such
      as '年', a dash, or nothing) is read back as itself. */
  lemma YearRoundTrip(n: nat, rest: string)
    requires 100 <= n <= 9999
    requires rest == [] || !IsDigit(rest[0])
    ensures ExtractYear(Decimal(n) + rest) == Some(n)
  {
    var d := Decimal(n);
    var s := d + rest;
    DecimalLength(n);
    assert ThreeDigitsAt(s, 0);
    ExtractYearLeftmost(s, 0);
    assert s[0..MatchLength(s, 0)] == d;
    DigitsValueDecimal(n);
  }

  // ---------------------------------------------------------------------
  // Row to event

  /** One event of the timeline. */
  datatype Event = Event(
    id: nat,
    name: string,
    dynasty: string,
    period: string,
    description: string,
    year: Option<nat>,
    order: nat)

  /** The `dynastyOrder` object, in rank order (汉 is 1, 现代 is 15). */
  const DynastyOrder: seq<string> := [
    "汉", "三国", "晋", "东晋", "南朝", "六朝", "隋", "唐", "五代", "宋", "元", "明", "清", "民国", "现代"]

  /** The candidate name columns, in the order they are tried. */
  const NameColumns: seq<string> := ["事件名称", "名称", "事件"]

  /** `possibleNames.find(n => n && n.trim())`: the first value that is not
      blank once trimmed. */
  function FirstNonBlank(values: seq<string>): (r: Option<string>)
    ensures r.Some? ==> r.value in values && Trim(r.value) != ""
    ensures r.None? <==> forall k :: 0 <= k < |values| ==> Trim(values[k]) == ""
  {
    if values == [] then None
    else if Trim(values[0]) != "" then Some(values[0])
    else
      AllBlankTail(values);
      FirstNonBlank(values[1..])
  }

  /** With a blank first value, all values are blank exactly when all the
      later ones are. */
  lemma AllBlankTail(values: seq<string>)
    requires values != [] && Trim(values[0]) == ""
    ensures (forall k :: 0 <= k < |values| ==> Trim(values[k]) == "")
        <==> (forall k :: 0 <= k < |values[1..]| ==> Trim(values[1..][k]) == "")
  {
    var rest := values[1..];
    if forall k :: 0 <= k < |rest| ==> Trim(rest[k]) == "" {
      forall k | 1 <= k < |values| ensures Trim(values[k]) == "" {
        assert values[k] == rest[k - 1];
      }
    }
  }

  /** The value found is the first one that is not blank. */
  lemma {:induction false} FirstNonBlankIsFirst(values: seq<string>, k: nat)
    requires k < |values| && Trim(values[k]) != ""
    requires forall j :: 0 <= j < k ==> Trim(values[j]) == ""
    ensures FirstNonBlank(values) == Some(values[k])
  {
    if k > 0 {
      BlanksTail(values, k);
      assert values[1..][k - 1] == values[k];
      FirstNonBlankIsFirst(values[1..], k - 1);
      SkipBlank(values);
    }
  }

  /** Blank values before position `k` stay blank, one place earlier, in the tail. */
  lemma BlanksTail(values: seq<string>, k: nat)
    requires 0 < k <= |values|
    requires forall j :: 0 <= j < k ==> Trim(values[j]) == ""
    ensures forall j :: 0 <= j < k - 1 ==> Trim(values[1..][j]) == ""
  {
    forall j | 0 <= j < k - 1 ensures Trim(values[1..][j]) == "" {
      assert values[1..][j] == values[j + 1];
    }
  }

  /** A blank first value is passed over. */
  lemma SkipBlank(s: seq<string>)
    requires s != [] && Trim(s[0]) == ""
    ensures FirstNonBlank(s) == FirstNonBlank(s[1..])
  {
  }

  /** `事件<n>`, the name of an event whose row names none. */
  function DefaultName(n: nat): string {
    "事件" + Decimal(n)
  }

  /** The default name is not empty and trimming leaves it as it is. */
  lemma DefaultNameTrimmed(n: nat)
    ensures DefaultName(n) != "" && Trim(DefaultName(n)) == DefaultName(n)
  {
    var d := DefaultName(n);
    assert d[0] == '事';
    assert d[|d| - 1] == Decimal(n)[|Decimal(n)| - 1];
    assert IsTrimmed(d);
    TrimOfTrimmed(d);
  }

  /** The row's values in the name columns, in the order they are tried. */
  function NameValues(row: Row): (values: seq<string>)
    ensures |values| == |NameColumns|
    ensures forall k :: 0 <= k < |NameColumns| ==> values[k] == Cell(row, NameColumns[k])
  {
    seq(|NameColumns|, k requires 0 <= k < |NameColumns| => Cell(row, NameColumns[k]))
  }

  /** The event's name: the first non-blank name column, else `事件<index + 1>`; trimmed. */
  function NameOf(row: Row, index: nat): (name: string)
    ensures name != "" && IsTrimmed(name)
  {
    DefaultNameTrimmed(index + 1);
    match FirstNonBlank(NameValues(row))
    case Some(n) => Trim(n)
    case None => Trim(DefaultName(index + 1))
  }

  /** `row['朝代'] || '历史时期'`. */
  function DynastyOf(row: Row): string {
    Or(Cell(row, "朝代"), "历史时期")
  }

  /** `row['时期'] || row['年份']`, the text the period and the year come from. */
  function PeriodText(row: Row): string {
    Or(Cell(row, "时期"), Cell(row, "年份"))
  }

  /** `row['事件简介'] || row['事件内容'] || '重要历史事件'`. */
  function DescriptionOf(row: Row): string {
    Or(Or(Cell(row, "事件简介"), Cell(row, "事件内容")), "重要历史事件")
  }

  /** The event built from the row at `index` (from 0) of the parsed rows. */
  function MakeEvent(row: Row, index: nat): (e: Event)
    ensures e.id == index + 1
    ensures e.name != "" && IsTrimmed(e.name)
    ensures e.dynasty != "" && e.period != "" && e.description != ""
    ensures e.year.Some? ==> e.year.value <= 9999
  {
    Event(
      index + 1,
      NameOf(row, index),
      DynastyOf(row),
      Or(PeriodText(row), "时间不详"),
      DescriptionOf(row),
      ExtractYear(PeriodText(row)),
      RankIn(DynastyOrder, DynastyOf(row)))
  }

  /** Name column `k` is the first one of the row that is not blank. */
  predicate FirstNamed(row: Row, k: nat)
    requires k < |NameColumns|
  {
    Trim(Cell(row, NameColumns[k])) != "" && forall j :: 0 <= j < k ==> Trim(Cell(row, NameColumns[j])) == ""
  }

  /** The name is the first non-blank name column, trimmed, and the default
      name only when all three are blank. */
  lemma NameFallback(row: Row, index: nat)
    ensures (forall k :: 0 <= k < |NameColumns| ==> Trim(Cell(row, NameColumns[k])) == "")
      ==> NameOf(row, index) == DefaultName(index + 1)
    ensures forall k :: 0 <= k < |NameColumns| && FirstNamed(row, k) ==>
      NameOf(row, index) == Trim(Cell(row, NameColumns[k]))
  {
    if forall k :: 0 <= k < |NameColumns| ==> Trim(Cell(row, NameColumns[k])) == "" {
      NameAllBlank(row, index);
    }
    forall k | 0 <= k < |NameColumns| && FirstNamed(row, k)
      ensures NameOf(row, index) == Trim(Cell(row, NameColumns[k]))
    {
      NameFirstNamed(row, index, k);
    }
  }

  /** All three name columns blank: the default name. */
  lemma NameAllBlank(row: Row, index: nat)
    requires forall k :: 0 <= k < |NameColumns| ==> Trim(Cell(row, NameColumns[k])) == ""
    ensures NameOf(row, index) == DefaultName(index + 1)
  {
    var names := NameValues(row);
    forall k | 0 <= k < |names| ensures Trim(names[k]) == "" {
      assert names[k] == Cell(row, NameColumns[k]);
    }
    assert FirstNonBlank(names) == None;
    DefaultNameTrimmed(index + 1);
  }

  /** The first non-blank name column gives the name. */
  lemma NameFirstNamed(row: Row, index: nat, k: nat)
    requires k < |NameColumns| && FirstNamed(row, k)
    ensures NameOf(row, index) == Trim(Cell(row, NameColumns[k]))
  {
    FirstNonBlankIsFirst(NameValues(row), k);
  }

  /** The rank is the dynasty's place in `dynastyOrder`, and 999 exactly for
      an unlisted (or missing) dynasty. */
  lemma EventOrder(row: Row, index: nat)
    ensures var e := MakeEvent(row, index);
      && (1 <= e.order <= |DynastyOrder| || e.order == Unranked)
      && (e.order == Unranked <==> e.dynasty !in DynastyOrder)
      && (e.dynasty in DynastyOrder ==> DynastyOrder[e.order - 1] == e.dynasty)
  {
    var e := MakeEvent(row, index);
    assert e.order == RankIn(DynastyOrder, e.dynasty);
    DynastyRank(e.dynasty, e.order);
  }

  /** What a rank in `dynastyOrder` says about the dynasty. */
  lemma DynastyRank(d: string, order: nat)
    requires order == RankIn(DynastyOrder, d)
    ensures 1 <= order <= |DynastyOrder| || order == Unranked
    ensures order == Unranked <==> d !in DynastyOrder
    ensures d in DynastyOrder ==> DynastyOrder[order - 1] == d
  {
    RankInMeaning(DynastyOrder, d);
  }

  // ---------------------------------------------------------------------
  // The timeline

  /** The row cap of the timeline. */
  const MaxEvents: nat := 20

  /** `a.year || 0`. */
  function YearOrZero(e: Event): nat {
    match e.year
    case None => 0
    case Some(y) => y
  }

  /** One integer carrying the comparator's order: dynasty rank first, then
      year. Years stay below 10000, so the rank decides unless equal. */
  function SortKey(e: Event): int {
    e.order * 10000 + YearOrZero(e)
  }

  /** Comparing keys is comparing (rank, year) lexicographically, as the
      comparator does. */
  lemma SortKeyLexicographic(a: Event, b: Event)
    requires YearOrZero(a) <= 9999 && YearOrZero(b) <= 9999
    ensures SortKey(a) <= SortKey(b) <==> a.order < b.order || (a.order == b.order && YearOrZero(a) <= YearOrZero(b))
  {
  }

  /** The rows' events, ids by position, before sorting. */
  function Mapped(rows: seq<Row>): (es: seq<Event>)
    ensures |es| == |rows|
    ensures forall k :: 0 <= k < |rows| ==> es[k] == MakeEvent(rows[k], k)
  {
    seq(|rows|, k requires 0 <= k < |rows| => MakeEvent(rows[k], k))
  }

  /** The timeline for a non-empty parse: the first twenty rows' events,
      sorted by rank and then year, stably. */
  function ProcessEvents(rows: seq<Row>): seq<Event> {
    SortBy(Mapped(rows[..Min(MaxEvents, |rows|)]), SortKey)
  }

  /** One event per row among the first twenty. */
  lemma ProcessEventsCount(rows: seq<Row>)
    ensures |ProcessEvents(rows)| == Min(MaxEvents, |rows|)
  {
  }

  /** Each event is the one built from the row its id names: ids are the
      row positions (from 1) among the first twenty rows. */
  lemma ProcessEventsProvenance(rows: seq<Row>)
    ensures forall e :: e in ProcessEvents(rows) ==>
      1 <= e.id <= Min(MaxEvents, |rows|) && e == MakeEvent(rows[e.id - 1], e.id - 1)
  {
    var capped := rows[..Min(MaxEvents, |rows|)];
    forall e | e in ProcessEvents(rows)
      ensures 1 <= e.id <= Min(MaxEvents, |rows|) && e == MakeEvent(rows[e.id - 1], e.id - 1)
    {
      EventAtId(rows, e);
      assert capped[e.id - 1] == rows[e.id - 1];
    }
  }

  /** Every row among the first twenty has its event in the timeline. */
  lemma ProcessEventsComplete(rows: seq<Row>)
    ensures forall k :: 0 <= k < Min(MaxEvents, |rows|) ==> MakeEvent(rows[k], k) in ProcessEvents(rows)
  {
    var capped := rows[..Min(MaxEvents, |rows|)];
    var mapped := Mapped(capped);
    var es := ProcessEvents(rows);
    forall k | 0 <= k < |capped| ensures MakeEvent(rows[k], k) in es {
      assert mapped[k] in multiset(es);
    }
  }

  /** No two events of the timeline share an id. */
  lemma ProcessEventsIdsDistinct(rows: seq<Row>)
    ensures forall i, j :: 0 <= i < j < |ProcessEvents(rows)| ==> ProcessEvents(rows)[i].id != ProcessEvents(rows)[j].id
  {
    IdsDistinctIn(rows, ProcessEvents(rows));
  }

  /** The same for any reordering `es` of the first twenty rows' events. */
  lemma IdsDistinctIn(rows: seq<Row>, es: seq<Event>)
    requires multiset(es) == multiset(Mapped(rows[..Min(MaxEvents, |rows|)]))
    ensures forall i, j :: 0 <= i < j < |es| ==> es[i].id != es[j].id
  {
    var mapped := Mapped(rows[..Min(MaxEvents, |rows|)]);
    MappedDistinct(rows[..Min(MaxEvents, |rows|)]);
    DistinctPermutation(mapped, es);
    forall i, j | 0 <= i < j < |es| ensures es[i].id != es[j].id {
      if es[i].id == es[j].id {
        SameIdIn(rows, es, es[i], es[j]);
      }
    }
  }

  /** An id names one event of the timeline. */
  lemma SameIdSameEvent(rows: seq<Row>, a: Event, b: Event)
    requires a in ProcessEvents(rows) && b in ProcessEvents(rows) && a.id == b.id
    ensures a == b
  {
    SameIdIn(rows, ProcessEvents(rows), a, b);
  }

  /** The same for any reordering `es` of the first twenty rows' events. */
  lemma SameIdIn(rows: seq<Row>, es: seq<Event>, a: Event, b: Event)
    requires multiset(es) == multiset(Mapped(rows[..Min(MaxEvents, |rows|)]))
    requires a in es && b in es && a.id == b.id
    ensures a == b
  {
    EventAtIdIn(rows, es, a);
    EventAtIdIn(rows, es, b);
  }

  /** An event of the timeline stands at its id's place among the rows' events. */
  lemma EventAtId(rows: seq<Row>, e: Event)
    requires e in ProcessEvents(rows)
    ensures 1 <= e.id <= Min(MaxEvents, |rows|) && Mapped(rows[..Min(MaxEvents, |rows|)])[e.id - 1] == e
  {
    EventAtIdIn(rows, ProcessEvents(rows), e);
  }

  /** The same for any reordering `es` of the first twenty rows' events. */
  lemma EventAtIdIn(rows: seq<Row>, es: seq<Event>, e: Event)
    requires multiset(es) == multiset(Mapped(rows[..Min(MaxEvents, |rows|)])) && e in es
    ensures 1 <= e.id <= Min(MaxEvents, |rows|) && Mapped(rows[..Min(MaxEvents, |rows|)])[e.id - 1] == e
  {
    var capped := rows[..Min(MaxEvents, |rows|)];
    var mapped := Mapped(capped);
    forall k | 0 <= k < |mapped| ensures mapped[k].id == k + 1 {
      MappedId(capped, k);
    }
    IdIndexes(es, mapped, e);
  }

  /** In a list whose ids count positions from 1, every member of a
      reordering stands at its id's place. */
  lemma IdIndexes(es: seq<Event>, mapped: seq<Event>, e: Event)
    requires multiset(es) == multiset(mapped) && e in es
    requires forall k :: 0 <= k < |mapped| ==> mapped[k].id == k + 1
    ensures 1 <= e.id <= |mapped| && mapped[e.id - 1] == e
  {
    var p := IndexOfPermuted(es, mapped, e);
    assert e.id == p + 1;
  }

  /** The event at position `p` of the rows' events has id `p + 1`. */
  lemma MappedId(rows: seq<Row>, p: nat)
    requires p < |rows|
    ensures Mapped(rows)[p].id == p + 1
  {
  }

  /** Events built from different positions differ (in their ids). */
  lemma MappedDistinct(rows: seq<Row>)
    ensures Distinct(Mapped(rows))
  {
    var es := Mapped(rows);
    forall i, j | 0 <= i < j < |es| ensures es[i] != es[j] {
      assert es[i].id == i + 1 && es[j].id == j + 1;
    }
  }

  /** Every year on the timeline has at most four digits. */
  lemma ProcessEventsYears(rows: seq<Row>)
    ensures forall k :: 0 <= k < |ProcessEvents(rows)| ==> YearOrZero(ProcessEvents(rows)[k]) <= 9999
  {
    var mapped := Mapped(rows[..Min(MaxEvents, |rows|)]);
    forall k | 0 <= k < |mapped| ensures YearOrZero(mapped[k]) <= 9999 {
    }
    PermutedYears(mapped, ProcessEvents(rows));
  }

  /** A reordering of events whose years have at most four digits has only
      such years. */
  lemma PermutedYears(a: seq<Event>, es: seq<Event>)
    requires multiset(es) == multiset(a)
    requires forall k :: 0 <= k < |a| ==> YearOrZero(a[k]) <= 9999
    ensures forall k :: 0 <= k < |es| ==> YearOrZero(es[k]) <= 9999
  {
    forall k | 0 <= k < |es| ensures YearOrZero(es[k]) <= 9999 {
      var p := IndexOfPermuted(es, a, es[k]);
    }
  }

  /** The timeline is ordered by rank, and by year within a rank. */
  lemma ProcessEventsOrdered(rows: seq<Row>)
    ensures forall i, j :: 0 <= i < j < |ProcessEvents(rows)| ==>
      var a, b := ProcessEvents(rows)[i], ProcessEvents(rows)[j];
      a.order < b.order || (a.order == b.order && YearOrZero(a) <= YearOrZero(b))
  {
    var es := ProcessEvents(rows);
    ProcessEventsYears(rows);
    forall i, j | 0 <= i < j < |es|
      ensures es[i].order < es[j].order || (es[i].order == es[j].order && YearOrZero(es[i]) <= YearOrZero(es[j]))
    {
      assert SortKey(es[i]) <= SortKey(es[j]);
      SortKeyLexicographic(es[i], es[j]);
    }
  }

  /** Events of equal rank and year keep their row order. */
  lemma ProcessEventsStable(rows: seq<Row>, v: int)
    ensures WithKey(ProcessEvents(rows), SortKey, v) == WithKey(Mapped(rows[..Min(MaxEvents, |rows|)]), SortKey, v)
  {
    SortByStable(Mapped(rows[..Min(MaxEvents, |rows|)]), SortKey, v);
  }

  // ---------------------------------------------------------------------
  // Loading

  /** What loading produced: the parsed rows, or a failure (of the fetch). */
  datatype LoadOutcome = Failed | Parsed(rows: seq<Row>)

  /** The sample timeline for an empty parse. */
  const SampleEvents: seq<Event> := [
    Event(1, "东晋建都建康", "东晋", "317年", "司马睿在建康称帝，建立东晋政权", Some(317), 4),
    Event(2, "南朝宋建立", "南朝", "420年", "刘裕建立宋朝，开启南朝时代", Some(420), 5),
    Event(3, "梁武帝萧衍即位", "南朝", "502年", "萧衍建立梁朝，南朝文化繁荣", Some(502), 5),
    Event(4, "陈朝建立", "南朝", "557年", "陈霸先建立陈朝，为南朝最后一个朝代", Some(557), 5),
    Event(5, "隋灭陈统一", "隋", "589年", "隋军渡江灭陈，结束南北朝分裂", Some(589), 7),
    Event(6, "唐诗繁荣", "唐", "618-907年", "唐代诗歌创作达到巅峰，金陵诗韵流传", Some(700), 8),
    Event(7, "宋词兴盛", "宋", "960-1279年", "宋代词曲文化发达，金陵文脉延续", Some(1100), 10),
    Event(8, "明太祖定都南京", "明", "1368年", "朱元璋建立明朝，定都南京", Some(1368), 12),
    Event(9, "明成祖迁都北京", "明", "1421年", "永乐帝迁都北京，南京为留都", Some(1421), 12),
    Event(10, "太平天国建都", "清", "1853年", "太平天国定都天京（南京）", Some(1853), 13)]

  /** The timeline shown when loading fails. */
  const FallbackEvents: seq<Event> := [
    Event(1, "东晋建都建康", "东晋", "317年", "司马睿在建康称帝，建立东晋政权", Some(317), 4),
    Event(2, "南朝宋建立", "南朝", "420年", "刘裕建立宋朝，开启南朝时代", Some(420), 5),
    Event(3, "梁武帝萧衍即位", "南朝", "502年", "萧衍建立梁朝，南朝文化繁荣", Some(502), 5),
    Event(4, "陈朝建立", "南朝", "557年", "陈霸先建立陈朝，为南朝最后一个朝代", Some(557), 5),
    Event(5, "隋灭陈统一", "隋", "589年", "隋军渡江灭陈，结束南北朝分裂", Some(589), 7),
    Event(6, "唐诗繁荣", "唐", "618-907年", "唐代诗歌创作达到巅峰，金陵诗韵流传", Some(700), 8),
    Event(7, "宋词兴盛", "宋", "960-1279年", "宋代词曲文化发达，金陵文脉延续", Some(1100), 10),
    Event(8, "明太祖定都南京", "明", "1368年", "朱元璋建立明朝，定都南京", Some(1368), 12)]

  /** The timeline `loadData` stores. */
  function LoadEvents(outcome: LoadOutcome): seq<Event> {
    match outcome
    case Failed => FallbackEvents
    case Parsed(rows) => if |rows| > 0 then ProcessEvents(rows) else SampleEvents
  }

  /** A failed load shows the first eight sample events. */
  lemma FallbackIsSamplePrefix()
    ensures FallbackEvents == SampleEvents[..8]
  {
  }

  /** The timeline never holds more than twenty events and is never empty:
      ten sample events for an empty parse, eight on failure. */
  lemma LoadEventsSize(outcome: LoadOutcome)
    ensures 1 <= |LoadEvents(outcome)| <= MaxEvents
    ensures outcome == Parsed([]) ==> |LoadEvents(outcome)| == 10
    ensures outcome.Failed? ==> |LoadEvents(outcome)| == 8
  {
  }
}
