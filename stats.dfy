/** Corpus statistics: the per-dynasty and per-author counters
    (`calculateStats`), the overview numbers (`getStats`, `renderOverview`)
    and the time-span label (`getTimeSpan`), shared by src/utils/DataManager.js
    and src/main.js. */
module Stats {
  import opened Counting
  import opened Records

  const SixDynasties: string := "六朝"
  const Contemporary: string := "当代"

  const Span1500: string := "1500+ 年"
  const Span1000: string := "1000+ 年"
  const SpanCenturies: string := "数百年"

  /** The dynasty of every poem, in corpus order. */
  function Dynasties(ps: seq<Poem>): (r: seq<string>)
    ensures |r| == |ps|
    ensures forall i :: 0 <= i < |ps| ==> r[i] == ps[i].dynasty
  {
    seq(|ps|, i requires 0 <= i < |ps| => ps[i].dynasty)
  }

  /** The author of every poem, in corpus order. */
  function Authors(ps: seq<Poem>): (r: seq<string>)
    ensures |r| == |ps|
    ensures forall i :: 0 <= i < |ps| ==> r[i] == ps[i].author
  {
    seq(|ps|, i requires 0 <= i < |ps| => ps[i].author)
  }

  /** `getTimeSpan()` over the keys of the dynasty counter. */
  function TimeSpan(keys: seq<string>): (r: string)
    ensures r in {Span1500, Span1000, SpanCenturies}
  {
    if SixDynasties in keys && Contemporary in keys then Span1500
    else if SixDynasties in keys then Span1000
    else SpanCenturies
  }

  /** The time span read off a corpus: the longest label exactly when the
      corpus holds poems of both the Six Dynasties and the present day, the
      middle one when it holds Six Dynasties poems but none of the present
      day, the shortest otherwise. */
  lemma TimeSpanOfCorpus(ps: seq<Poem>)
    ensures var span := TimeSpan(Keys(Tally(Dynasties(ps))));
      && (span == Span1500 <==> SixDynasties in Dynasties(ps) && Contemporary in Dynasties(ps))
      && (span == Span1000 <==> SixDynasties in Dynasties(ps) && Contemporary !in Dynasties(ps))
      && (span == SpanCenturies <==> SixDynasties !in Dynasties(ps))
  {
    TallyKeys(Dynasties(ps), SixDynasties);
    TallyKeys(Dynasties(ps), Contemporary);
  }

  /** The object `getStats()` returns. */
  datatype Overview = Overview(poemCount: nat, authorCount: nat, dynastyCount: nat, timeSpan: string)

  /** The overview of a corpus whose counters are the tallies of its authors
      and dynasties: the poem count, the number of distinct authors and of
      distinct dynasties, and the time span. */
  function CorpusOverview(ps: seq<Poem>): (o: Overview)
    ensures o.poemCount == |ps|
    ensures o.authorCount == |set x | x in Authors(ps)|
    ensures o.dynastyCount == |set x | x in Dynasties(ps)|
  {
    var authors := Tally(Authors(ps));
    var dynasties := Tally(Dynasties(ps));
    TallySize(Authors(ps));
    TallySize(Dynasties(ps));
    Overview(|ps|, |authors|, |dynasties|, TimeSpan(Keys(dynasties)))
  }

  /** Every dynasty count is the number of poems of that dynasty, and the
      counts add up to the corpus size; likewise for authors. */
  lemma CountersOfCorpus(ps: seq<Poem>, d: string, a: string)
    ensures Get(Tally(Dynasties(ps)), d) == |set i | 0 <= i < |ps| && Dynasties(ps)[i] == d|
    ensures Get(Tally(Authors(ps)), a) == |set i | 0 <= i < |ps| && Authors(ps)[i] == a|
    ensures Total(Tally(Dynasties(ps))) == |ps| && Total(Tally(Authors(ps))) == |ps|
  {
    TallyCounts(Dynasties(ps), d);
    TallyCounts(Authors(ps), a);
    OccurrencesAsIndices(Dynasties(ps), d);
    OccurrencesAsIndices(Authors(ps), a);
    TallyTotal(Dynasties(ps));
    TallyTotal(Authors(ps));
  }

  /** The multiplicity of `x` in `s` is the number of positions holding `x`. */
  lemma {:induction false} OccurrencesAsIndices(s: seq<string>, x: string)
    ensures multiset(s)[x] == |set i | 0 <= i < |s| && s[i] == x|
  {
    if s != [] {
      var n := |s| - 1;
      OccurrencesAsIndices(s[..n], x);
      assert s == s[..n] + [s[n]];
      var before := set i | 0 <= i < n && s[..n][i] == x;
      var now := set i | 0 <= i < |s| && s[i] == x;
      assert before == set i | 0 <= i < n && s[i] == x;
      if s[n] == x {
        assert now == before + {n};
      } else {
        assert now == before;
      }
    }
  }

  /** The counting loop of `calculateStats` (both apps): one pass over the
      corpus, bumping the poem's dynasty and author. */
  method CountStats(poems: seq<Poem>) returns (dynastyStats: Table, authorStats: Table)
    ensures dynastyStats == Tally(Dynasties(poems)) && authorStats == Tally(Authors(poems))
  {
    dynastyStats := [];
    authorStats := [];
    for i := 0 to |poems|
      invariant dynastyStats == Tally(Dynasties(poems[..i]))
      invariant authorStats == Tally(Authors(poems[..i]))
    {
      var poem := poems[i];
      assert Dynasties(poems[..i + 1])[..i] == Dynasties(poems[..i]);
      assert Authors(poems[..i + 1])[..i] == Authors(poems[..i]);
      dynastyStats := Bump(dynastyStats, poem.dynasty);
      authorStats := Bump(authorStats, poem.author);
    }
    assert poems[..|poems|] == poems;
  }
}
