/** Word frequencies for the word cloud of
    src/components/WordCloud/WordCloud.jsx: `segmentText` cuts a poem into
    listed two-character words and frequent single characters, and
    `processPoems` counts the words of all poems and keeps the fifty most
    frequent with their weights. Strings are sequences of code points; every
    character the component looks for lies in the Basic Multilingual Plane,
    where this agrees with JavaScript's UTF-16 code units. */
module WordCloud {
  import opened Text
  import opened Counting
  import opened Sorting
  import opened Records
  import opened Paging

  // The listed words (`commonWords`), by theme, in source order.
  const Nature: seq<string> := [
    "春风", "秋月", "夏日", "冬雪", "山水", "江河", "湖海", "花草", "树木", "鸟兽",
    "青山", "绿水", "白云", "明月", "夕阳", "朝霞", "星辰", "雨露", "霜雪", "烟雾",
    "桃花", "梅花", "荷花", "菊花", "兰花", "竹子", "松树", "柳树", "梧桐", "芭蕉"]
  const Feelings: seq<string> := [
    "思君", "怀古", "离别", "相思", "愁绪", "欢乐", "悲伤", "孤独", "寂寞", "惆怅",
    "眷恋", "怀念", "感慨", "忧愁", "喜悦", "激动", "平静", "安详", "温馨", "浪漫"]
  const TimesAndPlaces: seq<string> := [
    "春日", "夏夜", "秋晨", "冬夕", "黄昏", "清晨", "午后", "深夜", "故乡", "他乡",
    "江南", "塞北", "京城", "山村", "水乡", "边塞", "宫廷", "田园", "市井", "寺庙"]
  const People: seq<string> := [
    "君王", "臣子", "朋友", "知己", "佳人", "美人", "才子", "佳人", "夫妻", "兄弟",
    "师友", "同窗", "故人", "新知", "红颜", "知音", "伴侣", "亲人", "游子", "归人"]
  const Culture: seq<string> := [
    "诗词", "文章", "书画", "音乐", "舞蹈", "琴棋", "书法", "绘画", "雕刻", "建筑",
    "礼仪", "道德", "仁义", "忠孝", "廉耻", "智慧", "学问", "修养", "品格", "风度"]

  const CommonWords: seq<string> := Nature + Feelings + TimesAndPlaces + People + Culture

  /** Every listed word has two characters. */
  predicate AllPairs(ws: seq<string>) {
    forall k :: 0 <= k < |ws| ==> |ws[k]| == 2
  }

  lemma CommonWordsArePairs()
    ensures AllPairs(CommonWords)
  {
    assert AllPairs(Nature);
    assert AllPairs(Feelings);
    assert AllPairs(TimesAndPlaces);
    assert AllPairs(People);
    assert AllPairs(Culture);
  }

  /** The characters of the punctuation class `[，。！？；：""''（）【】《》、]`. */
  predicate IsPunctuation(c: char) {
    || c == '，' || c == '。' || c == '！' || c == '？' || c == '；' || c == '：'
    || c == '"' || c == '\'' || c == '（' || c == '）'
    || c == '【' || c == '】' || c == '《' || c == '》' || c == '、'
  }

  /** The class `[一-龥]`. */
  predicate IsCjk(c: char) {
    '\U{4E00}' <= c <= '\U{9FA5}'
  }

  /** The class `[的了在是有和与及或者]`. */
  predicate IsStopChar(c: char) {
    c == '的' || c == '了' || c == '在' || c == '是' || c == '有'
    || c == '和' || c == '与' || c == '及' || c == '或' || c == '者'
  }

  /** `text.replace(/[punctuation]/g, ' ')`. */
  function CleanText(text: string): (r: string)
    ensures |r| == |text|
    ensures forall k :: 0 <= k < |text| ==> r[k] == if IsPunctuation(text[k]) then ' ' else text[k]
  {
    seq(|text|, k requires 0 <= k < |text| => if IsPunctuation(text[k]) then ' ' else text[k])
  }

  /** Cleaning keeps every CJK character where it is, since no punctuation
      character is one. */
  lemma {:induction false} CleanKeepsCjk(text: string, c: char)
    requires IsCjk(c)
    ensures multiset(CleanText(text))[c] == multiset(text)[c]
  {
    if text != [] {
      var n := |text| - 1;
      CleanKeepsCjk(text[..n], c);
      assert CleanText(text) == CleanText(text[..n]) + [CleanText(text)[n]];
      assert text == text[..n] + [text[n]];
    }
  }

  /** The number of matches of the global pattern `w` in `hay`: each search
      resumes after the previous match, so matches never overlap; the empty
      pattern matches at every position, the end included. */
  function Occ(hay: string, w: string): nat
    decreases |hay|
  {
    if |w| == 0 then |hay| + 1
    else if |hay| < |w| then 0
    else if hay[..|w|] == w then 1 + Occ(hay[|w|..], w)
    else Occ(hay[1..], w)
  }

  /** A word has a match exactly when it occurs somewhere in the text. */
  lemma {:induction false} OccIffContains(hay: string, w: string)
    ensures Occ(hay, w) > 0 <==> Contains(hay, w)
    decreases |hay|
  {
    if |w| == 0 {
      ContainsEmpty(hay);
    } else if |hay| >= |w| {
      if hay[..|w|] == w {
        assert OccursAt(hay, w, 0);
      } else {
        OccIffContains(hay[1..], w);
        ContainsPastFirst(hay, w);
      }
    }
  }

  /** A text that does not start with `w` contains it exactly when its
      tail does. */
  lemma ContainsPastFirst(hay: string, w: string)
    requires |w| > 0 && |hay| >= |w| && hay[..|w|] != w
    ensures Contains(hay, w) <==> Contains(hay[1..], w)
  {
    if Contains(hay[1..], w) {
      var i :| 0 <= i <= |hay[1..]| - |w| && OccursAt(hay[1..], w, i);
      TailSlice(hay, i + 1, |w|);
      assert OccursAt(hay, w, i + 1);
    }
    if Contains(hay, w) {
      var i :| 0 <= i <= |hay| - |w| && OccursAt(hay, w, i);
      assert i != 0;
      TailSlice(hay, i, |w|);
      assert OccursAt(hay[1..], w, i - 1);
    }
  }

  /** A slice of the tail is the slice one further on in the whole. */
  lemma TailSlice(hay: string, i: nat, n: nat)
    requires 1 <= i && i + n <= |hay|
    ensures hay[1..][i - 1..i - 1 + n] == hay[i..i + n]
  {
    var a, b := hay[1..][i - 1..i - 1 + n], hay[i..i + n];
    forall k | 0 <= k < n ensures a[k] == b[k] {
      assert a[k] == hay[1..][i - 1 + k];
    }
  }

  /** `n` copies of `w`. */
  function Repeat(w: string, n: nat): (r: seq<string>)
    ensures |r| == n
    ensures forall k :: 0 <= k < n ==> r[k] == w
  {
    if n == 0 then [] else Repeat(w, n - 1) + [w]
  }

  lemma {:induction false} RepeatCount(w: string, n: nat, x: string)
    ensures multiset(Repeat(w, n))[x] == if x == w then n else 0
  {
    if n > 0 {
      RepeatCount(w, n - 1, x);
    }
  }

  /** The matches of the listed words, word by word in list order. */
  function CommonMatches(clean: string, ws: seq<string>): seq<string>
  {
    if ws == [] then []
    else
      var w := ws[|ws| - 1];
      CommonMatches(clean, ws[..|ws| - 1]) + Repeat(w, Occ(clean, w))
  }

  /** Each listed word appears once per match for every time it is listed. */
  lemma {:induction false} CommonMatchesCount(clean: string, ws: seq<string>, x: string)
    ensures multiset(CommonMatches(clean, ws))[x] == multiset(ws)[x] * Occ(clean, x)
  {
    if ws != [] {
      var init := ws[..|ws| - 1];
      CommonMatchesCount(clean, init, x);
      CommonMatchesSnoc(clean, ws, x);
      MultisetSnoc(ws, x);
      MulSucc(multiset(init)[x], Occ(clean, x));
    }
  }

  /** The last listed word adds its matches, and only to its own count. */
  lemma CommonMatchesSnoc(clean: string, ws: seq<string>, x: string)
    requires ws != []
    ensures multiset(CommonMatches(clean, ws))[x]
         == multiset(CommonMatches(clean, ws[..|ws| - 1]))[x] + (if x == ws[|ws| - 1] then Occ(clean, x) else 0)
  {
    var w := ws[|ws| - 1];
    var matches := Repeat(w, Occ(clean, w));
    RepeatCount(w, Occ(clean, w), x);
    assert CommonMatches(clean, ws) == CommonMatches(clean, ws[..|ws| - 1]) + matches;
    assert multiset(CommonMatches(clean, ws)) == multiset(CommonMatches(clean, ws[..|ws| - 1])) + multiset(matches);
  }

  lemma MulSucc(a: nat, b: nat)
    ensures (a + 1) * b == a * b + b
  {
  }

  /** Only listed words come out of the matching step. */
  lemma {:induction false} CommonMatchesListed(clean: string, ws: seq<string>, x: string)
    requires x !in ws
    ensures multiset(CommonMatches(clean, ws))[x] == 0
  {
    if ws != [] {
      var n := |ws| - 1;
      CommonMatchesListed(clean, ws[..n], x);
      RepeatCount(ws[n], Occ(clean, ws[n]), x);
    }
  }

  /** `cleanText.match(/[一-龥]/g) || []`: the CJK characters, in order. */
  function CjkChars(clean: string): (r: seq<string>)
    ensures forall k :: 0 <= k < |r| ==> |r[k]| == 1 && IsCjk(r[k][0])
  {
    if clean == [] then []
    else
      var c := clean[|clean| - 1];
      CjkChars(clean[..|clean| - 1]) + (if IsCjk(c) then [[c]] else [])
  }

  /** The test a character passes to be counted: one character, not a stop character. */
  predicate CountedChar(x: string) {
    |x| == 1 && !IsStopChar(x[0])
  }

  /** The characters that pass the test, in order. */
  function Counted(xs: seq<string>): (r: seq<string>)
    ensures forall k :: 0 <= k < |r| ==> CountedChar(r[k])
  {
    if xs == [] then []
    else Counted(xs[..|xs| - 1]) + (if CountedChar(xs[|xs| - 1]) then [xs[|xs| - 1]] else [])
  }

  /** The CJK characters of a text, each once per occurrence. */
  lemma {:induction false} CjkCount(clean: string, c: char)
    ensures multiset(CjkChars(clean))[[c]] == if IsCjk(c) then multiset(clean)[c] else 0
  {
    if clean != [] {
      var n := |clean| - 1;
      var init := clean[..n];
      var x := clean[n];
      CjkCount(init, c);
      MultisetSnoc(clean, c);
      var tail: seq<string> := if IsCjk(x) then [[x]] else [];
      assert CjkChars(clean) == CjkChars(init) + tail;
      assert multiset(CjkChars(clean)) == multiset(CjkChars(init)) + multiset(tail);
      assert multiset(tail)[[c]] == if IsCjk(x) && x == c then 1 else 0 by {
        if IsCjk(x) {
          assert [x] == [c] <==> x == c by {
            if [x] == [c] { assert [x][0] == [c][0]; }
          }
        }
      }
    }
  }

  /** The counted characters, each once per occurrence. */
  lemma {:induction false} CountedCount(xs: seq<string>, y: string)
    ensures multiset(Counted(xs))[y] == if CountedChar(y) then multiset(xs)[y] else 0
  {
    if xs != [] {
      var n := |xs| - 1;
      var init := xs[..n];
      var x := xs[n];
      CountedCount(init, y);
      assert xs == init + [x];
      var tail: seq<string> := if CountedChar(x) then [x] else [];
      assert Counted(xs) == Counted(init) + tail;
      assert multiset(Counted(xs))[y] == multiset(Counted(init))[y] + multiset(tail)[y];
      assert multiset(xs)[y] == multiset(init)[y] + multiset([x])[y];
    }
  }

  /** The characters seen at least three times, each pushed as many times as
      it was seen but at most five, in the order the characters were first seen. */
  function HighFrequency(t: Table): seq<string> {
    if t == [] then []
    else
      var e := t[|t| - 1];
      HighFrequency(t[..|t| - 1]) + (if e.count >= 3 then Repeat(e.key, Min(e.count, 5)) else [])
  }

  /** A key of the table is pushed `min(count, 5)` times if its count is at
      least 3 and not at all otherwise. */
  lemma {:induction false} HighFrequencyCount(t: Table, x: string)
    requires DistinctKeys(t)
    ensures multiset(HighFrequency(t))[x] == if Get(t, x) >= 3 then Min(Get(t, x), 5) else 0
  {
    if t != [] {
      var n := |t| - 1;
      var e := t[n];
      HighFrequencyCount(t[..n], x);
      if e.count >= 3 {
        RepeatCount(e.key, Min(e.count, 5), x);
      }
      if e.key == x {
        assert Get(t, x) == e.count;
        assert Get(t[..n], x) == 0;
      } else {
        assert Get(t, x) == Get(t[..n], x);
      }
    }
  }

  /** `segmentText` with the list `words`: the matches of the listed words,
      then the frequent single characters. */
  function SegmentWith(words: seq<string>, text: string): seq<string> {
    var clean := CleanText(text);
    CommonMatches(clean, words) + HighFrequency(Tally(Counted(CjkChars(clean))))
  }

  /** `segmentText(text)`. */
  function Segment(text: string): seq<string> {
    SegmentWith(CommonWords, text)
  }

  /** A word of other than one character appears once per match of it in
      the cleaned text for every time it is listed, so never when unlisted. */
  lemma SegmentWordCount(words: seq<string>, text: string, w: string)
    requires |w| != 1
    ensures multiset(SegmentWith(words, text))[w] == multiset(words)[w] * Occ(CleanText(text), w)
  {
    var clean := CleanText(text);
    var chars := Counted(CjkChars(clean));
    CommonMatchesCount(clean, words, w);
    TallyCounts(chars, w);
    CountedCount(CjkChars(clean), w);
    HighFrequencyCount(Tally(chars), w);
  }

  /** A word of other than one character listed at two places counts (at
      least) twice for each of its matches. */
  lemma ListedTwiceCount(words: seq<string>, text: string, w: string, i: nat, j: nat)
    requires |w| != 1 && i < j < |words| && words[i] == w && words[j] == w
    ensures multiset(SegmentWith(words, text))[w] >= 2 * Occ(CleanText(text), w)
  {
    TwoIndices(words, i, j);
    SegmentWordCount(words, text, w);
    MulAtLeast(multiset(words)[w], 2, Occ(CleanText(text), w));
  }

  /** '佳人' is listed twice, so each of its matches counts (at least) twice. */
  lemma BeautyListedTwice(text: string)
    ensures multiset(Segment(text))["佳人"] >= 2 * Occ(CleanText(text), "佳人")
  {
    assert CommonWords[74] == "佳人" && CommonWords[77] == "佳人";
    ListedTwiceCount(CommonWords, text, "佳人", 74, 77);
  }

  lemma BeautyListed()
    ensures multiset(CommonWords)["佳人"] >= 2
  {
    var w := "佳人";
    assert People[4] == w && People[7] == w;
    TwoIndices(People, 4, 7);
    MiddleCount(Nature + Feelings + TimesAndPlaces, People, Culture, w);
  }

  /** An element counts in a concatenation at least as often as in its middle part. */
  lemma MiddleCount(a: seq<string>, b: seq<string>, c: seq<string>, x: string)
    ensures multiset(a + b + c)[x] >= multiset(b)[x]
  {
    assert multiset(a + b + c) == multiset(a) + multiset(b) + multiset(c);
  }

  lemma MulAtLeast(a: nat, b: nat, o: nat)
    requires a >= b
    ensures a * o >= b * o
  {
  }

  /** With a list of two-character words, a counted CJK character of the
      text contributes nothing when it occurs fewer than three times, and
      `min(count, 5)` copies otherwise. */
  lemma SegmentCharCount(words: seq<string>, text: string, c: char)
    requires AllPairs(words)
    requires IsCjk(c) && !IsStopChar(c)
    ensures var n := multiset(text)[c];
      multiset(SegmentWith(words, text))[[c]] == if n >= 3 then Min(n, 5) else 0
  {
    var clean := CleanText(text);
    var chars := Counted(CjkChars(clean));
    assert [c] !in words;
    CommonMatchesListed(clean, words, [c]);
    HighFrequencyCount(Tally(chars), [c]);
    TallyCounts(chars, [c]);
    CjkCount(clean, c);
    CountedCount(CjkChars(clean), [c]);
    CleanKeepsCjk(text, c);
  }

  /** The same for the listed words of the component. */
  lemma CharCount(text: string, c: char)
    requires IsCjk(c) && !IsStopChar(c)
    ensures var n := multiset(text)[c];
      multiset(Segment(text))[[c]] == if n >= 3 then Min(n, 5) else 0
  {
    CommonWordsArePairs();
    SegmentCharCount(CommonWords, text, c);
  }

  /** `segmentText`: the listed words' matches, then the frequent characters. */
  method SegmentText(text: string) returns (words: seq<string>)
    ensures words == Segment(text)
  {
    var cleanText := CleanText(text);
    words := MatchListed(cleanText, CommonWords);
    var singleChars := CjkChars(cleanText);
    var charFreq := CountChars(singleChars);
    words := PushFrequent(words, charFreq);
  }

  /** The first loop of `segmentText`: the matches of each listed word,
      pushed word by word. */
  method MatchListed(cleanText: string, commonWords: seq<string>) returns (words: seq<string>)
    ensures words == CommonMatches(cleanText, commonWords)
  {
    words := [];
    for i := 0 to |commonWords|
      invariant words == CommonMatches(cleanText, commonWords[..i])
    {
      var word := commonWords[i];
      assert commonWords[..i + 1][..i] == commonWords[..i];
      var matches := Repeat(word, Occ(cleanText, word));
      words := words + matches;
    }
    assert commonWords[..|commonWords|] == commonWords;
  }

  /** The second loop of `segmentText`: `charFreq`, the counted characters
      in order of first appearance. */
  method CountChars(singleChars: seq<string>) returns (charFreq: Table)
    ensures charFreq == Tally(Counted(singleChars))
  {
    charFreq := [];
    for i := 0 to |singleChars|
      invariant charFreq == Tally(Counted(singleChars[..i]))
    {
      var ch := singleChars[i];
      assert singleChars[..i + 1][..i] == singleChars[..i];
      var counted := Counted(singleChars[..i]);
      if CountedChar(ch) {
        assert Counted(singleChars[..i + 1]) == counted + [ch];
        assert (counted + [ch])[..|counted|] == counted;
        charFreq := Bump(charFreq, ch);
      } else {
        assert Counted(singleChars[..i + 1]) == counted;
      }
    }
    assert singleChars[..|singleChars|] == singleChars;
  }

  /** The third loop of `segmentText`: each character seen at least three
      times pushed `min(count, 5)` times. */
  method PushFrequent(prefix: seq<string>, charFreq: Table) returns (words: seq<string>)
    ensures words == prefix + HighFrequency(charFreq)
  {
    words := prefix;
    for i := 0 to |charFreq|
      invariant words == prefix + HighFrequency(charFreq[..i])
    {
      var entry := charFreq[i];
      assert charFreq[..i + 1][..i] == charFreq[..i];
      if entry.count >= 3 {
        var before := words;
        for j := 0 to Min(entry.count, 5)
          invariant words == before + Repeat(entry.key, j)
        {
          words := words + [entry.key];
        }
      }
    }
    assert charFreq[..|charFreq|] == charFreq;
  }

  /** The non-empty words of a segmentation (`word.length >= 1`). */
  function NonEmpty(ws: seq<string>): (r: seq<string>)
    ensures forall k :: 0 <= k < |r| ==> |r[k]| >= 1
  {
    if ws == [] then []
    else NonEmpty(ws[..|ws| - 1]) + (if |ws[|ws| - 1]| >= 1 then [ws[|ws| - 1]] else [])
  }

  /** One more word adds itself at the end when it is not empty. */
  lemma NonEmptyPrefix(ws: seq<string>, j: nat)
    requires j < |ws|
    ensures NonEmpty(ws[..j + 1]) == NonEmpty(ws[..j]) + (if |ws[j]| >= 1 then [ws[j]] else [])
  {
    assert ws[..j + 1][..j] == ws[..j];
  }

  /** Every word of every poem, poem by poem. */
  function AllWords(poems: seq<Poem>): seq<string> {
    if poems == [] then []
    else AllWords(poems[..|poems| - 1]) + NonEmpty(Segment(poems[|poems| - 1].content))
  }

  /** The words of one more poem come after those of the poems before it. */
  lemma AllWordsPrefix(poems: seq<Poem>, i: nat)
    requires i < |poems|
    ensures AllWords(poems[..i + 1]) == AllWords(poems[..i]) + NonEmpty(Segment(poems[i].content))
  {
    var p := poems[..i + 1];
    assert p[..|p| - 1] == poems[..i];
    assert p[|p| - 1] == poems[i];
  }

  /** `wordFreq` after the counting loops. */
  function WordFreq(poems: seq<Poem>): (t: Table)
    ensures DistinctKeys(t)
  {
    Tally(AllWords(poems))
  }

  /** The sum over the poems of the multiplicity of `w` in their segmentation. */
  function Occurrences(poems: seq<Poem>, w: string): nat {
    if poems == [] then 0
    else Occurrences(poems[..|poems| - 1], w) + multiset(Segment(poems[|poems| - 1].content))[w]
  }

  lemma {:induction false} NonEmptyCount(ws: seq<string>, w: string)
    requires |w| >= 1
    ensures multiset(NonEmpty(ws))[w] == multiset(ws)[w]
  {
    if ws != [] {
      var n := |ws| - 1;
      NonEmptyCount(ws[..n], w);
      assert ws == ws[..n] + [ws[n]];
    }
  }

  /** A word's total frequency is the sum over the poems of its
      multiplicity in their segmentation. */
  lemma {:induction false} WordFreqTotal(poems: seq<Poem>, w: string)
    requires |w| >= 1
    ensures Get(WordFreq(poems), w) == Occurrences(poems, w)
  {
    TallyCounts(AllWords(poems), w);
    AllWordsCount(poems, w);
  }

  lemma {:induction false} AllWordsCount(poems: seq<Poem>, w: string)
    requires |w| >= 1
    ensures multiset(AllWords(poems))[w] == Occurrences(poems, w)
  {
    if poems != [] {
      var n := |poems| - 1;
      AllWordsCount(poems[..n], w);
      NonEmptyCount(Segment(poems[n].content), w);
    }
  }

  /** `processPoems`: count the words of every poem, then rank. */
  method ProcessPoems(poems: seq<Poem>) returns (wordList: seq<WordWeight>)
    ensures wordList == Rank(WordFreq(poems))
  {
    var wordFreq: Table := [];
    for i := 0 to |poems|
      invariant wordFreq == Tally(AllWords(poems[..i]))
    {
      var words := SegmentText(poems[i].content);
      AllWordsPrefix(poems, i);
      wordFreq := CountWords(wordFreq, AllWords(poems[..i]), words);
    }
    assert poems[..|poems|] == poems;
    wordList := Rank(wordFreq);
  }

  /** The inner loop of `processPoems`: each non-empty word of a poem
      counted once more. */
  method CountWords(wordFreq: Table, ghost counted: seq<string>, words: seq<string>) returns (r: Table)
    requires wordFreq == Tally(counted)
    ensures r == Tally(counted + NonEmpty(words))
  {
    r := wordFreq;
    ghost var seen := counted;
    assert words[..0] == [];
    for j := 0 to |words|
      invariant seen == counted + NonEmpty(words[..j])
      invariant r == Tally(seen)
    {
      var word := words[j];
      CountStep(counted, words, j);
      if |word| >= 1 {
        TallySnoc(seen, word);
        r := Bump(r, word);
        seen := seen + [word];
      }
    }
    assert words[..|words|] == words;
  }

  /** Taking one more word into account adds it when it is not empty. */
  lemma CountStep(counted: seq<string>, words: seq<string>, j: nat)
    requires j < |words|
    ensures counted + NonEmpty(words[..j + 1])
         == (counted + NonEmpty(words[..j])) + (if |words[j]| >= 1 then [words[j]] else [])
  {
    NonEmptyPrefix(words, j);
  }

  /** One entry of the word cloud: a word and its display weight. */
  datatype WordWeight = WordWeight(word: string, weight: nat)

  const MaxWords: nat := 50

  /** The entries seen at least twice, in table order. */
  function Frequent(t: Table): (r: Table)
    ensures forall k :: 0 <= k < |r| ==> r[k].count >= 2
  {
    if t == [] then []
    else Frequent(t[..|t| - 1]) + (if t[|t| - 1].count >= 2 then [t[|t| - 1]] else [])
  }

  /** The ranking key: higher counts first (`b[1] - a[1]`). */
  function ByCountDesc(e: Entry): int {
    0 - (e.count as int)
  }

  /** Each word with its weight `freq * 3`. */
  function Weighted(es: Table): (r: seq<WordWeight>)
    ensures |r| == |es|
    ensures forall k :: 0 <= k < |es| ==> r[k] == WordWeight(es[k].key, 3 * es[k].count)
  {
    if es == [] then [] else Weighted(es[..|es| - 1]) + [WordWeight(es[|es| - 1].key, 3 * es[|es| - 1].count)]
  }

  /** The entries of the table in ranking order: the frequent ones, most
      frequent first, ties in table order. */
  function Ranked(t: Table): Table {
    SortBy(Frequent(t), ByCountDesc)
  }

  /** The filter / sort / slice / map chain of `processPoems`. */
  function Rank(t: Table): seq<WordWeight> {
    var ranked := Ranked(t);
    Weighted(ranked[..Min(MaxWords, |ranked|)])
  }

  lemma {:induction false} FrequentMembers(t: Table, e: Entry)
    ensures e in Frequent(t) <==> e in t && e.count >= 2
  {
    if t != [] {
      FrequentMembers(t[..|t| - 1], e);
      assert t == t[..|t| - 1] + [t[|t| - 1]];
    }
  }

  lemma {:induction false} FrequentDistinct(t: Table)
    requires DistinctKeys(t)
    ensures DistinctKeys(Frequent(t))
  {
    if t != [] {
      var n := |t| - 1;
      FrequentDistinct(t[..n]);
      if t[n].count >= 2 {
        forall e | e in Frequent(t[..n]) ensures e.key != t[n].key {
          FrequentMembers(t[..n], e);
        }
      }
    }
  }

  /** With distinct keys, no entry occurs twice. */
  lemma {:induction false} EntryOnce(t: Table, e: Entry)
    requires DistinctKeys(t)
    ensures multiset(t)[e] <= 1
  {
    if t != [] {
      var n := |t| - 1;
      EntryOnce(t[..n], e);
      assert t == t[..n] + [t[n]];
      if t[n] == e {
        assert e !in t[..n];
      }
    }
  }

  /** Reordering keeps keys distinct. */
  lemma KeysPermutation(a: Table, b: Table)
    requires DistinctKeys(a) && multiset(a) == multiset(b)
    ensures DistinctKeys(b)
  {
    forall i, j | 0 <= i < j < |b| ensures b[i].key != b[j].key {
      if b[i].key == b[j].key {
        assert b[i] in multiset(a) && b[j] in multiset(a);
        var p :| 0 <= p < |a| && a[p] == b[i];
        var q :| 0 <= q < |a| && a[q] == b[j];
        assert p == q;
        assert b == b[..j] + [b[j]] + b[j + 1..];
        assert b[i] in b[..j];
        assert multiset(b)[b[j]] >= 2;
        EntryOnce(a, b[j]);
        assert false;
      }
    }
  }

  /** The ranking holds at most fifty entries, no word twice, in
      non-increasing weight, each weight three times a count of at least two. */
  lemma RankShape(t: Table)
    requires DistinctKeys(t)
    ensures |Rank(t)| <= MaxWords
    ensures forall i, j :: 0 <= i < j < |Rank(t)| ==> Rank(t)[i].word != Rank(t)[j].word
    ensures forall i, j :: 0 <= i < j < |Rank(t)| ==> Rank(t)[i].weight >= Rank(t)[j].weight
    ensures forall k :: 0 <= k < |Rank(t)| ==> Rank(t)[k].weight >= 6 && Rank(t)[k].weight % 3 == 0
  {
    var ranked := Ranked(t);
    RankedShape(t);
    var top := ranked[..Min(MaxWords, |ranked|)];
    var r := Rank(t);
    assert r == Weighted(top);
    forall i, j | 0 <= i < j < |r| ensures r[i].word != r[j].word && r[i].weight >= r[j].weight {
      assert top[i] == ranked[i] && top[j] == ranked[j];
      assert ByCountDesc(ranked[i]) <= ByCountDesc(ranked[j]);
    }
    forall k | 0 <= k < |r| ensures r[k].weight >= 6 && r[k].weight % 3 == 0 {
      assert top[k] == ranked[k];
    }
  }

  /** The ranked entries: distinct words, each seen at least twice, most
      frequent first. */
  lemma RankedShape(t: Table)
    requires DistinctKeys(t)
    ensures DistinctKeys(Ranked(t)) && SortedBy(Ranked(t), ByCountDesc)
    ensures forall k :: 0 <= k < |Ranked(t)| ==> Ranked(t)[k].count >= 2
  {
    var ranked := Ranked(t);
    FrequentDistinct(t);
    KeysPermutation(Frequent(t), ranked);
    forall k | 0 <= k < |ranked| ensures ranked[k].count >= 2 {
      assert ranked[k] in multiset(Frequent(t));
    }
  }

  /** Each weight is three times the word's total frequency. */
  lemma RankWeights(t: Table)
    requires DistinctKeys(t)
    ensures forall k :: 0 <= k < |Rank(t)| ==> Rank(t)[k].weight == 3 * Get(t, Rank(t)[k].word)
  {
    var ranked := Ranked(t);
    forall k | 0 <= k < |Rank(t)| ensures Rank(t)[k].weight == 3 * Get(t, Rank(t)[k].word) {
      var e := ranked[k];
      assert e in multiset(Frequent(t));
      FrequentMembers(t, e);
      var p :| 0 <= p < |t| && t[p] == e;
      GetAt(t, p);
    }
  }

  /** The fifty most frequent: a frequent word left out of the ranking
      means the ranking is full and every ranked word is at least as frequent. */
  lemma RankTop(t: Table, e: Entry)
    requires DistinctKeys(t)
    requires e in t && e.count >= 2
    requires forall k :: 0 <= k < |Rank(t)| ==> Rank(t)[k].word != e.key
    ensures |Rank(t)| == MaxWords
    ensures forall k :: 0 <= k < |Rank(t)| ==> Rank(t)[k].weight >= 3 * e.count
  {
    var ranked := Ranked(t);
    var n := Min(MaxWords, |ranked|);
    FrequentMembers(t, e);
    var m := IndexOfPermuted(Frequent(t), ranked, e);
    assert m < n ==> Rank(t)[m].word == e.key;
    CountsBefore(ranked, m, n);
  }

  /** In a table sorted by descending count, the entries before position
      `n` count at least as much as any entry from `n` on. */
  lemma CountsBefore(ranked: Table, m: nat, n: nat)
    requires SortedBy(ranked, ByCountDesc) && n <= m < |ranked|
    ensures forall k :: 0 <= k < n ==> ranked[k].count >= ranked[m].count
  {
    forall k | 0 <= k < n ensures ranked[k].count >= ranked[m].count {
      assert ByCountDesc(ranked[k]) <= ByCountDesc(ranked[m]);
    }
  }
}
