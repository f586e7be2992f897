/** The line tokenizer shared by both app variants (`parseCSVLine` in
    src/utils/DataManager.js and src/main.js): a left-to-right scan with an
    in-quotes flag. It implements part of the quoting rules of RFC 4180,
    section 2 (rules 5 to 7): a separator inside quotes is kept, and a doubled
    quote inside quotes stands for one quote. A quote anywhere else only flips
    the flag. Every field is trimmed when it is emitted. */
module CsvLine {
  import opened Text

  /** The number of separators the scan meets outside quotes, starting from
      the given flag. It follows the same quote transitions as `Scan`. */
  function Separators(rest: string, inQuotes: bool): nat
    decreases |rest|
  {
    if rest == [] then 0
    else if rest[0] == '"' then
      if inQuotes && |rest| > 1 && rest[1] == '"' then Separators(rest[2..], inQuotes)
      else Separators(rest[1..], !inQuotes)
    else if rest[0] == ',' && !inQuotes then 1 + Separators(rest[1..], inQuotes)
    else Separators(rest[1..], inQuotes)
  }

  /** The fields produced from the unread part `rest` of a line, given the
      field text gathered so far and the in-quotes flag. One field per
      separator outside quotes, plus the last one; each trimmed. */
  function Scan(rest: string, current: string, inQuotes: bool): (r: seq<string>)
    ensures |r| == Separators(rest, inQuotes) + 1
    decreases |rest|
  {
    if rest == [] then [Trim(current)]
    else if rest[0] == '"' then
      if inQuotes && |rest| > 1 && rest[1] == '"' then Scan(rest[2..], current + ['"'], inQuotes)
      else Scan(rest[1..], current, !inQuotes)
    else if rest[0] == ',' && !inQuotes then [Trim(current)] + Scan(rest[1..], "", inQuotes)
    else Scan(rest[1..], current + [rest[0]], inQuotes)
  }

  /** `parseCSVLine(line)`. */
  function ParseLine(line: string): (r: seq<string>)
    ensures |r| == Separators(line, false) + 1
    ensures forall k :: 0 <= k < |r| ==> IsTrimmed(r[k])
  {
    ScanTrimmed(line, "", false);
    Scan(line, "", false)
  }

  /** Every field the scan emits is trimmed. */
  lemma {:induction false} ScanTrimmed(rest: string, current: string, inQuotes: bool)
    ensures forall k :: 0 <= k < |Scan(rest, current, inQuotes)| ==> IsTrimmed(Scan(rest, current, inQuotes)[k])
    decreases |rest|
  {
    if rest == [] {
    } else if rest[0] == '"' {
      if inQuotes && |rest| > 1 && rest[1] == '"' {
        ScanTrimmed(rest[2..], current + ['"'], inQuotes);
      } else {
        ScanTrimmed(rest[1..], current, !inQuotes);
      }
    } else if rest[0] == ',' && !inQuotes {
      var tail := Scan(rest[1..], "", inQuotes);
      ScanTrimmed(rest[1..], "", inQuotes);
      assert Scan(rest, current, inQuotes) == [Trim(current)] + tail;
    } else {
      ScanTrimmed(rest[1..], current + [rest[0]], inQuotes);
    }
  }

  /** Without quotes the tokenizer is a plain split on commas, each piece trimmed. */
  lemma {:induction false} ScanWithoutQuotes(rest: string, current: string)
    requires '"' !in rest && ',' !in current
    ensures Scan(rest, current, false) == TrimAll(Split(current + rest, ','))
    decreases |rest|
  {
    if rest == [] {
      assert current + rest == current;
      SplitWithoutSep(current, ',');
    } else if rest[0] == ',' {
      ScanWithoutQuotes(rest[1..], "");
      assert "" + rest[1..] == rest[1..];
      ScanCommaCase(rest, current);
    } else {
      ScanWithoutQuotes(rest[1..], current + [rest[0]]);
      ScanCharCase(rest, current);
    }
  }

  /** The step of `ScanWithoutQuotes` at a separator. */
  lemma ScanCommaCase(rest: string, current: string)
    requires rest != [] && rest[0] == ',' && ',' !in current
    requires Scan(rest[1..], "", false) == TrimAll(Split(rest[1..], ','))
    ensures Scan(rest, current, false) == TrimAll(Split(current + rest, ','))
  {
    var pieces := Split(rest[1..], ',');
    calc {
      Scan(rest, current, false);
      [Trim(current)] + Scan(rest[1..], "", false);
      [Trim(current)] + TrimAll(pieces);
      { assert ([current] + pieces)[1..] == pieces; }
      TrimAll([current] + pieces);
      { ShiftFirst(current, rest); SplitAtFirst(current, rest[1..], ','); }
      TrimAll(Split(current + rest, ','));
    }
  }

  /** The step of `ScanWithoutQuotes` at any other character. */
  lemma ScanCharCase(rest: string, current: string)
    requires rest != [] && rest[0] != ',' && rest[0] != '"'
    requires Scan(rest[1..], current + [rest[0]], false) == TrimAll(Split((current + [rest[0]]) + rest[1..], ','))
    ensures Scan(rest, current, false) == TrimAll(Split(current + rest, ','))
  {
    ShiftFirst(current, rest);
  }

  /** Moving the first character of `b` to the end of `a` keeps `a + b`. */
  lemma ShiftFirst(a: string, b: string)
    requires b != []
    ensures a + b == (a + [b[0]]) + b[1..]
  {
    assert b == [b[0]] + b[1..];
  }

  /** A line without quotes parses as `line.split(',')` with every piece trimmed. */
  lemma ParseLineWithoutQuotes(line: string)
    requires '"' !in line
    ensures ParseLine(line) == TrimAll(Split(line, ','))
  {
    ScanWithoutQuotes(line, "");
    assert "" + line == line;
  }

  /** Inside quotes, text without quote characters is copied as it is,
      separators included. */
  lemma {:induction false} ScanQuotedText(t: string, rest: string, current: string)
    requires '"' !in t
    ensures Scan(t + rest, current, true) == Scan(rest, current + t, true)
    decreases |t|
  {
    if t == [] {
      assert t + rest == rest && current + t == current;
    } else {
      assert (t + rest)[0] == t[0] && (t + rest)[1..] == t[1..] + rest;
      ScanQuotedText(t[1..], rest, current + [t[0]]);
      assert current + [t[0]] + t[1..] == current + t;
    }
  }

  /** A quoted span `"t"` (no quotes in `t`) adds `t` literally, commas and all,
      to the current field, unless a quote follows at once (then the closing
      quote would be read as an escaped quote). */
  lemma QuotedSpan(t: string, rest: string, current: string)
    requires '"' !in t
    requires rest == [] || rest[0] != '"'
    ensures Scan(['"'] + t + ['"'] + rest, current, false) == Scan(rest, current + t, false)
  {
    var line := ['"'] + t + ['"'] + rest;
    assert line[1..] == t + (['"'] + rest);
    ScanQuotedText(t, ['"'] + rest, current);
    assert (['"'] + rest)[1..] == rest;
  }

  /** A doubled quote inside a quoted span becomes one quote in the field:
      `"t1""t2"` adds `t1"t2`. */
  lemma EscapedQuote(t1: string, t2: string, rest: string, current: string)
    requires '"' !in t1 && '"' !in t2
    requires rest == [] || rest[0] != '"'
    ensures Scan(['"'] + t1 + ['"', '"'] + t2 + ['"'] + rest, current, false)
         == Scan(rest, current + t1 + ['"'] + t2, false)
  {
    var line := ['"'] + t1 + ['"', '"'] + t2 + ['"'] + rest;
    var tail := ['"'] + rest;
    assert line[1..] == t1 + (['"', '"'] + t2 + tail);
    ScanQuotedText(t1, ['"', '"'] + t2 + tail, current);
    assert (['"', '"'] + t2 + tail)[2..] == t2 + tail;
    ScanQuotedText(t2, tail, current + t1 + ['"']);
    assert tail[1..] == rest;
  }

  /** No two quotes stand side by side. */
  predicate NoDoubledQuote(s: string) {
    forall k :: 0 <= k < |s| - 1 ==> !(s[k] == '"' && s[k + 1] == '"')
  }

  /** A quote is never copied into a field except through an escaped pair:
      without a doubled quote in the line, no field contains a quote. */
  lemma {:induction false} ScanDropsLoneQuotes(rest: string, current: string, inQuotes: bool)
    requires NoDoubledQuote(rest) && '"' !in current
    ensures forall k :: 0 <= k < |Scan(rest, current, inQuotes)| ==> '"' !in Scan(rest, current, inQuotes)[k]
    decreases |rest|
  {
    if rest == [] {
      TrimDropsNothingNew(current, '"');
    } else {
      assert NoDoubledQuote(rest[1..]);
      if rest[0] == '"' {
        assert !(|rest| > 1 && rest[1] == '"');
        assert Scan(rest, current, inQuotes) == Scan(rest[1..], current, !inQuotes);
        ScanDropsLoneQuotes(rest[1..], current, !inQuotes);
      } else if rest[0] == ',' && !inQuotes {
        var tail := Scan(rest[1..], "", inQuotes);
        assert Scan(rest, current, inQuotes) == [Trim(current)] + tail;
        TrimDropsNothingNew(current, '"');
        ScanDropsLoneQuotes(rest[1..], "", inQuotes);
      } else {
        assert '"' !in current + [rest[0]];
        assert Scan(rest, current, inQuotes) == Scan(rest[1..], current + [rest[0]], inQuotes);
        ScanDropsLoneQuotes(rest[1..], current + [rest[0]], inQuotes);
      }
    }
  }

  /** The number of escaped pairs `""` the scan meets inside quotes, starting
      from the given flag. It follows the same quote transitions as `Scan`. */
  function EscapedPairs(rest: string, inQuotes: bool): nat
    decreases |rest|
  {
    if rest == [] then 0
    else if rest[0] == '"' then
      if inQuotes && |rest| > 1 && rest[1] == '"' then 1 + EscapedPairs(rest[2..], inQuotes)
      else EscapedPairs(rest[1..], !inQuotes)
    else EscapedPairs(rest[1..], inQuotes)
  }

  /** The number of quote characters over all fields. */
  function QuoteCount(fields: seq<string>): nat {
    if fields == [] then 0 else multiset(fields[0])['"'] + QuoteCount(fields[1..])
  }

  /** Every quote in the fields comes from the field text gathered so far or
      from one escaped pair: each pair gives exactly one quote, and a quote
      that is not part of a pair gives none. */
  lemma {:induction false} ScanQuotes(rest: string, current: string, inQuotes: bool)
    ensures QuoteCount(Scan(rest, current, inQuotes)) == multiset(current)['"'] + EscapedPairs(rest, inQuotes)
    decreases |rest|
  {
    if rest == [] {
      TrimCount(current, '"');
      assert QuoteCount([Trim(current)]) == multiset(Trim(current))['"'];
    } else if rest[0] == '"' {
      if inQuotes && |rest| > 1 && rest[1] == '"' {
        ScanQuotes(rest[2..], current + ['"'], inQuotes);
        assert multiset(current + ['"']) == multiset(current) + multiset{'"'};
      } else {
        ScanQuotes(rest[1..], current, !inQuotes);
      }
    } else if rest[0] == ',' && !inQuotes {
      var tail := Scan(rest[1..], "", inQuotes);
      ScanQuotes(rest[1..], "", inQuotes);
      TrimCount(current, '"');
      assert ([Trim(current)] + tail)[1..] == tail;
    } else {
      ScanQuotes(rest[1..], current + [rest[0]], inQuotes);
      assert multiset(current + [rest[0]]) == multiset(current) + multiset{rest[0]};
    }
  }

  /** `parseCSVLine`'s fields hold exactly one quote per escaped pair of the line. */
  lemma ParseLineQuotes(line: string)
    ensures QuoteCount(ParseLine(line)) == EscapedPairs(line, false)
  {
    ScanQuotes(line, "", false);
  }

  lemma TrimDropsNothingNew(s: string, c: char)
    requires c !in s
    ensures c !in Trim(s)
  {
    if c in Trim(s) {
      TrimKeeps(s, c);
    }
  }

  /** A quoted first field keeps its comma: `"a,b",rest` gives the field
      `a,b` (trimmed) followed by the fields of `rest`. */
  lemma QuotedFieldKeepsComma(a: string, b: string, rest: string)
    requires '"' !in a && '"' !in b
    ensures ParseLine(['"'] + (a + [','] + b) + ['"'] + ([','] + rest))
         == [Trim(a + [','] + b)] + ParseLine(rest)
  {
    QuotedSpan(a + [','] + b, [','] + rest, "");
    var tail := [','] + rest;
    assert tail[1..] == rest && tail[0] == ',';
    assert "" + (a + [','] + b) == a + [','] + b;
  }

  /** A quoted field with a doubled quote inside, `"a""b"`, is the single field
      `a"b` (trimmed). */
  lemma EscapedQuoteField(a: string, b: string)
    requires '"' !in a && '"' !in b
    ensures ParseLine(['"'] + a + ['"', '"'] + b + ['"']) == [Trim(a + ['"'] + b)]
  {
    EscapedQuote(a, b, [], "");
    assert ['"'] + a + ['"', '"'] + b + ['"'] + [] == ['"'] + a + ['"', '"'] + b + ['"'];
    assert "" + a + ['"'] + b == a + ['"'] + b;
  }

  /** `parseCSVLine` (both apps): one pass over the line with an in-quotes flag. */
  method ParseCSVLine(line: string) returns (result: seq<string>)
    ensures result == ParseLine(line)
  {
    result := [];
    var current := "";
    var inQuotes := false;
    var i := 0;
    while i < |line|
      invariant 0 <= i <= |line|
      invariant result + Scan(line[i..], current, inQuotes) == ParseLine(line)
    {
      var c := line[i];
      assert line[i..][0] == c && line[i..][1..] == line[i + 1..];
      if c == '"' {
        if inQuotes && i + 1 < |line| && line[i + 1] == '"' {
          assert line[i..][2..] == line[i + 2..];
          current := current + ['"'];
          i := i + 2;
          continue;
        }
        inQuotes := !inQuotes;
      } else if c == ',' && !inQuotes {
        assert result + ([Trim(current)] + Scan(line[i + 1..], "", inQuotes))
            == (result + [Trim(current)]) + Scan(line[i + 1..], "", inQuotes);
        result := result + [Trim(current)];
        current := "";
        i := i + 1;
        continue;
      } else {
        current := current + [c];
      }
      i := i + 1;
    }
    result := result + [Trim(current)];
  }
}
