/** From CSV text to poem records: `parseCSV` in src/utils/DataManager.js
    (strict: a row whose field count differs from the header's is dropped) and
    in src/main.js (lenient: blank lines are skipped, missing values become '',
    extra values are ignored). Both clean the five named fields and admit a
    row only when title, author, content and dynasty are all non-empty. */
module Records {
  import opened Text
  import opened CsvLine
  import opened Maybe

  /** A poem record. The five named fields hold cleaned values; `others`
      holds the remaining columns of the row as read. */
  datatype Poem = Poem(
    id: string,
    title: string,
    author: string,
    content: string,
    dynasty: string,
    others: map<string, string>)

  /** The two parser variants. */
  datatype Variant =
    | Strict   // src/utils/DataManager.js
    | Lenient  // src/main.js

  /** `values[index] || ''`: a missing value reads as the empty string. */
  function ValueAt(values: seq<string>, i: nat): string {
    if i < |values| then values[i] else ""
  }

  /** The row object `poem[header] = values[index] || ''`, header by header;
      a repeated header keeps the value of its last column. */
  function RowObject(headers: seq<string>, values: seq<string>): (m: map<string, string>)
    ensures m.Keys == set h | h in headers
    decreases |headers|
  {
    if headers == [] then map[]
    else
      var n := |headers| - 1;
      RowObject(headers[..n], values)[headers[n] := ValueAt(values, n)]
  }

  /** The value stored under a header is the value of that header's last column. */
  lemma {:induction false} RowObjectLastColumn(headers: seq<string>, values: seq<string>, j: nat)
    requires j < |headers|
    requires forall j' :: j < j' < |headers| ==> headers[j'] != headers[j]
    ensures RowObject(headers, values)[headers[j]] == ValueAt(values, j)
    decreases |headers|
  {
    var n := |headers| - 1;
    if j < n {
      RowObjectLastColumn(headers[..n], values, j);
    }
  }

  /** Only the first `|headers|` values matter: extra values are ignored and
      absent ones read as ''. */
  lemma {:induction false} RowObjectUsesHeaderColumns(headers: seq<string>, v1: seq<string>, v2: seq<string>)
    requires forall i :: 0 <= i < |headers| ==> ValueAt(v1, i) == ValueAt(v2, i)
    ensures RowObject(headers, v1) == RowObject(headers, v2)
    decreases |headers|
  {
    if headers != [] {
      RowObjectUsesHeaderColumns(headers[..|headers| - 1], v1, v2);
    }
  }

  /** `poem.f?.replace(/"/g, '').trim() || ''`. */
  function CleanedField(m: map<string, string>, key: string): string {
    if key in m then Clean(m[key]) else ""
  }

  const CleanedKeys: set<string> := {"id", "title", "author", "content", "dynasty"}

  /** The record built from a row object: the five named fields cleaned, the
      other columns kept. */
  function ToPoem(m: map<string, string>): (p: Poem)
    ensures FieldsClean(p)
    ensures p.others.Keys == m.Keys - CleanedKeys
  {
    Poem(CleanedField(m, "id"), CleanedField(m, "title"), CleanedField(m, "author"),
         CleanedField(m, "content"), CleanedField(m, "dynasty"), m - CleanedKeys)
  }

  /** The five named fields hold no quote character and no surrounding whitespace. */
  predicate FieldsClean(p: Poem) {
    && '"' !in p.id && '"' !in p.title && '"' !in p.author && '"' !in p.content && '"' !in p.dynasty
    && IsTrimmed(p.id) && IsTrimmed(p.title) && IsTrimmed(p.author)
    && IsTrimmed(p.content) && IsTrimmed(p.dynasty)
  }

  /** `poem.title && poem.author && poem.content && poem.dynasty`. */
  predicate Admitted(p: Poem) {
    p.title != "" && p.author != "" && p.content != "" && p.dynasty != ""
  }

  /** The record invariant: every admitted record satisfies it. */
  predicate ValidPoem(p: Poem) {
    Admitted(p) && FieldsClean(p)
  }

  /** The record a data line yields, if any, under either variant. */
  function RowPoem(headers: seq<string>, line: string, v: Variant): (r: Option<Poem>)
    ensures r.Some? ==> ValidPoem(r.value)
  {
    var values := ParseLine(line);
    if v.Strict? && |values| != |headers| then None
    else if v.Lenient? && Trim(line) == "" then None
    else
      var p := ToPoem(RowObject(headers, values));
      if Admitted(p) then Some(p) else None
  }

  /** The records of the data lines, in line order; rejected lines are skipped
      and scanning goes on past them. */
  function ParseRows(headers: seq<string>, lines: seq<string>, v: Variant): (r: seq<Poem>)
    ensures |r| <= |lines|
    ensures forall k :: 0 <= k < |r| ==> ValidPoem(r[k])
  {
    if lines == [] then []
    else
      var n := |lines| - 1;
      var row := RowPoem(headers, lines[n], v);
      ParseRows(headers, lines[..n], v) + (if row.Some? then [row.value] else [])
  }

  /** `csvText.trim().split('\n')`. */
  function Lines(text: string): (r: seq<string>)
    ensures |r| >= 1
  {
    Split(Trim(text), '\n')
  }

  /** `parseCSV(csvText)`: the first line names the columns, the others are rows. */
  function ParseText(text: string, v: Variant): seq<Poem> {
    var lines := Lines(text);
    ParseRows(ParseLine(lines[0]), lines[1..], v)
  }

  /** Rows are parsed independently: the records of two blocks of lines are
      the records of the first followed by those of the second. */
  lemma {:induction false} ParseRowsAppend(headers: seq<string>, a: seq<string>, b: seq<string>, v: Variant)
    ensures ParseRows(headers, a + b, v) == ParseRows(headers, a, v) + ParseRows(headers, b, v)
    decreases |b|
  {
    if b == [] {
      assert a + b == a;
    } else {
      var n := |b| - 1;
      assert (a + b)[..|a + b| - 1] == a + b[..n];
      assert (a + b)[|a + b| - 1] == b[n];
      ParseRowsAppend(headers, a, b[..n], v);
    }
  }

  /** One more line adds its record, if it yields one, at the end. */
  lemma ParseRowsPrefix(headers: seq<string>, lines: seq<string>, i: nat, v: Variant)
    requires i < |lines|
    ensures ParseRows(headers, lines[..i + 1], v)
         == ParseRows(headers, lines[..i], v) + (if RowPoem(headers, lines[i], v).Some? then [RowPoem(headers, lines[i], v).value] else [])
  {
    assert lines[..i + 1][..i] == lines[..i];
  }

  /** A line the variant accepts whose cleaned title, author, content and
      dynasty are all non-empty yields the record built from its values. */
  lemma RowPoemKept(headers: seq<string>, line: string, v: Variant)
    requires v.Strict? ==> |ParseLine(line)| == |headers|
    requires v.Lenient? ==> Trim(line) != ""
    requires Admitted(ToPoem(RowObject(headers, ParseLine(line))))
    ensures RowPoem(headers, line, v) == Some(ToPoem(RowObject(headers, ParseLine(line))))
  {
  }

  /** What each data line yields, line by line. */
  function Outcomes(headers: seq<string>, lines: seq<string>, v: Variant): (os: seq<Option<Poem>>)
    ensures |os| == |lines|
    ensures forall k :: 0 <= k < |lines| ==> os[k] == RowPoem(headers, lines[k], v)
  {
    seq(|lines|, k requires 0 <= k < |lines| => RowPoem(headers, lines[k], v))
  }

  /** The records are the outcomes that are records, in line order. */
  lemma {:induction false} ParseRowsPresent(headers: seq<string>, lines: seq<string>, v: Variant)
    ensures ParseRows(headers, lines, v) == Present(Outcomes(headers, lines, v))
  {
    if lines != [] {
      var n := |lines| - 1;
      var os := Outcomes(headers, lines, v);
      ParseRowsPresent(headers, lines[..n], v);
      assert os[..n] == Outcomes(headers, lines[..n], v);
    }
  }

  /** The records are exactly those of the lines that yield one: nothing
      admitted is lost and nothing else comes in. */
  lemma ParseRowsMembers(headers: seq<string>, lines: seq<string>, v: Variant, p: Poem)
    ensures p in ParseRows(headers, lines, v) <==> exists k :: 0 <= k < |lines| && RowPoem(headers, lines[k], v) == Some(p)
  {
    var os := Outcomes(headers, lines, v);
    ParseRowsPresent(headers, lines, v);
    PresentMembers(os, p);
  }

  /** A strict row is admitted only when it has as many fields as the header. */
  lemma StrictRowFieldCount(headers: seq<string>, line: string)
    requires RowPoem(headers, line, Strict).Some?
    ensures |ParseLine(line)| == |headers|
  {
  }

  /** Text with nothing after its header line, the empty text included, gives no records. */
  lemma HeaderOnly(text: string)
    requires '\n' !in Trim(text)
    ensures ParseText(text, Strict) == [] && ParseText(text, Lenient) == []
  {
    SplitWithoutSep(Trim(text), '\n');
  }

  /** A row is admitted only when the header names the four required columns. */
  lemma AdmittedNeedsColumns(headers: seq<string>, values: seq<string>)
    requires Admitted(ToPoem(RowObject(headers, values)))
    ensures "title" in headers && "author" in headers
    ensures "content" in headers && "dynasty" in headers
  {
  }

  /** A blank line has no separator, so it parses as one empty field. */
  lemma {:induction false} BlankLineOneField(line: string)
    requires Trim(line) == ""
    ensures |ParseLine(line)| == 1
  {
    assert forall k :: 0 <= k < |line| ==> IsSpace(line[k]);
    NoSeparators(line, false);
  }

  lemma {:induction false} NoSeparators(s: string, q: bool)
    requires forall k :: 0 <= k < |s| ==> IsSpace(s[k])
    ensures Separators(s, q) == 0
    decreases |s|
  {
    if s != [] {
      assert IsSpace(s[0]);
      NoSeparators(s[1..], q);
    }
  }

  /** The two parsers agree on every block of lines whose field counts all
      match the header: the strict check never fires, and a blank line is
      dropped by both. */
  lemma {:induction false} VariantsAgree(headers: seq<string>, lines: seq<string>)
    requires forall k :: 0 <= k < |lines| ==> |ParseLine(lines[k])| == |headers|
    ensures ParseRows(headers, lines, Strict) == ParseRows(headers, lines, Lenient)
    decreases |lines|
  {
    if lines != [] {
      var n := |lines| - 1;
      VariantsAgree(headers, lines[..n]);
      var line := lines[n];
      if Trim(line) == "" {
        BlankLineOneField(line);
        if RowPoem(headers, line, Strict).Some? {
          AdmittedNeedsColumns(headers, ParseLine(line));
          assert false;
        }
      }
    }
  }

  /** The row object both `parseCSV`s build: `poem[header] = values[index] || ''`,
      header by header. */
  method BuildRow(headers: seq<string>, values: seq<string>) returns (row: map<string, string>)
    ensures row == RowObject(headers, values)
  {
    row := map[];
    for j := 0 to |headers|
      invariant row == RowObject(headers[..j], values)
    {
      assert headers[..j + 1][..j] == headers[..j];
      row := row[headers[j] := if j < |values| then values[j] else ""];
    }
    assert headers[..|headers|] == headers;
  }
}
