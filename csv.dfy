/**
 * CSV export of the displayed rows: `quoteValue` on each cell, one line for the
 * headers and one per row, built by appending to a string. The quoting is
 * that of section 2 (rules 6 and 7) of RFC 4180, with lines ended by a line
 * feed. A reader for that format is given alongside, and reading the export
 * back yields the header names and every cell's text.
 */
module Csv {
  import opened Wrappers
  import opened Text
  import opened JsonValue
  import opened JsonText
  import opened Workbook

  // ---------------------------------------------------------------- quoting

  /** A comma, a double quote or a line feed forces a field into quotes. */
  predicate NeedsQuotes(s: string)
  {
    Contains(s, ",") || Contains(s, "\"") || Contains(s, "\n")
  }

  /** Every double quote written twice. */
  function DoubleQuotes(s: string): (r: string)
    ensures |r| >= |s|
  {
    if s == [] then []
    else (if s[0] == '"' then "\"\"" else [s[0]]) + DoubleQuotes(s[1..])
  }

  /** A field's text as written to the file: quoted, with quotes doubled, when it needs it. */
  function QuoteText(s: string): string
  {
    if NeedsQuotes(s) then "\"" + DoubleQuotes(s) + "\"" else s
  }

  /** The text a cell stands for: empty for null and undefined, JSON for objects and arrays, `String(x)` otherwise. */
  function PlainText(x: Js): string
  {
    if x == Undefined || x == Val(Null) then ""
    else if IsComposite(x) then Stringify(x.v)
    else ToJsString(x)
  }

  /** `quoteValue(value)`. */
  function QuoteValue(x: Js): string
  {
    if x == Undefined || x == Val(Null) then ""
    else
      var str := if TypeOf(x) == "object" then Stringify(x.v) else ToJsString(x);
      if NeedsQuotes(str) then "\"" + DoubleQuotes(str) + "\"" else str
  }

  /** `quoteValue` is the quoting of the cell's text; the empty text of a blank cell needs no quotes. */
  lemma QuoteValueText(x: Js)
    ensures QuoteValue(x) == QuoteText(PlainText(x))
  {
    if x == Undefined || x == Val(Null) {
      assert !Contains("", ",") && !Contains("", "\"") && !Contains("", "\n");
    }
  }

  /** `fields.join(',')`. */
  function JoinFields(fields: seq<string>): string
  {
    if fields == [] then ""
    else if |fields| == 1 then fields[0]
    else fields[0] + "," + JoinFields(fields[1..])
  }

  /** One line of the file: the quoted cells joined by commas, then a line feed. */
  function Line(cells: seq<Js>): string
  {
    JoinFields(seq(|cells|, i requires 0 <= i < |cells| => QuoteValue(cells[i]))) + "\n"
  }

  /** The header names as the cells `headers.map(quoteValue)` quotes. */
  function HeaderCells(headers: seq<string>): (r: seq<Js>)
    ensures |r| == |headers| && forall j :: 0 <= j < |headers| ==> r[j] == Val(Str(headers[j]))
  {
    seq(|headers|, j requires 0 <= j < |headers| => Val(Str(headers[j])))
  }

  /** `row[header]` for every header in turn; a null row throws at its first header. */
  function Cells(row: Value, headers: seq<string>): (r: Result<seq<Js>, Fault>)
    ensures r.Err? <==> row == Null && headers != []
    ensures r.Ok? ==> |r.value| == |headers| && forall j :: 0 <= j < |headers| ==> r.value[j] == Read(row, headers[j])
  {
    if headers == [] then Ok([])
    else
      var x :- GetProp(Val(row), headers[0]);
      var rest := Cells(row, headers[1..]);
      if rest.Err? then rest else Ok([x] + rest.value)
  }

  /** `generateCsv(headers, data)` over the first `n` rows: the header line, then one line per row; a null row throws. */
  function CsvText(headers: seq<string>, rows: seq<Value>): Result<string, Fault>
  {
    if rows == [] then Ok(Line(HeaderCells(headers)))
    else
      var before :- CsvText(headers, rows[..|rows| - 1]);
      var cells :- Cells(rows[|rows| - 1], headers);
      Ok(before + Line(cells))
  }

  /** `generateCsv(headers, data)`: the string grows by one line per row. */
  method GenerateCsv(headers: seq<string>, data: seq<Value>) returns (r: Result<string, Fault>)
    ensures r == CsvText(headers, data)
  {
    var csv := "";
    csv := csv + Line(HeaderCells(headers));
    assert csv == Line(HeaderCells(headers));
    var i := 0;
    assert data[..0] == [];
    while i < |data|
      invariant 0 <= i <= |data|
      invariant CsvText(headers, data[..i]) == Ok(csv)
    {
      assert data[..i + 1][..i] == data[..i];
      var cells := Cells(data[i], headers);
      if cells.Err? {
        CsvStaysFailed(headers, data, i + 1, |data|);
        assert data[..|data|] == data;
        return Err(cells.error);
      }
      csv := csv + Line(cells.value);
      i := i + 1;
    }
    assert data[..|data|] == data;
    r := Ok(csv);
  }

  lemma {:induction false} CsvStaysFailed(headers: seq<string>, data: seq<Value>, m: nat, n: nat)
    requires m <= n <= |data| && CsvText(headers, data[..m]).Err?
    ensures CsvText(headers, data[..n]) == CsvText(headers, data[..m])
    decreases n
  {
    if m < n {
      CsvStaysFailed(headers, data, m, n - 1);
      assert data[..n][..n - 1] == data[..n - 1];
    }
  }

  /** The export throws exactly when a row is null and there is a header to read. */
  lemma {:induction false} CsvThrows(headers: seq<string>, rows: seq<Value>)
    ensures CsvText(headers, rows).Err? <==> headers != [] && Null in rows
    decreases |rows|
  {
    if rows != [] {
      var init := rows[..|rows| - 1];
      CsvThrows(headers, init);
      assert rows == init + [rows[|rows| - 1]];
    }
  }

  // ---------------------------------------------------------------- reading the format back

  /** What may follow a field: the end, a comma, or a line feed. */
  predicate FieldEnd(rest: string)
  {
    rest == [] || rest[0] == ',' || rest[0] == '\n'
  }

  /** An unquoted field: everything up to the next comma or line feed. */
  function Unquoted(s: string): (r: (string, string))
    ensures |r.1| <= |s| && FieldEnd(r.1)
  {
    if s == [] || s[0] == ',' || s[0] == '\n' then ([], s)
    else
      var (f, rest) := Unquoted(s[1..]);
      ([s[0]] + f, rest)
  }

  /** A quoted field after its opening quote: `""` stands for a quote, a lone quote closes it. */
  function Quoted(s: string): (r: Option<(string, string)>)
    ensures r.Some? ==> |r.value.1| < |s|
  {
    if s == [] then None
    else if s[0] == '"' then
      if |s| >= 2 && s[1] == '"' then
        match Quoted(s[2..])
        case None => None
        case Some((f, rest)) => Some(("\"" + f, rest))
      else Some(([], s[1..]))
    else
      match Quoted(s[1..])
      case None => None
      case Some((f, rest)) => Some(([s[0]] + f, rest))
  }

  /** One field at the start of `s`, and what follows it. */
  function Field(s: string): (r: Option<(string, string)>)
    ensures r.Some? ==> |r.value.1| <= |s|
  {
    if s != [] && s[0] == '"' then Quoted(s[1..]) else Some(Unquoted(s))
  }

  /** One record at the start of `s`: fields separated by commas, up to a line feed or the end. */
  function Record(s: string): (r: Option<(seq<string>, string)>)
    ensures r.Some? ==> |r.value.1| < |s| || r.value.1 == []
    decreases |s|
  {
    match Field(s)
    case None => None
    case Some((f, rest)) =>
      if rest == [] then Some(([f], []))
      else if rest[0] == '\n' then Some(([f], rest[1..]))
      else if rest[0] == ',' then
        match Record(rest[1..])
        case None => None
        case Some((fs, more)) => Some(([f] + fs, more))
      else None
  }

  /** A whole CSV text: its records in order. */
  function ParseCsv(s: string): Option<seq<seq<string>>>
    decreases |s|
  {
    if s == [] then Some([])
    else
      match Record(s)
      case None => None
      case Some((rec, rest)) =>
        match ParseCsv(rest)
        case None => None
        case Some(recs) => Some([rec] + recs)
  }

  // ---------------------------------------------------------------- the round trip

  lemma {:induction false} ContainsChar(s: string, c: char)
    ensures Contains(s, [c]) <==> c in s
    decreases |s|
  {
    if s != [] {
      ContainsChar(s[1..], c);
      assert s == [s[0]] + s[1..];
    }
  }

  lemma {:induction false} QuotedRoundTrip(t: string, rest: string)
    requires rest == [] || rest[0] != '"'
    ensures Quoted(DoubleQuotes(t) + "\"" + rest) == Some((t, rest))
    decreases |t|
  {
    if t == [] {
      assert DoubleQuotes(t) + "\"" + rest == "\"" + rest;
    } else {
      QuotedRoundTrip(t[1..], rest);
      var tail := DoubleQuotes(t[1..]) + "\"" + rest;
      DoubleQuotesCons(t, rest);
      if t[0] == '"' {
        QuotedEscaped(tail);
      } else {
        QuotedPlain(t[0], tail);
      }
      assert t == [t[0]] + t[1..];
    }
  }

  lemma DoubleQuotesCons(t: string, rest: string)
    requires t != []
    ensures DoubleQuotes(t) + "\"" + rest == (if t[0] == '"' then "\"\"" else [t[0]]) + (DoubleQuotes(t[1..]) + "\"" + rest)
  {
  }

  /** A doubled quote inside a quoted field stands for one quote. */
  lemma QuotedEscaped(tail: string)
    ensures Quoted("\"\"" + tail) == (match Quoted(tail) case None => None case Some((f, r)) => Some(("\"" + f, r)))
  {
    assert ("\"\"" + tail)[2..] == tail;
  }

  lemma QuotedPlain(c: char, tail: string)
    requires c != '"'
    ensures Quoted([c] + tail) == (match Quoted(tail) case None => None case Some((f, r)) => Some(([c] + f, r)))
  {
    assert ([c] + tail)[1..] == tail;
  }

  lemma {:induction false} UnquotedRoundTrip(t: string, rest: string)
    requires ',' !in t && '\n' !in t && FieldEnd(rest)
    ensures Unquoted(t + rest) == (t, rest)
    decreases |t|
  {
    if t != [] {
      UnquotedRoundTrip(t[1..], rest);
      assert (t + rest)[1..] == t[1..] + rest;
      assert t[0] in t;
      assert t == [t[0]] + t[1..];
    } else {
      assert t + rest == rest;
    }
  }

  /** A field written by the export is read back as its text, whatever follows it. */
  lemma FieldRoundTrip(t: string, rest: string)
    requires FieldEnd(rest)
    ensures Field(QuoteText(t) + rest) == Some((t, rest))
  {
    if NeedsQuotes(t) {
      QuotedFieldRoundTrip(t, rest);
    } else {
      PlainFieldRoundTrip(t, rest);
    }
  }

  lemma QuotedFieldRoundTrip(t: string, rest: string)
    requires FieldEnd(rest)
    ensures Field("\"" + DoubleQuotes(t) + "\"" + rest) == Some((t, rest))
  {
    var u := DoubleQuotes(t) + "\"" + rest;
    AppendAssoc("\"" + DoubleQuotes(t), "\"", rest);
    AppendAssoc("\"", DoubleQuotes(t), "\"" + rest);
    AppendAssoc(DoubleQuotes(t), "\"", rest);
    assert ("\"" + u)[1..] == u;
    QuotedRoundTrip(t, rest);
  }

  lemma PlainFieldRoundTrip(t: string, rest: string)
    requires FieldEnd(rest) && !NeedsQuotes(t)
    ensures Field(t + rest) == Some((t, rest))
  {
    ContainsChar(t, ',');
    ContainsChar(t, '"');
    ContainsChar(t, '\n');
    UnquotedRoundTrip(t, rest);
    if t != [] {
      assert t[0] in t;
      assert (t + rest)[0] == t[0];
    }
  }

  /** The quoted fields of one line. */
  function QuoteTexts(ts: seq<string>): (r: seq<string>)
    ensures |r| == |ts| && forall j :: 0 <= j < |ts| ==> r[j] == QuoteText(ts[j])
  {
    seq(|ts|, j requires 0 <= j < |ts| => QuoteText(ts[j]))
  }

  /** The line the export writes for a record of texts. */
  function RecordText(ts: seq<string>): string
  {
    JoinFields(QuoteTexts(ts)) + "\n"
  }

  lemma AppendAssoc(a: string, b: string, c: string)
    ensures (a + b) + c == a + (b + c)
  {
  }

  /** A line written by the export is read back as its texts, and reading goes on right after it. */
  lemma {:induction false} RecordRoundTrip(ts: seq<string>, more: string)
    requires ts != []
    ensures Record(RecordText(ts) + more) == Some((ts, more))
    decreases |ts|
  {
    var q := QuoteText(ts[0]);
    if |ts| == 1 {
      assert QuoteTexts(ts) == [q];
      assert RecordText(ts) + more == q + ("\n" + more);
      FieldRoundTrip(ts[0], "\n" + more);
      assert Field(q + ("\n" + more)) == Some((ts[0], "\n" + more));
      assert ("\n" + more)[1..] == more;
      assert ("\n" + more)[0] == '\n';
      assert ts == [ts[0]];
    } else {
      var tail := RecordText(ts[1..]) + more;
      assert QuoteTexts(ts)[1..] == QuoteTexts(ts[1..]);
      assert JoinFields(QuoteTexts(ts)) == q + "," + JoinFields(QuoteTexts(ts[1..]));
      calc {
        RecordText(ts) + more;
        (q + "," + JoinFields(QuoteTexts(ts[1..]))) + "\n" + more;
        { AppendAssoc(q + ",", JoinFields(QuoteTexts(ts[1..])) + "\n", more); }
        q + ("," + tail);
      }
      FieldRoundTrip(ts[0], "," + tail);
      assert ("," + tail)[1..] == tail;
      RecordRoundTrip(ts[1..], more);
      assert ts == [ts[0]] + ts[1..];
    }
  }

  /** The lines written for a table of texts, first record first. */
  function Lines(recs: seq<seq<string>>): string
  {
    if recs == [] then "" else RecordText(recs[0]) + Lines(recs[1..])
  }

  /** A table whose every record has a field is read back record by record. */
  lemma {:induction false} LinesRoundTrip(recs: seq<seq<string>>)
    requires forall i :: 0 <= i < |recs| ==> recs[i] != []
    ensures ParseCsv(Lines(recs)) == Some(recs)
    decreases |recs|
  {
    if recs != [] {
      var more := Lines(recs[1..]);
      LinesRoundTrip(recs[1..]);
      RecordRoundTrip(recs[0], more);
      ParseCsvCons(RecordText(recs[0]) + more, recs[0], more);
      assert recs == [recs[0]] + recs[1..];
    }
  }

  lemma ParseCsvCons(s: string, rec: seq<string>, more: string)
    requires s != [] && Record(s) == Some((rec, more))
    ensures ParseCsv(s) == (match ParseCsv(more) case None => None case Some(recs) => Some([rec] + recs))
  {
  }

  lemma {:induction false} LinesSnoc(recs: seq<seq<string>>, r: seq<string>)
    ensures Lines(recs + [r]) == Lines(recs) + RecordText(r)
    decreases |recs|
  {
    if recs == [] {
      assert recs + [r] == [r];
    } else {
      assert (recs + [r])[1..] == recs[1..] + [r];
      LinesSnoc(recs[1..], r);
      AppendAssoc(RecordText(recs[0]), Lines(recs[1..]), RecordText(r));
    }
  }

  /** The table the export stands for: the header names, then each row's cell texts under those headers. */
  function Table(headers: seq<string>, rows: seq<Value>): (t: seq<seq<string>>)
    ensures |t| == |rows| + 1 && t[0] == headers
    ensures forall i, j :: 0 <= i < |rows| && 0 <= j < |headers| ==> |t[i + 1]| == |headers| && t[i + 1][j] == PlainText(Read(rows[i], headers[j]))
  {
    [headers] + seq(|rows|, i requires 0 <= i < |rows| => seq(|headers|, j requires 0 <= j < |headers| => PlainText(Read(rows[i], headers[j]))))
  }

  lemma LineOfCells(cells: seq<Js>, ts: seq<string>)
    requires |cells| == |ts| && forall j :: 0 <= j < |ts| ==> ts[j] == PlainText(cells[j])
    ensures Line(cells) == RecordText(ts)
  {
    forall j | 0 <= j < |ts| ensures QuoteValue(cells[j]) == QuoteTexts(ts)[j]
    {
      QuoteValueText(cells[j]);
    }
    assert seq(|cells|, i requires 0 <= i < |cells| => QuoteValue(cells[i])) == QuoteTexts(ts);
  }

  lemma {:induction false} CsvLines(headers: seq<string>, rows: seq<Value>)
    requires CsvText(headers, rows).Ok?
    ensures CsvText(headers, rows).value == Lines(Table(headers, rows))
    decreases |rows|
  {
    if rows == [] {
      HeaderLine(headers);
    } else {
      var init := rows[..|rows| - 1];
      var last := rows[|rows| - 1];
      CsvLines(headers, init);
      var cells := Cells(last, headers).value;
      var t := Table(headers, rows);
      TableSnoc(headers, rows);
      LineOfCells(cells, t[|rows|]);
      LinesSnoc(Table(headers, init), t[|rows|]);
    }
  }

  lemma HeaderLine(headers: seq<string>)
    ensures CsvText(headers, []) == Ok(Lines(Table(headers, [])))
  {
    LineOfCells(HeaderCells(headers), headers);
    assert Table(headers, []) == [headers];
    assert Lines([headers]) == RecordText(headers) + Lines([]);
    assert RecordText(headers) + "" == RecordText(headers);
  }

  lemma TableSnoc(headers: seq<string>, rows: seq<Value>)
    requires rows != []
    ensures Table(headers, rows) == Table(headers, rows[..|rows| - 1]) + [Table(headers, rows)[|rows|]]
  {
    var t := Table(headers, rows);
    var t0 := Table(headers, rows[..|rows| - 1]);
    forall i | 1 <= i < |rows| ensures t[i] == t0[i]
    {
      assert rows[i - 1] == rows[..|rows| - 1][i - 1];
    }
  }

  /**
   * Reading an export back: with at least one header, the first record is
   * the header names and record i + 1 holds the texts of row i's cells under
   * those headers, so there is one line per row, in row order.
   */
  lemma CsvRoundTrip(headers: seq<string>, rows: seq<Value>)
    requires headers != [] && CsvText(headers, rows).Ok?
    ensures ParseCsv(CsvText(headers, rows).value) == Some(Table(headers, rows))
  {
    CsvLines(headers, rows);
    LinesRoundTrip(Table(headers, rows));
  }

  /** A field is written in quotes exactly when its text holds a comma, a quote or a line feed. */
  lemma QuotedExactlyWhenNeeded(x: Js)
    ensures |QuoteValue(x)| >= 2 && QuoteValue(x)[0] == '"' <==> NeedsQuotes(PlainText(x))
  {
    QuoteValueText(x);
    var t := PlainText(x);
    if !NeedsQuotes(t) && |t| >= 1 {
      ContainsChar(t, '"');
      assert t[0] in t;
    }
  }
}
