// CSV export, read back by a parser for section 2 of RFC 4180.
module Csv {
  import opened Wrappers
  import opened Text

  // ---- The export ----

  // A JavaScript value as csvCell sees it: null or undefined, an object with its JSON
  // text, or a scalar with its String() text.
  datatype Value = Absent | Object(json: string) | Scalar(shown: string)

  type Record = seq<string>

  function TextOf(v: Value): string {
    match v
    case Absent => ""
    case Object(json) => json
    case Scalar(shown) => shown
  }

  predicate NeedsQuotes(s: string) {
    '"' in s || ',' in s || '\n' in s || '\r' in s
  }

  // Every quote doubled.
  function Doubled(s: string): string {
    if s == "" then "" else (if s[0] == '"' then "\"\"" else [s[0]]) + Doubled(s[1..])
  }

  function CsvText(s: string): string {
    if NeedsQuotes(s) then "\"" + Doubled(s) + "\"" else s
  }

  function CsvCell(v: Value): string {
    if v.Absent? then "" else CsvText(TextOf(v))
  }

  type JsRow = map<string, Value>

  function ValueAt(row: JsRow, col: string): Value {
    if col in row then row[col] else Absent
  }

  // Array.prototype.slice(0, end).
  function SliceTo<T>(rows: seq<T>, end: int): seq<T> {
    var stop := if end < 0 then |rows| + end else end;
    if stop <= 0 then [] else if stop >= |rows| then rows else rows[..stop]
  }

  function Exported(rows: seq<JsRow>, maxRows: Option<int>): seq<JsRow> {
    if maxRows.Some? then SliceTo(rows, maxRows.value) else rows
  }

  // The texts the file is meant to carry: the column names, then one record a row.
  function RecordOf(columns: seq<string>, row: JsRow): (r: Record)
    ensures |r| == |columns|
  {
    seq(|columns|, i requires 0 <= i < |columns| => TextOf(ValueAt(row, columns[i])))
  }

  function RecordsOf(columns: seq<string>, rows: seq<JsRow>): (r: seq<Record>)
    ensures |r| == |rows| + 1
  {
    [columns] + seq(|rows|, i requires 0 <= i < |rows| => RecordOf(columns, rows[i]))
  }

  // Quoting each text, commas between fields, CRLF between records.
  function Line(record: Record): string {
    Join(Cells(record), ",")
  }

  function Cells(record: Record): (r: seq<string>)
    ensures |r| == |record|
  {
    seq(|record|, i requires 0 <= i < |record| => CsvText(record[i]))
  }

  const CRLF: string := "\r\n"

  function Lines(records: seq<Record>): (r: seq<string>)
    ensures |r| == |records|
  {
    seq(|records|, i requires 0 <= i < |records| => Line(records[i]))
  }

  function Render(records: seq<Record>): string {
    Join(Lines(records), CRLF)
  }

  lemma RecordLine(columns: seq<string>, row: JsRow)
    ensures Join(seq(|columns|, i requires 0 <= i < |columns| => CsvCell(ValueAt(row, columns[i]))), ",")
         == Line(RecordOf(columns, row))
  {
    assert seq(|columns|, i requires 0 <= i < |columns| => CsvCell(ValueAt(row, columns[i])))
        == Cells(RecordOf(columns, row));
  }

  lemma NextLine(columns: seq<string>, rows: seq<JsRow>, k: nat)
    requires k < |rows|
    ensures Lines(RecordsOf(columns, rows[..k + 1]))
         == Lines(RecordsOf(columns, rows[..k])) + [Line(RecordOf(columns, rows[k]))]
  {
    assert rows[..k + 1] == rows[..k] + [rows[k]];
  }

  method FrameToCSV(columns: seq<string>, rows: seq<JsRow>, maxRows: Option<int>) returns (csv: string)
    ensures csv == Render(RecordsOf(columns, Exported(rows, maxRows)))
  {
    var header := seq(|columns|, i requires 0 <= i < |columns| => CsvCell(Scalar(columns[i])));
    assert header == Cells(columns);
    var lines := [Join(header, ",")];
    var exported := Exported(rows, maxRows);
    assert lines == Lines(RecordsOf(columns, exported[..0]));
    for k := 0 to |exported|
      invariant lines == Lines(RecordsOf(columns, exported[..k]))
    {
      var row := exported[k];
      var cells := seq(|columns|, i requires 0 <= i < |columns| => CsvCell(ValueAt(row, columns[i])));
      RecordLine(columns, row);
      NextLine(columns, exported, k);
      lines := lines + [Join(cells, ",")];
    }
    assert exported[..|exported|] == exported;
    csv := Join(lines, CRLF);
  }

  // ---- A parser for section 2 of RFC 4180 ----

  // TEXTDATA up to the first character that is special outside quotes.
  function ParsePlain(s: string): (r: (string, string))
    ensures |r.1| <= |s|
  {
    if s == "" || s[0] == ',' || s[0] == '"' || s[0] == '\r' || s[0] == '\n' then ("", s)
    else
      var (text, rest) := ParsePlain(s[1..]);
      ([s[0]] + text, rest)
  }

  // What follows an opening quote, up to the closing one.
  function ParseQuoted(s: string): (r: Option<(string, string)>)
    ensures r.Some? ==> |r.value.1| <= |s|
  {
    if s == "" then None
    else if s[0] != '"' then
      match ParseQuoted(s[1..])
      case None => None
      case Some((text, rest)) => Some(([s[0]] + text, rest))
    else if |s| > 1 && s[1] == '"' then
      match ParseQuoted(s[2..])
      case None => None
      case Some((text, rest)) => Some(("\"" + text, rest))
    else Some(("", s[1..]))
  }

  function ParseField(s: string): (r: Option<(string, string)>)
    ensures r.Some? ==> |r.value.1| <= |s|
  {
    if s != "" && s[0] == '"' then ParseQuoted(s[1..]) else Some(ParsePlain(s))
  }

  function ParseRecord(s: string): (r: Option<(Record, string)>)
    ensures r.Some? ==> |r.value.1| <= |s| && r.value.0 != []
    decreases |s|
  {
    match ParseField(s)
    case None => None
    case Some((text, rest)) =>
      if rest == "" || rest[0] != ',' then Some(([text], rest))
      else
        match ParseRecord(rest[1..])
        case None => None
        case Some((more, rest')) => Some(([text] + more, rest'))
  }

  // Records separated by CRLF. With lenient, a CRLF at the very end closes the last
  // record instead of opening another one (rule 2 leaves that line break optional).
  function ParseRecords(s: string, lenient: bool): (r: Option<seq<Record>>)
    decreases |s|
  {
    match ParseRecord(s)
    case None => None
    case Some((record, rest)) =>
      if rest == "" || (lenient && rest == CRLF) then Some([record])
      else if |rest| < 2 || rest[..2] != CRLF then None
      else
        match ParseRecords(rest[2..], lenient)
        case None => None
        case Some(more) => Some([record] + more)
  }

  // ---- Reading back what was written ----

  // What can follow a field: nothing, a comma or a line break.
  predicate EndsField(rest: string) {
    rest == "" || rest[0] == ',' || rest[0] == '\r'
  }

  lemma {:induction false} PlainReads(s: string, rest: string)
    requires !NeedsQuotes(s) && EndsField(rest)
    ensures ParsePlain(s + rest) == (s, rest)
  {
    if s == "" {
      assert s + rest == rest;
    } else {
      assert s == [s[0]] + s[1..];
      PlainReads(s[1..], rest);
      assert (s + rest)[1..] == s[1..] + rest;
    }
  }

  lemma {:induction false} QuotedReads(s: string, rest: string)
    requires EndsField(rest)
    ensures ParseQuoted(Doubled(s) + "\"" + rest) == Some((s, rest))
  {
    var written := Doubled(s) + "\"" + rest;
    if s == "" {
      assert written == ['"'] + rest;
    } else {
      QuotedReads(s[1..], rest);
      var tail := Doubled(s[1..]) + "\"" + rest;
      assert s == [s[0]] + s[1..];
      if s[0] == '"' {
        assert written == "\"\"" + tail;
        assert written[2..] == tail;
      } else {
        assert written == [s[0]] + tail;
        assert written[1..] == tail;
      }
    }
  }

  lemma QuotedText(s: string, rest: string)
    requires NeedsQuotes(s)
    ensures CsvText(s) + rest == ['"'] + (Doubled(s) + "\"" + rest)
  {
  }

  lemma Behind(c: char, s: string)
    ensures ([c] + s)[1..] == s
  {
  }

  lemma FieldReads(s: string, rest: string)
    requires EndsField(rest)
    ensures ParseField(CsvText(s) + rest) == Some((s, rest))
  {
    if NeedsQuotes(s) {
      QuotedText(s, rest);
      Behind('"', Doubled(s) + "\"" + rest);
      QuotedReads(s, rest);
    } else {
      PlainReads(s, rest);
      if s == "" {
        assert s + rest == rest;
      } else {
        assert (s + rest)[0] == s[0];
      }
    }
  }

  // What can follow a record: nothing or a line break.
  predicate EndsRecord(rest: string) {
    rest == "" || rest[0] == '\r'
  }

  lemma LineStep(record: Record)
    requires |record| > 1
    ensures Line(record) == CsvText(record[0]) + "," + Line(record[1..])
  {
    assert Cells(record)[1..] == Cells(record[1..]);
  }

  lemma LineBehindField(record: Record, rest: string)
    requires |record| > 1
    ensures Line(record) + rest == CsvText(record[0]) + ([','] + (Line(record[1..]) + rest))
  {
    LineStep(record);
  }

  lemma {:induction false} RecordReads(record: Record, rest: string)
    requires record != [] && EndsRecord(rest)
    ensures ParseRecord(Line(record) + rest) == Some((record, rest))
    decreases |record|
  {
    if |record| == 1 {
      assert Line(record) == CsvText(record[0]);
      FieldReads(record[0], rest);
      assert record == [record[0]];
    } else {
      var more := Line(record[1..]) + rest;
      LineBehindField(record, rest);
      FieldReads(record[0], [','] + more);
      Behind(',', more);
      RecordReads(record[1..], rest);
      assert record == [record[0]] + record[1..];
    }
  }

  lemma RenderStep(records: seq<Record>)
    requires |records| > 1
    ensures Render(records) == Line(records[0]) + CRLF + Render(records[1..])
  {
    assert Lines(records)[1..] == Lines(records[1..]);
  }

  ghost predicate NonEmpty(records: seq<Record>) {
    records != [] && forall i :: 0 <= i < |records| ==> records[i] != []
  }

  // A last record of one empty text leaves nothing behind the last line break.
  ghost predicate EndsBlank(records: seq<Record>) {
    |records| > 1 && records[|records| - 1] == [""]
  }

  lemma {:induction false} RenderBlank(records: seq<Record>)
    requires NonEmpty(records)
    ensures Render(records) == "" <==> records == [[""]]
  {
    if |records| == 1 {
      var record := records[0];
      assert Render(records) == Line(record) && records == [record];
      if |record| > 1 {
        LineStep(record);
      } else {
        assert Line(record) == CsvText(record[0]) && record == [record[0]];
      }
    } else {
      RenderStep(records);
    }
  }

  // Everything comes back, except that the lenient reading drops a blank last record.
  lemma {:induction false} RecordsRead(records: seq<Record>, lenient: bool)
    requires NonEmpty(records)
    ensures ParseRecords(Render(records), lenient)
         == Some(if lenient && EndsBlank(records) then records[..|records| - 1] else records)
    decreases |records|
  {
    if |records| == 1 {
      assert Render(records) == Line(records[0]) + "";
      RecordReads(records[0], "");
      assert records == [records[0]];
    } else {
      RenderStep(records);
      var rest := CRLF + Render(records[1..]);
      assert Render(records) == Line(records[0]) + rest;
      RecordReads(records[0], rest);
      assert rest[..2] == CRLF && rest[2..] == Render(records[1..]);
      RecordsRead(records[1..], lenient);
      RenderBlank(records[1..]);
      LastOfTail(records);
    }
  }

  lemma LastOfTail(records: seq<Record>)
    requires |records| > 1
    ensures records == [records[0]] + records[1..]
    ensures records[1..][|records| - 2] == records[|records| - 1]
    ensures records[..|records| - 1] == [records[0]] + records[1..][..|records| - 2]
  {
  }

  // No parse yields a record without a field, so the round trip needs a column.
  lemma {:induction false} ParsedRecordsHaveFields(s: string, lenient: bool)
    ensures var r := ParseRecords(s, lenient); r.Some? ==> NonEmpty(r.value)
    decreases |s|
  {
    var record := ParseRecord(s);
    if record.Some? {
      var rest := record.value.1;
      if |rest| >= 2 && rest[..2] == CRLF {
        ParsedRecordsHaveFields(rest[2..], lenient);
      }
    }
  }

  // The round trip: header and cells come back exactly when there is a column.
  lemma ExportRoundTrip(columns: seq<string>, rows: seq<JsRow>)
    ensures ParseRecords(Render(RecordsOf(columns, rows)), false) == Some(RecordsOf(columns, rows)) <==> columns != []
  {
    var records := RecordsOf(columns, rows);
    if columns != [] {
      assert NonEmpty(records);
      RecordsRead(records, false);
    } else {
      ParsedRecordsHaveFields(Render(records), false);
      assert records[0] == [];
    }
  }

  // The export's last row is blank: one column, and nothing in its last cell.
  predicate EndsInBlankRow(columns: seq<string>, rows: seq<JsRow>) {
    |columns| == 1 && rows != [] && TextOf(ValueAt(rows[|rows| - 1], columns[0])) == ""
  }

  lemma BlankRow(columns: seq<string>, rows: seq<JsRow>)
    ensures EndsBlank(RecordsOf(columns, rows)) <==> EndsInBlankRow(columns, rows)
  {
    if rows != [] {
      var last := RecordOf(columns, rows[|rows| - 1]);
      assert RecordsOf(columns, rows)[|rows|] == last;
      if |columns| == 1 {
        assert last == [last[0]];
      }
    }
  }

  // With the optional line break at the end, a blank last row of a single column is
  // lost, and nothing else ever is.
  lemma LenientRoundTrip(columns: seq<string>, rows: seq<JsRow>)
    requires columns != []
    ensures ParseRecords(Render(RecordsOf(columns, rows)), true)
         == Some(RecordsOf(columns, if EndsInBlankRow(columns, rows) then rows[..|rows| - 1] else rows))
  {
    var records := RecordsOf(columns, rows);
    assert NonEmpty(records);
    RecordsRead(records, true);
    BlankRow(columns, rows);
    if EndsInBlankRow(columns, rows) {
      assert records[..|records| - 1] == RecordsOf(columns, rows[..|rows| - 1]);
    }
  }

  // Two exports are the same file only when every text in them is the same.
  lemma ExportIsInjective(columns: seq<string>, rows: seq<JsRow>, columns': seq<string>, rows': seq<JsRow>)
    requires columns != [] && columns' != []
    requires Render(RecordsOf(columns, rows)) == Render(RecordsOf(columns', rows'))
    ensures columns == columns' && |rows| == |rows'|
    ensures forall i :: 0 <= i < |rows| ==> RecordOf(columns, rows[i]) == RecordOf(columns', rows'[i])
  {
    ExportRoundTrip(columns, rows);
    ExportRoundTrip(columns', rows');
    var a, b := RecordsOf(columns, rows), RecordsOf(columns', rows');
    assert a == b && a[0] == columns && b[0] == columns';
    forall i | 0 <= i < |rows| ensures RecordOf(columns, rows[i]) == RecordOf(columns', rows'[i]) {
      assert a[i + 1] == b[i + 1];
    }
  }
}
