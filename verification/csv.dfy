/**
 CSV output of the API server, and a reader for the format of section 2 of RFC 4180. The reader
 takes any character but quotes, commas and line breaks as text, where the RFC lists printable
 ASCII only; in everything else it refuses what the grammar refuses.
 */
module Csv {
  import opened JsText

  /** An object as the serialiser sees it: its keys in order, and the text of each cell. */
  datatype Row = Row(keys: seq<string>, cells: map<string, string>)

  /** Array elements that are not objects become one-column rows. */
  datatype Element = Object(row: Row) | Scalar(text: string)

  function CellText(row: Row, key: string): string {
    if key in row.cells then row.cells[key] else ""
  }

  function AsRow(e: Element): Row {
    match e
    case Object(row) => row
    case Scalar(text) => Row(["value"], map["value" := text])
  }

  // ---- writing ----

  function DoubleQuotes(s: string): string {
    if s == "" then ""
    else (if s[0] == '"' then "\"\"" else [s[0]]) + DoubleQuotes(s[1..])
  }

  predicate NeedsQuotes(s: string) {
    '"' in s || ',' in s || '\n' in s || '\r' in s
  }

  function Escape(s: string): string {
    if NeedsQuotes(s) then "\"" + DoubleQuotes(s) + "\"" else s
  }

  function Join(parts: seq<string>, separator: string): string {
    if parts == [] then ""
    else if |parts| == 1 then parts[0]
    else parts[0] + separator + Join(parts[1..], separator)
  }

  function EscapeAll(fields: seq<string>): seq<string> {
    seq(|fields|, i requires 0 <= i < |fields| => Escape(fields[i]))
  }

  function Line(fields: seq<string>): string { Join(EscapeAll(fields), ",") }

  function Lines(records: seq<seq<string>>): seq<string> {
    seq(|records|, i requires 0 <= i < |records| => Line(records[i]))
  }

  /** Union of the keys of all rows, in order of first appearance. */
  function AddKeys(headers: seq<string>, keys: seq<string>): seq<string> {
    if keys == [] then headers
    else
      var n := |keys| - 1;
      var sofar := AddKeys(headers, keys[..n]);
      if keys[n] in sofar then sofar else sofar + [keys[n]]
  }

  function Headers(rows: seq<Row>): seq<string> {
    if rows == [] then [] else AddKeys(Headers(rows[..|rows| - 1]), rows[|rows| - 1].keys)
  }

  function Cells(headers: seq<string>, row: Row): seq<string> {
    seq(|headers|, i requires 0 <= i < |headers| => CellText(row, headers[i]))
  }

  /** The table a list of rows stands for: the header record and one record per row. */
  function Table(rows: seq<Row>): (table: seq<seq<string>>)
    ensures |table| == |rows| + 1
  {
    [Headers(rows)] + seq(|rows|, i requires 0 <= i < |rows| => Cells(Headers(rows), rows[i]))
  }

  function CsvText(rows: seq<Row>): string {
    if rows == [] then "" else Join(Lines(Table(rows)), "\r\n")
  }

  method CollectHeaders(rows: seq<Row>) returns (headers: seq<string>)
    ensures headers == Headers(rows)
  {
    headers := [];
    var headerSet: set<string> := {};
    for i := 0 to |rows|
      invariant headers == Headers(rows[..i])
      invariant forall h :: h in headerSet <==> h in headers
    {
      var keys := rows[i].keys;
      for j := 0 to |keys|
        invariant headers == AddKeys(Headers(rows[..i]), keys[..j])
        invariant forall h :: h in headerSet <==> h in headers
      {
        assert keys[..j + 1][..j] == keys[..j];
        if keys[j] !in headerSet {
          headerSet := headerSet + {keys[j]};
          headers := headers + [keys[j]];
        }
      }
      assert keys[..|keys|] == keys;
      assert rows[..i + 1][..i] == rows[..i];
    }
    assert rows[..|rows|] == rows;
  }

  /** What is to be serialised: a list, one object, or a bare value as text. */
  datatype Payload = Array(elements: seq<Element>) | Single(row: Row) | Bare(text: string)

  function RowsOf(data: Payload): seq<Row> {
    match data
    case Array(elements) => seq(|elements|, i requires 0 <= i < |elements| => AsRow(elements[i]))
    case Single(row) => [row]
    case Bare(_) => []
  }

  /** The serialiser: headers and lines grown row by row; a bare value is returned as it is. */
  method ToCsv(data: Payload) returns (text: string)
    ensures text == if data.Bare? then data.text else CsvText(RowsOf(data))
  {
    if data.Bare? { return data.text; }
    var rows := RowsOf(data);
    if |rows| == 0 { return ""; }
    var headers := CollectHeaders(rows);
    var lines := CollectLines(headers, rows);
    text := Join(lines, "\r\n");
  }

  method CollectLines(headers: seq<string>, rows: seq<Row>) returns (lines: seq<string>)
    requires headers == Headers(rows)
    ensures lines == Lines(Table(rows))
  {
    lines := [Line(headers)];
    for i := 0 to |rows|
      invariant |lines| == i + 1 && lines[0] == Line(headers)
      invariant forall k :: 0 < k <= i ==> lines[k] == Line(Cells(headers, rows[k - 1]))
    {
      lines := lines + [Line(Cells(headers, rows[i]))];
    }
    forall k | 0 <= k < |lines| ensures lines[k] == Line(Table(rows)[k]) {
      if k > 0 { assert lines[k] == Line(Cells(headers, rows[k - 1])); }
    }
  }

  // ---- reading ----

  datatype Parsed<+T> = Parsed(value: T, rest: string)

  /** Inside quotes: a doubled quote is a quote, a single one ends the field. */
  function ReadQuoted(s: string): (r: Option<Parsed<string>>)
    ensures r.Some? ==> |r.value.rest| < |s|
  {
    if s == "" then None
    else if s[0] != '"' then
      match ReadQuoted(s[1..])
      case None => None
      case Some(p) => Some(Parsed([s[0]] + p.value, p.rest))
    else if |s| > 1 && s[1] == '"' then
      match ReadQuoted(s[2..])
      case None => None
      case Some(p) => Some(Parsed("\"" + p.value, p.rest))
    else Some(Parsed("", s[1..]))
  }

  predicate Plain(c: char) { c != '"' && c != ',' && c != '\r' && c != '\n' }

  /** Characters up to a comma, a quote or a line break. */
  function ReadPlain(s: string): (p: Parsed<string>)
    ensures |p.rest| <= |s|
  {
    if s == "" || !Plain(s[0]) then Parsed("", s)
    else
      var p := ReadPlain(s[1..]);
      Parsed([s[0]] + p.value, p.rest)
  }

  function ReadField(s: string): (r: Option<Parsed<string>>)
    ensures r.Some? ==> |r.value.rest| <= |s|
  {
    if s != "" && s[0] == '"' then ReadQuoted(s[1..]) else Some(ReadPlain(s))
  }

  /** record = field *(COMMA field) */
  function ReadRecord(s: string): (r: Option<Parsed<seq<string>>>)
    ensures r.Some? ==> |r.value.rest| <= |s|
    decreases |s|
  {
    match ReadField(s)
    case None => None
    case Some(p) =>
      if p.rest != "" && p.rest[0] == ',' then
        match ReadRecord(p.rest[1..])
        case None => None
        case Some(q) => Some(Parsed([p.value] + q.value, q.rest))
      else Some(Parsed([p.value], p.rest))
  }

  /** file = record *(CRLF record); anything else is refused. */
  function ReadFile(s: string): Option<seq<seq<string>>>
    decreases |s|
  {
    match ReadRecord(s)
    case None => None
    case Some(p) =>
      if p.rest == "" then Some([p.value])
      else if "\r\n" <= p.rest then
        match ReadFile(p.rest[2..])
        case None => None
        case Some(records) => Some([p.value] + records)
      else None
  }

  // ---- reading back what was written ----

  predicate EndsField(rest: string) { rest == "" || rest[0] == ',' || rest[0] == '\r' }

  lemma {:induction false} QuotedReadsBack(s: string, rest: string)
    requires EndsField(rest)
    ensures ReadQuoted(DoubleQuotes(s) + "\"" + rest) == Some(Parsed(s, rest))
  {
    var text := DoubleQuotes(s) + "\"" + rest;
    if s == "" {
      assert text == "\"" + rest;
      assert text[1..] == rest;
    } else {
      QuotedReadsBack(s[1..], rest);
      var tail := DoubleQuotes(s[1..]) + "\"" + rest;
      if s[0] == '"' {
        assert text == "\"\"" + tail;
        assert text[2..] == tail;
      } else {
        assert text == [s[0]] + tail;
        assert text[1..] == tail;
      }
      assert s == [s[0]] + s[1..];
    }
  }

  lemma {:induction false} PlainReadsBack(s: string, rest: string)
    requires !NeedsQuotes(s) && EndsField(rest)
    ensures ReadPlain(s + rest) == Parsed(s, rest)
  {
    if s == "" {
      assert s + rest == rest;
    } else {
      assert s[0] in s;
      assert s == [s[0]] + s[1..];
      PlainReadsBack(s[1..], rest);
      assert (s + rest)[1..] == s[1..] + rest;
    }
  }

  lemma {:induction false} FieldReadsBack(s: string, rest: string)
    requires EndsField(rest)
    ensures ReadField(Escape(s) + rest) == Some(Parsed(s, rest))
  {
    if NeedsQuotes(s) {
      QuotedFieldReadsBack(s, rest);
    } else {
      PlainReadsBack(s, rest);
      if s + rest != "" { PlainStart(s, rest); }
    }
  }

  lemma {:induction false} QuotedFieldReadsBack(s: string, rest: string)
    requires EndsField(rest)
    ensures ReadField("\"" + DoubleQuotes(s) + "\"" + rest) == Some(Parsed(s, rest))
  {
    var text := "\"" + DoubleQuotes(s) + "\"" + rest;
    QuotedReadsBack(s, rest);
    assert text[0] == '"' && text[1..] == DoubleQuotes(s) + "\"" + rest;
  }

  lemma PlainStart(s: string, rest: string)
    requires !NeedsQuotes(s) && EndsField(rest) && s + rest != ""
    ensures (s + rest)[0] != '"'
  {
    if s != "" { assert s[0] in s; }
  }

  predicate EndsRecord(rest: string) { rest == "" || "\r\n" <= rest }

  lemma {:induction false} RecordReadsBack(fields: seq<string>, rest: string)
    requires fields != [] && EndsRecord(rest)
    ensures ReadRecord(Line(fields) + rest) == Some(Parsed(fields, rest))
  {
    if |fields| == 1 {
      FieldReadsBack(fields[0], rest);
      assert Line(fields) == Escape(fields[0]);
      assert fields == [fields[0]];
      assert rest == "" || rest[0] == '\r';
    } else {
      var tail := LineSplits(fields, rest);
      FieldReadsBack(fields[0], "," + tail);
      RecordReadsBack(fields[1..], rest);
      FieldThenRecord(Line(fields) + rest, fields[0], tail, fields[1..], rest);
      assert fields == [fields[0]] + fields[1..];
    }
  }

  lemma {:induction false} LineSplits(fields: seq<string>, rest: string) returns (tail: string)
    requires |fields| > 1
    ensures tail == Line(fields[1..]) + rest
    ensures Line(fields) + rest == Escape(fields[0]) + ("," + tail)
  {
    tail := Line(fields[1..]) + rest;
    assert EscapeAll(fields)[1..] == EscapeAll(fields[1..]);
  }

  lemma {:induction false} FieldThenRecord(s: string, field: string, tail: string, fields: seq<string>, rest: string)
    requires ReadField(s) == Some(Parsed(field, "," + tail)) && ReadRecord(tail) == Some(Parsed(fields, rest))
    ensures ReadRecord(s) == Some(Parsed([field] + fields, rest))
  {
    assert ("," + tail)[1..] == tail;
  }

  lemma {:induction false} FileReadsBack(records: seq<seq<string>>)
    requires records != [] && forall i :: 0 <= i < |records| ==> records[i] != []
    ensures ReadFile(Join(Lines(records), "\r\n")) == Some(records)
  {
    var text := Join(Lines(records), "\r\n");
    if |records| == 1 {
      RecordReadsBack(records[0], "");
      assert text == Line(records[0]) + "";
      assert records == [records[0]];
    } else {
      var tail := Join(Lines(records[1..]), "\r\n");
      assert Lines(records)[1..] == Lines(records[1..]);
      assert text == Line(records[0]) + ("\r\n" + tail);
      RecordReadsBack(records[0], "\r\n" + tail);
      assert ("\r\n" + tail)[2..] == tail;
      FileReadsBack(records[1..]);
      assert records == [records[0]] + records[1..];
    }
  }

  lemma {:induction false} RecordsAreNeverEmpty(s: string)
    ensures ReadRecord(s).Some? ==> ReadRecord(s).value.value != []
  {
  }

  /**
   Reading the output gives back the header union and every cell exactly when there is at
   least one column.
   */
  lemma {:induction false} CsvReadsBackExactly(rows: seq<Row>)
    ensures ReadFile(CsvText(rows)) == Some(Table(rows)) <==> Headers(rows) != []
  {
    var table := Table(rows);
    if Headers(rows) != [] {
      forall i | 0 <= i < |table| ensures table[i] != [] {
        if i > 0 { assert |table[i]| == |Headers(rows)|; }
      }
      FileReadsBack(table);
    } else {
      RecordsAreNeverEmpty(CsvText(rows));
      assert table[0] == [];
      if ReadFile(CsvText(rows)).Some? { assert ReadFile(CsvText(rows)).value[0] != []; }
    }
  }

  /** Record i + 1 of the table holds, under each header, the cell of row i for it, and nothing else. */
  lemma CellsStandUnderHeaders(rows: seq<Row>, i: nat, j: nat)
    requires i < |rows| && j < |Headers(rows)|
    ensures Table(rows)[0] == Headers(rows) && |Table(rows)[i + 1]| == |Table(rows)[0]|
    ensures var header := Table(rows)[0][j];
            && (header in rows[i].cells ==> Table(rows)[i + 1][j] == rows[i].cells[header])
            && (header !in rows[i].cells ==> Table(rows)[i + 1][j] == "")
  {
  }

  /** The output reads as a table with the text in record i + 1 and column j, the only one headed by the key. */
  ghost predicate ReadsUnder(rows: seq<Row>, i: nat, j: nat, key: string, text: string) {
    var table := ReadFile(CsvText(rows));
    && table.Some? && i + 1 < |table.value| == |rows| + 1 && j < |table.value[0]| == |table.value[i + 1]|
    && table.value[0][j] == key && table.value[i + 1][j] == text
    && forall k :: 0 <= k < |table.value[0]| && table.value[0][k] == key ==> k == j
  }

  /** Every cell is read back in its row and under its key. */
  lemma {:induction false} CellReadsBack(rows: seq<Row>, i: nat, key: string) returns (j: nat)
    requires i < |rows| && key in rows[i].keys && key in rows[i].cells
    ensures ReadsUnder(rows, i, j, key, rows[i].cells[key])
  {
    HeadersAreUnion(rows, 0);
    assert key in Headers(rows);
    j :| 0 <= j < |Headers(rows)| && Headers(rows)[j] == key;
    CsvReadsBackExactly(rows);
    CellsStandUnderHeaders(rows, i, j);
  }

  /** A plain value in a list is read back in its record, in the column headed "value". */
  lemma {:induction false} PlainValueReadsBack(elements: seq<Element>, i: nat) returns (j: nat)
    requires i < |elements| && elements[i].Scalar?
    ensures ReadsUnder(RowsOf(Array(elements)), i, j, "value", elements[i].text)
  {
    var rows := RowsOf(Array(elements));
    assert rows[i] == AsRow(elements[i]) && rows[i].keys[0] == "value";
    j := CellReadsBack(rows, i, "value");
  }

  lemma SingleIsListOfOne(row: Row)
    ensures RowsOf(Single(row)) == RowsOf(Array([Object(row)]))
  {
  }

  /** One object without keys is written as an empty header and an empty row, which read as no such table. */
  lemma EmptyObjectDoesNotReadBack()
    ensures var rows := [Row([], map[])];
            ReadFile(CsvText(rows)) != Some(Table(rows))
  {
    var rows := [Row([], map[])];
    assert rows[..0] == [];
    assert Headers(rows) == [];
    CsvReadsBackExactly(rows);
  }

  // ---- the header union ----

  predicate NoRepeats(s: seq<string>) { forall i, j :: 0 <= i < j < |s| ==> s[i] != s[j] }

  lemma {:induction false} AddKeysUnion(headers: seq<string>, keys: seq<string>)
    requires NoRepeats(headers)
    ensures NoRepeats(AddKeys(headers, keys)) && headers <= AddKeys(headers, keys)
    ensures forall k :: k in AddKeys(headers, keys) <==> k in headers || k in keys
  {
    if keys != [] {
      var n := |keys| - 1;
      AddKeysUnion(headers, keys[..n]);
      assert keys == keys[..n] + [keys[n]];
    }
  }

  /** Each key that occurs is a header once; the headers of the first rows come first. */
  lemma {:induction false} HeadersAreUnion(rows: seq<Row>, n: nat)
    requires n <= |rows|
    ensures NoRepeats(Headers(rows)) && Headers(rows[..n]) <= Headers(rows)
    ensures forall k :: k in Headers(rows) <==> exists i :: 0 <= i < |rows| && k in rows[i].keys
  {
    if rows != [] {
      var m := |rows| - 1;
      var front := rows[..m];
      HeadersAreUnion(front, if n <= m then n else m);
      AddKeysUnion(Headers(front), rows[m].keys);
      if n <= m { assert front[..n] == rows[..n]; } else { assert rows[..n] == rows; }
      forall k ensures k in Headers(rows) <==> exists i :: 0 <= i < |rows| && k in rows[i].keys {
        if k in Headers(front) {
          var i :| 0 <= i < |front| && k in front[i].keys;
          assert k in rows[i].keys;
        }
        if i :| 0 <= i < |rows| && k in rows[i].keys {
          if i < m { assert k in front[i].keys; }
        }
      }
    }
  }
}
