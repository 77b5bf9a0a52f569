/**
 * The two CSV writers, lib/csvContract.js:47-84 and lib/csvExport.js:20-49, and a reader by the
 * rules of section 2 of RFC 4180.
 */
module CsvWriters {
  import opened Text

  const BOM := '\U{FEFF}'
  const CRLF := "\r\n"
  const CSV_ROW_CAP := 50000
  const MAX_EXPORT_ROWS := 50000

  /** A cell before printing: None is null or undefined, Some its String() text. */
  type Cell = Option<string>

  // ----- The apostrophe rule -----

  predicate Triggers(s: string) {
    s != "" && (s[0] == '=' || s[0] == '+' || s[0] == '@' || s[0] == '\t' || s[0] == '\r')
  }

  function DigitRun(s: string): (n: nat)
    ensures n <= |s| && AllDigits(s[..n]) && (n < |s| ==> !IsDigit(s[n]))
  { if s == "" || !IsDigit(s[0]) then 0 else 1 + DigitRun(s[1..]) }

  /** ^-?\d+(\.\d+)?$ */
  predicate PlainNumber(s: string) {
    var t := if s != "" && s[0] == '-' then s[1..] else s;
    var n := DigitRun(t);
    n > 0 && (n == |t| || (t[n] == '.' && n + 1 < |t| && AllDigits(t[n + 1..])))
  }

  function CellText(v: Cell): string { if v.None? then "" else v.value }

  function SanitizeCell(v: Cell): string {
    var s := CellText(v);
    if s == "" then s
    else if Triggers(s) then "'" + s
    else if s[0] == '-' && !PlainNumber(s) then "'" + s
    else s
  }

  // ----- Quoting -----

  predicate Special(c: char) { c == '"' || c == ',' || c == '\n' || c == '\r' }

  predicate NeedsQuotes(s: string) { exists i | 0 <= i < |s| :: Special(s[i]) }

  function Doubled(s: string): string {
    if s == "" then "" else (if s[0] == '"' then "\"\"" else [s[0]]) + Doubled(s[1..])
  }

  function Quoted(s: string): string { if NeedsQuotes(s) then "\"" + Doubled(s) + "\"" else s }

  /** csvExport's cell. */
  function QuoteCell(v: Cell): string { Quoted(SanitizeCell(v)) }

  /** csvContract's cell, rewritten in place. */
  function CsvCell(v: Cell): string {
    var s := CellText(v);
    if s == "" then s
    else
      var t := if Triggers(s) || (s[0] == '-' && !PlainNumber(s)) then "'" + s else s;
      if NeedsQuotes(t) then "\"" + Doubled(t) + "\"" else t
  }

  // ----- The two writers -----

  datatype Column = Column(key: string, title: string)

  datatype Csv = Complete(text: string) | TooLarge(total: nat, limit: int)

  function ContractRow(r: map<string, Cell>, columns: seq<Column>): (cells: seq<string>)
    ensures |cells| == |columns|
  {
    seq(|columns|, i requires 0 <= i < |columns| =>
      CsvCell(if columns[i].key in r then r[columns[i].key] else None))
  }

  function ContractHead(columns: seq<Column>): (cells: seq<string>)
    ensures |cells| == |columns|
  { seq(|columns|, i requires 0 <= i < |columns| => CsvCell(Some(columns[i].title))) }

  function ContractLines(rows: seq<map<string, Cell>>, columns: seq<Column>): (lines: seq<string>)
    ensures |lines| == |rows|
  { seq(|rows|, i requires 0 <= i < |rows| => Join(ContractRow(rows[i], columns), ",")) }

  function ContractText(head: string, body: string): string { [BOM] + head + CRLF + body + CRLF }

  /** toCsv of csvContract.js; a limit of 0 stands for a missing or unusable one. */
  function ContractCsv(rows: seq<map<string, Cell>>, columns: seq<Column>, limit: int): Csv {
    var cap := if limit == 0 then CSV_ROW_CAP else limit;
    if |rows| > cap then TooLarge(|rows|, cap)
    else Complete(ContractText(Join(ContractHead(columns), ","), Join(ContractLines(rows, columns), CRLF)))
  }

  function ExportRow(fields: seq<Cell>): string {
    Join(seq(|fields|, i requires 0 <= i < |fields| => QuoteCell(fields[i])), ",")
  }

  function ExportLines(rows: seq<seq<Cell>>): (lines: seq<string>)
    ensures |lines| == |rows|
  { seq(|rows|, i requires 0 <= i < |rows| => ExportRow(rows[i])) }

  function ExportCsv(headers: seq<Cell>, rows: seq<seq<Cell>>, bom: bool): Csv {
    if |rows| > MAX_EXPORT_ROWS then TooLarge(|rows|, MAX_EXPORT_ROWS)
    else Complete((if bom then [BOM] else "") + Join(ExportLines([headers] + rows), CRLF) + CRLF)
  }

  /** toCsv of csvExport.js. */
  method ToCsv(headers: seq<Cell>, rows: seq<seq<Cell>>, bom: bool) returns (csv: Csv)
    ensures csv == ExportCsv(headers, rows, bom)
  {
    if |rows| > MAX_EXPORT_ROWS { return TooLarge(|rows|, MAX_EXPORT_ROWS); }
    var lines := [ExportRow(headers)];
    for i := 0 to |rows|
      invariant lines == ExportLines([headers] + rows[..i])
    {
      assert [headers] + rows[..i + 1] == [headers] + rows[..i] + [rows[i]];
      lines := lines + [ExportRow(rows[i])];
    }
    assert rows[..|rows|] == rows;
    csv := Complete((if bom then [BOM] else "") + Join(lines, CRLF) + CRLF);
  }

  // ----- A reader, RFC 4180 section 2 -----

  datatype Parsed<+T> = Parsed(value: T, rest: string)

  /** After an opening quote: "" is a quote, any other character is itself, a single quote closes. */
  function ReadQuoted(s: string): (r: Option<Parsed<string>>)
    ensures r.Some? ==> |r.value.rest| < |s|
  {
    if s == "" then None
    else if s[0] != '"' then
      match ReadQuoted(s[1..])
      case None => None
      case Some(p) => Some(Parsed([s[0]] + p.value, p.rest))
    else if |s| > 1 && s[1] == '"' then
      match ReadQuoted(s[2..])
      case None => None
      case Some(p) => Some(Parsed("\"" + p.value, p.rest))
    else Some(Parsed("", s[1..]))
  }

  function ReadPlain(s: string): (r: Parsed<string>)
    ensures |r.rest| <= |s| && (r.rest != "" ==> Special(r.rest[0]))
  {
    if s == "" || Special(s[0]) then Parsed("", s)
    else var p := ReadPlain(s[1..]); Parsed([s[0]] + p.value, p.rest)
  }

  function ReadField(s: string): (r: Option<Parsed<string>>)
    ensures r.Some? ==> |r.value.rest| <= |s|
  { if s != "" && s[0] == '"' then ReadQuoted(s[1..]) else Some(ReadPlain(s)) }

  function ReadRecord(s: string): (r: Option<Parsed<seq<string>>>)
    ensures r.Some? ==> |r.value.rest| <= |s|
    decreases |s|
  {
    match ReadField(s)
    case None => None
    case Some(f) =>
      if f.rest == "" || f.rest[0] != ',' then Some(Parsed([f.value], f.rest))
      else
        match ReadRecord(f.rest[1..])
        case None => None
        case Some(more) => Some(Parsed([f.value] + more.value, more.rest))
  }

  /** Records end with a line break; the last one may or may not. */
  function ReadFile(s: string): Option<seq<seq<string>>>
    decreases |s|
  {
    match ReadRecord(s)
    case None => None
    case Some(r) =>
      if r.rest == "" || r.rest == CRLF then Some([r.value])
      else if |r.rest| > 2 && r.rest[..2] == CRLF then
        match ReadFile(r.rest[2..])
        case None => None
        case Some(more) => Some([r.value] + more)
      else None
  }

  // ----- Reading back what was written -----

  lemma {:induction false} ReadDoubled(s: string, tail: string)
    requires tail == "" || tail[0] != '"'
    ensures ReadQuoted(Doubled(s) + ("\"" + tail)) == Some(Parsed(s, tail))
  {
    if s == "" {
      assert Doubled(s) + ("\"" + tail) == "\"" + tail;
      assert ("\"" + tail)[1..] == tail;
    } else {
      var rest := Doubled(s[1..]) + ("\"" + tail);
      ReadDoubled(s[1..], tail);
      assert s == [s[0]] + s[1..];
      if s[0] == '"' {
        assert Doubled(s) + ("\"" + tail) == "\"\"" + rest;
        assert ("\"\"" + rest)[2..] == rest;
      } else {
        assert Doubled(s) + ("\"" + tail) == [s[0]] + rest;
        assert ([s[0]] + rest)[1..] == rest;
      }
    }
  }

  lemma {:induction false} ReadUnquoted(s: string, tail: string)
    requires !NeedsQuotes(s) && (tail == "" || Special(tail[0]))
    ensures ReadPlain(s + tail) == Parsed(s, tail)
  {
    if s == "" {
      assert s + tail == tail;
    } else {
      assert !Special(s[0]);
      assert (s + tail)[1..] == s[1..] + tail;
      forall i | 0 <= i < |s[1..]| ensures !Special(s[1..][i]) { assert s[1..][i] == s[i + 1]; }
      ReadUnquoted(s[1..], tail);
      assert s == [s[0]] + s[1..];
    }
  }

  /** What may follow a field: nothing, a comma or a line break. */
  predicate FieldEnd(tail: string) { tail == "" || tail[0] == ',' || tail[0] == '\r' }

  lemma ReadCell(s: string, tail: string)
    requires FieldEnd(tail)
    ensures ReadField(Quoted(s) + tail) == Some(Parsed(s, tail))
  {
    if NeedsQuotes(s) {
      QuotedThen(Doubled(s), tail);
      ReadDoubled(s, tail);
    } else {
      ReadUnquoted(s, tail);
      assert s != "" ==> !Special(s[0]);
      if s == "" { assert s + tail == tail; }
    }
  }

  lemma QuotedThen(d: string, tail: string)
    ensures var t := "\"" + d + "\"" + tail; t[0] == '"' && t[1..] == d + ("\"" + tail)
  {}

  function QuotedAll(cells: seq<string>): (r: seq<string>)
    ensures |r| == |cells|
  { seq(|cells|, i requires 0 <= i < |cells| => Quoted(cells[i])) }

  /** A record without cells is written as an empty line, which reads as one empty cell. */
  function Seen(cells: seq<string>): seq<string> { if cells == [] then [""] else cells }

  predicate RecordEnd(tail: string) { tail == "" || tail[0] == '\r' }

  lemma {:induction false} ReadCells(cells: seq<string>, tail: string)
    requires RecordEnd(tail)
    ensures ReadRecord(Join(QuotedAll(cells), ",") + tail) == Some(Parsed(Seen(cells), tail))
    decreases |cells|
  {
    if cells == [] {
      assert Quoted("") == "";
      ReadCell("", tail);
    } else if |cells| == 1 {
      ReadCell(cells[0], tail);
      assert QuotedAll(cells) == [Quoted(cells[0])];
      assert [cells[0]] == cells;
    } else {
      var more := Join(QuotedAll(cells[1..]), ",") + tail;
      assert QuotedAll(cells)[1..] == QuotedAll(cells[1..]);
      assert Join(QuotedAll(cells), ",") + tail == Quoted(cells[0]) + ("," + more);
      ReadCell(cells[0], "," + more);
      assert ("," + more)[1..] == more;
      ReadCells(cells[1..], tail);
      assert [cells[0]] + cells[1..] == cells;
    }
  }

  function Written(records: seq<seq<string>>): (lines: seq<string>)
    ensures |lines| == |records|
  { seq(|records|, i requires 0 <= i < |records| => Join(QuotedAll(records[i]), ",")) }

  function SeenAll(records: seq<seq<string>>): (r: seq<seq<string>>)
    ensures |r| == |records|
  { seq(|records|, i requires 0 <= i < |records| => Seen(records[i])) }

  /** One record is read off the front of a file. */
  lemma ReadOneMore(cells: seq<string>, more: string)
    requires more != "" && ReadFile(more).Some?
    ensures ReadFile(Join(QuotedAll(cells), ",") + (CRLF + more)) == Some([Seen(cells)] + ReadFile(more).value)
  {
    ReadCells(cells, CRLF + more);
    assert (CRLF + more)[2..] == more && (CRLF + more)[..2] == CRLF;
  }

  lemma ReadLast(cells: seq<string>)
    ensures ReadFile(Join(QuotedAll(cells), ",") + CRLF) == Some([Seen(cells)])
  { ReadCells(cells, CRLF); }

  function FileBody(records: seq<seq<string>>): string { Join(Written(records), CRLF) + CRLF }

  lemma ReadFirst(records: seq<seq<string>>)
    requires |records| > 1 && ReadFile(FileBody(records[1..])) == Some(SeenAll(records[1..]))
    ensures ReadFile(FileBody(records)) == Some(SeenAll(records))
  {
    WrittenFirst(records);
    ReadOneMore(records[0], FileBody(records[1..]));
    assert SeenAll(records) == [Seen(records[0])] + SeenAll(records[1..]);
  }

  lemma BodyOfOne(records: seq<seq<string>>)
    requires |records| == 1
    ensures FileBody(records) == Join(QuotedAll(records[0]), ",") + CRLF && SeenAll(records) == [Seen(records[0])]
  {}

  lemma {:induction false} ReadRecords(records: seq<seq<string>>)
    requires records != []
    ensures ReadFile(FileBody(records)) == Some(SeenAll(records))
    decreases |records|
  {
    if |records| == 1 {
      BodyOfOne(records);
      ReadLast(records[0]);
    } else {
      ReadRecords(records[1..]);
      ReadFirst(records);
    }
  }

  lemma WrittenFirst(records: seq<seq<string>>)
    requires |records| > 1
    ensures FileBody(records) == Join(QuotedAll(records[0]), ",") + (CRLF + FileBody(records[1..]))
  {
    assert Written(records)[1..] == Written(records[1..]);
    Regroup(Join(QuotedAll(records[0]), ","), Join(Written(records[1..]), CRLF));
  }

  lemma Regroup(head: string, tail: string)
    ensures head + CRLF + tail + CRLF == head + (CRLF + (tail + CRLF))
  {}

  // ----- The writers -----

  function Sanitized(fields: seq<Cell>): (r: seq<string>)
    ensures |r| == |fields|
  { seq(|fields|, i requires 0 <= i < |fields| => SanitizeCell(fields[i])) }

  function SanitizedAll(rows: seq<seq<Cell>>): (r: seq<seq<string>>)
    ensures |r| == |rows|
  { seq(|rows|, i requires 0 <= i < |rows| => Sanitized(rows[i])) }

  function RowCells(r: map<string, Cell>, columns: seq<Column>): (cells: seq<Cell>)
    ensures |cells| == |columns|
  { seq(|columns|, i requires 0 <= i < |columns| => if columns[i].key in r then r[columns[i].key] else None) }

  function Labels(columns: seq<Column>): (cells: seq<Cell>)
    ensures |cells| == |columns|
  { seq(|columns|, i requires 0 <= i < |columns| => Some(columns[i].title)) }

  function RowsCells(rows: seq<map<string, Cell>>, columns: seq<Column>): (r: seq<seq<Cell>>)
    ensures |r| == |rows|
  { seq(|rows|, i requires 0 <= i < |rows| => RowCells(rows[i], columns)) }

  lemma CellsAgree(v: Cell)
    ensures CsvCell(v) == QuoteCell(v)
  {}

  lemma ExportLinesWritten(rows: seq<seq<Cell>>)
    ensures ExportLines(rows) == Written(SanitizedAll(rows))
  {
    forall i | 0 <= i < |rows| ensures ExportLines(rows)[i] == Written(SanitizedAll(rows))[i] {
      var fields := rows[i];
      assert QuotedAll(Sanitized(fields)) == seq(|fields|, k requires 0 <= k < |fields| => QuoteCell(fields[k]));
    }
  }

  lemma ContractLinesExport(rows: seq<map<string, Cell>>, columns: seq<Column>)
    ensures Join(ContractHead(columns), ",") == ExportRow(Labels(columns))
    ensures ContractLines(rows, columns) == ExportLines(RowsCells(rows, columns))
  {
    var labels := Labels(columns);
    assert ContractHead(columns) == seq(|labels|, k requires 0 <= k < |labels| => QuoteCell(labels[k]));
    forall i | 0 <= i < |rows| ensures ContractLines(rows, columns)[i] == ExportLines(RowsCells(rows, columns))[i] {
      var cells := RowCells(rows[i], columns);
      assert ContractRow(rows[i], columns) == seq(|cells|, k requires 0 <= k < |cells| => QuoteCell(cells[k]));
    }
  }

  function WithoutBom(text: string): string { if text != "" && text[0] == BOM then text[1..] else text }

  /** A file of lines as both writers assemble it. */
  function File(lines: seq<string>): string { [BOM] + (Join(lines, CRLF) + CRLF) }

  lemma ReadExported(records: seq<seq<Cell>>)
    requires records != []
    ensures ReadFile(WithoutBom(File(ExportLines(records)))) == Some(SeenAll(SanitizedAll(records)))
  {
    ExportLinesWritten(records);
    ReadRecords(SanitizedAll(records));
    var body := Join(ExportLines(records), CRLF) + CRLF;
    assert ([BOM] + body)[1..] == body;
  }

  /** What the export writer printed reads back, cell for cell after the apostrophe rule; empty records read as one empty cell. */
  lemma ExportRoundTrip(headers: seq<Cell>, rows: seq<seq<Cell>>)
    requires |rows| <= MAX_EXPORT_ROWS
    ensures ExportCsv(headers, rows, true).Complete?
    ensures ReadFile(WithoutBom(ExportCsv(headers, rows, true).text)) == Some(SeenAll(SanitizedAll([headers] + rows)))
  {
    var all := [headers] + rows;
    ReadExported(all);
    assert ExportCsv(headers, rows, true).text == File(ExportLines(all));
  }

  lemma SeenAllIff(records: seq<seq<string>>)
    ensures SeenAll(records) == records <==> forall i | 0 <= i < |records| :: records[i] != []
  {
    if SeenAll(records) == records {
      forall i | 0 <= i < |records| ensures records[i] != [] { assert SeenAll(records)[i] == records[i]; }
    }
  }

  lemma NonEmptyRows(headers: seq<Cell>, rows: seq<seq<Cell>>)
    ensures SanitizedAll([headers] + rows) == [Sanitized(headers)] + SanitizedAll(rows)
    ensures (forall i | 0 <= i < |rows| + 1 :: SanitizedAll([headers] + rows)[i] != [])
       <==> headers != [] && forall i | 0 <= i < |rows| :: rows[i] != []
  {
    var all := SanitizedAll([headers] + rows);
    assert all[0] == Sanitized(headers);
    assert forall i | 0 <= i < |rows| :: all[i + 1] == Sanitized(rows[i]);
    if forall i | 0 <= i < |rows| + 1 :: all[i] != [] {
      assert all[0] != [];
      forall i | 0 <= i < |rows| ensures rows[i] != [] { assert all[i + 1] != []; }
    }
  }

  /** Nothing but the apostrophes changes exactly when the header and every row have a column. */
  lemma ExportRoundTripExact(headers: seq<Cell>, rows: seq<seq<Cell>>)
    requires |rows| <= MAX_EXPORT_ROWS
    ensures ReadFile(WithoutBom(ExportCsv(headers, rows, true).text)) == Some([Sanitized(headers)] + SanitizedAll(rows))
       <==> headers != [] && forall i | 0 <= i < |rows| :: rows[i] != []
  {
    ExportRoundTrip(headers, rows);
    NonEmptyRows(headers, rows);
    SeenAllIff(SanitizedAll([headers] + rows));
  }

  /** With a row, the contract writer's text is the file of the export writer's lines. */
  lemma ContractIsFile(rows: seq<map<string, Cell>>, columns: seq<Column>, limit: int)
    requires rows != [] && ContractCsv(rows, columns, limit).Complete?
    ensures ContractCsv(rows, columns, limit).text == File(ExportLines([Labels(columns)] + RowsCells(rows, columns)))
  {
    var cells, head := RowsCells(rows, columns), ExportRow(Labels(columns));
    ContractLinesExport(rows, columns);
    assert ExportLines([Labels(columns)] + cells) == [head] + ExportLines(cells);
    Assembled(head, ExportLines(cells));
  }

  lemma Assembled(head: string, lines: seq<string>)
    requires lines != []
    ensures ContractText(head, Join(lines, CRLF)) == File([head] + lines)
  {
    assert ([head] + lines)[1..] == lines;
    assert Join([head] + lines, CRLF) == head + CRLF + Join(lines, CRLF);
    Bracketed(head, Join(lines, CRLF));
  }

  lemma Bracketed(head: string, tail: string)
    ensures [BOM] + head + CRLF + tail + CRLF == [BOM] + ((head + CRLF + tail) + CRLF)
  {}

  /** The two writers print the same text exactly when there is a row; without rows the contract writer adds an empty line. */
  lemma WritersAgree(rows: seq<map<string, Cell>>, columns: seq<Column>)
    ensures ContractCsv(rows, columns, 0) == ExportCsv(Labels(columns), RowsCells(rows, columns), true) <==> rows != []
    ensures ContractCsv(rows, columns, 0).TooLarge? <==> |rows| > CSV_ROW_CAP
  {
    var cells := RowsCells(rows, columns);
    if rows == [] {
      ContractLinesExport(rows, columns);
      var head := ExportRow(Labels(columns));
      assert ExportLines([Labels(columns)] + cells) == [head];
      assert |ContractCsv(rows, columns, 0).text| == 1 + |head| + 4;
    } else if |rows| <= CSV_ROW_CAP {
      ContractIsFile(rows, columns, 0);
      assert ExportCsv(Labels(columns), cells, true).text == File(ExportLines([Labels(columns)] + cells));
    }
  }

  /** Without rows the contract writer's file ends in an empty line. */
  lemma EmptyContract(columns: seq<Column>)
    ensures ContractCsv([], columns, 0).Complete?
    ensures ContractCsv([], columns, 0).text == File(ExportLines([Labels(columns), []]))
  {
    var head := ExportRow(Labels(columns));
    ContractLinesExport([], columns);
    assert ContractLines([], columns) == [];
    assert ExportLines([Labels(columns), []]) == [head] + [""];
    assert Join([""], CRLF) == "";
    Assembled(head, [""]);
  }

  /** The contract writer: header and every cell are read back, none added or missing, exactly with a column and a row. */
  lemma ContractRoundTrip(rows: seq<map<string, Cell>>, columns: seq<Column>)
    requires |rows| <= CSV_ROW_CAP
    ensures ContractCsv(rows, columns, 0).Complete?
    ensures ReadFile(WithoutBom(ContractCsv(rows, columns, 0).text))
              == Some([Sanitized(Labels(columns))] + SanitizedAll(RowsCells(rows, columns)))
       <==> columns != [] && rows != []
  {
    if rows == [] {
      EmptyContract(columns);
      ReadExported([Labels(columns), []]);
    } else {
      WritersAgree(rows, columns);
      ExportRoundTripExact(Labels(columns), RowsCells(rows, columns));
      assert RowsCells(rows, columns)[0] != [] <==> columns != [];
    }
  }

  /** Any limit: the file is complete or refused with its true size, never shortened. */
  lemma CompleteOrRefused(rows: seq<map<string, Cell>>, columns: seq<Column>, limit: int)
    requires columns != [] && rows != []
    ensures var csv := ContractCsv(rows, columns, limit);
            match csv
            case TooLarge(total, cap) => total == |rows| > cap
            case Complete(text) => ReadFile(WithoutBom(text)).Some? && |ReadFile(WithoutBom(text)).value| == 1 + |rows|
  {
    if ContractCsv(rows, columns, limit).Complete? {
      ContractIsFile(rows, columns, limit);
      ReadExported([Labels(columns)] + RowsCells(rows, columns));
    }
  }

  // ----- The apostrophe and the quotes, on the characters -----

  predicate DigitsBetween(t: string, from: nat, to: nat)
    requires from <= to <= |t|
  { forall i | from <= i < to :: '0' <= t[i] <= '9' }

  /** n digits, and nothing or a point and more digits. */
  predicate DecimalAt(t: string, n: nat) {
    1 <= n <= |t| && DigitsBetween(t, 0, n) && (n == |t| || (t[n] == '.' && n + 1 < |t| && DigitsBetween(t, n + 1, |t|)))
  }

  ghost predicate Decimal(t: string) { exists n: nat :: DecimalAt(t, n) }

  lemma {:induction false} DigitRunIs(t: string, n: nat)
    requires n <= |t| && DigitsBetween(t, 0, n) && (n < |t| ==> !IsDigit(t[n]))
    ensures DigitRun(t) == n
  {
    if n > 0 {
      forall i | 0 <= i < n - 1 ensures '0' <= t[1..][i] <= '9' { assert t[1..][i] == t[i + 1]; }
      DigitRunIs(t[1..], n - 1);
    }
  }

  lemma RunOfDigits(t: string)
    ensures DigitsBetween(t, 0, DigitRun(t))
  { forall i | 0 <= i < DigitRun(t) ensures '0' <= t[i] <= '9' { assert IsDigit(t[..DigitRun(t)][i]); } }

  lemma RestDigits(t: string, n: nat)
    requires n <= |t|
    ensures AllDigits(t[n..]) <==> DigitsBetween(t, n, |t|)
  {
    if AllDigits(t[n..]) { forall i | n <= i < |t| ensures '0' <= t[i] <= '9' { assert IsDigit(t[n..][i - n]); } }
  }

  lemma DecimalIff(t: string)
    ensures Decimal(t) <==> DecimalAt(t, DigitRun(t))
  {
    if Decimal(t) {
      var n: nat :| DecimalAt(t, n);
      DigitRunIs(t, n);
    }
  }

  lemma PlainNumberIs(s: string)
    ensures PlainNumber(s) <==> Decimal(if s != "" && s[0] == '-' then s[1..] else s)
  {
    var t := if s != "" && s[0] == '-' then s[1..] else s;
    DecimalIff(t);
    RunOfDigits(t);
    if DigitRun(t) < |t| { RestDigits(t, DigitRun(t) + 1); }
  }

  /** What a spreadsheet would run: a cell that starts with = + @ tab CR, or with a '-' that begins no decimal number. */
  ghost predicate Formula(s: string) {
    s != "" && (s[0] == '=' || s[0] == '+' || s[0] == '@' || s[0] == '\t' || s[0] == '\r' || (s[0] == '-' && !Decimal(s[1..])))
  }

  /** An apostrophe is put before exactly the cells that would run, so none that is read back does. */
  lemma NoFormula(v: Cell)
    ensures var s := if v.None? then "" else v.value;
            SanitizeCell(v) == (if Formula(s) then "'" + s else s) && !Formula(SanitizeCell(v))
  { PlainNumberIs(CellText(v)); }

  /** A cell is quoted exactly when it holds a quote, a comma or a line break, and then each quote is doubled. */
  lemma QuotedIff(s: string)
    ensures Quoted(s) == s <==> '"' !in s && ',' !in s && '\n' !in s && '\r' !in s
    ensures Quoted(s) != s ==> |s| + 2 <= |Quoted(s)| && Quoted(s)[0] == '"' && Quoted(s)[|Quoted(s)| - 1] == '"'
  {
    DoubledLength(s);
    if NeedsQuotes(s) { var i :| 0 <= i < |s| && Special(s[i]); assert s[i] in s; }
    if '"' in s || ',' in s || '\n' in s || '\r' in s { var i :| 0 <= i < |s| && (s[i] == '"' || s[i] == ',' || s[i] == '\n' || s[i] == '\r'); }
  }

  lemma {:induction false} DoubledLength(s: string)
    ensures |Doubled(s)| >= |s|
  { if s != "" { DoubledLength(s[1..]); } }

  /** Both files: the byte order mark unless it is not wanted, lines ended by CR LF, and at most fifty thousand rows. */
  lemma FileShapes(headers: seq<Cell>, rows: seq<seq<Cell>>, bom: bool, records: seq<map<string, Cell>>, columns: seq<Column>)
    ensures ExportCsv(headers, rows, bom) == TooLarge(|rows|, 50000) <==> |rows| > 50000
    ensures |rows| <= 50000 ==>
              var text := ExportCsv(headers, rows, bom).text;
              (bom ==> text[0] == '\U{FEFF}') && |text| >= 2 && text[|text| - 2] == '\r' && text[|text| - 1] == '\n'
    ensures ContractCsv(records, columns, 0) == TooLarge(|records|, 50000) <==> |records| > 50000
    ensures |records| <= 50000 ==>
              var text := ContractCsv(records, columns, 0).text;
              |text| >= 3 && text[0] == '\U{FEFF}' && text[|text| - 2] == '\r' && text[|text| - 1] == '\n'
  {}
}
