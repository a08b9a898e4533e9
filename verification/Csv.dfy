/**
  The CSV report of src/reporting/report.c, read back by a reader for section 2 of RFC 4180.
 */
module Csv {
  import opened CText
  import opened ScanModel

  const CRLF := "\r\n"

  // ---- what is written ----

  predicate IsFormula(value: string) {
    value != "" && (value[0] == '=' || value[0] == '+' || value[0] == '-' || value[0] == '@')
  }

  predicate IsSpecial(c: char) {
    c == ',' || c == '"' || c == '\n' || c == '\r'
  }

  predicate NeedsQuote(value: string) {
    exists i | 0 <= i < |value| :: IsSpecial(value[i])
  }

  function Doubled(value: string): string {
    if value == "" then "" else (if value[0] == '"' then "\"\"" else [value[0]]) + Doubled(value[1..])
  }

  function FieldText(value: string): string {
    if !NeedsQuote(value) && !IsFormula(value) then value
    else "\"" + (if IsFormula(value) then "'" else "") + Doubled(value) + "\""
  }

  function FieldsText(fields: seq<string>, first: bool): string {
    if fields == [] then "" else (if first then "" else ",") + FieldText(fields[0]) + FieldsText(fields[1..], false)
  }

  function RowText(fields: seq<string>): string {
    FieldsText(fields, true) + CRLF
  }

  function RowsText(rows: seq<seq<string>>): string {
    if rows == [] then "" else RowsText(rows[..|rows| - 1]) + RowText(rows[|rows| - 1])
  }

  const HEADER: seq<string> := [
    "scan_id", "device_identity", "check_id", "check_status", "skip_reason",
    "check_message", "severity", "path", "message"
  ]

  function RowHead(r: ScanResult, c: Check): seq<string> {
    [r.scanId, r.device.identity, c.id, CheckStatusText(c.status),
     if c.status.Skipped? then c.skipReason else "", c.message]
  }

  function FindingRow(r: ScanResult, c: Check, f: Finding): seq<string> {
    RowHead(r, c) + [SeverityText(f.severity), f.path, f.message]
  }

  function EmptyRow(r: ScanResult, c: Check): seq<string> {
    RowHead(r, c) + ["", "", ""]
  }

  function FindingRows(r: ScanResult, c: Check, findings: seq<Finding>): (rows: seq<seq<string>>)
    ensures |rows| == |findings|
    ensures forall i | 0 <= i < |rows| :: |rows[i]| == 9
  {
    seq(|findings|, i requires 0 <= i < |findings| => FindingRow(r, c, findings[i]))
  }

  /** A check without findings still has one row. */
  function CheckRows(r: ScanResult, c: Check): seq<seq<string>> {
    if c.findings == [] then [EmptyRow(r, c)] else FindingRows(r, c, c.findings)
  }

  function Rows(r: ScanResult, checks: seq<Check>): seq<seq<string>> {
    if checks == [] then [] else Rows(r, checks[..|checks| - 1]) + CheckRows(r, checks[|checks| - 1])
  }

  // ---- the reader of RFC 4180 ----

  datatype Read<+T> = Read(value: T, rest: string) | Malformed

  /** The inside of a quoted field: a doubled quote is a quote, a single one ends the field. */
  function ReadQuoted(s: string, field: string): (r: Read<string>)
    ensures r.Read? ==> |r.rest| < |s|
    decreases |s|
  {
    if s == "" then Malformed
    else if s[0] != '"' then ReadQuoted(s[1..], field + [s[0]])
    else if |s| > 1 && s[1] == '"' then ReadQuoted(s[2..], field + ['"'])
    else Read(field, s[1..])
  }

  function ReadPlain(s: string, field: string): (r: Read<string>)
    ensures r.Read? && |r.rest| <= |s|
    decreases |s|
  {
    if s == "" || IsSpecial(s[0]) then Read(field, s) else ReadPlain(s[1..], field + [s[0]])
  }

  function ReadField(s: string): (r: Read<string>)
    ensures r.Read? ==> |r.rest| <= |s|
  {
    if s != "" && s[0] == '"' then ReadQuoted(s[1..], "") else ReadPlain(s, "")
  }

  /** Fields up to the end of a record. */
  function ReadRecord(s: string, fields: seq<string>): (r: Read<seq<string>>)
    ensures r.Read? && s != "" ==> |r.rest| < |s|
    decreases |s|
  {
    match ReadField(s)
    case Malformed => Malformed
    case Read(field, rest) =>
      if rest == "" then Read(fields + [field], "")
      else if rest[0] == ',' then ReadRecord(rest[1..], fields + [field])
      else if CRLF <= rest then Read(fields + [field], rest[2..])
      else Malformed
  }

  function ReadAll(s: string, records: seq<seq<string>>): Option<seq<seq<string>>>
    decreases |s|
  {
    if s == "" then Some(records)
    else
      match ReadRecord(s, [])
      case Malformed => None
      case Read(fields, rest) => ReadAll(rest, records + [fields])
  }

  // ---- the round trip ----

  /** What the reader recovers: the value, marked when a spreadsheet would evaluate it. */
  function Recovered(value: string): string {
    if IsFormula(value) then "'" + value else value
  }

  function RecoveredRow(fields: seq<string>): (r: seq<string>)
    ensures |r| == |fields|
  {
    seq(|fields|, i requires 0 <= i < |fields| => Recovered(fields[i]))
  }

  function RecoveredRows(rows: seq<seq<string>>): (r: seq<seq<string>>)
    ensures |r| == |rows|
  {
    seq(|rows|, i requires 0 <= i < |rows| => RecoveredRow(rows[i]))
  }

  lemma {:induction false} ReadDoubled(value: string, rest: string, field: string)
    requires rest == "" || rest[0] != '"'
    ensures ReadQuoted(Doubled(value) + "\"" + rest, field) == Read(field + value, rest)
    decreases |value|
  {
    var s := Doubled(value) + "\"" + rest;
    if value == "" {
      assert s == "\"" + rest && s[1..] == rest;
      assert field + value == field;
    } else {
      var tail := Doubled(value[1..]) + "\"" + rest;
      ReadDoubled(value[1..], rest, field + [value[0]]);
      assert field + [value[0]] + value[1..] == field + value;
      if value[0] == '"' {
        assert s == "\"\"" + tail && s[2..] == tail;
      } else {
        assert s == [value[0]] + tail && s[1..] == tail;
      }
    }
  }

  lemma {:induction false} ReadPlainValue(value: string, rest: string, field: string)
    requires !NeedsQuote(value) && rest != "" && IsSpecial(rest[0])
    ensures ReadPlain(value + rest, field) == Read(field + value, rest)
    decreases |value|
  {
    if value == "" {
      assert value + rest == rest && field + value == field;
    } else {
      assert (value + rest)[1..] == value[1..] + rest;
      assert !IsSpecial(value[0]);
      assert forall i | 0 <= i < |value[1..]| :: value[1..][i] == value[i + 1];
      ReadPlainValue(value[1..], rest, field + [value[0]]);
      assert field + [value[0]] + value[1..] == field + value;
    }
  }

  lemma ReadQuotedField(prefix: string, value: string, rest: string)
    requires '"' !in prefix && |prefix| <= 1
    requires rest != "" && rest[0] != '"'
    ensures ReadField("\"" + prefix + Doubled(value) + "\"" + rest) == Read(prefix + value, rest)
  {
    hide Doubled, ReadQuoted;
    var s := "\"" + prefix + Doubled(value) + "\"" + rest;
    var inside := Doubled(value) + "\"" + rest;
    ReadDoubled(value, rest, prefix);
    assert s[1..] == prefix + inside;
    if prefix == "" {
      assert prefix + inside == inside;
    } else {
      assert prefix == [prefix[0]] && "" + prefix == prefix;
      ReadPlainChar(prefix[0], inside, "");
    }
  }

  lemma ReadPlainChar(c: char, s: string, field: string)
    requires c != '"'
    ensures ReadQuoted([c] + s, field) == ReadQuoted(s, field + [c])
  {
    assert ([c] + s)[1..] == s;
  }

  /** Any value, quotes, commas and line breaks included, comes back from its field. */
  lemma ReadWrittenField(value: string, rest: string)
    requires rest != "" && (rest[0] == ',' || rest[0] == '\r')
    ensures ReadField(FieldText(value) + rest) == Read(Recovered(value), rest)
  {
    hide Doubled;
    if !NeedsQuote(value) && !IsFormula(value) {
      ReadPlainValue(value, rest, "");
      assert "" + value == value;
      if value != "" {
        assert !IsSpecial(value[0]);
      }
    } else {
      ReadQuotedField(if IsFormula(value) then "'" else "", value, rest);
      assert "" + value == value;
    }
  }

  lemma RecordStep(s: string, before: seq<string>, field: string, tail: string)
    requires ReadField(s) == Read(field, tail)
    ensures tail != "" && tail[0] == ',' ==>
              ReadRecord(s, before) == ReadRecord(tail[1..], before + [field])
    ensures CRLF <= tail ==> ReadRecord(s, before) == Read(before + [field], tail[2..])
  {
    hide ReadField;
  }

  lemma RecoveredCons(fields: seq<string>)
    requires fields != []
    ensures RecoveredRow(fields) == [Recovered(fields[0])] + RecoveredRow(fields[1..])
  {
    hide Recovered;
  }

  lemma FieldsSplit(fields: seq<string>, end: string)
    requires fields != []
    ensures FieldsText(fields, true) + end == FieldText(fields[0]) + (FieldsText(fields[1..], false) + end)
    ensures (FieldsText(fields, false) + end)[0] == ','
    ensures (FieldsText(fields, false) + end)[1..] == FieldsText(fields, true) + end
  {
    hide FieldText;
    SplitText(FieldText(fields[0]), FieldsText(fields[1..], false), end);
  }

  lemma {:induction false} ReadWrittenFields(fields: seq<string>, rest: string, before: seq<string>)
    requires fields != []
    ensures ReadRecord(FieldsText(fields, true) + (CRLF + rest), before)
         == Read(before + RecoveredRow(fields), rest)
    decreases |fields|
  {
    hide FieldText, FieldsText, ReadField, ReadRecord, Recovered, RecoveredRow;
    var field, others := Recovered(fields[0]), fields[1..];
    var tail := FieldsText(others, false) + (CRLF + rest);
    var s := FieldsText(fields, true) + (CRLF + rest);
    FieldsSplit(fields, CRLF + rest);
    RecoveredCons(fields);
    if others == [] {
      NoFields();
      assert tail == CRLF + rest && tail[2..] == rest;
      ReadWrittenField(fields[0], tail);
      RecordStep(s, before, field, tail);
      assert RecoveredRow(others) == [];
      assert before + RecoveredRow(fields) == before + [field];
    } else {
      FieldsSplit(others, CRLF + rest);
      ReadWrittenField(fields[0], tail);
      RecordStep(s, before, field, tail);
      ReadWrittenFields(others, rest, before + [field]);
      assert before + [field] + RecoveredRow(others) == before + RecoveredRow(fields);
    }
  }

  lemma {:induction false} RowsTextCons(row: seq<string>, rows: seq<seq<string>>)
    ensures RowsText([row] + rows) == RowText(row) + RowsText(rows)
    decreases |rows|
  {
    hide RowText;
    var all := [row] + rows;
    if rows == [] {
      assert all[..0] == [] && all[|all| - 1] == row;
      assert "" + RowText(row) == RowText(row) + "";
    } else {
      assert all[..|all| - 1] == [row] + rows[..|rows| - 1];
      RowsTextCons(row, rows[..|rows| - 1]);
    }
  }

  lemma {:induction false} ReadWrittenRows(rows: seq<seq<string>>, before: seq<seq<string>>)
    requires forall i | 0 <= i < |rows| :: rows[i] != []
    ensures ReadAll(RowsText(rows), before) == Some(before + RecoveredRows(rows))
    decreases |rows|
  {
    hide FieldsText, ReadRecord, Recovered;
    if rows == [] {
      assert before + RecoveredRows(rows) == before;
    } else {
      var others := rows[1..];
      assert rows == [rows[0]] + others;
      RowsTextCons(rows[0], others);
      var s := RowsText(rows);
      assert s == FieldsText(rows[0], true) + (CRLF + RowsText(others));
      ReadWrittenFields(rows[0], RowsText(others), []);
      assert [] + RecoveredRow(rows[0]) == RecoveredRow(rows[0]);
      ReadWrittenRows(others, before + [RecoveredRow(rows[0])]);
      assert RecoveredRows(rows) == [RecoveredRow(rows[0])] + RecoveredRows(others);
      assert before + [RecoveredRow(rows[0])] + RecoveredRows(others) == before + RecoveredRows(rows);
    }
  }

  lemma {:induction false} RowsShape(r: ScanResult, checks: seq<Check>)
    ensures forall i | 0 <= i < |Rows(r, checks)| :: |Rows(r, checks)[i]| == 9
    ensures |Rows(r, checks)| == RowCount(checks)
    decreases |checks|
  {
    if checks != [] {
      RowsShape(r, checks[..|checks| - 1]);
    }
  }

  /** One row for each finding, and one for each check without findings. */
  function RowCount(checks: seq<Check>): nat {
    if checks == [] then 0
    else
      var findings := |checks[|checks| - 1].findings|;
      RowCount(checks[..|checks| - 1]) + (if findings > 1 then findings else 1)
  }

  function CsvText(r: ScanResult): string {
    RowText(HEADER) + RowsText(Rows(r, r.checks))
  }

  /**
    A reader for RFC 4180 recovers the header and exactly one nine-field record for each finding
    and each check without findings; every field is the original, marked with a leading quote
    exactly when a spreadsheet would evaluate it.
   */
  lemma CsvRoundTrip(r: ScanResult)
    ensures ReadAll(CsvText(r), []) == Some([HEADER] + RecoveredRows(Rows(r, r.checks)))
    ensures |Rows(r, r.checks)| == RowCount(r.checks)
    ensures forall i | 0 <= i < |Rows(r, r.checks)| :: |Rows(r, r.checks)[i]| == 9
  {
    hide RowsText, ReadAll, RowText, HEADER, RecoveredRow, RecoveredRows, Rows, RowCount;
    var rows := Rows(r, r.checks);
    RowsShape(r, r.checks);
    RowsTextCons(HEADER, rows);
    HeaderIsRecovered();
    ReadWrittenRows([HEADER] + rows, []);
    RecoveredRowsCons(HEADER, rows);
    assert [] + RecoveredRows([HEADER] + rows) == RecoveredRows([HEADER] + rows);
  }

  lemma HeaderIsRecovered()
    ensures RecoveredRow(HEADER) == HEADER && HEADER != []
  {
  }

  lemma RecoveredRowsCons(row: seq<string>, rows: seq<seq<string>>)
    ensures RecoveredRows([row] + rows) == [RecoveredRow(row)] + RecoveredRows(rows)
  {
    hide RecoveredRow;
  }

  /** No recovered field is one a spreadsheet would evaluate. */
  lemma NoFormulaRecovered(r: ScanResult, i: nat, j: nat)
    requires i < |Rows(r, r.checks)| && j < |Rows(r, r.checks)[i]|
    ensures !IsFormula(RecoveredRows(Rows(r, r.checks))[i][j])
  {
    var value := Rows(r, r.checks)[i][j];
    assert RecoveredRows(Rows(r, r.checks))[i][j] == Recovered(value);
  }

  // ---- the buffer and the builder ----

  lemma Regroup(before: string, prefix: string, inner: string)
    ensures before + ("\"" + prefix + inner + "\"") == before + "\"" + prefix + inner + "\""
    ensures before + "\"" + "" == before + "\""
  {
    assert before + ("\"" + prefix + inner + "\"") == before + ("\"" + prefix + inner) + "\"";
    assert before + ("\"" + prefix + inner) == before + ("\"" + prefix) + inner;
    assert before + ("\"" + prefix) == before + "\"" + prefix;
  }

  class Buffer {
    var data: string

    constructor ()
      ensures data == ""
    {
      data := "";
    }

    method Append(text: string)
      modifies this
      ensures data == old(data) + text
    {
      data := data + text;
    }

    static method Scan(value: string) returns (needsQuote: bool)
      ensures needsQuote == NeedsQuote(value)
    {
      for i := 0 to |value|
        invariant forall j | 0 <= j < i :: !IsSpecial(value[j])
      {
        if value[i] == ',' || value[i] == '"' || value[i] == '\n' || value[i] == '\r' {
          assert IsSpecial(value[i]);
          return true;
        }
      }
      return false;
    }

    method WriteField(value: string)
      modifies this
      ensures data == old(data) + FieldText(value)
    {
      hide NeedsQuote, Doubled;
      var needsQuote := Scan(value);
      var needsFormulaPrefix :=
        |value| > 0 && (value[0] == '=' || value[0] == '+' || value[0] == '-' || value[0] == '@');
      if !needsQuote && !needsFormulaPrefix {
        Append(value);
        return;
      }
      Append("\"");
      if needsFormulaPrefix {
        Append("'");
      }
      AppendDoubled(value);
      Append("\"");
      Regroup(old(data), if IsFormula(value) then "'" else "", Doubled(value));
    }

    method AppendDoubled(value: string)
      modifies this
      ensures data == old(data) + Doubled(value)
    {
      for i := 0 to |value|
        invariant data + Doubled(value[i..]) == old(data) + Doubled(value)
      {
        assert value[i..][1..] == value[i + 1..];
        ghost var before := data;
        if value[i] == '"' {
          Append("\"\"");
        } else {
          Append([value[i]]);
        }
        assert before + Doubled(value[i..]) == data + Doubled(value[i + 1..]);
      }
      assert Doubled(value[|value|..]) == "";
    }

    method WriteRow(fields: seq<string>)
      requires |fields| == 9
      modifies this
      ensures data == old(data) + RowText(fields)
    {
      hide FieldText;
      assert fields[0..] == fields;
      for i := 0 to |fields|
        invariant data + FieldsText(fields[i..], i == 0) == old(data) + FieldsText(fields, true)
      {
        ghost var before := data;
        assert fields[i..][1..] == fields[i + 1..];
        if i > 0 {
          Append(",");
        }
        WriteField(fields[i]);
        assert before + FieldsText(fields[i..], i == 0) == data + FieldsText(fields[i + 1..], false);
      }
      assert FieldsText(fields[9..], false) == "";
      assert data == old(data) + FieldsText(fields, true);
      Append("\r\n");
      assert old(data) + FieldsText(fields, true) + CRLF == old(data) + (FieldsText(fields, true) + CRLF);
    }

    method WriteFindings(r: ScanResult, c: Check)
      modifies this
      ensures data == old(data) + RowsText(FindingRows(r, c, c.findings))
    {
      hide RowText;
      ghost var rows := FindingRows(r, c, c.findings);
      for j := 0 to |c.findings|
        invariant data == old(data) + RowsText(rows[..j])
      {
        assert rows[..j + 1][..j] == rows[..j] && rows[j] == FindingRow(r, c, c.findings[j]);
        WriteRow(FindingRow(r, c, c.findings[j]));
      }
      assert rows[..|c.findings|] == rows;
    }

    /** All the rows of one check. */
    method WriteCheck(r: ScanResult, c: Check)
      modifies this
      ensures data == old(data) + RowsText(CheckRows(r, c))
    {
      hide RowText, RowsText;
      if c.findings == [] {
        OneRow(EmptyRow(r, c));
        WriteRow(EmptyRow(r, c));
        return;
      }
      WriteFindings(r, c);
    }
  }

  lemma {:induction false} RowsTextConcat(a: seq<seq<string>>, b: seq<seq<string>>)
    ensures RowsText(a + b) == RowsText(a) + RowsText(b)
    decreases |b|
  {
    hide RowText;
    if b == [] {
      assert a + b == a;
    } else {
      assert (a + b)[..|a + b| - 1] == a + b[..|b| - 1];
      RowsTextConcat(a, b[..|b| - 1]);
    }
  }

  /** The header line the code writes. */
  function HeaderLine(): string {
    "scan_id" + (",device_identity" + (",check_id" + (",check_status" + (",skip_reason"
    + (",check_message" + (",severity" + (",path" + ",message"))))))) + "\r\n"
  }

  function Comma(i: nat): string {
    if i == 0 then "" else ","
  }

  /** usbs_report_build_csv. */
  method BuildCsv(r: ScanResult) returns (text: string)
    ensures text == CsvText(r)
  {
    hide RowText, RowsText, Rows, CheckRows;
    var b := new Buffer();
    b.Append(HeaderLine());
    HeaderText();
    assert "" + HeaderLine() == HeaderLine();
    assert b.data == RowText(HEADER) + RowsText(Rows(r, r.checks[..0])) by {
      EmptyRows(r);
    }
    for i := 0 to |r.checks|
      invariant b.data == RowText(HEADER) + RowsText(Rows(r, r.checks[..i]))
    {
      ghost var before := RowsText(Rows(r, r.checks[..i]));
      RowsSnoc(r, i);
      b.WriteCheck(r, r.checks[i]);
      assert RowText(HEADER) + before + RowsText(CheckRows(r, r.checks[i]))
          == RowText(HEADER) + (before + RowsText(CheckRows(r, r.checks[i])));
    }
    assert r.checks[..|r.checks|] == r.checks;
    text := b.data;
  }

  lemma RowsSnoc(r: ScanResult, i: nat)
    requires i < |r.checks|
    ensures RowsText(Rows(r, r.checks[..i + 1]))
         == RowsText(Rows(r, r.checks[..i])) + RowsText(CheckRows(r, r.checks[i]))
  {
    hide RowText, RowsText, CheckRows;
    assert r.checks[..i + 1][..i] == r.checks[..i];
    RowsTextConcat(Rows(r, r.checks[..i]), CheckRows(r, r.checks[i]));
  }

  lemma OneRow(row: seq<string>)
    ensures RowsText([row]) == RowText(row)
  {
    hide RowText;
    assert [row][..0] == [];
    assert "" + RowText(row) == RowText(row);
  }

  lemma EmptyRows(r: ScanResult)
    ensures RowsText(Rows(r, r.checks[..0])) == ""
  {
  }

  lemma PlainNames()
    ensures FieldText("scan_id") == "scan_id"
    ensures FieldText("device_identity") == "device_identity"
    ensures FieldText("check_id") == "check_id"
    ensures FieldText("check_status") == "check_status"
    ensures FieldText("skip_reason") == "skip_reason"
    ensures FieldText("check_message") == "check_message"
    ensures FieldText("severity") == "severity"
    ensures FieldText("path") == "path"
    ensures FieldText("message") == "message"
  {
    hide Doubled, FieldText;
    PlainField("scan_id");
    PlainField("device_identity");
    PlainField("check_id");
    PlainField("check_status");
    PlainField("skip_reason");
    PlainField("check_message");
    PlainField("severity");
    PlainField("path");
    PlainField("message");
  }

  lemma PlainField(value: string)
    requires forall i | 0 <= i < |value| :: 'a' <= value[i] <= 'z' || value[i] == '_'
    ensures FieldText(value) == value
  {
  }

  lemma FieldsFrom(h: seq<string>, i: nat, piece: string, tail: string)
    requires i < |h| && FieldText(h[i]) == h[i] && piece == Comma(i) + h[i]
    requires tail == FieldsText(h[i + 1..], false)
    ensures FieldsText(h[i..], i == 0) == piece + tail
  {
    hide FieldText;
    assert h[i..][1..] == h[i + 1..];
  }

  lemma HeaderEnd()
    ensures FieldsText(HEADER[5..], false) == ",check_message" + (",severity" + (",path" + ",message"))
  {
    hide FieldText, FieldsText;
    PlainNames();
    var h := HEADER;
    assert h[9..] == [];
    NoFields();
    FieldsFrom(h, 8, ",message", "");
    assert ",message" + "" == ",message";
    FieldsFrom(h, 7, ",path", FieldsText(h[8..], false));
    FieldsFrom(h, 6, ",severity", FieldsText(h[7..], false));
    FieldsFrom(h, 5, ",check_message", FieldsText(h[6..], false));
  }

  lemma HeaderText()
    ensures HeaderLine() == RowText(HEADER)
  {
    hide FieldText, FieldsText;
    PlainNames();
    HeaderEnd();
    var h := HEADER;
    assert h[0..] == h;
    FieldsFrom(h, 4, ",skip_reason", FieldsText(h[5..], false));
    FieldsFrom(h, 3, ",check_status", FieldsText(h[4..], false));
    FieldsFrom(h, 2, ",check_id", FieldsText(h[3..], false));
    FieldsFrom(h, 1, ",device_identity", FieldsText(h[2..], false));
    FieldsFrom(h, 0, "scan_id", FieldsText(h[1..], false));
  }

  lemma NoFields()
    ensures FieldsText([], false) == ""
  {
  }
}
