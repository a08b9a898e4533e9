/** What a reader for RFC 4180 finds in the CSV report (src/reporting/report.c), column by column. */
module CsvReading {
  import opened CText
  import opened ScanModel
  import opened Csv
  import R = ReportReading

  /** A value as it is found again: with a quote in front when a spreadsheet would evaluate it. */
  function Marked(value: string): string {
    if value != "" && value[0] in {'=', '+', '-', '@'} then "'" + value else value
  }

  /** The record of a finding, or of a check without any. */
  function Record(r: ScanResult, c: Check, finding: Option<Finding>): seq<string> {
    [
      Marked(r.scanId), Marked(r.device.identity), Marked(c.id), R.CheckWord(c.status),
      if c.status == Skipped then Marked(c.skipReason) else "", Marked(c.message),
      if finding.Some? then R.SeverityWord(finding.value.severity) else "",
      if finding.Some? then Marked(finding.value.path) else "",
      if finding.Some? then Marked(finding.value.message) else ""
    ]
  }

  lemma WordsArePlain(s: Severity, c: CheckStatus)
    ensures Marked(R.SeverityWord(s)) == R.SeverityWord(s) && Marked(R.CheckWord(c)) == R.CheckWord(c) && Marked("") == ""
  {
  }

  lemma MarkedIs(value: string)
    ensures Recovered(value) == Marked(value)
  {
  }

  lemma NineMarked(row: seq<string>)
    requires |row| == 9
    ensures RecoveredRow(row) == [Marked(row[0]), Marked(row[1]), Marked(row[2]), Marked(row[3]), Marked(row[4]),
                                  Marked(row[5]), Marked(row[6]), Marked(row[7]), Marked(row[8])]
  {
    hide Recovered, Marked;
    forall i | 0 <= i < 9 ensures RecoveredRow(row)[i] == Marked(row[i]) {
      MarkedIs(row[i]);
    }
  }

  lemma FindingRecordIs(r: ScanResult, c: Check, f: Finding)
    ensures RecoveredRow(FindingRow(r, c, f)) == Record(r, c, Some(f))
  {
    hide Recovered, Marked, RecoveredRow, SeverityText, CheckStatusText;
    NineMarked(FindingRow(r, c, f));
    WordsArePlain(f.severity, c.status);
    R.WordsAre(f.severity, c.status, Completed, Usb);
  }

  lemma EmptyRecordIs(r: ScanResult, c: Check)
    ensures RecoveredRow(EmptyRow(r, c)) == Record(r, c, None)
  {
    hide Recovered, Marked, RecoveredRow, CheckStatusText;
    NineMarked(EmptyRow(r, c));
    WordsArePlain(Info, c.status);
    R.WordsAre(Info, c.status, Completed, Usb);
  }

  /** The records of the checks before the i-th. */
  lemma {:induction false} RowsBefore(r: ScanResult, checks: seq<Check>, i: nat)
    requires i < |checks|
    ensures var (before, own) := (RowCount(checks[..i]), CheckRows(r, checks[i]));
            && |Rows(r, checks)| == RowCount(checks) && before + |own| <= |Rows(r, checks)|
            && forall j | 0 <= j < |own| :: Rows(r, checks)[before + j] == own[j]
    decreases |checks|
  {
    hide CheckRows;
    var n := |checks| - 1;
    RowsShape(r, checks);
    RowsShape(r, checks[..n]);
    if i < n {
      RowsBefore(r, checks[..n], i);
      assert checks[..n][..i] == checks[..i];
    }
  }

  /**
    For each finding there is one record, and for each check without findings one, in order: the scan,
    the device, the check with its status, reason and message, then severity, path and message.
   */
  lemma RecordsAre(r: ScanResult, i: nat, j: nat)
    requires i < |r.checks| && (j < |r.checks[i].findings| || (r.checks[i].findings == [] && j == 0))
    ensures var (records, c, k) := (ReadAll(CsvText(r), []), r.checks[i], 1 + RowCount(r.checks[..i]) + j);
            && records.Some? && |records.value| == 1 + RowCount(r.checks) && k < |records.value|
            && records.value[k] == Record(r, c, if c.findings == [] then None else Some(c.findings[j]))
            && records.value[0] == ["scan_id", "device_identity", "check_id", "check_status", "skip_reason",
                                    "check_message", "severity", "path", "message"]
  {
    hide ReadAll, CsvText, Rows, RowCount, RecoveredRow, Record, FindingRow, EmptyRow;
    CsvRoundTrip(r);
    RowsBefore(r, r.checks, i);
    var c := r.checks[i];
    if c.findings == [] {
      EmptyRecordIs(r, c);
    } else {
      FindingRecordIs(r, c, c.findings[j]);
    }
    var row := CheckRows(r, c)[j];
    RecoveredAt(Rows(r, r.checks), RowCount(r.checks[..i]) + j);
  }

  lemma RecoveredAt(rows: seq<seq<string>>, k: nat)
    requires k < |rows|
    ensures RecoveredRows(rows)[k] == RecoveredRow(rows[k])
  {
    hide RecoveredRow;
  }

  /** No field of any record is one a spreadsheet would evaluate. */
  lemma NoFormula(r: ScanResult, i: nat, j: nat)
    requires ReadAll(CsvText(r), []).Some? && i < |ReadAll(CsvText(r), []).value| && j < |ReadAll(CsvText(r), []).value[i]|
    ensures var field := ReadAll(CsvText(r), []).value[i][j];
            field == "" || !(field[0] in {'=', '+', '-', '@'})
  {
    hide ReadAll, CsvText, Rows, Recovered, HEADER;
    CsvRoundTrip(r);
    var rows := Rows(r, r.checks);
    if i > 0 {
      assert RecoveredRows(rows)[i - 1][j] == Recovered(rows[i - 1][j]);
      MarkedIs(rows[i - 1][j]);
    } else {
      HeaderIsPlain(j);
    }
  }

  lemma HeaderIsPlain(j: nat)
    ensures j < |HEADER| ==> HEADER[j] != "" && !(HEADER[j][0] in {'=', '+', '-', '@'})
  {
  }
}
