/**
  The on-screen summary and verdict (src/gui/gui_report_view.c), and its agreement with the JSON
  report and the CSV report of the same scan.
 */
module Summary {
  import opened CText
  import opened ScanModel
  import J = JsonSyntax
  import R = JsonReader
  import T = JsonRoundTrip
  import Report
  import Csv

  datatype Verdict = Threat | Suspicious | Incomplete | Clean

  datatype Summary = Summary(
    completed: bool,
    pathsSkipped: nat,
    run: nat,
    skipped: nat,
    failed: nat,
    findings: nat,
    high: nat,
    warning: nat,
    info: nat,
    verdict: Verdict)

  predicate Has(checks: seq<Check>, severity: Severity) {
    exists i, j | 0 <= i < |checks| && 0 <= j < |checks[i].findings| :: checks[i].findings[j].severity == severity
  }

  predicate AllRan(checks: seq<Check>) {
    forall i | 0 <= i < |checks| :: checks[i].status == Ran
  }

  /** Severity outranks completeness; only a complete scan with nothing above Info is clean. */
  function VerdictOf(r: ScanResult): Verdict {
    if Has(r.checks, High) then Threat
    else if Has(r.checks, Warning) then Suspicious
    else if r.status != Completed || !AllRan(r.checks) then Incomplete
    else Clean
  }

  /** The verdict, by what the findings and the checks are. */
  lemma VerdictTable(r: ScanResult)
    ensures VerdictOf(r) == Threat
       <==> exists i, j | 0 <= i < |r.checks| && 0 <= j < |r.checks[i].findings| :: r.checks[i].findings[j].severity == High
    ensures VerdictOf(r) in {Threat, Suspicious} <==> exists i, j | 0 <= i < |r.checks| && 0 <= j < |r.checks[i].findings| ::
              r.checks[i].findings[j].severity in {High, Warning}
    ensures VerdictOf(r) == Clean <==>
              && VerdictOf(r) !in {Threat, Suspicious} && r.status == Completed
              && forall i | 0 <= i < |r.checks| :: r.checks[i].status == Ran
  {
    if VerdictOf(r) in {Threat, Suspicious} {
      var severity := if Has(r.checks, High) then High else Warning;
      var i, j :| 0 <= i < |r.checks| && 0 <= j < |r.checks[i].findings| && r.checks[i].findings[j].severity == severity;
      assert r.checks[i].findings[j].severity in {High, Warning};
    }
  }

  // ---- counting and finding ----

  lemma {:induction false} CountedIn(findings: seq<Finding>, severity: Severity)
    ensures SeverityCountIn(findings, severity) > 0
        <==> exists j | 0 <= j < |findings| :: findings[j].severity == severity
    decreases |findings|
  {
    if findings != [] {
      var before := findings[..|findings| - 1];
      CountedIn(before, severity);
      if SeverityCountIn(before, severity) > 0 {
        var j :| 0 <= j < |before| && before[j].severity == severity;
        assert findings[j].severity == severity;
      }
      forall j | 0 <= j < |findings| && findings[j].severity == severity
        ensures SeverityCountIn(findings, severity) > 0
      {
        assert j < |before| ==> before[j] == findings[j];
      }
    }
  }

  lemma {:induction false} Counted(checks: seq<Check>, severity: Severity)
    ensures SeverityCount(checks, severity) > 0 <==> Has(checks, severity)
    decreases |checks|
  {
    if checks != [] {
      var n := |checks| - 1;
      Counted(checks[..n], severity);
      CountedIn(checks[n].findings, severity);
      if Has(checks[..n], severity) {
        var i, j :| 0 <= i < n && 0 <= j < |checks[i].findings| && checks[i].findings[j].severity == severity;
        assert checks[..n][i] == checks[i];
      }
      forall i, j | 0 <= i < |checks| && 0 <= j < |checks[i].findings| && checks[i].findings[j].severity == severity
        ensures SeverityCount(checks, severity) > 0
      {
        if i < n {
          assert checks[..n][i] == checks[i];
        }
      }
    }
  }

  lemma {:induction false} AllCounted(checks: seq<Check>)
    ensures StatusCount(checks, Skipped) == 0 && StatusCount(checks, NotRun) == 0 <==> AllRan(checks)
    ensures StatusCount(checks, Ran) + StatusCount(checks, Skipped) + StatusCount(checks, NotRun) == |checks|
    decreases |checks|
  {
    if checks != [] {
      var n := |checks| - 1;
      AllCounted(checks[..n]);
      assert AllRan(checks) ==> AllRan(checks[..n]);
      assert AllRan(checks) ==> checks[n].status == Ran;
    }
  }

  lemma {:induction false} SeveritiesPartitionIn(findings: seq<Finding>)
    ensures SeverityCountIn(findings, High) + SeverityCountIn(findings, Warning) + SeverityCountIn(findings, Info)
         == |findings|
    decreases |findings|
  {
    if findings != [] {
      SeveritiesPartitionIn(findings[..|findings| - 1]);
    }
  }

  lemma {:induction false} SeveritiesPartition(checks: seq<Check>)
    ensures SeverityCount(checks, High) + SeverityCount(checks, Warning) + SeverityCount(checks, Info)
         == FindingCount(checks)
    decreases |checks|
  {
    if checks != [] {
      SeveritiesPartition(checks[..|checks| - 1]);
      SeveritiesPartitionIn(checks[|checks| - 1].findings);
    }
  }

  // ---- the summary ----

  method CountFindings(findings: seq<Finding>) returns (high: nat, warning: nat, info: nat)
    ensures high == SeverityCountIn(findings, High)
    ensures warning == SeverityCountIn(findings, Warning)
    ensures info == SeverityCountIn(findings, Info)
  {
    high, warning, info := 0, 0, 0;
    for j := 0 to |findings|
      invariant high == SeverityCountIn(findings[..j], High)
      invariant warning == SeverityCountIn(findings[..j], Warning)
      invariant info == SeverityCountIn(findings[..j], Info)
    {
      assert findings[..j + 1][..j] == findings[..j];
      match findings[j].severity {
        case High => high := high + 1;
        case Warning => warning := warning + 1;
        case Info => info := info + 1;
      }
    }
    assert findings[..|findings|] == findings;
  }

  /** The counts on screen, and the verdict. */
  predicate IsSummary(r: ScanResult, s: Summary) {
    && s.completed == (r.status == Completed) && s.pathsSkipped == r.pathsSkipped
    && s.run == StatusCount(r.checks, Ran)
    && s.skipped == StatusCount(r.checks, Skipped)
    && s.failed == StatusCount(r.checks, NotRun)
    && s.findings == FindingCount(r.checks)
    && s.high == SeverityCount(r.checks, High)
    && s.warning == SeverityCount(r.checks, Warning)
    && s.info == SeverityCount(r.checks, Info)
    && s.verdict == VerdictOf(r)
  }

  /**
    gui_report_summarize.  No result is not a clean result.  The verdict is Clean exactly when the
    scan completed, every check ran and no finding is above Info.
   */
  method Summarize(result: Option<ScanResult>) returns (s: Summary)
    ensures result.None? ==> s == Summary(false, 0, 0, 0, 0, 0, 0, 0, 0, Incomplete)
    ensures result.Some? ==> IsSummary(result.value, s)
    ensures s.verdict == Clean <==>
              && result.Some? && result.value.status == Completed && AllRan(result.value.checks)
              && forall i, j | 0 <= i < |result.value.checks| && 0 <= j < |result.value.checks[i].findings| ::
                   result.value.checks[i].findings[j].severity == Info
  {
    if result.None? {
      return Summary(false, 0, 0, 0, 0, 0, 0, 0, 0, Incomplete);
    }
    var r := result.value;
    var run, skipped, failed := 0, 0, 0;
    var findings, high, warning, info := 0, 0, 0, 0;
    for i := 0 to |r.checks|
      invariant run == StatusCount(r.checks[..i], Ran) && skipped == StatusCount(r.checks[..i], Skipped)
      invariant failed == StatusCount(r.checks[..i], NotRun) && findings == FindingCount(r.checks[..i])
      invariant high == SeverityCount(r.checks[..i], High) && warning == SeverityCount(r.checks[..i], Warning)
      invariant info == SeverityCount(r.checks[..i], Info)
    {
      assert r.checks[..i + 1][..i] == r.checks[..i];
      match r.checks[i].status {
        case Ran => run := run + 1;
        case Skipped => skipped := skipped + 1;
        case NotRun => failed := failed + 1;
      }
      var h, w, n := CountFindings(r.checks[i].findings);
      SeveritiesPartitionIn(r.checks[i].findings);
      findings, high, warning, info := findings + h + w + n, high + h, warning + w, info + n;
    }
    assert r.checks[..|r.checks|] == r.checks;
    Counted(r.checks, High);
    Counted(r.checks, Warning);
    AllCounted(r.checks);
    var completed := r.status == Completed;
    var verdict :=
      if high > 0 then Threat
      else if warning > 0 then Suspicious
      else if !completed || skipped > 0 || failed > 0 then Incomplete
      else Clean;
    s := Summary(completed, r.pathsSkipped, run, skipped, failed, findings, high, warning, info, verdict);
  }

  // ---- the three formatters agree ----

  /** How many records hold `text` in column `column`. */
  function RecordsWith(records: seq<seq<string>>, column: nat, text: string): nat {
    if records == [] then 0
    else
      var last := records[|records| - 1];
      RecordsWith(records[..|records| - 1], column, text)
      + (if column < |last| && last[column] == text then 1 else 0)
  }

  lemma {:induction false} RecordsWithConcat(a: seq<seq<string>>, b: seq<seq<string>>, column: nat, text: string)
    ensures RecordsWith(a + b, column, text) == RecordsWith(a, column, text) + RecordsWith(b, column, text)
    decreases |b|
  {
    if b == [] {
      assert a + b == a;
    } else {
      assert (a + b)[..|a + b| - 1] == a + b[..|b| - 1];
      RecordsWithConcat(a, b[..|b| - 1], column, text);
    }
  }

  lemma RecordsWithSnoc(records: seq<seq<string>>, last: seq<string>, column: nat, text: string)
    requires column < |last|
    ensures RecordsWith(records + [last], column, text)
         == RecordsWith(records, column, text) + (if last[column] == text then 1 else 0)
  {
    assert (records + [last])[..|records|] == records;
  }

  lemma NoRecords(column: nat, text: string)
    ensures RecordsWith([], column, text) == 0
  {
  }

  lemma FindingRowsSnoc(r: ScanResult, c: Check, findings: seq<Finding>, f: Finding)
    ensures Csv.RecoveredRows(Csv.FindingRows(r, c, findings + [f]))
         == Csv.RecoveredRows(Csv.FindingRows(r, c, findings)) + [Csv.RecoveredRow(Csv.FindingRow(r, c, f))]
  {
    hide Csv.RecoveredRow, Csv.FindingRow;
  }

  lemma {:induction false} FindingRecords(r: ScanResult, c: Check, findings: seq<Finding>, severity: Severity)
    ensures RecordsWith(Csv.RecoveredRows(Csv.FindingRows(r, c, findings)), 6, SeverityText(severity))
         == SeverityCountIn(findings, severity)
    decreases |findings|
  {
    hide RecordsWith, Csv.RecoveredRow, Csv.FindingRow, Csv.RecoveredRows, Csv.FindingRows;
    if findings == [] {
      NoFindingRecords(r, c, severity);
    } else {
      var before, f := findings[..|findings| - 1], findings[|findings| - 1];
      assert findings == before + [f];
      FindingRecords(r, c, before, severity);
      FindingRowsSnoc(r, c, before, f);
      FindingRecord(r, c, f);
      RecordsWithSnoc(Csv.RecoveredRows(Csv.FindingRows(r, c, before)), Csv.RecoveredRow(Csv.FindingRow(r, c, f)), 6,
                      SeverityText(severity));
    }
  }

  lemma NoFindingRecords(r: ScanResult, c: Check, severity: Severity)
    ensures RecordsWith(Csv.RecoveredRows(Csv.FindingRows(r, c, [])), 6, SeverityText(severity)) == 0
  {
    assert Csv.RecoveredRows(Csv.FindingRows(r, c, [])) == [];
  }

  lemma FindingRecord(r: ScanResult, c: Check, f: Finding)
    ensures |Csv.RecoveredRow(Csv.FindingRow(r, c, f))| == 9
    ensures Csv.RecoveredRow(Csv.FindingRow(r, c, f))[6] == SeverityText(f.severity)
    ensures forall s: Severity :: SeverityText(s) == SeverityText(f.severity) ==> s == f.severity
  {
    assert Csv.FindingRow(r, c, f)[6] == SeverityText(f.severity);
  }

  lemma {:induction false} SeverityRecords(r: ScanResult, checks: seq<Check>, severity: Severity)
    ensures RecordsWith(Csv.RecoveredRows(Csv.Rows(r, checks)), 6, SeverityText(severity))
         == SeverityCount(checks, severity)
    decreases |checks|
  {
    hide RecordsWith, Csv.RecoveredRows, Csv.CheckRows;
    if checks == [] {
      RecoveredConcat([], []);
      NoRecords(6, SeverityText(severity));
    } else {
      var n := |checks| - 1;
      var before, rows := Csv.Rows(r, checks[..n]), Csv.CheckRows(r, checks[n]);
      SeverityRecords(r, checks[..n], severity);
      RecoveredConcat(before, rows);
      RecordsWithConcat(Csv.RecoveredRows(before), Csv.RecoveredRows(rows), 6, SeverityText(severity));
      CheckRecords(r, checks[n], severity);
    }
  }

  lemma RecoveredConcat(a: seq<seq<string>>, b: seq<seq<string>>)
    ensures Csv.RecoveredRows(a + b) == Csv.RecoveredRows(a) + Csv.RecoveredRows(b)
    ensures Csv.RecoveredRows([]) == []
  {
    hide Csv.RecoveredRow;
  }

  lemma CheckRecords(r: ScanResult, c: Check, severity: Severity)
    ensures RecordsWith(Csv.RecoveredRows(Csv.CheckRows(r, c)), 6, SeverityText(severity))
         == SeverityCountIn(c.findings, severity)
  {
    hide RecordsWith, Csv.RecoveredRows, Csv.FindingRows, Csv.EmptyRow;
    if c.findings == [] {
      EmptyRecord(r, c, severity);
    } else {
      FindingRecords(r, c, c.findings, severity);
    }
  }

  lemma EmptyRecord(r: ScanResult, c: Check, severity: Severity)
    ensures RecordsWith(Csv.RecoveredRows([Csv.EmptyRow(r, c)]), 6, SeverityText(severity)) == 0
  {
    var records := Csv.RecoveredRows([Csv.EmptyRow(r, c)]);
    assert records[..0] == [];
    assert records[0][6] == "";
  }

  /** How many of the findings in a parsed report have the severity. */
  function ItemsWith(items: seq<J.Value>, text: string): nat {
    if items == [] then 0
    else
      var severity := R.Get(items[|items| - 1], Report.SEVERITY);
      ItemsWith(items[..|items| - 1], text)
      + (if severity.Some? && severity.value.String? && severity.value.s == text then 1 else 0)
  }

  function Items(v: Option<J.Value>): seq<J.Value> {
    if v.Some? && v.value.Array? then v.value.items else []
  }

  /** Over the checks of a parsed report. */
  function FindingsUnder(checks: seq<J.Value>, text: string): nat {
    if checks == [] then 0
    else
      FindingsUnder(checks[..|checks| - 1], text)
      + ItemsWith(Items(R.Get(checks[|checks| - 1], Report.FINDINGS)), text)
  }

  lemma FindingItem(f: Finding)
    ensures R.Get(Report.FindingTree(f), Report.SEVERITY) == Some(J.String(SeverityText(f.severity)))
    ensures forall s: Severity :: SeverityText(s) == SeverityText(f.severity) ==> s == f.severity
  {
    R.FindAt(Report.FindingTree(f).members, Report.SEVERITY, 0);
  }

  lemma {:induction false} FindingItems(findings: seq<Finding>, severity: Severity)
    ensures ItemsWith(Report.FindingTrees(findings), SeverityText(severity)) == SeverityCountIn(findings, severity)
    decreases |findings|
  {
    hide Report.FindingTree, SeverityText, R.Get;
    if findings != [] {
      var n := |findings| - 1;
      assert Report.FindingTrees(findings)[..n] == Report.FindingTrees(findings[..n]);
      FindingItems(findings[..n], severity);
      FindingItem(findings[n]);
    }
  }

  lemma FindingsOf(c: Check)
    ensures R.Get(Report.CheckTree(c), Report.FINDINGS) == Some(J.Array(Report.FindingTrees(c.findings)))
  {
    hide Report.FindingTrees;
    var ms := Report.CheckTree(c).members;
    R.FindAt(ms, Report.FINDINGS, |ms| - 1);
  }

  lemma {:induction false} FindingsInChecks(checks: seq<Check>, severity: Severity)
    ensures FindingsUnder(Report.CheckTrees(checks), SeverityText(severity)) == SeverityCount(checks, severity)
    decreases |checks|
  {
    hide Report.CheckTree, Report.FindingTrees, ItemsWith, SeverityText, R.Get;
    if checks != [] {
      var n := |checks| - 1;
      assert Report.CheckTrees(checks)[..n] == Report.CheckTrees(checks[..n]);
      FindingsInChecks(checks[..n], severity);
      FindingsOf(checks[n]);
      FindingItems(checks[n].findings, severity);
    }
  }

  /** A count in the summary object of a parsed report. */
  function CountIn(report: J.Value, key: cstring): Option<int> {
    var summary := R.Get(report, Report.SUMMARY);
    if summary.None? then None else R.AsInt(R.Get(summary.value, key))
  }

  lemma SummaryCounts(r: ScanResult)
    requires Report.CountsFit(r)
    ensures var t := Report.SummaryTree(r.checks);
            && R.AsInt(R.Get(t, Report.CHECKS_RUN)) == Some(StatusCount(r.checks, Ran))
            && R.AsInt(R.Get(t, Report.CHECKS_SKIPPED)) == Some(StatusCount(r.checks, Skipped))
            && R.AsInt(R.Get(t, Report.CHECKS_FAILED)) == Some(StatusCount(r.checks, NotRun))
            && R.AsInt(R.Get(t, Report.FINDINGS_COUNT)) == Some(FindingCount(r.checks))
  {
    hide StatusCount, FindingCount, R.Find;
    Report.StatusCountBound(r.checks, Ran);
    Report.StatusCountBound(r.checks, Skipped);
    Report.StatusCountBound(r.checks, NotRun);
    var ms := Report.SummaryTree(r.checks).members;
    assert Report.CHECKS_RUN[7] == 'r' && Report.CHECKS_SKIPPED[7] == 's' && Report.CHECKS_FAILED[7] == 'f';
    assert Report.FINDINGS_COUNT[0] == 'f' && Report.CHECKS_RUN[0] == 'c';
    assert Report.CHECKS_SKIPPED[0] == 'c' && Report.CHECKS_FAILED[0] == 'c';
    R.FindAt(ms, Report.CHECKS_RUN, 0);
    R.FindAt(ms, Report.CHECKS_SKIPPED, 1);
    R.FindAt(ms, Report.CHECKS_FAILED, 2);
    R.FindAt(ms, Report.FINDINGS_COUNT, 3);
  }

  lemma JsonCounts(report: J.Value, r: ScanResult, severity: Severity)
    requires Report.CountsFit(r)
    requires R.Get(report, Report.CHECKS) == Some(J.Array(Report.CheckTrees(r.checks)))
    requires R.Get(report, Report.SUMMARY) == Some(Report.SummaryTree(r.checks))
    ensures CountIn(report, Report.CHECKS_RUN) == Some(StatusCount(r.checks, Ran))
    ensures CountIn(report, Report.CHECKS_SKIPPED) == Some(StatusCount(r.checks, Skipped))
    ensures CountIn(report, Report.CHECKS_FAILED) == Some(StatusCount(r.checks, NotRun))
    ensures CountIn(report, Report.FINDINGS_COUNT) == Some(FindingCount(r.checks))
    ensures FindingsUnder(Items(R.Get(report, Report.CHECKS)), SeverityText(severity)) == SeverityCount(r.checks, severity)
  {
    hide R.Get, Report.SummaryTree, Report.CheckTrees, R.AsInt, FindingsUnder, Report.CountsFit, SeverityText;
    SummaryCounts(r);
    FindingsInChecks(r.checks, severity);
  }

  lemma CsvCounts(r: ScanResult, severity: Severity)
    ensures var records := Csv.ReadAll(Csv.CsvText(r), []);
            && records.Some? && |records.value| > 0
            && RecordsWith(records.value[1..], 6, SeverityText(severity)) == SeverityCount(r.checks, severity)
  {
    hide *;
    Csv.CsvRoundTrip(r);
    SeverityRecords(r, r.checks, severity);
    var rows := Csv.RecoveredRows(Csv.Rows(r, r.checks));
    assert ([Csv.HEADER] + rows)[1..] == rows;
  }

  /** What the summary says of a severity. */
  function OfSeverity(s: Summary, severity: Severity): nat {
    match severity
    case High => s.high
    case Warning => s.warning
    case Info => s.info
  }

  /**
    One scan, three accounts.  The text of the JSON report is read back with the parser, the text of
    the CSV report with a reader for RFC 4180, and the summary is what is shown on screen.  The four
    counts of the JSON summary are those on screen, and for each severity so are the findings under
    the JSON checks and the records of the CSV.
   */
  lemma FormattersAgree(r: ScanResult, version: cstring, strtod: string -> real, s: Summary, severity: Severity)
    requires Report.CountsFit(r) && T.ExactOnIntegers(strtod) && IsSummary(r, s)
    ensures var report := R.Parse(J.Render(Report.ReportTree(r, version)), strtod);
            && report.Success?
            && CountIn(report.value, Report.CHECKS_RUN) == Some(s.run)
            && CountIn(report.value, Report.CHECKS_SKIPPED) == Some(s.skipped)
            && CountIn(report.value, Report.CHECKS_FAILED) == Some(s.failed)
            && CountIn(report.value, Report.FINDINGS_COUNT) == Some(s.findings)
            && FindingsUnder(Items(R.Get(report.value, Report.CHECKS)), SeverityText(severity)) == OfSeverity(s, severity)
    ensures var records := Csv.ReadAll(Csv.CsvText(r), []);
            && records.Some? && |records.value| > 0
            && RecordsWith(records.value[1..], 6, SeverityText(severity)) == OfSeverity(s, severity)
    ensures s.findings == s.high + s.warning + s.info
  {
    hide Report.CountsFit, R.Parse, J.Render, Report.ReportTree, T.ExactOnIntegers, CountIn, FindingsUnder, Items,
         R.Get, Csv.ReadAll, Csv.CsvText, RecordsWith, SeverityText, StatusCount, FindingCount, SeverityCount, VerdictOf;
    Report.ReportIsRead(r, version, strtod);
    JsonCounts(R.Parse(J.Render(Report.ReportTree(r, version)), strtod).value, r, severity);
    CsvCounts(r, severity);
    SeveritiesPartition(r.checks);
  }
}
