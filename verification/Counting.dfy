/** What the counts of the reports and of the screen count (src/reporting/report.c, src/gui/gui_report_view.c). */
module Counting {
  import opened ScanModel

  /** The positions of the checks with a status. */
  function WithStatus(checks: seq<Check>, status: CheckStatus): set<nat> {
    set i: nat | i < |checks| && checks[i].status == status
  }

  lemma StatusSnoc(before: seq<Check>, c: Check, status: CheckStatus)
    ensures |WithStatus(before + [c], status)| == |WithStatus(before, status)| + if c.status == status then 1 else 0
  {
    var all, earlier := WithStatus(before + [c], status), WithStatus(before, status);
    forall i: nat ensures i in all <==> i in earlier || (i == |before| && c.status == status) {
      assert i < |before| ==> (before + [c])[i] == before[i];
    }
    assert all == earlier + if c.status == status then {|before|} else {};
  }

  lemma {:induction false} StatusCountIs(checks: seq<Check>, status: CheckStatus)
    ensures StatusCount(checks, status) == |WithStatus(checks, status)|
    decreases |checks|
  {
    hide WithStatus;
    if checks == [] {
      NoStatus(status);
    } else {
      var n := |checks| - 1;
      assert checks == checks[..n] + [checks[n]];
      StatusCountIs(checks[..n], status);
      StatusSnoc(checks[..n], checks[n], status);
    }
  }

  lemma NoStatus(status: CheckStatus)
    ensures |WithStatus([], status)| == 0
  {
    assert WithStatus([], status) == {};
  }

  /** The findings of all checks, in order. */
  function AllFindings(checks: seq<Check>): seq<Finding> {
    if checks == [] then [] else AllFindings(checks[..|checks| - 1]) + checks[|checks| - 1].findings
  }

  function Positions(findings: seq<Finding>, severity: Severity): set<nat> {
    set j: nat | j < |findings| && findings[j].severity == severity
  }

  lemma PositionsSnoc(before: seq<Finding>, f: Finding, severity: Severity)
    ensures |Positions(before + [f], severity)| == |Positions(before, severity)| + if f.severity == severity then 1 else 0
  {
    var all, earlier := Positions(before + [f], severity), Positions(before, severity);
    forall j: nat ensures j in all <==> j in earlier || (j == |before| && f.severity == severity) {
      assert j < |before| ==> (before + [f])[j] == before[j];
    }
    assert all == earlier + if f.severity == severity then {|before|} else {};
  }

  lemma {:induction false} SeverityCountInIs(findings: seq<Finding>, severity: Severity)
    ensures SeverityCountIn(findings, severity) == |Positions(findings, severity)|
    decreases |findings|
  {
    hide Positions;
    if findings == [] {
      NoPositions(severity);
    } else {
      var n := |findings| - 1;
      assert findings == findings[..n] + [findings[n]];
      SeverityCountInIs(findings[..n], severity);
      PositionsSnoc(findings[..n], findings[n], severity);
    }
  }

  lemma NoPositions(severity: Severity)
    ensures |Positions([], severity)| == 0
  {
    assert Positions([], severity) == {};
  }

  lemma {:induction false} SeverityConcat(a: seq<Finding>, b: seq<Finding>, severity: Severity)
    ensures SeverityCountIn(a + b, severity) == SeverityCountIn(a, severity) + SeverityCountIn(b, severity)
    decreases |b|
  {
    if b == [] {
      assert a + b == a;
    } else {
      assert (a + b)[..|a + b| - 1] == a + b[..|b| - 1];
      SeverityConcat(a, b[..|b| - 1], severity);
    }
  }

  lemma {:induction false} CountsAreOfAll(checks: seq<Check>, severity: Severity)
    ensures FindingCount(checks) == |AllFindings(checks)|
    ensures SeverityCount(checks, severity) == SeverityCountIn(AllFindings(checks), severity)
    decreases |checks|
  {
    hide SeverityCountIn;
    if checks == [] {
      NoFindings(severity);
    } else {
      var n := |checks| - 1;
      CountsAreOfAll(checks[..n], severity);
      SeverityConcat(AllFindings(checks[..n]), checks[n].findings, severity);
    }
  }

  lemma NoFindings(severity: Severity)
    ensures SeverityCountIn([], severity) == 0
  {
  }

  /** The count of a severity is the number of findings of that severity in all checks. */
  lemma SeverityCountIs(checks: seq<Check>, severity: Severity)
    ensures SeverityCount(checks, severity) == |Positions(AllFindings(checks), severity)|
  {
    hide SeverityCount, SeverityCountIn, AllFindings;
    CountsAreOfAll(checks, severity);
    SeverityCountInIs(AllFindings(checks), severity);
  }
}
