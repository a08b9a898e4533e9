/**
  The JSON report (usbs_report_build_json in src/reporting/report.c): a scan result as a tree, the
  calls that write it, and reading its text back.
 */
module Report {
  import opened CText
  import opened ScanModel
  import opened JsonSyntax
  import opened JsonMembers
  import W = JsonWriter
  import D = JsonDocument
  import R = JsonReader
  import T = JsonRoundTrip

  // ---- the report as a tree ----

  // The keys of the report, each checked once to be a C string.
  const SCHEMA_VERSION: cstring := "schema_version"
  const TOOL: cstring := "tool"
  const NAME: cstring := "name"
  const VERSION: cstring := "version"
  const SCAN: cstring := "scan"
  const SCAN_ID: cstring := "scan_id"
  const STARTED_AT: cstring := "started_at"
  const FINISHED_AT: cstring := "finished_at"
  const STATUS: cstring := "status"
  const DEVICE: cstring := "device"
  const IDENTITY: cstring := "identity"
  const VOLUME_IDENTITY: cstring := "volume_identity"
  const BUS_TYPE: cstring := "bus_type"
  const VENDOR: cstring := "vendor"
  const PRODUCT: cstring := "product"
  const VOLUME_PATH: cstring := "volume_path"
  const MOUNT_POINTS: cstring := "mount_points"
  const FILESYSTEM: cstring := "filesystem"
  const MEDIA_PRESENT: cstring := "media_present"
  const CAPACITY_BYTES: cstring := "capacity_bytes"
  const FREE_BYTES: cstring := "free_bytes"
  const CAPABILITIES: cstring := "capabilities"
  const CAN_READ_RAW_VOLUME: cstring := "can_read_raw_volume"
  const CAN_READ_PHYSICAL_DISK: cstring := "can_read_physical_disk"
  const CHECKS: cstring := "checks"
  const ID: cstring := "id"
  const SKIP_REASON: cstring := "skip_reason"
  const MESSAGE: cstring := "message"
  const FINDINGS: cstring := "findings"
  const SEVERITY: cstring := "severity"
  const PATH: cstring := "path"
  const SUMMARY: cstring := "summary"
  const CHECKS_RUN: cstring := "checks_run"
  const CHECKS_SKIPPED: cstring := "checks_skipped"
  const CHECKS_FAILED: cstring := "checks_failed"
  const FINDINGS_COUNT: cstring := "findings_count"
  const PRODUCT_NAME: cstring := "USB Sentinel"

  function Strings(s: seq<cstring>): (items: seq<Value>)
    ensures |items| == |s|
    ensures forall i | 0 <= i < |s| :: items[i] == String(s[i])
  {
    seq(|s|, i requires 0 <= i < |s| => String(s[i]))
  }

  function DeviceNames(d: Device): seq<Member> {
    [
      Text(IDENTITY, d.identity),
      Text(VOLUME_IDENTITY, Truncated(d.identity + "/" + d.volumePath, 1056)),
      Text(BUS_TYPE, BusText(d.bus)),
      Text(VENDOR, d.vendor),
      Text(PRODUCT, d.product),
      Text(VOLUME_PATH, d.volumePath)
    ]
  }

  function DeviceVolume(d: Device): seq<Member> {
    [
      Member(MOUNT_POINTS, Array(Strings(d.mountPoints))),
      Text(FILESYSTEM, d.filesystem),
      Flag(MEDIA_PRESENT, d.mediaPresent),
      Count(CAPACITY_BYTES, d.capacityBytes),
      Count(FREE_BYTES, d.freeBytes)
    ]
  }

  function DeviceTree(d: Device): Value {
    Object(DeviceNames(d) + DeviceVolume(d))
  }

  function FindingTree(f: Finding): Value {
    Object([Text(SEVERITY, SeverityText(f.severity)), Text(PATH, f.path), Text(MESSAGE, f.message)])
  }

  function FindingTrees(findings: seq<Finding>): (items: seq<Value>)
    ensures |items| == |findings|
    ensures forall i | 0 <= i < |findings| :: items[i] == FindingTree(findings[i])
  {
    seq(|findings|, i requires 0 <= i < |findings| => FindingTree(findings[i]))
  }

  /** What is said about a check beside its id, status and findings. */
  function Remarks(c: Check): seq<Member> {
    match c.status
    case Skipped => [Text(SKIP_REASON, c.skipReason)]
    case NotRun => [Text(MESSAGE, c.message)]
    case Ran => if c.message != "" then [Text(MESSAGE, c.message)] else []
  }

  function CheckTree(c: Check): Value {
    Object([Text(ID, c.id), Text(STATUS, CheckStatusText(c.status))] + Remarks(c)
           + [Member(FINDINGS, Array(FindingTrees(c.findings)))])
  }

  function CheckTrees(checks: seq<Check>): (items: seq<Value>)
    ensures |items| == |checks|
    ensures forall i | 0 <= i < |checks| :: items[i] == CheckTree(checks[i])
  {
    seq(|checks|, i requires 0 <= i < |checks| => CheckTree(checks[i]))
  }

  function SummaryTree(checks: seq<Check>): Value {
    Object([
      Count(CHECKS_RUN, StatusCount(checks, Ran)),
      Count(CHECKS_SKIPPED, StatusCount(checks, Skipped)),
      Count(CHECKS_FAILED, StatusCount(checks, NotRun)),
      Count(FINDINGS_COUNT, FindingCount(checks))
    ])
  }

  function ToolTree(version: cstring): Value {
    Object([Text(NAME, PRODUCT_NAME), Text(VERSION, version)])
  }

  function ScanTree(r: ScanResult): Value {
    Object([
      Text(SCAN_ID, r.scanId),
      Text(STARTED_AT, r.startedAt),
      Text(FINISHED_AT, r.finishedAt),
      Text(STATUS, ScanStatusText(r.status))
    ])
  }

  function CapabilitiesTree(r: ScanResult): Value {
    Object([
      Flag(CAN_READ_RAW_VOLUME, r.canReadRawVolume),
      Flag(CAN_READ_PHYSICAL_DISK, r.canReadPhysicalDisk)
    ])
  }

  function ReportHead(r: ScanResult, version: cstring): seq<Member> {
    [Count(SCHEMA_VERSION, 1), Member(TOOL, ToolTree(version)), Member(SCAN, ScanTree(r))]
  }

  function ReportMembers(r: ScanResult, version: cstring): seq<Member> {
    ReportHead(r, version) + [
      Member(DEVICE, DeviceTree(r.device)),
      Member(CAPABILITIES, CapabilitiesTree(r)),
      Member(CHECKS, Array(CheckTrees(r.checks))),
      Member(SUMMARY, SummaryTree(r.checks))
    ]
  }

  function ReportTree(r: ScanResult, version: cstring): Value {
    Object(ReportMembers(r, version))
  }

  // ---- writing it ----

  method WriteStrings(w: W.Writer, s: seq<cstring>)
    requires w.Valid()
    modifies w.Repr()
    ensures w.Valid() && w.calls == old(w.calls) + Calls(Array(Strings(s)))
  {
    hide Calls;
    w.BeginArray();
    ghost var base := w.calls;
    assert base == base + ItemCalls(Strings(s)[..0]);
    for i := 0 to |s|
      invariant w.Valid() && w.calls == base + ItemCalls(Strings(s)[..i])
    {
      OneMoreItem(w.calls, base, Strings(s), i);
      StringCall(s[i]);
      w.PutString(s[i]);
    }
    assert Strings(s)[..|s|] == Strings(s);
    w.EndArray();
    ArrayCalls(old(w.calls), Strings(s));
  }

  lemma StringCall(s: cstring)
    ensures Calls(String(s)) == [Str(s)]
  {
  }

  method WriteDeviceNames(w: W.Writer, d: Device, ghost base: seq<Call>)
    requires w.Valid() && w.calls == base
    modifies w.Repr()
    ensures w.Valid() && w.calls == base + MemberCalls(DeviceNames(d))
  {
    hide Calls, MemberCalls, W.Writer.Valid;
    NoMembers(base);
    ghost var ms: seq<Member> := [];
    ms := PutText(w, IDENTITY, d.identity, base, ms);
    ms := PutText(w, VOLUME_IDENTITY, Truncated(d.identity + "/" + d.volumePath, 1056), base, ms);
    ms := PutText(w, BUS_TYPE, BusText(d.bus), base, ms);
    ms := PutText(w, VENDOR, d.vendor, base, ms);
    ms := PutText(w, PRODUCT, d.product, base, ms);
    ms := PutText(w, VOLUME_PATH, d.volumePath, base, ms);
    assert DeviceNames(d) == ms;
  }

  method WriteDeviceVolume(w: W.Writer, d: Device, ghost base: seq<Call>, ghost before: seq<Member>)
    requires w.Valid() && w.calls == base + MemberCalls(before)
    modifies w.Repr()
    ensures w.Valid() && w.calls == base + MemberCalls(before + DeviceVolume(d))
  {
    hide Calls, MemberCalls, W.Writer.Valid;
    var points := Member(MOUNT_POINTS, Array(Strings(d.mountPoints)));
    OneMore(w.calls, base, before, points);
    w.Key(MOUNT_POINTS);
    WriteStrings(w, d.mountPoints);
    ghost var ms := before + [points];
    ms := PutText(w, FILESYSTEM, d.filesystem, base, ms);
    ms := PutFlag(w, MEDIA_PRESENT, d.mediaPresent, base, ms);
    ms := PutCount(w, CAPACITY_BYTES, d.capacityBytes, base, ms);
    ms := PutCount(w, FREE_BYTES, d.freeBytes, base, ms);
    assert before + DeviceVolume(d) == ms;
  }

  method WriteDevice(w: W.Writer, d: Device)
    requires w.Valid()
    modifies w.Repr()
    ensures w.Valid() && w.calls == old(w.calls) + [Key(DEVICE)] + Calls(DeviceTree(d))
  {
    hide Calls, MemberCalls, DeviceNames, DeviceVolume;
    w.Key(DEVICE);
    ghost var start := w.calls;
    w.BeginObject();
    ghost var base := w.calls;
    WriteDeviceNames(w, d, base);
    WriteDeviceVolume(w, d, base, DeviceNames(d));
    w.EndObject();
    ObjectCalls(start, DeviceNames(d) + DeviceVolume(d));
  }

  method WriteCapabilities(w: W.Writer, r: ScanResult)
    requires w.Valid()
    modifies w.Repr()
    ensures w.Valid() && w.calls == old(w.calls) + [Key(CAPABILITIES)] + Calls(CapabilitiesTree(r))
  {
    hide Calls, MemberCalls, W.Writer.Valid;
    w.Key(CAPABILITIES);
    ghost var start := w.calls;
    w.BeginObject();
    ghost var base := w.calls;
    ghost var ms: seq<Member> := [];
    NoMembers(base);
    ms := PutFlag(w, CAN_READ_RAW_VOLUME, r.canReadRawVolume, base, ms);
    ms := PutFlag(w, CAN_READ_PHYSICAL_DISK, r.canReadPhysicalDisk, base, ms);
    w.EndObject();
    ObjectCalls(start, ms);
    assert CapabilitiesTree(r) == Object(ms);
  }

  method WriteFinding(w: W.Writer, f: Finding)
    requires w.Valid()
    modifies w.Repr()
    ensures w.Valid() && w.calls == old(w.calls) + Calls(FindingTree(f))
  {
    hide Calls, MemberCalls;
    w.BeginObject();
    ghost var base := w.calls;
    ghost var ms: seq<Member> := [];
    NoMembers(base);
    ms := PutText(w, SEVERITY, SeverityText(f.severity), base, ms);
    ms := PutText(w, PATH, f.path, base, ms);
    ms := PutText(w, MESSAGE, f.message, base, ms);
    w.EndObject();
    ObjectCalls(old(w.calls), ms);
    assert FindingTree(f) == Object(ms);
  }

  method WriteFindings(w: W.Writer, findings: seq<Finding>) returns (count: nat)
    requires w.Valid()
    modifies w.Repr()
    ensures w.Valid() && w.calls == old(w.calls) + Calls(Array(FindingTrees(findings)))
    ensures count == |findings|
  {
    hide Calls, FindingTree;
    count := 0;
    w.BeginArray();
    ghost var base := w.calls;
    ghost var items := FindingTrees(findings);
    assert base == base + ItemCalls(items[..0]);
    for j := 0 to |findings|
      invariant w.Valid() && w.calls == base + ItemCalls(items[..j]) && count == j
    {
      count := count + 1;
      OneMoreItem(w.calls, base, items, j);
      WriteFinding(w, findings[j]);
    }
    assert items[..|findings|] == items;
    w.EndArray();
    ArrayCalls(old(w.calls), items);
  }

  method WriteCheck(w: W.Writer, c: Check) returns (findings: nat)
    requires w.Valid()
    modifies w.Repr()
    ensures w.Valid() && w.calls == old(w.calls) + Calls(CheckTree(c))
    ensures findings == |c.findings|
  {
    hide Calls, MemberCalls, W.Writer.Valid, FindingTrees;
    w.BeginObject();
    ghost var base := w.calls;
    ghost var ms: seq<Member> := [];
    NoMembers(base);
    ms := PutText(w, ID, c.id, base, ms);
    ms := PutText(w, STATUS, CheckStatusText(c.status), base, ms);
    match c.status {
      case Ran =>
      case Skipped => ms := PutText(w, SKIP_REASON, c.skipReason, base, ms);
      case NotRun => ms := PutText(w, MESSAGE, c.message, base, ms);
    }
    if c.status == Ran && c.message != "" {
      ms := PutText(w, MESSAGE, c.message, base, ms);
    }
    assert ms == [Text(ID, c.id), Text(STATUS, CheckStatusText(c.status))] + Remarks(c);
    OneMore(w.calls, base, ms, Member(FINDINGS, Array(FindingTrees(c.findings))));
    w.Key(FINDINGS);
    findings := WriteFindings(w, c.findings);
    ms := ms + [Member(FINDINGS, Array(FindingTrees(c.findings)))];
    w.EndObject();
    ObjectCalls(old(w.calls), ms);
    assert CheckTree(c) == Object(ms);
  }

  lemma NoItems(base: seq<Call>, items: seq<Value>)
    ensures base == base + ItemCalls(items[..0])
  {
  }

  method WriteChecks(w: W.Writer, checks: seq<Check>) returns (run: nat, skipped: nat, failed: nat, findings: nat)
    requires w.Valid()
    modifies w.Repr()
    ensures w.Valid() && w.calls == old(w.calls) + [Key(CHECKS)] + Calls(Array(CheckTrees(checks)))
    ensures run == StatusCount(checks, Ran) && skipped == StatusCount(checks, Skipped)
    ensures failed == StatusCount(checks, NotRun) && findings == FindingCount(checks)
  {
    hide Calls, ItemCalls, CheckTree, W.Writer.Valid;
    run, skipped, failed, findings := 0, 0, 0, 0;
    w.Key(CHECKS);
    ghost var start := w.calls;
    w.BeginArray();
    ghost var base := w.calls;
    ghost var items := CheckTrees(checks);
    NoItems(base, items);
    for i := 0 to |checks|
      invariant w.Valid() && w.calls == base + ItemCalls(items[..i])
      invariant run == StatusCount(checks[..i], Ran) && skipped == StatusCount(checks[..i], Skipped)
      invariant failed == StatusCount(checks[..i], NotRun) && findings == FindingCount(checks[..i])
    {
      assert checks[..i + 1][..i] == checks[..i];
      OneMoreItem(w.calls, base, items, i);
      var n := WriteCheck(w, checks[i]);
      findings := findings + n;
      match checks[i].status {
        case Ran => run := run + 1;
        case Skipped => skipped := skipped + 1;
        case NotRun => failed := failed + 1;
      }
    }
    assert items[..|checks|] == items && checks[..|checks|] == checks;
    w.EndArray();
    ArrayCalls(start, items);
  }

  method WriteTool(w: W.Writer, version: cstring)
    requires w.Valid()
    modifies w.Repr()
    ensures w.Valid() && w.calls == old(w.calls) + [Key(TOOL)] + Calls(ToolTree(version))
  {
    hide Calls, MemberCalls, W.Writer.Valid;
    w.Key(TOOL);
    ghost var start := w.calls;
    w.BeginObject();
    ghost var base := w.calls;
    ghost var ms: seq<Member> := [];
    NoMembers(base);
    ms := PutText(w, NAME, PRODUCT_NAME, base, ms);
    ms := PutText(w, VERSION, version, base, ms);
    w.EndObject();
    ObjectCalls(start, ms);
    assert ToolTree(version) == Object(ms);
  }

  method WriteScan(w: W.Writer, r: ScanResult)
    requires w.Valid()
    modifies w.Repr()
    ensures w.Valid() && w.calls == old(w.calls) + [Key(SCAN)] + Calls(ScanTree(r))
  {
    hide Calls, MemberCalls, W.Writer.Valid;
    w.Key(SCAN);
    ghost var start := w.calls;
    w.BeginObject();
    ghost var base := w.calls;
    ghost var ms: seq<Member> := [];
    NoMembers(base);
    ms := PutText(w, SCAN_ID, r.scanId, base, ms);
    ms := PutText(w, STARTED_AT, r.startedAt, base, ms);
    ms := PutText(w, FINISHED_AT, r.finishedAt, base, ms);
    ms := PutText(w, STATUS, ScanStatusText(r.status), base, ms);
    w.EndObject();
    ObjectCalls(start, ms);
    assert ScanTree(r) == Object(ms);
  }

  method WriteSummary(w: W.Writer, run: nat, skipped: nat, failed: nat, findings: nat, ghost checks: seq<Check>)
    requires w.Valid()
    requires run == StatusCount(checks, Ran) && skipped == StatusCount(checks, Skipped)
    requires failed == StatusCount(checks, NotRun) && findings == FindingCount(checks)
    modifies w.Repr()
    ensures w.Valid() && w.calls == old(w.calls) + [Key(SUMMARY)] + Calls(SummaryTree(checks))
  {
    hide Calls, MemberCalls, W.Writer.Valid;
    w.Key(SUMMARY);
    ghost var start := w.calls;
    w.BeginObject();
    ghost var base := w.calls;
    ghost var ms: seq<Member> := [];
    NoMembers(base);
    ms := PutCount(w, CHECKS_RUN, run, base, ms);
    ms := PutCount(w, CHECKS_SKIPPED, skipped, base, ms);
    ms := PutCount(w, CHECKS_FAILED, failed, base, ms);
    ms := PutCount(w, FINDINGS_COUNT, findings, base, ms);
    w.EndObject();
    ObjectCalls(start, ms);
    assert SummaryTree(checks) == Object(ms);
  }

  method WriteHead(w: W.Writer, r: ScanResult, version: cstring, ghost base: seq<Call>)
    requires w.Valid() && w.calls == base
    modifies w.Repr()
    ensures w.Valid() && w.calls == base + MemberCalls(ReportHead(r, version))
  {
    hide Calls, MemberCalls, W.Writer.Valid, ToolTree, ScanTree;
    NoMembers(base);
    ghost var ms: seq<Member> := [];
    ms := PutCount(w, SCHEMA_VERSION, 1, base, ms);
    OneMore(w.calls, base, ms, Member(TOOL, ToolTree(version)));
    WriteTool(w, version);
    ms := ms + [Member(TOOL, ToolTree(version))];
    OneMore(w.calls, base, ms, Member(SCAN, ScanTree(r)));
    WriteScan(w, r);
    assert ms + [Member(SCAN, ScanTree(r))] == ReportHead(r, version);
  }

  /** The members after the head. */
  method WriteTail(w: W.Writer, r: ScanResult, version: cstring, ghost base: seq<Call>)
    requires w.Valid() && w.calls == base + MemberCalls(ReportHead(r, version))
    modifies w.Repr()
    ensures w.Valid() && w.calls == base + MemberCalls(ReportMembers(r, version))
  {
    hide Calls, MemberCalls, W.Writer.Valid, ReportHead, DeviceTree, CapabilitiesTree, SummaryTree, CheckTrees;
    ghost var ms := ReportHead(r, version);
    OneMore(w.calls, base, ms, Member(DEVICE, DeviceTree(r.device)));
    WriteDevice(w, r.device);
    ms := ms + [Member(DEVICE, DeviceTree(r.device))];
    OneMore(w.calls, base, ms, Member(CAPABILITIES, CapabilitiesTree(r)));
    WriteCapabilities(w, r);
    ms := ms + [Member(CAPABILITIES, CapabilitiesTree(r))];
    OneMore(w.calls, base, ms, Member(CHECKS, Array(CheckTrees(r.checks))));
    var run, skipped, failed, findings := WriteChecks(w, r.checks);
    ms := ms + [Member(CHECKS, Array(CheckTrees(r.checks)))];
    OneMore(w.calls, base, ms, Member(SUMMARY, SummaryTree(r.checks)));
    WriteSummary(w, run, skipped, failed, findings, r.checks);
    assert ms + [Member(SUMMARY, SummaryTree(r.checks))] == ReportMembers(r, version);
  }

  /** usbs_report_build_json. */
  method BuildJson(r: ScanResult, version: cstring) returns (result: Result<string>)
    ensures result == Success(Render(ReportTree(r, version)))
  {
    hide Calls, MemberCalls, Render, W.Run, W.Finish, W.Writer.Valid, ReportHead, ReportMembers;
    var w := new W.Writer();
    w.BeginObject();
    ghost var base := w.calls;
    WriteHead(w, r, version, base);
    WriteTail(w, r, version, base);
    w.EndObject();
    ReportCalls(w.calls, ReportMembers(r, version), r, version);
    result := w.FinishDocument();
  }

  lemma ReportCalls(calls: seq<Call>, ms: seq<Member>, r: ScanResult, version: cstring)
    requires calls == [BeginObject] + MemberCalls(ms) + [EndObject]
    requires ms == ReportMembers(r, version)
    ensures W.Finish(W.Run(W.INITIAL, calls)) == Success(Render(ReportTree(r, version)))
  {
    hide MemberCalls, ReportMembers, Render, W.Run;
    var tree := ReportTree(r, version);
    assert calls == Calls(tree);
    ReportIsShallow(r, version);
    ShallowNests(tree, 0);
    D.TreeFinishes(tree);
  }

  // ---- reading it back ----

  ghost predicate IsLeaf(v: Value) {
    !v.Object? && !v.Array?
  }

  ghost predicate Leaves(ms: seq<Member>) {
    forall i | 0 <= i < |ms| :: IsLeaf(ms[i].value)
  }

  lemma LeavesAreShallow(ms: seq<Member>, d: nat)
    requires Leaves(ms) && d + 1 < MAX_DEPTH
    ensures Shallow(Object(ms), d)
  {
  }

  lemma DeviceIsShallow(device: Device)
    ensures Shallow(DeviceTree(device), 1)
  {
    var points := Array(Strings(device.mountPoints));
    assert Shallow(points, 2);
    var ms := DeviceNames(device) + DeviceVolume(device);
    forall i | 0 <= i < |ms| ensures Shallow(ms[i].value, 2) {
      if i != 6 {
        assert IsLeaf(ms[i].value);
      }
    }
  }

  lemma CheckIsShallow(c: Check)
    ensures Shallow(CheckTree(c), 2)
  {
    var findings := Array(FindingTrees(c.findings));
    forall i | 0 <= i < |c.findings| ensures Shallow(FindingTree(c.findings[i]), 4) {
      LeavesAreShallow(FindingTree(c.findings[i]).members, 4);
    }
    assert Shallow(findings, 3);
    var ms := CheckTree(c).members;
    forall i | 0 <= i < |ms| ensures Shallow(ms[i].value, 3) {
      if i != |ms| - 1 {
        assert IsLeaf(ms[i].value);
      }
    }
  }

  lemma ToolIsShallow(version: cstring)
    ensures Shallow(ToolTree(version), 1)
  {
    LeavesAreShallow(ToolTree(version).members, 1);
  }

  lemma ScanIsShallow(r: ScanResult)
    ensures Shallow(ScanTree(r), 1) && Shallow(CapabilitiesTree(r), 1) && Shallow(SummaryTree(r.checks), 1)
  {
    LeavesAreShallow(ScanTree(r).members, 1);
    LeavesAreShallow(CapabilitiesTree(r).members, 1);
    LeavesAreShallow(SummaryTree(r.checks).members, 1);
  }

  lemma ChecksAreShallow(checks: seq<Check>)
    ensures Shallow(Array(CheckTrees(checks)), 1)
  {
    hide CheckTree;
    forall i | 0 <= i < |checks| ensures Shallow(CheckTree(checks[i]), 2) {
      CheckIsShallow(checks[i]);
    }
  }

  lemma ReportIsShallow(r: ScanResult, version: cstring)
    ensures Shallow(ReportTree(r, version), 0)
  {
    hide ToolTree, ScanTree, CapabilitiesTree, SummaryTree, DeviceTree, CheckTrees;
    ToolIsShallow(version);
    ScanIsShallow(r);
    DeviceIsShallow(r.device);
    ChecksAreShallow(r.checks);
  }

  lemma {:induction false} StatusCountBound(checks: seq<Check>, status: CheckStatus)
    ensures StatusCount(checks, status) <= |checks|
    decreases |checks|
  {
    if checks != [] {
      StatusCountBound(checks[..|checks| - 1], status);
    }
  }

  /** The device's sizes fit 64 bits, and the counts of checks and findings are exact as doubles. */
  ghost predicate CountsFit(r: ScanResult) {
    && r.device.capacityBytes < 2 * TWO_TO_THE_63 && r.device.freeBytes < 2 * TWO_TO_THE_63
    && |r.checks| <= TWO_TO_THE_53 && FindingCount(r.checks) <= TWO_TO_THE_53
  }

  /** Every number in the report is one a double holds exactly. */
  ghost predicate CountsAreExact(r: ScanResult) {
    CountsFit(r) && r.device.capacityBytes <= TWO_TO_THE_53 && r.device.freeBytes <= TWO_TO_THE_53
  }

  lemma DeviceIsExact(device: Device)
    requires device.capacityBytes <= TWO_TO_THE_53 && device.freeBytes <= TWO_TO_THE_53
    ensures ExactIntegers(DeviceTree(device))
  {
    assert ExactIntegers(Array(Strings(device.mountPoints)));
  }

  lemma CheckIsExact(c: Check)
    ensures ExactIntegers(CheckTree(c))
  {
    assert ExactIntegers(Array(FindingTrees(c.findings))) by {
      forall i | 0 <= i < |c.findings| ensures ExactIntegers(FindingTree(c.findings[i])) {
      }
    }
  }

  lemma SummaryIsExact(r: ScanResult)
    requires CountsFit(r)
    ensures ExactIntegers(SummaryTree(r.checks))
  {
    StatusCountBound(r.checks, Ran);
    StatusCountBound(r.checks, Skipped);
    StatusCountBound(r.checks, NotRun);
  }

  lemma ChecksAreExact(checks: seq<Check>)
    ensures ExactIntegers(Array(CheckTrees(checks)))
  {
    hide CheckTree;
    forall i | 0 <= i < |checks| ensures ExactIntegers(CheckTree(checks[i])) {
      CheckIsExact(checks[i]);
    }
  }

  lemma ReportIsExact(r: ScanResult, version: cstring)
    requires CountsAreExact(r)
    ensures ExactIntegers(ReportTree(r, version))
  {
    hide DeviceTree, SummaryTree, CheckTree, Strings;
    DeviceIsExact(r.device);
    SummaryIsExact(r);
    assert ExactIntegers(ToolTree(version));
    assert ExactIntegers(ScanTree(r));
    assert ExactIntegers(CapabilitiesTree(r));
    ChecksAreExact(r.checks);
  }

  /** The report parses back, with its checks in order. */
  lemma ReportRoundTrip(r: ScanResult, version: cstring, strtod: string -> real)
    requires CountsAreExact(r) && T.ExactOnIntegers(strtod)
    ensures var tree := ReportTree(r, version);
            && R.Parse(Render(tree), strtod) == Success(tree)
            && R.Get(tree, CHECKS) == Some(Array(CheckTrees(r.checks)))
  {
    hide Render, R.Parse, R.Find;
    ReportIsExact(r, version);
    ReportIsShallow(r, version);
    T.IntegersReadBack(ReportTree(r, version), strtod);
    T.ReadRendered(ReportTree(r, version), strtod);
    Fifth(r, version);
  }

  // ---- reading it back, whatever the sizes ----

  lemma {:induction false} ExactIsPrintable(v: Value)
    requires ExactIntegers(v)
    ensures T.Printable(v)
  {
    match v
    case Array(items) =>
      forall i | 0 <= i < |items| ensures T.Printable(items[i]) { ExactIsPrintable(items[i]); }
    case Object(members) =>
      forall i | 0 <= i < |members| ensures T.Printable(members[i].value) { ExactIsPrintable(members[i].value); }
    case _ =>
  }

  lemma DeviceIsPrintable(device: Device)
    requires device.capacityBytes < 2 * TWO_TO_THE_63 && device.freeBytes < 2 * TWO_TO_THE_63
    ensures T.Printable(DeviceTree(device))
  {
    assert T.Printable(Array(Strings(device.mountPoints)));
  }

  lemma ReportIsPrintable(r: ScanResult, version: cstring)
    requires CountsFit(r)
    ensures T.Printable(ReportTree(r, version))
  {
    hide DeviceTree, SummaryTree, CheckTrees;
    DeviceIsPrintable(r.device);
    SummaryIsExact(r);
    ExactIsPrintable(SummaryTree(r.checks));
    ChecksAreExact(r.checks);
    ExactIsPrintable(Array(CheckTrees(r.checks)));
    assert T.Printable(ToolTree(version));
    assert T.Printable(ScanTree(r));
    assert T.Printable(CapabilitiesTree(r));
  }

  lemma {:induction false} FindHeard(members: seq<Member>, key: cstring, strtod: string -> real)
    ensures R.Find(members, key).Some? ==>
              R.Find(T.HeardMembers(members, strtod), key) == Some(T.Heard(R.Find(members, key).value, strtod))
  {
    hide T.Heard;
    if members != [] && members[0].key != key {
      FindHeard(members[1..], key, strtod);
    }
  }

  lemma ExactIsHeard(v: Value, strtod: string -> real)
    requires ExactIntegers(v) && T.ExactOnIntegers(strtod)
    ensures T.Heard(v, strtod) == v
  {
    hide T.Heard, ExactIntegers, T.ReadsBack, T.Printable;
    T.IntegersReadBack(v, strtod);
    T.ReadsBackIsHeard(v, strtod);
  }

  /** The checks and the summary are read back as they are, whatever strtod makes of the device's sizes. */
  lemma ReportIsRead(r: ScanResult, version: cstring, strtod: string -> real)
    requires CountsFit(r) && T.ExactOnIntegers(strtod)
    ensures var report := R.Parse(Render(ReportTree(r, version)), strtod);
            && report.Success?
            && R.Get(report.value, CHECKS) == Some(Array(CheckTrees(r.checks)))
            && R.Get(report.value, SUMMARY) == Some(SummaryTree(r.checks))
  {
    hide Render, R.Parse, R.Find, ReportMembers, CheckTrees, SummaryTree, T.Printable, ExactIntegers, T.HeardMembers,
         T.ExactOnIntegers, CountsFit;
    ReportIsPrintable(r, version);
    ReportIsShallow(r, version);
    T.ReadPrinted(ReportTree(r, version), strtod);
    Fifth(r, version);
    FindHeard(ReportMembers(r, version), CHECKS, strtod);
    FindHeard(ReportMembers(r, version), SUMMARY, strtod);
    ChecksAreExact(r.checks);
    SummaryIsExact(r);
    ExactIsHeard(Array(CheckTrees(r.checks)), strtod);
    ExactIsHeard(SummaryTree(r.checks), strtod);
  }

  lemma Fifth(r: ScanResult, version: cstring)
    ensures R.Find(ReportMembers(r, version), CHECKS) == Some(Array(CheckTrees(r.checks)))
    ensures R.Find(ReportMembers(r, version), SUMMARY) == Some(SummaryTree(r.checks))
  {
    hide ToolTree, ScanTree, DeviceTree, CapabilitiesTree, SummaryTree, CheckTrees;
    var ms := ReportMembers(r, version);
    R.FindAt(ms, CHECKS, 5);
    R.FindAt(ms, SUMMARY, 6);
  }
}
