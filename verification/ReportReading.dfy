/**
  What a reader of the JSON report (src/reporting/report.c) finds under which name: every field of the
  scan result, each under its own key and each enumeration by its own word.
 */
module ReportReading {
  import opened CText
  import opened ScanModel
  import opened JsonSyntax
  import opened JsonReader
  import Report
  import T = JsonRoundTrip

  // ---- words ----

  function SeverityWord(s: Severity): string {
    match s
    case Info => "info"
    case Warning => "warning"
    case High => "high"
  }

  function CheckWord(s: CheckStatus): string {
    match s
    case Ran => "ran"
    case Skipped => "skipped"
    case NotRun => "failed"
  }

  function ScanWord(s: ScanStatus): string {
    match s
    case Completed => "completed"
    case Aborted => "aborted"
  }

  function BusWord(b: Bus): string {
    match b
    case UnknownBus => "unknown"
    case Usb => "USB"
    case Sata => "SATA"
    case Nvme => "NVMe"
    case Scsi => "SCSI"
    case Sd => "SD"
    case OtherBus => "other"
    case Network => "network"
  }

  lemma WordsAre(s: Severity, c: CheckStatus, t: ScanStatus, b: Bus)
    ensures SeverityText(s) == SeverityWord(s) && CheckStatusText(c) == CheckWord(c)
    ensures ScanStatusText(t) == ScanWord(t) && BusText(b) == BusWord(b)
  {
  }

  // ---- what is told under which key ----

  /** The value of the first member with the key. */
  function First(members: seq<Member>, key: string): Option<Value> {
    if members == [] then None
    else if members[0].key == key then Some(members[0].value)
    else First(members[1..], key)
  }

  function Under(v: Value, key: string): Option<Value> {
    if v.Object? then First(v.members, key) else None
  }

  /** Which is what usbs_json_object_get finds. */
  lemma {:induction false} FirstIsFound(members: seq<Member>, key: cstring)
    ensures First(members, key) == Find(members, key)
  {
    if members != [] && members[0].key != key {
      FirstIsFound(members[1..], key);
    }
  }

  /** Under the key there is this text. */
  predicate Says(v: Value, key: string, text: string) {
    Under(v, key).Some? && Under(v, key).value.String? && Under(v, key).value.s == text
  }

  predicate Counts(v: Value, key: string, n: int) {
    Under(v, key) == Some(Number(n as real))
  }

  predicate Flags(v: Value, key: string, b: bool) {
    Under(v, key) == Some(Bool(b))
  }

  ghost predicate TellsFinding(v: Value, f: Finding) {
    Says(v, "severity", SeverityWord(f.severity)) && Says(v, "path", f.path) && Says(v, "message", f.message)
  }

  ghost predicate TellsFindings(v: Option<Value>, findings: seq<Finding>) {
    && v.Some? && v.value.Array? && |v.value.items| == |findings|
    && forall i | 0 <= i < |findings| :: TellsFinding(v.value.items[i], findings[i])
  }

  ghost predicate TellsCheck(v: Value, c: Check) {
    && Says(v, "id", c.id) && Says(v, "status", CheckWord(c.status))
    && (if c.status == Skipped then Says(v, "skip_reason", c.skipReason) else Under(v, "skip_reason") == None)
    && (if c.status == NotRun || (c.status == Ran && c.message != "") then Says(v, "message", c.message)
        else Under(v, "message") == None)
    && TellsFindings(Under(v, "findings"), c.findings)
  }

  ghost predicate TellsChecks(v: Option<Value>, checks: seq<Check>) {
    && v.Some? && v.value.Array? && |v.value.items| == |checks|
    && forall i | 0 <= i < |checks| :: TellsCheck(v.value.items[i], checks[i])
  }

  ghost predicate TellsPoints(v: Option<Value>, points: seq<cstring>) {
    && v.Some? && v.value.Array? && |v.value.items| == |points|
    && forall i | 0 <= i < |points| :: v.value.items[i] == String(points[i])
  }

  /** The identity and the path of the volume, as far as 1055 characters go. */
  function VolumeIdentity(d: Device): string {
    var whole := d.identity + "/" + d.volumePath;
    if |whole| <= 1055 then whole else whole[..1055]
  }

  ghost predicate TellsDevice(v: Value, d: Device) {
    && Says(v, "identity", d.identity) && Says(v, "bus_type", BusWord(d.bus)) && Says(v, "vendor", d.vendor)
    && Says(v, "product", d.product) && Says(v, "volume_path", d.volumePath) && Says(v, "filesystem", d.filesystem)
    && Says(v, "volume_identity", VolumeIdentity(d))
    && TellsPoints(Under(v, "mount_points"), d.mountPoints) && Flags(v, "media_present", d.mediaPresent)
    && Counts(v, "capacity_bytes", d.capacityBytes) && Counts(v, "free_bytes", d.freeBytes)
  }

  ghost predicate TellsScan(v: Value, r: ScanResult) {
    && Says(v, "scan_id", r.scanId) && Says(v, "started_at", r.startedAt) && Says(v, "finished_at", r.finishedAt)
    && Says(v, "status", ScanWord(r.status))
  }

  ghost predicate TellsSummary(v: Value, checks: seq<Check>) {
    && Counts(v, "checks_run", StatusCount(checks, Ran)) && Counts(v, "checks_skipped", StatusCount(checks, Skipped))
    && Counts(v, "checks_failed", StatusCount(checks, NotRun)) && Counts(v, "findings_count", FindingCount(checks))
  }

  ghost predicate TellsTool(v: Value, version: cstring) {
    Says(v, "name", "USB Sentinel") && Says(v, "version", version)
  }

  ghost predicate TellsCapabilities(v: Value, r: ScanResult) {
    Flags(v, "can_read_raw_volume", r.canReadRawVolume) && Flags(v, "can_read_physical_disk", r.canReadPhysicalDisk)
  }

  /** The whole report. */
  ghost predicate TellsReport(v: Value, r: ScanResult, version: cstring) {
    && Counts(v, "schema_version", 1)
    && Under(v, "tool").Some? && TellsTool(Under(v, "tool").value, version)
    && Under(v, "scan").Some? && TellsScan(Under(v, "scan").value, r)
    && Under(v, "device").Some? && TellsDevice(Under(v, "device").value, r.device)
    && Under(v, "capabilities").Some? && TellsCapabilities(Under(v, "capabilities").value, r)
    && TellsChecks(Under(v, "checks"), r.checks)
    && Under(v, "summary").Some? && TellsSummary(Under(v, "summary").value, r.checks)
  }

  // ---- the report tells it ----

  lemma {:induction false} FirstAt(ms: seq<Member>, key: string, n: nat)
    requires n < |ms| && ms[n].key == key
    requires forall i | 0 <= i < n :: ms[i].key != key
    ensures First(ms, key) == Some(ms[n].value)
    decreases n
  {
    if n > 0 {
      FirstAt(ms[1..], key, n - 1);
    }
  }

  lemma {:induction false} Nowhere(ms: seq<Member>, key: string)
    requires forall i | 0 <= i < |ms| :: ms[i].key != key
    ensures First(ms, key) == None
  {
    if ms != [] {
      Nowhere(ms[1..], key);
    }
  }

  lemma FindingTells(f: Finding)
    ensures TellsFinding(Report.FindingTree(f), f)
  {
    hide First, SeverityText, SeverityWord;
    var ms := Report.FindingTree(f).members;
    WordsAre(f.severity, Ran, Completed, Usb);
    FirstAt(ms, "severity", 0);
    FirstAt(ms, "path", 1);
    FirstAt(ms, "message", 2);
  }

  lemma CheckTells(c: Check)
    ensures TellsCheck(Report.CheckTree(c), c)
  {
    hide First, CheckStatusText, CheckWord, TellsFinding, Report.FindingTrees;
    var ms := Report.CheckTree(c).members;
    WordsAre(Info, c.status, Completed, Usb);
    forall i | 0 <= i < |c.findings| ensures TellsFinding(Report.FindingTrees(c.findings)[i], c.findings[i]) {
      FindingTells(c.findings[i]);
    }
    FirstAt(ms, "id", 0);
    FirstAt(ms, "status", 1);
    FirstAt(ms, "findings", |ms| - 1);
    RemarksTell(c);
  }

  lemma RemarksTell(c: Check)
    ensures var t := Report.CheckTree(c);
            && (if c.status == Skipped then Says(t, "skip_reason", c.skipReason) else Under(t, "skip_reason") == None)
            && (if c.status == NotRun || (c.status == Ran && c.message != "") then Says(t, "message", c.message)
                else Under(t, "message") == None)
  {
    hide First, CheckStatusText, Report.FindingTrees;
    var ms := Report.CheckTree(c).members;
    if |ms| == 4 {
      FirstAt(ms, if c.status == Skipped then "skip_reason" else "message", 2);
    } else {
      Nowhere(ms, "message");
      Nowhere(ms, "skip_reason");
    }
    if c.status == Skipped {
      Nowhere(ms, "message");
    } else {
      Nowhere(ms, "skip_reason");
    }
  }

  lemma NamesTell(d: Device)
    ensures var t := Report.DeviceTree(d);
            Says(t, "identity", d.identity) && Says(t, "bus_type", BusWord(d.bus)) && Says(t, "vendor", d.vendor)
            && Says(t, "product", d.product) && Says(t, "volume_path", d.volumePath)
            && Says(t, "volume_identity", VolumeIdentity(d))
  {
    hide First, BusText, BusWord, Report.DeviceVolume;
    var ms := Report.DeviceTree(d).members;
    WordsAre(Info, Ran, Completed, d.bus);
    FirstAt(ms, "identity", 0);
    FirstAt(ms, "volume_identity", 1);
    FirstAt(ms, "bus_type", 2);
    FirstAt(ms, "vendor", 3);
    FirstAt(ms, "product", 4);
    FirstAt(ms, "volume_path", 5);
  }

  lemma VolumeTells(d: Device)
    ensures var t := Report.DeviceTree(d);
            TellsPoints(Under(t, "mount_points"), d.mountPoints) && Says(t, "filesystem", d.filesystem)
            && Flags(t, "media_present", d.mediaPresent)
            && Counts(t, "capacity_bytes", d.capacityBytes) && Counts(t, "free_bytes", d.freeBytes)
  {
    hide First, BusText;
    var ms := Report.DeviceTree(d).members;
    FirstAt(ms, "mount_points", 6);
    FirstAt(ms, "filesystem", 7);
    FirstAt(ms, "media_present", 8);
    FirstAt(ms, "capacity_bytes", 9);
    FirstAt(ms, "free_bytes", 10);
  }

  lemma PartsTell(r: ScanResult, version: cstring)
    ensures TellsTool(Report.ToolTree(version), version) && TellsScan(Report.ScanTree(r), r)
    ensures TellsCapabilities(Report.CapabilitiesTree(r), r)
  {
    hide First, ScanStatusText, ScanWord;
    WordsAre(Info, Ran, r.status, Usb);
    FirstAt(Report.ToolTree(version).members, "name", 0);
    FirstAt(Report.ToolTree(version).members, "version", 1);
    var scan := Report.ScanTree(r).members;
    FirstAt(scan, "scan_id", 0);
    FirstAt(scan, "started_at", 1);
    FirstAt(scan, "finished_at", 2);
    FirstAt(scan, "status", 3);
    FirstAt(Report.CapabilitiesTree(r).members, "can_read_raw_volume", 0);
    FirstAt(Report.CapabilitiesTree(r).members, "can_read_physical_disk", 1);
  }

  lemma SummaryTells(checks: seq<Check>)
    ensures TellsSummary(Report.SummaryTree(checks), checks)
  {
    hide First, StatusCount, FindingCount;
    var ms := Report.SummaryTree(checks).members;
    FirstAt(ms, "checks_run", 0);
    FirstAt(ms, "checks_skipped", 1);
    FirstAt(ms, "checks_failed", 2);
    FirstAt(ms, "findings_count", 3);
  }

  lemma ReportTells(r: ScanResult, version: cstring)
    ensures TellsReport(Report.ReportTree(r, version), r, version)
  {
    hide First, Report.ToolTree, Report.ScanTree, Report.DeviceTree, Report.CapabilitiesTree, Report.CheckTree,
         Report.SummaryTree, TellsTool, TellsScan, TellsDevice, TellsCapabilities, TellsCheck, TellsSummary, Says;
    var ms := Report.ReportMembers(r, version);
    FirstAt(ms, "schema_version", 0);
    FirstAt(ms, "tool", 1);
    FirstAt(ms, "scan", 2);
    FirstAt(ms, "device", 3);
    FirstAt(ms, "capabilities", 4);
    FirstAt(ms, "checks", 5);
    FirstAt(ms, "summary", 6);
    PartsTell(r, version);
    DeviceTells(r.device);
    SummaryTells(r.checks);
    forall i | 0 <= i < |r.checks| ensures TellsCheck(Report.CheckTree(r.checks[i]), r.checks[i]) {
      CheckTells(r.checks[i]);
    }
  }

  lemma DeviceTells(d: Device)
    ensures TellsDevice(Report.DeviceTree(d), d)
  {
    hide First, Report.DeviceTree, BusWord, TellsPoints, Says, Counts, Flags;
    NamesTell(d);
    VolumeTells(d);
  }

  /** A parser makes a tree of the report's text in which every field is under its own key. */
  lemma ReportIsReadable(r: ScanResult, version: cstring, strtod: string -> real)
    requires Report.CountsAreExact(r) && T.ExactOnIntegers(strtod)
    ensures Parse(Render(Report.ReportTree(r, version)), strtod).Success?
    ensures TellsReport(Parse(Render(Report.ReportTree(r, version)), strtod).value, r, version)
  {
    hide TellsReport, Report.ReportTree, Report.CountsAreExact, T.ExactOnIntegers, Parse, Render;
    Report.ReportRoundTrip(r, version, strtod);
    ReportTells(r, version);
  }

  // ---- and nothing else has the same report ----

  /** Two checks that differ in no more than what the report leaves out. */
  predicate SameReported(a: Check, b: Check) {
    && a.id == b.id && a.status == b.status && a.findings == b.findings
    && (a.status == Skipped ==> a.skipReason == b.skipReason)
    && (a.status != Skipped ==> a.message == b.message)
  }

  lemma WordsDiffer()
    ensures forall s, t: Severity :: SeverityWord(s) == SeverityWord(t) ==> s == t
    ensures forall s, t: CheckStatus :: CheckWord(s) == CheckWord(t) ==> s == t
    ensures forall s, t: ScanStatus :: ScanWord(s) == ScanWord(t) ==> s == t
    ensures forall s, t: Bus :: BusWord(s) == BusWord(t) ==> s == t
  {
  }

  lemma OneCheck(v: Value, a: Check, b: Check)
    requires TellsCheck(v, a) && TellsCheck(v, b)
    ensures SameReported(a, b)
  {
    hide Under, SeverityWord, CheckWord;
    WordsDiffer();
    forall i | 0 <= i < |a.findings| ensures a.findings[i] == b.findings[i] {
      var item := Under(v, "findings").value.items[i];
      assert TellsFinding(item, a.findings[i]) && TellsFinding(item, b.findings[i]);
    }
    assert a.findings == b.findings;
  }

  lemma OneDevice(v: Value, a: Device, b: Device)
    requires TellsDevice(v, a) && TellsDevice(v, b)
    ensures a == b
  {
    hide Under, BusWord;
    WordsDiffer();
    var points := Under(v, "mount_points").value.items;
    forall i | 0 <= i < |a.mountPoints| ensures a.mountPoints[i] == b.mountPoints[i] {
      assert points[i] == String(a.mountPoints[i]) && points[i] == String(b.mountPoints[i]);
    }
    assert a.mountPoints == b.mountPoints;
  }

  /**
    Two scan results with the same report are the same in every field the report is about: the scan,
    the device, the capabilities, and each check with its findings.
   */
  lemma ReportDetermines(v: Value, a: ScanResult, b: ScanResult, version: cstring)
    requires TellsReport(v, a, version) && TellsReport(v, b, version)
    ensures a.scanId == b.scanId && a.startedAt == b.startedAt && a.finishedAt == b.finishedAt && a.status == b.status
    ensures a.device == b.device
    ensures a.canReadRawVolume == b.canReadRawVolume && a.canReadPhysicalDisk == b.canReadPhysicalDisk
    ensures |a.checks| == |b.checks| && forall i | 0 <= i < |a.checks| :: SameReported(a.checks[i], b.checks[i])
  {
    hide Under, ScanWord, TellsDevice, TellsCheck, SameReported, TellsTool, TellsSummary;
    WordsDiffer();
    OneDevice(Under(v, "device").value, a.device, b.device);
    forall i | 0 <= i < |a.checks| ensures SameReported(a.checks[i], b.checks[i]) {
      OneCheck(Under(v, "checks").value.items[i], a.checks[i], b.checks[i]);
    }
  }
}
