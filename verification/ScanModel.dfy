/** The in-memory scan result of include/usbsentinel/scan.h, which every formatter reads. */
module ScanModel {
  import opened CText

  datatype Severity = Info | Warning | High

  datatype CheckStatus = Ran | Skipped | NotRun

  datatype ScanStatus = Completed | Aborted

  datatype Finding = Finding(severity: Severity, path: cstring, message: cstring)

  datatype Check = Check(
    id: cstring,
    status: CheckStatus,
    skipReason: cstring,
    message: cstring,
    findings: seq<Finding>,
    suppressed: nat,
    lowered: nat)

  datatype Bus = UnknownBus | Usb | Sata | Nvme | Scsi | Sd | OtherBus | Network

  /** `identity` is the key usbs_device_identity computes for the device. */
  datatype Device = Device(
    identity: cstring,
    volumePath: cstring,
    mountPoints: seq<cstring>,
    filesystem: cstring,
    capacityBytes: nat,
    freeBytes: nat,
    bus: Bus,
    vendor: cstring,
    product: cstring,
    mediaPresent: bool)

  datatype ScanResult = ScanResult(
    scanId: cstring,
    startedAt: cstring,
    finishedAt: cstring,
    status: ScanStatus,
    device: Device,
    canReadRawVolume: bool,
    canReadPhysicalDisk: bool,
    checks: seq<Check>,
    pathsSkipped: nat,
    pathsExcluded: nat)

  function SeverityText(s: Severity): cstring {
    match s
    case Info => "info"
    case Warning => "warning"
    case High => "high"
  }

  function CheckStatusText(s: CheckStatus): cstring {
    match s
    case Ran => "ran"
    case Skipped => "skipped"
    case NotRun => "failed"
  }

  function ScanStatusText(s: ScanStatus): cstring {
    match s
    case Completed => "completed"
    case Aborted => "aborted"
  }

  function BusText(b: Bus): cstring {
    match b
    case UnknownBus => "unknown"
    case Usb => "USB"
    case Sata => "SATA"
    case Nvme => "NVMe"
    case Scsi => "SCSI"
    case Sd => "SD"
    case OtherBus => "other"
    case Network => "network"
  }

  /** usbs_check_result_init. */
  function InitialCheck(id: cstring): Check {
    Check(id, Ran, "", "", [], 0, 0)
  }

  /** usbs_check_result_set_skipped: findings already recorded are dropped. */
  function SetSkipped(c: Check, reason: cstring): Check {
    c.(findings := [], status := Skipped, skipReason := Truncated(reason, 128))
  }

  function SetFailed(c: Check, message: cstring): Check {
    c.(findings := [], status := NotRun, message := Truncated(message, 256))
  }

  function FindingCount(checks: seq<Check>): nat {
    if checks == [] then 0 else FindingCount(checks[..|checks| - 1]) + |checks[|checks| - 1].findings|
  }

  /** How many checks have a status. */
  function StatusCount(checks: seq<Check>, status: CheckStatus): nat {
    if checks == [] then 0
    else StatusCount(checks[..|checks| - 1], status) + (if checks[|checks| - 1].status == status then 1 else 0)
  }

  function SeverityCountIn(findings: seq<Finding>, severity: Severity): nat {
    if findings == [] then 0
    else SeverityCountIn(findings[..|findings| - 1], severity)
         + (if findings[|findings| - 1].severity == severity then 1 else 0)
  }

  function SeverityCount(checks: seq<Check>, severity: Severity): nat {
    if checks == [] then 0
    else SeverityCount(checks[..|checks| - 1], severity) + SeverityCountIn(checks[|checks| - 1].findings, severity)
  }
}
