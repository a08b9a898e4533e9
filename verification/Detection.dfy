/** What the scanner hands to a per-file detector (include/usbsentinel/detector.h, platform.h). */
module Detection {
  import opened CText
  import opened ScanModel
  import Location

  /** The device and volume under scan. */
  datatype Context = Context(volume: cstring, bus: Bus)

  /** One entry of a directory listing. */
  datatype Entry = Entry(name: cstring, isDirectory: bool, isReparsePoint: bool, isHidden: bool, size: nat)

  /** One call of a per-file detector. */
  datatype Visit = Visit(path: cstring, entry: Entry)

  /** The location of a path under the policy; None under the strict rules. */
  function TunedKind(ctx: Context, path: cstring): Option<Location.Kind> {
    if Location.PolicyApplies(ctx.bus) then
      Some(Location.Classification(Location.Relative(ctx.volume, path)))
    else None
  }

  /** The same scan under the strict rules. */
  function Strict(ctx: Context): Context {
    ctx.(bus := Usb)
  }

  /** A finding as the fixed-size fields of usbs_finding_t hold it. */
  function NewFinding(severity: Severity, path: cstring, message: cstring): Finding {
    Finding(severity, Truncated(path, 1024), Truncated(message, 256))
  }

  function Push(check: Check, finding: Finding): Check {
    check.(findings := check.findings + [finding])
  }

  /** How many findings are below High. */
  function BelowHigh(findings: seq<Finding>): nat {
    if findings == [] then 0
    else BelowHigh(findings[..|findings| - 1]) + (if findings[|findings| - 1].severity == High then 0 else 1)
  }

  lemma BelowHighSnoc(findings: seq<Finding>, f: Finding)
    ensures BelowHigh(findings + [f]) == BelowHigh(findings) + (if f.severity == High then 0 else 1)
  {
    assert (findings + [f])[..|findings|] == findings;
  }

  /** `a` is `b` with some elements left out. */
  predicate Subsequence<T(==)>(a: seq<T>, b: seq<T>)
    decreases |b|
  {
    if b == [] then a == []
    else
      || Subsequence(a, b[..|b| - 1])
      || (a != [] && a[|a| - 1] == b[|b| - 1] && Subsequence(a[..|a| - 1], b[..|b| - 1]))
  }

  lemma SubsequenceSnoc<T>(a: seq<T>, b: seq<T>, x: T)
    requires Subsequence(a, b)
    ensures Subsequence(a, b + [x]) && Subsequence(a + [x], b + [x])
  {
    assert (a + [x])[..|a|] == a && (b + [x])[..|b|] == b;
  }
}
