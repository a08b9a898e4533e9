/**
  Shortcut inspection (lnk_on_file in src/detectors/lnk_inspect.c): what one .lnk file adds to the
  check, and what the location policy of an internal drive leaves out of it.
 */
module LnkInspect {
  import opened CText
  import opened ScanModel
  import opened Detection
  import Decimal
  import L = Location
  import Lnk
  import LnkParser

  const LNK_MAX_READ := 262144

  /** What opening and reading a file yields: the bytes before its end, and their hash if there is one. */
  datatype Content = Content(bytes: seq<Lnk.byte>, hash: Option<cstring>)

  /** One call of the callback, with what the file would deliver if it can be opened. */
  datatype FileVisit = FileVisit(visit: Visit, content: Option<Content>)

  /** has_lnk_extension. */
  predicate HasLnkExtension(name: cstring) {
    var n := |name|;
    && n >= 4 && name[n - 4] == '.'
    && (name[n - 3] == 'l' || name[n - 3] == 'L')
    && (name[n - 2] == 'n' || name[n - 2] == 'N')
    && (name[n - 1] == 'k' || name[n - 1] == 'K')
  }

  lemma LnkExtensionIgnoresCase(name: cstring)
    ensures HasLnkExtension(name) <==> |name| >= 4 && IEq(name[|name| - 4..], ".lnk")
  {
    if |name| >= 4 {
      var a, b := LowerAll(name[|name| - 4..]), LowerAll(".lnk");
      assert a == b <==> a[0] == b[0] && a[1] == b[1] && a[2] == b[2] && a[3] == b[3];
    }
  }

  // ---- what a shortcut looks like ----

  const INTERPRETERS: seq<string> := [
    "cmd.exe", "powershell.exe", "pwsh.exe", "wscript.exe", "cscript.exe",
    "mshta.exe", "rundll32.exe", "regsvr32.exe", "certutil.exe", "bitsadmin.exe"
  ]

  const MARKERS: seq<cstring> := SWITCHES + CALLS
  const SWITCHES: seq<cstring> := ["-enc", "-encodedcommand", "-nop", "-noprofile", "-w hidden", "-windowstyle hidden"]
  const CALLS: seq<cstring> := ["iex", "invoke-expression", "http://", "https://", "downloadstring", "frombase64string"]

  predicate ContainsAt(text: string, word: string, i: nat)
    requires i + |word| <= |text|
  {
    IEq(text[i..i + |word|], word)
  }

  /** str_ci_contains. */
  predicate Contains(text: string, word: string) {
    word != "" && exists i | 0 <= i <= |text| - |word| :: ContainsAt(text, word, i)
  }

  method ContainsIgnoringCase(text: string, word: string) returns (found: bool)
    ensures found == Contains(text, word)
  {
    if word == "" || |word| > |text| {
      return false;
    }
    for i := 0 to |text| - |word| + 1
      invariant forall k | 0 <= k < i :: !ContainsAt(text, word, k)
    {
      var j := 0;
      while j < |word| && Lower(text[i + j]) == Lower(word[j])
        invariant 0 <= j <= |word|
        invariant forall k | 0 <= k < j :: Lower(text[i + k]) == Lower(word[k])
      {
        j := j + 1;
      }
      if j == |word| {
        assert LowerAll(text[i..i + |word|]) == LowerAll(word);
        assert ContainsAt(text, word, i);
        return true;
      }
      assert LowerAll(text[i..i + |word|])[j] != LowerAll(word)[j];
    }
    return false;
  }

  /** What follows the last separator. */
  function BaseName(path: string): (base: string)
    ensures forall i | 0 <= i < |base| :: !L.IsSep(base[i])
    ensures EndsWith(path, base)
    ensures base == path || L.IsSep(path[|path| - |base| - 1])
  {
    if path == "" || L.IsSep(path[|path| - 1]) then ""
    else BaseName(path[..|path| - 1]) + [path[|path| - 1]]
  }

  lemma BaseNameSnoc(path: string, c: char)
    ensures BaseName(path + [c]) == if L.IsSep(c) then "" else BaseName(path) + [c]
  {
    assert (path + [c])[..|path|] == path;
  }

  method BaseNameOf(path: string) returns (base: string)
    ensures base == BaseName(path)
  {
    hide BaseName;
    var start := 0;
    BaseNameOfNothing();
    for p := 0 to |path|
      invariant start <= p && BaseName(path[..p]) == path[start..p]
    {
      assert path[..p + 1] == path[..p] + [path[p]];
      BaseNameSnoc(path[..p], path[p]);
      if L.IsSep(path[p]) {
        start := p + 1;
      }
    }
    assert path[..|path|] == path;
    return path[start..];
  }

  lemma BaseNameOfNothing()
    ensures BaseName("") == ""
  {
  }

  predicate TargetsInterpreter(target: cstring) {
    target != "" && exists i | 0 <= i < |INTERPRETERS| :: IEq(BaseName(target), INTERPRETERS[i])
  }

  /** The first marker of the list that the arguments contain. */
  function MarkerFrom(arguments: cstring, i: nat): (m: Option<cstring>)
    requires i <= |MARKERS|
    decreases |MARKERS| - i
  {
    if i == |MARKERS| then None
    else if Contains(arguments, MARKERS[i]) then Some(MARKERS[i])
    else MarkerFrom(arguments, i + 1)
  }

  lemma {:induction false} MarkerFound(arguments: cstring, i: nat)
    requires i <= |MARKERS|
    ensures MarkerFrom(arguments, i).Some? <==> exists k | i <= k < |MARKERS| :: Contains(arguments, MARKERS[k])
    decreases |MARKERS| - i
  {
    hide Contains;
    if i < |MARKERS| && !Contains(arguments, MARKERS[i]) {
      MarkerFound(arguments, i + 1);
    }
  }

  method FindMarker(arguments: cstring) returns (marker: Option<cstring>)
    ensures marker == MarkerFrom(arguments, 0)
    ensures marker.Some? <==> exists k | 0 <= k < |MARKERS| :: Contains(arguments, MARKERS[k])
  {
    hide Contains;
    MarkerFound(arguments, 0);
    for i := 0 to |MARKERS|
      invariant MarkerFrom(arguments, i) == MarkerFrom(arguments, 0)
    {
      var found := ContainsIgnoringCase(arguments, MARKERS[i]);
      if found {
        return Some(MARKERS[i]);
      }
    }
    return None;
  }

  // ---- judging one shortcut ----

  datatype Policy = Untuned | AttackShape | SuppressAll

  function PolicyFor(kind: Option<L.Kind>): Policy {
    match kind
    case Some(OsShortcuts) => AttackShape
    case Some(OsComponentStore) => SuppressAll
    case _ => Untuned
  }

  datatype Outcome = Nothing | Counted | Reported(severity: Severity, message: cstring)

  /** A would-be finding that only the strict rules report. */
  function Unless(tuned: bool, severity: Severity, message: cstring): Outcome {
    if tuned then Counted else Reported(severity, message)
  }

  function OversizedText(size: nat): cstring {
    Plain("oversized .lnk file (" + Decimal.IntText(size) + " bytes), not parsed")
  }

  /** Text without NUL, as every literal and every number is. */
  function Plain(s: string): cstring {
    CStr(s)
  }

  function MalformedText(hash: Option<cstring>): cstring {
    Truncated(Plain("malformed or corrupt .lnk file (could not parse)"
                    + (if hash.Some? then ", sha256=" + hash.value else "")), 192)
  }

  function SuspiciousText(parsed: Lnk.Parsed, interpreter: bool, marker: Option<cstring>, hash: Option<cstring>): cstring {
    Truncated(
      Plain("target=" + (if parsed.target != "" then parsed.target else "(none)")
            + (if parsed.arguments != "" then " arguments=" + parsed.arguments else "")
            + (if interpreter then " [interpreter target]" else "")
            + (if marker.Some? then " [suspicious argument: " + marker.value + "]" else "")
            + " sha256=" + (if hash.Some? then hash.value else "(unavailable)")), 1672)
  }

  function JudgeParsed(parsed: Option<Lnk.Parsed>, hash: Option<cstring>, policy: Policy): Outcome {
    if parsed.None? then Unless(policy != Untuned, Warning, MalformedText(hash))
    else
      var interpreter, marker := TargetsInterpreter(parsed.value.target), MarkerFrom(parsed.value.arguments, 0);
      if !interpreter && marker.None? then Nothing
      else
        Unless(policy == SuppressAll || (policy == AttackShape && !(interpreter && marker.Some?)),
               High, SuspiciousText(parsed.value, interpreter, marker, hash))
  }

  function Buffered(bytes: seq<Lnk.byte>): seq<Lnk.byte> {
    L.Take(bytes, LNK_MAX_READ)
  }

  function Judge(file: FileVisit, policy: Policy): Outcome {
    var entry := file.visit.entry;
    if !HasLnkExtension(entry.name) then Nothing
    else if entry.size > LNK_MAX_READ then Unless(policy != Untuned, Warning, OversizedText(entry.size))
    else if file.content.None? then Nothing
    else JudgeParsed(Lnk.Parse(Buffered(file.content.value.bytes)), file.content.value.hash, policy)
  }

  function Inspected(check: Check, ctx: Context, file: FileVisit): Check {
    match Judge(file, PolicyFor(TunedKind(ctx, file.visit.path)))
    case Nothing => check
    case Counted => check.(suppressed := check.suppressed + 1)
    case Reported(severity, message) =>
      Push(check, NewFinding(severity, L.Relative(ctx.volume, file.visit.path), message))
  }

  // ---- the callback ----

  /** The reading loop: however many bytes each read delivers, the buffer holds the first of them. */
  method ReadCapped(bytes: seq<Lnk.byte>, sizes: nat -> nat, buf: array<Lnk.byte>) returns (total: nat)
    requires buf.Length == LNK_MAX_READ && forall k :: sizes(k) > 0
    modifies buf
    ensures total <= buf.Length && buf[..total] == Buffered(bytes)
  {
    total := 0;
    var round := 0;
    while total < LNK_MAX_READ && total < |bytes|
      invariant total <= LNK_MAX_READ && total <= |bytes|
      invariant buf[..total] == bytes[..total]
    {
      var read := sizes(round);
      if read > LNK_MAX_READ - total {
        read := LNK_MAX_READ - total;
      }
      if read > |bytes| - total {
        read := |bytes| - total;
      }
      forall i | 0 <= i < read {
        buf[total + i] := bytes[total + i];
      }
      total := total + read;
      round := round + 1;
    }
  }

  method IsInterpreter(target: cstring) returns (found: bool)
    ensures found == TargetsInterpreter(target)
  {
    hide BaseName, IEq;
    var base := BaseNameOf(target);
    if target == "" {
      return false;
    }
    for i := 0 to |INTERPRETERS|
      invariant forall k | 0 <= k < i :: !IEq(base, INTERPRETERS[k])
    {
      if IEq(base, INTERPRETERS[i]) {
        return true;
      }
    }
    return false;
  }

  method JudgeContent(content: Content, sizes: nat -> nat, policy: Policy) returns (outcome: Outcome)
    requires forall k :: sizes(k) > 0
    ensures outcome == JudgeParsed(Lnk.Parse(Buffered(content.bytes)), content.hash, policy)
  {
    hide TargetsInterpreter, MarkerFrom, Lnk.Parse, Buffered, MalformedText, SuspiciousText;
    var buf := new Lnk.byte[LNK_MAX_READ];
    var total := ReadCapped(content.bytes, sizes, buf);
    var parsed := LnkParser.ParseLnk(buf, total);
    if parsed.None? && policy != Untuned {
      return Counted;
    }
    if parsed.None? {
      return Reported(Warning, MalformedText(content.hash));
    }
    var interpreter := IsInterpreter(parsed.value.target);
    var marker := FindMarker(parsed.value.arguments);
    if (interpreter || marker.Some?)
       && (policy == SuppressAll || (policy == AttackShape && !(interpreter && marker.Some?))) {
      return Counted;
    }
    if interpreter || marker.Some? {
      return Reported(High, SuspiciousText(parsed.value, interpreter, marker, content.hash));
    }
    return Nothing;
  }

  class Slot {
    var check: Check

    constructor ()
      ensures check == InitialCheck("lnk_inspection")
    {
      check := InitialCheck("lnk_inspection");
    }

    /** lnk_on_file. */
    method OnFile(ctx: Context, file: FileVisit, sizes: nat -> nat)
      requires forall k :: sizes(k) > 0
      modifies this
      ensures check == Inspected(old(check), ctx, file)
    {
      hide JudgeParsed, L.Classification, HasLnkExtension, OversizedText;
      var entry := file.visit.entry;
      if !HasLnkExtension(entry.name) {
        return;
      }
      var relative := L.Relative(ctx.volume, file.visit.path);
      var policy := Untuned;
      if L.PolicyApplies(ctx.bus) {
        var kind := L.Classify(relative);
        policy := PolicyFor(Some(kind));
      }
      if entry.size > LNK_MAX_READ && policy != Untuned {
        check := check.(suppressed := check.suppressed + 1);
        return;
      }
      if entry.size > LNK_MAX_READ {
        check := Push(check, NewFinding(Warning, relative, OversizedText(entry.size)));
        return;
      }
      if file.content.None? {
        return;
      }
      var outcome := JudgeContent(file.content.value, sizes, policy);
      match outcome {
        case Nothing =>
        case Counted => check := check.(suppressed := check.suppressed + 1);
        case Reported(severity, message) => check := Push(check, NewFinding(severity, relative, message));
      }
    }
  }

  // ---- nothing disappears uncounted ----

  /** How the policy changes one file's outcome, and how it does not. */
  lemma PolicyOutcome(file: FileVisit, policy: Policy)
    ensures var strict, tuned := Judge(file, Untuned), Judge(file, policy);
            && !strict.Counted?
            && (strict.Nothing? <==> tuned.Nothing?)
            && (tuned.Reported? ==> tuned == strict)
            && (tuned.Counted? ==> policy != Untuned)
  {
    hide HasLnkExtension, TargetsInterpreter, MarkerFrom, Lnk.Parse, MalformedText, SuspiciousText, OversizedText;
  }

  /** An interpreter target with a suspicious argument is reported everywhere but in the component store. */
  lemma AttackIsReported(parsed: Lnk.Parsed, hash: Option<cstring>, policy: Policy)
    requires TargetsInterpreter(parsed.target) && MarkerFrom(parsed.arguments, 0).Some?
    ensures JudgeParsed(Some(parsed), hash, policy).Reported? <==> policy != SuppressAll
    ensures policy != SuppressAll ==> JudgeParsed(Some(parsed), hash, policy).severity == High
  {
    hide TargetsInterpreter, MarkerFrom;
  }

  function InspectedAll(check: Check, ctx: Context, files: seq<FileVisit>): Check {
    if files == [] then check
    else Inspected(InspectedAll(check, ctx, files[..|files| - 1]), ctx, files[|files| - 1])
  }

  ghost predicate Accounted(strict: Check, tuned: Check) {
    && |strict.findings| == |tuned.findings| + tuned.suppressed
    && strict.suppressed == 0 && strict.lowered == 0 && tuned.lowered == 0
    && Subsequence(tuned.findings, strict.findings)
  }

  lemma AccountedStep(strict: Check, tuned: Check, ctx: Context, file: FileVisit)
    requires Accounted(strict, tuned)
    ensures Accounted(Inspected(strict, Strict(ctx), file), Inspected(tuned, ctx, file))
  {
    hide Judge, L.Classification, Subsequence;
    PolicyOutcome(file, PolicyFor(TunedKind(ctx, file.visit.path)));
    var s, relative := Judge(file, Untuned), L.Relative(ctx.volume, file.visit.path);
    if s.Reported? {
      SubsequenceSnoc<Finding>(tuned.findings, strict.findings, NewFinding(s.severity, relative, s.message));
    }
  }

  /**
    Over any sequence of files, the tuned findings are the strict findings, in order and unchanged,
    without those that are counted as suppressed.
   */
  lemma {:induction false} NothingUncounted(ctx: Context, id: cstring, files: seq<FileVisit>)
    ensures Accounted(InspectedAll(InitialCheck(id), Strict(ctx), files),
                      InspectedAll(InitialCheck(id), ctx, files))
    decreases |files|
  {
    hide Inspected;
    if files != [] {
      NothingUncounted(ctx, id, files[..|files| - 1]);
      AccountedStep(InspectedAll(InitialCheck(id), Strict(ctx), files[..|files| - 1]),
                    InspectedAll(InitialCheck(id), ctx, files[..|files| - 1]), ctx, files[|files| - 1]);
    }
  }
}
