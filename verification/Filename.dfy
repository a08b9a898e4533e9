/**
  Suspicious filename inspection (src/detectors/suspicious_filename.c): four rules about a name, and
  the weighing of one of them by location on an internal drive.
 */
module Filename {
  import opened CText
  import opened ScanModel
  import opened Detection
  import L = Location

  const EXECUTABLE := [
    "exe", "scr", "bat", "cmd", "com", "pif", "vbs", "vbe", "js", "jse",
    "wsf", "wsh", "msi", "ps1", "lnk", "hta", "jar", "cpl", "msc", "reg"
  ]
  const NATIVE := ["exe", "scr", "com", "pif", "cpl", "msi"]
  const DOCUMENT := [
    "pdf", "doc", "docx", "xls", "xlsx", "ppt", "pptx", "txt", "rtf", "csv",
    "jpg", "jpeg", "png", "gif", "bmp", "mp3", "mp4", "avi", "mov", "zip", "rar", "7z"
  ]

  predicate InSet(value: string, names: seq<string>) {
    exists i | 0 <= i < |names| :: IEq(value, names[i])
  }

  // ---- extensions ----

  /** The position of the last dot, or -1. */
  function LastDot(s: string): (d: int)
    ensures -1 <= d < |s|
    ensures d >= 0 ==> s[d] == '.'
    ensures forall i | d < i < |s| :: s[i] != '.'
  {
    if s == "" then -1
    else if s[|s| - 1] == '.' then |s| - 1
    else LastDot(s[..|s| - 1])
  }

  /** Where the n-th extension from the end starts; a dot at the front of the name counts. */
  function NthStart(name: string, n: nat): (k: Option<nat>)
    requires n > 0
    ensures k.Some? ==> 0 < k.value <= |name| && name[k.value - 1] == '.'
    decreases n
  {
    var d := LastDot(name);
    if d < 0 then None else if n == 1 then Some(d + 1) else NthStart(name[..d], n - 1)
  }

  function Extension(name: cstring): Option<cstring> {
    var k := NthStart(name, 1);
    if k.None? then None else Some(name[k.value..])
  }

  predicate HasExecutableExtension(name: cstring) {
    Extension(name).Some? && InSet(Extension(name).value, EXECUTABLE)
  }

  /** One step of the scan from the end. */
  lemma NthStartStep(name: string, n: nat)
    requires n > 0 && name != ""
    ensures NthStart(name, n) ==
            if name[|name| - 1] != '.' then NthStart(name[..|name| - 1], n)
            else if n == 1 then Some(|name|)
            else NthStart(name[..|name| - 1], n - 1)
  {
    var before := name[..|name| - 1];
    if name[|name| - 1] != '.' {
      var d := LastDot(before);
      assert LastDot(name) == d;
      if d >= 0 {
        assert name[..d] == before[..d];
      }
    }
  }

  function DotCount(name: string): nat {
    if name == "" then 0
    else DotCount(name[..|name| - 1]) + (if name[|name| - 1] == '.' then 1 else 0)
  }

  /**
    The leading dot of a name is promised never to be taken for a separator.  It is taken for one
    exactly when it is the n-th dot from the end, whatever follows it.
   */
  lemma {:induction false} LeadingDotIff(name: string, n: nat)
    requires n > 0
    ensures NthStart(name, n) == Some(1) <==> name != "" && name[0] == '.' && DotCount(name) == n
  {
    hide NthStart;
    if name == "" {
      NoDotInNothing(n);
    } else {
      var front := name[..|name| - 1];
      NthStartStep(name, n);
      if name[|name| - 1] != '.' {
        LeadingDotIff(front, n);
      } else if n > 1 {
        LeadingDotIff(front, n - 1);
      } else {
        assert |name| == 1 ==> front == "";
        NoDots(front);
      }
    }
  }

  lemma {:induction false} NoDots(name: string)
    ensures DotCount(name) == 0 <==> '.' !in name
  {
    if name != "" {
      var front := name[..|name| - 1];
      NoDots(front);
      assert name == front + [name[|name| - 1]];
    }
  }

  /** nth_extension_from_end. */
  method NthExtensionFromEnd(name: string, n: nat) returns (k: Option<nat>)
    requires n > 0
    ensures k == NthStart(name, n)
  {
    hide NthStart;
    var seen, p := 0, |name|;
    assert name[..p] == name;
    while p > 0
      invariant 0 <= p <= |name| && seen < n
      invariant NthStart(name, n) == NthStart(name[..p], n - seen)
    {
      NthStartStep(name[..p], n - seen);
      assert name[..p][..p - 1] == name[..p - 1];
      if name[p - 1] == '.' {
        seen := seen + 1;
        if seen == n {
          return Some(p);
        }
      }
      p := p - 1;
    }
    NoDotInNothing(n - seen);
    assert name[..0] == "";
    return None;
  }

  lemma NoDotInNothing(n: nat)
    requires n > 0
    ensures NthStart("", n) == None
  {
  }

  // ---- the rules ----

  /** A document extension directly before an executable one. */
  datatype Disguise = Disguise(document: cstring, executable: cstring)

  function DisguiseOf(name: cstring): Option<Disguise> {
    var last, second := NthStart(name, 1), NthStart(name, 2);
    if last.None? || !InSet(name[last.value..], EXECUTABLE) || second.None? then None
    else if last.value - 1 <= second.value || last.value - 1 - second.value >= 16 then None
    else if !InSet(name[second.value..last.value - 1], DOCUMENT) then None
    else Some(Disguise(name[second.value..last.value - 1], name[last.value..]))
  }

  /** A name that ends in .document.executable. */
  ghost predicate IsDisguised(name: cstring, stem: string, d: Disguise) {
    && name == stem + "." + d.document + "." + d.executable
    && '.' !in d.document && '.' !in d.executable
    && InSet(d.document, DOCUMENT) && InSet(d.executable, EXECUTABLE)
  }

  lemma LastDotIs(s: string, d: nat)
    requires d < |s| && s[d] == '.' && forall i | d < i < |s| :: s[i] != '.'
    ensures LastDot(s) == d
  {
  }

  lemma InSetLength(value: string, names: seq<string>, max: nat)
    requires InSet(value, names) && forall i | 0 <= i < |names| :: 0 < |names[i]| <= max
    ensures 0 < |value| <= max
  {
    var i :| 0 <= i < |names| && IEq(value, names[i]);
    assert |LowerAll(value)| == |LowerAll(names[i])|;
  }

  lemma SetLengths()
    ensures forall i | 0 <= i < |DOCUMENT| :: 0 < |DOCUMENT[i]| <= 4
    ensures forall i | 0 <= i < |EXECUTABLE| :: 0 < |EXECUTABLE[i]| <= 3
  {
  }

  /** The rule finds exactly the names of that shape; a stem may be empty. */
  lemma DisguiseShape(name: cstring, d: Disguise)
    ensures DisguiseOf(name) == Some(d) <==> exists stem :: IsDisguised(name, stem, d)
  {
    hide InSet, IEq;
    if DisguiseOf(name) == Some(d) {
      DisguiseHasShape(name, d);
    }
    forall stem | IsDisguised(name, stem, d) ensures DisguiseOf(name) == Some(d) {
      DisguiseFound(name, stem, d);
    }
  }

  lemma DisguiseHasShape(name: cstring, d: Disguise)
    requires DisguiseOf(name) == Some(d)
    ensures exists stem :: IsDisguised(name, stem, d)
  {
    hide InSet, IEq, LastDot;
    var last := LastDot(name);
    var second := LastDot(name[..last]);
    var stem := name[..second];
    assert NthStart(name, 2) == Some(second + 1);
    assert name[second + 1..last] == name[..last][second + 1..];
    assert name == stem + "." + d.document + "." + d.executable by {
      assert name[..last] == stem + "." + d.document;
      assert name == name[..last] + "." + name[last + 1..];
    }
    assert IsDisguised(name, stem, d);
  }

  lemma DisguiseFound(name: cstring, stem: string, d: Disguise)
    requires IsDisguised(name, stem, d)
    ensures DisguiseOf(name) == Some(d)
  {
    hide InSet, IEq, NthStart;
    SetLengths();
    InSetLength(d.document, DOCUMENT, 4);
    LastPart(stem + "." + d.document, d.executable);
    LastPart(stem, d.document);
    SecondPart(name, stem + "." + d.document, d.executable);
    assert name[|stem| + 1..|stem| + 1 + |d.document|] == d.document;
  }

  /** What follows the last dot. */
  lemma LastPart(front: string, extension: string)
    requires '.' !in extension
    ensures var s := front + "." + extension;
            LastDot(s) == |front| && s[..|front|] == front && s[|front| + 1..] == extension && NthStart(s, 1) == Some(|front| + 1)
  {
    hide LastDot;
    var s := front + "." + extension;
    assert forall i | |front| < i < |s| :: s[i] == extension[i - |front| - 1];
    LastDotIs(s, |front|);
  }

  lemma SecondPart(name: string, front: string, extension: string)
    requires name == front + "." + extension && '.' !in extension
    ensures NthStart(name, 2) == NthStart(front, 1)
  {
    hide LastDot;
    LastPart(front, extension);
  }

  /** Names that are all extension: the leading dot is taken for a separator, and the rules report them. */
  lemma DotfilesAreReported()
    ensures NthStart(".exe", 1) == Some(1) && HasExecutableExtension(".exe")
    ensures NthStart(".pdf.exe", 2) == Some(1) && DisguiseOf(".pdf.exe") == Some(Disguise("pdf", "exe"))
  {
    hide NthStart, DisguiseOf, HasExecutableExtension, InSet;
    Sets();
    ShortDotfile(".exe");
    LongDotfile(".pdf.exe");
    assert ".pdf.exe" == "" + "." + "pdf" + "." + "exe";
    DisguiseFound(".pdf.exe", "", Disguise("pdf", "exe"));
  }

  lemma ShortDotfile(name: cstring)
    requires name == ".exe"
    ensures NthStart(name, 1) == Some(1) && HasExecutableExtension(name)
  {
    hide InSet, IEq, LastDot;
    Sets();
    LastDotIs(name, 0);
    assert name[1..] == "exe";
  }

  lemma LongDotfile(name: cstring)
    requires name == ".pdf.exe"
    ensures NthStart(name, 2) == Some(1)
  {
    hide LastDot;
    LastDotIs(name, 4);
    LastDotIs(name[..4], 0);
  }

  lemma Sets()
    ensures InSet("pdf", DOCUMENT) && InSet("exe", EXECUTABLE)
  {
    assert IEq("pdf", DOCUMENT[0]) && IEq("exe", EXECUTABLE[0]);
  }

  /** U+202A to U+202E, three bytes each in UTF-8. */
  predicate BidiAt(name: string, i: nat)
    requires i + 3 <= |name|
  {
    name[i] as int == 0xE2 && name[i + 1] as int == 0x80 && 0xAA <= name[i + 2] as int <= 0xAE
  }

  predicate HasBidi(name: cstring) {
    exists i | 0 <= i <= |name| - 3 :: BidiAt(name, i)
  }

  method HasBidiOverride(name: cstring) returns (found: bool)
    ensures found == HasBidi(name)
  {
    var p := 0;
    while p + 2 < |name|
      invariant 0 <= p
      invariant forall i | 0 <= i < p && i <= |name| - 3 :: !BidiAt(name, i)
    {
      if name[p] as int == 0xE2 && name[p + 1] as int == 0x80 && 0xAA <= name[p + 2] as int <= 0xAE {
        assert BidiAt(name, p);
        return true;
      }
      p := p + 1;
    }
    return false;
  }

  /** Four spaces from `i` on. */
  predicate FourSpaces(name: string, i: nat)
    requires i + 4 <= |name|
  {
    name[i] == ' ' && name[i + 1] == ' ' && name[i + 2] == ' ' && name[i + 3] == ' '
  }

  predicate HasPadding(name: cstring) {
    && HasExecutableExtension(name)
    && exists i | 0 <= i <= NthStart(name, 1).value - 4 :: FourSpaces(name, i)
  }

  method HasSpacePadding(name: cstring) returns (found: bool)
    ensures found == HasPadding(name)
  {
    hide InSet, LastDot;
    var last := NthExtensionFromEnd(name, 1);
    if last.None? || !InSet(name[last.value..], EXECUTABLE) {
      return false;
    }
    var run := 0;
    for p := 0 to last.value
      invariant 0 <= run <= p && run < 4
      invariant forall i | p - run <= i < p :: name[i] == ' '
      invariant p - run > 0 ==> name[p - run - 1] != ' '
      invariant forall i | 0 <= i <= p - 4 :: !FourSpaces(name, i)
    {
      if name[p] == ' ' {
        run := run + 1;
        if run >= 4 {
          assert FourSpaces(name, p - 3);
          return true;
        }
      } else {
        run := 0;
      }
    }
    return false;
  }

  const BIDI: cstring := BIDI_START + BIDI_END
  const BIDI_START: cstring := "filename contains a "
  const BIDI_END: cstring := "Unicode bidi-override character"
  const PADDING: cstring := PADDING_START + PADDING_END
  const PADDING_START: cstring := "long space padding "
  const PADDING_END: cstring := "hides the real extension"
  const HIDDEN: cstring := "hidden/system-attributed executable"

  /** The rules that are High on every device and in every location. */
  function HighReasons(name: cstring, hidden: bool): seq<cstring> {
    (if HasBidi(name) then [BIDI] else [])
    + (if HasPadding(name) then [PADDING] else [])
    + (if hidden && HasExecutableExtension(name) then [HIDDEN] else [])
  }

  function DisguiseText(d: Disguise): cstring {
    "double extension disguise (." + d.document + "." + d.executable + ")"
  }

  function Annotated(text: cstring, kind: L.Kind): cstring {
    text + " [internal drive, " + L.KindText(kind) + "]"
  }

  function Join(reasons: seq<cstring>): cstring {
    if reasons == [] then ""
    else
      var before := Join(reasons[..|reasons| - 1]);
      before + (if before == "" then "" else "; ") + reasons[|reasons| - 1]
  }

  // ---- weighing ----

  datatype Verdict = Default | Lowered(severity: Severity) | Suppressed

  /** weigh_double_extension. */
  function Weigh(kind: L.Kind, executable: cstring): Verdict {
    match kind
    case UserExposed => Default
    case RecentItems => if IEq(executable, "lnk") then Suppressed else Lowered(Warning)
    case DependencyTree => Lowered(if InSet(executable, NATIVE) then Warning else Info)
    case _ => Lowered(Warning)
  }

  function VerdictOf(d: Disguise, tuned: Option<L.Kind>): Verdict {
    if tuned.None? then Default else Weigh(tuned.value, d.executable)
  }

  /** What happens to a file: nothing, only counted as tuned out, or reported. */
  datatype Outcome = Nothing | Counted | Reported(severity: Severity, message: cstring, lowered: bool)

  function Report(severity: Severity, reasons: seq<cstring>, lowered: bool): Outcome {
    Reported(severity, Join(reasons), lowered)
  }

  function Judge(name: cstring, hidden: bool, tuned: Option<L.Kind>): Outcome {
    var high := HighReasons(name, hidden);
    match DisguiseOf(name)
    case None => if high == [] then Nothing else Report(High, high, false)
    case Some(d) =>
      match VerdictOf(d, tuned)
      case Default => Report(High, [DisguiseText(d)] + high, false)
      case Suppressed => if high == [] then Counted else Report(High, high, false)
      case Lowered(severity) =>
        var reasons := [Annotated(DisguiseText(d), tuned.value)] + high;
        if high == [] then Report(severity, reasons, true) else Report(High, reasons, false)
  }

  function Inspected(check: Check, ctx: Context, visit: Visit): Check {
    match Judge(visit.entry.name, visit.entry.isHidden, TunedKind(ctx, visit.path))
    case Nothing => check
    case Counted => check.(suppressed := check.suppressed + 1)
    case Reported(severity, message, lowered) =>
      var pushed := Push(check, NewFinding(severity, L.Relative(ctx.volume, visit.path), message));
      if lowered then pushed.(lowered := pushed.lowered + 1) else pushed
  }

  // ---- the reasons buffer never truncates ----

  const MESSAGE_MAX := 256

  lemma JoinSnoc(reasons: seq<cstring>, r: cstring)
    ensures Join(reasons + [r]) == Join(reasons) + (if Join(reasons) == "" then "" else "; ") + r
  {
    assert (reasons + [r])[..|reasons|] == reasons;
  }

  lemma TextLengths(d: Disguise, kind: L.Kind)
    requires InSet(d.document, DOCUMENT) && InSet(d.executable, EXECUTABLE)
    ensures 0 < |DisguiseText(d)| <= 37 && 0 < |Annotated(DisguiseText(d), kind)| <= 82
  {
    hide InSet;
    SetLengths();
    InSetLength(d.document, DOCUMENT, 4);
    InSetLength(d.executable, EXECUTABLE, 3);
    KindTextLength(kind);
  }

  lemma KindTextLength(kind: L.Kind)
    ensures |L.KindText(kind)| <= 26
  {
  }

  /** The reasons so far, and how much of the buffer the code counts as used. */
  method AppendReason(reasons: cstring, used: nat, text: cstring) returns (reasons': cstring, used': nat)
    requires used == |reasons| < MESSAGE_MAX && text != ""
    requires |reasons| + 2 + |text| < MESSAGE_MAX
    ensures reasons' == reasons + (if reasons == "" then "" else "; ") + text
    ensures used' == |reasons'| < MESSAGE_MAX
  {
    var appended: cstring := (if used > 0 then "; " else "") + text;
    reasons' := reasons[..used] + Truncated(appended, MESSAGE_MAX - used);
    used' := used;
    if |appended| < MESSAGE_MAX - used {
      used' := used + |appended|;
    }
    assert reasons + ((if reasons == "" then "" else "; ") + text)
        == reasons + (if reasons == "" then "" else "; ") + text;
  }

  lemma HighReasonLengths()
    ensures 0 < |BIDI| <= 51 && 0 < |PADDING| <= 43 && 0 < |HIDDEN| <= 35
  {
  }

  // ---- inspecting one file ----

  /** has_double_extension_disguise, without the text. */
  method FindDisguise(name: cstring) returns (d: Option<Disguise>)
    ensures d == DisguiseOf(name)
  {
    hide InSet, LastDot, NthStart;
    var last := NthExtensionFromEnd(name, 1);
    if last.None? || !InSet(name[last.value..], EXECUTABLE) {
      return None;
    }
    var second := NthExtensionFromEnd(name, 2);
    if second.None? || last.value - 1 <= second.value {
      return None;
    }
    var length := last.value - 1 - second.value;
    if length == 0 || length >= 16 || !InSet(name[second.value..last.value - 1], DOCUMENT) {
      return None;
    }
    return Some(Disguise(name[second.value..last.value - 1], name[last.value..]));
  }

  /** The part of the reasons that a disguise contributes. */
  function DisguiseReasons(d: Option<Disguise>, tuned: Option<L.Kind>): seq<cstring> {
    if d.None? then []
    else
      match VerdictOf(d.value, tuned)
      case Default => [DisguiseText(d.value)]
      case Suppressed => []
      case Lowered(_) => [Annotated(DisguiseText(d.value), tuned.value)]
  }

  /** A single reason in an empty buffer. */
  method FirstReason(text: cstring) returns (reasons: cstring, used: nat)
    requires 0 < |text| <= 82
    ensures reasons == text == Join([text]) && used == |reasons|
  {
    reasons, used := AppendReason("", 0, text);
    JoinSnoc([], text);
    assert [] + [text] == [text];
  }

  method WeighDisguise(d: Disguise, tuned: Option<L.Kind>)
    returns (reasons: cstring, used: nat, severity: Severity, high: bool, lowered: bool, suppressed: bool)
    requires InSet(d.document, DOCUMENT) && InSet(d.executable, EXECUTABLE)
    ensures reasons == Join(DisguiseReasons(Some(d), tuned)) && used == |reasons| <= 82
    ensures used > 0 <==> DisguiseReasons(Some(d), tuned) != []
    ensures var verdict := VerdictOf(d, tuned);
            && high == verdict.Default? && lowered == verdict.Lowered? && suppressed == verdict.Suppressed?
            && severity == if verdict.Lowered? then verdict.severity else Info
  {
    hide InSet, L.KindText, DisguiseText, Annotated, Weigh, Join;
    reasons, used, severity := "", 0, Info;
    high, lowered, suppressed := false, false, false;
    TextLengths(d, if tuned.Some? then tuned.value else L.Ordinary);
    var text := Truncated(DisguiseText(d), 128);
    if tuned.None? {
      high := true;
      reasons, used := FirstReason(text);
      return;
    }
    WeighIsLowering(tuned.value, d.executable);
    var verdict := Weigh(tuned.value, d.executable);
    if verdict.Suppressed? {
      suppressed := true;
      NoReasons();
      return;
    }
    var annotated := text;
    if verdict.Lowered? {
      annotated := Truncated(Annotated(text, tuned.value), 192);
      lowered := true;
      if verdict.severity == Warning {
        severity := Warning;
      }
    } else {
      high := true;
    }
    reasons, used := FirstReason(annotated);
  }

  lemma NoReasons()
    ensures Join([]) == ""
  {
  }

  lemma WeighIsLowering(kind: L.Kind, executable: cstring)
    ensures Weigh(kind, executable).Lowered? ==> Weigh(kind, executable).severity != High
  {
  }

  method AppendIf(found: bool, reasons: cstring, used: nat, text: cstring, high: bool, ghost so: seq<cstring>)
    returns (reasons': cstring, used': nat, high': bool)
    requires reasons == Join(so) && used == |reasons| && 0 < |text| <= 51 && |reasons| + 53 < MESSAGE_MAX
    requires used > 0 <==> so != []
    ensures reasons' == Join(so + if found then [text] else [])
    ensures used' == |reasons'| <= used + if found then 2 + |text| else 0
    ensures used' > 0 <==> so + (if found then [text] else []) != []
    ensures high' == (high || found)
  {
    reasons', used', high' := reasons, used, high;
    if found {
      JoinSnoc(so, text);
      reasons', used' := AppendReason(reasons, used, text);
      high' := true;
    } else {
      assert so + [] == so;
    }
  }

  /** The three rules that are always High. */
  method AppendHighReasons(name: cstring, hidden: bool, reasons: cstring, used: nat, high: bool, ghost so: seq<cstring>)
    returns (reasons': cstring, used': nat, high': bool)
    requires reasons == Join(so) && used == |reasons| <= 82 && (used > 0 <==> so != [])
    ensures reasons' == Join(so + HighReasons(name, hidden))
    ensures used' > 0 <==> so + HighReasons(name, hidden) != []
    ensures high' == (high || HighReasons(name, hidden) != [])
  {
    hide InSet, HasBidi, HasPadding, NthStart, Join, BIDI, PADDING, HIDDEN;
    HighReasonLengths();
    ghost var all := so;
    var bidi := HasBidiOverride(name);
    reasons', used', high' := AppendIf(bidi, reasons, used, BIDI, high, all);
    all := all + if bidi then [BIDI] else [];
    var padding := HasSpacePadding(name);
    reasons', used', high' := AppendIf(padding, reasons', used', PADDING, high', all);
    all := all + if padding then [PADDING] else [];
    var last := NthExtensionFromEnd(name, 1);
    var executable := hidden && last.Some? && InSet(name[last.value..], EXECUTABLE);
    reasons', used', high' := AppendIf(executable, reasons', used', HIDDEN, high', all);
    assert all + (if executable then [HIDDEN] else []) == so + HighReasons(name, hidden);
  }

  /** The verdict on a disguise and the rules that are always High, put together. */
  lemma JudgeIs(name: cstring, hidden: bool, tuned: Option<L.Kind>)
    ensures var (d, high) := (DisguiseOf(name), HighReasons(name, hidden));
            var so := DisguiseReasons(d, tuned) + high;
            Judge(name, hidden, tuned) ==
            if so == [] then if d.Some? && VerdictOf(d.value, tuned).Suppressed? then Counted else Nothing
            else if high != [] || (d.Some? && VerdictOf(d.value, tuned).Default?) then Reported(High, Join(so), false)
            else Reported(VerdictOf(d.value, tuned).severity, Join(so), true)
  {
    hide HighReasons, DisguiseOf, Join, DisguiseText, Annotated, Weigh;
    var high := HighReasons(name, hidden);
    assert [] + high == high;
    if high == [] && DisguiseOf(name).Some? {
      var d := DisguiseOf(name).value;
      assert [DisguiseText(d)] + high == [DisguiseText(d)];
    }
  }

  /** The body of suspicious_filename_on_file, up to what it does to the result. */
  method JudgeFile(name: cstring, hidden: bool, tuned: Option<L.Kind>) returns (outcome: Outcome)
    ensures outcome == Judge(name, hidden, tuned)
  {
    hide InSet, HighReasons, DisguiseOf, Join, DisguiseText, Annotated, Weigh, Judge;
    var d := FindDisguise(name);
    var reasons, used, severity, high, lowered, suppressed := "", 0, Info, false, false, false;
    NoReasons();
    if d.Some? {
      IsInSets(name);
      if tuned.Some? {
        WeighIsLowering(tuned.value, d.value.executable);
      }
      reasons, used, severity, high, lowered, suppressed := WeighDisguise(d.value, tuned);
    }
    reasons, used, high := AppendHighReasons(name, hidden, reasons, used, high, DisguiseReasons(d, tuned));
    if high {
      severity := High;
    }
    if used > 0 {
      outcome := Reported(severity, reasons, lowered && severity != High);
    } else if suppressed {
      outcome := Counted;
    } else {
      outcome := Nothing;
    }
    JudgeIs(name, hidden, tuned);
  }

  lemma IsInSets(name: cstring)
    ensures var d := DisguiseOf(name);
            d.Some? ==> InSet(d.value.document, DOCUMENT) && InSet(d.value.executable, EXECUTABLE)
  {
    hide InSet, NthStart;
  }

  /** The detector's slot in the scanner: the check it appends to. */
  class Slot {
    var check: Check

    constructor ()
      ensures check == InitialCheck("suspicious_filename")
    {
      check := InitialCheck("suspicious_filename");
    }

    /** suspicious_filename_on_file. */
    method OnFile(ctx: Context, visit: Visit)
      modifies this
      ensures check == Inspected(old(check), ctx, visit)
    {
      hide Judge, L.Classification;
      var relative := L.Relative(ctx.volume, visit.path);
      var tuned: Option<L.Kind> := None;
      if L.PolicyApplies(ctx.bus) {
        var kind := L.Classify(relative);
        tuned := Some(kind);
      }
      var outcome := JudgeFile(visit.entry.name, visit.entry.isHidden, tuned);
      match outcome {
        case Nothing =>
        case Counted => check := check.(suppressed := check.suppressed + 1);
        case Reported(severity, message, lowered) =>
          check := Push(check, NewFinding(severity, relative, message));
          if lowered {
            check := check.(lowered := check.lowered + 1);
          }
      }
    }
  }

  // ---- nothing disappears uncounted ----

  /** How the policy changes one file's outcome, and how it does not. */
  lemma PolicyOutcome(name: cstring, hidden: bool, kind: L.Kind)
    ensures var strict, tuned := Judge(name, hidden, None), Judge(name, hidden, Some(kind));
            && (strict.Nothing? <==> tuned.Nothing?)
            && (strict.Reported? ==> strict.severity == High && !strict.lowered)
            && !strict.Counted?
            && (tuned.Counted? ==> kind == L.RecentItems && HighReasons(name, hidden) == [])
            && (tuned.Reported? ==> (tuned.lowered <==> tuned.severity != High))
            && (HighReasons(name, hidden) != [] ==> tuned.Reported? && tuned.severity == High)
            && (kind == L.UserExposed ==> tuned == strict)
  {
    hide HighReasons, Join, DisguiseOf, DisguiseText, Annotated, InSet, IEq;
    if DisguiseOf(name).Some? {
      WeighIsLowering(kind, DisguiseOf(name).value.executable);
    }
  }

  function InspectedAll(check: Check, ctx: Context, visits: seq<Visit>): Check {
    if visits == [] then check
    else Inspected(InspectedAll(check, ctx, visits[..|visits| - 1]), ctx, visits[|visits| - 1])
  }

  /** The strict account of a scan beside the tuned account of the same scan. */
  ghost predicate Accounted(strict: Check, tuned: Check) {
    && |strict.findings| == |tuned.findings| + tuned.suppressed
    && strict.suppressed == 0 && strict.lowered == 0 && BelowHigh(strict.findings) == 0
    && tuned.lowered == BelowHigh(tuned.findings)
    && Subsequence(PathsOf(tuned.findings), PathsOf(strict.findings))
  }

  function PathsOf(findings: seq<Finding>): seq<cstring> {
    seq(|findings|, i requires 0 <= i < |findings| => findings[i].path)
  }

  lemma PathsSnoc(findings: seq<Finding>, f: Finding)
    ensures PathsOf(findings + [f]) == PathsOf(findings) + [f.path]
  {
  }

  lemma AccountedStep(strict: Check, tuned: Check, ctx: Context, visit: Visit)
    requires Accounted(strict, tuned)
    ensures Accounted(Inspected(strict, Strict(ctx), visit), Inspected(tuned, ctx, visit))
  {
    hide Judge, L.Classification, BelowHigh, Subsequence, PathsOf;
    var name, hidden := visit.entry.name, visit.entry.isHidden;
    PolicyOutcome(name, hidden, if TunedKind(ctx, visit.path).Some? then TunedKind(ctx, visit.path).value else L.Ordinary);
    var relative := L.Relative(ctx.volume, visit.path);
    var s, t := Judge(name, hidden, None), Judge(name, hidden, TunedKind(ctx, visit.path));
    if s.Reported? {
      BelowHighSnoc(strict.findings, NewFinding(s.severity, relative, s.message));
      PathsSnoc(strict.findings, NewFinding(s.severity, relative, s.message));
      SubsequenceSnoc<cstring>(PathsOf(tuned.findings), PathsOf(strict.findings), Truncated(relative, 1024));
    }
    if t.Reported? {
      BelowHighSnoc(tuned.findings, NewFinding(t.severity, relative, t.message));
      PathsSnoc(tuned.findings, NewFinding(t.severity, relative, t.message));
    }
  }

  /**
    Over any sequence of files: what the strict rules find is what the policy reports plus what it
    counts as suppressed, for the same files in the same order, and `lowered` counts exactly the
    findings below High.
   */
  lemma {:induction false} NothingUncounted(ctx: Context, id: cstring, visits: seq<Visit>)
    ensures Accounted(InspectedAll(InitialCheck(id), Strict(ctx), visits),
                      InspectedAll(InitialCheck(id), ctx, visits))
    decreases |visits|
  {
    hide Inspected;
    if visits != [] {
      NothingUncounted(ctx, id, visits[..|visits| - 1]);
      AccountedStep(InspectedAll(InitialCheck(id), Strict(ctx), visits[..|visits| - 1]),
                    InspectedAll(InitialCheck(id), ctx, visits[..|visits| - 1]), ctx, visits[|visits| - 1]);
    }
  }
}
