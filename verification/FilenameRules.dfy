/**
  The filename rules of src/detectors/suspicious_filename.c as a user reads them: which names each rule
  is about, the verdict in each kind of place, and the words of the finding.
 */
module FilenameRules {
  import opened CText
  import opened ScanModel
  import opened Detection
  import opened Filename
  import L = Location
  import Utf8

  // ---- the lists of extensions ----

  predicate NoUpper(s: string) {
    forall i | 0 <= i < |s| :: !('A' <= s[i] <= 'Z')
  }

  lemma InLowerSet(value: string, names: seq<string>)
    requires forall i | 0 <= i < |names| :: NoUpper(names[i])
    ensures InSet(value, names) <==> LowerAll(value) in names
  {
    forall i | 0 <= i < |names| ensures LowerAll(names[i]) == names[i] {
      assert NoUpper(names[i]);
    }
  }

  lemma ListsAreLower()
    ensures forall i | 0 <= i < |EXECUTABLE| :: NoUpper(EXECUTABLE[i])
    ensures forall i | 0 <= i < |NATIVE| :: NoUpper(NATIVE[i])
    ensures forall i | 0 <= i < |DOCUMENT| :: NoUpper(DOCUMENT[i])
  {
  }

  predicate IsExecutable(extension: string) {
    LowerAll(extension) in {
      "exe", "scr", "bat", "cmd", "com", "pif", "vbs", "vbe", "js", "jse",
      "wsf", "wsh", "msi", "ps1", "lnk", "hta", "jar", "cpl", "msc", "reg"}
  }

  predicate IsNative(extension: string) {
    LowerAll(extension) in {"exe", "scr", "com", "pif", "cpl", "msi"}
  }

  predicate IsDocument(extension: string) {
    LowerAll(extension) in {
      "pdf", "doc", "docx", "xls", "xlsx", "ppt", "pptx", "txt", "rtf", "csv",
      "jpg", "jpeg", "png", "gif", "bmp", "mp3", "mp4", "avi", "mov", "zip", "rar", "7z"}
  }

  lemma ListsAre(extension: string)
    ensures InSet(extension, EXECUTABLE) <==> IsExecutable(extension)
    ensures InSet(extension, NATIVE) <==> IsNative(extension)
    ensures InSet(extension, DOCUMENT) <==> IsDocument(extension)
  {
    hide LowerAll, InSet, NoUpper;
    ListsAreLower();
    InLowerSet(extension, EXECUTABLE);
    InLowerSet(extension, NATIVE);
    InLowerSet(extension, DOCUMENT);
  }

  // ---- the shapes of names ----

  /** The name ends in an executable extension. */
  ghost predicate EndsExecutable(name: cstring, stem: string, extension: string) {
    name == stem + "." + extension && '.' !in extension && IsExecutable(extension)
  }

  lemma ExtensionShape(name: cstring, k: nat)
    requires NthStart(name, 1) == Some(k)
    ensures 0 < k <= |name| && name == name[..k - 1] + "." + name[k..] && '.' !in name[k..]
  {
    hide NthStart;
    LastStart(name, k);
    SplitAtDot(name, k);
  }

  lemma SplitAtDot(s: string, k: nat)
    requires 0 < k <= |s| && s[k - 1] == '.'
    ensures s == s[..k - 1] + "." + s[k..]
  {
  }

  lemma LastStart(name: cstring, k: nat)
    requires NthStart(name, 1) == Some(k)
    ensures 0 < k <= |name| && name[k - 1] == '.' && '.' !in name[k..]
  {
    hide LastDot;
    assert k == LastDot(name) + 1;
    assert forall i | 0 <= i < |name[k..]| :: name[k..][i] == name[k + i];
  }

  lemma ExecutableShape(name: cstring)
    ensures HasExecutableExtension(name) <==> exists stem, extension :: EndsExecutable(name, stem, extension)
  {
    hide InSet, NthStart, IsExecutable;
    if HasExecutableExtension(name) {
      var k := NthStart(name, 1).value;
      ExtensionShape(name, k);
      ListsAre(name[k..]);
      assert EndsExecutable(name, name[..k - 1], name[k..]);
    }
    forall stem, extension | EndsExecutable(name, stem, extension) ensures HasExecutableExtension(name) {
      LastPart(stem, extension);
      ListsAre(extension);
    }
  }

  /** The bytes of a character, as the characters of a name. */
  function CharText(c: nat): (s: string)
    requires Utf8.IsScalar(c)
    ensures |s| == |Utf8.Encode(c)| && forall i | 0 <= i < |s| :: s[i] as int == Utf8.Encode(c)[i]
  {
    var e := Utf8.Encode(c);
    seq(|e|, i requires 0 <= i < |e| => e[i] as char)
  }

  ghost predicate IsBidi(name: string, front: string, c: nat, back: string) {
    0x202A <= c <= 0x202E && name == front + CharText(c) + back
  }

  lemma OverrideText(c: nat)
    requires 0x202A <= c <= 0x202E
    ensures CharText(c) == [0xE2 as char, 0x80 as char, (0xAA + (c - 0x202A)) as char]
  {
  }

  /** A name with one of the characters U+202A to U+202E in it, in UTF-8. */
  lemma BidiShape(name: cstring)
    ensures HasBidi(name) <==> exists front, c, back :: IsBidi(name, front, c, back)
  {
    hide CharText;
    if HasBidi(name) {
      var i :| 0 <= i <= |name| - 3 && BidiAt(name, i);
      var c := 0x202A + (name[i + 2] as int - 0xAA);
      OverrideText(c);
      assert name == name[..i] + name[i..i + 3] + name[i + 3..] && name[i..i + 3] == CharText(c);
      assert IsBidi(name, name[..i], c, name[i + 3..]);
    }
    forall front, c, back | IsBidi(name, front, c, back) ensures HasBidi(name) {
      OverrideText(c);
      assert name[|front|..][..3] == CharText(c);
      assert BidiAt(name, |front|);
    }
  }

  /** Four spaces somewhere before the last dot of an executable. */
  ghost predicate IsPadded(name: cstring, front: string, back: string, extension: string) {
    name == front + "    " + back + "." + extension && '.' !in extension && IsExecutable(extension)
  }

  lemma SpacesAt(stem: string, i: nat)
    requires i + 4 <= |stem| && FourSpaces(stem, i)
    ensures stem == stem[..i] + "    " + stem[i + 4..]
  {
    assert stem[i..i + 4] == "    ";
    assert stem == stem[..i] + stem[i..i + 4] + stem[i + 4..];
  }

  lemma PaddingFound(name: cstring, k: nat, i: nat)
    requires NthStart(name, 1) == Some(k) && i + 4 <= k && FourSpaces(name, i) && IsExecutable(name[k..])
    ensures exists front, back, extension :: IsPadded(name, front, back, extension)
  {
    hide NthStart, IsExecutable;
    ExtensionShape(name, k);
    LastStart(name, k);
    var stem := name[..k - 1];
    assert i + 4 <= |stem| && FourSpaces(stem, i);
    SpacesAt(stem, i);
    assert IsPadded(name, stem[..i], stem[i + 4..], name[k..]);
  }

  lemma PaddedHasPadding(name: cstring, front: string, back: string, extension: string)
    requires IsPadded(name, front, back, extension)
    ensures HasPadding(name)
  {
    hide InSet, NthStart, IsExecutable;
    var stem := front + "    " + back;
    LastPart(stem, extension);
    ListsAre(extension);
    assert FourSpaces(name, |front|);
  }

  lemma PaddingShape(name: cstring)
    ensures HasPadding(name) <==> exists front, back, extension :: IsPadded(name, front, back, extension)
  {
    hide InSet, NthStart, IsExecutable, IsPadded;
    if HasPadding(name) {
      var k := NthStart(name, 1).value;
      var i :| 0 <= i <= k - 4 && FourSpaces(name, i);
      ListsAre(name[k..]);
      PaddingFound(name, k, i);
    }
    forall front, back, extension | IsPadded(name, front, back, extension) ensures HasPadding(name) {
      PaddedHasPadding(name, front, back, extension);
    }
  }

  // ---- the verdict ----

  /** One of the rules that are High everywhere. */
  predicate Alarming(name: cstring, hidden: bool) {
    HasBidi(name) || HasPadding(name) || (hidden && HasExecutableExtension(name))
  }

  /** What a disguise alone amounts to in a place. */
  function DisguiseVerdict(executable: cstring, kind: L.Kind): Option<Severity> {
    if kind == L.UserExposed then Some(High)
    else if kind == L.RecentItems && LowerAll(executable) == "lnk" then None
    else if kind == L.DependencyTree && !IsNative(executable) then Some(Info)
    else Some(Warning)
  }

  lemma LnkIsLower()
    ensures LowerAll("lnk") == "lnk"
  {
  }

  /**
    The whole table.  Any of the three rules that are High everywhere decides; otherwise a disguise is
    High under the strict rules and in user-facing places, counted and not reported when it is a
    shortcut among the recent items, Info in a dependency tree unless its extension is native, and
    Warning elsewhere.
   */
  lemma JudgeTable(name: cstring, hidden: bool, tuned: Option<L.Kind>)
    ensures var (outcome, d) := (Judge(name, hidden, tuned), DisguiseOf(name));
            && (Alarming(name, hidden) ==> outcome.Reported? && outcome.severity == High && !outcome.lowered)
            && (!Alarming(name, hidden) && d.None? ==> outcome.Nothing?)
            && (!Alarming(name, hidden) && d.Some? && tuned.None? ==>
                  outcome.Reported? && outcome.severity == High && !outcome.lowered)
            && (!Alarming(name, hidden) && d.Some? && tuned.Some? ==>
                  var verdict := DisguiseVerdict(d.value.executable, tuned.value);
                  && (verdict.None? ==> outcome.Counted?)
                  && (verdict.Some? ==> outcome.Reported? && outcome.severity == verdict.value
                                        && (outcome.lowered <==> verdict.value != High)))
  {
    hide HasBidi, HasPadding, HasExecutableExtension, DisguiseOf, Join, DisguiseText, Annotated, InSet, IsNative, LowerAll;
    LnkIsLower();
    if DisguiseOf(name).Some? {
      ListsAre(DisguiseOf(name).value.executable);
    }
  }

  // ---- the words ----

  function Glue(a: string, b: string): string {
    if a == "" then b else if b == "" then a else a + "; " + b
  }

  function Place(kind: L.Kind): string {
    match kind
    case Ordinary => "ordinary location"
    case UserExposed => "user-facing location"
    case OsShortcuts => "Start Menu"
    case OsComponentStore => "Windows component store"
    case RecentItems => "Windows Recent Items"
    case DependencyTree => "package dependency tree"
    case SelfTestFixtures => "USB Sentinel test fixtures"
  }

  /** What is said of a disguise: nothing when it is suppressed, and where it is when it is lowered. */
  function DisguiseWords(d: Option<Disguise>, tuned: Option<L.Kind>): string {
    if d.None? then ""
    else
      var words := "double extension disguise (." + d.value.document + "." + d.value.executable + ")";
      if tuned.None? || tuned.value == L.UserExposed then words
      else if DisguiseVerdict(d.value.executable, tuned.value).None? then ""
      else words + " [internal drive, " + Place(tuned.value) + "]"
  }

  /** The reasons, in this order. */
  function Words(name: cstring, hidden: bool, tuned: Option<L.Kind>): string {
    Glue(Glue(Glue(DisguiseWords(DisguiseOf(name), tuned),
                   if HasBidi(name) then "filename contains a " + "Unicode bidi-override character" else ""),
              if HasPadding(name) then "long space padding " + "hides the real extension" else ""),
         if hidden && HasExecutableExtension(name) then "hidden/system-attributed executable" else "")
  }

  lemma PlaceIs(kind: L.Kind)
    ensures L.KindText(kind) == Place(kind)
  {
  }

  lemma JoinOne(so: seq<cstring>, text: cstring, found: bool)
    requires text != ""
    ensures Join(so + if found then [text] else []) == Glue(Join(so), if found then text else "")
  {
    if found {
      JoinSnoc(so, text);
    } else {
      assert so + [] == so;
    }
  }

  lemma JoinHigh(so: seq<cstring>, name: cstring, hidden: bool)
    ensures Join(so + HighReasons(name, hidden))
         == Glue(Glue(Glue(Join(so), if HasBidi(name) then BIDI else ""), if HasPadding(name) then PADDING else ""),
                 if hidden && HasExecutableExtension(name) then HIDDEN else "")
  {
    hide HasBidi, HasPadding, HasExecutableExtension, Join, Glue, BIDI, PADDING, HIDDEN;
    HighReasonLengths();
    var bidi: seq<cstring> := if HasBidi(name) then [BIDI] else [];
    var padding: seq<cstring> := if HasPadding(name) then [PADDING] else [];
    var executable: seq<cstring> := if hidden && HasExecutableExtension(name) then [HIDDEN] else [];
    JoinOne(so, BIDI, HasBidi(name));
    JoinOne(so + bidi, PADDING, HasPadding(name));
    JoinOne(so + bidi + padding, HIDDEN, hidden && HasExecutableExtension(name));
    assert so + HighReasons(name, hidden) == so + bidi + padding + executable;
  }

  lemma OneReason(text: cstring)
    ensures Join([text]) == text && Join([]) == ""
  {
    NoReasons();
    JoinSnoc([], text);
    assert [] + [text] == [text];
  }

  /** The verdict on a disguise under the policy, as the rules give it. */
  lemma WeighIs(kind: L.Kind, executable: cstring)
    ensures Weigh(kind, executable).Default? <==> kind == L.UserExposed
    ensures Weigh(kind, executable).Suppressed? <==> DisguiseVerdict(executable, kind).None?
  {
    hide InSet, IsNative, LowerAll;
    LnkIsLower();
  }

  lemma DisguiseWordsAre(d: Option<Disguise>, tuned: Option<L.Kind>)
    ensures Join(DisguiseReasons(d, tuned)) == DisguiseWords(d, tuned)
  {
    hide Weigh, DisguiseVerdict, Join, L.KindText, Place;
    if d.Some? {
      OneReason(DisguiseText(d.value));
      if tuned.Some? {
        PlaceIs(tuned.value);
        WeighIs(tuned.value, d.value.executable);
        OneReason(Annotated(DisguiseText(d.value), tuned.value));
      }
    } else {
      OneReason("");
    }
  }

  /** The message of every finding, word for word. */
  lemma MessageIs(name: cstring, hidden: bool, tuned: Option<L.Kind>)
    requires Judge(name, hidden, tuned).Reported?
    ensures Judge(name, hidden, tuned).message == Words(name, hidden, tuned)
  {
    hide Judge, HighReasons, DisguiseReasons, DisguiseOf, DisguiseWords, Join, HasBidi, HasPadding, HasExecutableExtension;
    JudgeIs(name, hidden, tuned);
    DisguiseWordsAre(DisguiseOf(name), tuned);
    JoinHigh(DisguiseReasons(DisguiseOf(name), tuned), name, hidden);
  }

  // ---- what a file adds to the check ----

  /** A reported file adds one finding with the path below the volume, at most 1023 characters of it. */
  lemma FindingIs(check: Check, ctx: Context, visit: Visit)
    ensures var outcome := Judge(visit.entry.name, visit.entry.isHidden, TunedKind(ctx, visit.path));
            var (after, path) := (Inspected(check, ctx, visit), L.Relative(ctx.volume, visit.path));
            && after.(findings := check.findings, suppressed := check.suppressed, lowered := check.lowered) == check
            && (!outcome.Reported? ==> after.findings == check.findings)
            && after.suppressed == check.suppressed + (if outcome.Counted? then 1 else 0)
            && after.lowered == check.lowered + (if outcome.Reported? && outcome.lowered then 1 else 0)
            && (outcome.Reported? ==>
                  && |after.findings| == |check.findings| + 1 && after.findings[..|check.findings|] == check.findings
                  && var f := after.findings[|check.findings|];
                     && f.severity == outcome.severity
                     && f.path == (if |path| <= 1023 then path else path[..1023])
                     && f.message == if |outcome.message| <= 255 then outcome.message else outcome.message[..255])
  {
    hide Judge, L.Classification;
  }
}
