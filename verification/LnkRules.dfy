/**
  The shortcut rules of src/detectors/lnk_inspect.c as a user reads them: which targets and arguments
  are suspicious, what is reported where, and the words of the finding.
 */
module LnkRules {
  import opened CText
  import opened ScanModel
  import opened Detection
  import opened LnkInspect
  import Decimal
  import L = Location
  import Lnk
  import R = FilenameRules

  // ---- targets ----

  lemma InterpretersAreLower()
    ensures forall i | 0 <= i < |INTERPRETERS| :: R.NoUpper(INTERPRETERS[i])
  {
  }

  /** A script host, by the name after the last separator, in any case. */
  predicate IsInterpreterTarget(target: string) {
    LowerAll(BaseName(target)) in {
      "cmd.exe", "powershell.exe", "pwsh.exe", "wscript.exe", "cscript.exe",
      "mshta.exe", "rundll32.exe", "regsvr32.exe", "certutil.exe", "bitsadmin.exe"}
  }

  lemma TargetsAre(target: cstring)
    ensures TargetsInterpreter(target) <==> IsInterpreterTarget(target)
  {
    hide BaseName, LowerAll, R.NoUpper;
    InterpretersAreLower();
    LowerList(BaseName(target));
    if target == "" {
      NoBase();
    }
  }

  lemma LowerList(base: string)
    ensures (exists i | 0 <= i < |INTERPRETERS| :: IEq(base, INTERPRETERS[i])) <==> LowerAll(base) in INTERPRETERS
  {
    hide LowerAll, R.NoUpper;
    InterpretersAreLower();
    forall i | 0 <= i < |INTERPRETERS| ensures LowerAll(INTERPRETERS[i]) == INTERPRETERS[i] {
      StaysLower(INTERPRETERS[i]);
    }
  }

  lemma StaysLower(s: string)
    requires R.NoUpper(s)
    ensures LowerAll(s) == s
  {
  }

  lemma NoBase()
    ensures BaseName("") == "" && LowerAll("") == ""
  {
  }

  // ---- arguments ----

  /** The word, given in lower case, somewhere in the text in any case. */
  ghost predicate Mentions(text: string, word: string) {
    exists before, found, after :: IsMention(text, word, before, found, after)
  }

  ghost predicate IsMention(text: string, word: string, before: string, found: string, after: string) {
    text == before + found + after && LowerAll(found) == word
  }

  lemma ContainsIs(text: string, word: string)
    requires R.NoUpper(word) && word != ""
    ensures Contains(text, word) <==> Mentions(text, word)
  {
    StaysLower(word);
    if i :| 0 <= i <= |text| - |word| && ContainsAt(text, word, i) {
      assert text == text[..i] + text[i..i + |word|] + text[i + |word|..];
      assert IsMention(text, word, text[..i], text[i..i + |word|], text[i + |word|..]);
    }
    if before, found, after :| IsMention(text, word, before, found, after) {
      assert |LowerAll(found)| == |found|;
      assert text[|before|..|before| + |word|] == found;
      assert ContainsAt(text, word, |before|);
    }
  }

  const WORDS: seq<string> := [
    "-enc", "-encodedcommand", "-nop", "-noprofile", "-w hidden", "-windowstyle hidden",
    "iex", "invoke-expression", "http://", "https://", "downloadstring", "frombase64string"
  ]

  lemma WordsAre()
    ensures |WORDS| == |MARKERS| == 12
    ensures forall i | 0 <= i < 12 :: MARKERS[i] == WORDS[i] && R.NoUpper(WORDS[i]) && WORDS[i] != ""
  {
    SwitchesAre();
    CallsAre();
    forall i | 0 <= i < 12 ensures MARKERS[i] == WORDS[i] && R.NoUpper(WORDS[i]) && WORDS[i] != "" {
      assert MARKERS[i] == if i < 6 then SWITCHES[i] else CALLS[i - 6];
    }
  }

  lemma SwitchesAre()
    ensures forall i | 0 <= i < 6 :: SWITCHES[i] == WORDS[i] && R.NoUpper(WORDS[i]) && WORDS[i] != ""
  {
  }

  lemma CallsAre()
    ensures forall i | 0 <= i < 6 :: CALLS[i] == WORDS[i + 6] && R.NoUpper(WORDS[i + 6]) && WORDS[i + 6] != ""
  {
  }

  /** The marker that is named is the first of the twelve words that the arguments mention. */
  ghost predicate IsFirstMarker(arguments: cstring, marker: Option<cstring>) {
    if marker.None? then forall i | 0 <= i < 12 :: !Mentions(arguments, WORDS[i])
    else
      exists k | 0 <= k < 12 ::
        marker.value == WORDS[k] && Mentions(arguments, WORDS[k]) && forall i | 0 <= i < k :: !Mentions(arguments, WORDS[i])
  }

  lemma {:induction false} MarkersFrom(arguments: cstring, from: nat)
    requires from <= |MARKERS| == 12 && forall i | 0 <= i < from :: !Contains(arguments, MARKERS[i])
    ensures var m := MarkerFrom(arguments, from);
            if m.None? then forall i | 0 <= i < 12 :: !Contains(arguments, MARKERS[i])
            else exists k | 0 <= k < 12 ::
              m.value == MARKERS[k] && Contains(arguments, MARKERS[k]) && forall i | 0 <= i < k :: !Contains(arguments, MARKERS[i])
    decreases |MARKERS| - from
  {
    hide Contains;
    if from < |MARKERS| && !Contains(arguments, MARKERS[from]) {
      MarkersFrom(arguments, from + 1);
    }
  }

  lemma MarkerIs(arguments: cstring)
    ensures IsFirstMarker(arguments, MarkerFrom(arguments, 0))
  {
    hide Contains, Mentions, R.NoUpper, MARKERS, WORDS;
    WordsAre();
    MarkersFrom(arguments, 0);
    forall i | 0 <= i < 12 ensures Contains(arguments, MARKERS[i]) <==> Mentions(arguments, WORDS[i]) {
      ContainsIs(arguments, WORDS[i]);
    }
  }

  // ---- what is reported where ----

  lemma PolicyTable(kind: Option<L.Kind>)
    ensures PolicyFor(kind) == if kind == Some(L.OsShortcuts) then AttackShape
                               else if kind == Some(L.OsComponentStore) then SuppressAll else Untuned
  {
  }

  /**
    The whole table of a parsed shortcut.  Under the strict rules either sign is reported; in the Start
    Menu only both together are, and in the component store neither is, but each is counted.
   */
  lemma ShortcutTable(parsed: Lnk.Parsed, hash: Option<cstring>, policy: Policy)
    ensures var (host, marker) := (IsInterpreterTarget(parsed.target), MarkerFrom(parsed.arguments, 0).Some?);
            var outcome := JudgeParsed(Some(parsed), hash, policy);
            && (!host && !marker ==> outcome.Nothing?)
            && (host != marker ==> if policy == Untuned then outcome.Reported? && outcome.severity == High else outcome.Counted?)
            && (host && marker ==> if policy != SuppressAll then outcome.Reported? && outcome.severity == High else outcome.Counted?)
  {
    hide TargetsInterpreter, MarkerFrom, SuspiciousText, IsInterpreterTarget;
    TargetsAre(parsed.target);
  }

  /** What cannot be read as a shortcut is a Warning under the strict rules, and counted under the policy. */
  lemma MalformedTable(hash: Option<cstring>, policy: Policy)
    ensures var outcome := JudgeParsed(None, hash, policy);
            if policy == Untuned then outcome.Reported? && outcome.severity == Warning else outcome.Counted?
  {
    hide MalformedText;
  }

  /** Which files are read at all: shortcuts by name, up to 256 KiB, that can be opened. */
  lemma FileTable(file: FileVisit, policy: Policy)
    ensures var (entry, outcome) := (file.visit.entry, Judge(file, policy));
            && (!HasLnkExtension(entry.name) ==> outcome.Nothing?)
            && (HasLnkExtension(entry.name) && entry.size > 256 * 1024 ==>
                  if policy == Untuned then outcome.Reported? && outcome.severity == Warning else outcome.Counted?)
            && (HasLnkExtension(entry.name) && entry.size <= 256 * 1024 ==>
                  if file.content.None? then outcome.Nothing?
                  else
                    var bytes := file.content.value.bytes;
                    outcome == JudgeParsed(Lnk.Parse(if |bytes| <= 256 * 1024 then bytes else bytes[..256 * 1024]),
                                           file.content.value.hash, policy))
  {
    hide HasLnkExtension, Lnk.Parse, JudgeParsed, OversizedText;
  }

  // ---- the words ----

  lemma NoNul(n: nat)
    ensures NUL !in Decimal.IntText(n)
  {
    hide Decimal.Digits;
    forall c | c in Decimal.IntText(n) ensures c != NUL {
      var k :| 0 <= k < |Decimal.Digits(n)| && Decimal.Digits(n)[k] == c;
      assert Decimal.IsDigit(Decimal.Digits(n)[k]);
    }
  }

  lemma PlainIs(s: string)
    requires NUL !in s
    ensures Plain(s) == s
  {
    CStrOfNulFree(s);
  }

  /** An oversized shortcut is reported with its size. */
  lemma OversizedWords(size: nat)
    ensures OversizedText(size) == "oversized .lnk file (" + Decimal.IntText(size) + " bytes), not parsed"
  {
    hide Decimal.IntText;
    NoNul(size);
    var text := "oversized .lnk file (" + Decimal.IntText(size) + " bytes), not parsed";
    PlainIs(text);
  }

  const MALFORMED: cstring := "malformed or corrupt .lnk file " + COULD_NOT
  const COULD_NOT: cstring := "(could not parse)"

  /** A malformed one with its hash, when there is one of 64 digits. */
  lemma MalformedWords(hash: Option<cstring>)
    requires hash.Some? ==> |hash.value| == 64
    ensures MalformedText(hash)
         == "malformed or corrupt .lnk file " + "(could not parse)" + (if hash.Some? then ", sha256=" + hash.value else "")
  {
    var text: cstring := MALFORMED + (if hash.Some? then ", sha256=" + hash.value else "");
    SameStart();
    PlainIs(text);
  }

  lemma SameStart()
    ensures "malformed or corrupt .lnk file (could not parse)" == "malformed or corrupt .lnk file " + "(could not parse)"
  {
  }

  function Subject(parsed: Lnk.Parsed): cstring {
    "target=" + (if parsed.target == "" then "(none)" else parsed.target)
    + (if parsed.arguments == "" then "" else " arguments=" + parsed.arguments)
  }

  function Signs(host: bool, marker: Option<cstring>): cstring {
    (if host then " [interpreter target]" else "")
    + (if marker.None? then "" else " [suspicious argument: " + marker.value + "]")
  }

  /** What is said of a suspicious shortcut: its target, its arguments, the signs and the hash. */
  function ShortcutWords(parsed: Lnk.Parsed, host: bool, marker: Option<cstring>, hash: Option<cstring>): cstring {
    Subject(parsed) + Signs(host, marker) + HashWords(hash)
  }

  function HashWords(hash: Option<cstring>): cstring {
    " sha256=" + (if hash.None? then "(unavailable)" else hash.value)
  }

  /** The finding holds the first 255 characters of that. */
  lemma SuspiciousWords(parsed: Lnk.Parsed, host: bool, marker: Option<cstring>, hash: Option<cstring>, path: cstring)
    ensures var words := ShortcutWords(parsed, host, marker, hash);
            NewFinding(High, path, SuspiciousText(parsed, host, marker, hash)).message
            == if |words| <= 255 then words else words[..255]
  {
    hide CStr, Subject, Signs;
    SameWords(parsed, host, marker, hash);
    PlainIs(ShortcutWords(parsed, host, marker, hash));
  }

  lemma SameWords(parsed: Lnk.Parsed, host: bool, marker: Option<cstring>, hash: Option<cstring>)
    ensures "target=" + (if parsed.target != "" then parsed.target else "(none)")
            + (if parsed.arguments != "" then " arguments=" + parsed.arguments else "")
            + (if host then " [interpreter target]" else "")
            + (if marker.Some? then " [suspicious argument: " + marker.value + "]" else "")
            + " sha256=" + (if hash.Some? then hash.value else "(unavailable)")
         == ShortcutWords(parsed, host, marker, hash)
  {
    var subject := "target=" + (if parsed.target != "" then parsed.target else "(none)")
      + (if parsed.arguments != "" then " arguments=" + parsed.arguments else "");
    assert subject == Subject(parsed);
    Regroup(subject, if host then " [interpreter target]" else "",
            if marker.Some? then " [suspicious argument: " + marker.value + "]" else "",
            " sha256=", if hash.Some? then hash.value else "(unavailable)");
  }

  lemma Regroup(a: string, b: string, c: string, d: string, e: string)
    ensures a + b + c + d + e == a + (b + c) + (d + e)
  {
    assert a + b + c == a + (b + c);
    assert a + (b + c) + d + e == a + (b + c) + (d + e);
  }

  /** A reported shortcut adds one finding with the path below the volume; a counted one only counts. */
  lemma FindingIs(check: Check, ctx: Context, file: FileVisit)
    ensures var outcome := Judge(file, PolicyFor(TunedKind(ctx, file.visit.path)));
            var (after, path) := (Inspected(check, ctx, file), L.Relative(ctx.volume, file.visit.path));
            && after.(findings := check.findings, suppressed := check.suppressed) == check
            && (!outcome.Reported? ==> after.findings == check.findings)
            && after.suppressed == check.suppressed + (if outcome.Counted? then 1 else 0)
            && (outcome.Reported? ==>
                  && |after.findings| == |check.findings| + 1 && after.findings[..|check.findings|] == check.findings
                  && var f := after.findings[|check.findings|];
                     && f.severity == outcome.severity
                     && f.path == (if |path| <= 1023 then path else path[..1023])
                     && f.message == if |outcome.message| <= 255 then outcome.message else outcome.message[..255])
  {
    hide Judge, L.Classification;
  }
}
