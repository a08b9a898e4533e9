/**
  The signature list of src/detectors/signature_list.c: parsing "hash:size:name" lines, and lookup in
  the entries sorted by size.
 */
module Signatures {
  import opened CText
  import Decimal

  const HASH_LENGTH := 64
  const NAME_MAX := 160
  const TWO_TO_THE_64 := 0x1_0000_0000_0000_0000

  datatype Signature = Signature(hash: cstring, size: nat, name: cstring)

  datatype LineResult = Quiet | Malformed | Entry(entry: Signature)

  // ---- fields ----

  /** memchr: the first position of `c`, or the length when there is none. */
  function IndexOf(s: string, c: char): (i: nat)
    ensures i <= |s| && c !in s[..i] && (i < |s| ==> s[i] == c)
  {
    if s == "" || s[0] == c then 0
    else
      var i := 1 + IndexOf(s[1..], c);
      assert s[..i] == [s[0]] + s[1..][..i - 1];
      i
  }

  predicate IsBlank(c: char) {
    c == ' ' || c == '\t'
  }

  predicate IsTrimmed(c: char) {
    IsBlank(c) || c == '\r' || c == '\n'
  }

  function SkipBlanks(s: string): string {
    if s != "" && IsBlank(s[0]) then SkipBlanks(s[1..]) else s
  }

  function TrimRight(s: string): (t: string)
    ensures t <= s
    ensures t != "" ==> !IsTrimmed(t[|t| - 1])
  {
    if s != "" && IsTrimmed(s[|s| - 1]) then TrimRight(s[..|s| - 1]) else s
  }

  predicate IsHex(c: char) {
    '0' <= c <= '9' || 'a' <= c <= 'f' || 'A' <= c <= 'F'
  }

  predicate AllHex(s: string) {
    forall i | 0 <= i < |s| :: IsHex(s[i])
  }

  /** What isspace accepts in the C locale. */
  predicate IsSpace(c: char) {
    c == ' ' || 9 <= c as int <= 13
  }

  function SkipSpaces(s: string): string {
    if s != "" && IsSpace(s[0]) then SkipSpaces(s[1..]) else s
  }

  /**
    strtoull in base 10, when it consumes the whole text: spaces, an optional sign and digits.
    Too large a number saturates, and a minus sign wraps around.
   */
  function Strtoull(text: string): Option<nat> {
    var s := SkipSpaces(text);
    var digits := if s != "" && (s[0] == '-' || s[0] == '+') then s[1..] else s;
    if digits == "" || !Decimal.AllDigits(digits) then None
    else
      var magnitude := Decimal.DigitsValue(digits);
      if magnitude >= TWO_TO_THE_64 then Some(TWO_TO_THE_64 - 1)
      else if s[0] == '-' && magnitude > 0 then Some(TWO_TO_THE_64 - magnitude)
      else Some(magnitude)
  }

  // ---- one line ----

  function Fields(hash: string, size: string, rest: string): LineResult {
    var name := TrimRight(rest);
    if |size| == 0 || |size| >= 32 || name == "" || !AllHex(hash) then Malformed
    else
      match Strtoull(size)
      case None => Malformed
      case Some(value) => Entry(Signature(CStr(LowerAll(hash)), value, CStr(Cut(name, NAME_MAX))))
  }

  function ParseLine(line: string): LineResult {
    var p := SkipBlanks(line);
    if p == "" || p[0] == '#' || p[0] == '\r' then Quiet
    else
      var hashEnd := IndexOf(p, ':');
      if hashEnd != HASH_LENGTH || hashEnd == |p| then Malformed
      else
        var rest := p[hashEnd + 1..];
        var sizeEnd := IndexOf(rest, ':');
        if sizeEnd == |rest| then Malformed else Fields(p[..hashEnd], rest[..sizeEnd], rest[sizeEnd + 1..])
  }

  method MemChr(s: string, from: nat, c: char) returns (i: nat)
    requires from <= |s|
    ensures from <= i && i - from == IndexOf(s[from..], c)
  {
    i := from;
    while i < |s| && s[i] != c
      invariant from <= i <= |s|
      invariant IndexOf(s[from..], c) == i - from + IndexOf(s[i..], c)
    {
      assert s[i..][1..] == s[i + 1..];
      i := i + 1;
    }
  }

  method TrimName(s: string) returns (name: string)
    ensures name == TrimRight(s)
  {
    var end := |s|;
    assert s[..end] == s;
    while end > 0 && IsTrimmed(s[end - 1])
      invariant end <= |s| && TrimRight(s[..end]) == TrimRight(s)
    {
      assert s[..end][..end - 1] == s[..end - 1];
      end := end - 1;
    }
    return s[..end];
  }

  /** The hash in lower case, unless some character is not hexadecimal. */
  method NormalizeHash(s: string) returns (hash: Option<string>)
    ensures hash == if AllHex(s) then Some(LowerAll(s)) else None
  {
    var out := "";
    for i := 0 to |s|
      invariant AllHex(s[..i]) && out == LowerAll(s[..i])
    {
      var c := s[i];
      if 'A' <= c <= 'F' {
        c := (c as int - 'A' as int + 'a' as int) as char;
      } else if !('0' <= c <= '9' || 'a' <= c <= 'f') {
        assert !IsHex(s[i]);
        return None;
      }
      out := out + [c];
    }
    assert s[..|s|] == s;
    return Some(out);
  }

  /** The checks of parse_line on the three fields. */
  method ParseFields(hash: string, size: string, rest: string) returns (r: LineResult)
    ensures r == Fields(hash, size, rest)
  {
    hide TrimRight, Strtoull, LowerAll, CStr, AllHex;
    if |size| == 0 || |size| >= 32 {
      return Malformed;
    }
    var name := TrimName(rest);
    if name == "" {
      return Malformed;
    }
    var lower := NormalizeHash(hash);
    if lower.None? {
      return Malformed;
    }
    var value := Strtoull(size);
    if value.None? {
      return Malformed;
    }
    return Entry(Signature(CStr(lower.value), value.value, CStr(Cut(name, NAME_MAX))));
  }

  method SkipLeadingBlanks(line: string) returns (p: nat)
    ensures p <= |line| && SkipBlanks(line) == line[p..]
  {
    p := 0;
    while p < |line| && IsBlank(line[p])
      invariant p <= |line| && SkipBlanks(line[p..]) == SkipBlanks(line)
    {
      assert line[p..][1..] == line[p + 1..];
      p := p + 1;
    }
  }

  /** parse_line. */
  method Parse(line: string) returns (r: LineResult)
    ensures r == ParseLine(line)
  {
    hide IndexOf, Fields, SkipBlanks;
    var p := SkipLeadingBlanks(line);
    if p >= |line| || line[p] == '#' || line[p] == '\r' {
      return Quiet;
    }
    ghost var whole := line[p..];
    var hashEnd := MemChr(line, p, ':');
    if hashEnd == |line| || hashEnd - p != HASH_LENGTH {
      return Malformed;
    }
    ghost var rest := line[hashEnd + 1..];
    assert whole[HASH_LENGTH + 1..] == rest && whole[..HASH_LENGTH] == line[p..hashEnd];
    var sizeEnd := MemChr(line, hashEnd + 1, ':');
    if sizeEnd == |line| {
      return Malformed;
    }
    assert rest[..sizeEnd - hashEnd - 1] == line[hashEnd + 1..sizeEnd];
    assert rest[sizeEnd - hashEnd..] == line[sizeEnd + 1..];
    r := ParseFields(line[p..hashEnd], line[hashEnd + 1..sizeEnd], line[sizeEnd + 1..]);
  }

  // ---- printing an entry and parsing it ----

  predicate LowerHex(c: char) {
    '0' <= c <= '9' || 'a' <= c <= 'f'
  }

  /** What the loader can give back: no part of the entry is cut, trimmed or normalised. */
  predicate Printable(e: Signature) {
    && |e.hash| == HASH_LENGTH && (forall i | 0 <= i < HASH_LENGTH :: LowerHex(e.hash[i]))
    && e.size < TWO_TO_THE_64
    && 0 < |e.name| < NAME_MAX && '\n' !in e.name && !IsTrimmed(e.name[|e.name| - 1])
  }

  function Print(e: Signature): string {
    e.hash + ":" + Decimal.Digits(e.size) + ":" + e.name
  }

  lemma {:induction false} IndexOfIs(s: string, c: char, i: nat)
    requires i < |s| && s[i] == c && c !in s[..i]
    ensures IndexOf(s, c) == i
  {
    if i > 0 {
      assert s[..i][0] == s[0];
      assert s[1..][..i - 1] == s[..i][1..];
      IndexOfIs(s[1..], c, i - 1);
    }
  }

  lemma DigitsParse(n: nat)
    requires n < TWO_TO_THE_64
    ensures Strtoull(Decimal.Digits(n)) == Some(n)
    ensures ':' !in Decimal.Digits(n) && 0 < |Decimal.Digits(n)| < 32
  {
    hide Decimal.DigitsValue;
    var d := Decimal.Digits(n);
    Decimal.DigitsDenote(n);
    Decimal.IntTextLength(n);
    assert Decimal.IsDigit(d[0]);
  }

  lemma HashParses(hash: cstring)
    requires |hash| == HASH_LENGTH && forall i | 0 <= i < HASH_LENGTH :: LowerHex(hash[i])
    ensures AllHex(hash) && LowerAll(hash) == hash && ':' !in hash && SkipBlanks(hash) == hash
  {
    assert forall i | 0 <= i < HASH_LENGTH :: Lower(hash[i]) == hash[i];
    assert LowerHex(hash[0]);
  }

  lemma FieldsParse(e: Signature)
    requires Printable(e)
    ensures Fields(e.hash, Decimal.Digits(e.size), e.name) == Entry(e)
  {
    hide Strtoull, Decimal.Digits, CStr, AllHex, LowerAll;
    DigitsParse(e.size);
    HashParses(e.hash);
    CStrOfNulFree(e.hash);
    CStrOfNulFree(e.name);
    assert TrimRight(e.name) == e.name;
  }

  lemma SplitAtColon(s: string, before: string, after: string)
    requires s == before + ":" + after && ':' !in before
    ensures IndexOf(s, ':') == |before| < |s| && s[..|before|] == before && s[|before| + 1..] == after
  {
    assert s[..|before|] == before;
    IndexOfIs(s, ':', |before|);
  }

  /** Printing an entry and parsing the line gives the entry back, colons in the name included. */
  lemma PrintParses(e: Signature)
    requires Printable(e)
    ensures ParseLine(Print(e)) == Entry(e)
    ensures '\n' !in Print(e)
  {
    hide Decimal.Digits, IndexOf, Fields, SkipBlanks, LowerHex;
    var d := Decimal.Digits(e.size);
    var line := Print(e);
    DigitsParse(e.size);
    HashParses(e.hash);
    FieldsParse(e);
    assert line == e.hash + ":" + (d + ":" + e.name);
    SplitAtColon(line, e.hash, d + ":" + e.name);
    SplitAtColon(d + ":" + e.name, d, e.name);
    assert line[0] == e.hash[0];
    StartsAnEntry(line);
    NoNewlines(e);
  }

  lemma StartsAnEntry(line: string)
    requires line != "" && LowerHex(line[0])
    ensures SkipBlanks(line) == line && line[0] != '#' && line[0] != '\r'
  {
  }

  lemma NoNewlines(e: Signature)
    requires Printable(e)
    ensures '\n' !in Print(e)
  {
    assert forall i | 0 <= i < HASH_LENGTH :: LowerHex(e.hash[i]) && e.hash[i] != '\n';
    assert forall i | 0 <= i < |Decimal.Digits(e.size)| :: Decimal.IsDigit(Decimal.Digits(e.size)[i]);
  }

  // ---- the lines of a file ----

  /** The text between newlines; a last line without a newline counts when it is not empty. */
  function Lines(text: string): (lines: seq<string>)
    decreases |text|
  {
    if text == "" then []
    else
      var end := IndexOf(text, '\n');
      [text[..end]] + if end == |text| then [] else Lines(text[end + 1..])
  }

  function Unlines(lines: seq<string>): string {
    if lines == [] then "" else lines[0] + "\n" + Unlines(lines[1..])
  }

  lemma UnlinesCons(line: string, lines: seq<string>)
    ensures Unlines([line] + lines) == line + "\n" + Unlines(lines)
  {
    assert ([line] + lines)[1..] == lines;
  }

  /** The text with a final newline, which is all that taking it apart may add. */
  function Terminated(text: string): string {
    if text == "" || text[|text| - 1] == '\n' then text else text + "\n"
  }

  lemma TerminatedConcat(line: string, rest: string)
    ensures Terminated(line + "\n" + rest) == line + "\n" + Terminated(rest)
  {
    var text := line + "\n" + rest;
    if rest == "" {
      assert text[|text| - 1] == '\n';
    } else {
      assert text[|text| - 1] == rest[|rest| - 1];
      assert text + "\n" == line + "\n" + (rest + "\n");
    }
  }

  /** The lines partition the buffer: nothing is lost, and nothing but a final newline is added. */
  lemma {:induction false} LinesPartition(text: string)
    ensures Unlines(Lines(text)) == Terminated(text)
    ensures forall i | 0 <= i < |Lines(text)| :: '\n' !in Lines(text)[i]
    decreases |text|
  {
    hide Unlines, Terminated, Lines, IndexOf;
    NoLine();
    LinesHead(text);
    FirstNewline(text);
    if text != "" {
      var end := IndexOf(text, '\n');
      if end == |text| {
        UnlinesCons(text, []);
        LastLine(text);
      } else {
        LinesPartition(text[end + 1..]);
        UnlinesCons(text[..end], Lines(text[end + 1..]));
        TerminatedConcat(text[..end], text[end + 1..]);
        assert text == text[..end] + "\n" + text[end + 1..];
      }
    }
  }

  lemma FirstNewline(text: string)
    ensures var end := IndexOf(text, '\n');
            end <= |text| && '\n' !in text[..end] && (end < |text| ==> text[end] == '\n')
  {
    hide IndexOf;
  }

  /** The first line of a text, and the rest. */
  lemma LinesHead(text: string)
    ensures text == "" ==> Lines(text) == []
    ensures text != "" ==>
              var end := IndexOf(text, '\n');
              Lines(text) == if end == |text| then [text] + [] else [text[..end]] + Lines(text[end + 1..])
  {
    hide IndexOf;
    assert text[..|text|] == text;
  }

  lemma NoLine()
    ensures Unlines([]) == "" && Terminated("") == ""
  {
  }

  lemma LastLine(text: string)
    requires text != "" && '\n' !in text
    ensures Terminated(text) == text + "\n" + Unlines([])
  {
  }

  function EntriesOf(lines: seq<string>): seq<Signature> {
    if lines == [] then []
    else
      var r := ParseLine(lines[|lines| - 1]);
      EntriesOf(lines[..|lines| - 1]) + if r.Entry? then [r.entry] else []
  }

  function MalformedCount(lines: seq<string>): nat {
    if lines == [] then 0
    else MalformedCount(lines[..|lines| - 1]) + if ParseLine(lines[|lines| - 1]).Malformed? then 1 else 0
  }

  function QuietCount(lines: seq<string>): nat {
    if lines == [] then 0
    else QuietCount(lines[..|lines| - 1]) + if ParseLine(lines[|lines| - 1]).Quiet? then 1 else 0
  }

  /** Every line is an entry, malformed or quiet. */
  lemma {:induction false} EveryLineCounts(lines: seq<string>)
    ensures |EntriesOf(lines)| + MalformedCount(lines) + QuietCount(lines) == |lines|
    decreases |lines|
  {
    if lines != [] {
      EveryLineCounts(lines[..|lines| - 1]);
    }
  }

  function PrintAll(entries: seq<Signature>): string {
    if entries == [] then "" else Print(entries[0]) + "\n" + PrintAll(entries[1..])
  }

  lemma LinesCons(line: string, rest: string)
    requires '\n' !in line
    ensures Lines(line + "\n" + rest) == [line] + Lines(rest)
  {
    var text := line + "\n" + rest;
    assert text[..|line|] == line;
    IndexOfIs(text, '\n', |line|);
    assert text[|line| + 1..] == rest;
  }

  lemma {:induction false} EntriesCons(line: string, lines: seq<string>)
    ensures EntriesOf([line] + lines)
         == (if ParseLine(line).Entry? then [ParseLine(line).entry] else []) + EntriesOf(lines)
    decreases |lines|
  {
    hide ParseLine, EntriesOf;
    var head := if ParseLine(line).Entry? then [ParseLine(line).entry] else [];
    if lines == [] {
      EntriesSnoc([], line);
      NoEntries();
      assert [line] + lines == [] + [line] && [] + head == head + [];
    } else {
      var before, last := lines[..|lines| - 1], lines[|lines| - 1];
      var tail := if ParseLine(last).Entry? then [ParseLine(last).entry] else [];
      EntriesCons(line, before);
      EntriesSnoc([line] + before, last);
      EntriesSnoc(before, last);
      assert lines == before + [last] && [line] + lines == [line] + before + [last];
      assert head + EntriesOf(before) + tail == head + (EntriesOf(before) + tail);
    }
  }

  lemma EntriesSnoc(lines: seq<string>, line: string)
    ensures EntriesOf(lines + [line])
         == EntriesOf(lines) + (if ParseLine(line).Entry? then [ParseLine(line).entry] else [])
  {
    hide ParseLine;
    assert (lines + [line])[..|lines|] == lines;
  }

  lemma NoEntries()
    ensures EntriesOf([]) == []
  {
  }

  /** A printed list loads as exactly that list: no entry is dropped, split or reordered. */
  lemma {:induction false} PrintedListLoads(entries: seq<Signature>)
    requires forall i | 0 <= i < |entries| :: Printable(entries[i])
    ensures EntriesOf(Lines(PrintAll(entries))) == entries
    ensures |Lines(PrintAll(entries))| == |entries|
  {
    hide ParseLine, Lines, Print, Printable;
    if entries == [] {
      NoLines();
    } else {
      PrintParses(entries[0]);
      LinesCons(Print(entries[0]), PrintAll(entries[1..]));
      EntriesCons(Print(entries[0]), Lines(PrintAll(entries[1..])));
      PrintedListLoads(entries[1..]);
    }
  }

  lemma NoLines()
    ensures Lines("") == []
  {
  }
}
