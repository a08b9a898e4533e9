/**
  The lines of a signature file (parse_line in src/detectors/signature_list.c) by their shape: exactly
  which lines are entries, and of what; which are quiet; and that every other one is malformed.
 */
module SignatureLines {
  import opened CText
  import opened Signatures
  import opened Decimal

  // ---- shapes ----

  predicate Blanks(s: string) {
    forall i | 0 <= i < |s| :: s[i] == ' ' || s[i] == '\t'
  }

  predicate Spaces(s: string) {
    forall i | 0 <= i < |s| :: s[i] in {' ', '\t', '\n', '\r'} || s[i] as int == 11 || s[i] as int == 12
  }

  predicate LineEnd(s: string) {
    forall i | 0 <= i < |s| :: s[i] in {' ', '\t', '\n', '\r'}
  }

  predicate IsHash(s: string) {
    |s| == 64 && forall i | 0 <= i < 64 :: '0' <= s[i] <= '9' || 'a' <= s[i] <= 'f' || 'A' <= s[i] <= 'F'
  }

  /** What strtoull makes of a sign and digits: saturated at 2^64 - 1, negative numbers modulo 2^64. */
  function Wrapped(sign: string, digits: string): nat
    requires AllDigits(digits)
  {
    var n := DigitsValue(digits);
    if n >= 0x1_0000_0000_0000_0000 then 0xFFFF_FFFF_FFFF_FFFF
    else if sign == "-" && n > 0 then 0x1_0000_0000_0000_0000 - n else n
  }

  ghost predicate IsSize(s: string, spaces: string, sign: string, digits: string, size: nat) {
    && s == spaces + sign + digits && Spaces(spaces) && (sign == "" || sign == "+" || sign == "-")
    && AllDigits(digits) && digits != "" && size == Wrapped(sign, digits)
  }

  /** The parts of a line. */
  datatype Parts = Parts(blanks: string, hash: string, size: string, name: string, end: string)

  /** A line with an entry: 64 hexadecimal digits, a number of at most 31 characters, and a name. */
  ghost predicate IsEntryLine(line: string, p: Parts, e: Signature) {
    && line == p.blanks + p.hash + ":" + p.size + ":" + (p.name + p.end)
    && Blanks(p.blanks) && IsHash(p.hash) && e.hash == LowerAll(p.hash)
    && ':' !in p.size && 1 <= |p.size| <= 31 && (exists spaces, sign, digits :: IsSize(p.size, spaces, sign, digits, e.size))
    && p.name != "" && !(p.name[|p.name| - 1] in {' ', '\t', '\n', '\r'}) && LineEnd(p.end)
    && e.name == CStr(if |p.name| <= 159 then p.name else p.name[..159])
  }

  /** An empty line, a comment, or the end of a line alone. */
  ghost predicate IsQuietLine(line: string, blanks: string, rest: string) {
    line == blanks + rest && Blanks(blanks) && (rest == "" || rest[0] == '#' || rest[0] == '\r')
  }

  // ---- blanks ----

  lemma {:induction false} SkipBlanksIs(blanks: string, rest: string)
    requires Blanks(blanks) && (rest == "" || !IsBlank(rest[0]))
    ensures SkipBlanks(blanks + rest) == rest
  {
    if blanks == "" {
      assert blanks + rest == rest;
    } else {
      assert (blanks + rest)[1..] == blanks[1..] + rest;
      SkipBlanksIs(blanks[1..], rest);
    }
  }

  lemma {:induction false} SkippedBlanks(s: string) returns (blanks: string)
    ensures Blanks(blanks) && s == blanks + SkipBlanks(s) && (SkipBlanks(s) == "" || !IsBlank(SkipBlanks(s)[0]))
  {
    if s != "" && IsBlank(s[0]) {
      var more := SkippedBlanks(s[1..]);
      blanks := [s[0]] + more;
    } else {
      blanks := "";
    }
  }

  lemma {:induction false} SkipSpacesIs(spaces: string, rest: string)
    requires Spaces(spaces) && (rest == "" || !IsSpace(rest[0]))
    ensures SkipSpaces(spaces + rest) == rest
  {
    if spaces == "" {
      assert spaces + rest == rest;
    } else {
      assert (spaces + rest)[1..] == spaces[1..] + rest;
      SkipSpacesIs(spaces[1..], rest);
    }
  }

  lemma {:induction false} SkippedSpaces(s: string) returns (spaces: string)
    ensures Spaces(spaces) && s == spaces + SkipSpaces(s)
  {
    if s != "" && IsSpace(s[0]) {
      var more := SkippedSpaces(s[1..]);
      spaces := [s[0]] + more;
    } else {
      spaces := "";
    }
  }

  lemma {:induction false} TrimRightIs(name: string, end: string)
    requires name != "" && !IsTrimmed(name[|name| - 1]) && LineEnd(end)
    ensures TrimRight(name + end) == name
    decreases |end|
  {
    if end == "" {
      assert name + end == name;
    } else {
      assert (name + end)[..|name + end| - 1] == name + end[..|end| - 1];
      TrimRightIs(name, end[..|end| - 1]);
    }
  }

  lemma {:induction false} TrimmedEnd(s: string) returns (end: string)
    ensures LineEnd(end) && s == TrimRight(s) + end
    decreases |s|
  {
    if s != "" && IsTrimmed(s[|s| - 1]) {
      var less := TrimmedEnd(s[..|s| - 1]);
      end := less + [s[|s| - 1]];
    } else {
      end := "";
    }
  }

  // ---- numbers ----

  lemma SizeRead(s: string, spaces: string, sign: string, digits: string, size: nat)
    requires IsSize(s, spaces, sign, digits, size)
    ensures Strtoull(s) == Some(size)
  {
    hide DigitsValue;
    var rest := sign + digits;
    assert s == spaces + rest && IsDigit(digits[0]);
    SkipSpacesIs(spaces, rest);
    assert sign != "" ==> rest[1..] == digits;
    assert sign == "" ==> rest == digits;
  }

  lemma ReadSize(s: string, size: nat)
    requires Strtoull(s) == Some(size)
    ensures exists spaces, sign, digits :: IsSize(s, spaces, sign, digits, size)
  {
    hide DigitsValue, SkipSpaces;
    var spaces := SkippedSpaces(s);
    var rest := SkipSpaces(s);
    var sign, digits := "", rest;
    if rest != "" && (rest[0] == '-' || rest[0] == '+') {
      sign, digits := [rest[0]], rest[1..];
      assert rest == sign + digits;
    }
    assert s == spaces + sign + digits;
    assert IsSize(s, spaces, sign, digits, size);
  }

  lemma HashIs(hash: string)
    ensures IsHash(hash) <==> |hash| == 64 && AllHex(hash)
    ensures IsHash(hash) ==> ':' !in hash && !IsBlank(hash[0]) && hash[0] != '#' && hash[0] != '\r' && NUL !in LowerAll(hash)
  {
  }

  // ---- exactly the entries ----

  lemma EntryRead(line: string, p: Parts, e: Signature)
    requires IsEntryLine(line, p, e)
    ensures ParseLine(line) == Entry(e)
  {
    hide IsHash, AllHex, LowerAll, Strtoull, CStr, SkipBlanks, IndexOf, TrimRight, IsSize;
    HashIs(p.hash);
    var tail := p.name + p.end;
    var rest := p.size + ":" + tail;
    var body := p.hash + ":" + rest;
    assert line == p.blanks + body && body[0] == p.hash[0];
    SkipBlanksIs(p.blanks, body);
    SplitAtColon(body, p.hash, rest);
    SplitAtColon(rest, p.size, tail);
    TrimRightIs(p.name, p.end);
    var spaces, sign, digits :| IsSize(p.size, spaces, sign, digits, e.size);
    SizeRead(p.size, spaces, sign, digits, e.size);
    CStrOfNulFree(LowerAll(p.hash));
  }

  /** The three fields of a line that is not quiet, as parse_line cuts it. */
  lemma LineIsCut(line: string) returns (blanks: string, hash: string, size: string, tail: string)
    requires ParseLine(line).Entry?
    ensures Blanks(blanks) && line == blanks + hash + ":" + size + ":" + tail && |hash| == 64 && ':' !in size
    ensures ParseLine(line) == Fields(hash, size, tail)
  {
    hide Fields, SkipBlanks, IndexOf;
    blanks := SkippedBlanks(line);
    var body := SkipBlanks(line);
    var hashEnd := IndexOf(body, ':');
    hash := body[..hashEnd];
    var rest := body[hashEnd + 1..];
    var sizeEnd := IndexOf(rest, ':');
    size, tail := rest[..sizeEnd], rest[sizeEnd + 1..];
    AtColon(body, hashEnd);
    AtColon(rest, sizeEnd);
    assert line == blanks + (hash + ":" + (size + ":" + tail));
  }

  lemma AtColon(s: string, i: nat)
    requires i < |s| && s[i] == ':'
    ensures s == s[..i] + ":" + s[i + 1..]
  {
  }

  lemma ReadEntry(line: string, e: Signature)
    requires ParseLine(line) == Entry(e)
    ensures exists p :: IsEntryLine(line, p, e)
  {
    hide IsHash, AllHex, LowerAll, Strtoull, CStr, TrimRight, IsSize, ParseLine;
    var blanks, hash, size, tail := LineIsCut(line);
    HashIs(hash);
    var end := TrimmedEnd(tail);
    ReadSize(size, e.size);
    NoTrimmedEnd(tail);
    CStrOfNulFree(LowerAll(hash));
    assert IsEntryLine(line, Parts(blanks, hash, size, TrimRight(tail), end), e);
  }

  lemma NoTrimmedEnd(s: string)
    ensures var name := TrimRight(s); name != "" ==> !(name[|name| - 1] in {' ', '\t', '\n', '\r'})
  {
    hide TrimRight;
  }

  /** A line is an entry if and only if it has that shape. */
  lemma EntryIff(line: string, e: Signature)
    ensures ParseLine(line) == Entry(e) <==> exists p :: IsEntryLine(line, p, e)
  {
    hide IsEntryLine, ParseLine;
    if ParseLine(line) == Entry(e) {
      ReadEntry(line, e);
    }
    forall p | IsEntryLine(line, p, e) ensures ParseLine(line) == Entry(e) {
      EntryRead(line, p, e);
    }
  }

  lemma FieldsAreLoud(hash: string, size: string, rest: string)
    ensures Fields(hash, size, rest) != Quiet
  {
  }

  /** A line is passed over in silence if and only if it is empty or a comment; any other is malformed. */
  lemma QuietIff(line: string)
    ensures ParseLine(line) == Quiet <==> exists blanks, rest :: IsQuietLine(line, blanks, rest)
  {
    hide IndexOf, Fields, SkipBlanks;
    var skipped := SkippedBlanks(line);
    if ParseLine(line) == Quiet {
      forall hash, size, rest ensures Fields(hash, size, rest) != Quiet {
        FieldsAreLoud(hash, size, rest);
      }
      assert IsQuietLine(line, skipped, SkipBlanks(line));
    }
    forall blanks, rest | IsQuietLine(line, blanks, rest) ensures ParseLine(line) == Quiet {
      SkipBlanksIs(blanks, rest);
    }
  }
}
