/**
  Which bytes are a shortcut, and with what target and arguments (parse_lnk in
  src/detectors/lnk_inspect.c): the sections of [MS-SHLLINK] one after the other, by their offsets.
 */
module LnkLayout {
  import opened CText
  import opened Lnk

  // ---- the bytes ----

  function Word(s: seq<byte>, at: nat): nat
    requires at + 2 <= |s|
  {
    (s[at] as nat) + 256 * (s[at + 1] as nat)
  }

  function Double(s: seq<byte>, at: nat): nat
    requires at + 4 <= |s|
  {
    Word(s, at) + 65536 * Word(s, at + 2)
  }

  /** Bit `weight` of the first byte of the LinkFlags. */
  predicate Bit(s: seq<byte>, weight: nat)
    requires |s| >= 76 && weight > 0
  {
    (s[20] as nat) / weight % 2 == 1
  }

  // ---- the sections ----

  /** The first 76 bytes: their number, and the class identifier. */
  predicate IsHeader(s: seq<byte>) {
    && |s| >= 76 && Double(s, 0) == 76
    && s[4..20] == [0x01, 0x14, 0x02, 0, 0, 0, 0, 0, 0xC0, 0, 0, 0, 0, 0, 0, 0x46]
  }

  /** Two bytes of length and that many more. */
  predicate IsIdList(s: seq<byte>, at: nat, length: nat) {
    at + 2 <= |s| && length == 2 + Word(s, at) && at + length <= |s|
  }

  /** What the bytes up to the first NUL, at most `max` of them, say. */
  function Plainly(s: seq<byte>, max: nat): string {
    var text := CStr(Text(s));
    if |text| <= max then text else text[..max]
  }

  /**
    A LinkInfo structure by its declared length.  It names a local path when its header has 28 bytes or
    more and its first flag is set; the path starts inside the structure.
   */
  predicate IsLinkInfo(s: seq<byte>, at: nat, length: nat, target: cstring) {
    && at + 12 <= |s| && length == Double(s, at) && length >= 4 && at + length <= |s|
    && if Double(s, at + 4) < 28 || s[at + 8] % 2 == 0 then target == ""
       else
         && at + 20 <= |s| && Double(s, at + 16) < length
         && target == Plainly(s[at + Double(s, at + 16)..at + length], 519)
  }

  /** One character of a string, '?' when it is not ASCII. */
  function Letter(s: seq<byte>, at: nat, wide: bool, i: nat): char
    requires at + (if wide then 2 * i + 1 else i) < |s|
  {
    if wide then if s[at + 2 * i] < 128 && s[at + 2 * i + 1] == 0 then s[at + 2 * i] as char else '?'
    else if s[at + i] < 128 then s[at + i] as char else '?'
  }

  /** Two bytes of length and that many characters, of one or two bytes. */
  predicate IsString(s: seq<byte>, at: nat, length: nat, wide: bool) {
    at + 2 <= |s| && length == 2 + Word(s, at) * (if wide then 2 else 1) && at + length <= |s|
  }

  /** The characters of a string, at most 1023 of them, up to the first NUL. */
  ghost predicate SaysString(s: seq<byte>, at: nat, wide: bool, text: cstring)
    requires at + 2 <= |s| && at + 2 + Word(s, at) * (if wide then 2 else 1) <= |s|
  {
    exists letters: string ::
      && |letters| == (if Word(s, at) <= 1023 then Word(s, at) else 1023)
      && (forall i | 0 <= i < |letters| :: letters[i] == Letter(s, at + 2, wide, i))
      && text == CStr(letters)
  }

  /** The lengths of the sections; one that is absent has none. */
  datatype Lengths = Lengths(idList: nat, info: nat, name: nat, path: nat, dir: nat, arguments: nat)

  predicate Optionally(present: bool, length: nat, s: seq<byte>, at: nat, wide: bool) {
    if present then IsString(s, at, length, wide) else length == 0
  }

  /** Where LinkInfo and the arguments begin. */
  function InfoAt(l: Lengths): nat {
    76 + l.idList
  }

  function ArgumentsAt(l: Lengths): nat {
    76 + l.idList + l.info + l.name + l.path + l.dir
  }

  /** A shortcut: all that its flags announce follows the header in order; what comes after does not matter. */
  ghost predicate IsShortcut(s: seq<byte>, l: Lengths, p: Parsed) {
    && IsHeader(s)
    && var wide := Bit(s, 0x80);
       && (if Bit(s, 0x01) then IsIdList(s, 76, l.idList) else l.idList == 0)
       && (if Bit(s, 0x02) then IsLinkInfo(s, InfoAt(l), l.info, p.target) else l.info == 0 && p.target == "")
       && Optionally(Bit(s, 0x04), l.name, s, InfoAt(l) + l.info, wide)
       && Optionally(Bit(s, 0x08), l.path, s, InfoAt(l) + l.info + l.name, wide)
       && Optionally(Bit(s, 0x10), l.dir, s, InfoAt(l) + l.info + l.name + l.path, wide)
       && Optionally(Bit(s, 0x20), l.arguments, s, ArgumentsAt(l), wide)
       && (if Bit(s, 0x20) then SaysString(s, ArgumentsAt(l), wide, p.arguments) else p.arguments == "")
  }

  // ---- the sections as they are parsed ----

  lemma Numbers(s: seq<byte>, at: nat)
    requires at <= |s|
    ensures at + 2 <= |s| ==> U16(s[at..]) == Word(s, at)
    ensures at + 4 <= |s| ==> U32(s[at..]) == Double(s, at)
  {
  }

  lemma HeaderIs(s: seq<byte>)
    ensures Header(s).Some? <==> IsHeader(s)
    ensures Header(s).Some? ==> Header(s).value.used == 76 && Header(s).value.value == Double(s, 20)
  {
    if |s| >= 76 {
      Numbers(s, 0);
      Numbers(s, 20);
      assert s[0..] == s;
    }
  }

  /** The flags the parser looks at are bits of the first byte. */
  lemma FlagIs(s: seq<byte>)
    requires |s| >= 76
    ensures var flags := Double(s, 20);
            && (HasFlag(flags, 0x01) <==> Bit(s, 0x01)) && (HasFlag(flags, 0x02) <==> Bit(s, 0x02))
            && (HasFlag(flags, 0x04) <==> Bit(s, 0x04)) && (HasFlag(flags, 0x08) <==> Bit(s, 0x08))
            && (HasFlag(flags, 0x10) <==> Bit(s, 0x10)) && (HasFlag(flags, 0x20) <==> Bit(s, 0x20))
            && (HasFlag(flags, 0x80) <==> Bit(s, 0x80))
  {
    var low := s[20] as nat;
    var high := (s[21] as nat) + 256 * Word(s, 22);
    assert Double(s, 20) == low + 256 * high;
    BitOfSum(low, high, 0x01);
    BitOfSum(low, high, 0x02);
    BitOfSum(low, high, 0x04);
    BitOfSum(low, high, 0x08);
    BitOfSum(low, high, 0x10);
    BitOfSum(low, high, 0x20);
    BitOfSum(low, high, 0x80);
  }

  lemma Halves(a: nat, b: nat)
    ensures (a + 2 * b) % 2 == a % 2
  {
  }

  lemma Quotients(low: nat, high: nat)
    ensures (low + 256 * high) / 2 == low / 2 + 128 * high && (low + 256 * high) / 4 == low / 4 + 64 * high
    ensures (low + 256 * high) / 8 == low / 8 + 32 * high && (low + 256 * high) / 16 == low / 16 + 16 * high
    ensures (low + 256 * high) / 32 == low / 32 + 8 * high && (low + 256 * high) / 128 == low / 128 + 2 * high
  {
  }

  lemma BitOfSum(low: nat, high: nat, weight: nat)
    requires weight in {0x01, 0x02, 0x04, 0x08, 0x10, 0x20, 0x80}
    ensures (low + 256 * high) / weight % 2 == low / weight % 2
  {
    Quotients(low, high);
    Halves(low, 128 * high);
    Halves(low / 2, 64 * high);
    Halves(low / 4, 32 * high);
    Halves(low / 8, 16 * high);
    Halves(low / 16, 8 * high);
    Halves(low / 32, 4 * high);
    Halves(low / 128, high);
  }

  lemma IdListIs(s: seq<byte>, at: nat)
    requires at <= |s|
    ensures var r := IdList(s[at..]);
            && (r.Some? ==> IsIdList(s, at, r.value.used))
            && (forall n | IsIdList(s, at, n) :: r.Some? && r.value.used == n)
  {
    Numbers(s, at);
  }

  /** The numbers a LinkInfo structure begins with. */
  lemma InfoNumbers(s: seq<byte>, at: nat)
    requires at <= |s|
    ensures var rest := s[at..];
            && (at + 4 <= |s| ==> U32(rest) == Double(s, at))
            && (at + 12 <= |s| ==> U32(rest[4..]) == Double(s, at + 4) && (HasFlag(U32(rest[8..]), 1) <==> s[at + 8] % 2 == 1))
            && (at + 20 <= |s| ==> U32(rest[16..]) == Double(s, at + 16))
  {
    hide Double, U32, HasFlag;
    var rest := s[at..];
    Numbers(s, at);
    if at + 12 <= |s| {
      Numbers(s, at + 4);
      Numbers(s, at + 8);
      assert rest[4..] == s[at + 4..] && rest[8..] == s[at + 8..];
      FirstFlag(s, at + 8);
    }
    if at + 20 <= |s| {
      Numbers(s, at + 16);
      assert rest[16..] == s[at + 16..];
    }
  }

  lemma InfoTarget(s: seq<byte>, at: nat, offset: nat, size: nat)
    requires offset <= size && at + size <= |s|
    ensures Truncated(CStr(Text(s[at..][offset..size])), TARGET_MAX) == Plainly(s[at + offset..at + size], 519)
  {
    hide CStr;
    assert s[at..][offset..size] == s[at + offset..at + size];
  }

  lemma LinkInfoIs(s: seq<byte>, at: nat)
    requires at <= |s|
    ensures var r := LinkInfo(s[at..]);
            && (r.Some? ==> IsLinkInfo(s, at, r.value.used, r.value.value))
            && (forall n, t | IsLinkInfo(s, at, n, t) :: r.Some? && r.value.used == n && r.value.value == t)
  {
    hide Double, U32, CStr, HasFlag, Text, Plainly, Truncated;
    InfoNumbers(s, at);
    if at + 20 <= |s| {
      var size, offset := Double(s, at), Double(s, at + 16);
      if at + size <= |s| && offset < size {
        InfoTarget(s, at, offset, size);
      }
    }
  }

  lemma FirstFlag(s: seq<byte>, at: nat)
    requires at + 4 <= |s|
    ensures HasFlag(Double(s, at), 1) <==> s[at] % 2 == 1
  {
  }

  lemma StringIs(s: seq<byte>, at: nat, wide: bool)
    requires at <= |s|
    ensures var r := StringData(s[at..], wide);
            && (r.Some? ==> IsString(s, at, r.value.used, wide) && SaysString(s, at, wide, r.value.value))
            && (forall n | IsString(s, at, n, wide) :: r.Some? && r.value.used == n)
  {
    hide CStr;
    Numbers(s, at);
    if at + 2 <= |s| {
      var count := Word(s, at);
      var size := 2 + count * Width(wide);
      if at + size <= |s| {
        var body := s[at..][2..size];
        assert body == s[at + 2..at + size];
        var letters := Cut(Chars(body, wide, count), ARGS_MAX);
        forall i | 0 <= i < |letters| ensures letters[i] == Letter(s, at + 2, wide, i) {
          assert letters[i] == CharAt(body, wide, i);
        }
      }
    }
  }

  lemma SaysOne(s: seq<byte>, at: nat, wide: bool, a: cstring, b: cstring)
    requires at + 2 <= |s| && at + 2 + Word(s, at) * (if wide then 2 else 1) <= |s|
    requires SaysString(s, at, wide, a) && SaysString(s, at, wide, b)
    ensures a == b
  {
    hide CStr;
    var size := if Word(s, at) <= 1023 then Word(s, at) else 1023;
    var x: string :| |x| == size && (forall i | 0 <= i < |x| :: x[i] == Letter(s, at + 2, wide, i)) && a == CStr(x);
    var y: string :| |y| == size && (forall i | 0 <= i < |y| :: y[i] == Letter(s, at + 2, wide, i)) && b == CStr(y);
    assert x == y;
  }

  // ---- one section after the other ----

  lemma ThenFrom<A, B, C>(p: Parser<A>, q: Parser<B>, f: (A, B) -> C, s: seq<byte>, at: nat)
    requires at <= |s|
    ensures var (a, r) := (p(s[at..]), Then(p, q, f)(s[at..]));
            if a.None? || at + a.value.used > |s| then r.None?
            else
              var b := q(s[at + a.value.used..]);
              if b.None? then r.None?
              else r.Some? && r.value.value == f(a.value.value, b.value.value) && r.value.used == a.value.used + b.value.used
  {
    var a := p(s[at..]);
    if a.Some? && at + a.value.used <= |s| {
      assert s[at..][a.value.used..] == s[at + a.value.used..];
    }
  }

  /** A string that may be left out. */
  lemma StringSectionIs(s: seq<byte>, flags: nat, flag: nat, at: nat)
    requires at <= |s| && flag > 0
    ensures var (r, present, wide) := (StringSection(flags, flag)(s[at..]), HasFlag(flags, flag), HasFlag(flags, IS_UNICODE));
            && (r.Some? ==> Optionally(present, r.value.used, s, at, wide) && at + r.value.used <= |s|
                            && if present then SaysString(s, at, wide, r.value.value) else r.value.value == "")
            && (forall n | Optionally(present, n, s, at, wide) :: r.Some? && r.value.used == n)
  {
    hide IsString, SaysString, HasFlag;
    StringFits(s, at, HasFlag(flags, IS_UNICODE));
    StringIs(s, at, HasFlag(flags, IS_UNICODE));
  }

  lemma StringFits(s: seq<byte>, at: nat, wide: bool)
    ensures forall n | IsString(s, at, n, wide) :: at + n <= |s|
  {
  }

  /** The four strings from an offset on. */
  ghost predicate AreStrings(s: seq<byte>, flags: nat, at: nat, l: Lengths) {
    var wide := HasFlag(flags, IS_UNICODE);
    && Optionally(HasFlag(flags, HAS_NAME), l.name, s, at, wide)
    && Optionally(HasFlag(flags, HAS_RELATIVE_PATH), l.path, s, at + l.name, wide)
    && Optionally(HasFlag(flags, HAS_WORKING_DIR), l.dir, s, at + l.name + l.path, wide)
    && Optionally(HasFlag(flags, HAS_ARGUMENTS), l.arguments, s, at + l.name + l.path + l.dir, wide)
  }

  lemma OptionallyFits(present: bool, length: nat, s: seq<byte>, at: nat, wide: bool)
    requires Optionally(present, length, s, at, wide) && at <= |s|
    ensures at + length <= |s|
  {
  }

  /** What the parser makes of the four strings. */
  lemma StringsOf(s: seq<byte>, flags: nat, at: nat) returns (l: Lengths)
    requires at <= |s| && Strings(flags)(s[at..]).Some?
    ensures AreStrings(s, flags, at, l)
    ensures var (from, text) := (at + l.name + l.path + l.dir, Strings(flags)(s[at..]).value.value);
            if HasFlag(flags, HAS_ARGUMENTS) then from + 2 <= |s| && IsString(s, from, l.arguments, HasFlag(flags, IS_UNICODE))
                                                  && SaysString(s, from, HasFlag(flags, IS_UNICODE), text)
            else text == ""
  {
    hide StringSection, HasFlag, Then, IsString, SaysString, Optionally;
    var (name, path, dir, arguments) := (StringSection(flags, HAS_NAME), StringSection(flags, HAS_RELATIVE_PATH),
                                         StringSection(flags, HAS_WORKING_DIR), StringSection(flags, HAS_ARGUMENTS));
    var two := Then(dir, arguments, Second);
    var three := Then(path, two, Second);
    ThenFrom(name, three, Second, s, at);
    StringSectionIs(s, flags, HAS_NAME, at);
    var a := name(s[at..]).value.used;
    ThenFrom(path, two, Second, s, at + a);
    StringSectionIs(s, flags, HAS_RELATIVE_PATH, at + a);
    var b := path(s[at + a..]).value.used;
    ThenFrom(dir, arguments, Second, s, at + a + b);
    StringSectionIs(s, flags, HAS_WORKING_DIR, at + a + b);
    var c := dir(s[at + a + b..]).value.used;
    StringSectionIs(s, flags, HAS_ARGUMENTS, at + a + b + c);
    l := Lengths(0, 0, a, b, c, arguments(s[at + a + b + c..]).value.used);
    StringStarts(s, at + a + b + c, l.arguments, HasFlag(flags, IS_UNICODE));
    OptionallyIs(HasFlag(flags, HAS_ARGUMENTS), l.arguments, s, at + a + b + c, HasFlag(flags, IS_UNICODE));
  }

  lemma OptionallyIs(present: bool, length: nat, s: seq<byte>, at: nat, wide: bool)
    requires Optionally(present, length, s, at, wide)
    ensures if present then IsString(s, at, length, wide) else length == 0
  {
  }

  lemma StringStarts(s: seq<byte>, at: nat, n: nat, wide: bool)
    ensures IsString(s, at, n, wide) ==> at + 2 <= |s|
  {
  }

  lemma StringsFound(s: seq<byte>, flags: nat, at: nat, l: Lengths)
    requires at <= |s| && AreStrings(s, flags, at, l)
    ensures Strings(flags)(s[at..]).Some?
    ensures var (from, text) := (at + l.name + l.path + l.dir, Strings(flags)(s[at..]).value.value);
            if HasFlag(flags, HAS_ARGUMENTS) then from + 2 <= |s| && IsString(s, from, l.arguments, HasFlag(flags, IS_UNICODE))
                                                  && SaysString(s, from, HasFlag(flags, IS_UNICODE), text)
            else text == ""
  {
    hide StringSection, HasFlag, ThenAt, IsString, SaysString;
    var wide := HasFlag(flags, IS_UNICODE);
    var (name, path, dir, arguments) := (StringSection(flags, HAS_NAME), StringSection(flags, HAS_RELATIVE_PATH),
                                         StringSection(flags, HAS_WORKING_DIR), StringSection(flags, HAS_ARGUMENTS));
    var two := Then(dir, arguments, Second);
    StringSectionIs(s, flags, HAS_NAME, at);
    StringSectionIs(s, flags, HAS_RELATIVE_PATH, at + l.name);
    StringSectionIs(s, flags, HAS_WORKING_DIR, at + l.name + l.path);
    StringSectionIs(s, flags, HAS_ARGUMENTS, at + l.name + l.path + l.dir);
    ThenFrom(dir, arguments, Second, s, at + l.name + l.path);
    ThenFrom(path, two, Second, s, at + l.name);
    ThenFrom(name, Then(path, two, Second), Second, s, at);
    StringStarts(s, at + l.name + l.path + l.dir, l.arguments, wide);
  }

  // ---- the whole ----

  lemma IdListSection(s: seq<byte>, present: bool, at: nat)
    requires at <= |s|
    ensures var r := Optional(present, IdList)(s[at..]);
            r.Some? ==> (if present then IsIdList(s, at, r.value.used) else r.value.used == 0) && at + r.value.used <= |s|
  {
    hide IdList;
    IdListIs(s, at);
  }

  lemma IdListFound(s: seq<byte>, present: bool, at: nat, n: nat)
    requires at <= |s| && if present then IsIdList(s, at, n) else n == 0
    ensures var r := Optional(present, IdList)(s[at..]);
            r.Some? && r.value.used == n && at + n <= |s|
  {
    hide IdList;
    IdListIs(s, at);
  }

  lemma InfoSection(s: seq<byte>, present: bool, at: nat)
    requires at <= |s|
    ensures var r := Optional(present, LinkInfo)(s[at..]);
            r.Some? ==> (if present then IsLinkInfo(s, at, r.value.used, r.value.value)
                         else r.value.used == 0 && r.value.value == "") && at + r.value.used <= |s|
  {
    hide LinkInfo, IsLinkInfo;
    LinkInfoIs(s, at);
    InfoFits(s, at);
  }

  lemma InfoFound(s: seq<byte>, present: bool, at: nat, n: nat, target: cstring)
    requires at <= |s| && if present then IsLinkInfo(s, at, n, target) else n == 0 && target == ""
    ensures var r := Optional(present, LinkInfo)(s[at..]);
            r.Some? && r.value.used == n && r.value.value == target && at + n <= |s|
  {
    hide LinkInfo, IsLinkInfo;
    LinkInfoIs(s, at);
    InfoFits(s, at);
  }

  lemma InfoFits(s: seq<byte>, at: nat)
    ensures forall n, t | IsLinkInfo(s, at, n, t) :: at + n <= |s|
  {
  }

  /** The sections after the header, with the flags as the parser tests them. */
  ghost predicate IsBody(s: seq<byte>, flags: nat, l: Lengths, p: Parsed) {
    && |s| >= 76
    && (if HasFlag(flags, HAS_ID_LIST) then IsIdList(s, 76, l.idList) else l.idList == 0)
    && (if HasFlag(flags, HAS_LINK_INFO) then IsLinkInfo(s, InfoAt(l), l.info, p.target) else l.info == 0 && p.target == "")
    && AreStrings(s, flags, InfoAt(l) + l.info, l)
    && (if HasFlag(flags, HAS_ARGUMENTS) then
          && IsString(s, ArgumentsAt(l), l.arguments, HasFlag(flags, IS_UNICODE))
          && SaysString(s, ArgumentsAt(l), HasFlag(flags, IS_UNICODE), p.arguments)
        else p.arguments == "")
  }

  lemma BodyOf(s: seq<byte>, flags: nat) returns (l: Lengths)
    requires |s| >= 76 && Body(flags)(s[76..]).Some?
    ensures IsBody(s, flags, l, Body(flags)(s[76..]).value.value)
  {
    hide HasFlag, ThenAt, Strings, IsString, SaysString, IsLinkInfo, IsIdList, AreStrings, Optional;
    var ids, info := Optional(HasFlag(flags, HAS_ID_LIST), IdList), Optional(HasFlag(flags, HAS_LINK_INFO), LinkInfo);
    var strings := Strings(flags);
    ThenFrom(ids, Then(info, strings, Both), Rest, s, 76);
    IdListSection(s, HasFlag(flags, HAS_ID_LIST), 76);
    var a := ids(s[76..]).value.used;
    ThenFrom(info, strings, Both, s, 76 + a);
    InfoSection(s, HasFlag(flags, HAS_LINK_INFO), 76 + a);
    var b := info(s[76 + a..]).value.used;
    var m := StringsOf(s, flags, 76 + a + b);
    l := m.(idList := a, info := b);
    OtherLengths(s, flags, 76 + a + b, m, l);
  }

  lemma OtherLengths(s: seq<byte>, flags: nat, at: nat, m: Lengths, l: Lengths)
    requires AreStrings(s, flags, at, m) && m.(idList := l.idList, info := l.info) == l
    ensures AreStrings(s, flags, at, l)
  {
    hide HasFlag, Optionally;
  }

  lemma BodyFound(s: seq<byte>, flags: nat, l: Lengths, p: Parsed)
    requires IsBody(s, flags, l, p)
    ensures Body(flags)(s[76..]).Some? && Body(flags)(s[76..]).value.value == p
  {
    hide HasFlag, ThenAt, Strings, IsString, SaysString, IsLinkInfo, IsIdList, AreStrings, Optional;
    var ids, info := Optional(HasFlag(flags, HAS_ID_LIST), IdList), Optional(HasFlag(flags, HAS_LINK_INFO), LinkInfo);
    var strings := Strings(flags);
    IdListFound(s, HasFlag(flags, HAS_ID_LIST), 76, l.idList);
    InfoFound(s, HasFlag(flags, HAS_LINK_INFO), 76 + l.idList, l.info, p.target);
    StringsFound(s, flags, InfoAt(l) + l.info, l);
    ThenFrom(info, strings, Both, s, 76 + l.idList);
    ThenFrom(ids, Then(info, strings, Both), Rest, s, 76);
    if HasFlag(flags, HAS_ARGUMENTS) {
      SaysTheOne(s, ArgumentsAt(l), l.arguments, HasFlag(flags, IS_UNICODE), p.arguments, strings(s[InfoAt(l) + l.info..]).value.value);
    }
  }

  lemma SaysTheOne(s: seq<byte>, at: nat, n: nat, wide: bool, a: cstring, b: cstring)
    requires IsString(s, at, n, wide) && SaysString(s, at, wide, a) && SaysString(s, at, wide, b)
    ensures a == b
  {
    SaysOne(s, at, wide, a, b);
  }

  lemma BodyIsShortcut(s: seq<byte>, l: Lengths, p: Parsed)
    requires IsHeader(s)
    ensures IsBody(s, Double(s, 20), l, p) <==> IsShortcut(s, l, p)
  {
    hide HasFlag, Bit, IsString, SaysString, IsLinkInfo, IsIdList, Double;
    FlagIs(s);
  }

  /** Bytes are parsed as a shortcut with this target and these arguments if and only if they are laid out as one. */
  lemma ParsedIffLaidOut(s: seq<byte>, p: Parsed)
    ensures Parse(s) == Some(p) <==> exists l :: IsShortcut(s, l, p)
  {
    hide Body, IsBody, IsShortcut, Header, IsHeader;
    HeaderIs(s);
    if Parse(s) == Some(p) {
      LongEnough(s);
      var l := BodyOf(s, Double(s, 20));
      BodyIsShortcut(s, l, p);
      assert IsShortcut(s, l, p);
    }
    forall l | IsShortcut(s, l, p) ensures Parse(s) == Some(p) {
      ShortcutHasHeader(s, l, p);
      LongEnough(s);
      BodyIsShortcut(s, l, p);
      BodyFound(s, Double(s, 20), l, p);
    }
  }

  lemma LongEnough(s: seq<byte>)
    requires IsHeader(s)
    ensures |s| >= 76
  {
  }

  lemma ShortcutHasHeader(s: seq<byte>, l: Lengths, p: Parsed)
    requires IsShortcut(s, l, p)
    ensures IsHeader(s)
  {
  }
}
