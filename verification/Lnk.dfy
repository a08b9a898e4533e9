/**
  The shortcut parser of src/detectors/lnk_inspect.c ([MS-SHLLINK] sections 2.1 to 2.4).
  A parser is a function of the bytes from its own offset on; it says how many bytes it uses up and
  how far it had to look.
 */
module Lnk {
  import opened CText

  type byte = x: int | 0 <= x < 256

  /** `used` bytes are consumed; the first `reach` bytes had to be there. */
  datatype Step<+T> = Step(value: T, used: nat, reach: nat)

  type Parser<!T> = seq<byte> -> Option<Step<T>>

  /** The target and the arguments; empty when the shortcut has none. */
  datatype Parsed = Parsed(target: cstring, arguments: cstring)

  const HEADER_SIZE := 76
  const TARGET_MAX := 520
  const ARGS_MAX := 1024
  const CLSID: seq<byte> := [1, 0x14, 2, 0, 0, 0, 0, 0, 0xC0, 0, 0, 0, 0, 0, 0, 0x46]

  // LinkFlags, section 2.1.1.
  const HAS_ID_LIST := 0x01
  const HAS_LINK_INFO := 0x02
  const HAS_NAME := 0x04
  const HAS_RELATIVE_PATH := 0x08
  const HAS_WORKING_DIR := 0x10
  const HAS_ARGUMENTS := 0x20
  const IS_UNICODE := 0x80

  predicate HasFlag(flags: nat, flag: nat)
    requires flag > 0
  {
    flags / flag % 2 == 1
  }

  function U16(s: seq<byte>): nat
    requires |s| >= 2
  {
    s[0] as int + 0x100 * (s[1] as int)
  }

  function U32(s: seq<byte>): nat
    requires |s| >= 4
  {
    s[0] as int + 0x100 * (s[1] as int) + 0x1_0000 * (s[2] as int) + 0x100_0000 * (s[3] as int)
  }

  function Max(a: nat, b: nat): nat {
    if a < b then b else a
  }

  function Text(s: seq<byte>): (t: string)
    ensures |t| == |s|
    ensures forall i | 0 <= i < |s| :: t[i] as int == s[i]
  {
    seq(|s|, i requires 0 <= i < |s| => s[i] as char)
  }

  /** The i-th character of a string block, '?' when it is not ASCII. */
  function CharAt(s: seq<byte>, isUnicode: bool, i: nat): char
    requires (if isUnicode then 2 * i + 1 else i) < |s|
  {
    if isUnicode then if s[2 * i + 1] != 0 || s[2 * i] >= 0x80 then '?' else s[2 * i] as char
    else if s[i] >= 0x80 then '?' else s[i] as char
  }

  function Width(isUnicode: bool): nat {
    if isUnicode then 2 else 1
  }

  function Chars(s: seq<byte>, isUnicode: bool, count: nat): (t: string)
    requires count * Width(isUnicode) <= |s|
    ensures |t| == count
    ensures forall i | 0 <= i < count :: t[i] == CharAt(s, isUnicode, i)
  {
    seq(count, i requires 0 <= i < count => CharAt(s, isUnicode, i))
  }

  // ---- the sections ----

  /** ShellLinkHeader: its LinkFlags. */
  function Header(s: seq<byte>): Option<Step<nat>> {
    if |s| < HEADER_SIZE || U32(s) != HEADER_SIZE || s[4..20] != CLSID then None
    else Some(Step(U32(s[20..]), HEADER_SIZE, HEADER_SIZE))
  }

  /** LinkTargetIDList: skipped. */
  function IdList(s: seq<byte>): Option<Step<cstring>> {
    if |s| < 2 || |s| < 2 + U16(s) then None else Some(Step("", 2 + U16(s), 2 + U16(s)))
  }

  /**
    LinkInfo: the local base path, when the structure says it has one.  The header fields are
    checked against the end of the file, not against the size the structure declares.
   */
  function LinkInfo(s: seq<byte>): Option<Step<cstring>> {
    if |s| < 4 || |s| < U32(s) || U32(s) < 4 || |s| < 12 then None
    else if U32(s[4..]) < 0x1C || !HasFlag(U32(s[8..]), 1) then Some(Step("", U32(s), Max(U32(s), 12)))
    else if |s| < 20 || U32(s[16..]) >= U32(s) then None
    else Some(Step(Truncated(CStr(Text(s[U32(s[16..])..U32(s)])), TARGET_MAX), U32(s), Max(U32(s), 20)))
  }

  /** StringData: a count of characters and the characters. */
  function StringData(s: seq<byte>, isUnicode: bool): Option<Step<cstring>> {
    if |s| < 2 || |s| < 2 + U16(s) * Width(isUnicode) then None
    else
      var size := 2 + U16(s) * Width(isUnicode);
      Some(Step(CStr(Cut(Chars(s[2..size], isUnicode, U16(s)), ARGS_MAX)), size, size))
  }

  // ---- putting sections together ----

  function ThenAt<A, B, C>(p: Parser<A>, q: Parser<B>, f: (A, B) -> C, s: seq<byte>): Option<Step<C>> {
    var a := p(s);
    if a.None? || a.value.used > |s| then None
    else
      var b := q(s[a.value.used..]);
      if b.None? then None
      else
        Some(Step(f(a.value.value, b.value.value), a.value.used + b.value.used,
                  Max(a.value.reach, a.value.used + b.value.reach)))
  }

  function Then<A, B, C>(p: Parser<A>, q: Parser<B>, f: (A, B) -> C): Parser<C> {
    s => ThenAt(p, q, f, s)
  }

  function Nothing(s: seq<byte>): Option<Step<cstring>> {
    Some(Step("", 0, 0))
  }

  function Optional(present: bool, p: Parser<cstring>): Parser<cstring> {
    if present then p else Nothing
  }

  function Second(a: cstring, b: cstring): cstring {
    b
  }

  function Both(target: cstring, arguments: cstring): Parsed {
    Parsed(target, arguments)
  }

  function Rest(skipped: cstring, parsed: Parsed): Parsed {
    parsed
  }

  function StringParser(isUnicode: bool): Parser<cstring> {
    s => StringData(s, isUnicode)
  }

  function StringSection(flags: nat, flag: nat): Parser<cstring>
    requires flag > 0
  {
    Optional(HasFlag(flags, flag), StringParser(HasFlag(flags, IS_UNICODE)))
  }

  /** NAME_STRING, RELATIVE_PATH, WORKING_DIR and COMMAND_LINE_ARGUMENTS, in this order. */
  function Strings(flags: nat): Parser<cstring> {
    Then(StringSection(flags, HAS_NAME),
         Then(StringSection(flags, HAS_RELATIVE_PATH),
              Then(StringSection(flags, HAS_WORKING_DIR), StringSection(flags, HAS_ARGUMENTS), Second),
              Second),
         Second)
  }

  function Body(flags: nat): Parser<Parsed> {
    var fromInfo := Then(Optional(HasFlag(flags, HAS_LINK_INFO), LinkInfo), Strings(flags),
                         Both);
    Then(Optional(HasFlag(flags, HAS_ID_LIST), IdList), fromInfo, Rest)
  }

  function Link(s: seq<byte>): Option<Step<Parsed>> {
    var header := Header(s);
    if header.None? then None
    else
      var body := Body(header.value.value)(s[HEADER_SIZE..]);
      if body.None? then None
      else Some(Step(body.value.value, HEADER_SIZE + body.value.used, HEADER_SIZE + body.value.reach))
  }

  /** parse_lnk. */
  function Parse(s: seq<byte>): Option<Parsed> {
    if Link(s).None? then None else Some(Link(s).value.value)
  }

  // ---- a parser depends on nothing beyond its reach ----

  ghost predicate LocalAt<T>(p: Parser<T>, s: seq<byte>, t: seq<byte>) {
    p(s).Some? ==>
      var reach := p(s).value.reach;
      && p(s).value.used <= reach <= |s|
      && (|t| >= reach && t[..reach] == s[..reach] ==> p(t) == p(s))
      && (|t| < reach && t <= s ==> p(t) == None)
  }

  ghost predicate Local<T>(p: Parser<T>) {
    forall s, t :: LocalAt(p, s, t)
  }

  lemma U16Of(s: seq<byte>, t: seq<byte>, n: nat)
    requires 2 <= n <= |s| && n <= |t| && s[..n] == t[..n]
    ensures U16(s) == U16(t)
  {
    assert forall i | 0 <= i < n :: s[i] == s[..n][i] == t[..n][i] == t[i];
  }

  lemma U32Of(s: seq<byte>, t: seq<byte>, at: nat, n: nat)
    requires at + 4 <= n <= |s| && n <= |t| && s[..n] == t[..n]
    ensures U32(s[at..]) == U32(t[at..])
  {
    assert forall i | 0 <= i < n :: s[i] == s[..n][i] == t[..n][i] == t[i];
  }

  lemma SliceOf(s: seq<byte>, t: seq<byte>, from: nat, to: nat, n: nat)
    requires from <= to <= n <= |s| && n <= |t| && s[..n] == t[..n]
    ensures s[from..to] == t[from..to]
  {
    assert s[from..to] == s[..n][from..to];
    assert t[from..to] == t[..n][from..to];
  }

  lemma PrefixOf(s: seq<byte>, t: seq<byte>)
    requires t <= s
    ensures s[..|t|] == t[..|t|]
  {
  }

  lemma HeaderLocal()
    ensures Local(Header)
  {
    forall s: seq<byte>, t: seq<byte> ensures LocalAt(Header, s, t) {
      if Header(s).Some? && |t| >= HEADER_SIZE && t[..HEADER_SIZE] == s[..HEADER_SIZE] {
        U32Of(s, t, 0, HEADER_SIZE);
        U32Of(s, t, 20, HEADER_SIZE);
        SliceOf(s, t, 4, 20, HEADER_SIZE);
        assert s[0..] == s && t[0..] == t;
      }
    }
  }

  lemma IdListLocal()
    ensures Local(IdList)
  {
    forall s: seq<byte>, t: seq<byte> ensures LocalAt(IdList, s, t) {
      if IdList(s).Some? && |t| >= 2 {
        if t[..2] == s[..2] {
          U16Of(s, t, 2);
        }
        if |t| >= 2 + U16(s) && t[..2 + U16(s)] == s[..2 + U16(s)] {
          SliceOf(s, t, 0, 2, 2 + U16(s));
        }
      }
    }
  }

  lemma LinkInfoSame(s: seq<byte>, t: seq<byte>)
    requires LinkInfo(s).Some? && |t| >= LinkInfo(s).value.reach
    requires t[..LinkInfo(s).value.reach] == s[..LinkInfo(s).value.reach]
    ensures LinkInfo(t) == LinkInfo(s)
  {
    hide U32;
    var reach := LinkInfo(s).value.reach;
    assert s[0..] == s && t[0..] == t;
    U32Of(s, t, 0, reach);
    U32Of(s, t, 4, reach);
    U32Of(s, t, 8, reach);
    if U32(s[4..]) >= 0x1C && HasFlag(U32(s[8..]), 1) {
      U32Of(s, t, 16, reach);
      SliceOf(s, t, U32(s[16..]), U32(s), reach);
    }
  }

  lemma LinkInfoShort(s: seq<byte>, t: seq<byte>)
    requires LinkInfo(s).Some? && |t| < LinkInfo(s).value.reach && t <= s
    ensures LinkInfo(t) == None
  {
    hide U32;
    assert s[0..] == s && t[0..] == t;
    PrefixOf(s, t);
    if |t| >= 12 {
      U32Of(s, t, 0, |t|);
      U32Of(s, t, 4, |t|);
      U32Of(s, t, 8, |t|);
    }
  }

  lemma LinkInfoLocal()
    ensures Local(LinkInfo)
  {
    hide LinkInfo;
    forall s: seq<byte>, t: seq<byte> ensures LocalAt(LinkInfo, s, t) {
      if LinkInfo(s).Some? {
        LinkInfoUsed(s);
        if |t| < LinkInfo(s).value.reach && t <= s {
          LinkInfoShort(s, t);
        }
        if |t| >= LinkInfo(s).value.reach && t[..LinkInfo(s).value.reach] == s[..LinkInfo(s).value.reach] {
          LinkInfoSame(s, t);
        }
      }
    }
  }

  lemma LinkInfoUsed(s: seq<byte>)
    requires LinkInfo(s).Some?
    ensures LinkInfo(s).value.used <= LinkInfo(s).value.reach <= |s|
  {
  }

  lemma StringDataLocal(isUnicode: bool)
    ensures Local(StringParser(isUnicode))
  {
    var p := StringParser(isUnicode);
    forall s: seq<byte>, t: seq<byte> ensures LocalAt(p, s, t) {
      if p(s).Some? && |t| >= 2 {
        var size := 2 + U16(s) * Width(isUnicode);
        if |t| >= size && t[..size] == s[..size] {
          U16Of(s, t, size);
          SliceOf(s, t, 2, size, size);
        }
        if |t| < size && t <= s {
          PrefixOf(s, t);
          U16Of(s, t, |t|);
        }
      }
    }
  }

  lemma ThenLocal<A, B, C>(p: Parser<A>, q: Parser<B>, f: (A, B) -> C)
    requires Local(p) && Local(q)
    ensures Local(Then(p, q, f))
  {
    var r := Then(p, q, f);
    forall s: seq<byte>, t: seq<byte> ensures LocalAt(r, s, t) {
      if r(s).Some? {
        assert LocalAt(p, s, t) && LocalAt(p, s, s);
        var used, reach := p(s).value.used, r(s).value.reach;
        assert LocalAt(q, s[used..], s[used..]);
        if |t| >= reach && t[..reach] == s[..reach] {
          assert t[..p(s).value.reach] == s[..p(s).value.reach] by {
            SliceOf(s, t, 0, p(s).value.reach, reach);
          }
          var rest := q(s[used..]).value.reach;
          assert t[used..][..rest] == s[used..][..rest] by {
            SliceOf(s, t, used, used + rest, reach);
            assert t[used..][..rest] == t[used..used + rest];
            assert s[used..][..rest] == s[used..used + rest];
          }
          assert LocalAt(q, s[used..], t[used..]);
        }
        if |t| < reach && t <= s && |t| >= p(s).value.reach {
          PrefixOf(s, t);
          SliceOf(s, t, 0, p(s).value.reach, |t|);
          assert t[..p(s).value.reach] == s[..p(s).value.reach];
          assert t[used..] <= s[used..];
          assert LocalAt(q, s[used..], t[used..]);
        }
      }
    }
  }

  lemma OptionalLocal(present: bool, p: Parser<cstring>)
    requires Local(p)
    ensures Local(Optional(present, p))
  {
    assert Local(Nothing) by {
      forall s: seq<byte>, t: seq<byte> ensures LocalAt(Nothing, s, t) {
      }
    }
  }

  lemma BodyLocal(flags: nat)
    ensures Local(Body(flags))
  {
    hide Local, LinkInfo, IdList, StringData, HasFlag, ThenAt;
    IdListLocal();
    LinkInfoLocal();
    StringDataLocal(HasFlag(flags, IS_UNICODE));
    var strings := StringParser(HasFlag(flags, IS_UNICODE));
    OptionalLocal(HasFlag(flags, HAS_NAME), strings);
    OptionalLocal(HasFlag(flags, HAS_RELATIVE_PATH), strings);
    OptionalLocal(HasFlag(flags, HAS_WORKING_DIR), strings);
    OptionalLocal(HasFlag(flags, HAS_ARGUMENTS), strings);
    OptionalLocal(HasFlag(flags, HAS_ID_LIST), IdList);
    OptionalLocal(HasFlag(flags, HAS_LINK_INFO), LinkInfo);
    var two := Then(StringSection(flags, HAS_WORKING_DIR), StringSection(flags, HAS_ARGUMENTS), Second);
    ThenLocal(StringSection(flags, HAS_WORKING_DIR), StringSection(flags, HAS_ARGUMENTS), Second);
    var three := Then(StringSection(flags, HAS_RELATIVE_PATH), two, Second);
    ThenLocal(StringSection(flags, HAS_RELATIVE_PATH), two, Second);
    ThenLocal(StringSection(flags, HAS_NAME), three, Second);
    ThenLocal(Optional(HasFlag(flags, HAS_LINK_INFO), LinkInfo), Strings(flags),
              Both);
    var fromInfo := Then(Optional(HasFlag(flags, HAS_LINK_INFO), LinkInfo), Strings(flags),
                         Both);
    ThenLocal(Optional(HasFlag(flags, HAS_ID_LIST), IdList), fromInfo, Rest);
  }

  lemma LinkLocal()
    ensures Local(Link)
  {
    hide Body, Header, U32;
    HeaderLocal();
    forall s: seq<byte>, t: seq<byte> ensures LocalAt(Link, s, t) {
      if Link(s).Some? {
        var flags := Header(s).value.value;
        BodyLocal(flags);
        LinkLocalAt(s, t);
      }
    }
  }

  lemma LinkLocalAt(s: seq<byte>, t: seq<byte>)
    requires Link(s).Some? && Local(Header) && Local(Body(Header(s).value.value))
    ensures LocalAt(Link, s, t)
  {
    hide Body, U32;
    var body := Body(Header(s).value.value);
    var reach := Link(s).value.reach;
    var rest := s[HEADER_SIZE..];
    assert LocalAt(Header, s, t) && LocalAt(body, rest, rest);
    if |t| >= HEADER_SIZE {
      assert LocalAt(body, rest, t[HEADER_SIZE..]);
      if |t| >= reach && t[..reach] == s[..reach] {
        SliceOf(s, t, 0, HEADER_SIZE, reach);
        SliceOf(s, t, HEADER_SIZE, reach, reach);
        assert t[HEADER_SIZE..][..reach - HEADER_SIZE] == t[HEADER_SIZE..reach];
        assert rest[..reach - HEADER_SIZE] == s[HEADER_SIZE..reach];
      }
      if |t| < reach && t <= s {
        PrefixOf(s, t);
        SliceOf(s, t, 0, HEADER_SIZE, |t|);
        assert t[HEADER_SIZE..] <= rest;
      }
    }
  }

  /** How far an accepted shortcut is looked at; all of it lies inside the buffer. */
  function Reach(s: seq<byte>): nat
    requires Parse(s).Some?
  {
    Link(s).value.reach
  }

  /**
    An accepted shortcut stays accepted, with the same target and arguments, under any bytes after
    its reach; every prefix that ends before its reach, and so every prefix that ends before the
    last consumed byte, is rejected.
   */
  lemma AcceptanceIsLocal(s: seq<byte>, more: seq<byte>, n: nat)
    requires Parse(s).Some? && n <= |s|
    ensures Link(s).value.used <= Reach(s) <= |s|
    ensures Parse(s + more) == Parse(s)
    ensures Parse(s[..n]) == if n >= Reach(s) then Parse(s) else None
  {
    hide Link;
    LinkLocal();
    assert LocalAt(Link, s, s + more) && LocalAt(Link, s, s[..n]);
    assert (s + more)[..Reach(s)] == s[..Reach(s)];
    if n >= Reach(s) {
      assert s[..n][..Reach(s)] == s[..Reach(s)];
    }
  }
}
