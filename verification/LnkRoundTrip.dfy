/** Writing a shortcut file and reading it back ([MS-SHLLINK] sections 2.1 to 2.4). */
module LnkRoundTrip {
  import opened CText
  import opened Lnk

  // ---- writing a shortcut ----

  /** A shortcut file: any optional section may be there, the sections the parser skips included. */
  datatype Shortcut = Shortcut(
    idList: Option<seq<byte>>,
    volumeId: seq<byte>,
    target: Option<string>,
    name: Option<string>,
    relativePath: Option<string>,
    workingDir: Option<string>,
    arguments: Option<string>,
    isUnicode: bool)

  predicate Ascii(s: string) {
    forall i | 0 <= i < |s| :: 0 < s[i] as int < 0x80
  }

  predicate FitsBlock(s: Option<string>) {
    s.Some? ==> Ascii(s.value) && |s.value| < 0x1_0000
  }

  /** A LinkInfo with the longest target still has a size of 32 bits. */
  const VOLUME_MAX: nat := 0xFFFF_FFFF - 28 - TARGET_MAX - 1

  /** Sizes fit the length fields of the format, and the texts the buffers of the parser. */
  predicate Writable(link: Shortcut) {
    && (link.idList.Some? ==> |link.idList.value| < 0x1_0000)
    && (link.target.Some? ==> Ascii(link.target.value) && |link.target.value| < TARGET_MAX)
    && |link.volumeId| <= VOLUME_MAX
    && FitsBlock(link.name) && FitsBlock(link.relativePath) && FitsBlock(link.workingDir)
    && FitsBlock(link.arguments) && (link.arguments.Some? ==> |link.arguments.value| < ARGS_MAX)
  }

  function Word(n: nat): (s: seq<byte>)
    requires n < 0x1_0000
    ensures |s| == 2 && U16(s) == n
  {
    [n % 0x100, n / 0x100]
  }

  function DWord(n: nat): (s: seq<byte>)
    requires n < 0x1_0000_0000
    ensures |s| == 4 && U32(s) == n
  {
    Word(n % 0x1_0000) + Word(n / 0x1_0000)
  }

  function Encoded(s: string, isUnicode: bool): (b: seq<byte>)
    requires Ascii(s)
    ensures |b| == |s| * Width(isUnicode)
    ensures forall i | 0 <= i < |s| :: CharAt(b, isUnicode, i) == s[i]
  {
    if isUnicode then seq(2 * |s|, i requires 0 <= i < 2 * |s| => if i % 2 == 0 then s[i / 2] as byte else 0)
    else seq(|s|, i requires 0 <= i < |s| => s[i] as byte)
  }

  function IdListBytes(idList: Option<seq<byte>>): seq<byte>
    requires idList.Some? ==> |idList.value| < 0x1_0000
  {
    if idList.None? then [] else Word(|idList.value|) + idList.value
  }

  function StringBytes(s: Option<string>, isUnicode: bool): seq<byte>
    requires FitsBlock(s)
  {
    if s.None? then [] else Word(|s.value|) + Encoded(s.value, isUnicode)
  }

  /** Size, header size, flags, and the offsets of VolumeID, path, network link and suffix. */
  function InfoHeader(volume: nat, path: nat): (b: seq<byte>)
    requires volume <= VOLUME_MAX && path < TARGET_MAX
    ensures |b| == 28
  {
    DWord(28 + volume + path + 2) + DWord(0x1C) + DWord(1) + DWord(28) + DWord(28 + volume) + DWord(0)
    + DWord(28 + volume + path + 1)
  }

  function InfoBytes(volumeId: seq<byte>, target: Option<string>): seq<byte>
    requires |volumeId| <= VOLUME_MAX
    requires target.Some? ==> Ascii(target.value) && |target.value| < TARGET_MAX
  {
    if target.None? then []
    else InfoHeader(|volumeId|, |target.value|) + volumeId + Encoded(target.value, false) + [0, 0]
  }

  function Bit(present: bool): nat {
    if present then 1 else 0
  }

  function Flags(link: Shortcut): nat {
    Bit(link.idList.Some?) + HAS_LINK_INFO * Bit(link.target.Some?) + HAS_NAME * Bit(link.name.Some?)
    + HAS_RELATIVE_PATH * Bit(link.relativePath.Some?) + HAS_WORKING_DIR * Bit(link.workingDir.Some?)
    + HAS_ARGUMENTS * Bit(link.arguments.Some?) + IS_UNICODE * Bit(link.isUnicode)
  }

  function HeaderBytes(flags: nat): (b: seq<byte>)
    requires flags < 0x1_0000
    ensures |b| == HEADER_SIZE
  {
    DWord(HEADER_SIZE) + CLSID + DWord(flags) + seq(52, _ => 0)
  }

  function StringsBytes(link: Shortcut): seq<byte>
    requires Writable(link)
  {
    StringBytes(link.name, link.isUnicode)
    + (StringBytes(link.relativePath, link.isUnicode)
       + (StringBytes(link.workingDir, link.isUnicode) + StringBytes(link.arguments, link.isUnicode)))
  }

  function Bytes(link: Shortcut): seq<byte>
    requires Writable(link)
  {
    HeaderBytes(Flags(link))
    + (IdListBytes(link.idList) + (InfoBytes(link.volumeId, link.target) + StringsBytes(link)))
  }

  // ---- reading it back ----

  ghost predicate Exact<T>(p: Parser<T>, bytes: seq<byte>, value: T) {
    p(bytes) == Some(Step(value, |bytes|, |bytes|))
  }

  lemma ThenExact<A, B, C>(p: Parser<A>, q: Parser<B>, f: (A, B) -> C, a: seq<byte>, b: seq<byte>, x: A, y: B)
    requires Local(p) && Exact(p, a, x) && Exact(q, b, y)
    ensures Exact(Then(p, q, f), a + b, f(x, y))
  {
    assert LocalAt(p, a, a + b);
    assert (a + b)[..|a|] == a[..|a|];
    assert (a + b)[|a|..] == b;
  }

  lemma IdListExact(idList: Option<seq<byte>>)
    requires idList.Some? ==> |idList.value| < 0x1_0000
    ensures Exact<cstring>(Optional(idList.Some?, IdList), IdListBytes(idList), "")
  {
    if idList.None? {
      assert Nothing([]) == Some(Step("", 0, 0));
    } else {
      var b := IdListBytes(idList);
      assert b[..2] == Word(|idList.value|);
      U16Of(b, Word(|idList.value|), 2);
      assert IdList(b) == Some(Step("", |b|, |b|));
    }
  }

  function Kept(s: Option<string>): cstring
    requires FitsBlock(s)
  {
    if s.None? then "" else Cut(s.value, ARGS_MAX)
  }

  lemma EncodedChars(s: string, isUnicode: bool)
    requires Ascii(s)
    ensures |Encoded(s, isUnicode)| == |s| * Width(isUnicode)
    ensures Chars(Encoded(s, isUnicode), isUnicode, |s|) == s
  {
  }

  lemma StringDataIs(b: seq<byte>, s: string, isUnicode: bool)
    requires Ascii(s) && |s| < 0x1_0000 && b == Word(|s|) + Encoded(s, isUnicode)
    ensures StringData(b, isUnicode) == Some(Step(Kept(Some(s)), |b|, |b|))
  {
    hide Encoded, Chars, Word, U16, CStr;
    EncodedChars(s, isUnicode);
    assert b[..2] == Word(|s|);
    U16Of(b, Word(|s|), 2);
    assert b[2..|b|] == Encoded(s, isUnicode);
    CStrOfNulFree(Cut(s, ARGS_MAX));
  }

  lemma StringExact(s: Option<string>, isUnicode: bool)
    requires FitsBlock(s)
    ensures Exact<cstring>(Optional(s.Some?, StringParser(isUnicode)), StringBytes(s, isUnicode), Kept(s))
  {
    hide StringData, Encoded, Word;
    if s.Some? {
      StringDataIs(StringBytes(s, isUnicode), s.value, isUnicode);
    }
  }

  lemma InfoFields(volume: nat, path: nat, rest: seq<byte>)
    requires volume <= VOLUME_MAX && path < TARGET_MAX
    ensures var b := InfoHeader(volume, path) + rest;
            && U32(b) == 28 + volume + path + 2 && U32(b[4..]) == 0x1C && U32(b[8..]) == 1
            && U32(b[16..]) == 28 + volume
  {
    hide U32, DWord;
    var b := InfoHeader(volume, path) + rest;
    DWordAt(b, 0, 28 + volume + path + 2);
    DWordAt(b, 4, 0x1C);
    DWordAt(b, 8, 1);
    DWordAt(b, 16, 28 + volume);
    assert b[0..] == b;
  }

  lemma DWordAt(b: seq<byte>, at: nat, n: nat)
    requires n < 0x1_0000_0000 && at + 4 <= |b| && b[at..at + 4] == DWord(n)
    ensures U32(b[at..]) == n
  {
    assert b[at..][..4] == DWord(n)[..4];
    assert b[at..][0..] == b[at..] && DWord(n)[0..] == DWord(n);
    U32Of(b[at..], DWord(n), 0, 4);
  }

  lemma PathText(path: string)
    requires Ascii(path)
    ensures CStr(Text(Encoded(path, false) + [0, 0])) == path
  {
    var tail := Encoded(path, false) + [0, 0];
    assert Text(tail)[..|path|] == path by {
      forall i | 0 <= i < |path| ensures Text(tail)[i] == path[i] {
        assert CharAt(Encoded(path, false), false, i) == path[i];
      }
    }
    CStrOfClean(Text(tail), |path|);
  }

  lemma LinkInfoIs(s: seq<byte>, from: nat, path: cstring)
    requires |s| >= 20 && U32(s) == |s| && U32(s[4..]) == 0x1C && U32(s[8..]) == 1 && U32(s[16..]) == from < |s|
    requires CStr(Text(s[from..|s|])) == path && |path| < TARGET_MAX
    ensures LinkInfo(s) == Some(Step(path, |s|, |s|))
  {
    hide U32, CStr;
    assert HasFlag(1, 1);
  }

  lemma InfoExact(volumeId: seq<byte>, target: Option<string>)
    requires |volumeId| <= VOLUME_MAX
    requires target.Some? ==> Ascii(target.value) && |target.value| < TARGET_MAX
    ensures Exact<cstring>(Optional(target.Some?, LinkInfo), InfoBytes(volumeId, target),
                  if target.Some? then target.value else "")
  {
    hide U32, InfoHeader, CStr, Encoded, LinkInfo;
    if target.None? {
      assert Nothing([]) == Some(Step("", 0, 0));
    } else {
      var path := target.value;
      var b := InfoBytes(volumeId, target);
      var rest := volumeId + Encoded(path, false) + [0, 0];
      assert b == InfoHeader(|volumeId|, |path|) + rest;
      InfoFields(|volumeId|, |path|, rest);
      assert |b| == 28 + |volumeId| + |path| + 2;
      assert b[28 + |volumeId|..|b|] == Encoded(path, false) + [0, 0];
      PathText(path);
      LinkInfoIs(b, 28 + |volumeId|, path);
    }
  }

  lemma HeaderExact(flags: nat)
    requires flags < 0x1_0000
    ensures Exact(Header, HeaderBytes(flags), flags)
  {
    hide U32, DWord;
    var b := HeaderBytes(flags);
    DWordAt(b, 0, HEADER_SIZE);
    DWordAt(b, 20, flags);
    assert b[0..] == b;
    assert b[4..20] == CLSID;
  }

  /** The bit at `flag`, with smaller bits below it and the rest above. */
  lemma FlagIs(low: nat, present: bool, high: nat, flag: nat)
    requires flag in {0x01, 0x02, 0x04, 0x08, 0x10, 0x20, 0x80} && low < flag
    ensures HasFlag(low + flag * Bit(present) + 2 * flag * high, flag) == present
  {
    var n := low + flag * Bit(present) + 2 * flag * high;
    assert n / flag == Bit(present) + 2 * high;
  }

  lemma LowFlagsAre(link: Shortcut)
    ensures var flags := Flags(link);
            && HasFlag(flags, HAS_ID_LIST) == link.idList.Some?
            && HasFlag(flags, HAS_LINK_INFO) == link.target.Some?
  {
    hide HasFlag;
    var b0, b1, b2 := Bit(link.idList.Some?), Bit(link.target.Some?), Bit(link.name.Some?);
    var b3, b4 := Bit(link.relativePath.Some?), Bit(link.workingDir.Some?);
    var b5, b7 := Bit(link.arguments.Some?), Bit(link.isUnicode);
    FlagIs(0, link.idList.Some?, b1 + 2 * b2 + 4 * b3 + 8 * b4 + 16 * b5 + 64 * b7, HAS_ID_LIST);
    FlagIs(b0, link.target.Some?, b2 + 2 * b3 + 4 * b4 + 8 * b5 + 32 * b7, HAS_LINK_INFO);
  }

  lemma MiddleFlagsAre(link: Shortcut)
    ensures var flags := Flags(link);
            && HasFlag(flags, HAS_NAME) == link.name.Some?
            && HasFlag(flags, HAS_RELATIVE_PATH) == link.relativePath.Some?
            && HasFlag(flags, HAS_WORKING_DIR) == link.workingDir.Some?
  {
    hide HasFlag;
    var b0, b1, b2 := Bit(link.idList.Some?), Bit(link.target.Some?), Bit(link.name.Some?);
    var b3, b4 := Bit(link.relativePath.Some?), Bit(link.workingDir.Some?);
    var b5, b7 := Bit(link.arguments.Some?), Bit(link.isUnicode);
    FlagIs(b0 + 2 * b1, link.name.Some?, b3 + 2 * b4 + 4 * b5 + 16 * b7, HAS_NAME);
    FlagIs(b0 + 2 * b1 + 4 * b2, link.relativePath.Some?, b4 + 2 * b5 + 8 * b7, HAS_RELATIVE_PATH);
    FlagIs(b0 + 2 * b1 + 4 * b2 + 8 * b3, link.workingDir.Some?, b5 + 4 * b7, HAS_WORKING_DIR);
  }

  lemma HighFlagsAre(link: Shortcut)
    ensures var flags := Flags(link);
            && flags < 0x1_0000
            && HasFlag(flags, HAS_ARGUMENTS) == link.arguments.Some?
            && HasFlag(flags, IS_UNICODE) == link.isUnicode
  {
    hide HasFlag;
    var b0, b1, b2 := Bit(link.idList.Some?), Bit(link.target.Some?), Bit(link.name.Some?);
    var b3, b4 := Bit(link.relativePath.Some?), Bit(link.workingDir.Some?);
    var b5, b7 := Bit(link.arguments.Some?), Bit(link.isUnicode);
    FlagIs(b0 + 2 * b1 + 4 * b2 + 8 * b3 + 16 * b4, link.arguments.Some?, 2 * b7, HAS_ARGUMENTS);
    FlagIs(b0 + 2 * b1 + 4 * b2 + 8 * b3 + 16 * b4 + 32 * b5, link.isUnicode, 0, IS_UNICODE);
  }

  lemma FlagsAre(link: Shortcut)
    ensures var flags := Flags(link);
            && flags < 0x1_0000
            && HasFlag(flags, HAS_ID_LIST) == link.idList.Some?
            && HasFlag(flags, HAS_LINK_INFO) == link.target.Some?
            && HasFlag(flags, HAS_NAME) == link.name.Some?
            && HasFlag(flags, HAS_RELATIVE_PATH) == link.relativePath.Some?
            && HasFlag(flags, HAS_WORKING_DIR) == link.workingDir.Some?
            && HasFlag(flags, HAS_ARGUMENTS) == link.arguments.Some?
            && HasFlag(flags, IS_UNICODE) == link.isUnicode
  {
    hide HasFlag, Flags;
    LowFlagsAre(link);
    MiddleFlagsAre(link);
    HighFlagsAre(link);
  }

  lemma StringsExact(link: Shortcut)
    requires Writable(link)
    ensures Exact<cstring>(Strings(Flags(link)), StringsBytes(link), Kept(link.arguments))
  {
    hide Local, Exact, StringData, HasFlag, ThenAt, Flags, StringBytes;
    FlagsAre(link);
    var flags, u := Flags(link), link.isUnicode;
    StringDataLocal(u);
    OptionalLocal(link.name.Some?, StringParser(u));
    OptionalLocal(link.relativePath.Some?, StringParser(u));
    OptionalLocal(link.workingDir.Some?, StringParser(u));
    StringExact(link.name, u);
    StringExact(link.relativePath, u);
    StringExact(link.workingDir, u);
    StringExact(link.arguments, u);
    var work, args := StringSection(flags, HAS_WORKING_DIR), StringSection(flags, HAS_ARGUMENTS);
    ThenExact(work, args, Second, StringBytes(link.workingDir, u), StringBytes(link.arguments, u),
              Kept(link.workingDir), Kept(link.arguments));
    var two := Then(work, args, Second);
    var twoBytes := StringBytes(link.workingDir, u) + StringBytes(link.arguments, u);
    ThenExact(StringSection(flags, HAS_RELATIVE_PATH), two, Second, StringBytes(link.relativePath, u), twoBytes,
              Kept(link.relativePath), Kept(link.arguments));
    var three := Then(StringSection(flags, HAS_RELATIVE_PATH), two, Second);
    ThenExact(StringSection(flags, HAS_NAME), three, Second, StringBytes(link.name, u),
              StringBytes(link.relativePath, u) + twoBytes, Kept(link.name), Kept(link.arguments));
  }

  function Meaning(link: Shortcut): Parsed
    requires Writable(link)
  {
    Parsed(if link.target.Some? then link.target.value else "",
           if link.arguments.Some? then link.arguments.value else "")
  }

  lemma BodyExact(link: Shortcut)
    requires Writable(link)
    ensures Exact(Body(Flags(link)),
                  IdListBytes(link.idList) + (InfoBytes(link.volumeId, link.target) + StringsBytes(link)),
                  Meaning(link))
  {
    hide Local, Exact, IdList, LinkInfo, HasFlag, ThenAt, Flags, StringsBytes, Strings;
    FlagsAre(link);
    IdListLocal();
    LinkInfoLocal();
    OptionalLocal(link.idList.Some?, IdList);
    OptionalLocal(link.target.Some?, LinkInfo);
    IdListExact(link.idList);
    InfoExact(link.volumeId, link.target);
    StringsExact(link);
    var info, strings := Optional(link.target.Some?, LinkInfo), Strings(Flags(link));
    OptionalLocal(link.target.Some?, LinkInfo);
    ThenExact<cstring, cstring, Parsed>(info, strings, Both, InfoBytes(link.volumeId, link.target), StringsBytes(link),
              Meaning(link).target, Kept(link.arguments));
    ThenExact<cstring, Parsed, Parsed>(Optional(link.idList.Some?, IdList), Then(info, strings, Both), Rest,
              IdListBytes(link.idList), InfoBytes(link.volumeId, link.target) + StringsBytes(link), "", Meaning(link));
  }

  /**
    Round trip: whatever optional sections surround them, an ASCII target and arguments that fit the
    buffers are read back, whatever follows the file, and no proper prefix of it is accepted.
   */
  lemma RoundTrip(link: Shortcut, more: seq<byte>, n: nat)
    requires Writable(link) && n < |Bytes(link)|
    ensures Parse(Bytes(link) + more) == Some(Meaning(link))
    ensures Parse(Bytes(link)[..n]) == None
  {
    hide Local, Body, Header, Flags, IdListBytes, InfoBytes, StringsBytes, HeaderBytes, Meaning;
    var body := IdListBytes(link.idList) + (InfoBytes(link.volumeId, link.target) + StringsBytes(link));
    FlagsAre(link);
    HeaderLocal();
    HeaderExact(Flags(link));
    BodyExact(link);
    HeaderThen(HeaderBytes(Flags(link)), body);
    AcceptanceIsLocal(Bytes(link), more, n);
  }

  lemma HeaderThen(header: seq<byte>, body: seq<byte>)
    requires Local(Header) && Header(header).Some? && |header| == HEADER_SIZE
    ensures Header(header + body) == Header(header)
    ensures (header + body)[HEADER_SIZE..] == body
  {
    hide U32;
    assert LocalAt(Header, header, header + body);
    assert (header + body)[..HEADER_SIZE] == header[..HEADER_SIZE];
  }
}
