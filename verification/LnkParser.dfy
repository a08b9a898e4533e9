/** parse_lnk over a buffer (src/detectors/lnk_inspect.c): every read is bounds-checked first. */
module LnkParser {
  import opened CText
  import opened Lnk

  // ---- the parser over a buffer ----

  lemma SliceOfSlice(b: seq<byte>, offset: nat, len: nat, from: nat, to: nat)
    requires offset + to <= len <= |b| && from <= to
    ensures b[offset..len][from..to] == b[offset + from..offset + to]
  {
    var x, y := b[offset..len][from..to], b[offset + from..offset + to];
    assert |x| == |y|;
    assert forall i | 0 <= i < |x| :: x[i] == b[offset + from + i] == y[i];
  }

  /** in_range: no sum that could overflow. */
  method InRange(len: nat, offset: nat, count: nat) returns (ok: bool)
    ensures ok == (offset + count <= len)
  {
    if count > len {
      return false;
    }
    return offset <= len - count;
  }

  method ReadU16(buf: array<byte>, len: nat, offset: nat) returns (r: Option<nat>)
    requires len <= buf.Length
    ensures r == if offset + 2 <= len then Some(U16(buf[offset..len])) else None
  {
    var ok := InRange(len, offset, 2);
    if !ok {
      return None;
    }
    return Some(buf[offset] as int + 0x100 * (buf[offset + 1] as int));
  }

  method ReadU32(buf: array<byte>, len: nat, offset: nat) returns (r: Option<nat>)
    requires len <= buf.Length
    ensures r == if offset + 4 <= len then Some(U32(buf[offset..len])) else None
  {
    var ok := InRange(len, offset, 4);
    if !ok {
      return None;
    }
    return Some(buf[offset] as int + 0x100 * (buf[offset + 1] as int) + 0x1_0000 * (buf[offset + 2] as int)
                + 0x100_0000 * (buf[offset + 3] as int));
  }

  lemma CutMore(s: string, c: char, cap: nat)
    requires cap > 0
    ensures Cut(s + [c], cap) == if |Cut(s, cap)| + 1 < cap then Cut(s, cap) + [c] else Cut(s, cap)
  {
  }

  lemma CutNothing(cap: nat)
    requires cap > 0
    ensures Cut("", cap) == ""
  {
  }

  lemma CutIsTruncated(s: cstring, cap: nat)
    requires cap > 0
    ensures Cut(s, cap) == Truncated(s, cap)
  {
  }

  /** read_cstring_ansi: up to a NUL or the bound, whichever comes first. */
  method ReadCStringAnsi(buf: array<byte>, bound: nat, offset: nat, cap: nat) returns (out: cstring)
    requires offset <= bound <= buf.Length && cap > 0
    ensures out == Truncated(CStr(Text(buf[offset..bound])), cap)
  {
    hide CStr, Cut;
    out := "";
    var i := offset;
    CutNothing(cap);
    while i < bound && buf[i] != 0
      invariant offset <= i <= bound
      invariant NUL !in Text(buf[offset..i]) && out == Cut(Text(buf[offset..i]), cap)
    {
      CutMore(Text(buf[offset..i]), buf[i] as char, cap);
      assert Text(buf[offset..i + 1]) == Text(buf[offset..i]) + [buf[i] as char];
      if |out| + 1 < cap {
        out := out + [buf[i] as char];
      }
      i := i + 1;
    }
    var whole := Text(buf[offset..bound]);
    assert whole[..i - offset] == Text(buf[offset..i]);
    assert i < bound ==> whole[i - offset] == buf[i] as char;
    CStrOfClean(whole, i - offset);
    CutIsTruncated(whole[..i - offset], cap);
  }

  /** The copying loop of read_string_data, over the characters that start at `start`. */
  method CopyChars(buf: array<byte>, start: nat, count: nat, isUnicode: bool, cap: nat) returns (out: string)
    requires start + count * Width(isUnicode) <= buf.Length && cap > 0
    ensures out == Cut(Chars(buf[start..start + count * Width(isUnicode)], isUnicode, count), cap)
  {
    hide Chars, Cut, CharAt;
    ghost var chars := buf[start..start + count * Width(isUnicode)];
    out := "";
    NoChars(chars, isUnicode, count, cap);
    for i := 0 to count
      invariant out == Cut(Chars(chars, isUnicode, count)[..i], cap)
    {
      var c := OneChar(buf, start, count, isUnicode, i);
      CharsSnoc(chars, isUnicode, count, i);
      CutMore(Chars(chars, isUnicode, count)[..i], c, cap);
      if |out| + 1 < cap {
        out := out + [c];
      }
    }
    assert Chars(chars, isUnicode, count)[..count] == Chars(chars, isUnicode, count);
  }

  lemma NoChars(chars: seq<byte>, isUnicode: bool, count: nat, cap: nat)
    requires count * Width(isUnicode) <= |chars| && cap > 0
    ensures Cut(Chars(chars, isUnicode, count)[..0], cap) == ""
  {
  }

  lemma CharsSnoc(chars: seq<byte>, isUnicode: bool, count: nat, i: nat)
    requires count * Width(isUnicode) <= |chars| && i < count
    ensures Chars(chars, isUnicode, count)[..i + 1]
         == Chars(chars, isUnicode, count)[..i] + [CharAt(chars, isUnicode, i)]
  {
  }

  /** The i-th character, '?' for what is not ASCII. */
  method OneChar(buf: array<byte>, start: nat, count: nat, isUnicode: bool, i: nat) returns (c: char)
    requires start + count * Width(isUnicode) <= buf.Length && i < count
    ensures c == CharAt(buf[start..start + count * Width(isUnicode)], isUnicode, i)
  {
    var at := start + i * Width(isUnicode);
    var low := buf[at];
    if isUnicode {
      if buf[at + 1] != 0 || low >= 0x80 {
        low := 0x3F;
      }
    } else if low >= 0x80 {
      low := 0x3F;
    }
    c := low as char;
  }

  /** read_string_data; without `wanted` the block is only skipped. */
  method ReadStringData(buf: array<byte>, len: nat, offset: nat, isUnicode: bool, wanted: bool)
    returns (r: Option<Step<cstring>>)
    requires offset <= len <= buf.Length
    ensures var s := StringData(buf[offset..len], isUnicode);
            && (r.None? <==> s.None?)
            && (r.Some? ==> r.value.used == s.value.used)
            && (r.Some? && wanted ==> r.value.value == s.value.value)
  {
    hide CStr, U16, Cut;
    var count := ReadU16(buf, len, offset);
    if count.None? {
      return None;
    }
    var byteLength := count.value * Width(isUnicode);
    var ok := InRange(len, offset + 2, byteLength);
    if !ok {
      return None;
    }
    var text: cstring := "";
    if wanted {
      var out := CopyChars(buf, offset + 2, count.value, isUnicode, ARGS_MAX);
      SliceOfSlice(buf[..], offset, len, 2, 2 + byteLength);
      assert buf[offset..len] == buf[..][offset..len];
      text := CStr(out);
    }
    return Some(Step(text, 2 + byteLength, 2 + byteLength));
  }

  /** One optional string section. */
  method ReadSection(buf: array<byte>, len: nat, offset: nat, flags: nat, flag: nat, wanted: bool)
    returns (r: Option<Step<cstring>>)
    requires offset <= len <= buf.Length && flag > 0
    ensures var s := StringSection(flags, flag)(buf[offset..len]);
            && (r.None? <==> s.None?)
            && (r.Some? ==> r.value.used == s.value.used <= len - offset)
            && (r.Some? && wanted ==> r.value.value == s.value.value)
  {
    hide StringData;
    if HasFlag(flags, flag) {
      r := ReadStringData(buf, len, offset, HasFlag(flags, IS_UNICODE), wanted);
      StringDataUsed(buf[offset..len], HasFlag(flags, IS_UNICODE));
    } else {
      r := Some(Step("", 0, 0));
    }
  }

  lemma StringDataUsed(s: seq<byte>, isUnicode: bool)
    ensures StringData(s, isUnicode).Some? ==> StringData(s, isUnicode).value.used <= |s|
  {
  }

  method ReadIdList(buf: array<byte>, len: nat, offset: nat) returns (r: Option<nat>)
    requires offset <= len <= buf.Length
    ensures var s := IdList(buf[offset..len]);
            (r.None? <==> s.None?) && (r.Some? ==> r.value == s.value.used <= len - offset)
  {
    var size := ReadU16(buf, len, offset);
    if size.None? {
      return None;
    }
    var ok := InRange(len, offset + 2, size.value);
    if !ok {
      return None;
    }
    return Some(2 + size.value);
  }

  method ReadLinkInfo(buf: array<byte>, len: nat, offset: nat) returns (size: nat, target: Option<cstring>)
    requires offset <= len <= buf.Length
    ensures var s := LinkInfo(buf[offset..len]);
            && (target.None? <==> s.None?)
            && (target.Some? ==> size == s.value.used <= len - offset && target.value == s.value.value)
  {
    hide U32, HasFlag, CStr, Text;
    size := 0;
    ghost var s := buf[offset..len];
    var infoSize := ReadU32(buf, len, offset);
    if infoSize.None? {
      return size, None;
    }
    var ok := InRange(len, offset, infoSize.value);
    if !ok || infoSize.value < 4 {
      return size, None;
    }
    size := infoSize.value;
    var headerSize := ReadU32(buf, len, offset + 4);
    if headerSize.None? {
      return size, None;
    }
    var infoFlags := ReadU32(buf, len, offset + 8);
    if infoFlags.None? {
      return size, None;
    }
    assert s[4..] == buf[offset + 4..len] && s[8..] == buf[offset + 8..len];
    if headerSize.value < 0x1C || !HasFlag(infoFlags.value, 1) {
      return size, Some("");
    }
    var pathOffset := ReadU32(buf, len, offset + 16);
    if pathOffset.None? {
      return size, None;
    }
    assert s[16..] == buf[offset + 16..len];
    if pathOffset.value >= size {
      return size, None;
    }
    var path := ReadCStringAnsi(buf, offset + size, offset + pathOffset.value, TARGET_MAX);
    SliceOfSlice(buf[..], offset, len, pathOffset.value, size);
    assert s == buf[..][offset..len];
    return size, Some(path);
  }

  method ReadHeader(buf: array<byte>, len: nat) returns (flags: Option<nat>)
    requires len <= buf.Length
    ensures var s := Header(buf[..len]);
            (flags.None? <==> s.None?) && (flags.Some? ==> flags.value == s.value.value && len >= HEADER_SIZE)
  {
    hide U32;
    if len < HEADER_SIZE {
      return None;
    }
    var size := ReadU32(buf, len, 0);
    assert buf[..len] == buf[0..len];
    if size.value != HEADER_SIZE || buf[4..20] != CLSID {
      return None;
    }
    flags := ReadU32(buf, len, 20);
    assert buf[..len][20..] == buf[20..len] && buf[..len][4..20] == buf[4..20];
  }

  /** The four string sections. */
  method ReadStrings(buf: array<byte>, len: nat, start: nat, flags: nat) returns (arguments: Option<cstring>)
    requires start <= len <= buf.Length
    ensures var s := Strings(flags)(buf[start..len]);
            (arguments.None? <==> s.None?) && (arguments.Some? ==> arguments.value == s.value.value)
  {
    hide StringSection;
    var offset := start;
    var name := ReadSection(buf, len, offset, flags, HAS_NAME, false);
    if name.None? {
      return None;
    }
    offset := offset + name.value.used;
    assert buf[start..len][name.value.used..] == buf[offset..len];
    ghost var afterName := buf[offset..len];
    var relative := ReadSection(buf, len, offset, flags, HAS_RELATIVE_PATH, false);
    if relative.None? {
      return None;
    }
    offset := offset + relative.value.used;
    assert afterName[relative.value.used..] == buf[offset..len];
    ghost var afterRelative := buf[offset..len];
    var working := ReadSection(buf, len, offset, flags, HAS_WORKING_DIR, false);
    if working.None? {
      return None;
    }
    offset := offset + working.value.used;
    assert afterRelative[working.value.used..] == buf[offset..len];
    var args := ReadSection(buf, len, offset, flags, HAS_ARGUMENTS, true);
    if args.None? {
      return None;
    }
    return Some(args.value.value);
  }

  /** LinkInfo and the strings. */
  method ReadInfoAndStrings(buf: array<byte>, len: nat, start: nat, flags: nat) returns (r: Option<Parsed>)
    requires start <= len <= buf.Length
    ensures var s := ThenAt<cstring, cstring, Parsed>(
                       Optional(HasFlag(flags, HAS_LINK_INFO), LinkInfo), Strings(flags), Both, buf[start..len]);
            (r.None? <==> s.None?) && (r.Some? ==> r.value == s.value.value)
  {
    hide LinkInfo, Strings, HasFlag;
    var offset := start;
    var target: cstring := "";
    if HasFlag(flags, HAS_LINK_INFO) {
      var size, path := ReadLinkInfo(buf, len, offset);
      if path.None? {
        return None;
      }
      target := path.value;
      offset := offset + size;
    }
    assert buf[start..len][offset - start..] == buf[offset..len];
    var arguments := ReadStrings(buf, len, offset, flags);
    if arguments.None? {
      return None;
    }
    return Some(Parsed(target, arguments.value));
  }

  method ReadBody(buf: array<byte>, len: nat, start: nat, flags: nat) returns (r: Option<Parsed>)
    requires start <= len <= buf.Length
    ensures var s := Body(flags)(buf[start..len]);
            (r.None? <==> s.None?) && (r.Some? ==> r.value == s.value.value)
  {
    hide IdList, LinkInfo, Strings, HasFlag;
    var offset := start;
    if HasFlag(flags, HAS_ID_LIST) {
      var size := ReadIdList(buf, len, offset);
      if size.None? {
        return None;
      }
      offset := offset + size.value;
    }
    assert buf[start..len][offset - start..] == buf[offset..len];
    r := ReadInfoAndStrings(buf, len, offset, flags);
  }

  /** parse_lnk: what it returns depends on the first `len` bytes alone. */
  method ParseLnk(buf: array<byte>, len: nat) returns (r: Option<Parsed>)
    requires len <= buf.Length
    ensures r == Parse(buf[..len])
  {
    hide Header, Body;
    var flags := ReadHeader(buf, len);
    if flags.None? {
      return None;
    }
    assert buf[..len][HEADER_SIZE..] == buf[HEADER_SIZE..len];
    r := ReadBody(buf, len, HEADER_SIZE, flags.value);
  }
}
