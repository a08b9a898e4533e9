/**
  The JSON reader of src/core/json.c: a depth-limited recursive-descent parser.  The functions
  say what is read from the remaining text; the Parser class advances `pos` and `depth` over the
  whole text and is proved to agree with them.
 */
module JsonReader {
  import opened CText
  import opened JsonSyntax
  import opened Decimal

  /** A value and the text that follows it, or the status of a rejection. */
  datatype Parsed<+T> = Parsed(value: T, rest: string) | Rejected(status: Status)

  // ---- what is read ----

  predicate IsWs(c: char) {
    c == ' ' || c == '\t' || c == '\n' || c == '\r'
  }

  function SkipWs(s: string): (r: string)
    ensures |r| <= |s|
  {
    if s != [] && IsWs(s[0]) then SkipWs(s[1..]) else s
  }

  function HexValue(c: char): (v: int)
    ensures -1 <= v < 16
  {
    if '0' <= c <= '9' then c as int - 48
    else if 'a' <= c <= 'f' then c as int - 87
    else if 'A' <= c <= 'F' then c as int - 55
    else -1
  }

  predicate IsHex(c: char) {
    HexValue(c) >= 0
  }

  function CodeOf(h: string): (code: nat)
    requires |h| == 4 && forall i | 0 <= i < 4 :: IsHex(h[i])
    ensures code < 0x1_0000
  {
    assert IsHex(h[0]) && IsHex(h[1]) && IsHex(h[2]) && IsHex(h[3]);
    4096 * HexValue(h[0]) + 256 * HexValue(h[1]) + 16 * HexValue(h[2]) + HexValue(h[3])
  }

  /** One to three UTF-8 bytes; a surrogate half is encoded as any other code. */
  function Encode(code: nat): (s: string)
    requires code < 0x1_0000
    ensures 1 <= |s| <= 3
  {
    if code < 0x80 then [code as char]
    else if code < 0x800 then [(0xC0 + code / 64) as char, (0x80 + code % 64) as char]
    else [(0xE0 + code / 4096) as char, (0x80 + code / 64 % 64) as char, (0x80 + code % 64) as char]
  }

  function Unescape(c: char): Option<char> {
    match c as int
    case 34 => Some('"')
    case 92 => Some('\\')
    case 47 => Some('/')
    case 98 => Some(8 as char)
    case 102 => Some(12 as char)
    case 110 => Some('\n')
    case 114 => Some('\r')
    case 116 => Some('\t')
    case _ => None
  }

  /** The bytes an escape sequence stands for. */
  function ParseEscape(s: string): (r: Parsed<string>)
    requires s != []
    ensures r.Parsed? ==> |r.rest| < |s| && r.value != []
  {
    if |s| < 2 then Rejected(InvalidArg)
    else if s[1] == 'u' then
      if |s| < 6 || exists i | 0 <= i < 4 :: !IsHex(s[2..][i]) then Rejected(InvalidArg)
      else Parsed(Encode(CodeOf(s[2..][..4])), s[2..][4..])
    else
      match Unescape(s[1])
      case None => Rejected(InvalidArg)
      case Some(c) => Parsed([c], s[2..])
  }

  /** The rest of a string literal after `buffer` has been read; a NUL ends what C sees of it. */
  function ParseChars(s: string, buffer: string): (r: Parsed<cstring>)
    ensures r.Parsed? ==> |r.rest| < |s|
    decreases |s|
  {
    if s == [] then Rejected(InvalidArg)
    else if s[0] == '"' then Parsed(CStr(buffer), s[1..])
    else if s[0] != '\\' then ParseChars(s[1..], buffer + [s[0]])
    else
      match ParseEscape(s)
      case Rejected(status) => Rejected(status)
      case Parsed(bytes, rest) => ParseChars(rest, buffer + bytes)
  }

  function ParseString(s: string): (r: Parsed<cstring>)
    ensures r.Parsed? ==> |r.rest| < |s|
  {
    if s == [] || s[0] != '"' then Rejected(InvalidArg) else ParseChars(s[1..], "")
  }

  function Span(s: string): (n: nat)
    ensures n <= |s| && AllDigits(s[..n])
    ensures n < |s| ==> !IsDigit(s[n])
  {
    if s != [] && IsDigit(s[0]) then
      var n := 1 + Span(s[1..]);
      assert s[..n] == [s[0]] + s[1..][..n - 1];
      n
    else 0
  }

  function SignLength(s: string): (n: nat)
    ensures n <= |s|
  {
    if s != [] && s[0] == '-' then 1 else 0
  }

  function FractionLength(s: string): (n: nat)
    ensures n <= |s|
  {
    if s != [] && s[0] == '.' then 1 + Span(s[1..]) else 0
  }

  function ExponentLength(s: string): (n: nat)
    ensures n <= |s|
  {
    if s != [] && (s[0] == 'e' || s[0] == 'E') then
      var signed := if |s| > 1 && (s[1] == '+' || s[1] == '-') then 2 else 1;
      signed + Span(s[signed..])
    else 0
  }

  function IntegerLength(s: string): (n: nat)
    ensures n <= |s|
  {
    SignLength(s) + Span(s[SignLength(s)..])
  }

  function MantissaLength(s: string): (n: nat)
    ensures n <= |s|
  {
    IntegerLength(s) + FractionLength(s[IntegerLength(s)..])
  }

  /** How many characters parse_number collects. */
  function TokenLength(s: string): (n: nat)
    ensures n <= |s|
  {
    MantissaLength(s) + ExponentLength(s[MantissaLength(s)..])
  }

  /**
    strtod consumes the whole token: the mantissa has a digit, and an exponent, if there is one,
    ends in a digit.
   */
  predicate StrtodConsumes(token: string) {
    && (IntegerLength(token) > SignLength(token) || MantissaLength(token) > IntegerLength(token) + 1)
    && (MantissaLength(token) < |token| ==> IsDigit(token[|token| - 1]))
  }

  function ParseNumber(s: string, strtod: string -> real): (r: Parsed<real>)
    ensures r.Parsed? ==> |r.rest| < |s|
  {
    var n := TokenLength(s);
    if n == 0 || n >= 64 || !StrtodConsumes(s[..n]) then Rejected(InvalidArg)
    else Parsed(strtod(s[..n]), s[n..])
  }

  function ParseLiteral(s: string, literal: string, v: Value): Parsed<Value> {
    if literal <= s then Parsed(v, s[|literal|..]) else Rejected(InvalidArg)
  }

  /** A value that sits inside `d` containers. */
  function ParseValue(s: string, d: nat, strtod: string -> real): (r: Parsed<Value>)
    ensures r.Parsed? ==> |r.rest| < |s|
    decreases |s|, 1
  {
    var t := SkipWs(s);
    if d >= MAX_DEPTH then Rejected(Unsupported)
    else if t == [] then Rejected(InvalidArg)
    else if t[0] == '{' then ParseObject(t, d, strtod)
    else if t[0] == '[' then ParseArray(t, d, strtod)
    else if t[0] == '"' then
      match ParseString(t)
      case Rejected(status) => Rejected(status)
      case Parsed(text, rest) => Parsed(String(text), rest)
    else if t[0] == 't' then ParseLiteral(t, "true", Bool(true))
    else if t[0] == 'f' then ParseLiteral(t, "false", Bool(false))
    else if t[0] == 'n' then ParseLiteral(t, "null", Null)
    else if t[0] == '-' || IsDigit(t[0]) then
      match ParseNumber(t, strtod)
      case Rejected(status) => Rejected(status)
      case Parsed(n, rest) => Parsed(Number(n), rest)
    else Rejected(InvalidArg)
  }

  function ParseObject(s: string, d: nat, strtod: string -> real): (r: Parsed<Value>)
    requires s != []
    ensures r.Parsed? ==> |r.rest| < |s|
    decreases |s|, 0
  {
    var t := SkipWs(s[1..]);
    if t != [] && t[0] == '}' then Parsed(Object([]), t[1..]) else ParseMembers(t, d, [], strtod)
  }

  /** One pass of the loop of parse_object: a key, a colon, a value. */
  function ParseMember(s: string, d: nat, strtod: string -> real): (r: Parsed<Member>)
    ensures r.Parsed? ==> |r.rest| < |s|
    decreases |s|, 0
  {
    match ParseString(SkipWs(s))
    case Rejected(status) => Rejected(status)
    case Parsed(key, afterKey) =>
      var t := SkipWs(afterKey);
      if t == [] || t[0] != ':' then Rejected(InvalidArg)
      else
        match ParseValue(SkipWs(t[1..]), d + 1, strtod)
        case Rejected(status) => Rejected(status)
        case Parsed(value, rest) => Parsed(Member(key, value), rest)
  }

  /** The loop of parse_object, with the members read so far. */
  function ParseMembers(s: string, d: nat, members: seq<Member>, strtod: string -> real): (r: Parsed<Value>)
    ensures r.Parsed? ==> |r.rest| < |s|
    decreases |s|, 1
  {
    match ParseMember(s, d, strtod)
    case Rejected(status) => Rejected(status)
    case Parsed(m, afterMember) =>
      var t := SkipWs(afterMember);
      if t != [] && t[0] == ',' then ParseMembers(t[1..], d, members + [m], strtod)
      else if t != [] && t[0] == '}' then Parsed(Object(members + [m]), t[1..])
      else Rejected(InvalidArg)
  }

  function ParseArray(s: string, d: nat, strtod: string -> real): (r: Parsed<Value>)
    requires s != []
    ensures r.Parsed? ==> |r.rest| < |s|
    decreases |s|, 0
  {
    var t := SkipWs(s[1..]);
    if t != [] && t[0] == ']' then Parsed(Array([]), t[1..]) else ParseItems(t, d, [], strtod)
  }

  /** The loop of parse_array, with the items read so far. */
  function ParseItems(s: string, d: nat, items: seq<Value>, strtod: string -> real): (r: Parsed<Value>)
    ensures r.Parsed? ==> |r.rest| < |s|
    decreases |s|, 2
  {
    match ParseValue(SkipWs(s), d + 1, strtod)
    case Rejected(status) => Rejected(status)
    case Parsed(value, afterValue) =>
      var items' := items + [value];
      var u := SkipWs(afterValue);
      if u != [] && u[0] == ',' then ParseItems(u[1..], d, items', strtod)
      else if u != [] && u[0] == ']' then Parsed(Array(items'), u[1..])
      else Rejected(InvalidArg)
  }

  /** usbs_json_parse: one value, then nothing but white space. */
  function Parse(s: string, strtod: string -> real): Result<Value> {
    match ParseValue(s, 0, strtod)
    case Rejected(status) => Failure(status)
    case Parsed(v, rest) => if SkipWs(rest) == [] then Success(v) else Failure(InvalidArg)
  }

  // ---- looking into a tree ----

  function Find(members: seq<Member>, key: cstring): Option<Value> {
    if members == [] then None
    else if members[0].key == key then Some(members[0].value)
    else Find(members[1..], key)
  }

  lemma {:induction false} FindAt(ms: seq<Member>, key: cstring, n: nat)
    requires n < |ms| && ms[n].key == key
    requires forall i | 0 <= i < n :: ms[i].key != key
    ensures Find(ms, key) == Some(ms[n].value)
    decreases n
  {
    if n > 0 {
      FindAt(ms[1..], key, n - 1);
    }
  }

  /** usbs_json_object_get: the first member with the key; None for anything but an object. */
  function Get(v: Value, key: cstring): Option<Value> {
    if v.Object? then Find(v.members, key) else None
  }

  method ObjectGet(tree: Value, key: cstring) returns (r: Option<Value>)
    ensures r == Get(tree, key)
  {
    if !tree.Object? {
      return None;
    }
    for i := 0 to |tree.members|
      invariant Find(tree.members[i..], key) == Find(tree.members, key)
    {
      assert tree.members[i..][1..] == tree.members[i + 1..];
      if tree.members[i].key == key {
        return Some(tree.members[i].value);
      }
    }
    return None;
  }

  /** A double converted to a 64-bit integer; out of range, what x86-64 processors give. */
  function LongLong(n: real): int {
    if -TWO_TO_THE_63 <= n.Floor < TWO_TO_THE_63 then n.Floor else -TWO_TO_THE_63
  }

  /** usbs_json_as_int: an integral number. */
  function AsInt(v: Option<Value>): Option<int> {
    match v
    case Some(Number(n)) => if n.Floor as real == n then Some(LongLong(n)) else None
    case _ => None
  }

  /** usbs_json_as_string; a NULL is written back as an empty string. */
  function AsString(v: Value): cstring {
    if v.String? then v.s else ""
  }

  // ---- what holds of everything that is accepted ----

  ghost predicate IsRead(n: real, strtod: string -> real) {
    exists t: string :: strtod(t) == n
  }

  /** Inside `d` containers: every value inside fewer than 32, and every number one that strtod gave. */
  ghost predicate FromText(v: Value, d: nat, strtod: string -> real) {
    && d < MAX_DEPTH
    && match v
       case Number(n) => IsRead(n, strtod)
       case Array(items) => forall i | 0 <= i < |items| :: FromText(items[i], d + 1, strtod)
       case Object(members) => forall i | 0 <= i < |members| :: FromText(members[i].value, d + 1, strtod)
       case _ => true
  }

  lemma {:induction false} FromTextIsShallow(v: Value, d: nat, strtod: string -> real)
    requires FromText(v, d, strtod)
    ensures Shallow(v, d)
  {
    match v
    case Array(items) =>
      forall i | 0 <= i < |items| ensures Shallow(items[i], d + 1) { FromTextIsShallow(items[i], d + 1, strtod); }
    case Object(members) =>
      forall i | 0 <= i < |members| ensures Shallow(members[i].value, d + 1) {
        FromTextIsShallow(members[i].value, d + 1, strtod);
      }
    case _ =>
  }

  lemma {:induction false} ParsedIsFromText(s: string, d: nat, strtod: string -> real)
    requires ParseValue(s, d, strtod).Parsed?
    ensures FromText(ParseValue(s, d, strtod).value, d, strtod)
    decreases |s|, 1
  {
    hide ParseString, ParseNumber, ParseMembers, ParseItems, FromText, SkipWs;
    var t := SkipWs(s);
    if t[0] == '{' {
      var u := SkipWs(t[1..]);
      if u != [] && u[0] == '}' {
        EmptyIsFromText(d, strtod);
      } else {
        MembersAreFromText(u, d, [], strtod);
      }
    } else if t[0] == '[' {
      var u := SkipWs(t[1..]);
      if u != [] && u[0] == ']' {
        EmptyIsFromText(d, strtod);
      } else {
        ItemsAreFromText(u, d, [], strtod);
      }
    } else {
      ScalarIsFromText(s, d, strtod);
    }
  }

  lemma EmptyIsFromText(d: nat, strtod: string -> real)
    requires d < MAX_DEPTH
    ensures FromText(Object([]), d, strtod) && FromText(Array([]), d, strtod)
  {
  }

  lemma ScalarIsFromText(s: string, d: nat, strtod: string -> real)
    requires ParseValue(s, d, strtod).Parsed? && SkipWs(s) != [] && SkipWs(s)[0] != '{' && SkipWs(s)[0] != '['
    ensures FromText(ParseValue(s, d, strtod).value, d, strtod)
  {
    hide ParseString, SkipWs, ParseObject, ParseArray;
  }

  lemma {:induction false} MembersAreFromText(s: string, d: nat, members: seq<Member>, strtod: string -> real)
    requires d < MAX_DEPTH && forall i | 0 <= i < |members| :: FromText(members[i].value, d + 1, strtod)
    requires ParseMembers(s, d, members, strtod).Parsed?
    ensures FromText(ParseMembers(s, d, members, strtod).value, d, strtod)
    decreases |s|, 0
  {
    var key := ParseString(SkipWs(s));
    ParsedIsFromText(SkipWs(SkipWs(key.rest)[1..]), d + 1, strtod);
    var m := ParseMember(s, d, strtod);
    var t := SkipWs(m.rest);
    if t[0] == ',' {
      MembersAreFromText(t[1..], d, members + [m.value], strtod);
    }
  }

  lemma {:induction false} ItemsAreFromText(s: string, d: nat, items: seq<Value>, strtod: string -> real)
    requires d < MAX_DEPTH && forall i | 0 <= i < |items| :: FromText(items[i], d + 1, strtod)
    requires ParseItems(s, d, items, strtod).Parsed?
    ensures FromText(ParseItems(s, d, items, strtod).value, d, strtod)
    decreases |s|, 2
  {
    ParsedIsFromText(SkipWs(s), d + 1, strtod);
    var v := ParseValue(SkipWs(s), d + 1, strtod);
    var u := SkipWs(v.rest);
    if u[0] == ',' {
      ItemsAreFromText(u[1..], d, items + [v.value], strtod);
    }
  }

  /** Whatever text is accepted, every value of the tree sits inside fewer than 32 containers and every number came from strtod. */
  lemma AcceptedIsShallow(s: string, strtod: string -> real)
    requires Parse(s, strtod).Success?
    ensures Shallow(Parse(s, strtod).value, 0)
    ensures FromText(Parse(s, strtod).value, 0, strtod)
  {
    ParsedIsFromText(s, 0, strtod);
    FromTextIsShallow(Parse(s, strtod).value, 0, strtod);
  }

  // ---- the parser object ----

  /** The caller's out-pointer. */
  class Slot {
    var value: Option<Value>

    constructor (value: Option<Value>)
      ensures this.value == value
    {
      this.value := value;
    }
  }

  /** Appends to a heap buffer, which is copied into a larger one when the terminator would not fit. */
  method Append(buf: array<char>, len: nat, bytes: string) returns (grown: array<char>)
    requires len < buf.Length
    modifies buf
    ensures len + |bytes| < grown.Length
    ensures grown[..len + |bytes|] == old(buf[..len]) + bytes
    ensures grown == buf || fresh(grown)
  {
    grown := buf;
    if len + |bytes| >= buf.Length {
      var cap := buf.Length;
      while len + |bytes| >= cap
        invariant cap >= buf.Length
        decreases len + |bytes| - cap
      {
        cap := cap * 2;
      }
      grown := new char[cap];
      for i := 0 to len
        invariant buf[..] == old(buf[..]) && grown[..i] == buf[..i]
      {
        grown[i] := buf[i];
      }
    }
    assert grown[..len] == old(buf[..len]);
    for i := 0 to |bytes|
      invariant grown[..len + i] == old(buf[..len]) + bytes[..i]
    {
      grown[len + i] := bytes[i];
    }
  }

  class Parser {
    const text: string
    const strtod: string -> real
    var pos: nat
    var depth: int

    ghost predicate Valid()
      reads this
    {
      pos <= |text| && 0 <= depth <= MAX_DEPTH
    }

    /** The text not yet consumed. */
    ghost function Rest(): string
      requires pos <= |text|
      reads this
    {
      text[pos..]
    }

    /** The call returned what `p` says and stopped where `p` says. */
    ghost predicate Agrees<T>(r: Result<T>, p: Parsed<T>)
      requires pos <= |text|
      reads this
    {
      match p
      case Parsed(v, rest) => r == Success(v) && Rest() == rest
      case Rejected(status) => r == Failure(status)
    }

    constructor (text: string, strtod: string -> real)
      ensures this.text == text && this.strtod == strtod && pos == 0 && depth == 0
    {
      this.text, this.strtod, pos, depth := text, strtod, 0, 0;
    }

    predicate AtEnd()
      reads this
    {
      pos >= |text|
    }

    function Peek(): char
      reads this
    {
      if AtEnd() then NUL else text[pos]
    }

    method Next()
      requires Valid() && pos < |text|
      modifies this`pos
      ensures Valid() && pos == old(pos) + 1
      ensures Rest() == old(Rest())[1..]
    {
      pos := pos + 1;
    }

    method SkipWhite()
      requires Valid()
      modifies this`pos
      ensures Valid() && old(pos) <= pos
      ensures Rest() == SkipWs(old(Rest()))
    {
      while pos < |text|
        invariant old(pos) <= pos <= |text|
        invariant SkipWs(Rest()) == SkipWs(old(Rest()))
      {
        var c := text[pos];
        if c == ' ' || c == '\t' || c == '\n' || c == '\r' {
          Next();
        } else {
          break;
        }
      }
    }

    method ReadHex() returns (code: int)
      requires Valid() && pos + 4 <= |text|
      modifies this`pos
      ensures Valid()
      ensures code < 0 <==> exists i | 0 <= i < 4 :: !IsHex(old(Rest())[i])
      ensures code >= 0 ==> Rest() == old(Rest())[4..] && code == CodeOf(old(Rest())[..4])
    {
      code := 0;
      ghost var s := Rest();
      for i := 0 to 4
        invariant pos == old(pos) + i
        invariant forall j | 0 <= j < i :: IsHex(s[j])
        invariant i == 0 ==> code == 0
        invariant i == 1 ==> code == HexValue(s[0])
        invariant i == 2 ==> code == 16 * HexValue(s[0]) + HexValue(s[1])
        invariant i == 3 ==> code == 256 * HexValue(s[0]) + 16 * HexValue(s[1]) + HexValue(s[2])
        invariant i == 4 ==> code == CodeOf(s[..4])
      {
        var h := text[pos];
        assert h == s[i];
        pos := pos + 1;
        if !IsHex(h) {
          return -1;
        }
        code := 16 * code + HexValue(h);
      }
    }

    method ReadEscape() returns (r: Result<string>)
      requires Valid() && pos < |text|
      modifies this`pos
      ensures Valid() && Agrees(r, ParseEscape(old(Rest())))
    {
      ghost var s := Rest();
      Next();
      if AtEnd() {
        return Failure(InvalidArg);
      }
      var esc := Peek();
      Next();
      assert esc == s[1] && Rest() == s[2..];
      if esc == 'u' {
        if pos + 4 > |text| {
          return Failure(InvalidArg);
        }
        var code := ReadHex();
        return if code < 0 then Failure(InvalidArg) else Success(Encode(code));
      }
      match Unescape(esc) {
        case None => return Failure(InvalidArg);
        case Some(c) => return Success([c]);
      }
    }

    method ParseStringLiteral() returns (r: Result<cstring>)
      requires Valid()
      modifies this`pos
      ensures Valid() && Agrees(r, ParseString(old(Rest())))
    {
      hide ParseEscape, CStr;
      var cap := 32;
      var buf := new char[cap];
      var len: nat := 0;
      if Peek() != '"' {
        return Failure(InvalidArg);
      }
      ghost var goal := ParseString(Rest());
      Next();
      while true
        invariant Valid() && len < buf.Length && fresh(buf)
        invariant ParseChars(Rest(), buf[..len]) == goal
        decreases |text| - pos
      {
        if AtEnd() {
          return Failure(InvalidArg);
        }
        var c := Peek();
        if c == '"' {
          Next();
          return Success(CStr(buf[..len]));
        }
        var bytes := [c];
        if c == '\\' {
          var escape := ReadEscape();
          if escape.Failure? {
            return Failure(escape.error);
          }
          bytes := escape.value;
        } else {
          Next();
        }
        buf := Append(buf, len, bytes);
        len := len + |bytes|;
      }
    }

    method SkipDigits()
      requires Valid()
      modifies this`pos
      ensures Valid() && pos == old(pos) + Span(old(Rest()))
      ensures Rest() == old(Rest())[Span(old(Rest()))..]
    {
      while !AtEnd() && IsDigit(Peek())
        invariant old(pos) <= pos <= |text|
        invariant pos + Span(Rest()) == old(pos) + Span(old(Rest()))
        decreases |text| - pos
      {
        Next();
      }
    }

    method SkipFraction()
      requires Valid()
      modifies this`pos
      ensures Valid() && pos == old(pos) + FractionLength(old(Rest()))
      ensures Rest() == old(Rest())[FractionLength(old(Rest()))..]
    {
      if !AtEnd() && Peek() == '.' {
        Next();
        SkipDigits();
      }
    }

    method SkipExponent()
      requires Valid()
      modifies this`pos
      ensures Valid() && pos == old(pos) + ExponentLength(old(Rest()))
    {
      if !AtEnd() && (Peek() == 'e' || Peek() == 'E') {
        ghost var s := Rest();
        Next();
        if !AtEnd() && (Peek() == '+' || Peek() == '-') {
          assert s[1..][1..] == s[2..];
          Next();
        }
        SkipDigits();
      }
    }

    method SkipInteger()
      requires Valid()
      modifies this`pos
      ensures Valid() && pos == old(pos) + IntegerLength(old(Rest()))
      ensures Rest() == old(Rest())[IntegerLength(old(Rest()))..]
    {
      if Peek() == '-' {
        Next();
      }
      SkipDigits();
    }

    method SkipToken()
      requires Valid()
      modifies this`pos
      ensures Valid() && pos == old(pos) + TokenLength(old(Rest()))
      ensures Rest() == old(Rest())[TokenLength(old(Rest()))..]
    {
      hide ExponentLength, FractionLength, IntegerLength;
      ghost var s := Rest();
      SkipInteger();
      SkipFraction();
      assert Rest() == s[MantissaLength(s)..];
      SkipExponent();
    }

    method ParseNumberToken() returns (r: Result<real>)
      requires Valid()
      modifies this`pos
      ensures Valid() && Agrees(r, ParseNumber(old(Rest()), strtod))
    {
      hide TokenLength, StrtodConsumes;
      var start := pos;
      SkipToken();
      var n := pos - start;
      if n == 0 || n >= 64 {
        return Failure(InvalidArg);
      }
      var tmp := text[start..pos];
      assert tmp == old(Rest())[..n];
      if !StrtodConsumes(tmp) {
        return Failure(InvalidArg);
      }
      return Success(strtod(tmp));
    }

    method MatchLiteral(literal: string) returns (matched: bool)
      requires Valid()
      modifies this`pos
      ensures Valid() && matched == (literal <= old(Rest()))
      ensures Rest() == if matched then old(Rest())[|literal|..] else old(Rest())
    {
      if pos + |literal| > |text| {
        return false;
      }
      assert text[pos..pos + |literal|] == Rest()[..|literal|];
      if text[pos..pos + |literal|] != literal {
        return false;
      }
      pos := pos + |literal|;
      return true;
    }

    method ParseAMember() returns (r: Result<Member>)
      requires Valid() && depth > 0
      modifies this`pos, this`depth
      ensures Valid() && depth == old(depth)
      ensures Agrees(r, ParseMember(old(Rest()), depth - 1, strtod))
      decreases |text| - pos, 0
    {
      hide ParseValue, ParseString, SkipWs;
      ghost var start := pos;
      SkipWhite();
      var key := ParseStringLiteral();
      if key.Failure? {
        return Failure(key.error);
      }
      SkipWhite();
      if Peek() != ':' {
        return Failure(InvalidArg);
      }
      Next();
      SkipWhite();
      var value := ParseAValue();
      if value.Failure? {
        return Failure(value.error);
      }
      return Success(Member(key.value, value.value));
    }

    method ParseMembersLoop() returns (r: Result<Value>)
      requires Valid() && depth > 0
      modifies this`pos, this`depth
      ensures Valid() && depth == old(depth)
      ensures Agrees(r, ParseMembers(old(Rest()), depth - 1, [], strtod))
      decreases |text| - pos, 1
    {
      hide ParseMember, SkipWs;
      ghost var d := depth - 1;
      ghost var goal := ParseMembers(Rest(), d, [], strtod);
      var members: seq<Member> := [];
      while true
        invariant Valid() && depth == old(depth) && pos >= old(pos)
        invariant ParseMembers(Rest(), d, members, strtod) == goal
        decreases |text| - pos
      {
        var next := ParseAMember();
        if next.Failure? {
          return Failure(next.error);
        }
        members := members + [next.value];
        SkipWhite();
        if Peek() == ',' {
          Next();
          continue;
        }
        if Peek() == '}' {
          Next();
          return Success(Object(members));
        }
        return Failure(InvalidArg);
      }
    }

    method ParseAnObject() returns (r: Result<Value>)
      requires Valid() && pos < |text| && depth > 0
      modifies this`pos, this`depth
      ensures Valid() && depth == old(depth)
      ensures Agrees(r, ParseObject(old(Rest()), depth - 1, strtod))
      decreases |text| - pos, 0
    {
      hide ParseMembers, SkipWs;
      Next();
      SkipWhite();
      if Peek() == '}' {
        Next();
        return Success(Object([]));
      }
      r := ParseMembersLoop();
    }

    method ParseItemsLoop() returns (r: Result<Value>)
      requires Valid() && depth > 0
      modifies this`pos, this`depth
      ensures Valid() && depth == old(depth)
      ensures Agrees(r, ParseItems(old(Rest()), depth - 1, [], strtod))
      decreases |text| - pos, 2
    {
      hide ParseValue, SkipWs;
      ghost var d := depth - 1;
      ghost var goal := ParseItems(Rest(), d, [], strtod);
      var items: seq<Value> := [];
      while true
        invariant Valid() && depth == old(depth) && pos >= old(pos)
        invariant ParseItems(Rest(), d, items, strtod) == goal
        decreases |text| - pos
      {
        SkipWhite();
        var next := ParseAValue();
        if next.Failure? {
          return Failure(next.error);
        }
        items := items + [next.value];
        SkipWhite();
        if Peek() == ',' {
          Next();
          continue;
        }
        if Peek() == ']' {
          Next();
          return Success(Array(items));
        }
        return Failure(InvalidArg);
      }
    }

    method ParseAnArray() returns (r: Result<Value>)
      requires Valid() && pos < |text| && depth > 0
      modifies this`pos, this`depth
      ensures Valid() && depth == old(depth)
      ensures Agrees(r, ParseArray(old(Rest()), depth - 1, strtod))
      decreases |text| - pos, 0
    {
      hide ParseItems, SkipWs;
      Next();
      SkipWhite();
      if Peek() == ']' {
        Next();
        return Success(Array([]));
      }
      r := ParseItemsLoop();
    }

    /** parse_value: whatever happens, `depth` is back where it was. */
    method ParseAValue() returns (r: Result<Value>)
      requires Valid()
      modifies this`pos, this`depth
      ensures Valid() && depth == old(depth)
      ensures Agrees(r, ParseValue(old(Rest()), depth, strtod))
      decreases |text| - pos, 1
    {
      if depth >= MAX_DEPTH {
        return Failure(Unsupported);
      }
      SkipWhite();
      if AtEnd() {
        return Failure(InvalidArg);
      }
      var c := Peek();
      if c == '{' {
        depth := depth + 1;
        r := ParseAnObject();
        depth := depth - 1;
      } else if c == '[' {
        depth := depth + 1;
        r := ParseAnArray();
        depth := depth - 1;
      } else if c == '"' {
        var s := ParseStringLiteral();
        r := if s.Failure? then Failure(s.error) else Success(String(s.value));
      } else if c == 't' {
        var matched := MatchLiteral("true");
        r := if matched then Success(Bool(true)) else Failure(InvalidArg);
      } else if c == 'f' {
        var matched := MatchLiteral("false");
        r := if matched then Success(Bool(false)) else Failure(InvalidArg);
      } else if c == 'n' {
        var matched := MatchLiteral("null");
        r := if matched then Success(Null) else Failure(InvalidArg);
      } else if c == '-' || IsDigit(c) {
        var n := ParseNumberToken();
        r := if n.Failure? then Failure(n.error) else Success(Number(n.value));
      } else {
        r := Failure(InvalidArg);
      }
    }
  }

  /** usbs_json_parse: the out-pointer is written on success only. */
  method ParseInto(text: string, strtod: string -> real, out: Slot) returns (status: Status)
    modifies out
    ensures match Parse(text, strtod)
            case Success(v) => status == Fine && out.value == Some(v)
            case Failure(error) => status == error && out.value == old(out.value)
  {
    var p := new Parser(text, strtod);
    assert text[0..] == text;
    var value := p.ParseAValue();
    if value.Failure? {
      return value.error;
    }
    p.SkipWhite();
    if !p.AtEnd() {
      return InvalidArg;
    }
    out.value := Some(value.value);
    return Fine;
  }
}
