/** Writer and reader undo each other, exactly as far as the reader's depth limit lets them. */
module JsonRoundTrip {
  import opened CText
  import opened JsonSyntax
  import opened JsonReader
  import opened Decimal
  import W = JsonWriter
  import D = JsonDocument

  /** What the round trip needs of strtod: integer literals up to 2^53 are read exactly. */
  ghost predicate ExactOnIntegers(strtod: string -> real) {
    forall t: string | IsIntegerLiteral(t) && -TWO_TO_THE_53 <= LiteralValue(t) <= TWO_TO_THE_53 ::
      strtod(t) == LiteralValue(t) as real
  }

  /**
    Every number is an integer that the writer's 64-bit conversions print and strtod reads back:
    an integer up to 2^53, or any larger one that is a double.
   */
  ghost predicate ReadsBack(v: Value, strtod: string -> real) {
    match v
    case Number(n) =>
      n == n.Floor as real && -TWO_TO_THE_63 <= n.Floor < 2 * TWO_TO_THE_63 && strtod(IntText(n.Floor)) == n
    case Array(items) => forall i | 0 <= i < |items| :: ReadsBack(items[i], strtod)
    case Object(members) => forall i | 0 <= i < |members| :: ReadsBack(members[i].value, strtod)
    case _ => true
  }

  lemma {:induction false} IntegersReadBack(v: Value, strtod: string -> real)
    requires ExactIntegers(v) && ExactOnIntegers(strtod)
    ensures ReadsBack(v, strtod)
  {
    match v
    case Number(n) => IntTextDenotes(n.Floor);
    case Array(items) =>
      forall i | 0 <= i < |items| ensures ReadsBack(items[i], strtod) { IntegersReadBack(items[i], strtod); }
    case Object(members) =>
      forall i | 0 <= i < |members| ensures ReadsBack(members[i].value, strtod) {
        IntegersReadBack(members[i].value, strtod);
      }
    case _ =>
  }

  /** Every number is an integer that the writer's 64-bit conversions print. */
  ghost predicate Printable(v: Value) {
    match v
    case Number(n) => n == n.Floor as real && -TWO_TO_THE_63 <= n.Floor < 2 * TWO_TO_THE_63
    case Array(items) => forall i | 0 <= i < |items| :: Printable(items[i])
    case Object(members) => forall i | 0 <= i < |members| :: Printable(members[i].value)
    case _ => true
  }

  /** The tree with each number as strtod reads what the writer prints for it. */
  function Heard(v: Value, strtod: string -> real): Value {
    match v
    case Number(n) => Number(strtod(IntText(n.Floor)))
    case Array(items) => Array(HeardItems(items, strtod))
    case Object(members) => Object(HeardMembers(members, strtod))
    case _ => v
  }

  function HeardItems(items: seq<Value>, strtod: string -> real): seq<Value> {
    if items == [] then [] else [Heard(items[0], strtod)] + HeardItems(items[1..], strtod)
  }

  function HeardMembers(members: seq<Member>, strtod: string -> real): seq<Member> {
    if members == [] then []
    else [Member(members[0].key, Heard(members[0].value, strtod))] + HeardMembers(members[1..], strtod)
  }

  /** Trees that are read back are those that are heard as they are. */
  lemma {:induction false} ReadsBackIsHeard(v: Value, strtod: string -> real)
    requires ReadsBack(v, strtod)
    ensures Printable(v) && Heard(v, strtod) == v
    decreases v, 1
  {
    match v
    case Array(items) => ItemsAreHeard(items, strtod);
    case Object(members) => MembersAreHeard(members, strtod);
    case _ =>
  }

  lemma {:induction false} ItemsAreHeard(items: seq<Value>, strtod: string -> real)
    requires forall i | 0 <= i < |items| :: ReadsBack(items[i], strtod)
    ensures (forall i | 0 <= i < |items| :: Printable(items[i])) && HeardItems(items, strtod) == items
    decreases items, 0
  {
    hide ReadsBack, Printable, Heard;
    if items != [] {
      ReadsBackIsHeard(items[0], strtod);
      ItemsAreHeard(items[1..], strtod);
      assert items == [items[0]] + items[1..];
      assert forall i | 1 <= i < |items| :: items[i] == items[1..][i - 1];
    }
  }

  lemma {:induction false} MembersAreHeard(members: seq<Member>, strtod: string -> real)
    requires forall i | 0 <= i < |members| :: ReadsBack(members[i].value, strtod)
    ensures (forall i | 0 <= i < |members| :: Printable(members[i].value)) && HeardMembers(members, strtod) == members
    decreases members, 0
  {
    hide ReadsBack, Printable, Heard;
    if members != [] {
      ReadsBackIsHeard(members[0].value, strtod);
      MembersAreHeard(members[1..], strtod);
      assert members == [members[0]] + members[1..];
      assert forall i | 1 <= i < |members| :: members[i] == members[1..][i - 1];
    }
  }

  /** What can follow a value in written text. */
  predicate Delimited(rest: string) {
    rest == "" || rest[0] == ',' || rest[0] == ']' || rest[0] == '}'
  }

  // ---- strings ----

  lemma ReadPlainChar(c: char, t: string, buffer: string)
    requires EscapeChar(c) == [c]
    ensures ParseChars(EscapeChar(c) + t, buffer) == ParseChars(t, buffer + [c])
  {
    assert ([c] + t)[1..] == t;
    assert c as int != 34 && c as int != 92;
  }

  lemma ReadShortEscape(c: char, t: string, buffer: string)
    requires |EscapeChar(c)| == 2
    ensures ParseChars(EscapeChar(c) + t, buffer) == ParseChars(t, buffer + [c])
  {
    var s := EscapeChar(c) + t;
    assert s[0] == '\\' && s[1] == EscapeChar(c)[1] && s[2..] == t;
    assert Unescape(s[1]) == Some(c);
  }

  lemma ReadUnicodeEscape(c: char, t: string, buffer: string)
    requires |EscapeChar(c)| == 6
    ensures ParseChars(EscapeChar(c) + t, buffer) == ParseChars(t, buffer + [c])
  {
    var e := EscapeChar(c);
    var s := e + t;
    var code := c as int;
    assert code < 0x20;
    assert e == "\\u00" + [HexDigit(code / 16), HexDigit(code % 16)];
    assert s[0] == '\\' && s[1] == 'u' && s[2..][4..] == t;
    var h := s[2..][..4];
    assert h == ['0', '0', HexDigit(code / 16), HexDigit(code % 16)];
    assert forall i | 0 <= i < 4 :: s[2..][i] == h[i];
    assert HexValue(h[2]) == code / 16 && HexValue(h[3]) == code % 16;
    assert IsHex(h[0]) && IsHex(h[1]) && IsHex(h[2]) && IsHex(h[3]);
    assert CodeOf(h) == code;
    assert Encode(code) == [c];
  }

  lemma EscapeLength(c: char)
    ensures |EscapeChar(c)| == 1 || |EscapeChar(c)| == 2 || |EscapeChar(c)| == 6
    ensures |EscapeChar(c)| == 1 ==> EscapeChar(c) == [c]
  {
  }

  lemma {:induction false} ReadChars(s: string, rest: string, buffer: string)
    ensures ParseChars(Escaped(s) + "\"" + rest, buffer) == Parsed(CStr(buffer + s), rest)
  {
    hide EscapeChar, ParseEscape, CStr;
    var t := Escaped(s) + "\"" + rest;
    if s == [] {
      assert t == "\"" + rest;
      assert t[1..] == rest;
      assert buffer + s == buffer;
    } else {
      var tail := Escaped(s[1..]) + "\"" + rest;
      assert t == EscapeChar(s[0]) + tail;
      EscapeLength(s[0]);
      if |EscapeChar(s[0])| == 1 {
        ReadPlainChar(s[0], tail, buffer);
      } else if |EscapeChar(s[0])| == 2 {
        ReadShortEscape(s[0], tail, buffer);
      } else {
        ReadUnicodeEscape(s[0], tail, buffer);
      }
      ReadChars(s[1..], rest, buffer + [s[0]]);
      assert buffer + [s[0]] + s[1..] == buffer + s;
    }
  }

  /** Every C string, control characters included, survives quoting. */
  lemma ReadQuoted(s: cstring, rest: string)
    ensures ParseString(Quote(s) + rest) == Parsed(s, rest)
  {
    var t := Quote(s) + rest;
    assert t[0] == '"' && t[1..] == Escaped(s) + "\"" + rest;
    ReadChars(s, rest, "");
    assert "" + s == s;
    CStrOfNulFree(s);
  }

  // ---- numbers ----

  lemma {:induction false} SpanOfDigits(digits: string, rest: string)
    requires AllDigits(digits) && (rest == "" || !IsDigit(rest[0]))
    ensures Span(digits + rest) == |digits|
  {
    if digits == "" {
      assert digits + rest == rest;
    } else {
      assert (digits + rest)[1..] == digits[1..] + rest;
      SpanOfDigits(digits[1..], rest);
    }
  }

  /** The three parts of the token of an integer, whatever may follow it. */
  lemma PartsOfInteger(n: int, rest: string)
    requires Delimited(rest)
    ensures var (t, sign) := (IntText(n), if n < 0 then 1 else 0);
            MantissaLength(t + rest) == |t| && IntegerLength(t + rest) == |t| && SignLength(t + rest) == sign
            && (t + rest)[|t|..] == rest
  {
    hide Digits;
    var t := IntText(n);
    var sign := if n < 0 then 1 else 0;
    var digits := Digits(if n < 0 then -n else n);
    assert (t + rest)[sign..] == digits + rest;
    assert IsDigit(digits[0]);
    SpanOfDigits(digits, rest);
    assert (t + rest)[|t|..] == rest;
  }

  lemma TokenOfInteger(n: int, rest: string)
    requires Delimited(rest)
    ensures TokenLength(IntText(n) + rest) == |IntText(n)|
    ensures StrtodConsumes(IntText(n))
  {
    hide IntegerLength, SignLength, MantissaLength, IntText;
    var t := IntText(n);
    PartsOfInteger(n, rest);
    PartsOfInteger(n, "");
    assert t + "" == t;
    IntTextHasDigits(n);
  }

  lemma IntTextHasDigits(n: int)
    ensures |IntText(n)| > if n < 0 then 1 else 0
  {
    hide Digits;
  }

  lemma ReadInteger(n: int, rest: string, strtod: string -> real)
    requires -TWO_TO_THE_63 <= n < 2 * TWO_TO_THE_63 && Delimited(rest)
    ensures ParseNumber(IntText(n) + rest, strtod) == Parsed(strtod(IntText(n)), rest)
  {
    TokenOfInteger(n, rest);
    IntTextLength(n);
    var t := IntText(n);
    assert (t + rest)[..|t|] == t && (t + rest)[|t|..] == rest;
  }

  // ---- values ----

  lemma FirstChar(v: Value)
    ensures Render(v) != "" && !IsWs(Render(v)[0]) && Render(v)[0] != ']'
    ensures v.Number? ==> Render(v)[0] == '-' || IsDigit(Render(v)[0])
    ensures v.String? ==> Render(v)[0] == '"'
  {
  }

  lemma QuoteStarts(s: string, rest: string)
    ensures Quote(s) != "" && Quote(s)[0] == '"'
    ensures SkipWs(Quote(s) + rest) == Quote(s) + rest
  {
  }

  lemma NothingToSkip(v: Value, rest: string)
    ensures SkipWs(Render(v) + rest) == Render(v) + rest
  {
    FirstChar(v);
  }

  lemma ReadScalar(v: Value, rest: string, d: nat, strtod: string -> real)
    requires !v.Array? && !v.Object? && d < MAX_DEPTH
    requires Printable(v) && Delimited(rest)
    ensures ParseValue(Render(v) + rest, d, strtod) == Parsed(Heard(v, strtod), rest)
  {
    hide ParseNumber, ParseString, Quote;
    var s := Render(v) + rest;
    NothingToSkip(v, rest);
    FirstChar(v);
    assert s[0] == Render(v)[0];
    match v
    case Null =>
      assert s[4..] == rest && "null" <= s;
    case Bool(b) =>
      assert if b then "true" <= s && s[4..] == rest else "false" <= s && s[5..] == rest;
    case Number(n) =>
      ReadInteger(n.Floor, rest, strtod);
    case String(text) =>
      ReadQuoted(text, rest);
  }

  lemma {:induction false} ReadValue(v: Value, rest: string, d: nat, strtod: string -> real)
    requires Printable(v) && Delimited(rest)
    ensures ParseValue(Render(v) + rest, d, strtod)
         == if Shallow(v, d) then Parsed(Heard(v, strtod), rest) else Rejected(Unsupported)
    decreases v, 1
  {
    NothingToSkip(v, rest);
    if d < MAX_DEPTH {
      match v
      case Array(items) =>
        ReadArray(items, rest, d, strtod);
      case Object(members) =>
        ReadObject(members, rest, d, strtod);
      case _ =>
        ReadScalar(v, rest, d, strtod);
    }
  }

  lemma {:induction false} ReadArray(items: seq<Value>, rest: string, d: nat, strtod: string -> real)
    requires d < MAX_DEPTH
    requires forall i | 0 <= i < |items| :: Printable(items[i])
    ensures ParseArray(Render(Array(items)) + rest, d, strtod)
         == if Shallow(Array(items), d) then Parsed(Array(HeardItems(items, strtod)), rest) else Rejected(Unsupported)
    decreases items, 1
  {
    hide ParseItems, ParseValue, RenderItems, Shallow;
    var s := Render(Array(items)) + rest;
    var t := RenderItems(items, true) + ("]" + rest);
    assert s[1..] == t;
    ArrayIsShallow(items, d);
    ItemsStart(items, "]" + rest);
    if items == [] {
      assert t[1..] == rest;
    } else {
      ReadItems(items, rest, d, [], strtod);
      assert [] + HeardItems(items, strtod) == HeardItems(items, strtod);
    }
  }

  lemma ArrayIsShallow(items: seq<Value>, d: nat)
    ensures d < MAX_DEPTH ==> (Shallow(Array(items), d) <==> AllShallowItems(items, d + 1))
  {
  }

  /** What is found after the opening bracket. */
  lemma ItemsStart(items: seq<Value>, end: string)
    requires end != "" && end[0] == ']'
    ensures var t := RenderItems(items, true) + end;
            && t != "" && SkipWs(t) == t && (t[0] == ']' <==> items == []) && (items == [] ==> t == end)
  {
    hide Render;
    if items != [] {
      assert RenderItems(items, true) + end == Render(items[0]) + (RenderItems(items[1..], false) + end);
      NothingToSkip(items[0], RenderItems(items[1..], false) + end);
      FirstChar(items[0]);
    }
  }

  ghost predicate AllShallowItems(items: seq<Value>, d: nat) {
    forall i | 0 <= i < |items| :: Shallow(items[i], d)
  }

  lemma AllShallowItemsCons(v: Value, others: seq<Value>, d: nat)
    ensures AllShallowItems([v] + others, d) <==> Shallow(v, d) && AllShallowItems(others, d)
  {
    var items := [v] + others;
    assert forall i | 0 <= i < |others| :: others[i] == items[i + 1];
    assert items[0] == v;
  }

  lemma FirstItem(items: seq<Value>, end: string)
    requires items != []
    ensures RenderItems(items, true) + end == Render(items[0]) + (RenderItems(items[1..], false) + end)
    ensures (RenderItems(items, false) + end)[0] == ','
    ensures (RenderItems(items, false) + end)[1..] == RenderItems(items, true) + end
  {
    hide Render;
    SplitText(Render(items[0]), RenderItems(items[1..], false), end);
    FirstChar(items[0]);
  }

  lemma ItemsStep(s: string, d: nat, before: seq<Value>, strtod: string -> real)
    requires SkipWs(s) == s
    ensures var p := ParseValue(s, d + 1, strtod);
            var all := ParseItems(s, d, before, strtod);
            && (p.Rejected? ==> all == Rejected(p.status))
            && (p.Parsed? && p.rest != "" && p.rest[0] == ',' ==>
                  all == ParseItems(p.rest[1..], d, before + [p.value], strtod))
            && (p.Parsed? && p.rest != "" && p.rest[0] == ']' ==>
                  all == Parsed(Array(before + [p.value]), p.rest[1..]))
  {
    hide ParseValue;
  }

  lemma {:induction false} ReadItems(items: seq<Value>, rest: string, d: nat, before: seq<Value>, strtod: string -> real)
    requires items != []
    requires forall i | 0 <= i < |items| :: Printable(items[i])
    ensures ParseItems(RenderItems(items, true) + ("]" + rest), d, before, strtod)
         == if AllShallowItems(items, d + 1)
            then Parsed(Array(before + HeardItems(items, strtod)), rest) else Rejected(Unsupported)
    decreases items, 0
  {
    hide Render, ParseValue, Printable, Heard;
    var end := "]" + rest;
    var v, others := items[0], items[1..];
    assert items == [v] + others;
    var tail := RenderItems(others, false) + end;
    var s := RenderItems(items, true) + end;
    FirstItem(items, end);
    NothingToSkip(v, tail);
    AllShallowItemsCons(v, others, d + 1);
    ReadValue(v, tail, d + 1, strtod);
    ItemsStep(s, d, before, strtod);
    var heard, more := Heard(v, strtod), HeardItems(others, strtod);
    assert before + ([heard] + more) == before + [heard] + more;
    if others == [] {
      assert tail == end && tail[1..] == rest;
      assert before + [heard] + [] == before + [heard];
    } else {
      FirstItem(others, end);
      ReadItems(others, rest, d, before + [heard], strtod);
    }
  }

  lemma FirstMember(members: seq<Member>, end: string)
    requires members != []
    ensures RenderMembers(members, true) + end
         == RenderMember(members[0]) + (RenderMembers(members[1..], false) + end)
    ensures (RenderMembers(members, true) + end)[0] == '"'
    ensures (RenderMembers(members, false) + end)[0] == ','
    ensures (RenderMembers(members, false) + end)[1..] == RenderMembers(members, true) + end
  {
    hide EscapeChar, Escaped, Quote, Render;
    SplitText(RenderMember(members[0]), RenderMembers(members[1..], false), end);
    QuoteStarts(members[0].key, "");
    assert RenderMember(members[0])[0] == Quote(members[0].key)[0] == '"';
  }

  lemma {:induction false} ReadObject(members: seq<Member>, rest: string, d: nat, strtod: string -> real)
    requires d < MAX_DEPTH
    requires forall i | 0 <= i < |members| :: Printable(members[i].value)
    ensures ParseObject(Render(Object(members)) + rest, d, strtod)
         == if Shallow(Object(members), d) then Parsed(Object(HeardMembers(members, strtod)), rest) else Rejected(Unsupported)
    decreases members, 1
  {
    hide ParseMembers, ParseMember, RenderMember, EscapeChar, Escaped;
    var s := Render(Object(members)) + rest;
    var t := RenderMembers(members, true) + ("}" + rest);
    assert s[1..] == t;
    if members == [] {
      assert t == "}" + rest && t[1..] == rest;
    } else {
      FirstMember(members, "}" + rest);
      ReadMembers(members, rest, d, [], strtod);
      assert [] + HeardMembers(members, strtod) == HeardMembers(members, strtod);
    }
  }

  lemma {:induction false} ReadMember(m: Member, rest: string, d: nat, strtod: string -> real)
    requires Printable(m.value) && Delimited(rest)
    ensures ParseMember(RenderMember(m) + rest, d, strtod)
         == if Shallow(m.value, d + 1) then Parsed(Member(m.key, Heard(m.value, strtod)), rest) else Rejected(Unsupported)
    decreases m, 2
  {
    hide Quote, Render, ParseString, ParseValue;
    var s := RenderMember(m) + rest;
    var afterKey := ":" + (Render(m.value) + rest);
    assert s == Quote(m.key) + afterKey;
    QuoteStarts(m.key, afterKey);
    ReadQuoted(m.key, afterKey);
    assert afterKey[1..] == Render(m.value) + rest;
    NothingToSkip(m.value, rest);
    ReadValue(m.value, rest, d + 1, strtod);
  }

  ghost predicate AllShallow(members: seq<Member>, d: nat) {
    forall i | 0 <= i < |members| :: Shallow(members[i].value, d)
  }

  lemma AllShallowCons(m: Member, others: seq<Member>, d: nat)
    ensures AllShallow([m] + others, d) <==> Shallow(m.value, d) && AllShallow(others, d)
  {
    var members := [m] + others;
    assert forall i | 0 <= i < |others| :: others[i] == members[i + 1];
    assert members[0] == m;
  }

  lemma MembersStep(s: string, d: nat, before: seq<Member>, strtod: string -> real)
    ensures var p := ParseMember(s, d, strtod);
            var all := ParseMembers(s, d, before, strtod);
            && (p.Rejected? ==> all == Rejected(p.status))
            && (p.Parsed? && p.rest != "" && p.rest[0] == ',' ==>
                  all == ParseMembers(p.rest[1..], d, before + [p.value], strtod))
            && (p.Parsed? && p.rest != "" && p.rest[0] == '}' ==>
                  all == Parsed(Object(before + [p.value]), p.rest[1..]))
  {
    hide ParseMember;
  }

  lemma {:induction false} ReadMembers(members: seq<Member>, rest: string, d: nat, before: seq<Member>, strtod: string -> real)
    requires members != []
    requires forall i | 0 <= i < |members| :: Printable(members[i].value)
    ensures ParseMembers(RenderMembers(members, true) + ("}" + rest), d, before, strtod)
         == if AllShallow(members, d + 1)
            then Parsed(Object(before + HeardMembers(members, strtod)), rest) else Rejected(Unsupported)
    decreases members, 0
  {
    hide RenderMember, ParseMember, Printable, Heard;
    var end := "}" + rest;
    var m, others := members[0], members[1..];
    assert members == [m] + others;
    var tail := RenderMembers(others, false) + end;
    var s := RenderMembers(members, true) + end;
    FirstMember(members, end);
    AllShallowCons(m, others, d + 1);
    ReadMember(m, tail, d, strtod);
    MembersStep(s, d, before, strtod);
    var heard, more := Member(m.key, Heard(m.value, strtod)), HeardMembers(others, strtod);
    assert before + ([heard] + more) == before + [heard] + more;
    if others == [] {
      assert tail == end && tail[1..] == rest;
      assert before + [heard] + [] == before + [heard];
    } else {
      FirstMember(others, end);
      ReadMembers(others, rest, d, before + [heard], strtod);
    }
  }

  // ---- the round trip ----

  /**
    Whatever strtod does: reading a tree's text gives the tree back, with its numbers as strtod reads
    them, exactly when no value sits inside 32 containers.
   */
  lemma ReadPrinted(v: Value, strtod: string -> real)
    requires Printable(v)
    ensures Parse(Render(v), strtod) == if Shallow(v, 0) then Success(Heard(v, strtod)) else Failure(Unsupported)
  {
    hide Printable, Render, Heard, Shallow;
    ReadValue(v, "", 0, strtod);
    assert Render(v) + "" == Render(v);
  }

  /** Reading a tree's text gives the tree back exactly when no value sits inside 32 containers. */
  lemma ReadRendered(v: Value, strtod: string -> real)
    requires ReadsBack(v, strtod)
    ensures Parse(Render(v), strtod) == if Shallow(v, 0) then Success(v) else Failure(Unsupported)
  {
    hide Printable, Render, Heard, Shallow, Parse;
    ReadsBackIsHeard(v, strtod);
    ReadPrinted(v, strtod);
  }

  lemma {:induction false} IsWhole(v: Value, strtod: string -> real)
    requires ReadsBack(v, strtod)
    ensures D.Whole(v)
  {
    match v
    case Array(items) =>
      forall i | 0 <= i < |items| ensures D.Whole(items[i]) { IsWhole(items[i], strtod); }
    case Object(members) =>
      forall i | 0 <= i < |members| ensures D.Whole(members[i].value) { IsWhole(members[i].value, strtod); }
    case _ =>
  }

  /**
    Round trip: any disciplined, complete call sequence whose writer finishes produces text that
    the reader maps back to the described tree, if and only if no value sits inside 32 containers.
   */
  lemma RoundTrip(calls: seq<Call>, v: Value, strtod: string -> real)
    requires D.DescribeAll(D.EMPTY, calls) == Some(D.Doc(D.Bottom, Some(v)))
    requires ExactIntegers(v) && ExactOnIntegers(strtod)
    requires W.Finish(W.Run(W.INITIAL, calls)).Success?
    ensures var text := W.Finish(W.Run(W.INITIAL, calls)).value;
            && (Parse(text, strtod) == Success(v) <==> Shallow(v, 0))
            && (!Shallow(v, 0) ==> Parse(text, strtod) == Failure(Unsupported))
  {
    IntegersReadBack(v, strtod);
    IsWhole(v, strtod);
    D.DisciplinedFinish(calls, v);
    ReadRendered(v, strtod);
  }

  /** Whatever the reader accepts by its depth, the writer can write. */
  lemma ShallowTreesFinish(v: Value, strtod: string -> real)
    requires Shallow(v, 0) && ExactIntegers(v) && ExactOnIntegers(strtod)
    ensures W.Finish(W.Run(W.INITIAL, Calls(v))) == Success(Render(v))
    ensures Parse(Render(v), strtod) == Success(v)
  {
    ShallowNests(v, 0);
    IntegersReadBack(v, strtod);
    IsWhole(v, strtod);
    D.DisciplinedIffDescription(Calls(v), v);
    D.DisciplinedFinish(Calls(v), v);
    ReadRendered(v, strtod);
  }

  // ---- where the writer's own checks stop short ----

  function Nested(depth: nat, inner: Value): Value {
    if depth == 0 then inner else Array([Nested(depth - 1, inner)])
  }

  lemma {:induction false} NestedDepth(depth: nat, d: nat)
    requires depth + d == MAX_DEPTH
    ensures Nests(Nested(depth, Null), d) && !Shallow(Nested(depth, Null), d)
    ensures ExactIntegers(Nested(depth, Null))
  {
    if depth > 0 {
      NestedDepth(depth - 1, d + 1);
      assert Nested(depth, Null).items[0] == Nested(depth - 1, Null);
    }
  }

  /** A null inside 32 arrays is written without complaint and cannot be read back. */
  lemma WriterIsDeeperThanReader(strtod: string -> real)
    requires ExactOnIntegers(strtod)
    ensures var v := Nested(32, Null);
            && W.Finish(W.Run(W.INITIAL, Calls(v))) == Success(Render(v))
            && Parse(Render(v), strtod) == Failure(Unsupported)
  {
    var v := Nested(32, Null);
    NestedDepth(32, 0);
    IntegersReadBack(v, strtod);
    IsWhole(v, strtod);
    D.DisciplinedIffDescription(Calls(v), v);
    D.DisciplinedFinish(Calls(v), v);
    ReadRendered(v, strtod);
  }

  /** A key left without a value finishes, whatever the key, as text the reader rejects. */
  lemma DanglingKeyFinishes(key: cstring, strtod: string -> real)
    ensures var (calls, text) := ([BeginObject, Key(key), EndObject], "{" + Quote(key) + ":}");
            && D.DescribeAll(D.EMPTY, calls) == None
            && W.Finish(W.Run(W.INITIAL, calls)) == Success(text)
            && Parse(text, strtod) == Failure(InvalidArg)
  {
    hide W.Step, W.Run, D.Describe, D.DescribeAll, Parse, Quote;
    var calls := [BeginObject, Key(key), EndObject];
    DanglingSteps(key);
    assert calls == [BeginObject] + [Key(key)] + [EndObject];
    D.RunShell(W.INITIAL, BeginObject, [Key(key)], EndObject);
    D.RunOne(W.Step(W.INITIAL, BeginObject), Key(key));
    DanglingDescribed(key);
    D.DescribeOne(D.Describe(D.EMPTY, BeginObject).value, Key(key));
    D.DescribeShell(D.EMPTY, BeginObject, [Key(key)], EndObject);
    RejectDangling(key, strtod);
  }

  lemma DanglingSteps(key: cstring)
    ensures W.Step(W.Step(W.Step(W.INITIAL, BeginObject), Key(key)), EndObject)
         == W.State("{" + Quote(key) + ":}", [], Fine)
  {
    hide Quote;
    var one := W.Step(W.INITIAL, BeginObject);
    assert one == W.State("{", [W.ObjectLevel(false, true)], Fine);
    var two := W.Step(one, Key(key));
    assert "{" + "" + Quote(key) + ":" == "{" + Quote(key) + ":";
    assert two == W.State("{" + Quote(key) + ":", [W.ObjectLevel(true, false)], Fine);
    assert "{" + Quote(key) + ":" + "}" == "{" + Quote(key) + ":}";
  }

  lemma DanglingDescribed(key: cstring)
    ensures var one := D.Describe(D.EMPTY, BeginObject);
            && one.Some? && D.Describe(one.value, Key(key)).Some?
            && D.Describe(D.Describe(one.value, Key(key)).value, EndObject) == None
  {
  }

  lemma NoValue(strtod: string -> real)
    ensures ParseValue("}", 1, strtod) == Rejected(InvalidArg) && SkipWs("}") == "}" && SkipWs(":}") == ":}"
  {
  }

  lemma DanglingMember(key: cstring, strtod: string -> real)
    ensures ParseMember(Quote(key) + ":}", 0, strtod) == Rejected(InvalidArg)
  {
    hide ParseValue, ParseString, SkipWs, Quote;
    QuoteStarts(key, ":}");
    ReadQuoted(key, ":}");
    NoValue(strtod);
    assert ":}"[1..] == "}";
  }

  lemma RejectDangling(key: cstring, strtod: string -> real)
    ensures Parse("{" + Quote(key) + ":}", strtod) == Failure(InvalidArg)
  {
    hide ParseMember, Quote, ParseString, SkipWs;
    var rest := Quote(key) + ":}";
    var s := "{" + Quote(key) + ":}";
    assert s == "{" + rest && s[1..] == rest;
    OpenBrace(s);
    QuoteStarts(key, ":}");
    DanglingMember(key, strtod);
    assert rest[0] == '"';
    assert ParseMembers(rest, 0, [], strtod) == Rejected(InvalidArg);
    assert ParseObject(s, 0, strtod) == Rejected(InvalidArg);
  }

  lemma OpenBrace(s: string)
    requires s != "" && s[0] == '{'
    ensures SkipWs(s) == s
  {
  }

  /** Two top-level values finish as well, whatever they are: their texts are run together. */
  lemma TwoRootsFinish(v: Value, u: Value)
    requires Nests(v, 0) && Nests(u, 0) && D.Whole(v)
    ensures D.DescribeAll(D.EMPTY, Calls(v) + Calls(u)) == None
    ensures W.Finish(W.Run(W.INITIAL, Calls(v) + Calls(u))) == Success(Render(v) + Render(u))
  {
    hide W.Run, Render, Calls, D.DescribeAll;
    D.WriteValue(W.INITIAL, v);
    D.RenderNonEmpty(v);
    assert "" + Render(v) == Render(v);
    var w := W.State(Render(v), [], Fine);
    D.WriteValue(w, u);
    W.RunConcat(W.INITIAL, Calls(v), Calls(u));
    D.DescribeValue(D.EMPTY, v);
    D.DescribeConcat(D.EMPTY, Calls(v), Calls(u));
    NothingAfterRoot(v, u);
  }

  lemma NothingAfterRoot(v: Value, u: Value)
    ensures D.DescribeAll(D.Doc(D.Bottom, Some(v)), Calls(u)) == None
  {
    hide D.DescribeAll;
    FirstCall(u);
    D.DescribeOne(D.Doc(D.Bottom, Some(v)), Calls(u)[0]);
    D.DescribeConcat(D.Doc(D.Bottom, Some(v)), [Calls(u)[0]], Calls(u)[1..]);
    assert Calls(u) == [Calls(u)[0]] + Calls(u)[1..];
  }

  lemma FirstCall(u: Value)
    ensures Calls(u) != [] && !Calls(u)[0].Key? && !Calls(u)[0].EndObject? && !Calls(u)[0].EndArray?
  {
  }

  /** The text of two roots may be that of one: 1 and then 2 come back as the single number 12. */
  lemma TwoRootsReadAsOne(strtod: string -> real)
    requires ExactOnIntegers(strtod)
    ensures var calls := Calls(Number(1.0)) + Calls(Number(2.0));
            && W.Finish(W.Run(W.INITIAL, calls)) == Success("12")
            && Parse("12", strtod) == Success(Number(12.0))
  {
    hide W.Run, Calls, Parse;
    TwoRootsFinish(Number(1.0), Number(2.0));
    Twelve();
    IntegersReadBack(Number(12.0), strtod);
    ReadRendered(Number(12.0), strtod);
  }

  lemma Twelve()
    ensures Render(Number(1.0)) == "1" && Render(Number(2.0)) == "2" && Render(Number(12.0)) == "12"
  {
    assert (1.0).Floor == 1 && (2.0).Floor == 2 && (12.0).Floor == 12;
    assert Digits(1) == "1" && Digits(2) == "2";
    assert Digits(12) == Digits(1) + "2";
  }
}
