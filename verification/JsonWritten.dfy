/** What the writer of src/core/json.c writes is JSON: RFC 8259 derives every text, with the tree as its meaning. */
module JsonWritten {
  import opened CText
  import opened JsonSyntax
  import opened JsonGrammar
  import opened Decimal
  import T = JsonRoundTrip
  import D = JsonDocument
  import W = JsonWriter

  // ---- strings ----

  /** The derivation of one written character. */
  lemma EscapeIsPiece(c: char) returns (p: Piece)
    requires c != NUL
    ensures IsPiece(p, true) && PieceText(p) == EscapeChar(c) && PieceBytes(p) == [c]
  {
    var code := c as int;
    if c == '"' || c == '\\' {
      p := Short(c);
    } else if code == 8 {
      p := Short('b');
    } else if code == 9 {
      p := Short('t');
    } else if code == 10 {
      p := Short('n');
    } else if code == 12 {
      p := Short('f');
    } else if code == 13 {
      p := Short('r');
    } else if code < 32 {
      var hex := ['0', '0', HexDigit(code / 16), HexDigit(code % 16)];
      p := Unicode(hex);
      assert "\\u00" + [HexDigit(code / 16), HexDigit(code % 16)] == "\\u" + hex;
      assert HexOf(hex[2]) == code / 16 && HexOf(hex[3]) == code % 16;
    } else {
      p := Plain(c);
    }
  }

  const LOWER_DIGITS := "0123456789abcdef"

  /** Of all that the RFC allows, this is what is written: the seven short escapes, and otherwise lower-case digits. */
  lemma EscapeTable(c: char)
    ensures EscapeChar(c) == if c == '"' then "\\\"" else if c == '\\' then "\\\\" else if c == 8 as char then "\\b"
                             else if c == 12 as char then "\\f" else if c == '\n' then "\\n" else if c == '\r' then "\\r"
                             else if c == '\t' then "\\t"
                             else if c < ' ' then "\\u00" + [LOWER_DIGITS[c as int / 16], LOWER_DIGITS[c as int % 16]]
                             else [c]
  {
    if c < ' ' {
      LowerDigit(c as int / 16);
      LowerDigit(c as int % 16);
    }
  }

  lemma LowerDigit(d: nat)
    requires d < 16
    ensures HexDigit(d) == LOWER_DIGITS[d]
  {
  }

  /** A written string is a string of the RFC that stands for the bytes it was given. */
  lemma {:induction false} EscapedIsPieces(s: string) returns (ps: seq<Piece>)
    requires NUL !in s
    ensures ArePieces(ps, true) && PiecesText(ps) == Escaped(s) && PiecesBytes(ps) == s
  {
    hide EscapeChar, IsPiece, PieceText, PieceBytes;
    if s == "" {
      ps := [];
    } else {
      var p := EscapeIsPiece(s[0]);
      var others := EscapedIsPieces(s[1..]);
      ps := [p] + others;
      assert ps[1..] == others;
      assert [s[0]] + s[1..] == s;
    }
  }

  // ---- numbers ----

  lemma {:induction false} NoLeadingZero(n: nat)
    ensures |Digits(n)| > 1 ==> Digits(n)[0] != '0'
    ensures n > 0 ==> Digits(n)[0] != '0'
  {
    if n >= 10 {
      NoLeadingZero(n / 10);
    }
  }

  lemma IntTextIsNumeral(n: int) returns (numeral: Numeral)
    ensures IsNumeral(numeral, true) && NumeralText(numeral) == IntText(n)
  {
    hide Digits;
    var digits := Digits(if n < 0 then -n else n);
    NoLeadingZero(if n < 0 then -n else n);
    numeral := Numeral(n < 0, digits, None, None);
    assert (if n < 0 then "-" else "") + digits + "" + "" == IntText(n);
  }

  // ---- trees ----

  lemma {:induction false} RenderedIsNode(v: Value, strtod: string -> real) returns (n: Node)
    ensures IsNode(n, true) && NodeText(n) == Render(v) && NodeValue(n, strtod) == T.Heard(v, strtod)
    decreases v, 1
  {
    match v
    case Null => n := Word("null");
    case Bool(b) => n := Word(if b then "true" else "false");
    case Number(x) =>
      var numeral := IntTextIsNumeral(x.Floor);
      n := Num(numeral);
    case String(s) =>
      var ps := EscapedIsPieces(s);
      n := Quoted(ps);
      CStrOfNulFree(s);
    case Array(items) =>
      var derived := RenderedAreItems(items, strtod);
      n := Items("", derived);
      assert "" + ItemsText(derived) == RenderItems(items, true);
    case Object(members) =>
      var derived := RenderedAreEntries(members, strtod);
      n := Entries("", derived);
      assert "" + EntriesText(derived) == RenderMembers(members, true);
  }

  ghost predicate AreItems(items: seq<Item>) {
    forall i | 0 <= i < |items| :: IsItem(items[i], true)
  }

  ghost predicate AreEntries(entries: seq<Entry>) {
    forall i | 0 <= i < |entries| :: IsEntry(entries[i], true)
  }

  lemma {:induction false} RenderedAreItems(items: seq<Value>, strtod: string -> real) returns (r: seq<Item>)
    ensures AreItems(r) && |r| == |items|
    ensures ItemsText(r) == RenderItems(items, true) && ItemValues(r, strtod) == T.HeardItems(items, strtod)
    decreases items, 0
  {
    hide IsNode, NodeText, NodeValue, Render, T.Heard;
    if items == [] {
      r := [];
    } else {
      var n := RenderedIsNode(items[0], strtod);
      var others := RenderedAreItems(items[1..], strtod);
      r := [Item("", n, "")] + others;
      assert r[1..] == others;
      assert "" + NodeText(n) + "" == Render(items[0]);
      ItemsGoOn(items);
    }
  }

  lemma Regroup(a: string, b: string)
    ensures "," + a + b == "," + ("" + a + b) && "" + a == a && "" + a + b == a + b
  {
    assert "" + a == a;
    assert "," + a + b == "," + (a + b);
  }

  lemma ItemsGoOn(items: seq<Value>)
    requires items != []
    ensures RenderItems(items, true)
         == Render(items[0]) + if |items| == 1 then "" else "," + RenderItems(items[1..], true)
  {
    hide Render;
    Regroup(Render(items[0]), RenderItems(items[1..], false));
    if |items| > 1 {
      Regroup(Render(items[1..][0]), RenderItems(items[1..][1..], false));
    }
  }

  lemma {:induction false} RenderedAreEntries(members: seq<Member>, strtod: string -> real) returns (r: seq<Entry>)
    ensures AreEntries(r) && |r| == |members|
    ensures EntriesText(r) == RenderMembers(members, true) && EntryValues(r, strtod) == T.HeardMembers(members, strtod)
    decreases members, 0
  {
    hide IsNode, NodeText, NodeValue, Render, Quote, StringText, T.Heard, PiecesBytes, Escaped, ArePieces;
    if members == [] {
      r := [];
    } else {
      var m := members[0];
      var key := QuotedIsString(m.key);
      var n := RenderedIsNode(m.value, strtod);
      var others := RenderedAreEntries(members[1..], strtod);
      var e := Entry("", key, "", Item("", n, ""));
      r := [e] + others;
      assert r[1..] == others;
      assert "" + NodeText(n) + "" == Render(m.value);
      assert "" + StringText(key) + "" == Quote(m.key);
      assert EntryText(e) == RenderMember(m) && IsEntry(e, true);
      MembersGoOn(members);
    }
  }

  lemma QuotedIsString(s: cstring) returns (ps: seq<Piece>)
    ensures ArePieces(ps, true) && StringText(ps) == Quote(s) && CStr(PiecesBytes(ps)) == s
  {
    hide Escaped, ArePieces, PiecesText, PiecesBytes;
    ps := EscapedIsPieces(s);
    CStrOfNulFree(s);
  }

  lemma MembersGoOn(members: seq<Member>)
    requires members != []
    ensures RenderMembers(members, true)
         == RenderMember(members[0]) + if |members| == 1 then "" else "," + RenderMembers(members[1..], true)
  {
    hide RenderMember;
    Regroup(RenderMember(members[0]), RenderMembers(members[1..], false));
    if |members| > 1 {
      Regroup(RenderMember(members[1..][0]), RenderMembers(members[1..][1..], false));
    }
  }

  /** The text of every tree is a JSON text by the RFC, and stands for the tree. */
  lemma RenderedIsJson(v: Value, strtod: string -> real)
    ensures exists doc :: Derives(doc, true, Render(v), T.Heard(v, strtod), strtod)
  {
    hide IsNode, NodeText, NodeValue, Render, T.Heard;
    var n := RenderedIsNode(v, strtod);
    assert "" + NodeText(n) + "" == Render(v);
    assert Derives(Item("", n, ""), true, Render(v), T.Heard(v, strtod), strtod);
  }

  /** Whatever the writer finishes of a disciplined call sequence is the JSON text of its one tree. */
  lemma FinishedIsJson(calls: seq<Call>, v: Value, strtod: string -> real)
    requires D.Whole(v) && D.DescribeAll(D.EMPTY, calls) == Some(D.Doc(D.Bottom, Some(v)))
    requires W.Finish(W.Run(W.INITIAL, calls)).Success?
    ensures exists doc :: Derives(doc, true, W.Finish(W.Run(W.INITIAL, calls)).value, T.Heard(v, strtod), strtod)
  {
    hide Derives, D.DescribeAll, W.Run, D.Whole, W.Finish, Nests;
    D.DisciplinedFinish(calls, v);
    RenderedIsJson(v, strtod);
  }

  // ---- any call sequence at all ----

  ghost predicate NoControl(text: string) {
    forall i | 0 <= i < |text| :: ' ' <= text[i]
  }

  lemma NoControlConcat(a: string, b: string)
    requires NoControl(a) && NoControl(b)
    ensures NoControl(a + b)
  {
  }

  lemma EscapeHasNoControl(c: char)
    requires c != NUL
    ensures NoControl(EscapeChar(c))
  {
    var p := EscapeIsPiece(c);
  }

  lemma {:induction false} EscapedHasNoControl(s: string)
    requires NUL !in s
    ensures NoControl(Escaped(s))
  {
    hide EscapeChar;
    if s != "" {
      EscapeHasNoControl(s[0]);
      EscapedHasNoControl(s[1..]);
    }
  }

  lemma QuoteHasNoControl(s: cstring)
    ensures NoControl(Quote(s))
  {
    hide Escaped;
    EscapedHasNoControl(s);
  }

  lemma IntHasNoControl(i: int)
    ensures NoControl(IntText(i))
  {
    hide Digits;
    var digits := Digits(if i < 0 then -i else i);
    assert forall k | 0 <= k < |digits| :: IsDigit(digits[k]);
  }

  lemma StepHasNoControl(w: W.State, call: Call)
    requires NoControl(w.text)
    ensures NoControl(W.Step(w, call).text)
  {
    hide Quote, IntText;
    match call
    case Str(s) => QuoteHasNoControl(s);
    case Int(i) => IntHasNoControl(i);
    case Key(k) => QuoteHasNoControl(k);
    case _ =>
  }

  lemma {:induction false} RunHasNoControl(w: W.State, calls: seq<Call>)
    requires NoControl(w.text)
    ensures NoControl(W.Run(w, calls).text)
    decreases |calls|
  {
    hide W.Step, NoControl;
    if calls != [] {
      StepHasNoControl(w, calls[0]);
      RunHasNoControl(W.Step(w, calls[0]), calls[1..]);
    }
  }

  /** Whatever the calls, misuses included, no raw control character is ever handed out. */
  lemma FinishHasNoControl(calls: seq<Call>, i: nat)
    requires W.Finish(W.Run(W.INITIAL, calls)).Success? && i < |W.Finish(W.Run(W.INITIAL, calls)).value|
    ensures ' ' <= W.Finish(W.Run(W.INITIAL, calls)).value[i]
  {
    hide W.Run;
    RunHasNoControl(W.INITIAL, calls);
  }
}
