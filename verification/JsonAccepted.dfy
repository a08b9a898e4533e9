/**
  What the reader of src/core/json.c accepts, and as what: the texts that the grammar without
  strictness derives, each as the tree the derivation means, down to the depth limit.
 */
module JsonAccepted {
  import opened CText
  import opened JsonSyntax
  import opened JsonReader
  import opened JsonGrammar
  import opened Decimal

  /** What can follow a value. */
  predicate Ends(rest: string) {
    rest == "" || IsWs(rest[0]) || rest[0] == ',' || rest[0] == ']' || rest[0] == '}'
  }

  predicate Solid(s: string) {
    s == "" || !IsWs(s[0])
  }

  // ---- white space ----

  lemma {:induction false} SkipBlank(blank: string, s: string)
    requires Blank(blank) && Solid(s)
    ensures SkipWs(blank + s) == s
  {
    if blank == "" {
      assert blank + s == s;
    } else {
      assert (blank + s)[1..] == blank[1..] + s;
      SkipBlank(blank[1..], s);
    }
  }

  lemma {:induction false} SkippedBlank(s: string) returns (blank: string)
    ensures Blank(blank) && s == blank + SkipWs(s) && Solid(SkipWs(s))
  {
    if s != "" && IsWs(s[0]) {
      var more := SkippedBlank(s[1..]);
      blank := [s[0]] + more;
    } else {
      blank := "";
    }
  }

  // ---- strings: every derivation is read ----

  lemma HexIs(c: char)
    ensures IsHex(c) <==> HexOf(c) < 16
    ensures IsHex(c) ==> HexValue(c) == HexOf(c)
  {
  }

  lemma CodeIs(hex: string)
    requires IsPiece(Unicode(hex), true)
    ensures forall i | 0 <= i < 4 :: IsHex(hex[i])
    ensures Encode(CodeOf(hex)) == PieceBytes(Unicode(hex))
  {
    HexIs(hex[0]);
    HexIs(hex[1]);
    HexIs(hex[2]);
    HexIs(hex[3]);
    var code := CodeOf(hex);
    assert code == ((HexOf(hex[0]) * 16 + HexOf(hex[1])) * 16 + HexOf(hex[2])) * 16 + HexOf(hex[3]);
    assert code / 64 / 64 == code / 4096;
  }

  lemma ReadPiece(p: Piece, rest: string, buffer: string)
    requires IsPiece(p, false)
    ensures ParseChars(PieceText(p) + rest, buffer) == ParseChars(rest, buffer + PieceBytes(p))
  {
    hide Encode, CodeOf, HexOf;
    var s := PieceText(p) + rest;
    match p
    case Plain(c) =>
      assert s[1..] == rest;
    case Short(c) =>
      assert s[0] == '\\' && s[1] == c && s[2..] == rest;
      assert Unescape(c) == Some(PieceBytes(p)[0]);
    case Unicode(hex) =>
      CodeIs(hex);
      assert s[0] == '\\' && s[1] == 'u' && s[2..] == hex + rest;
      assert s[2..][..4] == hex && s[2..][4..] == rest;
      assert forall i | 0 <= i < 4 :: s[2..][i] == hex[i];
  }

  lemma {:induction false} ReadPieces(ps: seq<Piece>, rest: string, buffer: string)
    requires ArePieces(ps, false)
    ensures ParseChars(PiecesText(ps) + ("\"" + rest), buffer) == Parsed(CStr(buffer + PiecesBytes(ps)), rest)
  {
    hide PieceText, PieceBytes, IsPiece, CStr;
    var end := "\"" + rest;
    if ps == [] {
      assert PiecesText(ps) + end == end && end[1..] == rest;
      assert buffer + "" == buffer;
    } else {
      var tail := PiecesText(ps[1..]) + end;
      assert PiecesText(ps) + end == PieceText(ps[0]) + tail;
      ReadPiece(ps[0], tail, buffer);
      ReadPieces(ps[1..], rest, buffer + PieceBytes(ps[0]));
      assert buffer + PieceBytes(ps[0]) + PiecesBytes(ps[1..]) == buffer + PiecesBytes(ps);
    }
  }

  lemma ReadStringText(ps: seq<Piece>, rest: string)
    requires ArePieces(ps, false)
    ensures ParseString(StringText(ps) + rest) == Parsed(CStr(PiecesBytes(ps)), rest)
  {
    hide PiecesText, PiecesBytes, ArePieces, CStr, ParseChars;
    var s := StringText(ps) + rest;
    assert s[0] == '"' && s[1..] == PiecesText(ps) + ("\"" + rest);
    ReadPieces(ps, rest, "");
    assert "" + PiecesBytes(ps) == PiecesBytes(ps);
  }

  // ---- strings: whatever is read has a derivation ----

  lemma EscapeOf(s: string) returns (p: Piece)
    requires s != [] && s[0] == '\\' && ParseEscape(s).Parsed?
    ensures IsPiece(p, false) && s == PieceText(p) + ParseEscape(s).rest && ParseEscape(s).value == PieceBytes(p)
  {
    hide Encode, CodeOf, HexOf;
    if s[1] == 'u' {
      var hex := s[2..][..4];
      p := Unicode(hex);
      assert forall i | 0 <= i < 4 :: IsHex(s[2..][i]) && hex[i] == s[2..][i];
      HexIs(hex[0]);
      HexIs(hex[1]);
      HexIs(hex[2]);
      HexIs(hex[3]);
      CodeIs(hex);
      assert s == ['\\', 'u'] + (hex + s[2..][4..]);
      assert "\\u" + hex == ['\\', 'u'] + hex;
    } else {
      p := Short(s[1]);
      assert s == ['\\', s[1]] + s[2..];
    }
  }

  lemma {:induction false} PiecesOf(s: string, buffer: string) returns (ps: seq<Piece>)
    requires ParseChars(s, buffer).Parsed?
    ensures ArePieces(ps, false) && s == PiecesText(ps) + ("\"" + ParseChars(s, buffer).rest)
    ensures ParseChars(s, buffer).value == CStr(buffer + PiecesBytes(ps))
    decreases |s|
  {
    hide ParseEscape, CStr, IsPiece, ArePieces, PiecesText, PiecesBytes;
    var end := "\"" + ParseChars(s, buffer).rest;
    if s[0] == '"' {
      ps := [];
      NoPiece(end, buffer);
      assert s == "\"" + s[1..];
    } else {
      var p, rest := FirstPiece(s, buffer);
      var others := PiecesOf(rest, buffer + PieceBytes(p));
      ps := [p] + others;
      OnePiece(p, others, buffer, end);
    }
  }

  lemma NoPiece(end: string, buffer: string)
    ensures PiecesText([]) + end == end && buffer + PiecesBytes([]) == buffer && ArePieces([], false)
  {
  }

  lemma FirstPiece(s: string, buffer: string) returns (p: Piece, rest: string)
    requires ParseChars(s, buffer).Parsed? && s[0] != '"'
    ensures IsPiece(p, false) && s == PieceText(p) + rest && |rest| < |s|
    ensures ParseChars(s, buffer) == ParseChars(rest, buffer + PieceBytes(p))
  {
    hide ParseEscape, CStr;
    if s[0] != '\\' {
      p, rest := Plain(s[0]), s[1..];
      assert s == [s[0]] + s[1..];
    } else {
      p := EscapeOf(s);
      rest := ParseEscape(s).rest;
    }
  }

  lemma OnePiece(p: Piece, others: seq<Piece>, buffer: string, end: string)
    ensures PiecesText([p] + others) + end == PieceText(p) + (PiecesText(others) + end)
    ensures buffer + PieceBytes(p) + PiecesBytes(others) == buffer + PiecesBytes([p] + others)
    ensures IsPiece(p, false) && ArePieces(others, false) ==> ArePieces([p] + others, false)
  {
    hide PieceText, PieceBytes;
    assert ([p] + others)[1..] == others;
  }

  lemma StringOf(s: string) returns (ps: seq<Piece>)
    requires ParseString(s).Parsed?
    ensures ArePieces(ps, false) && s == StringText(ps) + ParseString(s).rest
    ensures ParseString(s).value == CStr(PiecesBytes(ps))
  {
    hide PiecesText, PiecesBytes, ArePieces, CStr, ParseChars;
    ps := PiecesOf(s[1..], "");
    assert "" + PiecesBytes(ps) == PiecesBytes(ps);
    assert s == "\"" + s[1..];
  }

  // ---- numbers ----

  lemma {:induction false} SpanIs(digits: string, rest: string)
    requires AllDigits(digits) && (rest == "" || !IsDigit(rest[0]))
    ensures Span(digits + rest) == |digits|
  {
    if digits == "" {
      assert digits + rest == rest;
    } else {
      assert (digits + rest)[1..] == digits[1..] + rest;
      SpanIs(digits[1..], rest);
    }
  }

  function MinusText(n: Numeral): string {
    if n.minus then "-" else ""
  }

  function FractionText(n: Numeral): string {
    if n.fraction.Some? then "." + n.fraction.value else ""
  }

  function ExponentText(n: Numeral): string {
    if n.exponent.Some? then [n.exponent.value.mark] + n.exponent.value.sign + n.exponent.value.digits else ""
  }

  lemma Parts(n: Numeral)
    ensures NumeralText(n) == MinusText(n) + (n.whole + (FractionText(n) + ExponentText(n)))
  {
    assert NumeralText(n) == MinusText(n) + n.whole + FractionText(n) + ExponentText(n);
  }

  /** Where the digits of an exponent begin. */
  lemma SignedAt(e: Exponent, rest: string)
    requires IsExponent(e)
    ensures var (tail, signed) := ([e.mark] + e.sign + e.digits + rest, 1 + |e.sign|);
            && tail[0] == e.mark && tail[signed..] == e.digits + rest
            && signed == if |tail| > 1 && (tail[1] == '+' || tail[1] == '-') then 2 else 1
  {
    var tail := [e.mark] + e.sign + e.digits + rest;
    assert e.sign == "" ==> tail[1] == e.digits[0] && IsDigit(e.digits[0]);
    assert e.sign != "" ==> tail[1] == e.sign[0];
  }

  lemma ExponentStarts(n: Numeral, rest: string)
    requires IsNumeral(n, false) && Ends(rest)
    ensures ExponentLength(ExponentText(n) + rest) == |ExponentText(n)|
    ensures var tail := ExponentText(n) + rest; tail == "" || (!IsDigit(tail[0]) && tail[0] != '.')
  {
    hide Span;
    if n.exponent.Some? {
      var e := n.exponent.value;
      hide IsNumeral;
      SignedAt(e, rest);
      SpanIs(e.digits, rest);
    } else {
      assert ExponentText(n) + rest == rest;
    }
  }

  lemma FractionStarts(n: Numeral, tail: string)
    requires IsNumeral(n, false) && (tail == "" || (!IsDigit(tail[0]) && tail[0] != '.'))
    ensures FractionLength(FractionText(n) + tail) == |FractionText(n)|
    ensures var all := FractionText(n) + tail; all == "" || !IsDigit(all[0])
  {
    var all := FractionText(n) + tail;
    if n.fraction.Some? {
      assert all[1..] == n.fraction.value + tail;
      SpanIs(n.fraction.value, tail);
    } else {
      assert all == tail;
    }
  }

  lemma WholeStarts(n: Numeral, tail: string)
    requires IsNumeral(n, false) && (tail == "" || !IsDigit(tail[0]))
    requires n.whole == "" ==> n.minus
    ensures var all := MinusText(n) + (n.whole + tail);
            SignLength(all) == |MinusText(n)| && IntegerLength(all) == |MinusText(n)| + |n.whole|
            && all[IntegerLength(all)..] == tail
  {
    var all := MinusText(n) + (n.whole + tail);
    assert all[|MinusText(n)|..] == n.whole + tail;
    if !n.minus {
      assert all == n.whole + tail && IsDigit(n.whole[0]) && all[0] == n.whole[0];
    }
    SpanIs(n.whole, tail);
  }

  /** How long the parts are that are found in the text of a numeral, whatever ends it. */
  lemma FoundParts(n: Numeral, rest: string)
    requires IsNumeral(n, false) && Ends(rest)
    ensures var (t, all) := (NumeralText(n), NumeralText(n) + rest);
            && SignLength(all) == |MinusText(n)| && IntegerLength(all) == |MinusText(n)| + |n.whole|
            && MantissaLength(all) == |MinusText(n)| + |n.whole| + |FractionText(n)| && TokenLength(all) == |t|
  {
    hide IntegerLength, FractionLength, ExponentLength, SignLength, IsNumeral, NumeralText, MinusText, FractionText, ExponentText;
    var all := NumeralText(n) + rest;
    var end := ExponentText(n) + rest;
    var tail := FractionText(n) + end;
    Parts(n);
    Assembled(MinusText(n), n.whole, FractionText(n), ExponentText(n), rest);
    assert all == MinusText(n) + (n.whole + tail);
    ExponentStarts(n, rest);
    FractionStarts(n, end);
    NumeralStarts(n);
    WholeStarts(n, tail);
    assert all[MantissaLength(all)..] == end;
  }

  lemma Assembled(minus: string, whole: string, fraction: string, exponent: string, rest: string)
    ensures minus + (whole + (fraction + exponent)) + rest == minus + (whole + (fraction + (exponent + rest)))
    ensures (minus + (whole + (fraction + (exponent + rest))))[|minus| + |whole| + |fraction|..] == exponent + rest
    ensures |minus + (whole + (fraction + exponent))| == |minus| + |whole| + |fraction| + |exponent|
  {
  }

  lemma NumeralStarts(n: Numeral)
    requires IsNumeral(n, false)
    ensures n.whole == "" ==> n.minus
    ensures 0 < |NumeralText(n)| < 64 && (NumeralText(n)[0] == '-' || IsDigit(NumeralText(n)[0]))
  {
    if n.minus {
      assert NumeralText(n)[0] == '-';
    } else {
      assert NumeralText(n)[0] == n.whole[0];
    }
  }

  lemma NumeralIsConsumed(n: Numeral)
    requires IsNumeral(n, false)
    ensures StrtodConsumes(NumeralText(n))
  {
    hide SignLength, IntegerLength, MantissaLength, NumeralText;
    var t := NumeralText(n);
    FoundParts(n, "");
    assert t + "" == t;
    LastOfNumeral(n);
  }

  lemma LastOfNumeral(n: Numeral)
    requires IsNumeral(n, false)
    ensures NumeralText(n) != "" && (ExponentText(n) != "" ==> IsDigit(NumeralText(n)[|NumeralText(n)| - 1]))
    ensures |NumeralText(n)| == |MinusText(n)| + |n.whole| + |FractionText(n)| + |ExponentText(n)|
  {
    Parts(n);
    if n.exponent.Some? {
      var digits := n.exponent.value.digits;
      assert NumeralText(n)[|NumeralText(n)| - 1] == digits[|digits| - 1];
    }
  }

  lemma ReadNumeral(n: Numeral, rest: string, strtod: string -> real)
    requires IsNumeral(n, false) && Ends(rest)
    ensures ParseNumber(NumeralText(n) + rest, strtod) == Parsed(strtod(NumeralText(n)), rest)
  {
    hide NumeralText, TokenLength, StrtodConsumes;
    var t := NumeralText(n);
    FoundParts(n, rest);
    NumeralStarts(n);
    NumeralIsConsumed(n);
    assert (t + rest)[..|t|] == t && (t + rest)[|t|..] == rest;
  }

  lemma {:induction false} SpanCut(s: string, n: nat)
    requires Span(s) <= n <= |s|
    ensures Span(s[..n]) == Span(s)
  {
    if s != "" && IsDigit(s[0]) {
      assert s[..n][1..] == s[1..][..n - 1];
      SpanCut(s[1..], n - 1);
    }
  }

  /** Cut off from what follows it, a token has the same parts. */
  lemma CutParts(s: string)
    ensures var t := s[..TokenLength(s)];
            SignLength(t) == SignLength(s) && IntegerLength(t) == IntegerLength(s) && MantissaLength(t) == MantissaLength(s)
  {
    hide *;
    Lengths(s);
    CutInteger(s, TokenLength(s));
    CutMantissa(s, TokenLength(s));
  }

  lemma CutInteger(s: string, n: nat)
    requires SignLength(s) <= IntegerLength(s) <= n <= |s|
    ensures SignLength(s[..n]) == SignLength(s) && IntegerLength(s[..n]) == IntegerLength(s)
  {
    hide Span;
    if n > 0 {
      assert s[..n][0] == s[0];
    } else {
      assert s[..n] == "" && SignLength(s) == 0;
    }
    var sign := SignLength(s);
    assert s[..n][sign..] == s[sign..][..n - sign];
    SpanCut(s[sign..], n - sign);
  }

  lemma CutMantissa(s: string, n: nat)
    requires IntegerLength(s) <= MantissaLength(s) <= n <= |s| && IntegerLength(s[..n]) == IntegerLength(s)
    ensures MantissaLength(s[..n]) == MantissaLength(s)
  {
    hide IntegerLength, FractionLength;
    var whole := IntegerLength(s);
    assert s[..n][whole..] == s[whole..][..n - whole];
    FractionCut(s[whole..], n - whole);
  }

  lemma FractionCut(s: string, n: nat)
    requires FractionLength(s) <= n <= |s|
    ensures FractionLength(s[..n]) == FractionLength(s)
  {
    if s != "" && s[0] == '.' {
      assert s[..n][1..] == s[1..][..n - 1];
      SpanCut(s[1..], n - 1);
    }
  }

  /** The parts of an exponent. */
  lemma ExponentOf(s: string) returns (e: Option<Exponent>)
    requires var n := ExponentLength(s); n > 0 ==> IsDigit(s[n - 1])
    ensures ExponentLength(s) == 0 ==> e == None
    ensures ExponentLength(s) > 0 ==>
              e.Some? && IsExponent(e.value) && s[..ExponentLength(s)] == [e.value.mark] + e.value.sign + e.value.digits
  {
    var n := ExponentLength(s);
    if n == 0 {
      e := None;
    } else {
      var signed := if |s| > 1 && (s[1] == '+' || s[1] == '-') then 2 else 1;
      var digits := s[signed..][..n - signed];
      assert s[..n] == [s[0]] + s[1..signed] + digits;
      e := Some(Exponent(s[0], s[1..signed], digits));
    }
  }

  lemma Lengths(s: string)
    ensures SignLength(s) <= IntegerLength(s) <= MantissaLength(s) <= TokenLength(s) <= |s|
    ensures s[..SignLength(s)] == if SignLength(s) == 1 then "-" else ""
    ensures AllDigits(s[SignLength(s)..IntegerLength(s)])
    ensures FractionLength(s[IntegerLength(s)..]) == MantissaLength(s) - IntegerLength(s)
    ensures ExponentLength(s[MantissaLength(s)..]) == TokenLength(s) - MantissaLength(s)
  {
    hide FractionLength, ExponentLength;
    var sign := SignLength(s);
    assert s[sign..IntegerLength(s)] == s[sign..][..Span(s[sign..])];
  }

  lemma Assemble(s: string, sign: nat, whole: nat, mantissa: nat, token: nat)
    requires sign <= whole <= mantissa <= token <= |s|
    ensures s[..token] == s[..sign] + (s[sign..whole] + (s[whole..][..mantissa - whole] + s[mantissa..][..token - mantissa]))
  {
  }

  /** The parts of a token, as a numeral. */
  lemma NumeralOf(s: string) returns (n: Numeral)
    requires s != "" && (s[0] == '-' || IsDigit(s[0]))
    requires 0 < TokenLength(s) < 64 && StrtodConsumes(s[..TokenLength(s)])
    ensures IsNumeral(n, false) && NumeralText(n) == s[..TokenLength(s)]
  {
    hide *;
    Lengths(s);
    var sign, whole, mantissa, token := SignLength(s), IntegerLength(s), MantissaLength(s), TokenLength(s);
    TokenParts(s);
    var exponent := ExponentOf(s[mantissa..]);
    var fraction := FractionOf(s[whole..]);
    n := Numeral(sign == 1, s[sign..whole], fraction, exponent);
    Assemble(s, sign, whole, mantissa, token);
    PartsAre(n, s[..sign], s[whole..][..mantissa - whole], s[mantissa..][..token - mantissa], s[..token]);
    MadeNumeral(n);
  }

  lemma PartsAre(n: Numeral, sign: string, fraction: string, exponent: string, token: string)
    requires sign == if n.minus then "-" else ""
    requires fraction == if n.fraction.Some? then "." + n.fraction.value else ""
    requires n.exponent.None? ==> exponent == ""
    requires n.exponent.Some? ==> exponent == [n.exponent.value.mark] + n.exponent.value.sign + n.exponent.value.digits
    requires token == sign + (n.whole + (fraction + exponent))
    ensures NumeralText(n) == token
  {
    Parts(n);
  }

  lemma MadeNumeral(n: Numeral)
    requires AllDigits(n.whole) && (n.fraction.Some? ==> AllDigits(n.fraction.value))
    requires n.exponent.Some? ==> IsExponent(n.exponent.value)
    requires |NumeralText(n)| < 64
    requires n.whole != "" || (n.minus && n.fraction.Some? && n.fraction.value != "")
    ensures IsNumeral(n, false)
  {
  }

  lemma FractionOf(s: string) returns (f: Option<string>)
    ensures f.Some? ==> AllDigits(f.value)
    ensures s[..FractionLength(s)] == if f.Some? then "." + f.value else ""
    ensures FractionLength(s) > 1 ==> f.Some? && f.value != ""
  {
    if s != "" && s[0] == '.' {
      f := Some(s[1..][..Span(s[1..])]);
      assert s[..FractionLength(s)] == "." + f.value;
    } else {
      f := None;
    }
  }

  /** strtod's demands on a token, in terms of its parts. */
  lemma TokenParts(s: string)
    requires s != "" && (s[0] == '-' || IsDigit(s[0])) && StrtodConsumes(s[..TokenLength(s)])
    ensures IntegerLength(s) > SignLength(s) || (SignLength(s) == 1 && MantissaLength(s) > IntegerLength(s) + 1)
    ensures MantissaLength(s) < TokenLength(s) ==> IsDigit(s[TokenLength(s) - 1])
  {
    hide ExponentLength, FractionLength;
    CutParts(s);
    var t := s[..TokenLength(s)];
    hide MantissaLength, TokenLength;
    if SignLength(s) == 0 {
      assert IsDigit(s[0]) && s[0..] == s;
    }
  }
}
