/**
  UTF-8 sanitising of directory entry names (src/platform/fs_posix.c) against section 4 of
  RFC 3629.  A C string is a sequence of bytes without a zero.
 */
module Utf8 {
  type byte = x: int | 0 <= x < 256

  const REPLACEMENT: seq<byte> := [0xEF, 0xBF, 0xBD]

  // ---- the standard ----

  /** A Unicode scalar value: a code point that is not a surrogate half. */
  predicate IsScalar(c: nat) {
    c < 0xD800 || 0xE000 <= c <= 0x10FFFF
  }

  /** The table of section 3 of RFC 3629. */
  function Encode(c: nat): (s: seq<byte>)
    requires IsScalar(c)
    ensures 1 <= |s| <= 4
  {
    if c < 0x80 then [c]
    else if c < 0x800 then [0xC0 + c / 0x40, 0x80 + c % 0x40]
    else if c < 0x10000 then [0xE0 + c / 0x40 / 0x40, 0x80 + c / 0x40 % 0x40, 0x80 + c % 0x40]
    else [0xF0 + c / 0x40 / 0x40 / 0x40, 0x80 + c / 0x40 / 0x40 % 0x40, 0x80 + c / 0x40 % 0x40, 0x80 + c % 0x40]
  }

  ghost predicate AllScalars(cs: seq<nat>) {
    forall i | 0 <= i < |cs| :: IsScalar(cs[i])
  }

  function EncodeAll(cs: seq<nat>): seq<byte>
    requires forall i | 0 <= i < |cs| :: IsScalar(cs[i])
  {
    if cs == [] then [] else Encode(cs[0]) + EncodeAll(cs[1..])
  }

  /** Well-formed UTF-8: the encoding of some sequence of scalar values. */
  ghost predicate WellFormed(s: seq<byte>) {
    exists cs: seq<nat> :: AllScalars(cs) && EncodeAll(cs) == s
  }

  // ---- the code ----

  predicate IsContinuation(b: byte) {
    b / 0x40 == 2
  }

  /** utf8_sequence_length: 0 when no sequence starts here. */
  function SequenceLength(s: seq<byte>): (n: nat)
    requires s != []
    ensures n <= 4 && n <= |s|
  {
    var c := s[0];
    if c < 0x80 then 1
    else if c / 0x20 == 6 then
      if |s| < 2 || !IsContinuation(s[1]) then 0
      else if c < 0xC2 then 0
      else 2
    else if c / 0x10 == 14 then
      if |s| < 3 || !IsContinuation(s[1]) || !IsContinuation(s[2]) then 0
      else if c == 0xE0 && s[1] < 0xA0 then 0
      else if c == 0xED && s[1] >= 0xA0 then 0
      else 3
    else if c / 8 == 30 then
      if |s| < 4 || !IsContinuation(s[1]) || !IsContinuation(s[2]) || !IsContinuation(s[3]) then 0
      else if c == 0xF0 && s[1] < 0x90 then 0
      else if c > 0xF4 || (c == 0xF4 && s[1] >= 0x90) then 0
      else 4
    else 0
  }

  lemma SixBits(high: nat, low: int)
    requires 0 <= low < 0x40
    ensures (high * 0x40 + low) / 0x40 == high && (high * 0x40 + low) % 0x40 == low
  {
  }

  function Decode2(b0: int, b1: int): (c: nat)
    requires 0xC2 <= b0 < 0xE0 && 0x80 <= b1 < 0xC0
    ensures IsScalar(c) && Encode(c) == [b0, b1]
  {
    SixBits(b0 - 0xC0, b1 - 0x80);
    (b0 - 0xC0) * 0x40 + (b1 - 0x80)
  }

  function Decode3(b0: int, b1: int, b2: int): (c: nat)
    requires 0xE0 <= b0 < 0xF0 && 0x80 <= b1 < 0xC0 && 0x80 <= b2 < 0xC0
    requires (b0 == 0xE0 ==> b1 >= 0xA0) && (b0 == 0xED ==> b1 < 0xA0)
    ensures IsScalar(c) && Encode(c) == [b0, b1, b2]
  {
    var high := (b0 - 0xE0) * 0x40 + (b1 - 0x80);
    SixBits(b0 - 0xE0, b1 - 0x80);
    SixBits(high, b2 - 0x80);
    high * 0x40 + (b2 - 0x80)
  }

  function Decode4(b0: int, b1: int, b2: int, b3: int): (c: nat)
    requires 0xF0 <= b0 <= 0xF4 && 0x80 <= b1 < 0xC0 && 0x80 <= b2 < 0xC0 && 0x80 <= b3 < 0xC0
    requires (b0 == 0xF0 ==> b1 >= 0x90) && (b0 == 0xF4 ==> b1 < 0x90)
    ensures IsScalar(c) && Encode(c) == [b0, b1, b2, b3]
  {
    var high := (b0 - 0xF0) * 0x40 + (b1 - 0x80);
    var middle := high * 0x40 + (b2 - 0x80);
    SixBits(b0 - 0xF0, b1 - 0x80);
    SixBits(high, b2 - 0x80);
    SixBits(middle, b3 - 0x80);
    middle * 0x40 + (b3 - 0x80)
  }

  /** The scalar value a measured sequence encodes. */
  function Decode(s: seq<byte>): (c: nat)
    requires s != [] && SequenceLength(s) > 0
    ensures IsScalar(c) && Encode(c) == s[..SequenceLength(s)]
  {
    match SequenceLength(s)
    case 1 => s[0]
    case 2 => Decode2(s[0], s[1])
    case 3 => Decode3(s[0], s[1], s[2])
    case _ => Decode4(s[0], s[1], s[2], s[3])
  }

  lemma EncodingIsMeasured(c: nat, rest: seq<byte>)
    requires IsScalar(c)
    ensures SequenceLength(Encode(c) + rest) == |Encode(c)|
  {
  }

  /** A length is reported exactly at the encoding of a scalar value, and it is that encoding's. */
  lemma LengthIffScalar(s: seq<byte>)
    requires s != []
    ensures SequenceLength(s) > 0 <==> exists c :: IsScalar(c) && Encode(c) <= s
    ensures forall c | IsScalar(c) && Encode(c) <= s :: SequenceLength(s) == |Encode(c)|
  {
    if SequenceLength(s) > 0 {
      assert Encode(Decode(s)) <= s;
    }
    forall c | IsScalar(c) && Encode(c) <= s
      ensures SequenceLength(s) == |Encode(c)|
    {
      EncodingIsMeasured(c, s[|Encode(c)|..]);
      assert s == Encode(c) + s[|Encode(c)|..];
    }
  }

  /** What one pass of the loop consumes and what it would copy. */
  function Consumed(s: seq<byte>): (n: nat)
    requires s != []
    ensures 1 <= n <= |s|
  {
    if SequenceLength(s) == 0 then 1 else SequenceLength(s)
  }

  function Piece(s: seq<byte>): (p: seq<byte>)
    requires s != []
    ensures 1 <= |p| <= 4 && |p| <= 3 * Consumed(s)
  {
    if SequenceLength(s) == 0 then REPLACEMENT else s[..SequenceLength(s)]
  }

  /** What is written after `used` bytes are in a buffer of `cap`. */
  function Cut(s: seq<byte>, used: nat, cap: nat): (out: seq<byte>)
    ensures used < cap ==> used + |out| < cap
    decreases |s|
  {
    if s == [] || used + |Piece(s)| >= cap then []
    else Piece(s) + Cut(s[Consumed(s)..], used + |Piece(s)|, cap)
  }

  function Sanitized(s: seq<byte>, cap: nat): seq<byte> {
    Cut(s, 0, cap)
  }

  lemma CutStep(done: seq<byte>, s: seq<byte>, used: nat, cap: nat)
    requires s != []
    ensures used + |Piece(s)| >= cap ==> done + Cut(s, used, cap) == done
    ensures used + |Piece(s)| < cap ==>
              done + Cut(s, used, cap) == done + Piece(s) + Cut(s[Consumed(s)..], used + |Piece(s)|, cap)
  {
    hide SequenceLength, Piece, Consumed;
    var rest := Cut(s[Consumed(s)..], used + |Piece(s)|, cap);
    assert done + Piece(s) + rest == done + (Piece(s) + rest);
  }

  /** sanitize_utf8: the terminated result in the destination buffer. */
  method Sanitize(src: seq<byte>, dst: array<byte>)
    modifies dst
    ensures dst.Length > 0 ==>
              |Sanitized(src, dst.Length)| < dst.Length
              && dst[..|Sanitized(src, dst.Length)|] == Sanitized(src, dst.Length)
              && dst[|Sanitized(src, dst.Length)|] == 0
  {
    hide SequenceLength, Cut;
    var cap := dst.Length;
    if cap == 0 {
      return;
    }
    var i: nat, out: nat := 0, 0;
    assert dst[..0] + Cut(src[0..], 0, cap) == Sanitized(src, cap) by {
      assert src[0..] == src;
    }
    while i < |src|
      invariant i <= |src| && out < cap
      invariant dst[..out] + Cut(src[i..], out, cap) == Sanitized(src, cap)
    {
      ghost var rest := src[i..];
      CutStep(dst[..out], rest, out, cap);
      var seqLength := SequenceLength(src[i..]);
      if seqLength == 0 {
        if out + |REPLACEMENT| >= cap {
          Terminate(dst, out);
          return;
        }
        Copy(dst, out, REPLACEMENT);
        out := out + |REPLACEMENT|;
        assert rest[1..] == src[i + 1..];
        i := i + 1;
        continue;
      }
      if out + seqLength >= cap {
        Terminate(dst, out);
        return;
      }
      assert src[i..i + seqLength] == rest[..seqLength];
      Copy(dst, out, src[i..i + seqLength]);
      assert rest[seqLength..] == src[i + seqLength..];
      out := out + seqLength;
      i := i + seqLength;
    }
    assert Cut(src[i..], out, cap) == [] by {
      CutEmpty(out, cap);
      assert src[i..] == [];
    }
    Terminate(dst, out);
  }

  lemma CutEmpty(used: nat, cap: nat)
    ensures Cut([], used, cap) == []
  {
  }

  method Terminate(dst: array<byte>, at: nat)
    requires at < dst.Length
    modifies dst
    ensures dst[at] == 0 && dst[..at] == old(dst[..at])
  {
    dst[at] := 0;
  }

  /** memcpy. */
  method Copy(dst: array<byte>, at: nat, bytes: seq<byte>)
    requires at + |bytes| <= dst.Length
    modifies dst
    ensures dst[..at + |bytes|] == old(dst[..at]) + bytes
  {
    for i := 0 to |bytes|
      invariant dst[..at + i] == old(dst[..at]) + bytes[..i]
    {
      dst[at + i] := bytes[i];
    }
    assert bytes[..|bytes|] == bytes;
  }

  // ---- what it guarantees ----

  lemma WellFormedCons(c: nat, s: seq<byte>)
    requires IsScalar(c) && WellFormed(s)
    ensures WellFormed(Encode(c) + s)
  {
    var cs: seq<nat> :| AllScalars(cs) && EncodeAll(cs) == s;
    var all := [c] + cs;
    assert AllScalars(all) && all[1..] == cs;
    assert EncodeAll(all) == Encode(c) + s;
  }

  lemma WellFormedEmpty()
    ensures WellFormed([])
  {
    var cs: seq<nat> := [];
    assert AllScalars(cs) && EncodeAll(cs) == [];
  }

  /** The first sequence of well-formed text is measured, and well-formed text follows it. */
  lemma WellFormedUncons(s: seq<byte>)
    requires WellFormed(s) && s != []
    ensures SequenceLength(s) > 0 && WellFormed(s[SequenceLength(s)..])
  {
    var cs: seq<nat> :| AllScalars(cs) && EncodeAll(cs) == s;
    EncodingIsMeasured(cs[0], EncodeAll(cs[1..]));
    assert s[|Encode(cs[0])|..] == EncodeAll(cs[1..]);
    assert AllScalars(cs[1..]);
  }

  lemma PieceIsScalar(s: seq<byte>)
    requires s != []
    ensures exists c :: IsScalar(c) && Encode(c) == Piece(s)
  {
    if SequenceLength(s) == 0 {
      assert Encode(0xFFFD) == REPLACEMENT;
    } else {
      assert Encode(Decode(s)) == Piece(s);
    }
  }

  /** Everything copied, with no limit. */
  function Full(s: seq<byte>): (out: seq<byte>)
    ensures |out| <= 3 * |s|
    decreases |s|
  {
    if s == [] then [] else Piece(s) + Full(s[Consumed(s)..])
  }

  /** The output is well-formed UTF-8 whatever the input, and it fits with its terminator. */
  lemma {:induction false} OutputIsWellFormed(s: seq<byte>, used: nat, cap: nat)
    ensures WellFormed(Cut(s, used, cap))
    ensures used < cap ==> used + |Cut(s, used, cap)| < cap
    decreases |s|
  {
    hide SequenceLength, WellFormed, Encode;
    if s == [] || used + |Piece(s)| >= cap {
      WellFormedEmpty();
    } else {
      PieceIsScalar(s);
      var c :| IsScalar(c) && Encode(c) == Piece(s);
      OutputIsWellFormed(s[Consumed(s)..], used + |Piece(s)|, cap);
      WellFormedCons(c, Cut(s[Consumed(s)..], used + |Piece(s)|, cap));
    }
  }

  /**
    Truncation only drops whole sequences: the unlimited text is the output followed by
    well-formed text, and when something was dropped its first sequence would not have fitted.
   */
  lemma {:induction false} CutAtBoundary(s: seq<byte>, used: nat, cap: nat) returns (dropped: seq<byte>)
    requires used < cap
    ensures Full(s) == Cut(s, used, cap) + dropped
    ensures WellFormed(dropped)
    ensures dropped != [] ==> used + |Cut(s, used, cap)| + SequenceLength(dropped) >= cap
    decreases |s|
  {
    hide SequenceLength, WellFormed, Encode, Piece, Consumed;
    if s == [] || used + |Piece(s)| >= cap {
      dropped := Full(s);
      FullIsWellFormed(s);
      assert Cut(s, used, cap) == [] && [] + dropped == dropped;
      if s != [] {
        PieceIsMeasured(s, Full(s[Consumed(s)..]));
      }
    } else {
      var rest := s[Consumed(s)..];
      dropped := CutAtBoundary(rest, used + |Piece(s)|, cap);
      assert Piece(s) + (Cut(rest, used + |Piece(s)|, cap) + dropped)
          == Piece(s) + Cut(rest, used + |Piece(s)|, cap) + dropped;
    }
  }

  lemma PieceIsMeasured(s: seq<byte>, rest: seq<byte>)
    requires s != []
    ensures SequenceLength(Piece(s) + rest) == |Piece(s)|
  {
    hide SequenceLength, Encode, Piece, Consumed;
    PieceIsScalar(s);
    var c :| IsScalar(c) && Encode(c) == Piece(s);
    EncodingIsMeasured(c, rest);
  }

  /**
    What is replaced: where the encoding of a scalar value starts it is kept, and any other byte becomes
    U+FFFD.
   */
  lemma FullSteps(s: seq<byte>)
    requires s != []
    ensures forall c | IsScalar(c) && Encode(c) <= s :: Full(s) == Encode(c) + Full(s[|Encode(c)|..])
    ensures (forall c | IsScalar(c) :: !(Encode(c) <= s)) ==> Full(s) == Encode(0xFFFD) + Full(s[1..])
  {
    hide SequenceLength, Encode;
    LengthIffScalar(s);
    ReplacementIs();
    forall c | IsScalar(c) && Encode(c) <= s ensures Full(s) == Encode(c) + Full(s[|Encode(c)|..]) {
      assert s[..|Encode(c)|] == Encode(c);
    }
  }

  lemma ReplacementIs()
    ensures Encode(0xFFFD) == REPLACEMENT
  {
  }

  lemma {:induction false} FullIsWellFormed(s: seq<byte>)
    ensures WellFormed(Full(s))
    decreases |s|
  {
    hide SequenceLength, WellFormed, Encode;
    if s == [] {
      WellFormedEmpty();
    } else {
      PieceIsScalar(s);
      var c :| IsScalar(c) && Encode(c) == Piece(s);
      FullIsWellFormed(s[Consumed(s)..]);
      WellFormedCons(c, Full(s[Consumed(s)..]));
    }
  }

  lemma {:induction false} IdentityOnWellFormed(s: seq<byte>, used: nat, cap: nat)
    requires WellFormed(s) && used + |s| < cap
    ensures Cut(s, used, cap) == s
    decreases |s|
  {
    hide SequenceLength, WellFormed, Piece, Consumed;
    if s != [] {
      var n := FirstOfWellFormed(s);
      IdentityOnWellFormed(s[n..], used + n, cap);
      assert s == s[..n] + s[n..];
    }
  }

  lemma FirstOfWellFormed(s: seq<byte>) returns (n: nat)
    requires WellFormed(s) && s != []
    ensures 0 < n <= |s| && Consumed(s) == n && Piece(s) == s[..n] && WellFormed(s[n..])
  {
    hide SequenceLength, WellFormed;
    WellFormedUncons(s);
    n := SequenceLength(s);
  }

  /** Text comes out unchanged exactly when it is well-formed and fits. */
  lemma UnchangedIffWellFormedAndFits(s: seq<byte>, cap: nat)
    requires cap > 0
    ensures Sanitized(s, cap) == s <==> WellFormed(s) && |s| < cap
  {
    OutputIsWellFormed(s, 0, cap);
    if WellFormed(s) && |s| < cap {
      IdentityOnWellFormed(s, 0, cap);
    }
  }

  lemma Idempotent(s: seq<byte>, cap: nat)
    requires cap > 0
    ensures Sanitized(Sanitized(s, cap), cap) == Sanitized(s, cap)
  {
    OutputIsWellFormed(s, 0, cap);
    IdentityOnWellFormed(Sanitized(s, cap), 0, cap);
  }

  /** Nothing is dropped when three bytes for each input byte and the terminator fit. */
  lemma {:induction false} NeverTruncates(s: seq<byte>, used: nat, cap: nat)
    requires used + 3 * |s| < cap
    ensures Cut(s, used, cap) == Full(s)
    decreases |s|
  {
    hide SequenceLength;
    if s != [] {
      NeverTruncates(s[Consumed(s)..], used + |Piece(s)|, cap);
    }
  }

  lemma PieceHasNoZero(s: seq<byte>)
    requires s != [] && 0 !in s
    ensures 0 !in Piece(s) && 0 !in s[Consumed(s)..]
  {
    hide SequenceLength;
  }

  /** A C string stays a C string: no zero byte appears. */
  lemma {:induction false} NoZeroAppears(s: seq<byte>, used: nat, cap: nat)
    requires 0 !in s
    ensures 0 !in Cut(s, used, cap)
    decreases |s|
  {
    hide Piece, Consumed;
    if !(s == [] || used + |Piece(s)| >= cap) {
      PieceHasNoZero(s);
      NoZeroAppears(s[Consumed(s)..], used + |Piece(s)|, cap);
    }
  }
}
