/**
  Directory names of devices (usbs_store_safe_id in src/storage/storage.c): unsafe bytes are escaped
  as "_XX".  The underscore itself is not, so two identities can share a directory; here is exactly
  which ones do.
 */
module SafeId {
  import opened CText

  predicate IsSafe(c: char) {
    'A' <= c <= 'Z' || 'a' <= c <= 'z' || '0' <= c <= '9' || c == '.' || c == '-' || c == '_'
  }

  predicate AllSafe(s: string) {
    forall i | 0 <= i < |s| :: IsSafe(s[i])
  }

  predicate IsByte(c: char) {
    c as int < 256
  }

  /** A C string as bytes. */
  predicate IsBytes(s: string) {
    forall i | 0 <= i < |s| :: IsByte(s[i]) && s[i] != NUL
  }

  function HexDigit(d: nat): (c: char)
    requires d < 16
    ensures IsSafe(c) && c != '_'
  {
    if d < 10 then (48 + d) as char else (55 + d) as char
  }

  /** "%02X". */
  function Hex(c: char): (h: string)
    requires IsByte(c)
    ensures |h| == 2
  {
    [HexDigit(c as int / 16), HexDigit(c as int % 16)]
  }

  function Escape(c: char): (s: string)
    requires IsByte(c)
    ensures AllSafe(s) && s != ""
  {
    if IsSafe(c) then [c] else "_" + Hex(c)
  }

  const UPPER := "0123456789ABCDEF"

  /** Letters, digits, '.', '-' and '_' stay; any other byte becomes '_' and two upper-case digits. */
  lemma EscapeTable(c: char)
    requires IsByte(c)
    ensures if 'A' <= c <= 'Z' || 'a' <= c <= 'z' || '0' <= c <= '9' || c in {'.', '-', '_'} then Escape(c) == [c]
            else Escape(c) == ['_', UPPER[c as int / 16], UPPER[c as int % 16]]
  {
    DigitIs(c as int / 16);
    DigitIs(c as int % 16);
  }

  lemma DigitIs(d: nat)
    requires d < 16
    ensures HexDigit(d) == UPPER[d]
  {
    assert d == 0 || d == 1 || d == 2 || d == 3 || d == 4 || d == 5 || d == 6 || d == 7
        || d == 8 || d == 9 || d == 10 || d == 11 || d == 12 || d == 13 || d == 14 || d == 15;
  }

  function Encode(identity: string): (s: string)
    requires IsBytes(identity)
    ensures AllSafe(s)
  {
    if identity == "" then "" else Escape(identity[0]) + Encode(identity[1..])
  }

  /** usbs_store_safe_id: the encoding, when it is not empty and fits with its terminator. */
  method Make(identity: string, cap: nat) returns (r: Result<string>)
    requires IsBytes(identity)
    ensures r == if cap == 0 then Failure(InvalidArg)
                 else if |Encode(identity)| >= cap then Failure(NoMemory)
                 else if identity == "" then Failure(InvalidArg)
                 else Success(Encode(identity))
  {
    hide Escape, Encode;
    if cap == 0 {
      return Failure(InvalidArg);
    }
    var out := "";
    assert identity[0..] == identity;
    for p := 0 to |identity|
      invariant |out| < cap && Encode(identity) == out + Encode(identity[p..])
      invariant out == "" <==> p == 0
    {
      EncodeHead(identity, p);
      if |out| + |Escape(identity[p])| >= cap {
        return Failure(NoMemory);
      }
      out := out + Escape(identity[p]);
    }
    EncodeNothing();
    assert identity[|identity|..] == "" && out + "" == out;
    if |out| == 0 {
      return Failure(InvalidArg);
    }
    return Success(out);
  }

  lemma EncodeHead(s: string, p: nat)
    requires IsBytes(s) && p < |s|
    ensures Encode(s[p..]) == Escape(s[p]) + Encode(s[p + 1..])
    ensures Escape(s[p]) != ""
  {
    assert s[p..][1..] == s[p + 1..];
  }

  lemma EncodeNothing()
    ensures Encode("") == ""
  {
  }

  // ---- which identities share a directory ----

  lemma {:induction false} EncodeConcat(a: string, b: string)
    requires IsBytes(a) && IsBytes(b)
    ensures IsBytes(a + b) && Encode(a + b) == Encode(a) + Encode(b)
  {
    hide Escape;
    if a == "" {
      assert a + b == b;
    } else {
      assert (a + b)[1..] == a[1..] + b;
      EncodeConcat(a[1..], b);
    }
  }

  /** What is safe is left as it is. */
  lemma {:induction false} SafeIsKept(s: string)
    requires AllSafe(s)
    ensures IsBytes(s) && Encode(s) == s
  {
    if s != "" {
      assert IsSafe(s[0]);
      SafeIsKept(s[1..]);
      assert s == [s[0]] + s[1..];
    }
  }

  /** The escape of an unsafe byte, at `i`. */
  predicate EscapeAt(s: string, i: nat, c: char)
    requires i + 3 <= |s| && IsByte(c)
  {
    !IsSafe(c) && c != NUL && s[i..i + 3] == "_" + Hex(c)
  }

  ghost predicate HasEscape(s: string) {
    exists i: nat, c: char | i + 3 <= |s| && IsByte(c) :: EscapeAt(s, i, c)
  }

  lemma EncodeOne(c: char)
    requires IsByte(c) && c != NUL && !IsSafe(c)
    ensures Encode([c]) == "_" + Hex(c)
  {
    assert [c][1..] == "";
    assert Escape(c) + "" == Escape(c);
  }

  /** An identity with an unsafe byte is encoded with an escape. */
  lemma UnsafeIsEscaped(s: string, j: nat)
    requires IsBytes(s) && j < |s| && !IsSafe(s[j])
    ensures HasEscape(Encode(s))
  {
    hide Encode, IsSafe;
    var before, c, after := s[..j], s[j], s[j + 1..];
    assert s == before + ([c] + after);
    EncodeConcat([c], after);
    EncodeConcat(before, [c] + after);
    EncodeOne(c);
    var i := |Encode(before)|;
    assert Encode(s)[i..i + 3] == "_" + Hex(c);
    assert EscapeAt(Encode(s), i, c);
  }

  /** An escape stands for its byte as well as for itself. */
  lemma EscapeIsShared(s: string, i: nat, c: char) returns (other: string)
    requires AllSafe(s) && i + 3 <= |s| && IsByte(c) && EscapeAt(s, i, c)
    ensures IsBytes(other) && other != s && Encode(other) == s
  {
    hide Encode, IsSafe;
    var before, after := s[..i], s[i + 3..];
    SafeIsKept(before);
    SafeIsKept(after);
    EncodeOne(c);
    EncodeConcat([c], after);
    EncodeConcat(before, [c] + after);
    other := before + ([c] + after);
    assert s == before + (s[i..i + 3] + after);
    assert |other| < |s|;
  }

  ghost predicate Shares(s: string, other: string)
    requires IsBytes(s)
  {
    IsBytes(other) && other != s && Encode(other) == Encode(s)
  }

  /**
    Collisions are meant to be avoided.  An identity shares its directory with another exactly when
    it holds an unsafe byte or the escape of one.
   */
  lemma SharesIff(s: string)
    requires IsBytes(s)
    ensures (exists other :: Shares(s, other)) <==> !AllSafe(s) || HasEscape(s)
  {
    hide Encode, IsSafe;
    if !AllSafe(s) {
      SafeIsKept(Encode(s));
      assert Shares(s, Encode(s));
    } else if HasEscape(s) {
      var i: nat, c: char :| i + 3 <= |s| && IsByte(c) && EscapeAt(s, i, c);
      SafeIsKept(s);
      var other := EscapeIsShared(s, i, c);
      assert Shares(s, other);
    } else {
      SafeIsKept(s);
      forall other | Shares(s, other) ensures false {
        if AllSafe(other) {
          SafeIsKept(other);
        } else {
          var j :| 0 <= j < |other| && !IsSafe(other[j]);
          UnsafeIsEscaped(other, j);
        }
      }
    }
  }

  /** Two serial numbers, one with a space and one with its escape. */
  lemma SharedDirectory()
    ensures IsBytes("A B") && IsBytes("A_20B") && Encode("A B") == Encode("A_20B") == "A_20B"
  {
    hide Encode;
    SafeIsKept("A");
    SafeIsKept("B");
    SafeIsKept("A_20B");
    EncodeOne(' ');
    EncodeConcat(" ", "B");
    EncodeConcat("A", " " + "B");
    assert "A" + (" " + "B") == "A B" && Hex(' ') == "20";
    assert "A" + ("_20" + "B") == "A_20B" && "_" + "20" == "_20";
  }
}
