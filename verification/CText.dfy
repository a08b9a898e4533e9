/**
  C text and status codes, as every other module of the model uses them.

  A C `char` is a Dafny `char` whose code is the value of the byte, so a buffer of C text is a
  `string`.  A NUL-terminated C string is a `cstring`: a string that holds no NUL.
 */
module CText {
  datatype Option<+T> = None | Some(value: T)

  /** usbs_status_t. */
  datatype Status = Fine | InvalidArg | NotFound | IoError | AccessDenied | NoMemory | Unsupported | Internal

  datatype Result<+T> = Success(value: T) | Failure(error: Status)

  const NUL: char := 0 as char

  type cstring = s: string | NUL !in s

  /** usbs_status_string. */
  function StatusText(s: Status): cstring {
    match s
    case Fine => "USBS_OK"
    case InvalidArg => "USBS_ERR_INVALID_ARG"
    case NotFound => "USBS_ERR_NOT_FOUND"
    case IoError => "USBS_ERR_IO"
    case AccessDenied => "USBS_ERR_ACCESS_DENIED"
    case NoMemory => "USBS_ERR_NO_MEMORY"
    case Unsupported => "USBS_ERR_UNSUPPORTED"
    case Internal => "USBS_ERR_INTERNAL"
  }

  /** What a consumer of NUL-terminated text sees of a buffer. */
  function CStr(buffer: string): (s: cstring)
    ensures s <= buffer
    ensures s != buffer ==> |s| < |buffer| && buffer[|s|] == NUL
  {
    if buffer == [] || buffer[0] == NUL then [] else [buffer[0]] + CStr(buffer[1..])
  }

  lemma {:induction false} CStrOfNulFree(s: cstring)
    ensures CStr(s) == s
  {
    if s != [] {
      CStrOfNulFree(s[1..]);
    }
  }

  /** As many characters as a buffer of `cap` characters holds before its terminator. */
  function Cut(s: string, cap: nat): string
    requires cap > 0
  {
    if |s| < cap then s else s[..cap - 1]
  }

  lemma CStrOfClean(s: string, n: nat)
    requires n <= |s| && NUL !in s[..n] && (n < |s| ==> s[n] == NUL)
    ensures CStr(s) == s[..n]
  {
    if n > 0 {
      assert s[0] == s[..n][0] && s[1..][..n - 1] == s[..n][1..];
      CStrOfClean(s[1..], n - 1);
    }
  }

  /** What snprintf(out, cap, "%s", text) leaves in `out`. */
  function Truncated(text: cstring, cap: nat): (s: cstring)
    requires cap > 0
    ensures s <= text && |s| < cap
    ensures |text| < cap ==> s == text
  {
    if |text| < cap then text else text[..cap - 1]
  }

  function Lower(c: char): char {
    if 'A' <= c <= 'Z' then (c as int - 'A' as int + 'a' as int) as char else c
  }

  function LowerAll(s: string): (t: string)
    ensures |t| == |s|
    ensures forall i | 0 <= i < |s| :: t[i] == Lower(s[i])
  {
    seq(|s|, i requires 0 <= i < |s| => Lower(s[i]))
  }

  /** ASCII case-insensitive equality. */
  predicate IEq(a: string, b: string) {
    LowerAll(a) == LowerAll(b)
  }

  predicate EndsWith(s: string, suffix: string) {
    |suffix| <= |s| && s[|s| - |suffix|..] == suffix
  }

  /** Comma-separated text, taken apart at its first element. */
  lemma SplitText(a: string, b: string, end: string)
    ensures "" + a + b + end == a + (b + end)
    ensures ("," + a + b + end)[0] == ',' && ("," + a + b + end)[1..] == "" + a + b + end
  {
    assert "," + a + b + end == "," + (a + b + end);
    assert "" + a + b + end == a + b + end;
  }
}
