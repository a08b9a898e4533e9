/**
  Names and times in the report store (src/storage/storage.c): compact and expanded timestamps, and
  the last scan derived from a directory listing.
 */
module ReportNames {
  import opened CText
  import Detection

  // ---- strcmp ----

  /** strcmp(a, b) < 0. */
  predicate Less(a: string, b: string) {
    b != "" && (a == "" || a[0] < b[0] || (a[0] == b[0] && Less(a[1..], b[1..])))
  }

  lemma {:induction false} LessTotal(a: string, b: string)
    ensures Less(a, b) || Less(b, a) || a == b
    ensures !(Less(a, b) && Less(b, a)) && !(Less(a, b) && a == b)
  {
    if a != "" && b != "" && a[0] == b[0] {
      LessTotal(a[1..], b[1..]);
      assert a == [a[0]] + a[1..] && b == [b[0]] + b[1..];
    }
  }

  lemma {:induction false} LessTransitive(a: string, b: string, c: string)
    requires Less(a, b) && Less(b, c)
    ensures Less(a, c)
  {
    if a != "" && a[0] == b[0] == c[0] {
      LessTransitive(a[1..], b[1..], c[1..]);
    }
  }

  /** Text of one length is compared front first. */
  lemma {:induction false} LessConcat(a: string, x: string, b: string, y: string)
    requires |a| == |b|
    ensures Less(a + x, b + y) <==> Less(a, b) || (a == b && Less(x, y))
  {
    if a == "" {
      assert a + x == x && b + y == y;
    } else {
      assert (a + x)[1..] == a[1..] + x && (b + y)[1..] == b[1..] + y;
      LessConcat(a[1..], x, b[1..], y);
      assert a == b <==> a[0] == b[0] && a[1..] == b[1..];
    }
  }

  // ---- timestamps ----

  datatype Stamp = Stamp(year: nat, month: nat, day: nat, hour: nat, minute: nat, second: nat)

  predicate IsStamp(t: Stamp) {
    t.year < 10000 && t.month < 100 && t.day < 100 && t.hour < 100 && t.minute < 100 && t.second < 100
  }

  function Two(n: nat): (s: string)
    requires n < 100
    ensures |s| == 2 && '0' <= s[0] <= '9' && '0' <= s[1] <= '9'
  {
    [(48 + n / 10) as char, (48 + n % 10) as char]
  }

  function Four(n: nat): (s: string)
    requires n < 10000
    ensures |s| == 4
  {
    Two(n / 100) + Two(n % 100)
  }

  /** YYYY-MM-DDTHH:MM:SSZ. */
  function Iso(t: Stamp): (s: string)
    requires IsStamp(t)
    ensures |s| == 20
  {
    Four(t.year) + "-" + Two(t.month) + "-" + Two(t.day) + "T" + Two(t.hour) + ":" + Two(t.minute) + ":"
    + Two(t.second) + "Z"
  }

  /** YYYYMMDDTHHMMSSZ. */
  function Compact(t: Stamp): (s: string)
    requires IsStamp(t)
    ensures |s| == 16
  {
    Four(t.year) + (Two(t.month) + (Two(t.day) + ("T" + (Two(t.hour) + (Two(t.minute) + (Two(t.second) + "Z"))))))
  }

  function Stripped(s: string): (r: string)
    ensures NUL !in s ==> NUL !in r
  {
    if s == "" then ""
    else (if s[0] == '-' || s[0] == ':' then "" else [s[0]]) + Stripped(s[1..])
  }

  /** Everything but the hyphens and the colons is kept, in its order. */
  lemma {:induction false} StrippedIs(s: string)
    ensures '-' !in Stripped(s) && ':' !in Stripped(s) && Detection.Subsequence(Stripped(s), s)
    ensures forall c: char | c != '-' && c != ':' :: multiset(Stripped(s))[c] == multiset(s)[c]
    decreases |s|
  {
    hide Stripped, Detection.Subsequence;
    if s == "" {
      StrippedNothing();
      NothingInNothing();
    } else {
      var (front, last) := (s[..|s| - 1], s[|s| - 1]);
      assert s == front + [last];
      StrippedIs(front);
      StrippedConcat(front, [last]);
      StrippedMark(last);
      Detection.SubsequenceSnoc<char>(Stripped(front), front, last);
      if last == '-' || last == ':' {
        assert Stripped(front) + "" == Stripped(front);
      }
    }
  }

  lemma NothingInNothing()
    ensures Detection.Subsequence<char>("", "")
  {
  }

  /** A finished scan's time and the start of the name of its report. */
  lemma ExampleStamp()
    ensures var t := Stamp(2026, 9, 11, 14, 2, 3);
            Iso(t) == "2026-09-11T14:02:03Z" && Compact(t) == "20260911T140203Z"
  {
    hide Two;
    ExampleParts();
    assert Iso(Stamp(2026, 9, 11, 14, 2, 3)) == "20" + "26" + "-" + "09" + "-" + "11" + "T" + "14" + ":" + "02" + ":" + "03" + "Z";
  }

  lemma ExampleParts()
    ensures Two(20) == "20" && Two(26) == "26" && Two(9) == "09" && Two(11) == "11" && Two(14) == "14"
    ensures Two(2) == "02" && Two(3) == "03"
  {
  }

  /** compact_timestamp: everything but hyphens and colons, when that is 16 characters. */
  method CompactTimestamp(iso: cstring) returns (r: Result<cstring>)
    ensures r == if |Stripped(iso)| == 16 then Success(Stripped(iso)) else Failure(InvalidArg)
  {
    hide Stripped;
    var out := "";
    StrippedNothing();
    assert iso[0..] == iso;
    for p := 0 to |iso|
      invariant |out| <= 16 && Stripped(iso) == out + Stripped(iso[p..])
    {
      StrippedHead(iso, p);
      if iso[p] == '-' || iso[p] == ':' {
        continue;
      }
      if |out| + 1 >= 17 {
        return Failure(InvalidArg);
      }
      out := out + [iso[p]];
    }
    assert iso[|iso|..] == "" && out + "" == out;
    if |out| != 16 {
      return Failure(InvalidArg);
    }
    return Success(out);
  }

  lemma StrippedHead(s: string, p: nat)
    requires p < |s|
    ensures Stripped(s[p..]) == (if s[p] == '-' || s[p] == ':' then "" else [s[p]]) + Stripped(s[p + 1..])
  {
    assert s[p..][1..] == s[p + 1..];
  }

  /** expand_timestamp. */
  function Expand(c: string): (s: string)
    requires |c| == 16
    ensures |s| == 20
  {
    c[..4] + "-" + c[4..6] + "-" + c[6..8] + "T" + c[9..11] + ":" + c[11..13] + ":" + c[13..15] + "Z"
  }

  lemma {:induction false} StrippedConcat(a: string, b: string)
    ensures Stripped(a + b) == Stripped(a) + Stripped(b)
  {
    if a == "" {
      assert a + b == b;
    } else {
      assert (a + b)[1..] == a[1..] + b;
      StrippedConcat(a[1..], b);
    }
  }

  lemma StrippedTwo(n: nat)
    requires n < 100
    ensures Stripped(Two(n)) == Two(n)
  {
    var s := Two(n);
    StrippedMark(s[0]);
    StrippedMark(s[1]);
    StrippedConcat([s[0]], [s[1]]);
    assert s == [s[0]] + [s[1]];
  }

  lemma StrippedMark(c: char)
    ensures Stripped([c]) == if c == '-' || c == ':' then "" else [c]
  {
    assert [c][1..] == "";
  }

  /** The text of a part, followed by a separator, is stripped of the separator alone. */
  lemma StrippedPart(part: string, mark: char, rest: string)
    requires Stripped(part) == part
    ensures Stripped(part + [mark] + rest) == part + (if mark == '-' || mark == ':' then "" else [mark]) + Stripped(rest)
  {
    StrippedConcat(part + [mark], rest);
    StrippedConcat(part, [mark]);
    StrippedMark(mark);
  }

  lemma CompactIs(t: Stamp)
    requires IsStamp(t)
    ensures Stripped(Iso(t)) == Compact(t)
  {
    hide Stripped, Two;
    var time := Two(t.hour) + ":" + (Two(t.minute) + ":" + (Two(t.second) + "Z" + ""));
    var date := Four(t.year) + "-" + (Two(t.month) + "-" + (Two(t.day) + "T" + time));
    assert Iso(t) == date;
    StrippedTwo(t.year / 100); StrippedTwo(t.year % 100);
    StrippedConcat(Two(t.year / 100), Two(t.year % 100));
    StrippedTwo(t.month); StrippedTwo(t.day); StrippedTwo(t.hour); StrippedTwo(t.minute); StrippedTwo(t.second);
    StrippedPart(Two(t.second), 'Z', "");
    StrippedPart(Two(t.minute), ':', Two(t.second) + "Z" + "");
    StrippedPart(Two(t.hour), ':', Two(t.minute) + ":" + (Two(t.second) + "Z" + ""));
    StrippedPart(Two(t.day), 'T', time);
    StrippedPart(Two(t.month), '-', Two(t.day) + "T" + time);
    StrippedPart(Four(t.year), '-', Two(t.month) + "-" + (Two(t.day) + "T" + time));
    StrippedNothing();
  }

  lemma StrippedNothing()
    ensures Stripped("") == ""
  {
  }

  /** Expanding undoes compacting. */
  lemma ExpandInvertsCompact(t: Stamp)
    requires IsStamp(t)
    ensures |Stripped(Iso(t))| == 16 && Expand(Stripped(Iso(t))) == Iso(t)
  {
    hide Two, Stripped;
    CompactIs(t);
    var c := Compact(t);
    assert c[..4] == Four(t.year) && c[4..6] == Two(t.month) && c[6..8] == Two(t.day);
    assert c[9..11] == Two(t.hour) && c[11..13] == Two(t.minute) && c[13..15] == Two(t.second);
  }

  /** Earlier in the calendar. */
  predicate Earlier(a: Stamp, b: Stamp) {
    || a.year < b.year
    || (a.year == b.year
        && (|| a.month < b.month
            || (a.month == b.month
                && (|| a.day < b.day
                    || (a.day == b.day
                        && (|| a.hour < b.hour
                            || (a.hour == b.hour
                                && (a.minute < b.minute || (a.minute == b.minute && a.second < b.second)))))))))
  }

  lemma OneOrder(c: char, d: char)
    ensures Less([c], [d]) <==> c < d
  {
    assert [c][1..] == "" && [d][1..] == "";
  }

  lemma TwoOrder(a: nat, b: nat)
    requires a < 100 && b < 100
    ensures Less(Two(a), Two(b)) <==> a < b
    ensures Two(a) == Two(b) <==> a == b
  {
    var s, t := Two(a), Two(b);
    assert s == [s[0]] + [s[1]] && t == [t[0]] + [t[1]];
    LessConcat([s[0]], [s[1]], [t[0]], [t[1]]);
    OneOrder(s[0], t[0]);
    OneOrder(s[1], t[1]);
    assert (s[0] < t[0] <==> a / 10 < b / 10) && (s[1] < t[1] <==> a % 10 < b % 10);
    assert s[0] == t[0] <==> a / 10 == b / 10;
    assert s[1] == t[1] <==> a % 10 == b % 10;
  }

  lemma FourOrder(a: nat, b: nat)
    requires a < 10000 && b < 10000
    ensures Less(Four(a), Four(b)) <==> a < b
    ensures Four(a) == Four(b) <==> a == b
  {
    hide Less, Two;
    TwoOrder(a / 100, b / 100);
    TwoOrder(a % 100, b % 100);
    LessConcat(Two(a / 100), Two(a % 100), Two(b / 100), Two(b % 100));
    assert Four(a)[..2] == Two(a / 100) && Four(b)[..2] == Two(b / 100);
    assert Four(a)[2..] == Two(a % 100) && Four(b)[2..] == Two(b % 100);
  }

  lemma SameMark(mark: string, x: string, y: string)
    ensures Less(mark + x, mark + y) <==> Less(x, y)
  {
    LessTotal(mark, mark);
    LessConcat(mark, x, mark, y);
  }

  lemma TimeOrder(a: Stamp, b: Stamp)
    requires IsStamp(a) && IsStamp(b)
    ensures var (s, t) := (Two(a.hour) + (Two(a.minute) + (Two(a.second) + "Z")),
                           Two(b.hour) + (Two(b.minute) + (Two(b.second) + "Z")));
            Less(s, t) <==> || a.hour < b.hour
                            || (a.hour == b.hour
                                && (a.minute < b.minute || (a.minute == b.minute && a.second < b.second)))
  {
    hide Less, Two;
    TwoOrder(a.hour, b.hour);
    TwoOrder(a.minute, b.minute);
    TwoOrder(a.second, b.second);
    LessTotal("Z", "Z");
    LessConcat(Two(a.second), "Z", Two(b.second), "Z");
    LessConcat(Two(a.minute), Two(a.second) + "Z", Two(b.minute), Two(b.second) + "Z");
    LessConcat(Two(a.hour), Two(a.minute) + (Two(a.second) + "Z"), Two(b.hour), Two(b.minute) + (Two(b.second) + "Z"));
  }

  /** Compact timestamps are ordered by strcmp as their times are in the calendar. */
  lemma CompactOrder(a: Stamp, b: Stamp)
    requires IsStamp(a) && IsStamp(b)
    ensures Less(Compact(a), Compact(b)) <==> Earlier(a, b)
  {
    hide Less, Two, Four;
    var s := Two(a.hour) + (Two(a.minute) + (Two(a.second) + "Z"));
    var t := Two(b.hour) + (Two(b.minute) + (Two(b.second) + "Z"));
    TimeOrder(a, b);
    SameMark("T", s, t);
    TwoOrder(a.day, b.day);
    LessConcat(Two(a.day), "T" + s, Two(b.day), "T" + t);
    TwoOrder(a.month, b.month);
    LessConcat(Two(a.month), Two(a.day) + ("T" + s), Two(b.month), Two(b.day) + ("T" + t));
    FourOrder(a.year, b.year);
    LessConcat(Four(a.year), Two(a.month) + (Two(a.day) + ("T" + s)), Four(b.year), Two(b.month) + (Two(b.day) + ("T" + t)));
  }
}
