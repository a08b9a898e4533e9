/**
  Matching files by SHA-256 (src/detectors/hash_match.c): the lazily loaded list, its one-entry
  fallback, and the size prefilter.
 */
module HashMatch {
  import opened CText
  import opened ScanModel
  import opened Detection
  import opened Signatures
  import Decimal
  import L = Location
  import S = SignatureList
  import Sha256

  const MAX_FILE_SIZE := 67108864

  /** Looking for the signature file: no usable path or no file, a file that cannot be read, or its text. */
  datatype SignatureFile = Absent | Unreadable | Found(text: string)

  /** What opening and reading a file yields: the pieces its bytes arrive in. */
  datatype FileVisit = FileVisit(visit: Visit, content: Option<seq<seq<Sha256.byte>>>)

  const FALLBACK_HASH: cstring := FALLBACK_HIGH + FALLBACK_LOW
  const FALLBACK_HIGH: cstring := "275a021bbfb6489e54d471899f7db9d1"
  const FALLBACK_LOW: cstring := "663fc695ec2fe2a2c4538aabf651fd0f"
  const FALLBACK_NAME: cstring := TEST_FILE + TEST_STRING
  const TEST_FILE: cstring := "EICAR Standard Anti-Virus Test File "
  const TEST_STRING: cstring := "(industry-standard test " + "string, not malware)"

  const FALLBACK := Signature(FALLBACK_HASH, 68, FALLBACK_NAME)

  /** The one entry there is without a list: the standard test file of 68 bytes. */
  lemma FallbackIs()
    ensures FALLBACK == Signature("275a021bbfb6489e54d471899f7db9d1" + "663fc695ec2fe2a2c4538aabf651fd0f", 68,
                                  "EICAR Standard Anti-Virus Test File " + ("(industry-standard test " + "string, not malware)"))
  {
  }

  function HexDigit(d: Sha256.byte): (c: char)
    requires d < 16
    ensures LowerHex(c)
  {
    if d < 10 then ('0' as int + d as int) as char else ('a' as int + (d as int - 10)) as char
  }

  /** The digest in lower-case hexadecimal. */
  function Hex(digest: seq<Sha256.byte>): (s: string)
    ensures |s| == 2 * |digest|
    ensures forall i | 0 <= i < |s| :: LowerHex(s[i])
  {
    if digest == [] then ""
    else Hex(digest[..|digest| - 1]) + [HexDigit(digest[|digest| - 1] / 16), HexDigit(digest[|digest| - 1] % 16)]
  }

  /** The sixteen digits. */
  function Digit(d: Sha256.byte): char {
    if d == 0 then '0' else if d == 1 then '1' else if d == 2 then '2' else if d == 3 then '3'
    else if d == 4 then '4' else if d == 5 then '5' else if d == 6 then '6' else if d == 7 then '7'
    else if d == 8 then '8' else if d == 9 then '9' else if d == 10 then 'a' else if d == 11 then 'b'
    else if d == 12 then 'c' else if d == 13 then 'd' else if d == 14 then 'e' else 'f'
  }

  lemma DigitIs(d: Sha256.byte)
    requires d < 16
    ensures HexDigit(d) == Digit(d)
  {
    assert d == 0 || d == 1 || d == 2 || d == 3 || d == 4 || d == 5 || d == 6 || d == 7
        || d == 8 || d == 9 || d == 10 || d == 11 || d == 12 || d == 13 || d == 14 || d == 15;
  }

  lemma Nibbles(b: Sha256.byte)
    ensures b / 16 == b >> 4 && b % 16 == b & 0x0F && b >> 4 < 16 && b & 0x0F < 16
  {
  }

  /** Two digits for each byte in order, the high half first. */
  lemma {:induction false} HexAt(digest: seq<Sha256.byte>, i: nat)
    requires i < |digest|
    ensures Hex(digest)[2 * i] == Digit(digest[i] >> 4) && Hex(digest)[2 * i + 1] == Digit(digest[i] & 0x0F)
    decreases |digest|
  {
    hide HexDigit, Digit;
    var n := |digest| - 1;
    if i < n {
      HexAt(digest[..n], i);
    } else {
      Nibbles(digest[n]);
      DigitIs(digest[n] >> 4);
      DigitIs(digest[n] & 0x0F);
    }
  }

  function Hash(pieces: seq<seq<Sha256.byte>>): string {
    Hex(Sha256.Digest(Sha256.Flatten(pieces)))
  }

  /** The entries files are matched against: those of the file when it has any, else the fallback. */
  function Known(file: SignatureFile): seq<Signature> {
    if FromFile(file) then EntriesOf(Lines(file.text)) else [FALLBACK]
  }

  /** A file is a match when it is not too large, can be read, and is listed with its size and hash. */
  ghost predicate IsMatch(file: SignatureFile, f: FileVisit) {
    && f.visit.entry.size <= 64 * 1024 * 1024 && f.content.Some?
    && exists e | e in Known(file) :: e.size == f.visit.entry.size && e.hash == Hash(f.content.value)
  }

  const LISTED: cstring := "matches signature list entry: "
  const DEMONSTRATION: cstring := " - demonstration match, "
  const NO_SOURCE: cstring := "not a real threat-intelligence source"

  function MatchText(title: cstring, hash: cstring, loaded: bool): cstring {
    LISTED + title + " (sha256=" + hash + ")" + if loaded then "" else DEMONSTRATION + NO_SOURCE
  }

  /** What a finding says: the entry's name, the hash, and whether the match is only a demonstration. */
  lemma MatchWords(title: cstring, hash: cstring, loaded: bool)
    ensures MatchText(title, hash, loaded)
         == "matches signature list entry: " + title + " (sha256=" + hash + ")"
            + if loaded then "" else " - demonstration match, " + "not a real threat-intelligence source"
  {
  }

  predicate FromFile(file: SignatureFile) {
    file.Found? && EntriesOf(Lines(file.text)) != []
  }

  lemma {:induction false} EntriesIff(lines: seq<string>)
    ensures EntriesOf(lines) != [] <==> exists i | 0 <= i < |lines| :: ParseLine(lines[i]).Entry?
    decreases |lines|
  {
    hide ParseLine;
    if lines != [] {
      EntriesIff(lines[..|lines| - 1]);
    }
  }

  /** The list is the file's as soon as one of its lines is an entry; otherwise it is the one entry built in. */
  lemma KnownIs(file: SignatureFile)
    ensures if file.Found? && exists i | 0 <= i < |Lines(file.text)| :: ParseLine(Lines(file.text)[i]).Entry?
            then FromFile(file) && Known(file) == EntriesOf(Lines(file.text))
            else !FromFile(file) && Known(file) == [FALLBACK]
  {
    hide ParseLine, Lines, EntriesOf;
    if file.Found? {
      EntriesIff(Lines(file.text));
    }
  }

  const MATCHED: cstring := "Matched against "
  const LOADED: cstring := " signature(s) loaded from "
  const NOT_SHIPPED: cstring := " - USB Sentinel does not "
  const VOUCHED: cstring := "ship, vet, or vouch for this file's "
  const VERIFY: cstring := "contents; verify its provenance yourself"
  const EXAMPLE: cstring := "NON-PRODUCTION EXAMPLE: matched "
  const HARDCODED: cstring := "against 1 hardcoded test hash "
  const EICAR: cstring := "(EICAR only) - this is NOT "
  const NO_DATABASE: cstring := "a real malware signature database"

  function DisclaimerText(fromFile: bool, count: nat, filename: cstring): cstring {
    NoNul(count);
    var number: cstring := Decimal.IntText(count);
    Truncated(if fromFile then MATCHED + number + LOADED + filename + NOT_SHIPPED + VOUCHED + VERIFY
              else EXAMPLE + HARDCODED + EICAR + NO_DATABASE, 256)
  }

  lemma NoNul(n: nat)
    ensures NUL !in Decimal.IntText(n)
  {
    hide Decimal.Digits;
    forall c | c in Decimal.IntText(n) ensures c != NUL {
      var k :| 0 <= k < |Decimal.Digits(n)| && Decimal.Digits(n)[k] == c;
      assert Decimal.IsDigit(Decimal.Digits(n)[k]);
    }
  }

  /** What the check says about its own signatures. */
  function Disclaimer(file: SignatureFile, filename: cstring): cstring {
    DisclaimerText(FromFile(file), |Known(file)|, filename)
  }

  /** The disclaimer names the file and the number of its signatures, or owns up to the one built in. */
  lemma DisclaimerWords(file: SignatureFile, filename: cstring)
    ensures FromFile(file) ==>
              var told := "Matched against " + Decimal.IntText(|EntriesOf(Lines(file.text))|) + " signature(s) loaded from "
                + filename + " - USB Sentinel does not " + "ship, vet, or vouch for this file's "
                + "contents; verify its provenance yourself";
              Disclaimer(file, filename) == if |told| <= 255 then told else told[..255]
    ensures !FromFile(file) ==>
              Disclaimer(file, filename) == "NON-PRODUCTION EXAMPLE: matched " + "against 1 hardcoded test hash "
                + "(EICAR only) - this is NOT " + "a real malware signature database"
  {
    hide Decimal.IntText, EntriesOf, Lines;
  }

  lemma SameCount(a: seq<Signature>, b: seq<Signature>)
    requires multiset(a) == multiset(b)
    ensures |a| == |b|
  {
    assert |a| == |multiset(a)| && |b| == |multiset(b)|;
  }

  class Detector {
    const file: SignatureFile
    const filename: cstring
    var list: S.List
    var loadAttempted: bool
    var loadedFromFile: bool
    var check: Check

    ghost predicate Valid()
      reads this, list
    {
      && S.SortedBySize(list.entries)
      && (loadAttempted ==>
            && (loadedFromFile <==> FromFile(file))
            && (loadedFromFile ==> multiset(list.entries) == multiset(Known(file))))
      && (!loadAttempted ==> list.entries == [] && !loadedFromFile)
    }

    constructor (signatures: SignatureFile, source: cstring)
      ensures Valid() && file == signatures && filename == source && check == InitialCheck("hash_match_example") && fresh(list)
    {
      file, filename, loadAttempted, loadedFromFile := signatures, source, false, false;
      list := new S.List();
      check := InitialCheck("hash_match_example");
    }

    /** ensure_signatures_loaded: the file is looked at once. */
    method EnsureLoaded()
      requires Valid()
      modifies this`loadAttempted, this`loadedFromFile, list
      ensures Valid() && loadAttempted
    {
      if loadAttempted {
        return;
      }
      loadAttempted := true;
      if !file.Found? {
        return;
      }
      var malformed := list.Load(file.text);
      assert [] + EntriesOf(Lines(file.text)) == EntriesOf(Lines(file.text));
      if |list.entries| == 0 {
        assert |multiset(list.entries)| == 0;
        return;
      }
      assert |multiset(list.entries)| > 0;
      loadedFromFile := true;
    }

    /** set_disclaimer. */
    method SetDisclaimer()
      requires Valid()
      modifies this`loadAttempted, this`loadedFromFile, this`check, list
      ensures Valid() && loadAttempted && check == old(check).(message := Disclaimer(file, filename))
    {
      hide DisclaimerText, FALLBACK, EntriesOf, Lines, S.SortedBySize;
      EnsureLoaded();
      if loadedFromFile {
        SameCount(list.entries, Known(file));
        check := check.(message := DisclaimerText(true, |list.entries|, filename));
      } else {
        check := check.(message := DisclaimerText(false, 1, filename));
      }
    }

    /** usbs_hash_match_lookup. */
    method Lookup(size: nat, hash: string) returns (title: Option<cstring>)
      requires Valid() && loadAttempted
      ensures title.Some? <==> S.Listed(Known(file), size, hash)
      ensures title.Some? ==> exists e | e in Known(file) :: S.Matches(e, size, hash) && e.name == title.value
    {
      hide FALLBACK, EntriesOf, Lines, S.SortedBySize;
      if loadedFromFile {
        S.SameListed(list.entries, Known(file));
        title := list.Lookup(size, hash);
        if title.Some? {
          ghost var e :| e in list.entries && S.Matches(e, size, hash) && e.name == title.value;
          assert e in multiset(Known(file));
        }
        return;
      }
      assert FALLBACK in Known(file);
      if size == FALLBACK.size && hash == FALLBACK.hash {
        assert S.Matches(FALLBACK, size, hash);
        return Some(FALLBACK.name);
      }
      return None;
    }

    /**
      hash_match_on_file: whether or not the prefilter opens it, a file is reported exactly when it
      is a match; nothing else about the findings changes.
     */
    method OnFile(ctx: Context, f: FileVisit)
      requires Valid()
      modifies this`loadAttempted, this`loadedFromFile, this`check, list
      ensures Valid() && loadAttempted
      ensures check.(findings := old(check).findings) == old(check).(message := Disclaimer(file, filename))
      ensures !IsMatch(file, f) ==> check.findings == old(check.findings)
      ensures IsMatch(file, f) ==>
                exists e | e in Known(file) ::
                  && e.size == f.visit.entry.size && e.hash == Hash(f.content.value)
                  && check.findings == old(check.findings)
                     + [NewFinding(High, L.Relative(ctx.volume, f.visit.path),
                                   MatchText(e.name, Hash(f.content.value), loadedFromFile))]
    {
      hide Sha256.Digest, Hash, MatchText, Known, Disclaimer, S.SortedBySize;
      SetDisclaimer();
      var size := f.visit.entry.size;
      if size > MAX_FILE_SIZE {
        return;
      }
      var plausible := SizePlausible(size);
      if !plausible || f.content.None? {
        return;
      }
      var hash := HashOf(f.content.value);
      var title := Lookup(size, hash);
      if title.Some? {
        check := Push(check, NewFinding(High, L.Relative(ctx.volume, f.visit.path),
                                        MatchText(title.value, hash, loadedFromFile)));
      }
    }

    /** The prefilter: no file is opened whose size matches no entry. */
    method SizePlausible(size: nat) returns (r: bool)
      requires Valid() && loadAttempted
      ensures r == S.SizeListed(Known(file), size)
    {
      hide FALLBACK, EntriesOf, Lines, S.SortedBySize;
      if loadedFromFile {
        S.SameListed(list.entries, Known(file));
        r := list.HasSize(size);
      } else {
        assert FALLBACK in Known(file);
        r := size == FALLBACK.size;
      }
    }
  }

  method HashOf(pieces: seq<seq<Sha256.byte>>) returns (hash: string)
    ensures hash == Hash(pieces)
  {
    hide Sha256.Digest;
    var digest := Sha256.HashChunks(pieces);
    hash := "";
    for i := 0 to 32
      invariant hash == Hex(digest[..i])
      invariant digest[..] == Sha256.Digest(Sha256.Flatten(pieces))
    {
      assert digest[..i + 1][..i] == digest[..i];
      hash := hash + [HexDigit(digest[i] / 16), HexDigit(digest[i] % 16)];
    }
    assert digest[..32] == digest[..];
  }
}
