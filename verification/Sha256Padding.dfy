/** What the padding of section 5.1.1 of FIPS 180-4 is for: it fills whole blocks and loses nothing. */
module Sha256Padding {
  import opened Sha256
  import ByteNumbers

  /** One more block when the length still fits behind the message, two otherwise. */
  lemma PaddedLength(m: seq<byte>)
    ensures |Padded(m)| == 64 * (|m| / 64 + if |m| % 64 < 56 then 1 else 2)
  {
    hide LengthBytes;
    var k := ZeroCount(|m|);
    assert |Padded(m)| == |m| + 1 + k + 8;
    if |m| % 64 < 56 {
      assert k == 55 - |m| % 64;
    } else {
      assert k == 119 - |m| % 64;
    }
  }

  lemma PowersAre()
    ensures Power256(0) == 1 && Power256(1) == 0x100 && Power256(2) == 0x1_0000 && Power256(3) == 0x100_0000
    ensures Power256(4) == 0x1_0000_0000 && Power256(5) == 0x100_0000_0000 && Power256(6) == 0x1_0000_0000_0000
    ensures Power256(7) == 0x100_0000_0000_0000 && Power256(8) == TWO_TO_THE_64
  {
    assert Power256(2) == 256 * Power256(1);
    assert Power256(4) == 256 * (256 * Power256(2));
    assert Power256(6) == 256 * (256 * Power256(4));
    assert Power256(8) == 256 * (256 * Power256(6));
  }

  /** Each quotient is the next one and a byte. */
  lemma QuotientStep(n: nat, k: nat)
    requires k < 8
    ensures n / Power256(k) == 256 * (n / Power256(k + 1)) + n / Power256(k) % 256
  {
    hide Power256;
    PowersAre();
    match k
    case 0 =>
    case 1 =>
    case 2 =>
    case 3 =>
    case 4 =>
    case 5 =>
    case 6 =>
    case _ =>
  }

  lemma SameByte(x: int, y: int)
    requires 0 <= x < 256 && 0 <= y < 256 && x as bv8 == y as bv8
    ensures x == y
  {
    ByteNumbers.ByteIsNumber(x);
    ByteNumbers.ByteIsNumber(y);
  }

  lemma BytesOfQuotients(a: nat, b: nat, k: nat)
    requires ByteOf(a, k) == ByteOf(b, k)
    ensures a / Power256(k) % 256 == b / Power256(k) % 256
  {
    SameByte(a / Power256(k) % 256, b / Power256(k) % 256);
  }

  lemma {:induction false} SameQuotients(a: nat, b: nat, k: nat)
    requires k <= 8 && a < TWO_TO_THE_64 && b < TWO_TO_THE_64
    requires forall j | k <= j < 8 :: ByteOf(a, j) == ByteOf(b, j)
    ensures a / Power256(k) == b / Power256(k)
    decreases 8 - k
  {
    hide Power256, ByteOf;
    if k == 8 {
      PowersAre();
    } else {
      SameQuotients(a, b, k + 1);
      QuotientStep(a, k);
      QuotientStep(b, k);
      BytesOfQuotients(a, b, k);
    }
  }

  lemma LengthBytesAreInjective(a: nat, b: nat)
    requires a < TWO_TO_THE_64 && b < TWO_TO_THE_64 && LengthBytes(a) == LengthBytes(b)
    ensures a == b
  {
    hide ByteOf, Power256;
    forall j | 0 <= j < 8 ensures ByteOf(a, j) == ByteOf(b, j) {
      assert LengthBytes(a)[7 - j] == LengthBytes(b)[7 - j];
    }
    SameQuotients(a, b, 0);
    PowersAre();
  }

  /** The number a string of bytes denotes, most significant byte first. */
  function Denoted(s: seq<byte>): nat {
    if s == [] then 0 else 256 * Denoted(s[..|s| - 1]) + s[|s| - 1] as nat
  }

  lemma {:induction false} DenotedPrefix(n: nat, k: nat)
    requires k <= 8 && n < TWO_TO_THE_64
    ensures Denoted(LengthBytes(n)[..k]) == n / Power256(8 - k)
  {
    hide Power256, LengthBytes;
    PowersAre();
    if k > 0 {
      DenotedPrefix(n, k - 1);
      var s := LengthBytes(n);
      assert s[..k][..k - 1] == s[..k - 1];
      LengthByte(n, k - 1);
      QuotientStep(n, 8 - k);
    }
  }

  lemma LengthByte(n: nat, i: nat)
    requires i < 8
    ensures LengthBytes(n)[i] as nat == n / Power256(7 - i) % 256
  {
    hide Power256;
    ByteNumbers.ByteIsNumber(n / Power256(7 - i) % 256);
  }

  /** The length field is the 64-bit big-endian number of bits. */
  lemma LengthDenotes(n: nat)
    requires n < TWO_TO_THE_64
    ensures Denoted(LengthBytes(n)) == n
  {
    hide Power256, LengthBytes, Denoted;
    PowersAre();
    DenotedPrefix(n, 8);
    assert LengthBytes(n)[..8] == LengthBytes(n);
  }

  /** Different messages of fewer than 2^64 bits have different padded forms. */
  lemma PaddingIsInjective(a: seq<byte>, b: seq<byte>)
    requires 8 * |a| < TWO_TO_THE_64 && 8 * |b| < TWO_TO_THE_64 && Padded(a) == Padded(b)
    ensures a == b
  {
    hide LengthBytes, ZeroCount, Zeros;
    var p := Padded(a);
    assert p[|p| - 8..] == LengthBytes(8 * |a|);
    assert p[|p| - 8..] == LengthBytes(8 * |b|);
    LengthBytesAreInjective(8 * |a|, 8 * |b|);
    assert p[..|a|] == a && p[..|b|] == b;
  }
}
