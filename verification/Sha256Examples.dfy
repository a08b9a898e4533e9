/** The two examples of SHA-256 that accompany FIPS 180-4: "abc" in one block, and 56 letters in two. */
module Sha256Examples {
  import opened Sha256
  import opened Sha256Constants
  import opened Sha256Padding
  import opened Sha256Round

  function Word(n: nat): word
    requires n < 0x1_0000_0000
  {
    n as word
  }

  function Octet(n: nat): byte
    requires n < 256
  {
    n as byte
  }

  lemma ConstantIs(t: nat, k: nat)
    requires t < 64 && RoundConstant(t) == k
    ensures k < 0x1_0000_0000 && RoundConstants()[t] == Word(k)
  {
    hide RoundConstant;
  }

  lemma InitialIs(t: nat, h: nat)
    requires t < 8 && InitialWord(t) == h
    ensures h < 0x1_0000_0000 && InitialState()[t] == Word(h)
  {
    hide InitialWord;
  }

  lemma LengthByteIs(bits: nat, i: nat, b: nat)
    requires i < 8 && bits / Power256(7 - i) % 256 == b
    ensures b < 256 && LengthBytes(bits)[i] == Octet(b)
  {
    hide Power256;
  }

  lemma FirstWord(block: seq<byte>, t: nat, b0: byte, b1: byte, b2: byte, b3: byte)
    requires |block| == 64 && t < 16
    requires block[4 * t] == b0 && block[4 * t + 1] == b1 && block[4 * t + 2] == b2 && block[4 * t + 3] == b3
    ensures W(block, t) == BigEndianWord(b0, b1, b2, b3)
  {
    hide BigEndianWord, Scheduled;
  }

  lemma NextWord(block: seq<byte>, t: nat, w2: word, w7: word, w15: word, w16: word)
    requires |block| == 64 && 16 <= t
    requires W(block, t - 2) == w2 && W(block, t - 7) == w7 && W(block, t - 15) == w15 && W(block, t - 16) == w16
    ensures W(block, t) == Scheduled(w2, w7, w15, w16)
  {
    hide Scheduled;
  }

  lemma Step(v: Vars, block: seq<byte>, t: nat, current: Vars, k: word, w: word, next: Vars)
    requires |block| == 64 && t < 64
    requires Rounds(v, block, t) == current && RoundConstants()[t] == k && W(block, t) == w
    requires Round(current, k, w) == next
    ensures Rounds(v, block, t + 1) == next
  {
    hide Round, W, RoundConstants;
  }

  lemma OneBlock(p: seq<byte>)
    requires |p| == 64
    ensures HashBlocks(p) == Compress(InitialState(), p)
  {
    hide Compress, InitialState;
    assert p[..0] == [] && p[0..] == p;
  }

  lemma TwoBlocks(p: seq<byte>)
    requires |p| == 128
    ensures HashBlocks(p) == Compress(Compress(InitialState(), p[..64]), p[64..])
  {
    hide Compress, InitialState;
    OneBlock(p[..64]);
  }

  lemma BytesOfFirst(s: seq<word>, n: nat)
    requires n < |s|
    ensures Bytes(s[..n + 1]) == Bytes(s[..n]) + WordBytes(s[n])
  {
    hide WordBytes, Bytes;
    assert s[..n + 1] == s[..n] + [s[n]];
    BytesSnoc(s[..n], s[n]);
  }

  lemma EightWords(s: seq<word>)
    requires |s| == 8
    ensures Bytes(s) == WordBytes(s[0]) + WordBytes(s[1]) + WordBytes(s[2]) + WordBytes(s[3])
                        + WordBytes(s[4]) + WordBytes(s[5]) + WordBytes(s[6]) + WordBytes(s[7])
  {
    hide WordBytes, Bytes;
    BytesOfNothing();
    assert s[..0] == [] && s[..8] == s && [] + WordBytes(s[0]) == WordBytes(s[0]);
    forall n | 0 <= n < 8 ensures Bytes(s[..n + 1]) == Bytes(s[..n]) + WordBytes(s[n]) {
      BytesOfFirst(s, n);
    }
    assert Bytes(s[..4]) == WordBytes(s[0]) + WordBytes(s[1]) + WordBytes(s[2]) + WordBytes(s[3]);
  }

  // ---- the constants as words ----

  lemma Words0()
    ensures Word(0x428a2f98) == 0x428a2f98
    ensures Word(0x71374491) == 0x71374491
    ensures Word(0xb5c0fbcf) == 0xb5c0fbcf
    ensures Word(0xe9b5dba5) == 0xe9b5dba5
    ensures Word(0x3956c25b) == 0x3956c25b
    ensures Word(0x59f111f1) == 0x59f111f1
    ensures Word(0x923f82a4) == 0x923f82a4
    ensures Word(0xab1c5ed5) == 0xab1c5ed5
  {
  }

  lemma Words8()
    ensures Word(0xd807aa98) == 0xd807aa98
    ensures Word(0x12835b01) == 0x12835b01
    ensures Word(0x243185be) == 0x243185be
    ensures Word(0x550c7dc3) == 0x550c7dc3
    ensures Word(0x72be5d74) == 0x72be5d74
    ensures Word(0x80deb1fe) == 0x80deb1fe
    ensures Word(0x9bdc06a7) == 0x9bdc06a7
    ensures Word(0xc19bf174) == 0xc19bf174
  {
  }

  lemma Words16()
    ensures Word(0xe49b69c1) == 0xe49b69c1
    ensures Word(0xefbe4786) == 0xefbe4786
    ensures Word(0x0fc19dc6) == 0x0fc19dc6
    ensures Word(0x240ca1cc) == 0x240ca1cc
    ensures Word(0x2de92c6f) == 0x2de92c6f
    ensures Word(0x4a7484aa) == 0x4a7484aa
    ensures Word(0x5cb0a9dc) == 0x5cb0a9dc
    ensures Word(0x76f988da) == 0x76f988da
  {
  }

  lemma Words24()
    ensures Word(0x983e5152) == 0x983e5152
    ensures Word(0xa831c66d) == 0xa831c66d
    ensures Word(0xb00327c8) == 0xb00327c8
    ensures Word(0xbf597fc7) == 0xbf597fc7
    ensures Word(0xc6e00bf3) == 0xc6e00bf3
    ensures Word(0xd5a79147) == 0xd5a79147
    ensures Word(0x06ca6351) == 0x06ca6351
    ensures Word(0x14292967) == 0x14292967
  {
  }

  lemma Words32()
    ensures Word(0x27b70a85) == 0x27b70a85
    ensures Word(0x2e1b2138) == 0x2e1b2138
    ensures Word(0x4d2c6dfc) == 0x4d2c6dfc
    ensures Word(0x53380d13) == 0x53380d13
    ensures Word(0x650a7354) == 0x650a7354
    ensures Word(0x766a0abb) == 0x766a0abb
    ensures Word(0x81c2c92e) == 0x81c2c92e
    ensures Word(0x92722c85) == 0x92722c85
  {
  }

  lemma Words40()
    ensures Word(0xa2bfe8a1) == 0xa2bfe8a1
    ensures Word(0xa81a664b) == 0xa81a664b
    ensures Word(0xc24b8b70) == 0xc24b8b70
    ensures Word(0xc76c51a3) == 0xc76c51a3
    ensures Word(0xd192e819) == 0xd192e819
    ensures Word(0xd6990624) == 0xd6990624
    ensures Word(0xf40e3585) == 0xf40e3585
    ensures Word(0x106aa070) == 0x106aa070
  {
  }

  lemma Words48()
    ensures Word(0x19a4c116) == 0x19a4c116
    ensures Word(0x1e376c08) == 0x1e376c08
    ensures Word(0x2748774c) == 0x2748774c
    ensures Word(0x34b0bcb5) == 0x34b0bcb5
    ensures Word(0x391c0cb3) == 0x391c0cb3
    ensures Word(0x4ed8aa4a) == 0x4ed8aa4a
    ensures Word(0x5b9cca4f) == 0x5b9cca4f
    ensures Word(0x682e6ff3) == 0x682e6ff3
  {
  }

  lemma Words56()
    ensures Word(0x748f82ee) == 0x748f82ee
    ensures Word(0x78a5636f) == 0x78a5636f
    ensures Word(0x84c87814) == 0x84c87814
    ensures Word(0x8cc70208) == 0x8cc70208
    ensures Word(0x90befffa) == 0x90befffa
    ensures Word(0xa4506ceb) == 0xa4506ceb
    ensures Word(0xbef9a3f7) == 0xbef9a3f7
    ensures Word(0xc67178f2) == 0xc67178f2
  {
  }

  lemma Constants0()
    ensures RoundConstants()[0] == 0x428a2f98
    ensures RoundConstants()[1] == 0x71374491
    ensures RoundConstants()[2] == 0xb5c0fbcf
    ensures RoundConstants()[3] == 0xe9b5dba5
    ensures RoundConstants()[4] == 0x3956c25b
    ensures RoundConstants()[5] == 0x59f111f1
    ensures RoundConstants()[6] == 0x923f82a4
    ensures RoundConstants()[7] == 0xab1c5ed5
  {
    hide RoundConstants, Word;
    Words0();
    ConstantIs(0, 0x428a2f98);
    ConstantIs(1, 0x71374491);
    ConstantIs(2, 0xb5c0fbcf);
    ConstantIs(3, 0xe9b5dba5);
    ConstantIs(4, 0x3956c25b);
    ConstantIs(5, 0x59f111f1);
    ConstantIs(6, 0x923f82a4);
    ConstantIs(7, 0xab1c5ed5);
  }

  lemma Constants8()
    ensures RoundConstants()[8] == 0xd807aa98
    ensures RoundConstants()[9] == 0x12835b01
    ensures RoundConstants()[10] == 0x243185be
    ensures RoundConstants()[11] == 0x550c7dc3
    ensures RoundConstants()[12] == 0x72be5d74
    ensures RoundConstants()[13] == 0x80deb1fe
    ensures RoundConstants()[14] == 0x9bdc06a7
    ensures RoundConstants()[15] == 0xc19bf174
  {
    hide RoundConstants, Word;
    Words8();
    ConstantIs(8, 0xd807aa98);
    ConstantIs(9, 0x12835b01);
    ConstantIs(10, 0x243185be);
    ConstantIs(11, 0x550c7dc3);
    ConstantIs(12, 0x72be5d74);
    ConstantIs(13, 0x80deb1fe);
    ConstantIs(14, 0x9bdc06a7);
    ConstantIs(15, 0xc19bf174);
  }

  lemma Constants16()
    ensures RoundConstants()[16] == 0xe49b69c1
    ensures RoundConstants()[17] == 0xefbe4786
    ensures RoundConstants()[18] == 0x0fc19dc6
    ensures RoundConstants()[19] == 0x240ca1cc
    ensures RoundConstants()[20] == 0x2de92c6f
    ensures RoundConstants()[21] == 0x4a7484aa
    ensures RoundConstants()[22] == 0x5cb0a9dc
    ensures RoundConstants()[23] == 0x76f988da
  {
    hide RoundConstants, Word;
    Words16();
    ConstantIs(16, 0xe49b69c1);
    ConstantIs(17, 0xefbe4786);
    ConstantIs(18, 0x0fc19dc6);
    ConstantIs(19, 0x240ca1cc);
    ConstantIs(20, 0x2de92c6f);
    ConstantIs(21, 0x4a7484aa);
    ConstantIs(22, 0x5cb0a9dc);
    ConstantIs(23, 0x76f988da);
  }

  lemma Constants24()
    ensures RoundConstants()[24] == 0x983e5152
    ensures RoundConstants()[25] == 0xa831c66d
    ensures RoundConstants()[26] == 0xb00327c8
    ensures RoundConstants()[27] == 0xbf597fc7
    ensures RoundConstants()[28] == 0xc6e00bf3
    ensures RoundConstants()[29] == 0xd5a79147
    ensures RoundConstants()[30] == 0x06ca6351
    ensures RoundConstants()[31] == 0x14292967
  {
    hide RoundConstants, Word;
    Words24();
    ConstantIs(24, 0x983e5152);
    ConstantIs(25, 0xa831c66d);
    ConstantIs(26, 0xb00327c8);
    ConstantIs(27, 0xbf597fc7);
    ConstantIs(28, 0xc6e00bf3);
    ConstantIs(29, 0xd5a79147);
    ConstantIs(30, 0x06ca6351);
    ConstantIs(31, 0x14292967);
  }

  lemma Constants32()
    ensures RoundConstants()[32] == 0x27b70a85
    ensures RoundConstants()[33] == 0x2e1b2138
    ensures RoundConstants()[34] == 0x4d2c6dfc
    ensures RoundConstants()[35] == 0x53380d13
    ensures RoundConstants()[36] == 0x650a7354
    ensures RoundConstants()[37] == 0x766a0abb
    ensures RoundConstants()[38] == 0x81c2c92e
    ensures RoundConstants()[39] == 0x92722c85
  {
    hide RoundConstants, Word;
    Words32();
    ConstantIs(32, 0x27b70a85);
    ConstantIs(33, 0x2e1b2138);
    ConstantIs(34, 0x4d2c6dfc);
    ConstantIs(35, 0x53380d13);
    ConstantIs(36, 0x650a7354);
    ConstantIs(37, 0x766a0abb);
    ConstantIs(38, 0x81c2c92e);
    ConstantIs(39, 0x92722c85);
  }

  lemma Constants40()
    ensures RoundConstants()[40] == 0xa2bfe8a1
    ensures RoundConstants()[41] == 0xa81a664b
    ensures RoundConstants()[42] == 0xc24b8b70
    ensures RoundConstants()[43] == 0xc76c51a3
    ensures RoundConstants()[44] == 0xd192e819
    ensures RoundConstants()[45] == 0xd6990624
    ensures RoundConstants()[46] == 0xf40e3585
    ensures RoundConstants()[47] == 0x106aa070
  {
    hide RoundConstants, Word;
    Words40();
    ConstantIs(40, 0xa2bfe8a1);
    ConstantIs(41, 0xa81a664b);
    ConstantIs(42, 0xc24b8b70);
    ConstantIs(43, 0xc76c51a3);
    ConstantIs(44, 0xd192e819);
    ConstantIs(45, 0xd6990624);
    ConstantIs(46, 0xf40e3585);
    ConstantIs(47, 0x106aa070);
  }

  lemma Constants48()
    ensures RoundConstants()[48] == 0x19a4c116
    ensures RoundConstants()[49] == 0x1e376c08
    ensures RoundConstants()[50] == 0x2748774c
    ensures RoundConstants()[51] == 0x34b0bcb5
    ensures RoundConstants()[52] == 0x391c0cb3
    ensures RoundConstants()[53] == 0x4ed8aa4a
    ensures RoundConstants()[54] == 0x5b9cca4f
    ensures RoundConstants()[55] == 0x682e6ff3
  {
    hide RoundConstants, Word;
    Words48();
    ConstantIs(48, 0x19a4c116);
    ConstantIs(49, 0x1e376c08);
    ConstantIs(50, 0x2748774c);
    ConstantIs(51, 0x34b0bcb5);
    ConstantIs(52, 0x391c0cb3);
    ConstantIs(53, 0x4ed8aa4a);
    ConstantIs(54, 0x5b9cca4f);
    ConstantIs(55, 0x682e6ff3);
  }

  lemma Constants56()
    ensures RoundConstants()[56] == 0x748f82ee
    ensures RoundConstants()[57] == 0x78a5636f
    ensures RoundConstants()[58] == 0x84c87814
    ensures RoundConstants()[59] == 0x8cc70208
    ensures RoundConstants()[60] == 0x90befffa
    ensures RoundConstants()[61] == 0xa4506ceb
    ensures RoundConstants()[62] == 0xbef9a3f7
    ensures RoundConstants()[63] == 0xc67178f2
  {
    hide RoundConstants, Word;
    Words56();
    ConstantIs(56, 0x748f82ee);
    ConstantIs(57, 0x78a5636f);
    ConstantIs(58, 0x84c87814);
    ConstantIs(59, 0x8cc70208);
    ConstantIs(60, 0x90befffa);
    ConstantIs(61, 0xa4506ceb);
    ConstantIs(62, 0xbef9a3f7);
    ConstantIs(63, 0xc67178f2);
  }

  lemma InitialWords()
    ensures Word(0x6a09e667) == 0x6a09e667
    ensures Word(0xbb67ae85) == 0xbb67ae85
    ensures Word(0x3c6ef372) == 0x3c6ef372
    ensures Word(0xa54ff53a) == 0xa54ff53a
    ensures Word(0x510e527f) == 0x510e527f
    ensures Word(0x9b05688c) == 0x9b05688c
    ensures Word(0x1f83d9ab) == 0x1f83d9ab
    ensures Word(0x5be0cd19) == 0x5be0cd19
  {
  }

  lemma Initial()
    ensures InitialState() == [0x6a09e667, 0xbb67ae85, 0x3c6ef372, 0xa54ff53a, 0x510e527f, 0x9b05688c, 0x1f83d9ab, 0x5be0cd19]
  {
    hide InitialState, Word;
    InitialWords();
    InitialIs(0, 0x6a09e667);
    InitialIs(1, 0xbb67ae85);
    InitialIs(2, 0x3c6ef372);
    InitialIs(3, 0xa54ff53a);
    InitialIs(4, 0x510e527f);
    InitialIs(5, 0x9b05688c);
    InitialIs(6, 0x1f83d9ab);
    InitialIs(7, 0x5be0cd19);
  }

  lemma Octets()
    ensures Octet(0) == 0 && Octet(1) == 1 && Octet(0x18) == 0x18 && Octet(0xc0) == 0xc0
  {
  }

  lemma Length24()
    ensures LengthBytes(24) == [0x00, 0x00, 0x00, 0x00, 0x00, 0x00, 0x00, 0x18]
  {
    hide LengthBytes, Power256, Octet;
    PowersAre();
    Octets();
    LengthByteIs(24, 0, 0);
    LengthByteIs(24, 1, 0);
    LengthByteIs(24, 2, 0);
    LengthByteIs(24, 3, 0);
    LengthByteIs(24, 4, 0);
    LengthByteIs(24, 5, 0);
    LengthByteIs(24, 6, 0);
    LengthByteIs(24, 7, 24);
  }

  lemma Length448()
    ensures LengthBytes(448) == [0x00, 0x00, 0x00, 0x00, 0x00, 0x00, 0x01, 0xc0]
  {
    hide LengthBytes, Power256, Octet;
    PowersAre();
    Octets();
    LengthByteIs(448, 0, 0);
    LengthByteIs(448, 1, 0);
    LengthByteIs(448, 2, 0);
    LengthByteIs(448, 3, 0);
    LengthByteIs(448, 4, 0);
    LengthByteIs(448, 5, 0);
    LengthByteIs(448, 6, 1);
    LengthByteIs(448, 7, 192);
  }

  /** The padded message byte by byte, its length field given. */
  lemma PaddedIs(m: seq<byte>, zeros: nat, length: seq<byte>)
    requires zeros == ZeroCount(|m|) && length == LengthBytes(8 * |m| % TWO_TO_THE_64)
    ensures Padded(m) == m + [0x80] + Zeros(zeros) + length && |length| == 8
  {
    hide LengthBytes, ZeroCount;
  }

  // ---- "abc" ----

  ghost predicate IsAbc(block: seq<byte>)
    requires |block| == 64
  {
    && block[0] == 0x61 && block[1] == 0x62 && block[2] == 0x63 && block[3] == 0x80
    && block[4] == 0x00 && block[5] == 0x00 && block[6] == 0x00 && block[7] == 0x00
    && block[8] == 0x00 && block[9] == 0x00 && block[10] == 0x00 && block[11] == 0x00
    && block[12] == 0x00 && block[13] == 0x00 && block[14] == 0x00 && block[15] == 0x00
    && block[16] == 0x00 && block[17] == 0x00 && block[18] == 0x00 && block[19] == 0x00
    && block[20] == 0x00 && block[21] == 0x00 && block[22] == 0x00 && block[23] == 0x00
    && block[24] == 0x00 && block[25] == 0x00 && block[26] == 0x00 && block[27] == 0x00
    && block[28] == 0x00 && block[29] == 0x00 && block[30] == 0x00 && block[31] == 0x00
    && block[32] == 0x00 && block[33] == 0x00 && block[34] == 0x00 && block[35] == 0x00
    && block[36] == 0x00 && block[37] == 0x00 && block[38] == 0x00 && block[39] == 0x00
    && block[40] == 0x00 && block[41] == 0x00 && block[42] == 0x00 && block[43] == 0x00
    && block[44] == 0x00 && block[45] == 0x00 && block[46] == 0x00 && block[47] == 0x00
    && block[48] == 0x00 && block[49] == 0x00 && block[50] == 0x00 && block[51] == 0x00
    && block[52] == 0x00 && block[53] == 0x00 && block[54] == 0x00 && block[55] == 0x00
    && block[56] == 0x00 && block[57] == 0x00 && block[58] == 0x00 && block[59] == 0x00
    && block[60] == 0x00 && block[61] == 0x00 && block[62] == 0x00 && block[63] == 0x18
  }

  lemma AbcWords0(block: seq<byte>)
    requires |block| == 64 && IsAbc(block)
    ensures W(block, 0) == 0x61626380
    ensures W(block, 1) == 0x00000000
    ensures W(block, 2) == 0x00000000
    ensures W(block, 3) == 0x00000000
    ensures W(block, 4) == 0x00000000
    ensures W(block, 5) == 0x00000000
    ensures W(block, 6) == 0x00000000
    ensures W(block, 7) == 0x00000000
    ensures W(block, 8) == 0x00000000
    ensures W(block, 9) == 0x00000000
    ensures W(block, 10) == 0x00000000
    ensures W(block, 11) == 0x00000000
    ensures W(block, 12) == 0x00000000
    ensures W(block, 13) == 0x00000000
    ensures W(block, 14) == 0x00000000
    ensures W(block, 15) == 0x00000018
  {
    hide W;
    FirstWord(block, 0, 0x61, 0x62, 0x63, 0x80);
    FirstWord(block, 1, 0x00, 0x00, 0x00, 0x00);
    FirstWord(block, 2, 0x00, 0x00, 0x00, 0x00);
    FirstWord(block, 3, 0x00, 0x00, 0x00, 0x00);
    FirstWord(block, 4, 0x00, 0x00, 0x00, 0x00);
    FirstWord(block, 5, 0x00, 0x00, 0x00, 0x00);
    FirstWord(block, 6, 0x00, 0x00, 0x00, 0x00);
    FirstWord(block, 7, 0x00, 0x00, 0x00, 0x00);
    FirstWord(block, 8, 0x00, 0x00, 0x00, 0x00);
    FirstWord(block, 9, 0x00, 0x00, 0x00, 0x00);
    FirstWord(block, 10, 0x00, 0x00, 0x00, 0x00);
    FirstWord(block, 11, 0x00, 0x00, 0x00, 0x00);
    FirstWord(block, 12, 0x00, 0x00, 0x00, 0x00);
    FirstWord(block, 13, 0x00, 0x00, 0x00, 0x00);
    FirstWord(block, 14, 0x00, 0x00, 0x00, 0x00);
    FirstWord(block, 15, 0x00, 0x00, 0x00, 0x18);
  }

  lemma AbcWords16(block: seq<byte>)
    requires |block| == 64 && IsAbc(block)
    ensures W(block, 16) == 0x61626380
    ensures W(block, 17) == 0x000f0000
    ensures W(block, 18) == 0x7da86405
    ensures W(block, 19) == 0x600003c6
    ensures W(block, 20) == 0x3e9d7b78
    ensures W(block, 21) == 0x0183fc00
    ensures W(block, 22) == 0x12dcbfdb
    ensures W(block, 23) == 0xe2e2c38e
    ensures W(block, 24) == 0xc8215c1a
    ensures W(block, 25) == 0xb73679a2
    ensures W(block, 26) == 0xe5bc3909
    ensures W(block, 27) == 0x32663c5b
    ensures W(block, 28) == 0x9d209d67
    ensures W(block, 29) == 0xec8726cb
    ensures W(block, 30) == 0x702138a4
    ensures W(block, 31) == 0xd3b7973b
  {
    hide W, IsAbc;
    AbcWords0(block);
    NextWord(block, 16, 0x00000000, 0x00000000, 0x00000000, 0x61626380);
    NextWord(block, 17, 0x00000018, 0x00000000, 0x00000000, 0x00000000);
    NextWord(block, 18, 0x61626380, 0x00000000, 0x00000000, 0x00000000);
    NextWord(block, 19, 0x000f0000, 0x00000000, 0x00000000, 0x00000000);
    NextWord(block, 20, 0x7da86405, 0x00000000, 0x00000000, 0x00000000);
    NextWord(block, 21, 0x600003c6, 0x00000000, 0x00000000, 0x00000000);
    NextWord(block, 22, 0x3e9d7b78, 0x00000018, 0x00000000, 0x00000000);
    NextWord(block, 23, 0x0183fc00, 0x61626380, 0x00000000, 0x00000000);
    NextWord(block, 24, 0x12dcbfdb, 0x000f0000, 0x00000000, 0x00000000);
    NextWord(block, 25, 0xe2e2c38e, 0x7da86405, 0x00000000, 0x00000000);
    NextWord(block, 26, 0xc8215c1a, 0x600003c6, 0x00000000, 0x00000000);
    NextWord(block, 27, 0xb73679a2, 0x3e9d7b78, 0x00000000, 0x00000000);
    NextWord(block, 28, 0xe5bc3909, 0x0183fc00, 0x00000000, 0x00000000);
    NextWord(block, 29, 0x32663c5b, 0x12dcbfdb, 0x00000000, 0x00000000);
    NextWord(block, 30, 0x9d209d67, 0xe2e2c38e, 0x00000018, 0x00000000);
    NextWord(block, 31, 0xec8726cb, 0xc8215c1a, 0x61626380, 0x00000018);
  }

  lemma AbcWords32(block: seq<byte>)
    requires |block| == 64 && IsAbc(block)
    ensures W(block, 32) == 0x93f5997f
    ensures W(block, 33) == 0x3b68ba73
    ensures W(block, 34) == 0xaff4ffc1
    ensures W(block, 35) == 0xf10a5c62
    ensures W(block, 36) == 0x0a8b3996
    ensures W(block, 37) == 0x72af830a
    ensures W(block, 38) == 0x9409e33e
    ensures W(block, 39) == 0x24641522
    ensures W(block, 40) == 0x9f47bf94
    ensures W(block, 41) == 0xf0a64f5a
    ensures W(block, 42) == 0x3e246a79
    ensures W(block, 43) == 0x27333ba3
    ensures W(block, 44) == 0x0c4763f2
    ensures W(block, 45) == 0x840abf27
    ensures W(block, 46) == 0x7a290d5d
    ensures W(block, 47) == 0x065c43da
  {
    hide W, IsAbc;
    AbcWords16(block);
    NextWord(block, 32, 0x702138a4, 0xb73679a2, 0x000f0000, 0x61626380);
    NextWord(block, 33, 0xd3b7973b, 0xe5bc3909, 0x7da86405, 0x000f0000);
    NextWord(block, 34, 0x93f5997f, 0x32663c5b, 0x600003c6, 0x7da86405);
    NextWord(block, 35, 0x3b68ba73, 0x9d209d67, 0x3e9d7b78, 0x600003c6);
    NextWord(block, 36, 0xaff4ffc1, 0xec8726cb, 0x0183fc00, 0x3e9d7b78);
    NextWord(block, 37, 0xf10a5c62, 0x702138a4, 0x12dcbfdb, 0x0183fc00);
    NextWord(block, 38, 0x0a8b3996, 0xd3b7973b, 0xe2e2c38e, 0x12dcbfdb);
    NextWord(block, 39, 0x72af830a, 0x93f5997f, 0xc8215c1a, 0xe2e2c38e);
    NextWord(block, 40, 0x9409e33e, 0x3b68ba73, 0xb73679a2, 0xc8215c1a);
    NextWord(block, 41, 0x24641522, 0xaff4ffc1, 0xe5bc3909, 0xb73679a2);
    NextWord(block, 42, 0x9f47bf94, 0xf10a5c62, 0x32663c5b, 0xe5bc3909);
    NextWord(block, 43, 0xf0a64f5a, 0x0a8b3996, 0x9d209d67, 0x32663c5b);
    NextWord(block, 44, 0x3e246a79, 0x72af830a, 0xec8726cb, 0x9d209d67);
    NextWord(block, 45, 0x27333ba3, 0x9409e33e, 0x702138a4, 0xec8726cb);
    NextWord(block, 46, 0x0c4763f2, 0x24641522, 0xd3b7973b, 0x702138a4);
    NextWord(block, 47, 0x840abf27, 0x9f47bf94, 0x93f5997f, 0xd3b7973b);
  }

  lemma AbcWords48(block: seq<byte>)
    requires |block| == 64 && IsAbc(block)
    ensures W(block, 48) == 0xfb3e89cb
    ensures W(block, 49) == 0xcc7617db
    ensures W(block, 50) == 0xb9e66c34
    ensures W(block, 51) == 0xa9993667
    ensures W(block, 52) == 0x84badedd
    ensures W(block, 53) == 0xc21462bc
    ensures W(block, 54) == 0x1487472c
    ensures W(block, 55) == 0xb20f7a99
    ensures W(block, 56) == 0xef57b9cd
    ensures W(block, 57) == 0xebe6b238
    ensures W(block, 58) == 0x9fe3095e
    ensures W(block, 59) == 0x78bc8d4b
    ensures W(block, 60) == 0xa43fcf15
    ensures W(block, 61) == 0x668b2ff8
    ensures W(block, 62) == 0xeeaba2cc
    ensures W(block, 63) == 0x12b1edeb
  {
    hide W, IsAbc;
    AbcWords32(block);
    NextWord(block, 48, 0x7a290d5d, 0xf0a64f5a, 0x3b68ba73, 0x93f5997f);
    NextWord(block, 49, 0x065c43da, 0x3e246a79, 0xaff4ffc1, 0x3b68ba73);
    NextWord(block, 50, 0xfb3e89cb, 0x27333ba3, 0xf10a5c62, 0xaff4ffc1);
    NextWord(block, 51, 0xcc7617db, 0x0c4763f2, 0x0a8b3996, 0xf10a5c62);
    NextWord(block, 52, 0xb9e66c34, 0x840abf27, 0x72af830a, 0x0a8b3996);
    NextWord(block, 53, 0xa9993667, 0x7a290d5d, 0x9409e33e, 0x72af830a);
    NextWord(block, 54, 0x84badedd, 0x065c43da, 0x24641522, 0x9409e33e);
    NextWord(block, 55, 0xc21462bc, 0xfb3e89cb, 0x9f47bf94, 0x24641522);
    NextWord(block, 56, 0x1487472c, 0xcc7617db, 0xf0a64f5a, 0x9f47bf94);
    NextWord(block, 57, 0xb20f7a99, 0xb9e66c34, 0x3e246a79, 0xf0a64f5a);
    NextWord(block, 58, 0xef57b9cd, 0xa9993667, 0x27333ba3, 0x3e246a79);
    NextWord(block, 59, 0xebe6b238, 0x84badedd, 0x0c4763f2, 0x27333ba3);
    NextWord(block, 60, 0x9fe3095e, 0xc21462bc, 0x840abf27, 0x0c4763f2);
    NextWord(block, 61, 0x78bc8d4b, 0x1487472c, 0x7a290d5d, 0x840abf27);
    NextWord(block, 62, 0xa43fcf15, 0xb20f7a99, 0x065c43da, 0x7a290d5d);
    NextWord(block, 63, 0x668b2ff8, 0xef57b9cd, 0xfb3e89cb, 0x065c43da);
  }

  lemma AbcRounds0(block: seq<byte>)
    requires |block| == 64 && IsAbc(block)
    ensures Rounds(Vars(0x6a09e667, 0xbb67ae85, 0x3c6ef372, 0xa54ff53a, 0x510e527f, 0x9b05688c, 0x1f83d9ab, 0x5be0cd19), block, 16)
            == Vars(0xb0fa238e, 0xc0645fde, 0xd932eb16, 0x87912990, 0x07590dcd, 0x0b92f20c, 0x745a48de, 0x1e578218)
  {
    hide W, RoundConstants, IsAbc;
    Constants0();
    Constants8();
    AbcWords0(block);
    var v0 := Vars(0x6a09e667, 0xbb67ae85, 0x3c6ef372, 0xa54ff53a, 0x510e527f, 0x9b05688c, 0x1f83d9ab, 0x5be0cd19);
    var v1 := Vars(0x5d6aebcd, 0x6a09e667, 0xbb67ae85, 0x3c6ef372, 0xfa2a4622, 0x510e527f, 0x9b05688c, 0x1f83d9ab);
    var v2 := Vars(0x5a6ad9ad, 0x5d6aebcd, 0x6a09e667, 0xbb67ae85, 0x78ce7989, 0xfa2a4622, 0x510e527f, 0x9b05688c);
    var v3 := Vars(0xc8c347a7, 0x5a6ad9ad, 0x5d6aebcd, 0x6a09e667, 0xf92939eb, 0x78ce7989, 0xfa2a4622, 0x510e527f);
    var v4 := Vars(0xd550f666, 0xc8c347a7, 0x5a6ad9ad, 0x5d6aebcd, 0x24e00850, 0xf92939eb, 0x78ce7989, 0xfa2a4622);
    var v5 := Vars(0x04409a6a, 0xd550f666, 0xc8c347a7, 0x5a6ad9ad, 0x43ada245, 0x24e00850, 0xf92939eb, 0x78ce7989);
    var v6 := Vars(0x2b4209f5, 0x04409a6a, 0xd550f666, 0xc8c347a7, 0x714260ad, 0x43ada245, 0x24e00850, 0xf92939eb);
    var v7 := Vars(0xe5030380, 0x2b4209f5, 0x04409a6a, 0xd550f666, 0x9b27a401, 0x714260ad, 0x43ada245, 0x24e00850);
    var v8 := Vars(0x85a07b5f, 0xe5030380, 0x2b4209f5, 0x04409a6a, 0x0c657a79, 0x9b27a401, 0x714260ad, 0x43ada245);
    var v9 := Vars(0x8e04ecb9, 0x85a07b5f, 0xe5030380, 0x2b4209f5, 0x32ca2d8c, 0x0c657a79, 0x9b27a401, 0x714260ad);
    var v10 := Vars(0x8c87346b, 0x8e04ecb9, 0x85a07b5f, 0xe5030380, 0x1cc92596, 0x32ca2d8c, 0x0c657a79, 0x9b27a401);
    var v11 := Vars(0x4798a3f4, 0x8c87346b, 0x8e04ecb9, 0x85a07b5f, 0x436b23e8, 0x1cc92596, 0x32ca2d8c, 0x0c657a79);
    var v12 := Vars(0xf71fc5a9, 0x4798a3f4, 0x8c87346b, 0x8e04ecb9, 0x816fd6e9, 0x436b23e8, 0x1cc92596, 0x32ca2d8c);
    var v13 := Vars(0x87912990, 0xf71fc5a9, 0x4798a3f4, 0x8c87346b, 0x1e578218, 0x816fd6e9, 0x436b23e8, 0x1cc92596);
    var v14 := Vars(0xd932eb16, 0x87912990, 0xf71fc5a9, 0x4798a3f4, 0x745a48de, 0x1e578218, 0x816fd6e9, 0x436b23e8);
    var v15 := Vars(0xc0645fde, 0xd932eb16, 0x87912990, 0xf71fc5a9, 0x0b92f20c, 0x745a48de, 0x1e578218, 0x816fd6e9);
    var v16 := Vars(0xb0fa238e, 0xc0645fde, 0xd932eb16, 0x87912990, 0x07590dcd, 0x0b92f20c, 0x745a48de, 0x1e578218);
    Step(v0, block, 0, v0, 0x428a2f98, 0x61626380, v1);
    Step(v0, block, 1, v1, 0x71374491, 0x00000000, v2);
    Step(v0, block, 2, v2, 0xb5c0fbcf, 0x00000000, v3);
    Step(v0, block, 3, v3, 0xe9b5dba5, 0x00000000, v4);
    Step(v0, block, 4, v4, 0x3956c25b, 0x00000000, v5);
    Step(v0, block, 5, v5, 0x59f111f1, 0x00000000, v6);
    Step(v0, block, 6, v6, 0x923f82a4, 0x00000000, v7);
    Step(v0, block, 7, v7, 0xab1c5ed5, 0x00000000, v8);
    Step(v0, block, 8, v8, 0xd807aa98, 0x00000000, v9);
    Step(v0, block, 9, v9, 0x12835b01, 0x00000000, v10);
    Step(v0, block, 10, v10, 0x243185be, 0x00000000, v11);
    Step(v0, block, 11, v11, 0x550c7dc3, 0x00000000, v12);
    Step(v0, block, 12, v12, 0x72be5d74, 0x00000000, v13);
    Step(v0, block, 13, v13, 0x80deb1fe, 0x00000000, v14);
    Step(v0, block, 14, v14, 0x9bdc06a7, 0x00000000, v15);
    Step(v0, block, 15, v15, 0xc19bf174, 0x00000018, v16);
  }

  lemma AbcRounds16(block: seq<byte>)
    requires |block| == 64 && IsAbc(block)
    ensures Rounds(Vars(0x6a09e667, 0xbb67ae85, 0x3c6ef372, 0xa54ff53a, 0x510e527f, 0x9b05688c, 0x1f83d9ab, 0x5be0cd19), block, 32)
            == Vars(0x73b33bf5, 0xea992a22, 0xa0060b30, 0x363482c9, 0xba591112, 0x0109ab3a, 0xade79437, 0x6112a3b7)
  {
    hide W, RoundConstants, IsAbc, Rounds;
    Constants16();
    Constants24();
    AbcWords16(block);
    AbcRounds0(block);
    var v0 := Vars(0x6a09e667, 0xbb67ae85, 0x3c6ef372, 0xa54ff53a, 0x510e527f, 0x9b05688c, 0x1f83d9ab, 0x5be0cd19);
    var v16 := Vars(0xb0fa238e, 0xc0645fde, 0xd932eb16, 0x87912990, 0x07590dcd, 0x0b92f20c, 0x745a48de, 0x1e578218);
    var v17 := Vars(0x21da9a9b, 0xb0fa238e, 0xc0645fde, 0xd932eb16, 0x8034229c, 0x07590dcd, 0x0b92f20c, 0x745a48de);
    var v18 := Vars(0xc2fbd9d1, 0x21da9a9b, 0xb0fa238e, 0xc0645fde, 0x846ee454, 0x8034229c, 0x07590dcd, 0x0b92f20c);
    var v19 := Vars(0xfe777bbf, 0xc2fbd9d1, 0x21da9a9b, 0xb0fa238e, 0xcc899961, 0x846ee454, 0x8034229c, 0x07590dcd);
    var v20 := Vars(0xe1f20c33, 0xfe777bbf, 0xc2fbd9d1, 0x21da9a9b, 0xb0638179, 0xcc899961, 0x846ee454, 0x8034229c);
    var v21 := Vars(0x9dc68b63, 0xe1f20c33, 0xfe777bbf, 0xc2fbd9d1, 0x8ada8930, 0xb0638179, 0xcc899961, 0x846ee454);
    var v22 := Vars(0xc2606d6d, 0x9dc68b63, 0xe1f20c33, 0xfe777bbf, 0xe1257970, 0x8ada8930, 0xb0638179, 0xcc899961);
    var v23 := Vars(0xa7a3623f, 0xc2606d6d, 0x9dc68b63, 0xe1f20c33, 0x49f5114a, 0xe1257970, 0x8ada8930, 0xb0638179);
    var v24 := Vars(0xc5d53d8d, 0xa7a3623f, 0xc2606d6d, 0x9dc68b63, 0xaa47c347, 0x49f5114a, 0xe1257970, 0x8ada8930);
    var v25 := Vars(0x1c2c2838, 0xc5d53d8d, 0xa7a3623f, 0xc2606d6d, 0x2823ef91, 0xaa47c347, 0x49f5114a, 0xe1257970);
    var v26 := Vars(0xcde8037d, 0x1c2c2838, 0xc5d53d8d, 0xa7a3623f, 0x14383d8e, 0x2823ef91, 0xaa47c347, 0x49f5114a);
    var v27 := Vars(0xb62ec4bc, 0xcde8037d, 0x1c2c2838, 0xc5d53d8d, 0xc74c6516, 0x14383d8e, 0x2823ef91, 0xaa47c347);
    var v28 := Vars(0x77d37528, 0xb62ec4bc, 0xcde8037d, 0x1c2c2838, 0xedffbff8, 0xc74c6516, 0x14383d8e, 0x2823ef91);
    var v29 := Vars(0x363482c9, 0x77d37528, 0xb62ec4bc, 0xcde8037d, 0x6112a3b7, 0xedffbff8, 0xc74c6516, 0x14383d8e);
    var v30 := Vars(0xa0060b30, 0x363482c9, 0x77d37528, 0xb62ec4bc, 0xade79437, 0x6112a3b7, 0xedffbff8, 0xc74c6516);
    var v31 := Vars(0xea992a22, 0xa0060b30, 0x363482c9, 0x77d37528, 0x0109ab3a, 0xade79437, 0x6112a3b7, 0xedffbff8);
    var v32 := Vars(0x73b33bf5, 0xea992a22, 0xa0060b30, 0x363482c9, 0xba591112, 0x0109ab3a, 0xade79437, 0x6112a3b7);
    Step(v0, block, 16, v16, 0xe49b69c1, 0x61626380, v17);
    Step(v0, block, 17, v17, 0xefbe4786, 0x000f0000, v18);
    Step(v0, block, 18, v18, 0x0fc19dc6, 0x7da86405, v19);
    Step(v0, block, 19, v19, 0x240ca1cc, 0x600003c6, v20);
    Step(v0, block, 20, v20, 0x2de92c6f, 0x3e9d7b78, v21);
    Step(v0, block, 21, v21, 0x4a7484aa, 0x0183fc00, v22);
    Step(v0, block, 22, v22, 0x5cb0a9dc, 0x12dcbfdb, v23);
    Step(v0, block, 23, v23, 0x76f988da, 0xe2e2c38e, v24);
    Step(v0, block, 24, v24, 0x983e5152, 0xc8215c1a, v25);
    Step(v0, block, 25, v25, 0xa831c66d, 0xb73679a2, v26);
    Step(v0, block, 26, v26, 0xb00327c8, 0xe5bc3909, v27);
    Step(v0, block, 27, v27, 0xbf597fc7, 0x32663c5b, v28);
    Step(v0, block, 28, v28, 0xc6e00bf3, 0x9d209d67, v29);
    Step(v0, block, 29, v29, 0xd5a79147, 0xec8726cb, v30);
    Step(v0, block, 30, v30, 0x06ca6351, 0x702138a4, v31);
    Step(v0, block, 31, v31, 0x14292967, 0xd3b7973b, v32);
  }

  lemma AbcRounds32(block: seq<byte>)
    requires |block| == 64 && IsAbc(block)
    ensures Rounds(Vars(0x6a09e667, 0xbb67ae85, 0x3c6ef372, 0xa54ff53a, 0x510e527f, 0x9b05688c, 0x1f83d9ab, 0x5be0cd19), block, 48)
            == Vars(0x4172328d, 0xa14c14b0, 0x72ab4b91, 0x26628815, 0xfecf0bc6, 0xd57b94a9, 0xb7755da1, 0xa80f11f0)
  {
    hide W, RoundConstants, IsAbc, Rounds;
    Constants32();
    Constants40();
    AbcWords32(block);
    AbcRounds16(block);
    var v0 := Vars(0x6a09e667, 0xbb67ae85, 0x3c6ef372, 0xa54ff53a, 0x510e527f, 0x9b05688c, 0x1f83d9ab, 0x5be0cd19);
    var v32 := Vars(0x73b33bf5, 0xea992a22, 0xa0060b30, 0x363482c9, 0xba591112, 0x0109ab3a, 0xade79437, 0x6112a3b7);
    var v33 := Vars(0x98e12507, 0x73b33bf5, 0xea992a22, 0xa0060b30, 0x9cd9f5f6, 0xba591112, 0x0109ab3a, 0xade79437);
    var v34 := Vars(0xfe604df5, 0x98e12507, 0x73b33bf5, 0xea992a22, 0x59249dd3, 0x9cd9f5f6, 0xba591112, 0x0109ab3a);
    var v35 := Vars(0xa9a7738c, 0xfe604df5, 0x98e12507, 0x73b33bf5, 0x085f3833, 0x59249dd3, 0x9cd9f5f6, 0xba591112);
    var v36 := Vars(0x65a0cfe4, 0xa9a7738c, 0xfe604df5, 0x98e12507, 0xf4b002d6, 0x085f3833, 0x59249dd3, 0x9cd9f5f6);
    var v37 := Vars(0x41a65cb1, 0x65a0cfe4, 0xa9a7738c, 0xfe604df5, 0x0772a26b, 0xf4b002d6, 0x085f3833, 0x59249dd3);
    var v38 := Vars(0x34df1604, 0x41a65cb1, 0x65a0cfe4, 0xa9a7738c, 0xa507a53d, 0x0772a26b, 0xf4b002d6, 0x085f3833);
    var v39 := Vars(0x6dc57a8a, 0x34df1604, 0x41a65cb1, 0x65a0cfe4, 0xf0781bc8, 0xa507a53d, 0x0772a26b, 0xf4b002d6);
    var v40 := Vars(0x79ea687a, 0x6dc57a8a, 0x34df1604, 0x41a65cb1, 0x1efbc0a0, 0xf0781bc8, 0xa507a53d, 0x0772a26b);
    var v41 := Vars(0xd6670766, 0x79ea687a, 0x6dc57a8a, 0x34df1604, 0x26352d63, 0x1efbc0a0, 0xf0781bc8, 0xa507a53d);
    var v42 := Vars(0xdf46652f, 0xd6670766, 0x79ea687a, 0x6dc57a8a, 0x838b2711, 0x26352d63, 0x1efbc0a0, 0xf0781bc8);
    var v43 := Vars(0x17aa0dfe, 0xdf46652f, 0xd6670766, 0x79ea687a, 0xdecd4715, 0x838b2711, 0x26352d63, 0x1efbc0a0);
    var v44 := Vars(0x9d4baf93, 0x17aa0dfe, 0xdf46652f, 0xd6670766, 0xfda24c2e, 0xdecd4715, 0x838b2711, 0x26352d63);
    var v45 := Vars(0x26628815, 0x9d4baf93, 0x17aa0dfe, 0xdf46652f, 0xa80f11f0, 0xfda24c2e, 0xdecd4715, 0x838b2711);
    var v46 := Vars(0x72ab4b91, 0x26628815, 0x9d4baf93, 0x17aa0dfe, 0xb7755da1, 0xa80f11f0, 0xfda24c2e, 0xdecd4715);
    var v47 := Vars(0xa14c14b0, 0x72ab4b91, 0x26628815, 0x9d4baf93, 0xd57b94a9, 0xb7755da1, 0xa80f11f0, 0xfda24c2e);
    var v48 := Vars(0x4172328d, 0xa14c14b0, 0x72ab4b91, 0x26628815, 0xfecf0bc6, 0xd57b94a9, 0xb7755da1, 0xa80f11f0);
    Step(v0, block, 32, v32, 0x27b70a85, 0x93f5997f, v33);
    Step(v0, block, 33, v33, 0x2e1b2138, 0x3b68ba73, v34);
    Step(v0, block, 34, v34, 0x4d2c6dfc, 0xaff4ffc1, v35);
    Step(v0, block, 35, v35, 0x53380d13, 0xf10a5c62, v36);
    Step(v0, block, 36, v36, 0x650a7354, 0x0a8b3996, v37);
    Step(v0, block, 37, v37, 0x766a0abb, 0x72af830a, v38);
    Step(v0, block, 38, v38, 0x81c2c92e, 0x9409e33e, v39);
    Step(v0, block, 39, v39, 0x92722c85, 0x24641522, v40);
    Step(v0, block, 40, v40, 0xa2bfe8a1, 0x9f47bf94, v41);
    Step(v0, block, 41, v41, 0xa81a664b, 0xf0a64f5a, v42);
    Step(v0, block, 42, v42, 0xc24b8b70, 0x3e246a79, v43);
    Step(v0, block, 43, v43, 0xc76c51a3, 0x27333ba3, v44);
    Step(v0, block, 44, v44, 0xd192e819, 0x0c4763f2, v45);
    Step(v0, block, 45, v45, 0xd6990624, 0x840abf27, v46);
    Step(v0, block, 46, v46, 0xf40e3585, 0x7a290d5d, v47);
    Step(v0, block, 47, v47, 0x106aa070, 0x065c43da, v48);
  }

  lemma AbcRounds48(block: seq<byte>)
    requires |block| == 64 && IsAbc(block)
    ensures Rounds(Vars(0x6a09e667, 0xbb67ae85, 0x3c6ef372, 0xa54ff53a, 0x510e527f, 0x9b05688c, 0x1f83d9ab, 0x5be0cd19), block, 64)
            == Vars(0x506e3058, 0xd39a2165, 0x04d24d6c, 0xb85e2ce9, 0x5ef50f24, 0xfb121210, 0x948d25b6, 0x961f4894)
  {
    hide W, RoundConstants, IsAbc, Rounds;
    Constants48();
    Constants56();
    AbcWords48(block);
    AbcRounds32(block);
    var v0 := Vars(0x6a09e667, 0xbb67ae85, 0x3c6ef372, 0xa54ff53a, 0x510e527f, 0x9b05688c, 0x1f83d9ab, 0x5be0cd19);
    var v48 := Vars(0x4172328d, 0xa14c14b0, 0x72ab4b91, 0x26628815, 0xfecf0bc6, 0xd57b94a9, 0xb7755da1, 0xa80f11f0);
    var v49 := Vars(0x05757ceb, 0x4172328d, 0xa14c14b0, 0x72ab4b91, 0xbd714038, 0xfecf0bc6, 0xd57b94a9, 0xb7755da1);
    var v50 := Vars(0xf11bfaa8, 0x05757ceb, 0x4172328d, 0xa14c14b0, 0x6e5c390c, 0xbd714038, 0xfecf0bc6, 0xd57b94a9);
    var v51 := Vars(0x7a0508a1, 0xf11bfaa8, 0x05757ceb, 0x4172328d, 0x52f1ccf7, 0x6e5c390c, 0xbd714038, 0xfecf0bc6);
    var v52 := Vars(0x886e7a22, 0x7a0508a1, 0xf11bfaa8, 0x05757ceb, 0x49231c1e, 0x52f1ccf7, 0x6e5c390c, 0xbd714038);
    var v53 := Vars(0x101fd28f, 0x886e7a22, 0x7a0508a1, 0xf11bfaa8, 0x529e7d00, 0x49231c1e, 0x52f1ccf7, 0x6e5c390c);
    var v54 := Vars(0xf5702fdb, 0x101fd28f, 0x886e7a22, 0x7a0508a1, 0x9f4787c3, 0x529e7d00, 0x49231c1e, 0x52f1ccf7);
    var v55 := Vars(0x3ec45cdb, 0xf5702fdb, 0x101fd28f, 0x886e7a22, 0xe50e1b4f, 0x9f4787c3, 0x529e7d00, 0x49231c1e);
    var v56 := Vars(0x38cc9913, 0x3ec45cdb, 0xf5702fdb, 0x101fd28f, 0x54cb266b, 0xe50e1b4f, 0x9f4787c3, 0x529e7d00);
    var v57 := Vars(0xfcd1887b, 0x38cc9913, 0x3ec45cdb, 0xf5702fdb, 0x9b5e906c, 0x54cb266b, 0xe50e1b4f, 0x9f4787c3);
    var v58 := Vars(0xc062d46f, 0xfcd1887b, 0x38cc9913, 0x3ec45cdb, 0x7e44008e, 0x9b5e906c, 0x54cb266b, 0xe50e1b4f);
    var v59 := Vars(0xffb70472, 0xc062d46f, 0xfcd1887b, 0x38cc9913, 0x6d83bfc6, 0x7e44008e, 0x9b5e906c, 0x54cb266b);
    var v60 := Vars(0xb6ae8fff, 0xffb70472, 0xc062d46f, 0xfcd1887b, 0xb21bad3d, 0x6d83bfc6, 0x7e44008e, 0x9b5e906c);
    var v61 := Vars(0xb85e2ce9, 0xb6ae8fff, 0xffb70472, 0xc062d46f, 0x961f4894, 0xb21bad3d, 0x6d83bfc6, 0x7e44008e);
    var v62 := Vars(0x04d24d6c, 0xb85e2ce9, 0xb6ae8fff, 0xffb70472, 0x948d25b6, 0x961f4894, 0xb21bad3d, 0x6d83bfc6);
    var v63 := Vars(0xd39a2165, 0x04d24d6c, 0xb85e2ce9, 0xb6ae8fff, 0xfb121210, 0x948d25b6, 0x961f4894, 0xb21bad3d);
    var v64 := Vars(0x506e3058, 0xd39a2165, 0x04d24d6c, 0xb85e2ce9, 0x5ef50f24, 0xfb121210, 0x948d25b6, 0x961f4894);
    Step(v0, block, 48, v48, 0x19a4c116, 0xfb3e89cb, v49);
    Step(v0, block, 49, v49, 0x1e376c08, 0xcc7617db, v50);
    Step(v0, block, 50, v50, 0x2748774c, 0xb9e66c34, v51);
    Step(v0, block, 51, v51, 0x34b0bcb5, 0xa9993667, v52);
    Step(v0, block, 52, v52, 0x391c0cb3, 0x84badedd, v53);
    Step(v0, block, 53, v53, 0x4ed8aa4a, 0xc21462bc, v54);
    Step(v0, block, 54, v54, 0x5b9cca4f, 0x1487472c, v55);
    Step(v0, block, 55, v55, 0x682e6ff3, 0xb20f7a99, v56);
    Step(v0, block, 56, v56, 0x748f82ee, 0xef57b9cd, v57);
    Step(v0, block, 57, v57, 0x78a5636f, 0xebe6b238, v58);
    Step(v0, block, 58, v58, 0x84c87814, 0x9fe3095e, v59);
    Step(v0, block, 59, v59, 0x8cc70208, 0x78bc8d4b, v60);
    Step(v0, block, 60, v60, 0x90befffa, 0xa43fcf15, v61);
    Step(v0, block, 61, v61, 0xa4506ceb, 0x668b2ff8, v62);
    Step(v0, block, 62, v62, 0xbef9a3f7, 0xeeaba2cc, v63);
    Step(v0, block, 63, v63, 0xc67178f2, 0x12b1edeb, v64);
  }

  lemma AbcCompressed(block: seq<byte>)
    requires |block| == 64 && IsAbc(block)
    ensures Compress([0x6a09e667, 0xbb67ae85, 0x3c6ef372, 0xa54ff53a, 0x510e527f, 0x9b05688c, 0x1f83d9ab, 0x5be0cd19], block)
            == [0xba7816bf, 0x8f01cfea, 0x414140de, 0x5dae2223, 0xb00361a3, 0x96177a9c, 0xb410ff61, 0xf20015ad]
  {
    hide Rounds, IsAbc;
    AbcRounds48(block);
  }

  lemma AbcBytes()
    ensures WordBytes(0xba7816bf) == [0xba, 0x78, 0x16, 0xbf]
    ensures WordBytes(0x8f01cfea) == [0x8f, 0x01, 0xcf, 0xea]
    ensures WordBytes(0x414140de) == [0x41, 0x41, 0x40, 0xde]
    ensures WordBytes(0x5dae2223) == [0x5d, 0xae, 0x22, 0x23]
    ensures WordBytes(0xb00361a3) == [0xb0, 0x03, 0x61, 0xa3]
    ensures WordBytes(0x96177a9c) == [0x96, 0x17, 0x7a, 0x9c]
    ensures WordBytes(0xb410ff61) == [0xb4, 0x10, 0xff, 0x61]
    ensures WordBytes(0xf20015ad) == [0xf2, 0x00, 0x15, 0xad]
  {
  }

  /** The letters abc. */
  const ABC: seq<byte> := [0x61, 0x62, 0x63]

  lemma AbcPadded()
    ensures |Padded(ABC)| == 64 && IsAbc(Padded(ABC))
  {
    hide LengthBytes, Padded;
    Length24();
    PaddedIs(ABC, 52, LengthBytes(24));
  }

  /** FIPS 180-4's one-block example. */
  lemma AbcDigest()
    ensures Digest(ABC)
            == [0xba, 0x78, 0x16, 0xbf, 0x8f, 0x01, 0xcf, 0xea, 0x41, 0x41, 0x40, 0xde, 0x5d, 0xae, 0x22, 0x23,
                0xb0, 0x03, 0x61, 0xa3, 0x96, 0x17, 0x7a, 0x9c, 0xb4, 0x10, 0xff, 0x61, 0xf2, 0x00, 0x15, 0xad]
  {
    hide Padded, HashBlocks, Compress, InitialState, WordBytes, Bytes, IsAbc;
    var p := Padded(ABC);
    AbcPadded();
    OneBlock(p);
    Initial();
    AbcCompressed(p);
    EightWords(HashBlocks(p));
    AbcBytes();
  }

  // ---- the 56 letters, first block ----

  ghost predicate IsFirst(block: seq<byte>)
    requires |block| == 64
  {
    && block[0] == 0x61 && block[1] == 0x62 && block[2] == 0x63 && block[3] == 0x64
    && block[4] == 0x62 && block[5] == 0x63 && block[6] == 0x64 && block[7] == 0x65
    && block[8] == 0x63 && block[9] == 0x64 && block[10] == 0x65 && block[11] == 0x66
    && block[12] == 0x64 && block[13] == 0x65 && block[14] == 0x66 && block[15] == 0x67
    && block[16] == 0x65 && block[17] == 0x66 && block[18] == 0x67 && block[19] == 0x68
    && block[20] == 0x66 && block[21] == 0x67 && block[22] == 0x68 && block[23] == 0x69
    && block[24] == 0x67 && block[25] == 0x68 && block[26] == 0x69 && block[27] == 0x6a
    && block[28] == 0x68 && block[29] == 0x69 && block[30] == 0x6a && block[31] == 0x6b
    && block[32] == 0x69 && block[33] == 0x6a && block[34] == 0x6b && block[35] == 0x6c
    && block[36] == 0x6a && block[37] == 0x6b && block[38] == 0x6c && block[39] == 0x6d
    && block[40] == 0x6b && block[41] == 0x6c && block[42] == 0x6d && block[43] == 0x6e
    && block[44] == 0x6c && block[45] == 0x6d && block[46] == 0x6e && block[47] == 0x6f
    && block[48] == 0x6d && block[49] == 0x6e && block[50] == 0x6f && block[51] == 0x70
    && block[52] == 0x6e && block[53] == 0x6f && block[54] == 0x70 && block[55] == 0x71
    && block[56] == 0x80 && block[57] == 0x00 && block[58] == 0x00 && block[59] == 0x00
    && block[60] == 0x00 && block[61] == 0x00 && block[62] == 0x00 && block[63] == 0x00
  }

  lemma FirstWords0(block: seq<byte>)
    requires |block| == 64 && IsFirst(block)
    ensures W(block, 0) == 0x61626364
    ensures W(block, 1) == 0x62636465
    ensures W(block, 2) == 0x63646566
    ensures W(block, 3) == 0x64656667
    ensures W(block, 4) == 0x65666768
    ensures W(block, 5) == 0x66676869
    ensures W(block, 6) == 0x6768696a
    ensures W(block, 7) == 0x68696a6b
    ensures W(block, 8) == 0x696a6b6c
    ensures W(block, 9) == 0x6a6b6c6d
    ensures W(block, 10) == 0x6b6c6d6e
    ensures W(block, 11) == 0x6c6d6e6f
    ensures W(block, 12) == 0x6d6e6f70
    ensures W(block, 13) == 0x6e6f7071
    ensures W(block, 14) == 0x80000000
    ensures W(block, 15) == 0x00000000
  {
    hide W;
    FirstWord(block, 0, 0x61, 0x62, 0x63, 0x64);
    FirstWord(block, 1, 0x62, 0x63, 0x64, 0x65);
    FirstWord(block, 2, 0x63, 0x64, 0x65, 0x66);
    FirstWord(block, 3, 0x64, 0x65, 0x66, 0x67);
    FirstWord(block, 4, 0x65, 0x66, 0x67, 0x68);
    FirstWord(block, 5, 0x66, 0x67, 0x68, 0x69);
    FirstWord(block, 6, 0x67, 0x68, 0x69, 0x6a);
    FirstWord(block, 7, 0x68, 0x69, 0x6a, 0x6b);
    FirstWord(block, 8, 0x69, 0x6a, 0x6b, 0x6c);
    FirstWord(block, 9, 0x6a, 0x6b, 0x6c, 0x6d);
    FirstWord(block, 10, 0x6b, 0x6c, 0x6d, 0x6e);
    FirstWord(block, 11, 0x6c, 0x6d, 0x6e, 0x6f);
    FirstWord(block, 12, 0x6d, 0x6e, 0x6f, 0x70);
    FirstWord(block, 13, 0x6e, 0x6f, 0x70, 0x71);
    FirstWord(block, 14, 0x80, 0x00, 0x00, 0x00);
    FirstWord(block, 15, 0x00, 0x00, 0x00, 0x00);
  }

  lemma FirstWords16(block: seq<byte>)
    requires |block| == 64 && IsFirst(block)
    ensures W(block, 16) == 0xeb8012ad
    ensures W(block, 17) == 0xa7c3ae92
    ensures W(block, 18) == 0x76e93ba2
    ensures W(block, 19) == 0xba42e743
    ensures W(block, 20) == 0x92a92204
    ensures W(block, 21) == 0xd847e75e
    ensures W(block, 22) == 0x9e160036
    ensures W(block, 23) == 0xb280a7cb
    ensures W(block, 24) == 0xddeb1516
    ensures W(block, 25) == 0xf36586f4
    ensures W(block, 26) == 0x969cd048
    ensures W(block, 27) == 0xe959d99d
    ensures W(block, 28) == 0x6accc0ec
    ensures W(block, 29) == 0xf54cb098
    ensures W(block, 30) == 0x2af1b2da
    ensures W(block, 31) == 0xee59c4c9
  {
    hide W, IsFirst;
    FirstWords0(block);
    NextWord(block, 16, 0x80000000, 0x6a6b6c6d, 0x62636465, 0x61626364);
    NextWord(block, 17, 0x00000000, 0x6b6c6d6e, 0x63646566, 0x62636465);
    NextWord(block, 18, 0xeb8012ad, 0x6c6d6e6f, 0x64656667, 0x63646566);
    NextWord(block, 19, 0xa7c3ae92, 0x6d6e6f70, 0x65666768, 0x64656667);
    NextWord(block, 20, 0x76e93ba2, 0x6e6f7071, 0x66676869, 0x65666768);
    NextWord(block, 21, 0xba42e743, 0x80000000, 0x6768696a, 0x66676869);
    NextWord(block, 22, 0x92a92204, 0x00000000, 0x68696a6b, 0x6768696a);
    NextWord(block, 23, 0xd847e75e, 0xeb8012ad, 0x696a6b6c, 0x68696a6b);
    NextWord(block, 24, 0x9e160036, 0xa7c3ae92, 0x6a6b6c6d, 0x696a6b6c);
    NextWord(block, 25, 0xb280a7cb, 0x76e93ba2, 0x6b6c6d6e, 0x6a6b6c6d);
    NextWord(block, 26, 0xddeb1516, 0xba42e743, 0x6c6d6e6f, 0x6b6c6d6e);
    NextWord(block, 27, 0xf36586f4, 0x92a92204, 0x6d6e6f70, 0x6c6d6e6f);
    NextWord(block, 28, 0x969cd048, 0xd847e75e, 0x6e6f7071, 0x6d6e6f70);
    NextWord(block, 29, 0xe959d99d, 0x9e160036, 0x80000000, 0x6e6f7071);
    NextWord(block, 30, 0x6accc0ec, 0xb280a7cb, 0x00000000, 0x80000000);
    NextWord(block, 31, 0xf54cb098, 0xddeb1516, 0xeb8012ad, 0x00000000);
  }

  lemma FirstWords32(block: seq<byte>)
    requires |block| == 64 && IsFirst(block)
    ensures W(block, 32) == 0xa835e16a
    ensures W(block, 33) == 0x1dff4429
    ensures W(block, 34) == 0xd6e15959
    ensures W(block, 35) == 0xc397cd6e
    ensures W(block, 36) == 0x6f1801ca
    ensures W(block, 37) == 0x21574205
    ensures W(block, 38) == 0x35ff7a84
    ensures W(block, 39) == 0x9743ee78
    ensures W(block, 40) == 0xe44183e7
    ensures W(block, 41) == 0x0d09f00d
    ensures W(block, 42) == 0x9c89af54
    ensures W(block, 43) == 0x042d5bef
    ensures W(block, 44) == 0x71f134d0
    ensures W(block, 45) == 0x0f94f463
    ensures W(block, 46) == 0x7e49dc63
    ensures W(block, 47) == 0x6f65c997
  {
    hide W, IsFirst;
    FirstWords16(block);
    NextWord(block, 32, 0x2af1b2da, 0xf36586f4, 0xa7c3ae92, 0xeb8012ad);
    NextWord(block, 33, 0xee59c4c9, 0x969cd048, 0x76e93ba2, 0xa7c3ae92);
    NextWord(block, 34, 0xa835e16a, 0xe959d99d, 0xba42e743, 0x76e93ba2);
    NextWord(block, 35, 0x1dff4429, 0x6accc0ec, 0x92a92204, 0xba42e743);
    NextWord(block, 36, 0xd6e15959, 0xf54cb098, 0xd847e75e, 0x92a92204);
    NextWord(block, 37, 0xc397cd6e, 0x2af1b2da, 0x9e160036, 0xd847e75e);
    NextWord(block, 38, 0x6f1801ca, 0xee59c4c9, 0xb280a7cb, 0x9e160036);
    NextWord(block, 39, 0x21574205, 0xa835e16a, 0xddeb1516, 0xb280a7cb);
    NextWord(block, 40, 0x35ff7a84, 0x1dff4429, 0xf36586f4, 0xddeb1516);
    NextWord(block, 41, 0x9743ee78, 0xd6e15959, 0x969cd048, 0xf36586f4);
    NextWord(block, 42, 0xe44183e7, 0xc397cd6e, 0xe959d99d, 0x969cd048);
    NextWord(block, 43, 0x0d09f00d, 0x6f1801ca, 0x6accc0ec, 0xe959d99d);
    NextWord(block, 44, 0x9c89af54, 0x21574205, 0xf54cb098, 0x6accc0ec);
    NextWord(block, 45, 0x042d5bef, 0x35ff7a84, 0x2af1b2da, 0xf54cb098);
    NextWord(block, 46, 0x71f134d0, 0x9743ee78, 0xee59c4c9, 0x2af1b2da);
    NextWord(block, 47, 0x0f94f463, 0xe44183e7, 0xa835e16a, 0xee59c4c9);
  }

  lemma FirstWords48(block: seq<byte>)
    requires |block| == 64 && IsFirst(block)
    ensures W(block, 48) == 0x0b706583
    ensures W(block, 49) == 0x179312ca
    ensures W(block, 50) == 0x503054e9
    ensures W(block, 51) == 0xba125c39
    ensures W(block, 52) == 0x7e9392c9
    ensures W(block, 53) == 0xd5cbaa1e
    ensures W(block, 54) == 0x78e0585d
    ensures W(block, 55) == 0xf6e7611c
    ensures W(block, 56) == 0x8ac830ce
    ensures W(block, 57) == 0x8b47a303
    ensures W(block, 58) == 0xfd6e627f
    ensures W(block, 59) == 0x8c6e2c6a
    ensures W(block, 60) == 0x4001adf1
    ensures W(block, 61) == 0x1a3dd097
    ensures W(block, 62) == 0xa9df6f62
    ensures W(block, 63) == 0x6aa60a39
  {
    hide W, IsFirst;
    FirstWords32(block);
    NextWord(block, 48, 0x7e49dc63, 0x0d09f00d, 0x1dff4429, 0xa835e16a);
    NextWord(block, 49, 0x6f65c997, 0x9c89af54, 0xd6e15959, 0x1dff4429);
    NextWord(block, 50, 0x0b706583, 0x042d5bef, 0xc397cd6e, 0xd6e15959);
    NextWord(block, 51, 0x179312ca, 0x71f134d0, 0x6f1801ca, 0xc397cd6e);
    NextWord(block, 52, 0x503054e9, 0x0f94f463, 0x21574205, 0x6f1801ca);
    NextWord(block, 53, 0xba125c39, 0x7e49dc63, 0x35ff7a84, 0x21574205);
    NextWord(block, 54, 0x7e9392c9, 0x6f65c997, 0x9743ee78, 0x35ff7a84);
    NextWord(block, 55, 0xd5cbaa1e, 0x0b706583, 0xe44183e7, 0x9743ee78);
    NextWord(block, 56, 0x78e0585d, 0x179312ca, 0x0d09f00d, 0xe44183e7);
    NextWord(block, 57, 0xf6e7611c, 0x503054e9, 0x9c89af54, 0x0d09f00d);
    NextWord(block, 58, 0x8ac830ce, 0xba125c39, 0x042d5bef, 0x9c89af54);
    NextWord(block, 59, 0x8b47a303, 0x7e9392c9, 0x71f134d0, 0x042d5bef);
    NextWord(block, 60, 0xfd6e627f, 0xd5cbaa1e, 0x0f94f463, 0x71f134d0);
    NextWord(block, 61, 0x8c6e2c6a, 0x78e0585d, 0x7e49dc63, 0x0f94f463);
    NextWord(block, 62, 0x4001adf1, 0xf6e7611c, 0x6f65c997, 0x7e49dc63);
    NextWord(block, 63, 0x1a3dd097, 0x8ac830ce, 0x0b706583, 0x6f65c997);
  }

  lemma FirstRounds0(block: seq<byte>)
    requires |block| == 64 && IsFirst(block)
    ensures Rounds(Vars(0x6a09e667, 0xbb67ae85, 0x3c6ef372, 0xa54ff53a, 0x510e527f, 0x9b05688c, 0x1f83d9ab, 0x5be0cd19), block, 16)
            == Vars(0xc3486194, 0xdd16cbb3, 0xd68e6457, 0x101a4861, 0x1496a54f, 0x9162aded, 0x9243f8af, 0x839a0fc9)
  {
    hide W, RoundConstants, IsFirst;
    Constants0();
    Constants8();
    FirstWords0(block);
    var v0 := Vars(0x6a09e667, 0xbb67ae85, 0x3c6ef372, 0xa54ff53a, 0x510e527f, 0x9b05688c, 0x1f83d9ab, 0x5be0cd19);
    var v1 := Vars(0x5d6aebb1, 0x6a09e667, 0xbb67ae85, 0x3c6ef372, 0xfa2a4606, 0x510e527f, 0x9b05688c, 0x1f83d9ab);
    var v2 := Vars(0x2f2d5fcf, 0x5d6aebb1, 0x6a09e667, 0xbb67ae85, 0x4eb1cfce, 0xfa2a4606, 0x510e527f, 0x9b05688c);
    var v3 := Vars(0x97651825, 0x2f2d5fcf, 0x5d6aebb1, 0x6a09e667, 0x62d5c49e, 0x4eb1cfce, 0xfa2a4606, 0x510e527f);
    var v4 := Vars(0x4a8d64d5, 0x97651825, 0x2f2d5fcf, 0x5d6aebb1, 0x6494841b, 0x62d5c49e, 0x4eb1cfce, 0xfa2a4606);
    var v5 := Vars(0xf921c212, 0x4a8d64d5, 0x97651825, 0x2f2d5fcf, 0x05c4f88a, 0x6494841b, 0x62d5c49e, 0x4eb1cfce);
    var v6 := Vars(0x55c8ef48, 0xf921c212, 0x4a8d64d5, 0x97651825, 0x7ff91c94, 0x05c4f88a, 0x6494841b, 0x62d5c49e);
    var v7 := Vars(0x485835b7, 0x55c8ef48, 0xf921c212, 0x4a8d64d5, 0x39a5b2ca, 0x7ff91c94, 0x05c4f88a, 0x6494841b);
    var v8 := Vars(0xd237e6db, 0x485835b7, 0x55c8ef48, 0xf921c212, 0xa401d211, 0x39a5b2ca, 0x7ff91c94, 0x05c4f88a);
    var v9 := Vars(0x359f2bce, 0xd237e6db, 0x485835b7, 0x55c8ef48, 0xc09ffec4, 0xa401d211, 0x39a5b2ca, 0x7ff91c94);
    var v10 := Vars(0x3a474b2b, 0x359f2bce, 0xd237e6db, 0x485835b7, 0x9037b3b8, 0xc09ffec4, 0xa401d211, 0x39a5b2ca);
    var v11 := Vars(0xb8e2b4cb, 0x3a474b2b, 0x359f2bce, 0xd237e6db, 0x443ed29e, 0x9037b3b8, 0xc09ffec4, 0xa401d211);
    var v12 := Vars(0x1762215c, 0xb8e2b4cb, 0x3a474b2b, 0x359f2bce, 0xee1c97a8, 0x443ed29e, 0x9037b3b8, 0xc09ffec4);
    var v13 := Vars(0x101a4861, 0x1762215c, 0xb8e2b4cb, 0x3a474b2b, 0x839a0fc9, 0xee1c97a8, 0x443ed29e, 0x9037b3b8);
    var v14 := Vars(0xd68e6457, 0x101a4861, 0x1762215c, 0xb8e2b4cb, 0x9243f8af, 0x839a0fc9, 0xee1c97a8, 0x443ed29e);
    var v15 := Vars(0xdd16cbb3, 0xd68e6457, 0x101a4861, 0x1762215c, 0x9162aded, 0x9243f8af, 0x839a0fc9, 0xee1c97a8);
    var v16 := Vars(0xc3486194, 0xdd16cbb3, 0xd68e6457, 0x101a4861, 0x1496a54f, 0x9162aded, 0x9243f8af, 0x839a0fc9);
    Step(v0, block, 0, v0, 0x428a2f98, 0x61626364, v1);
    Step(v0, block, 1, v1, 0x71374491, 0x62636465, v2);
    Step(v0, block, 2, v2, 0xb5c0fbcf, 0x63646566, v3);
    Step(v0, block, 3, v3, 0xe9b5dba5, 0x64656667, v4);
    Step(v0, block, 4, v4, 0x3956c25b, 0x65666768, v5);
    Step(v0, block, 5, v5, 0x59f111f1, 0x66676869, v6);
    Step(v0, block, 6, v6, 0x923f82a4, 0x6768696a, v7);
    Step(v0, block, 7, v7, 0xab1c5ed5, 0x68696a6b, v8);
    Step(v0, block, 8, v8, 0xd807aa98, 0x696a6b6c, v9);
    Step(v0, block, 9, v9, 0x12835b01, 0x6a6b6c6d, v10);
    Step(v0, block, 10, v10, 0x243185be, 0x6b6c6d6e, v11);
    Step(v0, block, 11, v11, 0x550c7dc3, 0x6c6d6e6f, v12);
    Step(v0, block, 12, v12, 0x72be5d74, 0x6d6e6f70, v13);
    Step(v0, block, 13, v13, 0x80deb1fe, 0x6e6f7071, v14);
    Step(v0, block, 14, v14, 0x9bdc06a7, 0x80000000, v15);
    Step(v0, block, 15, v15, 0xc19bf174, 0x00000000, v16);
  }

  lemma FirstRounds16(block: seq<byte>)
    requires |block| == 64 && IsFirst(block)
    ensures Rounds(Vars(0x6a09e667, 0xbb67ae85, 0x3c6ef372, 0xa54ff53a, 0x510e527f, 0x9b05688c, 0x1f83d9ab, 0x5be0cd19), block, 32)
            == Vars(0x5581ab07, 0xeb43f3ed, 0xdf7151a0, 0x74bcf468, 0xdf980085, 0x0635d880, 0x7629c961, 0x72abaecd)
  {
    hide W, RoundConstants, IsFirst, Rounds;
    Constants16();
    Constants24();
    FirstWords16(block);
    FirstRounds0(block);
    var v0 := Vars(0x6a09e667, 0xbb67ae85, 0x3c6ef372, 0xa54ff53a, 0x510e527f, 0x9b05688c, 0x1f83d9ab, 0x5be0cd19);
    var v16 := Vars(0xc3486194, 0xdd16cbb3, 0xd68e6457, 0x101a4861, 0x1496a54f, 0x9162aded, 0x9243f8af, 0x839a0fc9);
    var v17 := Vars(0xb9dcacb1, 0xc3486194, 0xdd16cbb3, 0xd68e6457, 0xd4f64250, 0x1496a54f, 0x9162aded, 0x9243f8af);
    var v18 := Vars(0x046a193e, 0xb9dcacb1, 0xc3486194, 0xdd16cbb3, 0x885370b6, 0xd4f64250, 0x1496a54f, 0x9162aded);
    var v19 := Vars(0xf402f058, 0x046a193e, 0xb9dcacb1, 0xc3486194, 0x6f433549, 0x885370b6, 0xd4f64250, 0x1496a54f);
    var v20 := Vars(0x2139187b, 0xf402f058, 0x046a193e, 0xb9dcacb1, 0x7c304206, 0x6f433549, 0x885370b6, 0xd4f64250);
    var v21 := Vars(0xd70ac17d, 0x2139187b, 0xf402f058, 0x046a193e, 0x7cc6b262, 0x7c304206, 0x6f433549, 0x885370b6);
    var v22 := Vars(0x1b2b66b8, 0xd70ac17d, 0x2139187b, 0xf402f058, 0xd560b028, 0x7cc6b262, 0x7c304206, 0x6f433549);
    var v23 := Vars(0xae2e2d4f, 0x1b2b66b8, 0xd70ac17d, 0x2139187b, 0xf074fc95, 0xd560b028, 0x7cc6b262, 0x7c304206);
    var v24 := Vars(0x59fce6b9, 0xae2e2d4f, 0x1b2b66b8, 0xd70ac17d, 0xa2c7d51d, 0xf074fc95, 0xd560b028, 0x7cc6b262);
    var v25 := Vars(0x4a885065, 0x59fce6b9, 0xae2e2d4f, 0x1b2b66b8, 0x763597fb, 0xa2c7d51d, 0xf074fc95, 0xd560b028);
    var v26 := Vars(0x573221da, 0x4a885065, 0x59fce6b9, 0xae2e2d4f, 0x36e74eb4, 0x763597fb, 0xa2c7d51d, 0xf074fc95);
    var v27 := Vars(0x128661da, 0x573221da, 0x4a885065, 0x59fce6b9, 0x1162d575, 0x36e74eb4, 0x763597fb, 0xa2c7d51d);
    var v28 := Vars(0x73f858af, 0x128661da, 0x573221da, 0x4a885065, 0xe77c797f, 0x1162d575, 0x36e74eb4, 0x763597fb);
    var v29 := Vars(0x74bcf468, 0x73f858af, 0x128661da, 0x573221da, 0x72abaecd, 0xe77c797f, 0x1162d575, 0x36e74eb4);
    var v30 := Vars(0xdf7151a0, 0x74bcf468, 0x73f858af, 0x128661da, 0x7629c961, 0x72abaecd, 0xe77c797f, 0x1162d575);
    var v31 := Vars(0xeb43f3ed, 0xdf7151a0, 0x74bcf468, 0x73f858af, 0x0635d880, 0x7629c961, 0x72abaecd, 0xe77c797f);
    var v32 := Vars(0x5581ab07, 0xeb43f3ed, 0xdf7151a0, 0x74bcf468, 0xdf980085, 0x0635d880, 0x7629c961, 0x72abaecd);
    Step(v0, block, 16, v16, 0xe49b69c1, 0xeb8012ad, v17);
    Step(v0, block, 17, v17, 0xefbe4786, 0xa7c3ae92, v18);
    Step(v0, block, 18, v18, 0x0fc19dc6, 0x76e93ba2, v19);
    Step(v0, block, 19, v19, 0x240ca1cc, 0xba42e743, v20);
    Step(v0, block, 20, v20, 0x2de92c6f, 0x92a92204, v21);
    Step(v0, block, 21, v21, 0x4a7484aa, 0xd847e75e, v22);
    Step(v0, block, 22, v22, 0x5cb0a9dc, 0x9e160036, v23);
    Step(v0, block, 23, v23, 0x76f988da, 0xb280a7cb, v24);
    Step(v0, block, 24, v24, 0x983e5152, 0xddeb1516, v25);
    Step(v0, block, 25, v25, 0xa831c66d, 0xf36586f4, v26);
    Step(v0, block, 26, v26, 0xb00327c8, 0x969cd048, v27);
    Step(v0, block, 27, v27, 0xbf597fc7, 0xe959d99d, v28);
    Step(v0, block, 28, v28, 0xc6e00bf3, 0x6accc0ec, v29);
    Step(v0, block, 29, v29, 0xd5a79147, 0xf54cb098, v30);
    Step(v0, block, 30, v30, 0x06ca6351, 0x2af1b2da, v31);
    Step(v0, block, 31, v31, 0x14292967, 0xee59c4c9, v32);
  }

  lemma FirstRounds32(block: seq<byte>)
    requires |block| == 64 && IsFirst(block)
    ensures Rounds(Vars(0x6a09e667, 0xbb67ae85, 0x3c6ef372, 0xa54ff53a, 0x510e527f, 0x9b05688c, 0x1f83d9ab, 0x5be0cd19), block, 48)
            == Vars(0x13d82741, 0x165be9cd, 0x18f0d19d, 0xde71e2f2, 0xa7802a4d, 0xa483f080, 0x6b88472c, 0xff61c636)
  {
    hide W, RoundConstants, IsFirst, Rounds;
    Constants32();
    Constants40();
    FirstWords32(block);
    FirstRounds16(block);
    var v0 := Vars(0x6a09e667, 0xbb67ae85, 0x3c6ef372, 0xa54ff53a, 0x510e527f, 0x9b05688c, 0x1f83d9ab, 0x5be0cd19);
    var v32 := Vars(0x5581ab07, 0xeb43f3ed, 0xdf7151a0, 0x74bcf468, 0xdf980085, 0x0635d880, 0x7629c961, 0x72abaecd);
    var v33 := Vars(0x9fc905c8, 0x5581ab07, 0xeb43f3ed, 0xdf7151a0, 0xa94d2af1, 0xdf980085, 0x0635d880, 0x7629c961);
    var v34 := Vars(0x9ce5a62f, 0x9fc905c8, 0x5581ab07, 0xeb43f3ed, 0x6ef3b6bd, 0xa94d2af1, 0xdf980085, 0x0635d880);
    var v35 := Vars(0x1df8e885, 0x9ce5a62f, 0x9fc905c8, 0x5581ab07, 0x2a9e048e, 0x6ef3b6bd, 0xa94d2af1, 0xdf980085);
    var v36 := Vars(0x0786dce8, 0x1df8e885, 0x9ce5a62f, 0x9fc905c8, 0xde2a21d1, 0x2a9e048e, 0x6ef3b6bd, 0xa94d2af1);
    var v37 := Vars(0x2c55d3a6, 0x0786dce8, 0x1df8e885, 0x9ce5a62f, 0xb067c1af, 0xde2a21d1, 0x2a9e048e, 0x6ef3b6bd);
    var v38 := Vars(0xa985b4be, 0x2c55d3a6, 0x0786dce8, 0x1df8e885, 0xf72bf353, 0xb067c1af, 0xde2a21d1, 0x2a9e048e);
    var v39 := Vars(0x91ac9d5d, 0xa985b4be, 0x2c55d3a6, 0x0786dce8, 0x68d8d590, 0xf72bf353, 0xb067c1af, 0xde2a21d1);
    var v40 := Vars(0x7e4d30b8, 0x91ac9d5d, 0xa985b4be, 0x2c55d3a6, 0x9f5b9b6d, 0x68d8d590, 0xf72bf353, 0xb067c1af);
    var v41 := Vars(0x7e056794, 0x7e4d30b8, 0x91ac9d5d, 0xa985b4be, 0x423b26c0, 0x9f5b9b6d, 0x68d8d590, 0xf72bf353);
    var v42 := Vars(0x508a16ab, 0x7e056794, 0x7e4d30b8, 0x91ac9d5d, 0x45459d97, 0x423b26c0, 0x9f5b9b6d, 0x68d8d590);
    var v43 := Vars(0xb62c7013, 0x508a16ab, 0x7e056794, 0x7e4d30b8, 0x80a92a00, 0x45459d97, 0x423b26c0, 0x9f5b9b6d);
    var v44 := Vars(0x167361de, 0xb62c7013, 0x508a16ab, 0x7e056794, 0x41dd3844, 0x80a92a00, 0x45459d97, 0x423b26c0);
    var v45 := Vars(0xde71e2f2, 0x167361de, 0xb62c7013, 0x508a16ab, 0xff61c636, 0x41dd3844, 0x80a92a00, 0x45459d97);
    var v46 := Vars(0x18f0d19d, 0xde71e2f2, 0x167361de, 0xb62c7013, 0x6b88472c, 0xff61c636, 0x41dd3844, 0x80a92a00);
    var v47 := Vars(0x165be9cd, 0x18f0d19d, 0xde71e2f2, 0x167361de, 0xa483f080, 0x6b88472c, 0xff61c636, 0x41dd3844);
    var v48 := Vars(0x13d82741, 0x165be9cd, 0x18f0d19d, 0xde71e2f2, 0xa7802a4d, 0xa483f080, 0x6b88472c, 0xff61c636);
    Step(v0, block, 32, v32, 0x27b70a85, 0xa835e16a, v33);
    Step(v0, block, 33, v33, 0x2e1b2138, 0x1dff4429, v34);
    Step(v0, block, 34, v34, 0x4d2c6dfc, 0xd6e15959, v35);
    Step(v0, block, 35, v35, 0x53380d13, 0xc397cd6e, v36);
    Step(v0, block, 36, v36, 0x650a7354, 0x6f1801ca, v37);
    Step(v0, block, 37, v37, 0x766a0abb, 0x21574205, v38);
    Step(v0, block, 38, v38, 0x81c2c92e, 0x35ff7a84, v39);
    Step(v0, block, 39, v39, 0x92722c85, 0x9743ee78, v40);
    Step(v0, block, 40, v40, 0xa2bfe8a1, 0xe44183e7, v41);
    Step(v0, block, 41, v41, 0xa81a664b, 0x0d09f00d, v42);
    Step(v0, block, 42, v42, 0xc24b8b70, 0x9c89af54, v43);
    Step(v0, block, 43, v43, 0xc76c51a3, 0x042d5bef, v44);
    Step(v0, block, 44, v44, 0xd192e819, 0x71f134d0, v45);
    Step(v0, block, 45, v45, 0xd6990624, 0x0f94f463, v46);
    Step(v0, block, 46, v46, 0xf40e3585, 0x7e49dc63, v47);
    Step(v0, block, 47, v47, 0x106aa070, 0x6f65c997, v48);
  }

  lemma FirstRounds48(block: seq<byte>)
    requires |block| == 64 && IsFirst(block)
    ensures Rounds(Vars(0x6a09e667, 0xbb67ae85, 0x3c6ef372, 0xa54ff53a, 0x510e527f, 0x9b05688c, 0x1f83d9ab, 0x5be0cd19), block, 64)
            == Vars(0x1bdc6f6f, 0x86126910, 0xf6f443f8, 0xbcfce922, 0x25d2430a, 0x2fc08f85, 0xacc75916, 0x962d8621)
  {
    hide W, RoundConstants, IsFirst, Rounds;
    Constants48();
    Constants56();
    FirstWords48(block);
    FirstRounds32(block);
    var v0 := Vars(0x6a09e667, 0xbb67ae85, 0x3c6ef372, 0xa54ff53a, 0x510e527f, 0x9b05688c, 0x1f83d9ab, 0x5be0cd19);
    var v48 := Vars(0x13d82741, 0x165be9cd, 0x18f0d19d, 0xde71e2f2, 0xa7802a4d, 0xa483f080, 0x6b88472c, 0xff61c636);
    var v49 := Vars(0x017b9d99, 0x13d82741, 0x165be9cd, 0x18f0d19d, 0xaeb10b60, 0xa7802a4d, 0xa483f080, 0x6b88472c);
    var v50 := Vars(0x543c99a1, 0x017b9d99, 0x13d82741, 0x165be9cd, 0x16f134b6, 0xaeb10b60, 0xa7802a4d, 0xa483f080);
    var v51 := Vars(0x758ca97a, 0x543c99a1, 0x017b9d99, 0x13d82741, 0x100cf2ea, 0x16f134b6, 0xaeb10b60, 0xa7802a4d);
    var v52 := Vars(0x81c1cde0, 0x758ca97a, 0x543c99a1, 0x017b9d99, 0x5c47eb7b, 0x100cf2ea, 0x16f134b6, 0xaeb10b60);
    var v53 := Vars(0xb8d55619, 0x81c1cde0, 0x758ca97a, 0x543c99a1, 0x1c806a61, 0x5c47eb7b, 0x100cf2ea, 0x16f134b6);
    var v54 := Vars(0x1d6de87a, 0xb8d55619, 0x81c1cde0, 0x758ca97a, 0x3443bed4, 0x1c806a61, 0x5c47eb7b, 0x100cf2ea);
    var v55 := Vars(0xf907b313, 0x1d6de87a, 0xb8d55619, 0x81c1cde0, 0x61a41711, 0x3443bed4, 0x1c806a61, 0x5c47eb7b);
    var v56 := Vars(0x9e57c4a0, 0xf907b313, 0x1d6de87a, 0xb8d55619, 0xeec13548, 0x61a41711, 0x3443bed4, 0x1c806a61);
    var v57 := Vars(0x71629856, 0x9e57c4a0, 0xf907b313, 0x1d6de87a, 0x2f6c8c4e, 0xeec13548, 0x61a41711, 0x3443bed4);
    var v58 := Vars(0x7c015a2c, 0x71629856, 0x9e57c4a0, 0xf907b313, 0xcb9d3dd0, 0x2f6c8c4e, 0xeec13548, 0x61a41711);
    var v59 := Vars(0x921fccb6, 0x7c015a2c, 0x71629856, 0x9e57c4a0, 0x43d8a034, 0xcb9d3dd0, 0x2f6c8c4e, 0xeec13548);
    var v60 := Vars(0xe18f259a, 0x921fccb6, 0x7c015a2c, 0x71629856, 0x51e15869, 0x43d8a034, 0xcb9d3dd0, 0x2f6c8c4e);
    var v61 := Vars(0xbcfce922, 0xe18f259a, 0x921fccb6, 0x7c015a2c, 0x962d8621, 0x51e15869, 0x43d8a034, 0xcb9d3dd0);
    var v62 := Vars(0xf6f443f8, 0xbcfce922, 0xe18f259a, 0x921fccb6, 0xacc75916, 0x962d8621, 0x51e15869, 0x43d8a034);
    var v63 := Vars(0x86126910, 0xf6f443f8, 0xbcfce922, 0xe18f259a, 0x2fc08f85, 0xacc75916, 0x962d8621, 0x51e15869);
    var v64 := Vars(0x1bdc6f6f, 0x86126910, 0xf6f443f8, 0xbcfce922, 0x25d2430a, 0x2fc08f85, 0xacc75916, 0x962d8621);
    Step(v0, block, 48, v48, 0x19a4c116, 0x0b706583, v49);
    Step(v0, block, 49, v49, 0x1e376c08, 0x179312ca, v50);
    Step(v0, block, 50, v50, 0x2748774c, 0x503054e9, v51);
    Step(v0, block, 51, v51, 0x34b0bcb5, 0xba125c39, v52);
    Step(v0, block, 52, v52, 0x391c0cb3, 0x7e9392c9, v53);
    Step(v0, block, 53, v53, 0x4ed8aa4a, 0xd5cbaa1e, v54);
    Step(v0, block, 54, v54, 0x5b9cca4f, 0x78e0585d, v55);
    Step(v0, block, 55, v55, 0x682e6ff3, 0xf6e7611c, v56);
    Step(v0, block, 56, v56, 0x748f82ee, 0x8ac830ce, v57);
    Step(v0, block, 57, v57, 0x78a5636f, 0x8b47a303, v58);
    Step(v0, block, 58, v58, 0x84c87814, 0xfd6e627f, v59);
    Step(v0, block, 59, v59, 0x8cc70208, 0x8c6e2c6a, v60);
    Step(v0, block, 60, v60, 0x90befffa, 0x4001adf1, v61);
    Step(v0, block, 61, v61, 0xa4506ceb, 0x1a3dd097, v62);
    Step(v0, block, 62, v62, 0xbef9a3f7, 0xa9df6f62, v63);
    Step(v0, block, 63, v63, 0xc67178f2, 0x6aa60a39, v64);
  }

  lemma FirstCompressed(block: seq<byte>)
    requires |block| == 64 && IsFirst(block)
    ensures Compress([0x6a09e667, 0xbb67ae85, 0x3c6ef372, 0xa54ff53a, 0x510e527f, 0x9b05688c, 0x1f83d9ab, 0x5be0cd19], block)
            == [0x85e655d6, 0x417a1795, 0x3363376a, 0x624cde5c, 0x76e09589, 0xcac5f811, 0xcc4b32c1, 0xf20e533a]
  {
    hide Rounds, IsFirst;
    FirstRounds48(block);
  }

  // ---- the 56 letters, second block ----

  ghost predicate IsSecond(block: seq<byte>)
    requires |block| == 64
  {
    && block[0] == 0x00 && block[1] == 0x00 && block[2] == 0x00 && block[3] == 0x00
    && block[4] == 0x00 && block[5] == 0x00 && block[6] == 0x00 && block[7] == 0x00
    && block[8] == 0x00 && block[9] == 0x00 && block[10] == 0x00 && block[11] == 0x00
    && block[12] == 0x00 && block[13] == 0x00 && block[14] == 0x00 && block[15] == 0x00
    && block[16] == 0x00 && block[17] == 0x00 && block[18] == 0x00 && block[19] == 0x00
    && block[20] == 0x00 && block[21] == 0x00 && block[22] == 0x00 && block[23] == 0x00
    && block[24] == 0x00 && block[25] == 0x00 && block[26] == 0x00 && block[27] == 0x00
    && block[28] == 0x00 && block[29] == 0x00 && block[30] == 0x00 && block[31] == 0x00
    && block[32] == 0x00 && block[33] == 0x00 && block[34] == 0x00 && block[35] == 0x00
    && block[36] == 0x00 && block[37] == 0x00 && block[38] == 0x00 && block[39] == 0x00
    && block[40] == 0x00 && block[41] == 0x00 && block[42] == 0x00 && block[43] == 0x00
    && block[44] == 0x00 && block[45] == 0x00 && block[46] == 0x00 && block[47] == 0x00
    && block[48] == 0x00 && block[49] == 0x00 && block[50] == 0x00 && block[51] == 0x00
    && block[52] == 0x00 && block[53] == 0x00 && block[54] == 0x00 && block[55] == 0x00
    && block[56] == 0x00 && block[57] == 0x00 && block[58] == 0x00 && block[59] == 0x00
    && block[60] == 0x00 && block[61] == 0x00 && block[62] == 0x01 && block[63] == 0xc0
  }

  lemma SecondWords0(block: seq<byte>)
    requires |block| == 64 && IsSecond(block)
    ensures W(block, 0) == 0x00000000
    ensures W(block, 1) == 0x00000000
    ensures W(block, 2) == 0x00000000
    ensures W(block, 3) == 0x00000000
    ensures W(block, 4) == 0x00000000
    ensures W(block, 5) == 0x00000000
    ensures W(block, 6) == 0x00000000
    ensures W(block, 7) == 0x00000000
    ensures W(block, 8) == 0x00000000
    ensures W(block, 9) == 0x00000000
    ensures W(block, 10) == 0x00000000
    ensures W(block, 11) == 0x00000000
    ensures W(block, 12) == 0x00000000
    ensures W(block, 13) == 0x00000000
    ensures W(block, 14) == 0x00000000
    ensures W(block, 15) == 0x000001c0
  {
    hide W;
    FirstWord(block, 0, 0x00, 0x00, 0x00, 0x00);
    FirstWord(block, 1, 0x00, 0x00, 0x00, 0x00);
    FirstWord(block, 2, 0x00, 0x00, 0x00, 0x00);
    FirstWord(block, 3, 0x00, 0x00, 0x00, 0x00);
    FirstWord(block, 4, 0x00, 0x00, 0x00, 0x00);
    FirstWord(block, 5, 0x00, 0x00, 0x00, 0x00);
    FirstWord(block, 6, 0x00, 0x00, 0x00, 0x00);
    FirstWord(block, 7, 0x00, 0x00, 0x00, 0x00);
    FirstWord(block, 8, 0x00, 0x00, 0x00, 0x00);
    FirstWord(block, 9, 0x00, 0x00, 0x00, 0x00);
    FirstWord(block, 10, 0x00, 0x00, 0x00, 0x00);
    FirstWord(block, 11, 0x00, 0x00, 0x00, 0x00);
    FirstWord(block, 12, 0x00, 0x00, 0x00, 0x00);
    FirstWord(block, 13, 0x00, 0x00, 0x00, 0x00);
    FirstWord(block, 14, 0x00, 0x00, 0x00, 0x00);
    FirstWord(block, 15, 0x00, 0x00, 0x01, 0xc0);
  }

  lemma SecondWords16(block: seq<byte>)
    requires |block| == 64 && IsSecond(block)
    ensures W(block, 16) == 0x00000000
    ensures W(block, 17) == 0x00d80000
    ensures W(block, 18) == 0x00000000
    ensures W(block, 19) == 0x00003677
    ensures W(block, 20) == 0x00000000
    ensures W(block, 21) == 0x1df5600d
    ensures W(block, 22) == 0x000001c0
    ensures W(block, 23) == 0x1c00501c
    ensures W(block, 24) == 0x01b00000
    ensures W(block, 25) == 0x220a8d94
    ensures W(block, 26) == 0x0000a365
    ensures W(block, 27) == 0x177017e7
    ensures W(block, 28) == 0x63d38035
    ensures W(block, 29) == 0x090ab713
    ensures W(block, 30) == 0x4c7539ca
    ensures W(block, 31) == 0x0f19a8c9
  {
    hide W, IsSecond;
    SecondWords0(block);
    NextWord(block, 16, 0x00000000, 0x00000000, 0x00000000, 0x00000000);
    NextWord(block, 17, 0x000001c0, 0x00000000, 0x00000000, 0x00000000);
    NextWord(block, 18, 0x00000000, 0x00000000, 0x00000000, 0x00000000);
    NextWord(block, 19, 0x00d80000, 0x00000000, 0x00000000, 0x00000000);
    NextWord(block, 20, 0x00000000, 0x00000000, 0x00000000, 0x00000000);
    NextWord(block, 21, 0x00003677, 0x00000000, 0x00000000, 0x00000000);
    NextWord(block, 22, 0x00000000, 0x000001c0, 0x00000000, 0x00000000);
    NextWord(block, 23, 0x1df5600d, 0x00000000, 0x00000000, 0x00000000);
    NextWord(block, 24, 0x000001c0, 0x00d80000, 0x00000000, 0x00000000);
    NextWord(block, 25, 0x1c00501c, 0x00000000, 0x00000000, 0x00000000);
    NextWord(block, 26, 0x01b00000, 0x00003677, 0x00000000, 0x00000000);
    NextWord(block, 27, 0x220a8d94, 0x00000000, 0x00000000, 0x00000000);
    NextWord(block, 28, 0x0000a365, 0x1df5600d, 0x00000000, 0x00000000);
    NextWord(block, 29, 0x177017e7, 0x000001c0, 0x00000000, 0x00000000);
    NextWord(block, 30, 0x63d38035, 0x1c00501c, 0x000001c0, 0x00000000);
    NextWord(block, 31, 0x090ab713, 0x01b00000, 0x00000000, 0x000001c0);
  }

  lemma SecondWords32(block: seq<byte>)
    requires |block| == 64 && IsSecond(block)
    ensures W(block, 32) == 0x5df4b0c4
    ensures W(block, 33) == 0xe257036a
    ensures W(block, 34) == 0xc97bb6f1
    ensures W(block, 35) == 0xc5b46f4d
    ensures W(block, 36) == 0xf8253c4e
    ensures W(block, 37) == 0xa558d189
    ensures W(block, 38) == 0x78696285
    ensures W(block, 39) == 0xed07117f
    ensures W(block, 40) == 0x107358f6
    ensures W(block, 41) == 0x390ae496
    ensures W(block, 42) == 0x565010a2
    ensures W(block, 43) == 0xc51d7d44
    ensures W(block, 44) == 0x9e74c972
    ensures W(block, 45) == 0x6614b561
    ensures W(block, 46) == 0x30fc129d
    ensures W(block, 47) == 0x9ac684a8
  {
    hide W, IsSecond;
    SecondWords16(block);
    NextWord(block, 32, 0x4c7539ca, 0x220a8d94, 0x00d80000, 0x00000000);
    NextWord(block, 33, 0x0f19a8c9, 0x0000a365, 0x00000000, 0x00d80000);
    NextWord(block, 34, 0x5df4b0c4, 0x177017e7, 0x00003677, 0x00000000);
    NextWord(block, 35, 0xe257036a, 0x63d38035, 0x00000000, 0x00003677);
    NextWord(block, 36, 0xc97bb6f1, 0x090ab713, 0x1df5600d, 0x00000000);
    NextWord(block, 37, 0xc5b46f4d, 0x4c7539ca, 0x000001c0, 0x1df5600d);
    NextWord(block, 38, 0xf8253c4e, 0x0f19a8c9, 0x1c00501c, 0x000001c0);
    NextWord(block, 39, 0xa558d189, 0x5df4b0c4, 0x01b00000, 0x1c00501c);
    NextWord(block, 40, 0x78696285, 0xe257036a, 0x220a8d94, 0x01b00000);
    NextWord(block, 41, 0xed07117f, 0xc97bb6f1, 0x0000a365, 0x220a8d94);
    NextWord(block, 42, 0x107358f6, 0xc5b46f4d, 0x177017e7, 0x0000a365);
    NextWord(block, 43, 0x390ae496, 0xf8253c4e, 0x63d38035, 0x177017e7);
    NextWord(block, 44, 0x565010a2, 0xa558d189, 0x090ab713, 0x63d38035);
    NextWord(block, 45, 0xc51d7d44, 0x78696285, 0x4c7539ca, 0x090ab713);
    NextWord(block, 46, 0x9e74c972, 0xed07117f, 0x0f19a8c9, 0x4c7539ca);
    NextWord(block, 47, 0x6614b561, 0x107358f6, 0x5df4b0c4, 0x0f19a8c9);
  }

  lemma SecondWords48(block: seq<byte>)
    requires |block| == 64 && IsSecond(block)
    ensures W(block, 48) == 0x2b658dbd
    ensures W(block, 49) == 0xe290f793
    ensures W(block, 50) == 0x9eebb24c
    ensures W(block, 51) == 0x9713b5de
    ensures W(block, 52) == 0x41061ab7
    ensures W(block, 53) == 0xe022e23b
    ensures W(block, 54) == 0x0772079e
    ensures W(block, 55) == 0x7de22d9c
    ensures W(block, 56) == 0xc8b83778
    ensures W(block, 57) == 0x75a79849
    ensures W(block, 58) == 0xd93dbddb
    ensures W(block, 59) == 0x0a036c9d
    ensures W(block, 60) == 0xcb4f6ac6
    ensures W(block, 61) == 0x823f97e2
    ensures W(block, 62) == 0xea2f2a7a
    ensures W(block, 63) == 0xb9018b52
  {
    hide W, IsSecond;
    SecondWords32(block);
    NextWord(block, 48, 0x30fc129d, 0x390ae496, 0xe257036a, 0x5df4b0c4);
    NextWord(block, 49, 0x9ac684a8, 0x565010a2, 0xc97bb6f1, 0xe257036a);
    NextWord(block, 50, 0x2b658dbd, 0xc51d7d44, 0xc5b46f4d, 0xc97bb6f1);
    NextWord(block, 51, 0xe290f793, 0x9e74c972, 0xf8253c4e, 0xc5b46f4d);
    NextWord(block, 52, 0x9eebb24c, 0x6614b561, 0xa558d189, 0xf8253c4e);
    NextWord(block, 53, 0x9713b5de, 0x30fc129d, 0x78696285, 0xa558d189);
    NextWord(block, 54, 0x41061ab7, 0x9ac684a8, 0xed07117f, 0x78696285);
    NextWord(block, 55, 0xe022e23b, 0x2b658dbd, 0x107358f6, 0xed07117f);
    NextWord(block, 56, 0x0772079e, 0xe290f793, 0x390ae496, 0x107358f6);
    NextWord(block, 57, 0x7de22d9c, 0x9eebb24c, 0x565010a2, 0x390ae496);
    NextWord(block, 58, 0xc8b83778, 0x9713b5de, 0xc51d7d44, 0x565010a2);
    NextWord(block, 59, 0x75a79849, 0x41061ab7, 0x9e74c972, 0xc51d7d44);
    NextWord(block, 60, 0xd93dbddb, 0xe022e23b, 0x6614b561, 0x9e74c972);
    NextWord(block, 61, 0x0a036c9d, 0x0772079e, 0x30fc129d, 0x6614b561);
    NextWord(block, 62, 0xcb4f6ac6, 0x7de22d9c, 0x9ac684a8, 0x30fc129d);
    NextWord(block, 63, 0x823f97e2, 0xc8b83778, 0x2b658dbd, 0x9ac684a8);
  }

  lemma SecondRounds0(block: seq<byte>)
    requires |block| == 64 && IsSecond(block)
    ensures Rounds(Vars(0x85e655d6, 0x417a1795, 0x3363376a, 0x624cde5c, 0x76e09589, 0xcac5f811, 0xcc4b32c1, 0xf20e533a), block, 16)
            == Vars(0x16a8cc79, 0x0cea5cbc, 0xd74080fa, 0x35ee996d, 0x0fcb1f6f, 0x60356548, 0x68aa893f, 0x5c24e2a2)
  {
    hide W, RoundConstants, IsSecond;
    Constants0();
    Constants8();
    SecondWords0(block);
    var v0 := Vars(0x85e655d6, 0x417a1795, 0x3363376a, 0x624cde5c, 0x76e09589, 0xcac5f811, 0xcc4b32c1, 0xf20e533a);
    var v1 := Vars(0x7c20c838, 0x85e655d6, 0x417a1795, 0x3363376a, 0x4670ae6e, 0x76e09589, 0xcac5f811, 0xcc4b32c1);
    var v2 := Vars(0x7c3c0f86, 0x7c20c838, 0x85e655d6, 0x417a1795, 0x8c51be64, 0x4670ae6e, 0x76e09589, 0xcac5f811);
    var v3 := Vars(0xfd1eebdc, 0x7c3c0f86, 0x7c20c838, 0x85e655d6, 0xaf71b9ea, 0x8c51be64, 0x4670ae6e, 0x76e09589);
    var v4 := Vars(0xf268faa9, 0xfd1eebdc, 0x7c3c0f86, 0x7c20c838, 0xe20362ef, 0xaf71b9ea, 0x8c51be64, 0x4670ae6e);
    var v5 := Vars(0x185a5d79, 0xf268faa9, 0xfd1eebdc, 0x7c3c0f86, 0x8dff3001, 0xe20362ef, 0xaf71b9ea, 0x8c51be64);
    var v6 := Vars(0x3eeb6c06, 0x185a5d79, 0xf268faa9, 0xfd1eebdc, 0xfe20cda6, 0x8dff3001, 0xe20362ef, 0xaf71b9ea);
    var v7 := Vars(0x89bba3f1, 0x3eeb6c06, 0x185a5d79, 0xf268faa9, 0x0a34df03, 0xfe20cda6, 0x8dff3001, 0xe20362ef);
    var v8 := Vars(0xbf9a93a0, 0x89bba3f1, 0x3eeb6c06, 0x185a5d79, 0x059abdd1, 0x0a34df03, 0xfe20cda6, 0x8dff3001);
    var v9 := Vars(0x2c096744, 0xbf9a93a0, 0x89bba3f1, 0x3eeb6c06, 0xabfa465b, 0x059abdd1, 0x0a34df03, 0xfe20cda6);
    var v10 := Vars(0x2d964e86, 0x2c096744, 0xbf9a93a0, 0x89bba3f1, 0xaa27ed82, 0xabfa465b, 0x059abdd1, 0x0a34df03);
    var v11 := Vars(0x5b35025b, 0x2d964e86, 0x2c096744, 0xbf9a93a0, 0x10e77723, 0xaa27ed82, 0xabfa465b, 0x059abdd1);
    var v12 := Vars(0x5eb4ec40, 0x5b35025b, 0x2d964e86, 0x2c096744, 0xe11b4548, 0x10e77723, 0xaa27ed82, 0xabfa465b);
    var v13 := Vars(0x35ee996d, 0x5eb4ec40, 0x5b35025b, 0x2d964e86, 0x5c24e2a2, 0xe11b4548, 0x10e77723, 0xaa27ed82);
    var v14 := Vars(0xd74080fa, 0x35ee996d, 0x5eb4ec40, 0x5b35025b, 0x68aa893f, 0x5c24e2a2, 0xe11b4548, 0x10e77723);
    var v15 := Vars(0x0cea5cbc, 0xd74080fa, 0x35ee996d, 0x5eb4ec40, 0x60356548, 0x68aa893f, 0x5c24e2a2, 0xe11b4548);
    var v16 := Vars(0x16a8cc79, 0x0cea5cbc, 0xd74080fa, 0x35ee996d, 0x0fcb1f6f, 0x60356548, 0x68aa893f, 0x5c24e2a2);
    Step(v0, block, 0, v0, 0x428a2f98, 0x00000000, v1);
    Step(v0, block, 1, v1, 0x71374491, 0x00000000, v2);
    Step(v0, block, 2, v2, 0xb5c0fbcf, 0x00000000, v3);
    Step(v0, block, 3, v3, 0xe9b5dba5, 0x00000000, v4);
    Step(v0, block, 4, v4, 0x3956c25b, 0x00000000, v5);
    Step(v0, block, 5, v5, 0x59f111f1, 0x00000000, v6);
    Step(v0, block, 6, v6, 0x923f82a4, 0x00000000, v7);
    Step(v0, block, 7, v7, 0xab1c5ed5, 0x00000000, v8);
    Step(v0, block, 8, v8, 0xd807aa98, 0x00000000, v9);
    Step(v0, block, 9, v9, 0x12835b01, 0x00000000, v10);
    Step(v0, block, 10, v10, 0x243185be, 0x00000000, v11);
    Step(v0, block, 11, v11, 0x550c7dc3, 0x00000000, v12);
    Step(v0, block, 12, v12, 0x72be5d74, 0x00000000, v13);
    Step(v0, block, 13, v13, 0x80deb1fe, 0x00000000, v14);
    Step(v0, block, 14, v14, 0x9bdc06a7, 0x00000000, v15);
    Step(v0, block, 15, v15, 0xc19bf174, 0x000001c0, v16);
  }

  lemma SecondRounds16(block: seq<byte>)
    requires |block| == 64 && IsSecond(block)
    ensures Rounds(Vars(0x85e655d6, 0x417a1795, 0x3363376a, 0x624cde5c, 0x76e09589, 0xcac5f811, 0xcc4b32c1, 0xf20e533a), block, 32)
            == Vars(0xb0eab1c5, 0x02ef3a5f, 0x1cfa5eb0, 0xd958b529, 0xf6d93952, 0x5da10665, 0x6c49db9f, 0xc2fa99b1)
  {
    hide W, RoundConstants, IsSecond, Rounds;
    Constants16();
    Constants24();
    SecondWords16(block);
    SecondRounds0(block);
    var v0 := Vars(0x85e655d6, 0x417a1795, 0x3363376a, 0x624cde5c, 0x76e09589, 0xcac5f811, 0xcc4b32c1, 0xf20e533a);
    var v16 := Vars(0x16a8cc79, 0x0cea5cbc, 0xd74080fa, 0x35ee996d, 0x0fcb1f6f, 0x60356548, 0x68aa893f, 0x5c24e2a2);
    var v17 := Vars(0xf16f634e, 0x16a8cc79, 0x0cea5cbc, 0xd74080fa, 0x8b21cdc1, 0x0fcb1f6f, 0x60356548, 0x68aa893f);
    var v18 := Vars(0x23dcb6c2, 0xf16f634e, 0x16a8cc79, 0x0cea5cbc, 0xca9182d3, 0x8b21cdc1, 0x0fcb1f6f, 0x60356548);
    var v19 := Vars(0xdcff40fd, 0x23dcb6c2, 0xf16f634e, 0x16a8cc79, 0x69bf7b95, 0xca9182d3, 0x8b21cdc1, 0x0fcb1f6f);
    var v20 := Vars(0x76f1a2bc, 0xdcff40fd, 0x23dcb6c2, 0xf16f634e, 0x0dc84bb1, 0x69bf7b95, 0xca9182d3, 0x8b21cdc1);
    var v21 := Vars(0x20aad899, 0x76f1a2bc, 0xdcff40fd, 0x23dcb6c2, 0xcc4769f2, 0x0dc84bb1, 0x69bf7b95, 0xca9182d3);
    var v22 := Vars(0xd44dc81a, 0x20aad899, 0x76f1a2bc, 0xdcff40fd, 0x5bace62d, 0xcc4769f2, 0x0dc84bb1, 0x69bf7b95);
    var v23 := Vars(0xf13ae55b, 0xd44dc81a, 0x20aad899, 0x76f1a2bc, 0x966aa287, 0x5bace62d, 0xcc4769f2, 0x0dc84bb1);
    var v24 := Vars(0xa4195b91, 0xf13ae55b, 0xd44dc81a, 0x20aad899, 0xeddbd6ed, 0x966aa287, 0x5bace62d, 0xcc4769f2);
    var v25 := Vars(0x4984fa79, 0xa4195b91, 0xf13ae55b, 0xd44dc81a, 0xa530d939, 0xeddbd6ed, 0x966aa287, 0x5bace62d);
    var v26 := Vars(0xaa6cb982, 0x4984fa79, 0xa4195b91, 0xf13ae55b, 0x0b5eeea4, 0xa530d939, 0xeddbd6ed, 0x966aa287);
    var v27 := Vars(0x9450fbbc, 0xaa6cb982, 0x4984fa79, 0xa4195b91, 0x09166dda, 0x0b5eeea4, 0xa530d939, 0xeddbd6ed);
    var v28 := Vars(0x0d936bab, 0x9450fbbc, 0xaa6cb982, 0x4984fa79, 0x6e495d4b, 0x09166dda, 0x0b5eeea4, 0xa530d939);
    var v29 := Vars(0xd958b529, 0x0d936bab, 0x9450fbbc, 0xaa6cb982, 0xc2fa99b1, 0x6e495d4b, 0x09166dda, 0x0b5eeea4);
    var v30 := Vars(0x1cfa5eb0, 0xd958b529, 0x0d936bab, 0x9450fbbc, 0x6c49db9f, 0xc2fa99b1, 0x6e495d4b, 0x09166dda);
    var v31 := Vars(0x02ef3a5f, 0x1cfa5eb0, 0xd958b529, 0x0d936bab, 0x5da10665, 0x6c49db9f, 0xc2fa99b1, 0x6e495d4b);
    var v32 := Vars(0xb0eab1c5, 0x02ef3a5f, 0x1cfa5eb0, 0xd958b529, 0xf6d93952, 0x5da10665, 0x6c49db9f, 0xc2fa99b1);
    Step(v0, block, 16, v16, 0xe49b69c1, 0x00000000, v17);
    Step(v0, block, 17, v17, 0xefbe4786, 0x00d80000, v18);
    Step(v0, block, 18, v18, 0x0fc19dc6, 0x00000000, v19);
    Step(v0, block, 19, v19, 0x240ca1cc, 0x00003677, v20);
    Step(v0, block, 20, v20, 0x2de92c6f, 0x00000000, v21);
    Step(v0, block, 21, v21, 0x4a7484aa, 0x1df5600d, v22);
    Step(v0, block, 22, v22, 0x5cb0a9dc, 0x000001c0, v23);
    Step(v0, block, 23, v23, 0x76f988da, 0x1c00501c, v24);
    Step(v0, block, 24, v24, 0x983e5152, 0x01b00000, v25);
    Step(v0, block, 25, v25, 0xa831c66d, 0x220a8d94, v26);
    Step(v0, block, 26, v26, 0xb00327c8, 0x0000a365, v27);
    Step(v0, block, 27, v27, 0xbf597fc7, 0x177017e7, v28);
    Step(v0, block, 28, v28, 0xc6e00bf3, 0x63d38035, v29);
    Step(v0, block, 29, v29, 0xd5a79147, 0x090ab713, v30);
    Step(v0, block, 30, v30, 0x06ca6351, 0x4c7539ca, v31);
    Step(v0, block, 31, v31, 0x14292967, 0x0f19a8c9, v32);
  }

  lemma SecondRounds32(block: seq<byte>)
    requires |block| == 64 && IsSecond(block)
    ensures Rounds(Vars(0x85e655d6, 0x417a1795, 0x3363376a, 0x624cde5c, 0x76e09589, 0xcac5f811, 0xcc4b32c1, 0xf20e533a), block, 48)
            == Vars(0xd7354d5b, 0x0b3303a7, 0x104a7db4, 0x0f154e11, 0xaad55b6b, 0xbbe1c39a, 0x5348e8f6, 0x6f9517cb)
  {
    hide W, RoundConstants, IsSecond, Rounds;
    Constants32();
    Constants40();
    SecondWords32(block);
    SecondRounds16(block);
    var v0 := Vars(0x85e655d6, 0x417a1795, 0x3363376a, 0x624cde5c, 0x76e09589, 0xcac5f811, 0xcc4b32c1, 0xf20e533a);
    var v32 := Vars(0xb0eab1c5, 0x02ef3a5f, 0x1cfa5eb0, 0xd958b529, 0xf6d93952, 0x5da10665, 0x6c49db9f, 0xc2fa99b1);
    var v33 := Vars(0x0bfba73c, 0xb0eab1c5, 0x02ef3a5f, 0x1cfa5eb0, 0x8b99e3a9, 0xf6d93952, 0x5da10665, 0x6c49db9f);
    var v34 := Vars(0x4bd1df96, 0x0bfba73c, 0xb0eab1c5, 0x02ef3a5f, 0x905e44ac, 0x8b99e3a9, 0xf6d93952, 0x5da10665);
    var v35 := Vars(0x9907f1b6, 0x4bd1df96, 0x0bfba73c, 0xb0eab1c5, 0x66c3043d, 0x905e44ac, 0x8b99e3a9, 0xf6d93952);
    var v36 := Vars(0xecde4e0d, 0x9907f1b6, 0x4bd1df96, 0x0bfba73c, 0x5dc119e6, 0x66c3043d, 0x905e44ac, 0x8b99e3a9);
    var v37 := Vars(0x2f11c939, 0xecde4e0d, 0x9907f1b6, 0x4bd1df96, 0xfed4ce1d, 0x5dc119e6, 0x66c3043d, 0x905e44ac);
    var v38 := Vars(0xd949682b, 0x2f11c939, 0xecde4e0d, 0x9907f1b6, 0x32d99008, 0xfed4ce1d, 0x5dc119e6, 0x66c3043d);
    var v39 := Vars(0xadca7a96, 0xd949682b, 0x2f11c939, 0xecde4e0d, 0xc6cce4ff, 0x32d99008, 0xfed4ce1d, 0x5dc119e6);
    var v40 := Vars(0x221b8a5a, 0xadca7a96, 0xd949682b, 0x2f11c939, 0x0b82c5eb, 0xc6cce4ff, 0x32d99008, 0xfed4ce1d);
    var v41 := Vars(0x12d97845, 0x221b8a5a, 0xadca7a96, 0xd949682b, 0xe4213ca2, 0x0b82c5eb, 0xc6cce4ff, 0x32d99008);
    var v42 := Vars(0x2c794876, 0x12d97845, 0x221b8a5a, 0xadca7a96, 0xff6759ba, 0xe4213ca2, 0x0b82c5eb, 0xc6cce4ff);
    var v43 := Vars(0x8300fca2, 0x2c794876, 0x12d97845, 0x221b8a5a, 0xe0e3457c, 0xff6759ba, 0xe4213ca2, 0x0b82c5eb);
    var v44 := Vars(0xf2ad6322, 0x8300fca2, 0x2c794876, 0x12d97845, 0xcc48c7f3, 0xe0e3457c, 0xff6759ba, 0xe4213ca2);
    var v45 := Vars(0x0f154e11, 0xf2ad6322, 0x8300fca2, 0x2c794876, 0x6f9517cb, 0xcc48c7f3, 0xe0e3457c, 0xff6759ba);
    var v46 := Vars(0x104a7db4, 0x0f154e11, 0xf2ad6322, 0x8300fca2, 0x5348e8f6, 0x6f9517cb, 0xcc48c7f3, 0xe0e3457c);
    var v47 := Vars(0x0b3303a7, 0x104a7db4, 0x0f154e11, 0xf2ad6322, 0xbbe1c39a, 0x5348e8f6, 0x6f9517cb, 0xcc48c7f3);
    var v48 := Vars(0xd7354d5b, 0x0b3303a7, 0x104a7db4, 0x0f154e11, 0xaad55b6b, 0xbbe1c39a, 0x5348e8f6, 0x6f9517cb);
    Step(v0, block, 32, v32, 0x27b70a85, 0x5df4b0c4, v33);
    Step(v0, block, 33, v33, 0x2e1b2138, 0xe257036a, v34);
    Step(v0, block, 34, v34, 0x4d2c6dfc, 0xc97bb6f1, v35);
    Step(v0, block, 35, v35, 0x53380d13, 0xc5b46f4d, v36);
    Step(v0, block, 36, v36, 0x650a7354, 0xf8253c4e, v37);
    Step(v0, block, 37, v37, 0x766a0abb, 0xa558d189, v38);
    Step(v0, block, 38, v38, 0x81c2c92e, 0x78696285, v39);
    Step(v0, block, 39, v39, 0x92722c85, 0xed07117f, v40);
    Step(v0, block, 40, v40, 0xa2bfe8a1, 0x107358f6, v41);
    Step(v0, block, 41, v41, 0xa81a664b, 0x390ae496, v42);
    Step(v0, block, 42, v42, 0xc24b8b70, 0x565010a2, v43);
    Step(v0, block, 43, v43, 0xc76c51a3, 0xc51d7d44, v44);
    Step(v0, block, 44, v44, 0xd192e819, 0x9e74c972, v45);
    Step(v0, block, 45, v45, 0xd6990624, 0x6614b561, v46);
    Step(v0, block, 46, v46, 0xf40e3585, 0x30fc129d, v47);
    Step(v0, block, 47, v47, 0x106aa070, 0x9ac684a8, v48);
  }

  lemma SecondRounds48(block: seq<byte>)
    requires |block| == 64 && IsSecond(block)
    ensures Rounds(Vars(0x85e655d6, 0x417a1795, 0x3363376a, 0x624cde5c, 0x76e09589, 0xcac5f811, 0xcc4b32c1, 0xf20e533a), block, 64)
            == Vars(0x9ea7148b, 0x908c2123, 0xb25cef29, 0xa9f181dd, 0x2c5c4ed0, 0x9a392956, 0x2aa1bb13, 0x27ccb387)
  {
    hide W, RoundConstants, IsSecond, Rounds;
    Constants48();
    Constants56();
    SecondWords48(block);
    SecondRounds32(block);
    var v0 := Vars(0x85e655d6, 0x417a1795, 0x3363376a, 0x624cde5c, 0x76e09589, 0xcac5f811, 0xcc4b32c1, 0xf20e533a);
    var v48 := Vars(0xd7354d5b, 0x0b3303a7, 0x104a7db4, 0x0f154e11, 0xaad55b6b, 0xbbe1c39a, 0x5348e8f6, 0x6f9517cb);
    var v49 := Vars(0xb736d7a6, 0xd7354d5b, 0x0b3303a7, 0x104a7db4, 0x68f25260, 0xaad55b6b, 0xbbe1c39a, 0x5348e8f6);
    var v50 := Vars(0x2748e5ec, 0xb736d7a6, 0xd7354d5b, 0x0b3303a7, 0xd4b58576, 0x68f25260, 0xaad55b6b, 0xbbe1c39a);
    var v51 := Vars(0xd8aabcf9, 0x2748e5ec, 0xb736d7a6, 0xd7354d5b, 0x27844711, 0xd4b58576, 0x68f25260, 0xaad55b6b);
    var v52 := Vars(0x1a6bcf6a, 0xd8aabcf9, 0x2748e5ec, 0xb736d7a6, 0xff5e99d0, 0x27844711, 0xd4b58576, 0x68f25260);
    var v53 := Vars(0x4eca6fa0, 0x1a6bcf6a, 0xd8aabcf9, 0x2748e5ec, 0x989ed071, 0xff5e99d0, 0x27844711, 0xd4b58576);
    var v54 := Vars(0xec02560a, 0x4eca6fa0, 0x1a6bcf6a, 0xd8aabcf9, 0x7151df8e, 0x989ed071, 0xff5e99d0, 0x27844711);
    var v55 := Vars(0xd9f0c115, 0xec02560a, 0x4eca6fa0, 0x1a6bcf6a, 0x624150c4, 0x7151df8e, 0x989ed071, 0xff5e99d0);
    var v56 := Vars(0x92952710, 0xd9f0c115, 0xec02560a, 0x4eca6fa0, 0x226806d6, 0x624150c4, 0x7151df8e, 0x989ed071);
    var v57 := Vars(0x20d4d0e4, 0x92952710, 0xd9f0c115, 0xec02560a, 0x4e515a4d, 0x226806d6, 0x624150c4, 0x7151df8e);
    var v58 := Vars(0x4348eb1f, 0x20d4d0e4, 0x92952710, 0xd9f0c115, 0xc21eddf9, 0x4e515a4d, 0x226806d6, 0x624150c4);
    var v59 := Vars(0x286fe5f0, 0x4348eb1f, 0x20d4d0e4, 0x92952710, 0x54076664, 0xc21eddf9, 0x4e515a4d, 0x226806d6);
    var v60 := Vars(0x1c4cddd9, 0x286fe5f0, 0x4348eb1f, 0x20d4d0e4, 0xf487a853, 0x54076664, 0xc21eddf9, 0x4e515a4d);
    var v61 := Vars(0xa9f181dd, 0x1c4cddd9, 0x286fe5f0, 0x4348eb1f, 0x27ccb387, 0xf487a853, 0x54076664, 0xc21eddf9);
    var v62 := Vars(0xb25cef29, 0xa9f181dd, 0x1c4cddd9, 0x286fe5f0, 0x2aa1bb13, 0x27ccb387, 0xf487a853, 0x54076664);
    var v63 := Vars(0x908c2123, 0xb25cef29, 0xa9f181dd, 0x1c4cddd9, 0x9a392956, 0x2aa1bb13, 0x27ccb387, 0xf487a853);
    var v64 := Vars(0x9ea7148b, 0x908c2123, 0xb25cef29, 0xa9f181dd, 0x2c5c4ed0, 0x9a392956, 0x2aa1bb13, 0x27ccb387);
    Step(v0, block, 48, v48, 0x19a4c116, 0x2b658dbd, v49);
    Step(v0, block, 49, v49, 0x1e376c08, 0xe290f793, v50);
    Step(v0, block, 50, v50, 0x2748774c, 0x9eebb24c, v51);
    Step(v0, block, 51, v51, 0x34b0bcb5, 0x9713b5de, v52);
    Step(v0, block, 52, v52, 0x391c0cb3, 0x41061ab7, v53);
    Step(v0, block, 53, v53, 0x4ed8aa4a, 0xe022e23b, v54);
    Step(v0, block, 54, v54, 0x5b9cca4f, 0x0772079e, v55);
    Step(v0, block, 55, v55, 0x682e6ff3, 0x7de22d9c, v56);
    Step(v0, block, 56, v56, 0x748f82ee, 0xc8b83778, v57);
    Step(v0, block, 57, v57, 0x78a5636f, 0x75a79849, v58);
    Step(v0, block, 58, v58, 0x84c87814, 0xd93dbddb, v59);
    Step(v0, block, 59, v59, 0x8cc70208, 0x0a036c9d, v60);
    Step(v0, block, 60, v60, 0x90befffa, 0xcb4f6ac6, v61);
    Step(v0, block, 61, v61, 0xa4506ceb, 0x823f97e2, v62);
    Step(v0, block, 62, v62, 0xbef9a3f7, 0xea2f2a7a, v63);
    Step(v0, block, 63, v63, 0xc67178f2, 0xb9018b52, v64);
  }

  lemma SecondCompressed(block: seq<byte>)
    requires |block| == 64 && IsSecond(block)
    ensures Compress([0x85e655d6, 0x417a1795, 0x3363376a, 0x624cde5c, 0x76e09589, 0xcac5f811, 0xcc4b32c1, 0xf20e533a], block)
            == [0x248d6a61, 0xd20638b8, 0xe5c02693, 0x0c3e6039, 0xa33ce459, 0x64ff2167, 0xf6ecedd4, 0x19db06c1]
  {
    hide Rounds, IsSecond;
    SecondRounds48(block);
  }

  lemma SecondBytes()
    ensures WordBytes(0x248d6a61) == [0x24, 0x8d, 0x6a, 0x61]
    ensures WordBytes(0xd20638b8) == [0xd2, 0x06, 0x38, 0xb8]
    ensures WordBytes(0xe5c02693) == [0xe5, 0xc0, 0x26, 0x93]
    ensures WordBytes(0x0c3e6039) == [0x0c, 0x3e, 0x60, 0x39]
    ensures WordBytes(0xa33ce459) == [0xa3, 0x3c, 0xe4, 0x59]
    ensures WordBytes(0x64ff2167) == [0x64, 0xff, 0x21, 0x67]
    ensures WordBytes(0xf6ecedd4) == [0xf6, 0xec, 0xed, 0xd4]
    ensures WordBytes(0x19db06c1) == [0x19, 0xdb, 0x06, 0xc1]
  {
  }

  /** The letters abcdbcdecdefdefgefghfghighijhijkijkljklmklmnlmnomnopnopq. */
  const LETTERS: seq<byte> :=
    [0x61, 0x62, 0x63, 0x64, 0x62, 0x63, 0x64, 0x65, 0x63, 0x64, 0x65, 0x66, 0x64, 0x65]
    + [0x66, 0x67, 0x65, 0x66, 0x67, 0x68, 0x66, 0x67, 0x68, 0x69, 0x67, 0x68, 0x69, 0x6a]
    + [0x68, 0x69, 0x6a, 0x6b, 0x69, 0x6a, 0x6b, 0x6c, 0x6a, 0x6b, 0x6c, 0x6d, 0x6b, 0x6c]
    + [0x6d, 0x6e, 0x6c, 0x6d, 0x6e, 0x6f, 0x6d, 0x6e, 0x6f, 0x70, 0x6e, 0x6f, 0x70, 0x71]

  lemma Halves(p: seq<byte>, m: seq<byte>, length: seq<byte>)
    requires |m| == 56 && |length| == 8 && p == m + [0x80] + Zeros(63) + length
    ensures |p| == 128 && p[..64] == m + [0x80] + Zeros(7) && p[64..] == Zeros(56) + length
  {
  }

  lemma FirstHalf()
    ensures IsFirst(LETTERS + [0x80] + Zeros(7))
  {
  }

  lemma SecondHalf()
    ensures IsSecond(Zeros(56) + LengthBytes(448))
  {
    hide LengthBytes;
    Length448();
  }

  lemma LettersPadded()
    ensures |Padded(LETTERS)| == 128
    ensures IsFirst(Padded(LETTERS)[..64]) && IsSecond(Padded(LETTERS)[64..])
  {
    hide LengthBytes, Padded, Zeros, IsFirst, IsSecond;
    PaddedIs(LETTERS, 63, LengthBytes(448));
    Halves(Padded(LETTERS), LETTERS, LengthBytes(448));
    FirstHalf();
    SecondHalf();
  }

  /** FIPS 180-4's two-block example. */
  lemma LettersDigest()
    ensures Digest(LETTERS)
            == [0x24, 0x8d, 0x6a, 0x61, 0xd2, 0x06, 0x38, 0xb8, 0xe5, 0xc0, 0x26, 0x93, 0x0c, 0x3e, 0x60, 0x39,
                0xa3, 0x3c, 0xe4, 0x59, 0x64, 0xff, 0x21, 0x67, 0xf6, 0xec, 0xed, 0xd4, 0x19, 0xdb, 0x06, 0xc1]
  {
    hide Padded, HashBlocks, Compress, InitialState, WordBytes, Bytes, IsFirst, IsSecond, LETTERS;
    var p := Padded(LETTERS);
    LettersPadded();
    TwoBlocks(p);
    Initial();
    FirstCompressed(p[..64]);
    SecondCompressed(p[64..]);
    EightWords(HashBlocks(p));
    SecondBytes();
  }
}
