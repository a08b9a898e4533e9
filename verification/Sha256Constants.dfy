/**
  The constants of SHA-256, checked against their definition in sections 4.2.2 and 5.3.3 of
  FIPS 180-4: the first 32 bits of the fractional parts of the cube roots of the first 64 primes,
  and of the square roots of the first eight.
 */
module Sha256Constants {

  /** k_round_constants. */
  function RoundConstant(t: nat): (k: nat)
    requires t < 64
    ensures k < 0x1_0000_0000
  {
    match t
    case 0 => 0x428a2f98
    case 1 => 0x71374491
    case 2 => 0xb5c0fbcf
    case 3 => 0xe9b5dba5
    case 4 => 0x3956c25b
    case 5 => 0x59f111f1
    case 6 => 0x923f82a4
    case 7 => 0xab1c5ed5
    case 8 => 0xd807aa98
    case 9 => 0x12835b01
    case 10 => 0x243185be
    case 11 => 0x550c7dc3
    case 12 => 0x72be5d74
    case 13 => 0x80deb1fe
    case 14 => 0x9bdc06a7
    case 15 => 0xc19bf174
    case 16 => 0xe49b69c1
    case 17 => 0xefbe4786
    case 18 => 0x0fc19dc6
    case 19 => 0x240ca1cc
    case 20 => 0x2de92c6f
    case 21 => 0x4a7484aa
    case 22 => 0x5cb0a9dc
    case 23 => 0x76f988da
    case 24 => 0x983e5152
    case 25 => 0xa831c66d
    case 26 => 0xb00327c8
    case 27 => 0xbf597fc7
    case 28 => 0xc6e00bf3
    case 29 => 0xd5a79147
    case 30 => 0x06ca6351
    case 31 => 0x14292967
    case 32 => 0x27b70a85
    case 33 => 0x2e1b2138
    case 34 => 0x4d2c6dfc
    case 35 => 0x53380d13
    case 36 => 0x650a7354
    case 37 => 0x766a0abb
    case 38 => 0x81c2c92e
    case 39 => 0x92722c85
    case 40 => 0xa2bfe8a1
    case 41 => 0xa81a664b
    case 42 => 0xc24b8b70
    case 43 => 0xc76c51a3
    case 44 => 0xd192e819
    case 45 => 0xd6990624
    case 46 => 0xf40e3585
    case 47 => 0x106aa070
    case 48 => 0x19a4c116
    case 49 => 0x1e376c08
    case 50 => 0x2748774c
    case 51 => 0x34b0bcb5
    case 52 => 0x391c0cb3
    case 53 => 0x4ed8aa4a
    case 54 => 0x5b9cca4f
    case 55 => 0x682e6ff3
    case 56 => 0x748f82ee
    case 57 => 0x78a5636f
    case 58 => 0x84c87814
    case 59 => 0x8cc70208
    case 60 => 0x90befffa
    case 61 => 0xa4506ceb
    case 62 => 0xbef9a3f7
    case 63 => 0xc67178f2
  }

  function Prime(t: nat): (p: nat)
    requires t < 64
  {
    match t
    case 0 => 2
    case 1 => 3
    case 2 => 5
    case 3 => 7
    case 4 => 11
    case 5 => 13
    case 6 => 17
    case 7 => 19
    case 8 => 23
    case 9 => 29
    case 10 => 31
    case 11 => 37
    case 12 => 41
    case 13 => 43
    case 14 => 47
    case 15 => 53
    case 16 => 59
    case 17 => 61
    case 18 => 67
    case 19 => 71
    case 20 => 73
    case 21 => 79
    case 22 => 83
    case 23 => 89
    case 24 => 97
    case 25 => 101
    case 26 => 103
    case 27 => 107
    case 28 => 109
    case 29 => 113
    case 30 => 127
    case 31 => 131
    case 32 => 137
    case 33 => 139
    case 34 => 149
    case 35 => 151
    case 36 => 157
    case 37 => 163
    case 38 => 167
    case 39 => 173
    case 40 => 179
    case 41 => 181
    case 42 => 191
    case 43 => 193
    case 44 => 197
    case 45 => 199
    case 46 => 211
    case 47 => 223
    case 48 => 227
    case 49 => 229
    case 50 => 233
    case 51 => 239
    case 52 => 241
    case 53 => 251
    case 54 => 257
    case 55 => 263
    case 56 => 269
    case 57 => 271
    case 58 => 277
    case 59 => 281
    case 60 => 283
    case 61 => 293
    case 62 => 307
    case 63 => 311
  }

  /** What usbs_sha256_init stores. */
  function InitialWord(t: nat): (h: nat)
    requires t < 8
    ensures h < 0x1_0000_0000
  {
    match t
    case 0 => 0x6a09e667
    case 1 => 0xbb67ae85
    case 2 => 0x3c6ef372
    case 3 => 0xa54ff53a
    case 4 => 0x510e527f
    case 5 => 0x9b05688c
    case 6 => 0x1f83d9ab
    case 7 => 0x5be0cd19
  }

  /** The whole part of the cube root of the t-th prime. */
  function WholeCubeRoot(t: nat): nat {
    if t < 4 then 1 else if t < 9 then 2 else if t < 18 then 3 else if t < 30 then 4 else if t < 47 then 5 else 6
  }

  function WholeSquareRoot(t: nat): nat {
    if t < 2 then 1 else if t < 4 then 2 else if t < 6 then 3 else 4
  }

  /** The first 32 bits of the fractional part of the cube root of `p`, whose whole part is `c`. */
  predicate IsCubeRootFraction(p: nat, c: nat, k: nat) {
    var r := c * 0x1_0000_0000 + k;
    && c * c * c <= p < (c + 1) * (c + 1) * (c + 1)
    && r * r * r <= p * 0x1_0000_0000_0000_0000_0000_0000 < (r + 1) * (r + 1) * (r + 1)
  }

  predicate IsSquareRootFraction(p: nat, c: nat, h: nat) {
    var r := c * 0x1_0000_0000 + h;
    && c * c <= p < (c + 1) * (c + 1)
    && r * r <= p * 0x1_0000_0000_0000_0000 < (r + 1) * (r + 1)
  }

  lemma CubeRoots0(t: nat)
    requires 0 <= t < 8
    ensures IsCubeRootFraction(Prime(t), WholeCubeRoot(t), RoundConstant(t))
  {
  }

  lemma CubeRoots1(t: nat)
    requires 8 <= t < 16
    ensures IsCubeRootFraction(Prime(t), WholeCubeRoot(t), RoundConstant(t))
  {
  }

  lemma CubeRoots2(t: nat)
    requires 16 <= t < 24
    ensures IsCubeRootFraction(Prime(t), WholeCubeRoot(t), RoundConstant(t))
  {
  }

  lemma CubeRoots3(t: nat)
    requires 24 <= t < 32
    ensures IsCubeRootFraction(Prime(t), WholeCubeRoot(t), RoundConstant(t))
  {
  }

  lemma CubeRoots4(t: nat)
    requires 32 <= t < 40
    ensures IsCubeRootFraction(Prime(t), WholeCubeRoot(t), RoundConstant(t))
  {
  }

  lemma CubeRoots5(t: nat)
    requires 40 <= t < 48
    ensures IsCubeRootFraction(Prime(t), WholeCubeRoot(t), RoundConstant(t))
  {
  }

  lemma CubeRoots6(t: nat)
    requires 48 <= t < 56
    ensures IsCubeRootFraction(Prime(t), WholeCubeRoot(t), RoundConstant(t))
  {
  }

  lemma CubeRoots7(t: nat)
    requires 56 <= t < 64
    ensures IsCubeRootFraction(Prime(t), WholeCubeRoot(t), RoundConstant(t))
  {
  }

  /** Section 4.2.2: every round constant is what the standard defines it to be. */
  lemma RoundConstantsAreCubeRoots(t: nat)
    requires t < 64
    ensures IsCubeRootFraction(Prime(t), WholeCubeRoot(t), RoundConstant(t))
  {
    if t < 8 {
      CubeRoots0(t);
    } else if t < 16 {
      CubeRoots1(t);
    } else if t < 24 {
      CubeRoots2(t);
    } else if t < 32 {
      CubeRoots3(t);
    } else if t < 40 {
      CubeRoots4(t);
    } else if t < 48 {
      CubeRoots5(t);
    } else if t < 56 {
      CubeRoots6(t);
    } else {
      CubeRoots7(t);
    }
  }

  /** Section 5.3.3: so is every word of the initial hash value. */
  lemma InitialWordsAreSquareRoots(t: nat)
    requires t < 8
    ensures IsSquareRootFraction(Prime(t), WholeSquareRoot(t), InitialWord(t))
  {
  }
}
