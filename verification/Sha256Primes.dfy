/**
  The primes that sections 4.2.2 and 5.3.3 of FIPS 180-4 speak of: the table of Sha256Constants lists
  exactly the first 64, in order.
 */
module Sha256Primes {
  import opened Sha256Constants

  predicate IsPrime(n: nat) {
    n >= 2 && forall d | 2 <= d < n :: n % d != 0
  }

  /** No prime up to 17 divides. */
  predicate Trial(n: nat) {
    n % 2 != 0 && n % 3 != 0 && n % 5 != 0 && n % 7 != 0 && n % 11 != 0 && n % 13 != 0 && n % 17 != 0
  }
  // ---- trial division ----

  lemma AtLeast(d: int, m: int)
    requires d >= 0 && m >= 1
    ensures d * m >= d
  {
  }

  lemma NoMultiple(d: int, m: int)
    requires -d < d * m < d
    ensures m == 0
  {
    assert d * (-m) == -(d * m);
    if m > 0 {
      AtLeast(d, m);
    } else if m < 0 {
      AtLeast(d, -m);
    }
  }

  lemma SameRest(d: nat, k: int, r: nat, l: int, t: nat)
    requires r < d && t < d && d * k + r == d * l + t
    ensures r == t
  {
    assert d * (k - l) == t - r;
    NoMultiple(d, k - l);
  }

  lemma Product(d: nat, q: nat)
    requires d > 0
    ensures (d * q) % d == 0
  {
    SameRest(d, q, 0, d * q / d, d * q % d);
  }

  /** A factor of a factor. */
  lemma FactorOf(n: nat, s: nat, p: nat)
    requires s > 0 && p > 0 && n % s == 0 && s % p == 0
    ensures n % p == 0
  {
    var a, b := n / s, s / p;
    assert n == s * a && s == p * b;
    assert n == p * (b * a);
    Product(p, b * a);
  }

  lemma Grows(a: nat, b: nat)
    ensures b < 2 ==> a * b <= a
    ensures a >= 18 && b >= 18 ==> a * b >= 18 * 18
  {
  }

  /** The smaller of two factors is at most 17. */
  lemma SmallFactor(n: nat, d: nat) returns (s: nat)
    requires 2 <= d < n < 324 && n % d == 0
    ensures 2 <= s <= 17 && n % s == 0
  {
    var q := n / d;
    assert n == d * q;
    Grows(d, q);
    if d <= 17 {
      s := d;
    } else {
      Product(q, d);
      s := q;
    }
  }

  lemma FailsTrial(n: nat, s: nat)
    requires 2 <= s <= 17 && n % s == 0
    ensures !Trial(n)
  {
    if s % 2 == 0 { FactorOf(n, s, 2); }
    else if s % 3 == 0 { FactorOf(n, s, 3); }
    else if s % 5 == 0 { FactorOf(n, s, 5); }
    else if s == 7 { } else if s == 11 { } else if s == 13 { } else { }
  }

  /** Below 324, dividing by the primes up to 17 decides. */
  lemma TrialIff(n: nat)
    requires 17 < n < 324
    ensures IsPrime(n) <==> Trial(n)
  {
    if Trial(n) {
      forall d | 2 <= d < n ensures n % d != 0 {
        if n % d == 0 {
          var s := SmallFactor(n, d);
          FailsTrial(n, s);
        }
      }
    }
  }

  lemma FirstPrimes(n: nat)
    requires n <= 17
    ensures IsPrime(n) <==> n in {2, 3, 5, 7, 11, 13, 17}
  {
    assert n % 2 == 0 || n % 3 == 0 || n < 2 || n in {5, 7, 11, 13, 17};
  }

  // ---- the table ----

  /** Of the odd numbers after `p` up to `q`, the last alone passes. */
  predicate Next(p: nat, q: nat)
    decreases q - p
  {
    if p + 2 >= q then p + 2 == q && Trial(q) else !Trial(p + 2) && Next(p + 2, q)
  }

  lemma {:induction false} NextMeans(p: nat, q: nat, n: nat)
    requires Next(p, q) && p % 2 == 1
    ensures p < q && q % 2 == 1
    ensures p < n <= q ==> (Trial(n) <==> n == q)
    decreases q - p
  {
    hide Trial;
    FailsEven(p + 1);
    if p + 2 < q {
      NextMeans(p + 2, q, n);
    } else {
      PassesOdd(q);
    }
  }

  lemma FailsEven(n: nat)
    ensures n % 2 == 0 ==> !Trial(n)
  {
  }

  lemma PassesOdd(n: nat)
    ensures Trial(n) ==> n % 2 == 1
  {
  }

  lemma Gaps6()
    ensures Next(17, 19)
    ensures Next(19, 23)
    ensures Next(23, 29)
    ensures Next(29, 31)
    ensures Next(31, 37)
    ensures Next(37, 41)
    ensures Next(41, 43)
    ensures Next(43, 47)
  {
  }

  lemma Gaps14()
    ensures Next(47, 53)
    ensures Next(53, 59)
    ensures Next(59, 61)
    ensures Next(61, 67)
    ensures Next(67, 71)
    ensures Next(71, 73)
    ensures Next(73, 79)
    ensures Next(79, 83)
  {
  }

  lemma Gaps22()
    ensures Next(83, 89)
    ensures Next(89, 97)
    ensures Next(97, 101)
    ensures Next(101, 103)
    ensures Next(103, 107)
    ensures Next(107, 109)
    ensures Next(109, 113)
    ensures Next(113, 127)
  {
  }

  lemma Gaps30()
    ensures Next(127, 131)
    ensures Next(131, 137)
    ensures Next(137, 139)
    ensures Next(139, 149)
    ensures Next(149, 151)
    ensures Next(151, 157)
    ensures Next(157, 163)
    ensures Next(163, 167)
  {
  }

  lemma Gaps38()
    ensures Next(167, 173)
    ensures Next(173, 179)
    ensures Next(179, 181)
    ensures Next(181, 191)
    ensures Next(191, 193)
    ensures Next(193, 197)
    ensures Next(197, 199)
    ensures Next(199, 211)
  {
  }

  lemma Gaps46()
    ensures Next(211, 223)
    ensures Next(223, 227)
    ensures Next(227, 229)
    ensures Next(229, 233)
    ensures Next(233, 239)
    ensures Next(239, 241)
    ensures Next(241, 251)
    ensures Next(251, 257)
  {
  }

  lemma Gaps54()
    ensures Next(257, 263)
    ensures Next(263, 269)
    ensures Next(269, 271)
    ensures Next(271, 277)
    ensures Next(277, 281)
    ensures Next(281, 283)
    ensures Next(283, 293)
    ensures Next(293, 307)
  {
  }

  lemma Gaps62()
    ensures Next(307, 311)
  {
  }

  lemma Gaps(t: nat)
    requires 6 <= t < 63
    ensures Next(Prime(t), Prime(t + 1))
  {
    hide Next;
    if t < 14 {
      Gaps6();
    } else if t < 22 {
      Gaps14();
    } else if t < 30 {
      Gaps22();
    } else if t < 38 {
      Gaps30();
    } else if t < 46 {
      Gaps38();
    } else if t < 54 {
      Gaps46();
    } else if t < 62 {
      Gaps54();
    } else {
      Gaps62();
    }
  }

  lemma Start(n: nat)
    ensures Prime(6) == 17 && Prime(63) == 311
    ensures forall j, k | 0 <= j < k < 7 :: Prime(j) < Prime(k)
    ensures (exists k | 0 <= k < 7 :: Prime(k) == n) <==> n in {2, 3, 5, 7, 11, 13, 17}
  {
    assert Prime(0) == 2 && Prime(1) == 3 && Prime(2) == 5 && Prime(3) == 7;
    assert Prime(4) == 11 && Prime(5) == 13 && Prime(6) == 17;
  }

  /** The table is odd and increasing from 17 on, and lists what passes the trial. */
  lemma {:induction false} UpTo(t: nat, n: nat)
    requires 6 <= t < 64
    ensures Prime(t) % 2 == 1 && Prime(t) >= 17
    ensures 17 < n <= Prime(t) ==> (Trial(n) <==> exists k | 7 <= k <= t :: Prime(k) == n)
    ensures forall k | 6 <= k < t :: Prime(k) < Prime(t)
  {
    hide Prime, Trial, Next;
    Start(17);
    if t > 6 {
      UpTo(t - 1, n);
      Gaps(t - 1);
      NextMeans(Prime(t - 1), Prime(t), n);
    }
  }

  /** The table is increasing. */
  lemma InOrder(j: nat, k: nat)
    requires j < k < 64
    ensures Prime(j) < Prime(k)
  {
    hide Prime, Trial;
    Start(17);
    if k > 6 {
      UpTo(k, 18);
    }
  }

  /** The table lists every prime up to its last and nothing else: its 64 entries are the first 64 primes. */
  lemma ListsThePrimes(n: nat)
    requires n <= Prime(63)
    ensures IsPrime(n) <==> exists t | 0 <= t < 64 :: Prime(t) == n
  {
    hide Prime, Trial, IsPrime;
    Start(n);
    UpTo(63, n);
    if n <= 17 {
      FirstPrimes(n);
      forall t | 7 <= t < 64 ensures Prime(t) > 17 {
        InOrder(6, t);
      }
    } else {
      TrialIff(n);
    }
  }
}
