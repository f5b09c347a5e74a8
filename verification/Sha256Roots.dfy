/** Where the constants of SHA-256 come from: the roots of the first primes. */
module Sha256Roots {
  import opened Sha256

  // ----- primes -----

  predicate IsPrime(n: nat) { n >= 2 && forall d: nat :: 2 <= d < n ==> n % d != 0 }

  /** None of the primes up to 17 divides it, unless it is one of them. */
  predicate Sieved(n: nat) {
    || n in {2, 3, 5, 7, 11, 13, 17}
    || (n >= 2 && n % 2 != 0 && n % 3 != 0 && n % 5 != 0 && n % 7 != 0 && n % 11 != 0 && n % 13 != 0 && n % 17 != 0)
  }

  lemma SievedIsPrime(n: nat)
    requires n < 361
    ensures Sieved(n) <==> IsPrime(n)
  {
    if n >= 2 && Sieved(n) && n !in {2, 3, 5, 7, 11, 13, 17} {
      forall d: nat | 2 <= d < n
        ensures n % d != 0
      {
        if n % d == 0 {
          var e := n / d;
          Cofactor(n, d, e);
          if d <= 18 { SmallDivisor(n, d); } else { SmallDivisor(n, e); }
        }
      }
    }
  }

  lemma Cofactor(n: nat, d: nat, e: nat)
    requires 2 <= d < n < 361 && n % d == 0 && e == n / d
    ensures n % e == 0 && 2 <= e < n && (d <= 18 || e <= 18)
  {
    assert n == d * e;
    MultipleOf(d, e);
    BothLarge(d, e);
  }

  lemma BothLarge(d: nat, e: nat)
    ensures d >= 19 && e >= 19 ==> d * e >= 361
  {
  }

  lemma MultipleOf(q: nat, k: nat)
    requires k > 0
    ensures q * k % k == 0
  {
    var d, r := q * k / k, q * k % k;
    assert (q - d) * k == r;
    AtLeastOne(q - d, k);
  }

  lemma AtLeastOne(m: int, k: nat)
    ensures m >= 1 ==> m * k >= k
    ensures m <= -1 ==> m * k <= -(k as int)
  {
  }

  /** A divisor up to 18 has a prime factor up to 17. */
  lemma SmallDivisor(n: nat, d: nat)
    requires 2 <= d <= 18 && n % d == 0 && Sieved(n)
    ensures n in {2, 3, 5, 7, 11, 13, 17}
  {
    if d % 2 == 0 { Divides(n, d, 2); }
    if d % 3 == 0 { Divides(n, d, 3); }
    if d % 5 == 0 { Divides(n, d, 5); }
    if d % 7 == 0 { Divides(n, d, 7); }
  }

  lemma Divides(n: nat, d: nat, k: nat)
    requires d > 0 && k > 0 && d % k == 0 && n % d == 0
    ensures n % k == 0
  {
    assert n == n / d * (d / k) * k;
    MultipleOf(n / d * (d / k), k);
  }

  /** No prime from `lo` up to, but not including, `hi`. */
  predicate NoneIn(lo: nat, hi: nat)
    decreases hi - lo
  {
    lo >= hi || (!Sieved(lo) && NoneIn(lo + 1, hi))
  }

  lemma {:induction false} NoneBetween(lo: nat, hi: nat, m: nat)
    requires NoneIn(lo, hi) && lo <= m < hi
    ensures !Sieved(m)
    decreases hi - lo
  {
    if lo < m { NoneBetween(lo + 1, hi, m); }
  }

  /** `q` is the next prime behind `p`, as the sieve has it. */
  predicate Gap(p: nat, q: nat) { p < q < 361 && Sieved(q) && NoneIn(p + 1, q) }

  ghost predicate IsNextPrime(p: nat, q: nat) { p < q && IsPrime(q) && forall m :: p < m < q ==> !IsPrime(m) }

  /** `p` is prime number `t`, counted from 0. */
  ghost predicate NthPrime(t: nat, p: nat) {
    if t == 0 then p == 2 else exists q: nat :: NthPrime(t - 1, q) && IsNextPrime(q, p)
  }

  lemma NextPrimeIs(p: nat, q: nat)
    requires Gap(p, q)
    ensures IsNextPrime(p, q)
  {
    SievedIsPrime(q);
    forall m | p < m < q
      ensures !IsPrime(m)
    {
      NoneBetween(p + 1, q, m);
      SievedIsPrime(m);
    }
  }

  // ----- the constants, sections 4.2.2 and 5.3.3 of FIPS 180-4 -----

  function Square(n: nat): nat { n * n }
  function Cube(n: nat): nat { n * n * n }

  /** The word holds the first 32 bits behind the point of the cube root of `p`. */
  ghost predicate CubeRootBits(p: nat, k: bv32) { exists c: nat :: CubeRootFrom(p, k, c) }

  predicate CubeRootFrom(p: nat, k: bv32, c: nat) {
    var n := c * 0x1_0000_0000 + k as nat;
    Cube(n) <= p * Cube(0x1_0000_0000) < Cube(n + 1)
  }

  /** And of the square root. */
  ghost predicate SquareRootBits(p: nat, k: bv32) { exists c: nat :: SquareRootFrom(p, k, c) }

  predicate SquareRootFrom(p: nat, k: bv32, c: nat) {
    var n := c * 0x1_0000_0000 + k as nat;
    Square(n) <= p * Square(0x1_0000_0000) < Square(n + 1)
  }

  ghost predicate ConstantIsRoot(t: nat, k: bv32) { exists p: nat :: NthPrime(t, p) && CubeRootBits(p, k) }

  ghost predicate ConstantsTo(t: nat) { t <= 64 && forall i | 0 <= i < t :: ConstantIsRoot(i, Constant(i)) }

  lemma ConstantNext(t: nat, p: nat, q: nat, k: bv32, c: nat)
    requires t < 64 && ConstantsTo(t) && NthPrime(t, p) && Gap(p, q)
    requires Constant(t) == k && CubeRootFrom(p, k, c)
    ensures ConstantsTo(t + 1) && NthPrime(t + 1, q)
  {
    hide IsNextPrime, NthPrime, CubeRootFrom, Constant, Gap, ConstantIsRoot;
    NextPrimeIs(p, q);
    NextNth(t, p, q);
    RootOf(t, p, k, c);
  }

  lemma NextNth(t: nat, p: nat, q: nat)
    requires NthPrime(t, p) && IsNextPrime(p, q)
    ensures NthPrime(t + 1, q)
  {
    hide IsNextPrime;
  }

  lemma RootOf(t: nat, p: nat, k: bv32, c: nat)
    requires NthPrime(t, p) && CubeRootFrom(p, k, c)
    ensures ConstantIsRoot(t, k)
  {
    hide CubeRootFrom, NthPrime;
    assert CubeRootBits(p, k);
  }

  lemma Gaps0()
    ensures Gap(2, 3) && Gap(3, 5) && Gap(5, 7) && Gap(7, 11) && Gap(11, 13) && Gap(13, 17) && Gap(17, 19) && Gap(19, 23)
  {
  }

  lemma Roots0()
    ensures CubeRootFrom(2, 0x428a2f98, 1)
    ensures CubeRootFrom(3, 0x71374491, 1)
    ensures CubeRootFrom(5, 0xb5c0fbcf, 1)
    ensures CubeRootFrom(7, 0xe9b5dba5, 1)
    ensures CubeRootFrom(11, 0x3956c25b, 2)
    ensures CubeRootFrom(13, 0x59f111f1, 2)
    ensures CubeRootFrom(17, 0x923f82a4, 2)
    ensures CubeRootFrom(19, 0xab1c5ed5, 2)
  {
  }

  lemma Values0()
    ensures Constant(0) == 0x428a2f98
    ensures Constant(1) == 0x71374491
    ensures Constant(2) == 0xb5c0fbcf
    ensures Constant(3) == 0xe9b5dba5
    ensures Constant(4) == 0x3956c25b
    ensures Constant(5) == 0x59f111f1
    ensures Constant(6) == 0x923f82a4
    ensures Constant(7) == 0xab1c5ed5
  {
  }

  lemma Constants0()
    ensures ConstantsTo(8) && NthPrime(8, 23)
  {
    assert ConstantsTo(0) && NthPrime(0, 2);
    hide ConstantsTo, NthPrime, Gap, Constant, CubeRootFrom;
    Gaps0();
    Roots0();
    Values0();
    ConstantNext(0, 2, 3, 0x428a2f98, 1);
    ConstantNext(1, 3, 5, 0x71374491, 1);
    ConstantNext(2, 5, 7, 0xb5c0fbcf, 1);
    ConstantNext(3, 7, 11, 0xe9b5dba5, 1);
    ConstantNext(4, 11, 13, 0x3956c25b, 2);
    ConstantNext(5, 13, 17, 0x59f111f1, 2);
    ConstantNext(6, 17, 19, 0x923f82a4, 2);
    ConstantNext(7, 19, 23, 0xab1c5ed5, 2);
  }

  lemma Gaps1()
    ensures Gap(23, 29) && Gap(29, 31) && Gap(31, 37) && Gap(37, 41) && Gap(41, 43) && Gap(43, 47) && Gap(47, 53) && Gap(53, 59)
  {
  }

  lemma Roots1()
    ensures CubeRootFrom(23, 0xd807aa98, 2)
    ensures CubeRootFrom(29, 0x12835b01, 3)
    ensures CubeRootFrom(31, 0x243185be, 3)
    ensures CubeRootFrom(37, 0x550c7dc3, 3)
    ensures CubeRootFrom(41, 0x72be5d74, 3)
    ensures CubeRootFrom(43, 0x80deb1fe, 3)
    ensures CubeRootFrom(47, 0x9bdc06a7, 3)
    ensures CubeRootFrom(53, 0xc19bf174, 3)
  {
  }

  lemma Values1()
    ensures Constant(8) == 0xd807aa98
    ensures Constant(9) == 0x12835b01
    ensures Constant(10) == 0x243185be
    ensures Constant(11) == 0x550c7dc3
    ensures Constant(12) == 0x72be5d74
    ensures Constant(13) == 0x80deb1fe
    ensures Constant(14) == 0x9bdc06a7
    ensures Constant(15) == 0xc19bf174
  {
  }

  lemma Constants1()
    requires ConstantsTo(8) && NthPrime(8, 23)
    ensures ConstantsTo(16) && NthPrime(16, 59)
  {
    hide ConstantsTo, NthPrime, Gap, Constant, CubeRootFrom;
    Gaps1();
    Roots1();
    Values1();
    ConstantNext(8, 23, 29, 0xd807aa98, 2);
    ConstantNext(9, 29, 31, 0x12835b01, 3);
    ConstantNext(10, 31, 37, 0x243185be, 3);
    ConstantNext(11, 37, 41, 0x550c7dc3, 3);
    ConstantNext(12, 41, 43, 0x72be5d74, 3);
    ConstantNext(13, 43, 47, 0x80deb1fe, 3);
    ConstantNext(14, 47, 53, 0x9bdc06a7, 3);
    ConstantNext(15, 53, 59, 0xc19bf174, 3);
  }

  lemma Gaps2()
    ensures Gap(59, 61) && Gap(61, 67) && Gap(67, 71) && Gap(71, 73) && Gap(73, 79) && Gap(79, 83) && Gap(83, 89) && Gap(89, 97)
  {
  }

  lemma Roots2()
    ensures CubeRootFrom(59, 0xe49b69c1, 3)
    ensures CubeRootFrom(61, 0xefbe4786, 3)
    ensures CubeRootFrom(67, 0x0fc19dc6, 4)
    ensures CubeRootFrom(71, 0x240ca1cc, 4)
    ensures CubeRootFrom(73, 0x2de92c6f, 4)
    ensures CubeRootFrom(79, 0x4a7484aa, 4)
    ensures CubeRootFrom(83, 0x5cb0a9dc, 4)
    ensures CubeRootFrom(89, 0x76f988da, 4)
  {
  }

  lemma Values2()
    ensures Constant(16) == 0xe49b69c1
    ensures Constant(17) == 0xefbe4786
    ensures Constant(18) == 0x0fc19dc6
    ensures Constant(19) == 0x240ca1cc
    ensures Constant(20) == 0x2de92c6f
    ensures Constant(21) == 0x4a7484aa
    ensures Constant(22) == 0x5cb0a9dc
    ensures Constant(23) == 0x76f988da
  {
  }

  lemma Constants2()
    requires ConstantsTo(16) && NthPrime(16, 59)
    ensures ConstantsTo(24) && NthPrime(24, 97)
  {
    hide ConstantsTo, NthPrime, Gap, Constant, CubeRootFrom;
    Gaps2();
    Roots2();
    Values2();
    ConstantNext(16, 59, 61, 0xe49b69c1, 3);
    ConstantNext(17, 61, 67, 0xefbe4786, 3);
    ConstantNext(18, 67, 71, 0x0fc19dc6, 4);
    ConstantNext(19, 71, 73, 0x240ca1cc, 4);
    ConstantNext(20, 73, 79, 0x2de92c6f, 4);
    ConstantNext(21, 79, 83, 0x4a7484aa, 4);
    ConstantNext(22, 83, 89, 0x5cb0a9dc, 4);
    ConstantNext(23, 89, 97, 0x76f988da, 4);
  }

  lemma Gaps3()
    ensures Gap(97, 101) && Gap(101, 103) && Gap(103, 107) && Gap(107, 109)
    ensures Gap(109, 113) && Gap(113, 127) && Gap(127, 131) && Gap(131, 137)
  {
  }

  lemma Roots3()
    ensures CubeRootFrom(97, 0x983e5152, 4)
    ensures CubeRootFrom(101, 0xa831c66d, 4)
    ensures CubeRootFrom(103, 0xb00327c8, 4)
    ensures CubeRootFrom(107, 0xbf597fc7, 4)
    ensures CubeRootFrom(109, 0xc6e00bf3, 4)
    ensures CubeRootFrom(113, 0xd5a79147, 4)
    ensures CubeRootFrom(127, 0x06ca6351, 5)
    ensures CubeRootFrom(131, 0x14292967, 5)
  {
  }

  lemma Values3()
    ensures Constant(24) == 0x983e5152
    ensures Constant(25) == 0xa831c66d
    ensures Constant(26) == 0xb00327c8
    ensures Constant(27) == 0xbf597fc7
    ensures Constant(28) == 0xc6e00bf3
    ensures Constant(29) == 0xd5a79147
    ensures Constant(30) == 0x06ca6351
    ensures Constant(31) == 0x14292967
  {
  }

  lemma Constants3()
    requires ConstantsTo(24) && NthPrime(24, 97)
    ensures ConstantsTo(32) && NthPrime(32, 137)
  {
    hide ConstantsTo, NthPrime, Gap, Constant, CubeRootFrom;
    Gaps3();
    Roots3();
    Values3();
    ConstantNext(24, 97, 101, 0x983e5152, 4);
    ConstantNext(25, 101, 103, 0xa831c66d, 4);
    ConstantNext(26, 103, 107, 0xb00327c8, 4);
    ConstantNext(27, 107, 109, 0xbf597fc7, 4);
    ConstantNext(28, 109, 113, 0xc6e00bf3, 4);
    ConstantNext(29, 113, 127, 0xd5a79147, 4);
    ConstantNext(30, 127, 131, 0x06ca6351, 5);
    ConstantNext(31, 131, 137, 0x14292967, 5);
  }

  lemma Gaps4()
    ensures Gap(137, 139) && Gap(139, 149) && Gap(149, 151) && Gap(151, 157)
    ensures Gap(157, 163) && Gap(163, 167) && Gap(167, 173) && Gap(173, 179)
  {
  }

  lemma Roots4()
    ensures CubeRootFrom(137, 0x27b70a85, 5)
    ensures CubeRootFrom(139, 0x2e1b2138, 5)
    ensures CubeRootFrom(149, 0x4d2c6dfc, 5)
    ensures CubeRootFrom(151, 0x53380d13, 5)
    ensures CubeRootFrom(157, 0x650a7354, 5)
    ensures CubeRootFrom(163, 0x766a0abb, 5)
    ensures CubeRootFrom(167, 0x81c2c92e, 5)
    ensures CubeRootFrom(173, 0x92722c85, 5)
  {
  }

  lemma Values4()
    ensures Constant(32) == 0x27b70a85
    ensures Constant(33) == 0x2e1b2138
    ensures Constant(34) == 0x4d2c6dfc
    ensures Constant(35) == 0x53380d13
    ensures Constant(36) == 0x650a7354
    ensures Constant(37) == 0x766a0abb
    ensures Constant(38) == 0x81c2c92e
    ensures Constant(39) == 0x92722c85
  {
  }

  lemma Constants4()
    requires ConstantsTo(32) && NthPrime(32, 137)
    ensures ConstantsTo(40) && NthPrime(40, 179)
  {
    hide ConstantsTo, NthPrime, Gap, Constant, CubeRootFrom;
    Gaps4();
    Roots4();
    Values4();
    ConstantNext(32, 137, 139, 0x27b70a85, 5);
    ConstantNext(33, 139, 149, 0x2e1b2138, 5);
    ConstantNext(34, 149, 151, 0x4d2c6dfc, 5);
    ConstantNext(35, 151, 157, 0x53380d13, 5);
    ConstantNext(36, 157, 163, 0x650a7354, 5);
    ConstantNext(37, 163, 167, 0x766a0abb, 5);
    ConstantNext(38, 167, 173, 0x81c2c92e, 5);
    ConstantNext(39, 173, 179, 0x92722c85, 5);
  }

  lemma Gaps5()
    ensures Gap(179, 181) && Gap(181, 191) && Gap(191, 193) && Gap(193, 197)
    ensures Gap(197, 199) && Gap(199, 211) && Gap(211, 223) && Gap(223, 227)
  {
  }

  lemma Roots5()
    ensures CubeRootFrom(179, 0xa2bfe8a1, 5)
    ensures CubeRootFrom(181, 0xa81a664b, 5)
    ensures CubeRootFrom(191, 0xc24b8b70, 5)
    ensures CubeRootFrom(193, 0xc76c51a3, 5)
    ensures CubeRootFrom(197, 0xd192e819, 5)
    ensures CubeRootFrom(199, 0xd6990624, 5)
    ensures CubeRootFrom(211, 0xf40e3585, 5)
    ensures CubeRootFrom(223, 0x106aa070, 6)
  {
  }

  lemma Values5()
    ensures Constant(40) == 0xa2bfe8a1
    ensures Constant(41) == 0xa81a664b
    ensures Constant(42) == 0xc24b8b70
    ensures Constant(43) == 0xc76c51a3
    ensures Constant(44) == 0xd192e819
    ensures Constant(45) == 0xd6990624
    ensures Constant(46) == 0xf40e3585
    ensures Constant(47) == 0x106aa070
  {
  }

  lemma Constants5()
    requires ConstantsTo(40) && NthPrime(40, 179)
    ensures ConstantsTo(48) && NthPrime(48, 227)
  {
    hide ConstantsTo, NthPrime, Gap, Constant, CubeRootFrom;
    Gaps5();
    Roots5();
    Values5();
    ConstantNext(40, 179, 181, 0xa2bfe8a1, 5);
    ConstantNext(41, 181, 191, 0xa81a664b, 5);
    ConstantNext(42, 191, 193, 0xc24b8b70, 5);
    ConstantNext(43, 193, 197, 0xc76c51a3, 5);
    ConstantNext(44, 197, 199, 0xd192e819, 5);
    ConstantNext(45, 199, 211, 0xd6990624, 5);
    ConstantNext(46, 211, 223, 0xf40e3585, 5);
    ConstantNext(47, 223, 227, 0x106aa070, 6);
  }

  lemma Gaps6()
    ensures Gap(227, 229) && Gap(229, 233) && Gap(233, 239) && Gap(239, 241)
    ensures Gap(241, 251) && Gap(251, 257) && Gap(257, 263) && Gap(263, 269)
  {
  }

  lemma Roots6()
    ensures CubeRootFrom(227, 0x19a4c116, 6)
    ensures CubeRootFrom(229, 0x1e376c08, 6)
    ensures CubeRootFrom(233, 0x2748774c, 6)
    ensures CubeRootFrom(239, 0x34b0bcb5, 6)
    ensures CubeRootFrom(241, 0x391c0cb3, 6)
    ensures CubeRootFrom(251, 0x4ed8aa4a, 6)
    ensures CubeRootFrom(257, 0x5b9cca4f, 6)
    ensures CubeRootFrom(263, 0x682e6ff3, 6)
  {
  }

  lemma Values6()
    ensures Constant(48) == 0x19a4c116
    ensures Constant(49) == 0x1e376c08
    ensures Constant(50) == 0x2748774c
    ensures Constant(51) == 0x34b0bcb5
    ensures Constant(52) == 0x391c0cb3
    ensures Constant(53) == 0x4ed8aa4a
    ensures Constant(54) == 0x5b9cca4f
    ensures Constant(55) == 0x682e6ff3
  {
  }

  lemma Constants6()
    requires ConstantsTo(48) && NthPrime(48, 227)
    ensures ConstantsTo(56) && NthPrime(56, 269)
  {
    hide ConstantsTo, NthPrime, Gap, Constant, CubeRootFrom;
    Gaps6();
    Roots6();
    Values6();
    ConstantNext(48, 227, 229, 0x19a4c116, 6);
    ConstantNext(49, 229, 233, 0x1e376c08, 6);
    ConstantNext(50, 233, 239, 0x2748774c, 6);
    ConstantNext(51, 239, 241, 0x34b0bcb5, 6);
    ConstantNext(52, 241, 251, 0x391c0cb3, 6);
    ConstantNext(53, 251, 257, 0x4ed8aa4a, 6);
    ConstantNext(54, 257, 263, 0x5b9cca4f, 6);
    ConstantNext(55, 263, 269, 0x682e6ff3, 6);
  }

  lemma Gaps7()
    ensures Gap(269, 271) && Gap(271, 277) && Gap(277, 281) && Gap(281, 283)
    ensures Gap(283, 293) && Gap(293, 307) && Gap(307, 311) && Gap(311, 313)
  {
  }

  lemma Roots7()
    ensures CubeRootFrom(269, 0x748f82ee, 6)
    ensures CubeRootFrom(271, 0x78a5636f, 6)
    ensures CubeRootFrom(277, 0x84c87814, 6)
    ensures CubeRootFrom(281, 0x8cc70208, 6)
    ensures CubeRootFrom(283, 0x90befffa, 6)
    ensures CubeRootFrom(293, 0xa4506ceb, 6)
    ensures CubeRootFrom(307, 0xbef9a3f7, 6)
    ensures CubeRootFrom(311, 0xc67178f2, 6)
  {
  }

  lemma Values7()
    ensures Constant(56) == 0x748f82ee
    ensures Constant(57) == 0x78a5636f
    ensures Constant(58) == 0x84c87814
    ensures Constant(59) == 0x8cc70208
    ensures Constant(60) == 0x90befffa
    ensures Constant(61) == 0xa4506ceb
    ensures Constant(62) == 0xbef9a3f7
    ensures Constant(63) == 0xc67178f2
  {
  }

  lemma Constants7()
    requires ConstantsTo(56) && NthPrime(56, 269)
    ensures ConstantsTo(64) && NthPrime(64, 313)
  {
    hide ConstantsTo, NthPrime, Gap, Constant, CubeRootFrom;
    Gaps7();
    Roots7();
    Values7();
    ConstantNext(56, 269, 271, 0x748f82ee, 6);
    ConstantNext(57, 271, 277, 0x78a5636f, 6);
    ConstantNext(58, 277, 281, 0x84c87814, 6);
    ConstantNext(59, 281, 283, 0x8cc70208, 6);
    ConstantNext(60, 283, 293, 0x90befffa, 6);
    ConstantNext(61, 293, 307, 0xa4506ceb, 6);
    ConstantNext(62, 307, 311, 0xbef9a3f7, 6);
    ConstantNext(63, 311, 313, 0xc67178f2, 6);
  }

  /** Constant `t` is the fractional part of the cube root of prime number `t`. */
  lemma ConstantsAreRoots(t: nat)
    requires t < 64
    ensures ConstantIsRoot(t, Constant(t))
  {
    Constants0();
    Constants1();
    Constants2();
    Constants3();
    Constants4();
    Constants5();
    Constants6();
    Constants7();
    hide ConstantIsRoot, Constant, NthPrime;
  }

  /** And word `j` of the initial hash value that of the square root of prime number `j`. */
  lemma InitialIsRoots(j: nat)
    requires j < 8
    ensures exists p: nat :: NthPrime(j, p) && SquareRootBits(p, WordAt(INITIAL, j))
  {
    FirstPrimes();
    InitialWords();
    hide NthPrime, WordAt, SquareRootFrom;
    match j
    case 0 => InitialIs(0, 2, 0x6a09e667, 1);
    case 1 => InitialIs(1, 3, 0xbb67ae85, 1);
    case 2 => InitialIs(2, 5, 0x3c6ef372, 2);
    case 3 => InitialIs(3, 7, 0xa54ff53a, 2);
    case 4 => InitialIs(4, 11, 0x510e527f, 3);
    case 5 => InitialIs(5, 13, 0x9b05688c, 3);
    case 6 => InitialIs(6, 17, 0x1f83d9ab, 4);
    case _ => InitialIs(7, 19, 0x5be0cd19, 4);
  }

  lemma InitialIs(j: nat, p: nat, k: bv32, c: nat)
    requires j < 8 && NthPrime(j, p) && WordAt(INITIAL, j) == k && SquareRootFrom(p, k, c)
    ensures exists q: nat :: NthPrime(j, q) && SquareRootBits(q, WordAt(INITIAL, j))
  {
    hide NthPrime, SquareRootFrom;
    assert SquareRootBits(p, k);
  }

  lemma InitialWords()
    ensures WordAt(INITIAL, 0) == 0x6a09e667 && WordAt(INITIAL, 1) == 0xbb67ae85 && WordAt(INITIAL, 2) == 0x3c6ef372 && WordAt(INITIAL, 3) == 0xa54ff53a
    ensures WordAt(INITIAL, 4) == 0x510e527f && WordAt(INITIAL, 5) == 0x9b05688c && WordAt(INITIAL, 6) == 0x1f83d9ab && WordAt(INITIAL, 7) == 0x5be0cd19
    ensures SquareRootFrom(2, 0x6a09e667, 1) && SquareRootFrom(3, 0xbb67ae85, 1) && SquareRootFrom(5, 0x3c6ef372, 2) && SquareRootFrom(7, 0xa54ff53a, 2)
    ensures SquareRootFrom(11, 0x510e527f, 3) && SquareRootFrom(13, 0x9b05688c, 3) && SquareRootFrom(17, 0x1f83d9ab, 4) && SquareRootFrom(19, 0x5be0cd19, 4)
  {
  }

  lemma FirstPrimes()
    ensures NthPrime(0, 2) && NthPrime(1, 3) && NthPrime(2, 5) && NthPrime(3, 7)
    ensures NthPrime(4, 11) && NthPrime(5, 13) && NthPrime(6, 17) && NthPrime(7, 19)
  {
    Gaps0();
    hide Gap;
    NextPrimeIs(2, 3);
    NextPrimeIs(3, 5);
    NextPrimeIs(5, 7);
    NextPrimeIs(7, 11);
    NextPrimeIs(11, 13);
    NextPrimeIs(13, 17);
    NextPrimeIs(17, 19);
    hide IsNextPrime;
  }
}
