/**
 * The first eighty prime numbers.
 */
module Primes {
  ghost predicate Prime(n: nat) {
    n >= 2 && forall d | 2 <= d < n :: n % d != 0
  }

  /** No prime comes between p and q. */
  ghost predicate NextPrime(p: nat, q: nat) {
    p < q && Prime(q) && forall n | p < n < q :: !Prime(n)
  }

  /** Eight of the primes. */
  function PrimeRow(r: nat): (p: seq<nat>)
    requires r < 10
    ensures |p| == 8
  {
    if r == 0 then [2, 3, 5, 7, 11, 13, 17, 19]
    else if r == 1 then [23, 29, 31, 37, 41, 43, 47, 53]
    else if r == 2 then [59, 61, 67, 71, 73, 79, 83, 89]
    else if r == 3 then [97, 101, 103, 107, 109, 113, 127, 131]
    else if r == 4 then [137, 139, 149, 151, 157, 163, 167, 173]
    else if r == 5 then [179, 181, 191, 193, 197, 199, 211, 223]
    else if r == 6 then [227, 229, 233, 239, 241, 251, 257, 263]
    else if r == 7 then [269, 271, 277, 281, 283, 293, 307, 311]
    else if r == 8 then [313, 317, 331, 337, 347, 349, 353, 359]
    else [367, 373, 379, 383, 389, 397, 401, 409]
  }

  function PrimeAt(i: nat): nat
    requires i < 80
  {
    PrimeRow(i / 8)[i % 8]
  }

  // ----- sifting with the primes below 23 -----

  predicate Sifted(n: nat) {
    && (n % 2 != 0 || n == 2) && (n % 3 != 0 || n == 3) && (n % 5 != 0 || n == 5) && (n % 7 != 0 || n == 7)
    && (n % 11 != 0 || n == 11) && (n % 13 != 0 || n == 13) && (n % 17 != 0 || n == 17) && (n % 19 != 0 || n == 19)
  }

  /** A prime that divides a number below 23. */
  function SmallFactor(m: nat): (s: nat)
    requires 2 <= m < 23
    ensures 2 <= s <= m && m % s == 0
    ensures s == 2 || s == 3 || s == 5 || s == 7 || s == 11 || s == 13 || s == 17 || s == 19
  {
    if m % 2 == 0 then 2 else if m % 3 == 0 then 3 else m
  }

  lemma DividesOn(n: nat, m: nat, s: nat)
    requires m > 0 && s > 0 && n % m == 0 && m % s == 0
    ensures n % s == 0
  {
    var a, b := n / m, m / s;
    assert n == s * (b * a) by {
      assert n == m * a && m == s * b;
    }
    Multiple(s, b * a);
  }

  lemma Multiple(s: nat, k: nat)
    requires s > 0
    ensures (s * k) % s == 0
  {
    NoRemainder(s, k, s * k, s * k / s, s * k % s);
  }

  lemma NoRemainder(s: nat, k: nat, n: nat, d: nat, r: nat)
    requires r < s && n == s * k && n == s * d + r
    ensures r == 0
  {
    assert s * (k - d) == r;
    Negated(s, k - d);
    if k > d {
      AtLeast(s, k - d);
      assert false;
    } else if k < d {
      AtLeast(s, d - k);
      assert false;
    }
  }

  lemma Negated(s: int, x: int)
    ensures s * -x == -(s * x)
  {
  }

  lemma AtLeast(s: nat, k: nat)
    requires k > 0
    ensures s * k >= s
  {
  }

  /** Of two factors one is at most the root. */
  lemma LesserFactor(n: nat, d: nat) returns (m: nat)
    requires n < 529 && 2 <= d < n && n % d == 0
    ensures 2 <= m < 23 && m < n && n % m == 0
  {
    var q := n / d;
    assert n == d * q;
    Multiple(q, d);
    if d < 23 {
      m := d;
    } else {
      if q >= 23 {
        BothLarge(d, q);
        assert false;
      }
      m := q;
      assert q >= 2;
      assert n == q * d;
    }
  }

  lemma BothLarge(d: nat, q: nat)
    requires d >= 23 && q >= 23
    ensures d * q >= 529
  {
    assert d * q >= 23 * q;
  }

  lemma SiftedIffPrime(n: nat)
    requires 2 <= n < 529
    ensures Sifted(n) <==> Prime(n)
  {
    if Sifted(n) {
      forall d | 2 <= d < n ensures n % d != 0 {
        if n % d == 0 {
          var m := LesserFactor(n, d);
          DividesOn(n, m, SmallFactor(m));
          assert false;
        }
      }
    } else {
      assert !Prime(n);
    }
  }

  /** The next number that is not sifted out. */
  predicate NextSifted(p: nat, q: nat)
    decreases q - p
  {
    p < q && (if p + 1 == q then Sifted(q) else !Sifted(p + 1) && NextSifted(p + 1, q))
  }

  lemma {:induction false} NextIs(p: nat, q: nat)
    requires 0 < p && q < 529 && NextSifted(p, q)
    ensures NextPrime(p, q)
    decreases q - p
  {
    hide Sifted, Prime;
    SiftedIffPrime(p + 1);
    if p + 1 < q {
      NextIs(p + 1, q);
      forall n | p < n < q ensures !Prime(n) {
        assert n == p + 1 || p + 1 < n;
      }
    }
  }

  lemma Row0()
    ensures NextSifted(2, 3) && NextSifted(3, 5) && NextSifted(5, 7) && NextSifted(7, 11)
    ensures NextSifted(11, 13) && NextSifted(13, 17) && NextSifted(17, 19) && NextSifted(19, 23)
  {
  }

  lemma Row1()
    ensures NextSifted(23, 29) && NextSifted(29, 31) && NextSifted(31, 37) && NextSifted(37, 41)
    ensures NextSifted(41, 43) && NextSifted(43, 47) && NextSifted(47, 53) && NextSifted(53, 59)
  {
  }

  lemma Row2()
    ensures NextSifted(59, 61) && NextSifted(61, 67) && NextSifted(67, 71) && NextSifted(71, 73)
    ensures NextSifted(73, 79) && NextSifted(79, 83) && NextSifted(83, 89) && NextSifted(89, 97)
  {
  }

  lemma Row3()
    ensures NextSifted(97, 101) && NextSifted(101, 103) && NextSifted(103, 107) && NextSifted(107, 109)
    ensures NextSifted(109, 113) && NextSifted(113, 127) && NextSifted(127, 131) && NextSifted(131, 137)
  {
  }

  lemma Row4()
    ensures NextSifted(137, 139) && NextSifted(139, 149) && NextSifted(149, 151) && NextSifted(151, 157)
    ensures NextSifted(157, 163) && NextSifted(163, 167) && NextSifted(167, 173) && NextSifted(173, 179)
  {
  }

  lemma Row5()
    ensures NextSifted(179, 181) && NextSifted(181, 191) && NextSifted(191, 193) && NextSifted(193, 197)
    ensures NextSifted(197, 199) && NextSifted(199, 211) && NextSifted(211, 223) && NextSifted(223, 227)
  {
  }

  lemma Row6()
    ensures NextSifted(227, 229) && NextSifted(229, 233) && NextSifted(233, 239) && NextSifted(239, 241)
    ensures NextSifted(241, 251) && NextSifted(251, 257) && NextSifted(257, 263) && NextSifted(263, 269)
  {
  }

  lemma Row7()
    ensures NextSifted(269, 271) && NextSifted(271, 277) && NextSifted(277, 281) && NextSifted(281, 283)
    ensures NextSifted(283, 293) && NextSifted(293, 307) && NextSifted(307, 311) && NextSifted(311, 313)
  {
  }

  lemma Row8()
    ensures NextSifted(313, 317) && NextSifted(317, 331) && NextSifted(331, 337) && NextSifted(337, 347)
    ensures NextSifted(347, 349) && NextSifted(349, 353) && NextSifted(353, 359) && NextSifted(359, 367)
  {
  }

  lemma Row9()
    ensures NextSifted(367, 373) && NextSifted(373, 379) && NextSifted(379, 383) && NextSifted(383, 389)
    ensures NextSifted(389, 397) && NextSifted(397, 401) && NextSifted(401, 409)
  {
  }

  lemma RowFollows(r: nat)
    requires r < 10
    ensures var p := PrimeRow(r);
      && NextSifted(p[0], p[1]) && NextSifted(p[1], p[2]) && NextSifted(p[2], p[3]) && NextSifted(p[3], p[4])
      && NextSifted(p[4], p[5]) && NextSifted(p[5], p[6]) && NextSifted(p[6], p[7])
      && (r < 9 ==> NextSifted(p[7], PrimeRow(r + 1)[0]))
  {
    hide NextSifted;
    if r == 0 {
      Row0();
    } else if r == 1 {
      Row1();
    } else if r == 2 {
      Row2();
    } else if r == 3 {
      Row3();
    } else if r == 4 {
      Row4();
    } else if r == 5 {
      Row5();
    } else if r == 6 {
      Row6();
    } else if r == 7 {
      Row7();
    } else if r == 8 {
      Row8();
    } else {
      Row9();
    }
  }

  lemma Bounded(i: nat)
    requires i < 80
    ensures 2 <= PrimeAt(i) < 529
  {
  }

  lemma Adjacent(i: nat)
    requires 0 < i < 80
    ensures NextSifted(PrimeAt(i - 1), PrimeAt(i))
  {
    hide NextSifted, PrimeRow;
    var r, j := (i - 1) / 8, (i - 1) % 8;
    RowFollows(r);
    if j < 7 {
      assert i / 8 == r && i % 8 == j + 1;
    } else {
      assert i / 8 == r + 1 && i % 8 == 0;
    }
  }

  /** The table begins with two and leaves no prime out. */
  lemma FirstPrimes(i: nat)
    requires i < 80
    ensures PrimeAt(0) == 2 && Prime(2)
    ensures i > 0 ==> NextPrime(PrimeAt(i - 1), PrimeAt(i))
  {
    SiftedIffPrime(2);
    if i > 0 {
      Adjacent(i);
      Bounded(i - 1);
      Bounded(i);
      hide PrimeAt, NextSifted, NextPrime;
      NextIs(PrimeAt(i - 1), PrimeAt(i));
    }
  }
}
