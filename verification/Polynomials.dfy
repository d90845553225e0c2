/**
 * Polynomials over GF(2), as sequences of coefficients: the one of x^i at place i.
 */
module Polynomials {
  type Poly = seq<bool>

  predicate Coef(p: Poly, i: int) {
    0 <= i < |p| && p[i]
  }

  ghost predicate Same(p: Poly, q: Poly) {
    forall i :: Coef(p, i) == Coef(q, i)
  }

  function Plus(p: Poly, q: Poly): Poly {
    seq(if |p| < |q| then |q| else |p|, i => Coef(p, i) != Coef(q, i))
  }

  /** Multiplication by x. */
  function Up(p: Poly): Poly {
    [false] + p
  }

  function Times(p: Poly, q: Poly): Poly {
    if p == [] then [] else Plus(if p[0] then q else [], Up(Times(p[1..], q)))
  }

  /** r is what is left of p when multiples of g are taken away, of a lower degree
      than g. */
  ghost predicate Remainder(p: Poly, g: Poly, r: Poly) {
    |r| < |g| && exists q :: Same(p, Plus(Times(q, g), r))
  }

  // ----- coefficient by coefficient -----

  lemma PlusCoef(p: Poly, q: Poly, i: int)
    ensures Coef(Plus(p, q), i) == (Coef(p, i) != Coef(q, i))
  {
  }

  /** Without the constant term, divided by x. */
  function Down(p: Poly): Poly {
    if p == [] then [] else p[1..]
  }

  lemma DownCoef(p: Poly, i: int)
    requires 0 <= i
    ensures Coef(Down(p), i) == Coef(p, i + 1)
  {
  }

  lemma TimesStep(p: Poly, q: Poly, i: int)
    ensures Coef(Times(p, q), i) == ((Coef(p, 0) && Coef(q, i)) != Coef(Times(Down(p), q), i - 1))
  {
    hide Times;
    if p == [] {
      assert Times(p, q) == [] by { TimesNone(q); }
    } else {
      TimesMore(p, q);
      PlusCoef(if p[0] then q else [], Up(Times(Down(p), q)), i);
      hide Plus;
    }
  }

  lemma TimesNone(q: Poly)
    ensures Times([], q) == []
  {
  }

  lemma TimesMore(p: Poly, q: Poly)
    requires p != []
    ensures Times(p, q) == Plus(if p[0] then q else [], Up(Times(Down(p), q)))
  {
  }

  /** Whether an odd number of the terms p_j q_(k-j) with i <= j < n are one. */
  predicate OddTerms(p: Poly, q: Poly, k: int, i: nat, n: nat)
    decreases n - i
  {
    i < n && (Coef(p, i) && Coef(q, k - i)) != OddTerms(p, q, k, i + 1, n)
  }

  lemma {:induction false} TermsMoved(p: Poly, q: Poly, k: int, i: nat, n: nat)
    ensures OddTerms(Down(p), q, k - 1, i, n) == OddTerms(p, q, k, i + 1, n + 1)
    decreases n - i
  {
    hide Coef, Down;
    if i < n {
      DownCoef(p, i);
      TermsMoved(p, q, k, i + 1, n);
    }
  }

  /** The coefficient of x^k is the sum of the products whose places add up to k. */
  lemma {:induction false} TimesCoef(p: Poly, q: Poly, k: int)
    ensures Coef(Times(p, q), k) == OddTerms(p, q, k, 0, |p|)
    decreases |p|
  {
    if p == [] {
      TimesNone(q);
    } else {
      TimesStep(p, q, k);
      TimesCoef(Down(p), q, k - 1);
      TermsMoved(p, q, k, 0, |p| - 1);
      hide Coef, Times;
    }
  }

  // ----- there is only one remainder -----

  lemma {:induction false} TimesSum(p: Poly, q: Poly, g: Poly, i: int)
    ensures Coef(Times(Plus(p, q), g), i) == (Coef(Times(p, g), i) != Coef(Times(q, g), i))
    decreases |p| + |q|
  {
    if p == [] && q == [] {
      TimesNone(g);
    } else {
      hide Coef, Times;
      TimesStep(p, g, i);
      TimesStep(q, g, i);
      TimesStep(Plus(p, q), g, i);
      PlusCoef(p, q, 0);
      TimesSum(Down(p), Down(q), g, i - 1);
      PlusDown(p, q);
    }
  }

  lemma PlusDown(p: Poly, q: Poly)
    ensures Down(Plus(p, q)) == Plus(Down(p), Down(q))
  {
  }

  lemma {:induction false} Vanishes(p: Poly, g: Poly, k: int)
    requires forall i :: !Coef(p, i)
    ensures !Coef(Times(p, g), k)
    decreases |p|
  {
    if p == [] {
      TimesNone(g);
    } else {
      hide Times;
      TimesStep(p, g, k);
      forall i ensures !Coef(Down(p), i) {
        assert Coef(Down(p), i) ==> Coef(p, i + 1);
      }
      Vanishes(Down(p), g, k - 1);
    }
  }

  /** The leading terms meet in the product. */
  lemma {:induction false} TopTerm(p: Poly, g: Poly, d: nat)
    requires g != [] && g[|g| - 1] && Coef(p, d) && forall i | d < i :: !Coef(p, i)
    ensures Coef(Times(p, g), d + |g| - 1)
    decreases d
  {
    hide Times;
    TimesStep(p, g, d + |g| - 1);
    if d > 0 {
      DownCoef(p, d - 1);
      forall i | d - 1 < i ensures !Coef(Down(p), i) {
        DownCoef(p, i);
      }
      TopTerm(Down(p), g, d - 1);
    } else {
      forall i ensures !Coef(Down(p), i) {
        if i >= 0 {
          DownCoef(p, i);
        }
      }
      Vanishes(Down(p), g, |g| - 2);
    }
  }

  lemma Degree(p: Poly) returns (d: int)
    ensures if d == -1 then forall i :: !Coef(p, i) else 0 <= d && Coef(p, d) && forall i | d < i :: !Coef(p, i)
  {
    d := |p| - 1;
    while 0 <= d && !p[d]
      invariant -1 <= d < |p| && forall i | d < i :: !Coef(p, i)
    {
      d := d - 1;
    }
  }

  lemma PlusSame(p: Poly, q: Poly, g: Poly, r: Poly, s: Poly, i: int)
    requires Coef(Plus(Times(p, g), r), i) == Coef(Plus(Times(q, g), s), i)
    ensures Coef(Times(Plus(p, q), g), i) == (Coef(r, i) != Coef(s, i))
  {
    hide Coef, Times, Plus;
    TimesSum(p, q, g, i);
    PlusCoef(Times(p, g), r, i);
    PlusCoef(Times(q, g), s, i);
  }

  /** Division by a polynomial with a leading one leaves only one remainder. */
  lemma RemainderUnique(p: Poly, g: Poly, r: Poly, s: Poly)
    requires g != [] && g[|g| - 1] && Remainder(p, g, r) && Remainder(p, g, s)
    ensures Same(r, s)
  {
    hide Times, Plus;
    var a :| Same(p, Plus(Times(a, g), r));
    var b :| Same(p, Plus(Times(b, g), s));
    var q := Plus(a, b);
    forall i ensures Coef(Times(q, g), i) == (Coef(r, i) != Coef(s, i)) {
      assert Coef(p, i) == Coef(Plus(Times(a, g), r), i) && Coef(p, i) == Coef(Plus(Times(b, g), s), i);
      PlusSame(a, b, g, r, s, i);
    }
    var d := Degree(q);
    if d >= 0 {
      TopTerm(q, g, d);
    }
    forall i ensures Coef(r, i) == Coef(s, i) {
      NothingLeft(q, g, d, i);
    }
  }

  lemma NothingLeft(q: Poly, g: Poly, d: int, i: int)
    ensures d == -1 && (forall k :: !Coef(q, k)) ==> !Coef(Times(q, g), i)
  {
    if d == -1 && forall k :: !Coef(q, k) {
      Vanishes(q, g, i);
    }
  }
}
