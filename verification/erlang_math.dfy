/** Exact arithmetic behind the Erlang-C normalisation sum: natural powers
    of a real, factorials, the terms a^n/n! and their partial sums. */
module ErlangMath {

  /** n! as an exact real, the value scipy's (floating-point) factorial
      approximates; never below 1. */
  function Fact(n: nat): (r: real)
    ensures r >= 1.0
  {
    if n == 0 then 1.0 else (n as real) * Fact(n - 1)
  }

  /** x^n for a natural exponent, with x^0 = 1 (as Python's `**` gives). */
  function Pow(x: real, n: nat): real
  {
    if n == 0 then 1.0 else x * Pow(x, n - 1)
  }

  lemma {:induction false} PowPositive(x: real, n: nat)
    requires x > 0.0
    ensures Pow(x, n) > 0.0
  {
    if n > 0 {
      PowPositive(x, n - 1);
    }
  }

  /** The n-th term a^n/n! of the normalisation sum. */
  function Term(a: real, n: nat): real
  {
    Pow(a, n) / Fact(n)
  }

  lemma TermPositive(a: real, n: nat)
    requires a > 0.0
    ensures Term(a, n) > 0.0
  {
    PowPositive(a, n);
  }

  /** The term that follows term_n = a^n/n! in the incremental scheme:
      term_(n+1) = term_n * a / (n+1). */
  function NextTerm(term: real, a: real, n: nat): real
  {
    term * a / ((n + 1) as real)
  }

  /** Consecutive terms differ by the factor a/(n+1); this is what lets the
      sum be accumulated without forming a^n or n! separately. */
  lemma TermStep(a: real, n: nat)
    ensures Term(a, n + 1) == NextTerm(Term(a, n), a, n)
  {
    StepAlgebra(Term(a, n + 1), Term(a, n), a,
                Pow(a, n + 1), Pow(a, n), Fact(n + 1), Fact(n), (n + 1) as real);
  }

  /** The algebra behind TermStep over plain reals: u = p'/f', t = p/f,
      p' = a*p and f' = k*f give u = t*a/k. */
  lemma StepAlgebra(u: real, t: real, a: real, p': real, p: real, f': real, f: real, k: real)
    requires f > 0.0 && k > 0.0
    requires f' == k * f && p' == a * p
    requires u == p' / f' && t == p / f
    ensures u == t * a / k
  {
    ScaleQuotient(a, p, f, k);
  }

  /** (a*p)/(k*f) == (p/f)*a/k for non-zero f and k, in small steps. */
  lemma ScaleQuotient(a: real, p: real, f: real, k: real)
    requires f > 0.0 && k > 0.0
    ensures (a * p) / (k * f) == (p / f) * a / k
  {
    var x := (a * p) / (k * f);
    var t := p / f;
    var y := t * a / k;
    assert t * f == p;
    assert y * k == t * a;
    assert y * (k * f) == (y * k) * f;
    assert (t * a) * f == a * (t * f);
    assert x * (k * f) == a * p;
    assert y * (k * f) == a * p;
    assert (x - y) * (k * f) == 0.0;
  }

  /** The Erlang-C normalisation sum: the sum of a^n/n! over 0 <= n < c. */
  function ErlangSum(a: real, c: nat): real
  {
    if c == 0 then 0.0 else ErlangSum(a, c - 1) + Term(a, c - 1)
  }

  /** For a positive load and at least one server the sum holds the n = 0
      term 1 and only positive terms besides. */
  lemma {:induction false} ErlangSumAtLeastOne(a: real, c: nat)
    requires a > 0.0 && c >= 1
    ensures ErlangSum(a, c) >= 1.0
  {
    if c == 1 {
      assert ErlangSum(a, 1) == ErlangSum(a, 0) + Term(a, 0);
    } else {
      ErlangSumAtLeastOne(a, c - 1);
      TermPositive(a, c - 1);
    }
  }

  /** Computes the normalisation sum by incremental term accumulation,
      term_n = term_(n-1) * a / n, and agrees exactly with the direct
      definition. */
  method AccumulateNormalisation(a: real, c: nat) returns (s: real)
    ensures s == ErlangSum(a, c)
    ensures a > 0.0 && c >= 1 ==> s >= 1.0
  {
    s := 0.0;
    var term := 1.0;
    var n := 0;
    while n < c
      invariant 0 <= n <= c
      invariant s == ErlangSum(a, n)
      invariant term == Term(a, n)
    {
      assert ErlangSum(a, n + 1) == s + term;
      s := s + term;
      TermStep(a, n);
      term := NextTerm(term, a, n);
      n := n + 1;
    }
    if a > 0.0 && c >= 1 {
      ErlangSumAtLeastOne(a, c);
    }
  }

  // Small facts of ordered-field arithmetic, stated once so that the
  // non-linear steps of the proofs below are explicit.

  lemma MulPositive(x: real, y: real)
    requires x > 0.0 && y > 0.0
    ensures x * y > 0.0
  {
  }

  lemma MulNonNegative(x: real, y: real)
    requires x >= 0.0 && y >= 0.0
    ensures x * y >= 0.0
  {
  }

  lemma DivPositive(x: real, y: real)
    requires x > 0.0 && y > 0.0
    ensures x / y > 0.0
  {
  }

  lemma DivCancel(x: real, y: real)
    requires y != 0.0
    ensures (x / y) * y == x
  {
  }

  lemma DivUnique(x: real, y: real, z: real)
    requires y != 0.0 && x == z * y
    ensures x / y == z
  {
  }

  lemma MulCancel(u: real, v: real, y: real)
    requires y != 0.0 && u * y == v * y
    ensures u == v
  {
    assert (u - v) * y == 0.0;
  }
}
