/** The M/M/c (Erlang-C) queue estimator for one charging location: from
    the arrival rate lambda, the service rate mu and the number of charging
    stations c it gives the utilisation, the expected queue length Lq, the
    expected wait Wq and the idle probability P0. */
module QueueModel {
  import opened ErlangMath

  /** A non-negative quantity that may be unbounded (the source's `inf`). */
  datatype Extended = Finite(value: real) | Unbounded

  /** Strict comparison against a finite bound; an unbounded value exceeds
      every bound, as `inf > x` does for every float x. */
  predicate Exceeds(x: Extended, bound: real)
  {
    x.Unbounded? || x.value > bound
  }

  /** Outcome of one queue evaluation.
      - Degenerate: a zero rate or no stations; the source returns the
        three-element tuple (0, 0, 0) without dividing by anything.
      - Stable: utilisation below 1; the steady-state formulas apply.
      - Unstable: utilisation 1 or more; queue length and wait are unbounded. */
  datatype QueueResult =
    | Degenerate
    | Stable(rho: real, lq: real, wq: real, p0: real)
    | Unstable(rho: real)
  {
    function Utilisation(): real
    {
      if Degenerate? then 0.0 else rho
    }

    function QueueLength(): Extended
    {
      match this
      case Degenerate => Finite(0.0)
      case Stable(_, lq, _, _) => Finite(lq)
      case Unstable(_) => Unbounded
    }

    function WaitTime(): Extended
    {
      match this
      case Degenerate => Finite(0.0)
      case Stable(_, _, wq, _) => Finite(wq)
      case Unstable(_) => Unbounded
    }

    /** P0. The degenerate tuple carries none. In the unstable case the
        source divides 1 by an infinite denominator and so reports 0. */
    function IdleProbability(): real
      requires !Degenerate?
    {
      if Stable? then p0 else 0.0
    }
  }

  /** The steady-state formulas, used only when lambda < c*mu. */
  function StableResult(lambda: real, mu: real, c: nat): (r: QueueResult)
    requires lambda > 0.0 && mu > 0.0 && c >= 1
    requires lambda < c as real * mu
    ensures r.Stable?
    ensures r.rho * (c as real * mu) == lambda && 0.0 < r.rho < 1.0
    ensures 0.0 < r.p0 < 1.0
    ensures r.lq > 0.0 && r.wq > 0.0
    ensures r.wq * lambda == r.lq
  {
    var rho := lambda / (c as real * mu);
    var a := lambda / mu;
    UtilisationRelation(lambda, mu, c);
    DivPositive(lambda, mu);
    ErlangSumAtLeastOne(a, c);
    PowPositive(a, c);
    StableFromParts(lambda, rho, ErlangSum(a, c), Pow(a, c), Fact(c))
  }

  /** The stable metrics from the utilisation rho, the normalisation sum s,
      p = a^c and f = c!. */
  function StableFromParts(lambda: real, rho: real, s: real, p: real, f: real): (r: QueueResult)
    requires lambda > 0.0 && 0.0 < rho < 1.0 && s >= 1.0 && p > 0.0 && f >= 1.0
    ensures r.Stable? && r.rho == rho
    ensures 0.0 < r.p0 < 1.0
    ensures r.lq > 0.0 && r.wq > 0.0
    ensures r.wq * lambda == r.lq
  {
    StableAlgebra(lambda, rho, s, p, f);
    var p0 := IdleFormula(rho, s, p, f);
    var lq := QueueFormula(p0, rho, p, f);
    Stable(rho, lq, lq / lambda, p0)
  }

  /** mmc_queue: the degenerate short-circuit, then the strict rho < 1 test
      choosing between the stable formulas and the unstable outcome. */
  function MmcQueue(lambda: real, mu: real, c: nat): (r: QueueResult)
    requires lambda >= 0.0 && mu >= 0.0
    ensures r.Degenerate? <==> lambda == 0.0 || mu == 0.0 || c == 0
    ensures !r.Degenerate? ==> r.rho == lambda / (c as real * mu)
    ensures !r.Degenerate? ==> r.rho * (c as real * mu) == lambda
    ensures r.Stable? <==> !r.Degenerate? && lambda < c as real * mu
    ensures r.Unstable? <==> !r.Degenerate? && lambda >= c as real * mu
    ensures r.Unstable? ==>
              r.rho >= 1.0 && r.QueueLength() == Unbounded && r.WaitTime() == Unbounded
              && r.IdleProbability() == 0.0
    ensures r.Stable? ==>
              r.rho < 1.0 && 0.0 < r.p0 < 1.0 && r.lq > 0.0 && r.wq > 0.0 && r.wq * lambda == r.lq
  {
    if lambda == 0.0 || mu == 0.0 || c == 0 then
      Degenerate
    else
      var rho := lambda / (c as real * mu);
      UtilisationRelation(lambda, mu, c);
      if rho < 1.0 then StableResult(lambda, mu, c) else Unstable(rho)
  }

  /** rho = lambda/(c*mu) undoes to lambda, and rho < 1 exactly when
      lambda < c*mu. */
  lemma UtilisationRelation(lambda: real, mu: real, c: nat)
    requires lambda > 0.0 && mu > 0.0 && c >= 1
    ensures c as real * mu > 0.0
    ensures (lambda / (c as real * mu)) * (c as real * mu) == lambda
    ensures lambda / (c as real * mu) < 1.0 <==> lambda < c as real * mu
    ensures lambda / (c as real * mu) > 0.0
  {
    MulPositive(c as real, mu);
    RatioBelowOne(lambda, c as real * mu);
  }

  /** For positive x and d: (x/d) d = x, x/d > 0, and x/d < 1 exactly when x < d. */
  lemma RatioBelowOne(x: real, d: real)
    requires x > 0.0 && d > 0.0
    ensures (x / d) * d == x
    ensures x / d < 1.0 <==> x < d
    ensures x / d > 0.0
  {
    DivCancel(x, d);
    DivPositive(x, d);
    assert d - x == (1.0 - x / d) * d;
    if x / d < 1.0 {
      MulPositive(1.0 - x / d, d);
    } else {
      MulNonNegative(x / d - 1.0, d);
    }
  }

  /** The divisors of the stable formulas are positive: c!(1-rho), the
      normalisation sum plus its tail, and c!(1-rho)^2. */
  lemma StableDenominators(rho: real, s: real, p: real, f: real)
    requires 0.0 < rho < 1.0 && s >= 1.0 && p > 0.0 && f >= 1.0
    ensures f * (1.0 - rho) > 0.0
    ensures p / (f * (1.0 - rho)) > 0.0
    ensures s + p / (f * (1.0 - rho)) > 1.0
    ensures f * ((1.0 - rho) * (1.0 - rho)) > 0.0
  {
    var x := 1.0 - rho;
    MulPositive(f, x);
    DivPositive(p, f * x);
    SquaredGapPositive(rho, f);
  }

  /** The idle probability 1/(s + p/(f(1-rho))) of the stable branch, with
      s the normalisation sum, p = a^c and f = c!. */
  function IdleFormula(rho: real, s: real, p: real, f: real): real
    requires 0.0 < rho < 1.0 && s >= 1.0 && p > 0.0 && f >= 1.0
  {
    StableDenominators(rho, s, p, f);
    1.0 / (s + p / (f * (1.0 - rho)))
  }

  /** The queue length p0 p rho / (f (1-rho)^2) of the stable branch. */
  function QueueFormula(p0: real, rho: real, p: real, f: real): real
    requires 0.0 < rho < 1.0 && f >= 1.0
  {
    SquaredGapPositive(rho, f);
    (p0 * p * rho) / (f * ((1.0 - rho) * (1.0 - rho)))
  }

  /** c!(1-rho)^2 > 0, the divisor of the queue formula. */
  lemma SquaredGapPositive(rho: real, f: real)
    requires 0.0 < rho < 1.0 && f >= 1.0
    ensures f * ((1.0 - rho) * (1.0 - rho)) > 0.0
  {
    var x := 1.0 - rho;
    MulPositive(f, x);
    MulPositive(f * x, x);
    assert f * (x * x) == (f * x) * x;
  }

  /** The sign facts behind the stable branch, over plain reals:
      s >= 1 (the sum), p > 0 (a^c), f >= 1 (c!), 0 < rho < 1. */
  lemma StableAlgebra(lambda: real, rho: real, s: real, p: real, f: real)
    requires lambda > 0.0 && 0.0 < rho < 1.0 && s >= 1.0 && p > 0.0 && f >= 1.0
    ensures 0.0 < IdleFormula(rho, s, p, f) < 1.0
    ensures QueueFormula(IdleFormula(rho, s, p, f), rho, p, f) > 0.0
    ensures QueueFormula(IdleFormula(rho, s, p, f), rho, p, f) / lambda > 0.0
    ensures (QueueFormula(IdleFormula(rho, s, p, f), rho, p, f) / lambda) * lambda
            == QueueFormula(IdleFormula(rho, s, p, f), rho, p, f)
  {
    StableDenominators(rho, s, p, f);
    var d := s + p / (f * (1.0 - rho));
    var p0 := IdleFormula(rho, s, p, f);
    assert p0 == 1.0 / d;
    DivPositive(1.0, d);
    DivCancel(1.0, d);
    assert p0 * d == 1.0;
    assert 1.0 - p0 == p0 * (d - 1.0);
    MulPositive(p0, d - 1.0);
    MulPositive(p0, p);
    MulPositive(p0 * p, rho);
    var lq := QueueFormula(p0, rho, p, f);
    DivPositive(p0 * p * rho, f * ((1.0 - rho) * (1.0 - rho)));
    DivPositive(lq, lambda);
    DivCancel(lq, lambda);
  }

  // ---------------------------------------------------------------------
  // Worked examples

  /** Two arrivals an hour, one service an hour, three stations: offered
      load a = 2, normalisation sum 1 + 2 + 2 = 5, and the stable metrics
      rho = 2/3, Lq = 8/9, Wq = 4/9, P0 = 1/9 exactly. */
  lemma WorkedExample()
    ensures ErlangSum(2.0, 3) == 5.0
    ensures MmcQueue(2.0, 1.0, 3) == Stable(2.0 / 3.0, 8.0 / 9.0, 4.0 / 9.0, 1.0 / 9.0)
  {
    assert Pow(2.0, 3) == 8.0 && Fact(3) == 6.0;
    assert ErlangSum(2.0, 3) == 1.0 + 2.0 + 2.0;
    assert IdleFormula(2.0 / 3.0, 5.0, 8.0, 6.0) == 1.0 / 9.0;
    assert QueueFormula(1.0 / 9.0, 2.0 / 3.0, 8.0, 6.0) == 8.0 / 9.0;
  }

  /** Five arrivals an hour against three stations serving one an hour
      each: rho = 5/3 >= 1, so queue length and wait are unbounded and the
      idle probability is 0. */
  lemma UnstableExample()
    ensures MmcQueue(5.0, 1.0, 3) == Unstable(5.0 / 3.0)
    ensures MmcQueue(5.0, 1.0, 3).WaitTime() == Unbounded
    ensures MmcQueue(5.0, 1.0, 3).IdleProbability() == 0.0
  {
  }

  /** Exactly at capacity (rho = 1) the location is already unstable: the
      test rho < 1 is strict. */
  lemma SaturatedExample()
    ensures MmcQueue(3.0, 1.0, 3) == Unstable(1.0)
  {
  }

  /** With no traffic the estimator short-circuits to the zero result. */
  lemma IdleExample()
    ensures MmcQueue(0.0, 2.0, 4) == Degenerate
    ensures MmcQueue(0.0, 2.0, 4).WaitTime() == Finite(0.0)
  {
  }
}
