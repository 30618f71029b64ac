/** The textbook form of the M/M/c results, through Erlang's C formula,
    as an independent reference for the formulas the estimator evaluates,
    and the effect of one extra charging station on a stable location. */
module ErlangC {
  import opened ErlangMath
  import opened QueueModel

  /** The offered load a = lambda/mu: the number of stations that would be
      busy on average. */
  function Load(lambda: real, mu: real): real
    requires mu > 0.0
  {
    lambda / mu
  }

  /** The utilisation rho = lambda/(c mu) of c stations. */
  function Rho(lambda: real, mu: real, c: nat): real
    requires mu > 0.0 && c >= 1
  {
    MulPositive(c as real, mu);
    lambda / (c as real * mu)
  }

  /** The busy weight t c/(c - a) of Erlang's C formula, with t = a^c/c!. */
  function BusyWeight(a: real, c: nat, t: real): (q: real)
    requires 0.0 < a < c as real && t > 0.0
    ensures q > 0.0
  {
    DivPositive(c as real, c as real - a);
    MulPositive(t, c as real / (c as real - a));
    t * (c as real / (c as real - a))
  }

  /** The share q/(s + q) of a positive weight q next to a positive sum s. */
  function WaitFraction(q: real, s: real): (r: real)
    requires q > 0.0 && s > 0.0
    ensures 0.0 < r < 1.0
  {
    FractionInUnit(q, s);
    q / (s + q)
  }

  /** Erlang's C formula over its parts: with t = a^c/c! and s the
      normalisation sum, the probability of waiting is q/(s + q) for the
      busy weight q = t c/(c - a). */
  function ErlangCFormula(a: real, c: nat, s: real, t: real): (r: real)
    requires 0.0 < a < c as real && s > 0.0 && t > 0.0
    ensures 0.0 < r < 1.0
  {
    WaitFraction(BusyWeight(a, c, t), s)
  }

  /** Erlang's C formula: the probability that an arriving vehicle finds
      all c stations busy and has to queue, for offered load a < c. */
  function WaitProbability(a: real, c: nat): (r: real)
    requires 0.0 < a < c as real
    ensures 0.0 < r < 1.0
  {
    ErlangSumAtLeastOne(a, c);
    TermPositive(a, c);
    ErlangCFormula(a, c, ErlangSum(a, c), Term(a, c))
  }

  /** The textbook mean wait: Wq = C/(c*mu - lambda) for a probability of
      waiting C. */
  function ErlangWait(waitProbability: real, lambda: real, mu: real, c: nat): real
    requires lambda < c as real * mu
  {
    waitProbability / (c as real * mu - lambda)
  }

  /** The textbook mean queue length: Lq = C rho/(1 - rho). */
  function ErlangQueueLength(waitProbability: real, rho: real): real
    requires rho < 1.0
  {
    waitProbability * rho / (1.0 - rho)
  }

  /** The estimator's stable wait agrees with the textbook M/M/c result
      Wq = C(c, a)/(c*mu - lambda), with a = lambda/mu the offered load. */
  lemma StableWaitIsErlangC(lambda: real, mu: real, c: nat)
    requires lambda > 0.0 && mu > 0.0 && c >= 1 && lambda < c as real * mu
    ensures Load(lambda, mu) < c as real
    ensures MmcQueue(lambda, mu, c).Stable?
    ensures MmcQueue(lambda, mu, c).wq
            == ErlangWait(WaitProbability(Load(lambda, mu), c), lambda, mu, c)
  {
    StableAsParts(lambda, mu, c);
    WaitProbabilityAsParts(lambda, mu, c);
    ErlangCAlgebra(lambda, mu, c,
                   ErlangSum(Load(lambda, mu), c), Pow(Load(lambda, mu), c), Fact(c));
  }

  /** The estimator's stable queue length agrees with the textbook M/M/c
      result Lq = C(c, a) rho/(1 - rho). */
  lemma StableQueueIsErlangC(lambda: real, mu: real, c: nat)
    requires lambda > 0.0 && mu > 0.0 && c >= 1 && lambda < c as real * mu
    ensures Load(lambda, mu) < c as real
    ensures MmcQueue(lambda, mu, c).Stable?
    ensures MmcQueue(lambda, mu, c).lq
            == ErlangQueueLength(WaitProbability(Load(lambda, mu), c), MmcQueue(lambda, mu, c).rho)
  {
    StableAsParts(lambda, mu, c);
    WaitProbabilityAsParts(lambda, mu, c);
    ErlangCAlgebra(lambda, mu, c,
                   ErlangSum(Load(lambda, mu), c), Pow(Load(lambda, mu), c), Fact(c));
  }

  /** The estimator's stable idle probability agrees with the textbook
      M/M/c result P0 = 1/(s + q): s is the normalisation sum and
      q = (a^c/c!) c/(c - a) the busy weight of Erlang's C formula. */
  lemma StableIdleIsErlangC(lambda: real, mu: real, c: nat)
    requires lambda > 0.0 && mu > 0.0 && c >= 1 && lambda < c as real * mu
    ensures Load(lambda, mu) < c as real
    ensures Term(Load(lambda, mu), c) > 0.0 && ErlangSum(Load(lambda, mu), c) >= 1.0
    ensures MmcQueue(lambda, mu, c).Stable?
    ensures MmcQueue(lambda, mu, c).p0
            == 1.0 / (ErlangSum(Load(lambda, mu), c) + BusyWeight(Load(lambda, mu), c, Term(Load(lambda, mu), c)))
  {
    StableAsParts(lambda, mu, c);
    TermPositive(Load(lambda, mu), c);
    IdleAlgebra(lambda, mu, c, ErlangSum(Load(lambda, mu), c), Pow(Load(lambda, mu), c), Fact(c));
  }

  /** The algebra behind StableIdleIsErlangC, with s the normalisation sum,
      p = a^c and f = c! left abstract. */
  lemma IdleAlgebra(lambda: real, mu: real, c: nat, s: real, p: real, f: real)
    requires lambda > 0.0 && mu > 0.0 && c >= 1 && lambda < c as real * mu
    requires s >= 1.0 && p > 0.0 && f >= 1.0
    ensures Load(lambda, mu) < c as real && 0.0 < Rho(lambda, mu, c) < 1.0 && p / f > 0.0
    ensures StableFromParts(lambda, Rho(lambda, mu, c), s, p, f).p0
            == 1.0 / (s + BusyWeight(Load(lambda, mu), c, p / f))
  {
    LoadFacts(lambda, mu, c);
    DivPositive(p, f);
    ErlangCTail(lambda, mu, c, s, p, f);
    IdleFromWeight(Rho(lambda, mu, c), s, p, f,
                   c as real / (c as real - Load(lambda, mu)), BusyWeight(Load(lambda, mu), c, p / f));
  }

  /** The idle formula 1/(s + p/(f (1 - rho))) is 1/(s + q) for the
      weight q = (p/f) w with q f (1 - rho) = p. */
  lemma IdleFromWeight(rho: real, s: real, p: real, f: real, w: real, q: real)
    requires 0.0 < rho < 1.0 && s >= 1.0 && p > 0.0 && f >= 1.0
    requires ((p / f) * w) * (f * (1.0 - rho)) == p && q == (p / f) * w
    ensures IdleFormula(rho, s, p, f) == 1.0 / (s + q)
  {
    StableDenominators(rho, s, p, f);
    DivUnique(p, f * (1.0 - rho), q);
  }

  /** Unfolds the estimator's stable branch into its parts: the
      normalisation sum, a^c and c!. */
  lemma StableAsParts(lambda: real, mu: real, c: nat)
    requires lambda > 0.0 && mu > 0.0 && c >= 1 && lambda < c as real * mu
    ensures ErlangSum(Load(lambda, mu), c) >= 1.0 && Pow(Load(lambda, mu), c) > 0.0
    ensures Load(lambda, mu) < c as real && 0.0 < Rho(lambda, mu, c) < 1.0
    ensures MmcQueue(lambda, mu, c)
            == StableFromParts(lambda, Rho(lambda, mu, c),
                               ErlangSum(Load(lambda, mu), c), Pow(Load(lambda, mu), c), Fact(c))
  {
    DivPositive(lambda, mu);
    LoadFacts(lambda, mu, c);
    ErlangSumAtLeastOne(Load(lambda, mu), c);
    PowPositive(Load(lambda, mu), c);
  }

  /** Unfolds Erlang's C formula into the same parts. */
  lemma WaitProbabilityAsParts(lambda: real, mu: real, c: nat)
    requires lambda > 0.0 && mu > 0.0 && Load(lambda, mu) < c as real
    ensures ErlangSum(Load(lambda, mu), c) >= 1.0 && Pow(Load(lambda, mu), c) / Fact(c) > 0.0
    ensures WaitProbability(Load(lambda, mu), c)
            == ErlangCFormula(Load(lambda, mu), c, ErlangSum(Load(lambda, mu), c),
                              Pow(Load(lambda, mu), c) / Fact(c))
  {
    DivPositive(lambda, mu);
    ErlangSumAtLeastOne(Load(lambda, mu), c);
    TermPositive(Load(lambda, mu), c);
  }

  /** The algebra behind StableWaitIsErlangC and StableQueueIsErlangC, with
      s the normalisation sum, p = a^c and f = c! left abstract. */
  lemma ErlangCAlgebra(lambda: real, mu: real, c: nat, s: real, p: real, f: real)
    requires lambda > 0.0 && mu > 0.0 && c >= 1 && lambda < c as real * mu
    requires s >= 1.0 && p > 0.0 && f >= 1.0
    ensures Load(lambda, mu) < c as real && 0.0 < Rho(lambda, mu, c) < 1.0
    ensures StableFromParts(lambda, Rho(lambda, mu, c), s, p, f).wq
            == ErlangWait(ErlangCFormula(Load(lambda, mu), c, s, p / f), lambda, mu, c)
    ensures StableFromParts(lambda, Rho(lambda, mu, c), s, p, f).lq
            == ErlangQueueLength(ErlangCFormula(Load(lambda, mu), c, s, p / f),
                                 Rho(lambda, mu, c))
  {
    LoadFacts(lambda, mu, c);
    ErlangCQueue(lambda, mu, c, s, p, f);
    WaitViaWaitProbability(
      QueueFormula(IdleFormula(Rho(lambda, mu, c), s, p, f), Rho(lambda, mu, c), p, f),
      lambda, ErlangCFormula(Load(lambda, mu), c, s, p / f), Rho(lambda, mu, c),
      1.0 - Rho(lambda, mu, c), c as real * mu);
  }

  /** Lq (1 - rho) = C rho for the estimator's Lq and Erlang's C. */
  lemma ErlangCQueue(lambda: real, mu: real, c: nat, s: real, p: real, f: real)
    requires lambda > 0.0 && mu > 0.0 && c >= 1 && lambda < c as real * mu
    requires s >= 1.0 && p > 0.0 && f >= 1.0
    ensures Load(lambda, mu) < c as real && 0.0 < Rho(lambda, mu, c) < 1.0
    ensures QueueFormula(IdleFormula(Rho(lambda, mu, c), s, p, f), Rho(lambda, mu, c), p, f)
            * (1.0 - Rho(lambda, mu, c))
            == ErlangCFormula(Load(lambda, mu), c, s, p / f) * Rho(lambda, mu, c)
  {
    LoadFacts(lambda, mu, c);
    ErlangCTail(lambda, mu, c, s, p, f);
    StableDenominators(Rho(lambda, mu, c), s, p, f);
    DivCancel(IdleFormula(Rho(lambda, mu, c), s, p, f) * p * Rho(lambda, mu, c),
              f * ((1.0 - Rho(lambda, mu, c)) * (1.0 - Rho(lambda, mu, c))));
    QueueViaWaitProbability(
      QueueFormula(IdleFormula(Rho(lambda, mu, c), s, p, f), Rho(lambda, mu, c), p, f),
      IdleFormula(Rho(lambda, mu, c), s, p, f), p, Rho(lambda, mu, c), f,
      1.0 - Rho(lambda, mu, c),
      (p / f) * (c as real / (c as real - Load(lambda, mu))), ErlangCFormula(Load(lambda, mu), c, s, p / f));
  }

  /** The tail p/(f (1 - rho)) of the idle formula is the busy weight
      q = (p/f) c/(c - a), and Erlang's C equals P0 q. */
  lemma ErlangCTail(lambda: real, mu: real, c: nat, s: real, p: real, f: real)
    requires lambda > 0.0 && mu > 0.0 && c >= 1 && lambda < c as real * mu
    requires s >= 1.0 && p > 0.0 && f >= 1.0
    ensures Load(lambda, mu) < c as real && 0.0 < Rho(lambda, mu, c) < 1.0
    ensures ((p / f) * (c as real / (c as real - Load(lambda, mu)))) * (f * (1.0 - Rho(lambda, mu, c))) == p
    ensures ErlangCFormula(Load(lambda, mu), c, s, p / f)
            == IdleFormula(Rho(lambda, mu, c), s, p, f) * ((p / f) * (c as real / (c as real - Load(lambda, mu))))
  {
    LoadFacts(lambda, mu, c);
    StableDenominators(Rho(lambda, mu, c), s, p, f);
    DivPositive(p, f);
    TailIsBusyWeight(p, f, 1.0 - Rho(lambda, mu, c), c as real / (c as real - Load(lambda, mu)));
    IdleTimesWeight(s, p / (f * (1.0 - Rho(lambda, mu, c))),
                    (p / f) * (c as real / (c as real - Load(lambda, mu))),
                    IdleFormula(Rho(lambda, mu, c), s, p, f));
  }

  /** With a = lambda/mu and rho = lambda/(c mu) < 1: a < c, rho undoes to
      lambda, 1 - rho is the reciprocal of c/(c - a), and
      c mu (1 - rho) = c mu - lambda. */
  lemma LoadFacts(lambda: real, mu: real, c: nat)
    requires lambda > 0.0 && mu > 0.0 && c >= 1 && lambda < c as real * mu
    ensures Load(lambda, mu) < c as real
    ensures 0.0 < Rho(lambda, mu, c) < 1.0
    ensures Rho(lambda, mu, c) * (c as real * mu) == lambda
    ensures (c as real / (c as real - Load(lambda, mu))) * (1.0 - Rho(lambda, mu, c)) == 1.0
    ensures (c as real * mu) * (1.0 - Rho(lambda, mu, c)) == c as real * mu - lambda
  {
    MulPositive(c as real, mu);
    UtilisationRelation(lambda, mu, c);
    DivCancel(lambda, mu);
    assert c as real * mu - lambda == (c as real - Load(lambda, mu)) * mu;
    DivUnique(c as real * mu - lambda, mu, c as real - Load(lambda, mu));
    DivPositive(c as real * mu - lambda, mu);
    DivCancel(Load(lambda, mu), c as real);
    assert (Load(lambda, mu) / c as real) * (c as real * mu)
        == ((Load(lambda, mu) / c as real) * c as real) * mu;
    DivUnique(lambda, c as real * mu, Load(lambda, mu) / c as real);
    assert (1.0 - Rho(lambda, mu, c)) * c as real == c as real - Load(lambda, mu);
    DivCancel(c as real, c as real - Load(lambda, mu));
    assert ((c as real / (c as real - Load(lambda, mu))) * (1.0 - Rho(lambda, mu, c))) * c as real
        == (c as real / (c as real - Load(lambda, mu))) * ((1.0 - Rho(lambda, mu, c)) * c as real);
    MulCancel((c as real / (c as real - Load(lambda, mu))) * (1.0 - Rho(lambda, mu, c)), 1.0, c as real);
  }

  /** p/(f x) = (p/f) w when w x = 1. */
  lemma TailIsBusyWeight(p: real, f: real, x: real, w: real)
    requires f >= 1.0 && x > 0.0 && w * x == 1.0
    ensures f * x > 0.0
    ensures p / (f * x) == (p / f) * w
    ensures ((p / f) * w) * (f * x) == p
  {
    MulPositive(f, x);
    DivCancel(p, f);
    assert ((p / f) * w) * (f * x) == ((p / f) * f) * (w * x);
    DivUnique(p, f * x, (p / f) * w);
  }

  /** With P0 = 1/(s + t) and t = q: q/(s + q) = P0 q. */
  lemma IdleTimesWeight(s: real, t: real, q: real, p0: real)
    requires s + t > 0.0 && t == q && p0 == 1.0 / (s + t)
    ensures q / (s + q) == p0 * q
  {
    DivCancel(1.0, s + t);
    assert (p0 * q) * (s + q) == q * (p0 * (s + t));
    DivUnique(q, s + q, p0 * q);
  }

  /** Lq f x^2 = P0 p rho, p = q f x and C = P0 q give Lq x = C rho. */
  lemma QueueViaWaitProbability(lq: real, p0: real, p: real, rho: real, f: real, x: real,
                                q: real, cw: real)
    requires f * x > 0.0
    requires lq * (f * (x * x)) == p0 * p * rho
    requires q * (f * x) == p && cw == p0 * q
    ensures lq * x == cw * rho
  {
    assert (lq * x) * (f * x) == lq * (f * (x * x));
    assert (cw * rho) * (f * x) == (p0 * rho) * (q * (f * x));
    MulCancel(lq * x, cw * rho, f * x);
  }

  /** Lq x = C rho with rho d = lambda and d x = d - lambda gives
      Lq = C rho/x and Lq/lambda = C/(d - lambda). */
  lemma WaitViaWaitProbability(lq: real, lambda: real, cw: real, rho: real, x: real, d: real)
    requires lambda > 0.0 && x > 0.0 && d > 0.0
    requires rho * d == lambda && d * x == d - lambda
    requires lq * x == cw * rho
    ensures lq == cw * rho / x
    ensures lq / lambda == cw / (d - lambda)
  {
    DivUnique(cw * rho, x, lq);
    MulPositive(d, x);
    assert lq * (d - lambda) == (lq * x) * d;
    assert cw * lambda == (cw * rho) * d;
    CrossDivide(lq, lambda, cw, d - lambda);
  }

  /** x/y == z/w whenever x*w == z*y and neither divisor is zero. */
  lemma CrossDivide(x: real, y: real, z: real, w: real)
    requires y != 0.0 && w != 0.0 && x * w == z * y
    ensures x / y == z / w
  {
    var u := z / w;
    DivCancel(z, w);
    assert (u * y) * w == (u * w) * y;
    MulCancel(x, u * y, w);
    DivUnique(x, y, u);
  }

  lemma FractionInUnit(q: real, s: real)
    requires q > 0.0 && s > 0.0
    ensures 0.0 < q / (s + q) < 1.0
  {
    var r := q / (s + q);
    DivPositive(q, s + q);
    DivCancel(q, s + q);
    assert (1.0 - r) * (s + q) == s;
    DivUnique(s, s + q, 1.0 - r);
    DivPositive(s, s + q);
  }

  // ---------------------------------------------------------------------
  // One more charging station

  /** With the load unchanged, one more station strictly lowers the
      utilisation. */
  lemma AddServerLowersUtilisation(lambda: real, mu: real, c: nat)
    requires lambda > 0.0 && mu > 0.0 && c >= 1
    ensures MmcQueue(lambda, mu, c + 1).rho < MmcQueue(lambda, mu, c).rho
  {
    UtilisationOf(lambda, mu, c);
    UtilisationOf(lambda, mu, c + 1);
    CapacityGrows(lambda, mu, c);
  }

  /** The utilisation of a location with traffic, service and at least one
      station is lambda/(c mu). */
  lemma UtilisationOf(lambda: real, mu: real, c: nat)
    requires lambda > 0.0 && mu > 0.0 && c >= 1
    ensures MmcQueue(lambda, mu, c).rho == Rho(lambda, mu, c)
  {
  }

  /** lambda/((c + 1) mu) < lambda/(c mu). */
  lemma CapacityGrows(lambda: real, mu: real, c: nat)
    requires lambda > 0.0 && mu > 0.0 && c >= 1
    ensures Rho(lambda, mu, c + 1) < Rho(lambda, mu, c)
  {
    MulPositive(c as real, mu);
    assert (c + 1) as real * mu == c as real * mu + mu;
    QuotientFalls(lambda, c as real * mu, (c + 1) as real * mu);
  }

  /** x/d' < x/d for 0 < d < d' and x > 0. */
  lemma QuotientFalls(x: real, d: real, d': real)
    requires x > 0.0 && 0.0 < d < d'
    ensures x / d' < x / d
  {
    DivCancel(x, d);
    DivCancel(x, d');
    MulPositive(x / d, d' - d);
    Distribute(x / d, d', d);
    QuotientLess(x, d', x, d, x / d', x / d);
  }

  /** A stable location stays stable with one more station. */
  lemma AddServerKeepsStable(lambda: real, mu: real, c: nat)
    requires lambda > 0.0 && mu > 0.0 && c >= 1
    requires MmcQueue(lambda, mu, c).Stable?
    ensures MmcQueue(lambda, mu, c + 1).Stable?
  {
    assert (c + 1) as real * mu == c as real * mu + mu;
  }

  /** Erlang's C formula falls when a station is added at the same load:
      C(c + 1, a) < C(c, a) for 0 < a < c. */
  lemma WaitProbabilityFalls(a: real, c: nat)
    requires 0.0 < a < c as real
    ensures a < (c + 1) as real
    ensures WaitProbability(a, c + 1) < WaitProbability(a, c)
  {
    ErlangSumAtLeastOne(a, c);
    TermPositive(a, c);
    TermPositive(a, c + 1);
    TermStep(a, c);
    assert ErlangSum(a, c + 1) == ErlangSum(a, c) + Term(a, c);
    ErlangCStep(a, c, ErlangSum(a, c), Term(a, c), ErlangSum(a, c + 1), Term(a, c + 1));
  }

  /** The step behind WaitProbabilityFalls over abstract parts: the sum
      gains the term t, the next term is t a/(c + 1), and the busy weight
      drops from t c/(c - a) to t a/(c + 1 - a). */
  lemma ErlangCStep(a: real, c: nat, s: real, t: real, s': real, t': real)
    requires 0.0 < a < c as real && s > 0.0 && t > 0.0
    requires s' == s + t && t' == NextTerm(t, a, c) && t' > 0.0
    ensures ErlangCFormula(a, c + 1, s', t') < ErlangCFormula(a, c, s, t)
  {
    BusyWeightFalls(a, c, t, t');
    FractionFalls(BusyWeight(a, c + 1, t'), s', BusyWeight(a, c, t), s);
  }

  /** t' (c + 1)/(c + 1 - a) < t c/(c - a) when t' = t a/(c + 1). */
  lemma BusyWeightFalls(a: real, c: nat, t: real, t': real)
    requires 0.0 < a < c as real && t > 0.0 && t' == NextTerm(t, a, c)
    ensures t' > 0.0 && BusyWeight(a, c + 1, t') < BusyWeight(a, c, t)
  {
    NextWeight(a, c, t, t');
    BusyWeightTimesGap(a, c, t);
    WeightCross(a, c, t);
    CompareWeights(a, c, t, BusyWeight(a, c + 1, t'), BusyWeight(a, c, t));
  }

  /** The comparison of BusyWeightFalls from the three cross-multiplied
      facts, with u and v standing for the two busy weights. */
  lemma CompareWeights(a: real, c: nat, t: real, u: real, v: real)
    requires 0.0 < a < c as real && t > 0.0
    requires u * ((c + 1) as real - a) == t * a
    requires v * (c as real - a) == t * (c as real)
    requires (t * a) * (c as real - a) < (t * (c as real)) * ((c + 1) as real - a)
    ensures u < v
  {
    QuotientLess(t * a, (c + 1) as real - a, t * (c as real), c as real - a, u, v);
  }

  /** The next busy weight times (c + 1 - a) is t a. */
  lemma NextWeight(a: real, c: nat, t: real, t': real)
    requires 0.0 < a < c as real && t > 0.0 && t' == NextTerm(t, a, c)
    ensures t' > 0.0
    ensures BusyWeight(a, c + 1, t') * ((c + 1) as real - a) == t * a
  {
    DivPositive(t * a, (c + 1) as real);
    DivCancel(t * a, (c + 1) as real);
    DivCancel((c + 1) as real, (c + 1) as real - a);
    assert BusyWeight(a, c + 1, t') * ((c + 1) as real - a)
        == t' * (((c + 1) as real / ((c + 1) as real - a)) * ((c + 1) as real - a));
  }

  /** The busy weight times (c - a) is t c. */
  lemma BusyWeightTimesGap(a: real, c: nat, t: real)
    requires 0.0 < a < c as real && t > 0.0
    ensures BusyWeight(a, c, t) * (c as real - a) == t * (c as real)
  {
    DivCancel(c as real, c as real - a);
    assert BusyWeight(a, c, t) * (c as real - a)
        == t * ((c as real / (c as real - a)) * (c as real - a));
  }

  /** t a (c - a) < t c (c + 1 - a): the difference is t ((c - a)^2 + c). */
  lemma WeightCross(a: real, c: nat, t: real)
    requires 0.0 < a < c as real && t > 0.0
    ensures (t * a) * (c as real - a) < (t * (c as real)) * ((c + 1) as real - a)
  {
    MulPositive(c as real - a, c as real - a);
    assert (c as real) * ((c + 1) as real - a) - a * (c as real - a)
        == (c as real - a) * (c as real - a) + c as real;
    MulPositive(t, (c as real) * ((c + 1) as real - a) - a * (c as real - a));
    assert (t * (c as real)) * ((c + 1) as real - a) - (t * a) * (c as real - a)
        == t * ((c as real) * ((c + 1) as real - a) - a * (c as real - a));
  }

  /** x/y < z/w for positive divisors when x w < z y, given the quotients
      as u and v. */
  lemma QuotientLess(x: real, y: real, z: real, w: real, u: real, v: real)
    requires y > 0.0 && w > 0.0 && x * w < z * y
    requires u * y == x && v * w == z
    ensures u < v
  {
    assert (u * y) * w < (v * w) * y;
    assert (u - v) * (y * w) < 0.0;
    MulPositive(y, w);
    NegativeFactor(u - v, y * w);
  }

  lemma Distribute(x: real, y: real, z: real)
    ensures (x - y) * z == x * z - y * z && x * (y - z) == x * y - x * z
  {
  }

  lemma NegativeFactor(x: real, p: real)
    requires p > 0.0 && x * p < 0.0
    ensures x < 0.0
  {
  }

  /** q/(s + q) grows with q and shrinks with s. */
  lemma FractionFalls(q': real, s': real, q: real, s: real)
    requires 0.0 < q' < q && 0.0 < s <= s'
    ensures WaitFraction(q', s') < WaitFraction(q, s)
  {
    DivCancel(q', s' + q');
    DivCancel(q, s + q);
    MulPositive(q - q', s);
    MulNonNegative(q, s' - s);
    Distribute(q, q', s);
    Distribute(q, s', s);
    assert q' * (s + q) == q' * s + q' * q;
    assert q * (s' + q') == q * s' + q' * q;
    QuotientLess(q', s' + q', q, s + q, WaitFraction(q', s'), WaitFraction(q, s));
  }

  /** Adding a station to a stable location strictly shortens the expected
      wait: the re-evaluated Wq is below the baseline Wq. */
  lemma AddServerShortensWait(lambda: real, mu: real, c: nat)
    requires lambda > 0.0 && mu > 0.0 && c >= 1 && lambda < c as real * mu
    ensures MmcQueue(lambda, mu, c).Stable? && MmcQueue(lambda, mu, c + 1).Stable?
    ensures MmcQueue(lambda, mu, c + 1).wq < MmcQueue(lambda, mu, c).wq
  {
    assert lambda < (c + 1) as real * mu by {
      assert (c + 1) as real * mu == c as real * mu + mu;
    }
    StableWaitIsErlangC(lambda, mu, c);
    StableWaitIsErlangC(lambda, mu, c + 1);
    WaitProbabilityFalls(Load(lambda, mu), c);
    ErlangWaitFalls(WaitProbability(Load(lambda, mu), c + 1), WaitProbability(Load(lambda, mu), c),
                    lambda, mu, c);
  }

  /** C'/((c + 1) mu - lambda) < C/(c mu - lambda) for 0 < C' < C. */
  lemma ErlangWaitFalls(w': real, w: real, lambda: real, mu: real, c: nat)
    requires 0.0 < w' < w && mu > 0.0 && lambda < c as real * mu
    ensures lambda < (c + 1) as real * mu
    ensures ErlangWait(w', lambda, mu, c + 1) < ErlangWait(w, lambda, mu, c)
  {
    assert (c + 1) as real * mu - lambda == (c as real * mu - lambda) + mu;
    DivCancel(w', (c + 1) as real * mu - lambda);
    DivCancel(w, c as real * mu - lambda);
    assert w' * (c as real * mu - lambda) < w * ((c + 1) as real * mu - lambda) by {
      MulPositive(w - w', c as real * mu - lambda);
      MulPositive(w, mu);
    }
    QuotientLess(w', (c + 1) as real * mu - lambda, w, c as real * mu - lambda,
                 ErlangWait(w', lambda, mu, c + 1), ErlangWait(w, lambda, mu, c));
  }
}
