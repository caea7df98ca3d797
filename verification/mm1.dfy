/** The M/M/1 evaluator: Poisson arrivals at rate λ, one exponential server
    at rate μ. The waiting-time tail probabilities P(W > t) and P(Wq > t) are
    exponentials and are not part of this model. */
module MM1 {
  import opened Numeric
  import opened Outcome

  datatype Metrics = Metrics(
    rho: real,       // traffic intensity λ/μ
    l: real,         // mean number in the system
    lq: real,        // mean number waiting
    w: real,         // mean time in the system
    wq: real,        // mean time waiting
    p0: real,        // probability of an empty system
    pIdle: real,     // P(n = 0), reported separately
    pBusy: real,     // P(n > 0)
    pnQueue: real,   // the value reported for "n customers in the queue": 1 - ρ^(n+1)
    pnSystem: real   // P(n customers in the system) = ρ^n (1 - ρ)
  )

  lemma {:induction false} RatioNotOne(a: real, b: real)
    requires b != 0.0 && a != b
    ensures a / b != 1.0
  {
    if a / b == 1.0 {
      DivCancel(a, b);
    }
  }

  /** The M/M/1 metrics. Stability (λ < μ) is checked before anything is
      computed; the time thresholds are checked after the means. */
  function QueueMetrics(lambda: real, mu: real, t1: real, t2: real, n: nat): (r: Result<Metrics>)
    requires lambda < mu ==> mu != 0.0
    ensures mu <= lambda ==> r == Err(Unstable)
    ensures lambda < mu && (t1 < 0.0 || t2 < 0.0) ==> r == Err(NegativeWaitingTime)
    ensures r.Ok? <==> lambda < mu && t1 >= 0.0 && t2 >= 0.0
  {
    if mu <= lambda then Err(Unstable)
    else
      RatioNotOne(lambda, mu);
      var rho := lambda / mu;
      var p0 := 1.0 - rho;
      if t1 < 0.0 || t2 < 0.0 then Err(NegativeWaitingTime)
      else
        Ok(Metrics(rho, rho / (1.0 - rho), Pow(rho, 2) / (1.0 - rho),
                   1.0 / (mu - lambda), rho / (mu - lambda),
                   p0, p0, 1.0 - p0,
                   1.0 - Pow(rho, n + 1), Pow(rho, n) * (1.0 - rho)))
  }

  /** The state distribution ρ^k (1 - ρ) for k = 0 .. m-1. */
  function StateProbabilities(rho: real, m: nat): (r: seq<real>)
    ensures |r| == m
  {
    seq(m, k requires 0 <= k < m => (1.0 - rho) * Pow(rho, k))
  }

  // Algebra over plain reals, with ρ = λ/μ.

  lemma {:induction false} OneMinusRatio(a: real, b: real)
    requires b != 0.0
    ensures 1.0 - a / b == (b - a) / b
  {
    DivCancel(a, b);
    assert (1.0 - a / b) * b == b - a;
    DivEq(b - a, 1.0 - a / b, b);
  }

  lemma {:induction false} MeanNumberIdentity(lambda: real, mu: real)
    requires mu != 0.0 && mu != lambda
    ensures (lambda / mu) / (1.0 - lambda / mu) == lambda / (mu - lambda)
  {
    var rho := lambda / mu;
    OneMinusRatio(lambda, mu);
    DivCancel(lambda, mu);
    assert lambda / (mu - lambda) * (1.0 - rho) == rho by {
      assert lambda / (mu - lambda) * ((mu - lambda) / mu) == lambda / mu;
    }
    RatioNotOne(lambda, mu);
    DivEq(rho, lambda / (mu - lambda), 1.0 - rho);
  }

  lemma {:induction false} QueueIdentity(rho: real)
    requires rho != 1.0
    ensures rho / (1.0 - rho) - Pow(rho, 2) / (1.0 - rho) == rho
  {
    PowTwo(rho);
    assert rho / (1.0 - rho) - (rho * rho) / (1.0 - rho) == (rho * (1.0 - rho)) / (1.0 - rho);
  }

  lemma {:induction false} SojournIdentity(lambda: real, mu: real)
    requires mu != 0.0 && mu != lambda
    ensures 1.0 / (mu - lambda) == (lambda / mu) / (mu - lambda) + 1.0 / mu
  {
    var d := mu - lambda;
    assert (lambda / mu) / d + 1.0 / mu == (lambda + d) / (mu * d);
  }

  /** Little's law and the mean-value identities on the formulas themselves. */
  lemma {:induction false} MeanValues(lambda: real, mu: real)
    requires mu != 0.0 && mu != lambda
    ensures var rho := lambda / mu;
      && rho != 1.0
      && lambda * (1.0 / (mu - lambda)) == rho / (1.0 - rho)
      && lambda * (rho / (mu - lambda)) == Pow(rho, 2) / (1.0 - rho)
      && rho / (1.0 - rho) - Pow(rho, 2) / (1.0 - rho) == rho
      && 1.0 / (mu - lambda) == rho / (mu - lambda) + 1.0 / mu
  {
    var rho := lambda / mu;
    RatioNotOne(lambda, mu);
    MeanNumberIdentity(lambda, mu);
    QueueIdentity(rho);
    SojournIdentity(lambda, mu);
    PowTwo(rho);
    assert Pow(rho, 2) / (1.0 - rho) == rho * (rho / (1.0 - rho));
  }

  /** Little's law in both forms, L - Lq = ρ, and W = Wq + 1/μ. */
  lemma {:induction false} LittleLaw(lambda: real, mu: real, t1: real, t2: real, n: nat)
    requires lambda < mu && mu != 0.0 && t1 >= 0.0 && t2 >= 0.0
    ensures var m := QueueMetrics(lambda, mu, t1, t2, n).value;
      && lambda * m.w == m.l
      && lambda * m.wq == m.lq
      && m.l - m.lq == m.rho
      && m.w == m.wq + 1.0 / mu
  {
    MeanValues(lambda, mu);
  }

  /** P0 = 1 - ρ, P(n > 0) = ρ, and P0 is a probability in (0, 1] for 0 <= λ < μ. */
  lemma {:induction false} EmptyProbability(lambda: real, mu: real, t1: real, t2: real, n: nat)
    requires lambda < mu && mu != 0.0 && t1 >= 0.0 && t2 >= 0.0
    ensures var m := QueueMetrics(lambda, mu, t1, t2, n).value;
      && m.p0 == m.pIdle == 1.0 - m.rho
      && m.pBusy == m.rho
      && (lambda >= 0.0 ==> 0.0 < m.p0 <= 1.0)
  {
    if lambda >= 0.0 {
      DivNonNegative(lambda, mu);
      DivLessThanOne(lambda, mu);
    }
  }

  /** The first n + 1 terms of the state distribution sum to 1 - ρ^(n+1). */
  lemma {:induction false} DistributionPrefix(rho: real, n: nat)
    ensures Sum(StateProbabilities(rho, n + 1)) == 1.0 - Pow(rho, n + 1)
  {
    GeometricPrefixSum(StateProbabilities(rho, n + 1), rho);
  }

  /** The reported P(n) is the n-th term of the state distribution, and the
      value reported for the queue, 1 - ρ^(n+1), is the probability of at most
      n customers: the sum of the first n + 1 terms. */
  lemma {:induction false} StateDistribution(lambda: real, mu: real, t1: real, t2: real, n: nat)
    requires lambda < mu && mu != 0.0 && t1 >= 0.0 && t2 >= 0.0
    ensures var m := QueueMetrics(lambda, mu, t1, t2, n).value;
      && m.pnSystem == StateProbabilities(m.rho, n + 1)[n]
      && m.pnQueue == Sum(StateProbabilities(m.rho, n + 1))
  {
    DistributionPrefix(lambda / mu, n);
  }
}
