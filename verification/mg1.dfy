/** The M/G/1 evaluator: Poisson arrivals, one server with a general service
    time of mean 1/μ and variance σ², using the Pollaczek–Khinchine mean-value
    formula. */
module MG1 {
  import opened Numeric
  import opened Outcome
  import MM1

  datatype Metrics = Metrics(
    p0: real,   // probability of an empty system
    rho: real,  // utilisation λ/μ
    l: real,    // mean number in the system
    lq: real,   // mean number waiting
    w: real,    // mean time in the system
    wq: real    // mean time waiting
  )

  /** The M/G/1 metrics. The source raises on instability; that exception is
      the error result here. Dividing Lq by λ needs λ != 0. */
  function QueueMetrics(lambda: real, mu: real, sigma2: real): (r: Result<Metrics>)
    requires mu != 0.0
    requires lambda / mu < 1.0 ==> lambda != 0.0
    ensures r.Err? <==> lambda / mu >= 1.0
    ensures r.Err? ==> r.error == Unstable
  {
    var rho := lambda / mu;
    if rho >= 1.0 then Err(Unstable)
    else
      var lq := QueueLength(lambda, rho, sigma2);
      var wq := lq / lambda;
      Ok(Metrics(1.0 - rho, rho, rho + lq, lq, wq + 1.0 / mu, wq))
  }

  /** λ² σ² + ρ², the numerator of the Pollaczek–Khinchine queue length. */
  function QueueLengthNumerator(lambda: real, rho: real, sigma2: real): real
  {
    Pow(lambda, 2) * sigma2 + Pow(rho, 2)
  }

  /** The Pollaczek–Khinchine queue length Lq = (λ² σ² + ρ²) / (2(1 - ρ)). */
  function QueueLength(lambda: real, rho: real, sigma2: real): real
    requires rho != 1.0
  {
    QueueLengthNumerator(lambda, rho, sigma2) / (2.0 * (1.0 - rho))
  }

  /** P0 = 1 - ρ, L = ρ + Lq, W = Wq + 1/μ, and Little's law in both forms. */
  lemma {:induction false} MeanValues(lambda: real, mu: real, sigma2: real)
    requires mu != 0.0 && lambda != 0.0 && lambda / mu < 1.0
    ensures var m := QueueMetrics(lambda, mu, sigma2).value;
      && m.p0 == 1.0 - m.rho
      && m.l == m.rho + m.lq
      && m.w == m.wq + 1.0 / mu
      && lambda * m.wq == m.lq
      && lambda * m.w == m.l
  {
    var m := QueueMetrics(lambda, mu, sigma2).value;
    DivCancel(m.lq, lambda);
    assert lambda * (1.0 / mu) == lambda / mu;
  }

  lemma {:induction false} QueueLengthFormulaNonNegative(lambda: real, rho: real, sigma2: real)
    requires sigma2 >= 0.0 && 0.0 <= rho < 1.0
    ensures (Pow(lambda, 2) * sigma2 + Pow(rho, 2)) / (2.0 * (1.0 - rho)) >= 0.0
  {
    PowTwo(lambda);
    PowTwo(rho);
    MulNonNegative(lambda * lambda, sigma2);
    MulNonNegative(rho, rho);
    DivNonNegative(Pow(lambda, 2) * sigma2 + Pow(rho, 2), 2.0 * (1.0 - rho));
  }

  /** With a nonnegative variance and 0 <= ρ < 1 the queue length is nonnegative. */
  lemma {:induction false} QueueLengthNonNegative(lambda: real, mu: real, sigma2: real)
    requires mu > 0.0 && lambda > 0.0 && lambda / mu < 1.0 && sigma2 >= 0.0
    ensures QueueMetrics(lambda, mu, sigma2).value.lq >= 0.0
  {
    DivPositive(lambda, mu);
    QueueLengthFormulaNonNegative(lambda, lambda / mu, sigma2);
  }

  lemma {:induction false} ExponentialService(lambda: real, mu: real, rho: real)
    requires mu != 0.0 && rho == lambda / mu && rho != 1.0
    ensures (Pow(lambda, 2) * (1.0 / (mu * mu)) + Pow(rho, 2)) / (2.0 * (1.0 - rho))
            == Pow(rho, 2) / (1.0 - rho)
  {
    PowTwo(lambda);
    PowTwo(rho);
    assert (lambda * lambda) * (1.0 / (mu * mu)) == rho * rho;
    assert (2.0 * (rho * rho)) / (2.0 * (1.0 - rho)) == (rho * rho) / (1.0 - rho);
  }

  /** With exponential service (σ² = 1/μ²) the queue length is the M/M/1 one. */
  lemma {:induction false} ExponentialServiceIsMM1(lambda: real, mu: real)
    requires 0.0 < lambda < mu
    ensures QueueMetrics(lambda, mu, 1.0 / (mu * mu)).value.lq
            == MM1.QueueMetrics(lambda, mu, 0.0, 0.0, 0).value.lq
  {
    DivLessThanOne(lambda, mu);
    MM1.RatioNotOne(lambda, mu);
    ExponentialService(lambda, mu, lambda / mu);
  }
}
