/** The M/M/c evaluator (Erlang C): Poisson arrivals at rate λ, c identical
    exponential servers at rate μ each, unlimited waiting room. The
    waiting-time tail probabilities are exponentials and are not part of this
    model. */
module MMC {
  import opened Numeric
  import opened Outcome
  import MM1

  datatype Metrics = Metrics(
    rho: real,         // per-server utilisation λ/(cμ)
    p0: real,          // probability of an empty system
    pQueue: real,      // probability that an arrival has to wait
    lq: real,          // mean number waiting
    l: real,           // mean number in the system
    wq: real,          // mean time waiting
    w: real,           // mean time in the system
    pn: real,          // P(N = n)
    pMoreThanN: real,  // P(N > n)
    pUpToN: real       // P(N <= n)
  )

  /** a^n / n! */
  function PoissonTerm(a: real, n: nat): real
  {
    Pow(a, n) / (Fact(n) as real)
  }

  /** Sum of a^n / n! for n = 0 .. c-1. */
  function ErlangSum(a: real, c: nat): real
  {
    if c == 0 then 0.0 else ErlangSum(a, c - 1) + PoissonTerm(a, c - 1)
  }

  /** P(N = k) with offered load a, c servers and empty-system probability p0:
      Poisson-shaped below c, geometric from c on. */
  function StateProbability(a: real, c: nat, p0: real, k: nat): real
    requires c >= 1
  {
    if k < c then PoissonTerm(a, k) * p0 else QueuedTerm(a, c, k) * p0
  }

  /** a^k / (c! c^(k-c)), the weight of state k >= c. */
  function QueuedTerm(a: real, c: nat, k: nat): real
    requires 1 <= c <= k
  {
    Pow(a, k) / QueueDivisor(c, k)
  }

  /** c! c^(k-c), the divisor of the weight of state k >= c. */
  function QueueDivisor(c: nat, k: nat): (d: real)
    requires 1 <= c <= k
    ensures d > 0.0
  {
    PowPositive(c as real, k - c);
    MulPositive(Fact(c) as real, Pow(c as real, k - c));
    (Fact(c) as real) * Pow(c as real, k - c)
  }

  /** Sum of P(N = k) for k = 0 .. n-1. */
  function CumulativeProbability(a: real, c: nat, p0: real, n: nat): real
    requires c >= 1
  {
    if n == 0 then 0.0 else CumulativeProbability(a, c, p0, n - 1) + StateProbability(a, c, p0, n - 1)
  }

  /** Sum of (a^n / n!) * p0 for n = 0 .. c-1: the probability of not waiting. */
  function NoWaitProbability(a: real, p0: real, c: nat): real
  {
    if c == 0 then 0.0 else NoWaitProbability(a, p0, c - 1) + PoissonTerm(a, c - 1) * p0
  }

  lemma {:induction false} PoissonTermPositive(a: real, n: nat)
    requires a > 0.0
    ensures PoissonTerm(a, n) > 0.0
  {
    PowPositive(a, n);
    DivPositive(Pow(a, n), Fact(n) as real);
  }

  lemma {:induction false} PoissonTermNonNegative(a: real, n: nat)
    requires a >= 0.0
    ensures PoissonTerm(a, n) >= 0.0
  {
    PowNonNegative(a, n);
    DivNonNegative(Pow(a, n), Fact(n) as real);
  }

  /** The Erlang sum starts with a^0/0! = 1 and never loses from there. */
  lemma {:induction false} ErlangSumAtLeastOne(a: real, c: nat)
    requires a >= 0.0 && c >= 1
    ensures ErlangSum(a, c) >= 1.0
  {
    if c > 1 {
      ErlangSumAtLeastOne(a, c - 1);
      PoissonTermNonNegative(a, c - 1);
    } else {
      assert ErlangSum(a, 1) == PoissonTerm(a, 0);
    }
  }

  /** The M/M/c metrics. Stability (λ < cμ) is checked before anything is
      computed; the time thresholds are checked after the means. Dividing Lq
      by λ needs λ != 0, and the model only takes positive arrival rates. */
  function QueueMetrics(lambda: real, mu: real, c: nat, t1: real, t2: real, n: nat): (r: Result<Metrics>)
    requires lambda < mu * (c as real) ==> lambda > 0.0
    ensures mu * (c as real) <= lambda ==> r == Err(Unstable)
    ensures lambda < mu * (c as real) && (t1 < 0.0 || t2 < 0.0) ==> r == Err(NegativeWaitingTime)
    ensures r.Ok? <==> lambda < mu * (c as real) && t1 >= 0.0 && t2 >= 0.0
  {
    if mu * (c as real) <= lambda then Err(Unstable)
    else if t1 < 0.0 || t2 < 0.0 then Err(NegativeWaitingTime)
    else Ok(StableMetrics(lambda, mu, c, n))
  }

  /** The metrics of a stable system with λ > 0. */
  function StableMetrics(lambda: real, mu: real, c: nat, n: nat): Metrics
    requires 0.0 < lambda < mu * (c as real)
  {
    StableParameters(lambda, mu, c);
    var rho := lambda / ((c as real) * mu);
    var a := lambda / mu;
    var p0 := EmptyProbability(a, c, rho);
    var pQueue := QueueProbability(a, c, rho, p0);
    var lq := pQueue * rho / (1.0 - rho);
    var wq := lq / lambda;
    var pMore := 1.0 - CumulativeProbability(a, c, p0, n + 1);
    Metrics(rho, p0, pQueue, lq, lq + a, wq, wq + 1.0 / mu, StateProbability(a, c, p0, n), pMore, 1.0 - pMore)
  }

  /** P0, the reciprocal of the Erlang sum plus the term for all servers busy:
      a probability in (0, 1] that normalises the distribution. */
  function EmptyProbability(a: real, c: nat, rho: real): (p0: real)
    requires a > 0.0 && c >= 1 && 0.0 < rho < 1.0
    ensures 0.0 < p0 <= 1.0
    ensures p0 * (ErlangSum(a, c) + PoissonTerm(a, c) * (1.0 / (1.0 - rho))) == 1.0
  {
    ErlangDenominatorPositive(a, c, rho);
    ReciprocalBounds(ErlangSum(a, c) + PoissonTerm(a, c) * (1.0 / (1.0 - rho)));
    1.0 / (ErlangSum(a, c) + PoissonTerm(a, c) * (1.0 / (1.0 - rho)))
  }

  /** P_queue = P0 a^c / c! / (1 - ρ), the Erlang C probability of waiting. */
  function QueueProbability(a: real, c: nat, rho: real, p0: real): real
    requires rho != 1.0
  {
    (p0 * Pow(a, c) / (Fact(c) as real)) * (1.0 / (1.0 - rho))
  }

  lemma {:induction false} ReciprocalBounds(d: real)
    requires d >= 1.0
    ensures 0.0 < 1.0 / d <= 1.0
    ensures (1.0 / d) * d == 1.0
  {
    DivPositive(1.0, d);
    DivCancel(1.0, d);
    if d > 1.0 {
      DivLessThanOne(1.0, d);
    }
  }

  /** Under the stability check and λ > 0: μ > 0, c >= 1, a > 0 and 0 < ρ < 1. */
  lemma {:induction false} StableParameters(lambda: real, mu: real, c: nat)
    requires 0.0 < lambda < mu * (c as real)
    ensures mu > 0.0 && c >= 1
    ensures lambda / mu > 0.0
    ensures 0.0 < lambda / ((c as real) * mu) < 1.0
  {
    if mu <= 0.0 {
      MulNonNegative(-mu, c as real);
    }
    assert c >= 1;
    DivPositive(lambda, mu);
    MulPositive(c as real, mu);
    DivPositive(lambda, (c as real) * mu);
    DivLessThanOne(lambda, (c as real) * mu);
  }

  lemma {:induction false} ErlangDenominatorPositive(a: real, c: nat, rho: real)
    requires a > 0.0 && c >= 1 && 0.0 < rho < 1.0
    ensures 1.0 - rho != 0.0
    ensures ErlangSum(a, c) >= 1.0
    ensures PoissonTerm(a, c) * (1.0 / (1.0 - rho)) > 0.0
  {
    ErlangSumAtLeastOne(a, c);
    PoissonTermPositive(a, c);
    DivPositive(1.0, 1.0 - rho);
    MulPositive(PoissonTerm(a, c), 1.0 / (1.0 - rho));
  }

  /** P_queue = P0 times the all-busy term. */
  lemma {:induction false} QueueProbabilityIsBusyShare(x: real, f: real, rho: real, p0: real)
    requires f >= 1.0 && rho != 1.0
    ensures (p0 * x / f) * (1.0 / (1.0 - rho)) == p0 * (x / f * (1.0 / (1.0 - rho)))

  {
    assert p0 * x / f == p0 * (x / f);
  }

  lemma {:induction false} QueueProbabilityShare(a: real, c: nat, rho: real, p0: real)
    requires rho != 1.0
    ensures QueueProbability(a, c, rho, p0) == p0 * (PoissonTerm(a, c) * (1.0 / (1.0 - rho)))
  {
    QueueProbabilityIsBusyShare(Pow(a, c), Fact(c) as real, rho, p0);
  }

  /** The probability of not waiting is p0 times the Erlang sum. */
  lemma {:induction false} NoWaitLinear(a: real, p0: real, c: nat)
    ensures NoWaitProbability(a, p0, c) == ErlangSum(a, c) * p0
  {
    if c > 0 {
      NoWaitLinear(a, p0, c - 1);
      var t := PoissonTerm(a, c - 1);
      assert (ErlangSum(a, c - 1) + t) * p0 == ErlangSum(a, c - 1) * p0 + t * p0;
    }
  }

  /** An arrival waits or it does not: P_queue + P(Wq = 0) = 1, where
      P(Wq = 0) sums P(N = k) over the states with an idle server. */
  lemma {:induction false} WaitOrNot(a: real, c: nat, rho: real)
    requires a > 0.0 && c >= 1 && 0.0 < rho < 1.0
    ensures var p0 := EmptyProbability(a, c, rho);
      && 0.0 < QueueProbability(a, c, rho, p0) <= 1.0
      && QueueProbability(a, c, rho, p0) + NoWaitProbability(a, p0, c) == 1.0
      && NoWaitProbability(a, p0, c) == CumulativeProbability(a, c, p0, c)
  {
    var p0 := EmptyProbability(a, c, rho);
    var sum := ErlangSum(a, c);
    var busy := PoissonTerm(a, c) * (1.0 / (1.0 - rho));
    ErlangDenominatorPositive(a, c, rho);
    QueueProbabilityShare(a, c, rho, p0);
    Shares(p0, sum, busy, QueueProbability(a, c, rho, p0));
    NoWaitLinear(a, p0, c);
    NoWaitIsCumulative(a, p0, c, c);
  }

  lemma {:induction false} Shares(p0: real, sum: real, busy: real, q: real)
    requires p0 > 0.0 && sum >= 0.0 && busy > 0.0
    requires p0 * (sum + busy) == 1.0 && q == p0 * busy
    ensures 0.0 < q <= 1.0 && q + sum * p0 == 1.0
  {
    MulPositive(p0, busy);
    MulNonNegative(sum, p0);
  }

  /** The reported P0, P_queue and ρ of a stable system: probabilities in
      range, and P_queue + P(Wq = 0) = 1. */
  lemma {:induction false} WaitingProbability(lambda: real, mu: real, c: nat, n: nat)
    requires 0.0 < lambda < mu * (c as real) && mu > 0.0
    ensures var m := StableMetrics(lambda, mu, c, n);
      var a := lambda / mu;
      && 0.0 < m.rho < 1.0
      && 0.0 < m.p0 <= 1.0
      && 0.0 < m.pQueue <= 1.0
      && m.pQueue + NoWaitProbability(a, m.p0, c) == 1.0
      && NoWaitProbability(a, m.p0, c) == CumulativeProbability(a, c, m.p0, c)
  {
    StableParameters(lambda, mu, c);
    WaitOrNot(lambda / mu, c, lambda / ((c as real) * mu));
  }

  /** Below c servers the two sums agree term by term. */
  lemma {:induction false} NoWaitIsCumulative(a: real, p0: real, c: nat, k: nat)
    requires 1 <= c && k <= c
    ensures NoWaitProbability(a, p0, k) == CumulativeProbability(a, c, p0, k)
  {
    if k > 0 {
      NoWaitIsCumulative(a, p0, c, k - 1);
    }
  }

  lemma {:induction false} MeanAlgebra(lambda: real, mu: real, a: real, lq: real)
    requires lambda > 0.0 && mu > 0.0 && a == lambda / mu
    ensures lambda * (lq / lambda) == lq
    ensures lambda * (lq / lambda + 1.0 / mu) == lq + a
  {
    DivCancel(lq, lambda);
    assert lambda * (1.0 / mu) == lambda / mu;
  }

  /** L = Lq + λ/μ, W = Wq + 1/μ, and Lq > 0. */
  lemma {:induction false} MeanValues(lambda: real, mu: real, c: nat, n: nat)
    requires 0.0 < lambda < mu * (c as real) && mu > 0.0
    ensures var m := StableMetrics(lambda, mu, c, n);
      && m.l == m.lq + lambda / mu
      && m.w == m.wq + 1.0 / mu
      && m.lq > 0.0
  {
    WaitingProbability(lambda, mu, c, n);
    var m := StableMetrics(lambda, mu, c, n);
    QueueLengthPositive(m.pQueue, m.rho);
  }

  /** Little's law for the queue and for the whole system. */
  lemma {:induction false} LittleLaw(lambda: real, mu: real, c: nat, n: nat)
    requires 0.0 < lambda < mu * (c as real) && mu > 0.0
    ensures var m := StableMetrics(lambda, mu, c, n);
      && lambda * m.wq == m.lq
      && lambda * m.w == m.l
  {
    var m := StableMetrics(lambda, mu, c, n);
    MeanAlgebra(lambda, mu, lambda / mu, m.lq);
  }

  lemma {:induction false} QueueLengthPositive(pQueue: real, rho: real)
    requires pQueue > 0.0 && 0.0 < rho < 1.0
    ensures pQueue * rho / (1.0 - rho) > 0.0
  {
    MulPositive(pQueue, rho);
    DivPositive(pQueue * rho, 1.0 - rho);
  }

  /** At k = c the Poisson-shaped and the geometric formula give the same weight. */
  lemma {:induction false} BranchesAgree(a: real, c: nat)
    requires c >= 1
    ensures QueuedTerm(a, c, c) == PoissonTerm(a, c)
  {
    assert Pow(c as real, 0) == 1.0;
  }

  /** The reported P(N <= n) is the sum of the first n + 1 state
      probabilities, and P(N > n) is its complement. */
  lemma {:induction false} StateDistribution(lambda: real, mu: real, c: nat, n: nat)
    requires 0.0 < lambda < mu * (c as real) && mu > 0.0
    ensures var m := StableMetrics(lambda, mu, c, n);
      var a := lambda / mu;
      && m.pn > 0.0
      && m.pUpToN == CumulativeProbability(a, c, m.p0, n + 1)
      && m.pMoreThanN + m.pUpToN == 1.0
      && m.pUpToN == CumulativeProbability(a, c, m.p0, n) + m.pn
  {
    StableParameters(lambda, mu, c);
    WaitingProbability(lambda, mu, c, n);
    var m := StableMetrics(lambda, mu, c, n);
    StateProbabilityPositive(lambda / mu, c, m.p0, n);
  }

  /** Every state probability is positive, so P(N <= n) grows with n. */
  lemma {:induction false} StateProbabilityPositive(a: real, c: nat, p0: real, k: nat)
    requires c >= 1 && a > 0.0 && p0 > 0.0
    ensures StateProbability(a, c, p0, k) > 0.0
  {
    if k < c {
      PoissonTermPositive(a, k);
      MulPositive(PoissonTerm(a, k), p0);
    } else {
      PowPositive(a, k);
      PowPositive(c as real, k - c);
      MulPositive(Fact(c) as real, Pow(c as real, k - c));
      DivPositive(Pow(a, k), (Fact(c) as real) * Pow(c as real, k - c));
      MulPositive(QueuedTerm(a, c, k), p0);
    }
  }

  lemma {:induction false} CumulativeMonotone(a: real, c: nat, p0: real, n: nat)
    requires c >= 1 && a > 0.0 && p0 > 0.0
    ensures CumulativeProbability(a, c, p0, n) < CumulativeProbability(a, c, p0, n + 1)
  {
    StateProbabilityPositive(a, c, p0, n);
  }

  lemma {:induction false} SingleServerAlgebra(a: real)
    requires 0.0 < a < 1.0
    ensures 1.0 / (1.0 + a * (1.0 / (1.0 - a))) == 1.0 - a
    ensures ((1.0 - a) * a / 1.0) * (1.0 / (1.0 - a)) == a
    ensures a * a / (1.0 - a) == Pow(a, 2) / (1.0 - a)
  {
    PowTwo(a);
    assert 1.0 + a * (1.0 / (1.0 - a)) == 1.0 / (1.0 - a);
  }

  lemma {:induction false} SingleServerProbabilities(a: real)
    requires 0.0 < a < 1.0
    ensures EmptyProbability(a, 1, a) == 1.0 - a
    ensures QueueProbability(a, 1, a, 1.0 - a) == a
  {
    assert ErlangSum(a, 1) == 1.0;
    assert Pow(a, 1) == a;
    assert PoissonTerm(a, 1) == a;
    SingleServerAlgebra(a);
  }

  /** With one server, ρ, P0 and Lq are those of M/M/1, and the probability
      of waiting is ρ. */
  lemma {:induction false} SingleServerCore(lambda: real, mu: real, n: nat)
    requires 0.0 < lambda < mu
    ensures var m := StableMetrics(lambda, mu, 1, n);
      var m1 := MM1.QueueMetrics(lambda, mu, 0.0, 0.0, n).value;
      && m.rho == m1.rho
      && m.p0 == m1.p0
      && m.pQueue == m1.rho
      && m.lq == m1.lq
  {
    var a := lambda / mu;
    assert lambda / (1.0 * mu) == a;
    DivPositive(lambda, mu);
    DivLessThanOne(lambda, mu);
    SingleServerProbabilities(a);
    SingleServerAlgebra(a);
  }

  /** With one server the state distribution is the geometric one of M/M/1. */
  lemma {:induction false} SingleServerState(a: real, n: nat)
    ensures StateProbability(a, 1, 1.0 - a, n) == Pow(a, n) * (1.0 - a)
  {
    if n == 0 {
      assert PoissonTerm(a, 0) == 1.0;
    } else {
      PowOne(n - 1);
      assert QueuedTerm(a, 1, n) == Pow(a, n);
    }
  }

  /** With one server every reported mean equals the M/M/1 value. */
  lemma {:induction false} SingleServerIsMM1(lambda: real, mu: real, n: nat)
    requires 0.0 < lambda < mu
    ensures var m := StableMetrics(lambda, mu, 1, n);
      var m1 := MM1.QueueMetrics(lambda, mu, 0.0, 0.0, n).value;
      && m.l == m1.l
      && m.wq == m1.wq
      && m.w == m1.w
  {
    var m := StableMetrics(lambda, mu, 1, n);
    var m1 := MM1.QueueMetrics(lambda, mu, 0.0, 0.0, n).value;
    SingleServerCore(lambda, mu, n);
    MeanValues(lambda, mu, 1, n);
    MM1.LittleLaw(lambda, mu, 0.0, 0.0, n);
    DivEq(m1.lq, m1.wq, lambda);
  }

  /** With one server the reported P(N = n) is the n-th term of the M/M/1
      state distribution. */
  lemma {:induction false} SingleServerDistribution(lambda: real, mu: real, n: nat)
    requires 0.0 < lambda < mu
    ensures var m := StableMetrics(lambda, mu, 1, n);
      m.pn == MM1.StateProbabilities(m.rho, n + 1)[n]
  {
    var a := lambda / mu;
    var m := StableMetrics(lambda, mu, 1, n);
    assert m.rho == a;
    DivPositive(lambda, mu);
    DivLessThanOne(lambda, mu);
    SingleServerProbabilities(a);
    SingleServerState(a, n);
  }
}
