/** The M/M/s/N evaluator (the machine-repairman model): s exponential
    servers and a finite population of N customers, each arriving at rate λ
    while outside the system. The state weights are binomial below s and
    spread over s servers from s on. */
module MMCN {
  import opened Numeric

  datatype Metrics = Metrics(
    rho: real,        // Nλ/(sμ)
    p0: real,         // probability of an empty system
    l: real,          // mean number in the system
    lambdaEff: real,  // throughput λ(N - L)
    lq: real,         // the reported queue length L - (λ/μ)(N - L)
    w: real,          // mean time in the system, 0 when λ_eff <= 0
    wq: real,         // mean time waiting, 0 when λ_eff <= 0
    cost: real,       // waiting cost times L plus service cost times s
    pn: seq<real>     // P(n) for n = 0 .. N
  )

  /** The binomial coefficient N!/((N-n)! n!). */
  function BinomialCoefficient(pop: nat, n: nat): (c: real)
    requires n <= pop
    ensures c > 0.0
  {
    MulPositive(Fact(pop - n) as real, Fact(n) as real);
    DivPositive(Fact(pop) as real, (Fact(pop - n) as real) * (Fact(n) as real));
    (Fact(pop) as real) / ((Fact(pop - n) as real) * (Fact(n) as real))
  }

  /** N!/((N-n)! s! s^(n-s)): the coefficient of a state n >= s, whose
      customers beyond s wait for one of the s servers. */
  function SpreadCoefficient(s: nat, pop: nat, n: nat): (c: real)
    requires 1 <= s <= n <= pop
    ensures c > 0.0
  {
    PowPositive(s as real, n - s);
    MulPositive(Fact(pop - n) as real, Fact(s) as real);
    MulPositive((Fact(pop - n) as real) * (Fact(s) as real), Pow(s as real, n - s));
    DivPositive(Fact(pop) as real, (Fact(pop - n) as real) * (Fact(s) as real) * Pow(s as real, n - s));
    (Fact(pop) as real) / ((Fact(pop - n) as real) * (Fact(s) as real) * Pow(s as real, n - s))
  }

  /** The weight of state n below the servers: C(N, n) a^n. */
  function Binomial(a: real, pop: nat, n: nat): real
    requires n <= pop
  {
    BinomialCoefficient(pop, n) * Pow(a, n)
  }

  /** The weight of state n at or above the servers. */
  function Queued(a: real, s: nat, pop: nat, n: nat): real
    requires 1 <= s <= n <= pop
  {
    SpreadCoefficient(s, pop, n) * Pow(a, n)
  }

  /** The unnormalised weight of state n as the two sums split it: binomial
      for n < s, spread over the servers for n >= s. */
  function Weight(a: real, s: nat, pop: nat, n: nat): real
    requires s >= 1 && n <= pop
  {
    if n < s then Binomial(a, pop, n) else Queued(a, s, pop, n)
  }

  /** The weights of the states 0 .. m-1. */
  function Weights(a: real, s: nat, pop: nat, m: nat): (w: seq<real>)
    requires s >= 1 && m <= pop + 1
    ensures |w| == m
    ensures forall n :: 0 <= n < m ==> w[n] == Weight(a, s, pop, n)
  {
    seq(m, n requires 0 <= n < m => Weight(a, s, pop, n))
  }

  /** The first sum: the binomial weights of the states 0 .. m-1. */
  function HeadSum(a: real, pop: nat, m: nat): real
    requires m <= pop + 1
  {
    if m == 0 then 0.0 else HeadSum(a, pop, m - 1) + Binomial(a, pop, m - 1)
  }

  /** The second sum: the weights of the states s .. m-1. */
  function TailSum(a: real, s: nat, pop: nat, m: nat): real
    requires s >= 1 && m <= pop + 1
  {
    if m <= s then 0.0 else TailSum(a, s, pop, m - 1) + Queued(a, s, pop, m - 1)
  }

  /** sum1 + sum2, whose reciprocal is P0. */
  function Total(a: real, s: nat, pop: nat): real
    requires s >= 1
  {
    HeadSum(a, pop, Min(s, pop + 1)) + TailSum(a, s, pop, pop + 1)
  }

  /** P(n): zero outside 0 .. N, binomial up to and including s, spread over
      the servers above s, times P0. */
  function StateProbability(a: real, s: nat, pop: nat, p0: real, n: int): real
    requires s >= 1
  {
    if n > pop || n < 0 then 0.0
    else if n <= s then Binomial(a, pop, n) * p0
    else Queued(a, s, pop, n) * p0
  }

  /** The state distribution P(0) .. P(N). */
  function Distribution(a: real, s: nat, pop: nat, p0: real): (pn: seq<real>)
    requires s >= 1
    ensures |pn| == pop + 1
    ensures forall n :: 0 <= n <= pop ==> pn[n] == StateProbability(a, s, pop, p0, n)
  {
    seq(pop + 1, n requires 0 <= n <= pop => StateProbability(a, s, pop, p0, n))
  }

  /** The inputs on which the evaluator does not divide by zero or take the
      factorial of a negative number. */
  predicate Admissible(lambda: real, mu: real, s: int, pop: int)
  {
    mu != 0.0 && s >= 1 && pop >= 0 && Total(lambda / mu, s, pop) != 0.0
  }

  /** The metrics, as the evaluator computes them. */
  function MetricsOf(lambda: real, mu: real, s: int, pop: int, waitingCost: real, serviceCost: real): Metrics
    requires Admissible(lambda, mu, s, pop)
  {
    var a := lambda / mu;
    var p0 := 1.0 / Total(a, s, pop);
    Summary(lambda, mu, s, pop, p0, Distribution(a, s, pop, p0), waitingCost, serviceCost)
  }

  /** L, Lq and the throughput, before W and Wq are derived from them. */
  datatype Means = Means(l: real, lq: real, lambdaEff: real)

  /** L = Σ n P(n), the throughput λ(N - L), and the reported queue length
      L - (λ/μ)(N - L), which is L minus the throughput over μ. */
  function MeansOf(lambda: real, mu: real, pop: nat, pn: seq<real>): (r: Means)
    requires mu != 0.0
    ensures mu * (r.l - r.lq) == r.lambdaEff
  {
    var l := Moment(pn);
    QueueRelation(lambda, mu, pop as real, l);
    Means(l, l - (lambda / mu) * ((pop as real) - l), lambda * ((pop as real) - l))
  }

  lemma {:induction false} QueueRelation(lambda: real, mu: real, n: real, l: real)
    requires mu != 0.0
    ensures mu * (l - (l - (lambda / mu) * (n - l))) == lambda * (n - l)
  {
    DivMul(lambda, mu, n - l);
  }

  /** The metrics derived from the distribution: ρ = Nλ/(sμ), the means,
      W and Wq, and the cost. */
  function Summary(lambda: real, mu: real, s: nat, pop: nat, p0: real, pn: seq<real>,
                   waitingCost: real, serviceCost: real): Metrics
    requires mu != 0.0 && s >= 1
  {
    MulNonZero(s as real, mu);
    Report(((pop as real) * lambda) / ((s as real) * mu), p0, MeansOf(lambda, mu, pop, pn), s, pn,
           waitingCost, serviceCost)
  }

  /** The reported record. W and Wq are L and Lq over the throughput when it
      is positive, and 0 otherwise, so Little's law holds whenever the
      throughput is positive. */
  function Report(rho: real, p0: real, means: Means, s: nat, pn: seq<real>,
                  waitingCost: real, serviceCost: real): (m: Metrics)
    ensures m.lambdaEff > 0.0 ==> m.lambdaEff * m.w == m.l && m.lambdaEff * m.wq == m.lq
    ensures m.lambdaEff <= 0.0 ==> m.w == 0.0 && m.wq == 0.0
  {
    GuardedQuotient(means.l, means.lambdaEff);
    GuardedQuotient(means.lq, means.lambdaEff);
    Metrics(rho, p0, means.l, means.lambdaEff, means.lq,
            DivOrZero(means.l, means.lambdaEff), DivOrZero(means.lq, means.lambdaEff),
            waitingCost * means.l + serviceCost * (s as real), pn)
  }

  /** The M/M/s/N evaluator. There is no error result. */
  method QueueMetrics(lambda: real, mu: real, s: int, pop: int, waitingCost: real, serviceCost: real)
    returns (m: Metrics)
    requires Admissible(lambda, mu, s, pop)
    ensures m == MetricsOf(lambda, mu, s, pop, waitingCost, serviceCost)
  {
    var a := lambda / mu;
    var sum1 := FirstSum(a, s, pop);
    var sum2 := SecondSum(a, s, pop);
    var p0 := 1.0 / (sum1 + sum2);
    return Summary(lambda, mu, s, pop, p0, Distribution(a, s, pop, p0), waitingCost, serviceCost);
  }

  /** The first loop: adds the binomial weights of n = 0 .. min(s, N+1) - 1. */
  method FirstSum(a: real, s: nat, pop: nat) returns (sum1: real)
    requires s >= 1
    ensures sum1 == HeadSum(a, pop, Min(s, pop + 1))
  {
    sum1 := 0.0;
    var n := 0;
    while n < Min(s, pop + 1)
      invariant 0 <= n <= Min(s, pop + 1)
      invariant sum1 == HeadSum(a, pop, n)
    {
      if pop >= n {
        sum1 := sum1 + Binomial(a, pop, n);
      }
      n := n + 1;
    }
  }

  /** The second loop: when N >= s, adds the weights of n = s .. N. */
  method SecondSum(a: real, s: nat, pop: nat) returns (sum2: real)
    requires s >= 1
    ensures sum2 == TailSum(a, s, pop, pop + 1)
  {
    sum2 := 0.0;
    if pop >= s {
      var n := s;
      while n < pop + 1
        invariant s <= n <= pop + 1
        invariant sum2 == TailSum(a, s, pop, n)
      {
        sum2 := sum2 + Queued(a, s, pop, n);
        n := n + 1;
      }
    } else {
      TailSumBelowServers(a, s, pop, pop + 1);
    }
  }

  lemma {:induction false} TailSumBelowServers(a: real, s: nat, pop: nat, m: nat)
    requires s >= 1 && m <= pop + 1 && m <= s
    ensures TailSum(a, s, pop, m) == 0.0
  {
  }

  /** The two formulas of P(n) agree at n = s: the binomial weight of state s
      is its weight spread over s servers. */
  lemma {:induction false} BranchesAgree(a: real, s: nat, pop: nat)
    requires 1 <= s <= pop
    ensures Binomial(a, pop, s) == Queued(a, s, pop, s)
  {
    assert Pow(s as real, s - s) == 1.0;
  }

  /** The two sums together add up the weights of all states 0 .. m-1. */
  lemma {:induction false} SumsCoverStates(a: real, s: nat, pop: nat, m: nat)
    requires s >= 1 && m <= pop + 1
    ensures Sum(Weights(a, s, pop, m)) == HeadSum(a, pop, Min(s, m)) + TailSum(a, s, pop, m)
  {
    if m > 0 {
      SumsCoverStates(a, s, pop, m - 1);
      var w := Weights(a, s, pop, m);
      assert w[..m - 1] == Weights(a, s, pop, m - 1);
    }
  }

  /** P(n) is P0 times the weight of state n within 0 .. N, and 0 outside. */
  lemma {:induction false} StateProbabilityShape(a: real, s: nat, pop: nat, p0: real, n: int)
    requires s >= 1
    ensures n < 0 || n > pop ==> StateProbability(a, s, pop, p0, n) == 0.0
    ensures 0 <= n <= pop ==> StateProbability(a, s, pop, p0, n) == Weight(a, s, pop, n) * p0
  {
    if n == s && n <= pop {
      BranchesAgree(a, s, pop);
    }
  }

  /** For a >= 0 every weight is nonnegative and, for a > 0, every state up
      to N has positive weight. */
  lemma {:induction false} WeightSign(a: real, s: nat, pop: nat, n: nat)
    requires a >= 0.0 && s >= 1 && n <= pop
    ensures Weight(a, s, pop, n) >= 0.0
    ensures a > 0.0 ==> Weight(a, s, pop, n) > 0.0
  {
    PowNonNegative(a, n);
    if a > 0.0 {
      PowPositive(a, n);
    }
    if n < s {
      CoefficientTimesPower(BinomialCoefficient(pop, n), Pow(a, n));
    } else {
      CoefficientTimesPower(SpreadCoefficient(s, pop, n), Pow(a, n));
    }
  }

  lemma {:induction false} CoefficientTimesPower(c: real, p: real)
    requires c > 0.0 && p >= 0.0
    ensures c * p >= 0.0
    ensures p > 0.0 ==> c * p > 0.0
  {
    MulNonNegative(c, p);
    if p > 0.0 {
      MulPositive(c, p);
    }
  }

  /** The empty state has weight 1: C(N, 0) a^0. */
  lemma {:induction false} EmptyWeight(a: real, s: nat, pop: nat)
    requires s >= 1
    ensures Weight(a, s, pop, 0) == 1.0
  {
    assert Fact(0) == 1;
    var f := Fact(pop) as real;
    assert BinomialCoefficient(pop, 0) == f / (f * 1.0);
    assert f * 1.0 == f && f > 0.0;
    DivEq(f, 1.0, f);
  }

  /** With λ >= 0 and μ > 0 the weights are nonnegative and the empty state
      contributes 1, so sum1 + sum2 >= 1: every such input yields metrics. */
  lemma {:induction false} TotalAtLeastOne(lambda: real, mu: real, s: nat, pop: nat)
    requires lambda >= 0.0 && mu > 0.0 && s >= 1
    ensures Total(lambda / mu, s, pop) >= 1.0
    ensures Admissible(lambda, mu, s, pop)
  {
    var a := lambda / mu;
    DivNonNegative(lambda, mu);
    var w := Weights(a, s, pop, pop + 1);
    forall n | 0 <= n < |w|
      ensures w[n] >= 0.0
    {
      WeightSign(a, s, pop, n);
    }
    EmptyWeight(a, s, pop);
    SumsCoverStates(a, s, pop, pop + 1);
    SumSplit(w, 1);
    assert w[..1] == [w[0]];
    assert Sum(w[..1]) == w[0];
    assert AllNonNegative(w[1..]);
    SumNonNegative(w[1..]);
  }

  lemma {:induction false} ReciprocalScale(x: real, t: real, y: real)
    requires t != 0.0 && y == x
    ensures x * (1.0 / t) == y / t
  {
  }

  lemma {:induction false} SelfQuotient(x: real, t: real)
    requires t != 0.0 && x == t
    ensures x / t == 1.0
  {
  }

  /** The distribution is the weights divided by their total. */
  lemma {:induction false} DistributionIsScaled(a: real, s: nat, pop: nat, t: real)
    requires s >= 1 && t != 0.0
    ensures Distribution(a, s, pop, 1.0 / t) == Scale(Weights(a, s, pop, pop + 1), t)
  {
    var pn := Distribution(a, s, pop, 1.0 / t);
    var w := Weights(a, s, pop, pop + 1);
    forall n | 0 <= n <= pop
      ensures pn[n] == Scale(w, t)[n]
    {
      ScaledEntry(a, s, pop, t, n, w[n]);
    }
  }

  lemma {:induction false} ScaledEntry(a: real, s: nat, pop: nat, t: real, n: nat, x: real)
    requires s >= 1 && t != 0.0 && n <= pop && x == Weight(a, s, pop, n)
    ensures StateProbability(a, s, pop, 1.0 / t, n) == x / t
  {
    StateProbabilityShape(a, s, pop, 1.0 / t, n);
    ReciprocalScale(Weight(a, s, pop, n), t, x);
  }

  /** With λ >= 0 and μ > 0 the distribution has N + 1 nonnegative entries
      summing to 1, and P0 lies in (0, 1]. */
  lemma {:induction false} Normalisation(lambda: real, mu: real, s: nat, pop: nat)
    requires lambda >= 0.0 && mu > 0.0 && s >= 1
    ensures Admissible(lambda, mu, s, pop)
    ensures var a := lambda / mu;
      var p0 := 1.0 / Total(a, s, pop);
      var pn := Distribution(a, s, pop, p0);
      && 0.0 < p0 <= 1.0 && pn[0] == p0
      && AllNonNegative(pn) && Sum(pn) == 1.0
  {
    TotalAtLeastOne(lambda, mu, s, pop);
    var a := lambda / mu;
    DivNonNegative(lambda, mu);
    var t := Total(a, s, pop);
    var p0 := 1.0 / t;
    DivPositive(1.0, t);
    var pn := Distribution(a, s, pop, p0);
    var w := Weights(a, s, pop, pop + 1);
    DistributionIsScaled(a, s, pop, t);
    SumsCoverStates(a, s, pop, pop + 1);
    SumScale(w, t);
    SelfQuotient(Sum(w), t);
    forall n | 0 <= n <= pop
      ensures pn[n] >= 0.0
    {
      WeightSign(a, s, pop, n);
      DivNonNegative(w[n], t);
    }
    EmptyWeight(a, s, pop);
    StateProbabilityShape(a, s, pop, p0, 0);
  }

  /** With λ > 0, μ > 0 and N >= 1 the mean number in the system lies
      strictly between 0 and N, so the throughput λ(N - L) is positive and
      W, Wq are the Little's-law quotients rather than the fallback 0. */
  lemma {:induction false} PositiveThroughput(lambda: real, mu: real, s: nat, pop: nat)
    requires lambda > 0.0 && mu > 0.0 && s >= 1 && pop >= 1
    ensures Admissible(lambda, mu, s, pop)
    ensures var a := lambda / mu;
      var l := Moment(Distribution(a, s, pop, 1.0 / Total(a, s, pop)));
      && 0.0 < l < pop as real
      && 0.0 < lambda * ((pop as real) - l) < lambda * (pop as real)
  {
    Normalisation(lambda, mu, s, pop);
    var a := lambda / mu;
    DivPositive(lambda, mu);
    var p0 := 1.0 / Total(a, s, pop);
    var pn := Distribution(a, s, pop, p0);
    WeightSign(a, s, pop, 1);
    StateProbabilityShape(a, s, pop, p0, 1);
    MulPositive(Weight(a, s, pop, 1), p0);
    SumSplit(pn, 1);
    assert pn[..1] == [pn[0]];
    assert Sum(pn[..1]) == pn[0];
    assert AllNonNegative(pn[1..]);
    ElementAtMostSum(pn[1..], 0);
    MeanStrictlyBetween(pn, pop);
    var l := Moment(pn);
    MulPositive(lambda, (pop as real) - l);
    MulPositive(lambda, l);
  }
}
