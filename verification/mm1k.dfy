/** The M/M/1/K evaluator: one exponential server, Poisson arrivals, and room
    for at most K customers; arrivals that find the system full are lost. */
module MM1K {
  import opened Numeric
  import opened Outcome

  datatype Metrics = Metrics(
    rho: real,        // traffic intensity λ/μ
    p0: real,         // probability of an empty system
    pBlock: real,     // probability that an arrival finds the system full
    lambdaEff: real,  // effective arrival rate λ(1 - P_block)
    l: real,          // mean number in the system
    lq: real,         // mean number waiting
    w: real,          // mean time in the system
    wq: real,         // mean time waiting
    cost: real,       // waiting cost times L plus one service cost
    pn: seq<real>     // P(n) for n = 0 .. K
  )

  /** P0 of the truncated geometric distribution: 1/(K+1) at ρ = 1, and
      (1 - ρ)/(1 - ρ^(K+1)) otherwise. It is positive and normalises
      1, ρ, ..., ρ^K. */
  function EmptyProbability(rho: real, k: nat): (p0: real)
    requires rho > 0.0
    ensures p0 > 0.0
    ensures p0 * GeomSum(rho, k + 1) == 1.0
  {
    Normalisation(rho, k);
    if rho == 1.0 then 1.0 / ((k as real) + 1.0)
    else (1.0 - rho) / (1.0 - Pow(rho, k + 1))
  }

  lemma {:induction false} Normalisation(rho: real, k: nat)
    requires rho > 0.0
    ensures rho != 1.0 ==> Pow(rho, k + 1) != 1.0
    ensures var p0 := if rho == 1.0 then 1.0 / ((k as real) + 1.0)
                      else (1.0 - rho) / (1.0 - Pow(rho, k + 1));
      p0 > 0.0 && p0 * GeomSum(rho, k + 1) == 1.0
  {
    if rho == 1.0 {
      GeomSumAtOne(k + 1);
    } else {
      PowSameSide(rho, k + 1);
      GeomSumClosed(rho, k + 1);
      NormalisingRatio(rho, GeomSum(rho, k + 1), Pow(rho, k + 1));
    }
  }

  lemma {:induction false} NormalisingRatio(rho: real, g: real, q: real)
    requires rho != 1.0 && q != 1.0 && (1.0 - rho) * g == 1.0 - q
    ensures ((1.0 - rho) / (1.0 - q)) * g == 1.0
  {
    DivMul(1.0 - rho, 1.0 - q, g);
  }

  /** P(n) = P0 ρ^n. */
  function StateProbability(rho: real, p0: real, n: nat): real
  {
    p0 * Pow(rho, n)
  }

  /** The state distribution P(n) for n = 0 .. m-1. */
  function Distribution(rho: real, p0: real, m: nat): (s: seq<real>)
    ensures |s| == m
  {
    seq(m, n requires 0 <= n < m => StateProbability(rho, p0, n))
  }

  /** The closed form of L: K/2 at ρ = 1, ρ/(1-ρ) - (K+1)ρ^(K+1)/(1-ρ^(K+1)) otherwise. */
  function MeanNumber(rho: real, k: nat): real
    requires rho > 0.0
  {
    if rho == 1.0 then (k as real) / 2.0
    else
      PowSameSide(rho, k + 1);
      var numerator := rho / (1.0 - rho);
      var correction := (((k as real) + 1.0) * Pow(rho, k + 1)) / (1.0 - Pow(rho, k + 1));
      numerator - correction
  }

  /** The metrics for positive rates, as the evaluator computes them. */
  function MetricsOf(lambda: real, mu: real, k: nat, waitingCost: real, serviceCost: real): Metrics
    requires lambda > 0.0 && mu > 0.0
  {
    DivPositive(lambda, mu);
    var rho := lambda / mu;
    var p0 := EmptyProbability(rho, k);
    Summary(lambda, rho, p0, Distribution(rho, p0, k + 1), k, waitingCost, serviceCost)
  }

  /** The metrics computed from ρ, P0 and the distribution: blocking,
      effective rate, the means and the cost. */
  function Summary(lambda: real, rho: real, p0: real, pn: seq<real>, k: nat,
                   waitingCost: real, serviceCost: real): Metrics
    requires rho > 0.0 && |pn| == k + 1
  {
    var lambdaEff := lambda * (1.0 - pn[k]);
    var l := MeanNumber(rho, k);
    var lq := l - (1.0 - p0);
    Metrics(rho, p0, pn[k], lambdaEff, l, lq, DivOrZero(l, lambdaEff), DivOrZero(lq, lambdaEff),
            waitingCost * l + serviceCost * 1.0, pn)
  }

  /** The M/M/1/K evaluator. Only the rates are validated; K is a natural number. */
  method QueueMetrics(lambda: real, mu: real, k: nat, waitingCost: real, serviceCost: real)
    returns (r: Result<Metrics>)
    ensures r.Err? <==> mu <= 0.0 || lambda <= 0.0
    ensures r.Err? ==> r.error == NonPositiveRates
    ensures r.Ok? ==> r.value == MetricsOf(lambda, mu, k, waitingCost, serviceCost)
  {
    if mu <= 0.0 || lambda <= 0.0 {
      return Err(NonPositiveRates);
    }
    var rho := lambda / mu;
    DivPositive(lambda, mu);
    var p0 := EmptyProbability(rho, k);
    var pn := BuildDistribution(rho, p0, k + 1);
    return Ok(Summary(lambda, rho, p0, pn, k, waitingCost, serviceCost));
  }

  /** The loop that appends P0 ρ^n for n = 0 .. m-1. */
  method BuildDistribution(rho: real, p0: real, m: nat) returns (pn: seq<real>)
    ensures pn == Distribution(rho, p0, m)
  {
    pn := [];
    var n := 0;
    while n < m
      invariant 0 <= n <= m
      invariant |pn| == n
      invariant forall i :: 0 <= i < n ==> pn[i] == StateProbability(rho, p0, i)
    {
      pn := pn + [p0 * Pow(rho, n)];
      n := n + 1;
    }
  }

  /** P_block = P(K) lies in (0, 1], so 0 <= λ_eff < λ. */
  lemma {:induction false} Blocking(lambda: real, mu: real, k: nat, waitingCost: real, serviceCost: real)
    requires lambda > 0.0 && mu > 0.0
    ensures var m := MetricsOf(lambda, mu, k, waitingCost, serviceCost);
      && m.pBlock == m.pn[k]
      && 0.0 < m.pBlock <= 1.0
      && m.lambdaEff == lambda * (1.0 - m.pBlock)
      && 0.0 <= m.lambdaEff < lambda
  {
    var m := MetricsOf(lambda, mu, k, waitingCost, serviceCost);
    DivPositive(lambda, mu);
    DistributionSumsToOne(m.rho, k);
    DistributionPositive(m.rho, k);
    ElementAtMostSum(m.pn, k);
    RateBounds(lambda, m.pBlock);
  }

  lemma {:induction false} RateBounds(lambda: real, pBlock: real)
    requires lambda > 0.0 && 0.0 < pBlock <= 1.0
    ensures 0.0 <= lambda * (1.0 - pBlock) < lambda
  {
    MulNonNegative(lambda, 1.0 - pBlock);
    MulPositive(lambda, pBlock);
  }

  /** The reported distribution has K + 1 positive entries summing to 1, and
      the reported L is its mean. */
  lemma {:induction false} ReportedDistribution(lambda: real, mu: real, k: nat, waitingCost: real, serviceCost: real)
    requires lambda > 0.0 && mu > 0.0
    ensures var m := MetricsOf(lambda, mu, k, waitingCost, serviceCost);
      && |m.pn| == k + 1
      && (forall n :: 0 <= n <= k ==> m.pn[n] == StateProbability(m.rho, m.p0, n) && m.pn[n] > 0.0)
      && Sum(m.pn) == 1.0
      && m.l == Moment(m.pn)
  {
    var m := MetricsOf(lambda, mu, k, waitingCost, serviceCost);
    DivPositive(lambda, mu);
    DistributionSumsToOne(m.rho, k);
    DistributionPositive(m.rho, k);
    MeanNumberIsMoment(m.rho, k);
  }

  /** Lq = L - (1 - P0) is Σ (n-1) P(n) over n >= 1, and so nonnegative. */
  lemma {:induction false} QueueLength(lambda: real, mu: real, k: nat, waitingCost: real, serviceCost: real)
    requires lambda > 0.0 && mu > 0.0
    ensures var m := MetricsOf(lambda, mu, k, waitingCost, serviceCost);
      && m.lq == Excess(m.pn, 1)
      && m.lq >= 0.0
  {
    var m := MetricsOf(lambda, mu, k, waitingCost, serviceCost);
    DivPositive(lambda, mu);
    QueueLengthIsExcess(m.rho, k);
  }

  /** Little's law with the effective arrival rate, and W = Wq = 0 when
      nothing gets in: it holds for the summary of every distribution, so
      for every record the evaluator returns. */
  lemma {:induction false} LittleLaw(lambda: real, rho: real, p0: real, pn: seq<real>, k: nat,
                                    waitingCost: real, serviceCost: real)
    requires rho > 0.0 && |pn| == k + 1
    ensures var m := Summary(lambda, rho, p0, pn, k, waitingCost, serviceCost);
      && (m.lambdaEff > 0.0 ==> m.lambdaEff * m.w == m.l && m.lambdaEff * m.wq == m.lq)
      && (m.lambdaEff <= 0.0 ==> m.w == 0.0 && m.wq == 0.0)
  {
    var m := Summary(lambda, rho, p0, pn, k, waitingCost, serviceCost);
    GuardedQuotient(m.l, m.lambdaEff);
    GuardedQuotient(m.lq, m.lambdaEff);
  }

  /** Σ P(n) = 1 for every ρ > 0, including ρ = 1. */
  lemma {:induction false} DistributionSumsToOne(rho: real, k: nat)
    requires rho > 0.0
    ensures Sum(Distribution(rho, EmptyProbability(rho, k), k + 1)) == 1.0
  {
    var p0 := EmptyProbability(rho, k);
    GeometricSequenceSum(Distribution(rho, p0, k + 1), p0, rho);
  }

  /** Every P(n) is positive. */
  lemma {:induction false} DistributionPositive(rho: real, k: nat)
    requires rho > 0.0
    ensures var s := Distribution(rho, EmptyProbability(rho, k), k + 1);
      AllNonNegative(s) && forall n :: 0 <= n < |s| ==> s[n] > 0.0
  {
    var p0 := EmptyProbability(rho, k);
    var s := Distribution(rho, p0, k + 1);
    forall n | 0 <= n < |s|
      ensures s[n] > 0.0
    {
      PowPositive(rho, n);
      MulPositive(p0, Pow(rho, n));
    }
  }

  lemma {:induction false} MeanAlgebra(rho: real, g: real, w: real, q: real, kk: real, p0: real, l: real)
    requires rho != 1.0 && q != 1.0
    requires (1.0 - rho) * g == 1.0 - q
    requires (1.0 - rho) * w == g - 1.0 - kk * q
    requires p0 == (1.0 - rho) / (1.0 - q)
    requires l == rho / (1.0 - rho) - ((kk + 1.0) * q) / (1.0 - q)
    ensures p0 * w == l
  {
    var d := 1.0 - rho;
    var e := 1.0 - q;
    DivMul(d, e, w);
    assert g == e / d by { DivEq(e, g, d); }
    assert (g - 1.0 - kk * q) / e == 1.0 / d - (1.0 + kk * q) / e;
    assert rho / d == 1.0 / d - 1.0;
    assert 1.0 + ((kk + 1.0) * q) / e == (1.0 + kk * q) / e;
  }

  /** L = Σ n P(n): the closed form and K/2 at ρ = 1 are both the mean of the
      distribution. */
  lemma {:induction false} MeanNumberIsMoment(rho: real, k: nat)
    requires rho > 0.0
    ensures Moment(Distribution(rho, EmptyProbability(rho, k), k + 1)) == MeanNumber(rho, k)
  {
    DistributionMoment(rho, EmptyProbability(rho, k), k + 1);
    WeightedMean(rho, k);
  }

  lemma {:induction false} DistributionMoment(rho: real, p0: real, m: nat)
    ensures Moment(Distribution(rho, p0, m)) == p0 * WeightedGeomSum(rho, m)
  {
    GeometricSequenceMoment(Distribution(rho, p0, m), p0, rho);
  }

  lemma {:induction false} WeightedMean(rho: real, k: nat)
    requires rho > 0.0
    ensures EmptyProbability(rho, k) * WeightedGeomSum(rho, k + 1) == MeanNumber(rho, k)
  {
    if rho == 1.0 {
      WeightedMeanAtOne(k);
    } else {
      WeightedMeanAwayFromOne(rho, k);
    }
  }

  lemma {:induction false} WeightedMeanAtOne(k: nat)
    ensures EmptyProbability(1.0, k) * WeightedGeomSum(1.0, k + 1) == MeanNumber(1.0, k)
  {
    WeightedGeomSumAtOne(k + 1);
    MeanAtOne(k as real, WeightedGeomSum(1.0, k + 1));
  }

  lemma {:induction false} WeightedMeanAwayFromOne(rho: real, k: nat)
    requires rho > 0.0 && rho != 1.0
    ensures EmptyProbability(rho, k) * WeightedGeomSum(rho, k + 1) == MeanNumber(rho, k)
  {
    var q := Pow(rho, k + 1);
    var kk := k as real;
    var g := GeomSum(rho, k + 1);
    var w := WeightedGeomSum(rho, k + 1);
    var p0 := EmptyProbability(rho, k);
    var l := MeanNumber(rho, k);
    PowSameSide(rho, k + 1);
    assert p0 == (1.0 - rho) / (1.0 - q);
    assert l == rho / (1.0 - rho) - ((kk + 1.0) * q) / (1.0 - q);
    ClosedForms(rho, k);
    MeanAlgebra(rho, g, w, q, kk, p0, l);
  }

  lemma {:induction false} MeanAtOne(kk: real, w: real)
    requires kk >= 0.0 && 2.0 * w == (kk + 1.0) * (kk + 1.0 - 1.0)
    ensures (1.0 / (kk + 1.0)) * w == kk / 2.0
  {
    DivMul(1.0, kk + 1.0, w);
    DivEq(w, kk / 2.0, kk + 1.0);
  }

  /** Lq = L - (1 - P0) = Σ (n-1) P(n) over n >= 1, hence nonnegative. */
  lemma {:induction false} QueueLengthIsExcess(rho: real, k: nat)
    requires rho > 0.0
    ensures var s := Distribution(rho, EmptyProbability(rho, k), k + 1);
      && MeanNumber(rho, k) - (1.0 - s[0]) == Excess(s, 1)
      && Excess(s, 1) >= 0.0
  {
    var s := Distribution(rho, EmptyProbability(rho, k), k + 1);
    DistributionSumsToOne(rho, k);
    DistributionPositive(rho, k);
    MeanNumberIsMoment(rho, k);
    MomentSplits(s, 1);
    BusyOneServer(s);
    ExcessNonNegative(s, 1);
  }
}
