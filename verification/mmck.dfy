/** The M/M/s/K evaluator: Poisson arrivals at rate λ, s exponential servers
    at rate μ each, and room for at most K customers in the system. The state
    probabilities have the M/M/c shape (Poisson-like below s, geometric from s
    on), truncated at K. */
module MMCK {
  import opened Numeric
  import opened Outcome
  import MMC
  import MM1K

  datatype Metrics = Metrics(
    rho: real,          // per-server utilisation λ/(sμ)
    p0: real,           // probability of an empty system
    pBlock: real,       // P(N = K): an arrival finds the system full
    lambdaEff: real,    // arrival rate of the customers that get in
    lq: real,           // mean number waiting
    wq: real,           // mean time waiting
    l: real,            // mean number in the system
    w: real,            // mean time in the system
    serviceTime: real,  // 1/μ
    busy: real,         // mean number of busy servers
    cost: real,         // waiting cost * L + service cost * s
    pn: seq<real>       // P(N = n) for n = 0 .. K
  )

  /** The normalising sum whose reciprocal is P0: the Erlang part for n < s,
      plus a^s/s! times the geometric tail (1 - ρ^(K-s+1))/(1 - ρ). At ρ = 1
      the tail is the bare count K - s + 1, without the factor a^s/s!. */
  function NormalisingSum(a: real, rho: real, s: nat, k: nat): real
    requires rho > 0.0
  {
    MMC.ErlangSum(a, s)
    + (if rho != 1.0 then MMC.PoissonTerm(a, s) * ((1.0 - IPow(rho, k - s + 1)) / (1.0 - rho))
       else (k - s + 1) as real)
  }

  function EmptyProbability(a: real, rho: real, s: nat, k: nat): real
    requires rho > 0.0 && NormalisingSum(a, rho, s, k) != 0.0
  {
    1.0 / NormalisingSum(a, rho, s, k)
  }

  /** The closed-form mean queue length, and 0 when ρ = 1. */
  function QueueLength(a: real, rho: real, s: nat, k: nat, p0: real): real
    requires rho > 0.0
  {
    if rho != 1.0 then
      SquareGapPositive(Fact(s) as real, rho);
      (p0 * Pow(a, s) * rho * (1.0 - IPow(rho, k - s) * ((k - s + 1) as real - (k - s) as real * rho)))
        / ((Fact(s) as real) * Square(1.0 - rho))
    else 0.0
  }

  lemma {:induction false} SquareGapPositive(f: real, rho: real)
    requires f >= 1.0 && rho != 1.0
    ensures f * Square(1.0 - rho) > 0.0
  {
    SquarePositive(1.0 - rho);
    MulPositive(f, Square(1.0 - rho));
  }

  /** P(N = n) for n = 0 .. m-1. */
  function Distribution(a: real, s: nat, p0: real, m: nat): (r: seq<real>)
    requires s >= 1
    ensures |r| == m
  {
    seq(m, n requires 0 <= n < m => MMC.StateProbability(a, s, p0, n))
  }

  /** Whether P0 is defined. With K >= s the normalising sum exceeds 1
      (CapacityCoversServers); with K < s the exponent K - s + 1 is not
      positive, the tail term is negative or zero and the sum can vanish,
      which makes the evaluator divide by zero. */
  predicate Admissible(lambda: real, mu: real, s: nat, k: nat)
    requires lambda > 0.0 && mu > 0.0 && s >= 1
  {
    s <= k || (RatePositive(lambda, mu, s);
               NormalisingSum(lambda / mu, lambda / ((s as real) * mu), s, k) != 0.0)
  }

  lemma {:induction false} AdmissibleSum(lambda: real, mu: real, s: nat, k: nat)
    requires lambda > 0.0 && mu > 0.0 && s >= 1 && Admissible(lambda, mu, s, k)
    ensures (RatePositive(lambda, mu, s);
             NormalisingSum(lambda / mu, lambda / ((s as real) * mu), s, k) != 0.0)
  {
    if s <= k {
      CapacityCoversServers(lambda, mu, s, k);
    }
  }

  lemma {:induction false} RatePositive(lambda: real, mu: real, s: nat)
    requires lambda > 0.0 && mu > 0.0 && s >= 1
    ensures (s as real) * mu > 0.0
    ensures lambda / mu > 0.0 && lambda / ((s as real) * mu) > 0.0
    ensures lambda / ((s as real) * mu) == (lambda / mu) / (s as real)
    ensures (s as real) * (lambda / ((s as real) * mu)) == lambda / mu
  {
    MulPositive(s as real, mu);
    DivPositive(lambda, mu);
    DivPositive(lambda, (s as real) * mu);
  }

  /** The metrics of a valid, admissible input: the specification the
      evaluator is proved against. */
  function MetricsOf(lambda: real, mu: real, s: nat, k: nat, waitingCost: real, serviceCost: real): Metrics
    requires lambda > 0.0 && mu > 0.0 && s >= 1 && Admissible(lambda, mu, s, k)
  {
    RatePositive(lambda, mu, s);
    AdmissibleSum(lambda, mu, s, k);
    var a := lambda / mu;
    var rho := lambda / ((s as real) * mu);
    var p0 := EmptyProbability(a, rho, s, k);
    Summary(lambda, mu, a, rho, p0, Distribution(a, s, p0, k + 1), s, k, waitingCost, serviceCost)
  }

  /** Everything computed from the distribution pn = P(0..K). */
  function Summary(lambda: real, mu: real, a: real, rho: real, p0: real, pn: seq<real>, s: nat, k: nat,
                   waitingCost: real, serviceCost: real): (m: Metrics)
    requires lambda > 0.0 && mu != 0.0 && rho > 0.0 && |pn| == k + 1
    ensures 0.0 < pn[k] ==> 0.0 < m.pBlock && m.lambdaEff < lambda
    ensures pn[k] < 1.0 ==> m.pBlock < 1.0 && 0.0 < m.lambdaEff
  {
    RateKept(lambda, pn[k]);
    var pBlock := pn[k];
    var lambdaEff := lambda * (1.0 - pBlock);
    var lq := QueueLength(a, rho, s, k, p0);
    var l := Moment(pn);
    Metrics(rho, p0, pBlock, lambdaEff, lq, DivUnlessZero(lq, lambdaEff), l, DivUnlessZero(l, lambdaEff),
            1.0 / mu, Busy(pn, s), waitingCost * l + serviceCost * (s as real), pn)
  }

  /** The M/M/s/K evaluator. Every one of λ, μ, s and K must be positive; the
      state probabilities are built one by one for n = 0 .. K. */
  method QueueMetrics(lambda: real, mu: real, s: int, k: int, waitingCost: real, serviceCost: real)
    returns (r: Result<Metrics>)
    requires lambda > 0.0 && mu > 0.0 && s > 0 && k > 0 ==> Admissible(lambda, mu, s, k)
    ensures r.Err? <==> mu <= 0.0 || lambda <= 0.0 || s <= 0 || k <= 0
    ensures r.Err? ==> r.error == NonPositiveParameters
    ensures r.Ok? ==> r.value == MetricsOf(lambda, mu, s, k, waitingCost, serviceCost)
  {
    if mu <= 0.0 || lambda <= 0.0 || s <= 0 || k <= 0 {
      return Err(NonPositiveParameters);
    }
    RatePositive(lambda, mu, s);
    AdmissibleSum(lambda, mu, s, k);
    var rho := lambda / ((s as real) * mu);
    var a := lambda / mu;
    var p0 := EmptyProbability(a, rho, s, k);
    var pn := BuildDistribution(a, s, p0, k + 1);
    return Ok(Summary(lambda, mu, a, rho, p0, pn, s, k, waitingCost, serviceCost));
  }

  /** Appends P(n) for n = 0 .. m-1, choosing the branch by n < s. */
  method BuildDistribution(a: real, s: nat, p0: real, m: nat) returns (pn: seq<real>)
    requires s >= 1
    ensures pn == Distribution(a, s, p0, m)
  {
    pn := [];
    var n := 0;
    while n < m
      invariant 0 <= n <= m && |pn| == n
      invariant forall i :: 0 <= i < n ==> pn[i] == MMC.StateProbability(a, s, p0, i)
    {
      var p;
      if n < s {
        p := MMC.PoissonTerm(a, n) * p0;
      } else {
        p := MMC.QueuedTerm(a, s, n) * p0;
      }
      pn := pn + [p];
      n := n + 1;
    }
  }

  // ---------------------------------------------------------------------
  // The distribution as a series
  // ---------------------------------------------------------------------

  lemma {:induction false} DistributionStep(a: real, s: nat, p0: real, m: nat)
    requires s >= 1 && m >= 1
    ensures Distribution(a, s, p0, m)[..m - 1] == Distribution(a, s, p0, m - 1)
    ensures Distribution(a, s, p0, m)[m - 1] == MMC.StateProbability(a, s, p0, m - 1)
  {
  }

  /** Below s servers the probabilities add up to P0 times the Erlang sum. */
  lemma {:induction false} HeadSum(a: real, s: nat, p0: real, n: nat)
    requires 1 <= s && n <= s
    ensures Sum(Distribution(a, s, p0, n)) == MMC.ErlangSum(a, n) * p0
  {
    if n > 0 {
      DistributionStep(a, s, p0, n);
      HeadSum(a, s, p0, n - 1);
    }
  }

  /** From state s on the weights are a^s/s! times powers of ρ = a/s. */
  lemma {:induction false} QueuedTermGeometric(a: real, s: nat, rho: real, j: nat)
    requires s >= 1 && (s as real) * rho == a
    ensures MMC.QueuedTerm(a, s, s + j) == MMC.PoissonTerm(a, s) * Pow(rho, j)
  {
    PowPositive(s as real, j);
    DivisorShift(s, j);
    PowSplit(a, s, rho, j);
    WeightRatio(Pow(a, s + j), Pow(a, s), MMC.QueueDivisor(s, s + j), Fact(s) as real, Pow(s as real, j), Pow(rho, j));
  }

  /** p/d = (x/f) r when p = x (t r) and d = f t. */
  lemma {:induction false} WeightRatio(p: real, x: real, d: real, f: real, t: real, r: real)
    requires f > 0.0 && t > 0.0 && p == x * (t * r) && d == f * t
    ensures p / d == (x / f) * r
  {
    CancelCommon(x, f, t, r);
  }

  /** The divisor of state s + j is s! s^j. */
  lemma {:induction false} DivisorShift(s: nat, j: nat)
    requires s >= 1
    ensures MMC.QueueDivisor(s, s + j) == (Fact(s) as real) * Pow(s as real, j)
  {
    assert (s + j) - s == j;
  }

  lemma {:induction false} PowSplit(a: real, s: nat, rho: real, j: nat)
    requires (s as real) * rho == a
    ensures Pow(a, s + j) == Pow(a, s) * (Pow(s as real, j) * Pow(rho, j))
  {
    PowAdd(a, s, j);
    PowProduct(s as real, rho, j);
  }

  lemma {:induction false} CancelCommon(x: real, f: real, t: real, r: real)
    requires f > 0.0 && t > 0.0
    ensures (x * (t * r)) / (f * t) == (x / f) * r
  {
    DivTimes(x, f, t * r, t);
    assert (t * r) / t == r;
  }

  /** State s + j has probability P0 a^s/s! ρ^j. */
  lemma {:induction false} TailTerm(a: real, s: nat, rho: real, p0: real, j: nat)
    requires s >= 1 && (s as real) * rho == a
    ensures MMC.StateProbability(a, s, p0, s + j) == (MMC.PoissonTerm(a, s) * p0) * Pow(rho, j)
  {
    QueuedTermGeometric(a, s, rho, j);
  }

  /** From state s on, the distribution is geometric with ratio ρ. */
  lemma {:induction false} TailIsGeometric(a: real, s: nat, rho: real, p0: real, m: nat)
    requires 1 <= s <= m && (s as real) * rho == a
    ensures Geometric(Distribution(a, s, p0, m)[s..], MMC.PoissonTerm(a, s) * p0, rho)
  {
    var t := Distribution(a, s, p0, m)[s..];
    forall i | 0 <= i < |t|
      ensures t[i] == (MMC.PoissonTerm(a, s) * p0) * Pow(rho, i)
    {
      TailTerm(a, s, rho, p0, i);
    }
  }

  /** Σ P(n) over n < m (m >= s) is P0 (Erlang sum + a^s/s! (1 + ρ + ... + ρ^(m-s-1))). */
  lemma {:induction false} DistributionSum(a: real, s: nat, rho: real, p0: real, m: nat)
    requires 1 <= s <= m && (s as real) * rho == a
    ensures Sum(Distribution(a, s, p0, m))
            == MMC.ErlangSum(a, s) * p0 + (MMC.PoissonTerm(a, s) * p0) * GeomSum(rho, m - s)
  {
    var d := Distribution(a, s, p0, m);
    var e := MMC.ErlangSum(a, s) * p0;
    var c := MMC.PoissonTerm(a, s) * p0;
    HeadPrefix(a, s, p0, m);
    TailIsGeometric(a, s, rho, p0, m);
    HeadAndGeometricTail(d, s, m - s, e, c, rho);
  }

  lemma {:induction false} HeadPrefix(a: real, s: nat, p0: real, m: nat)
    requires 1 <= s <= m
    ensures Sum(Distribution(a, s, p0, m)[..s]) == MMC.ErlangSum(a, s) * p0
  {
    assert Distribution(a, s, p0, m)[..s] == Distribution(a, s, p0, s);
    HeadSum(a, s, p0, s);
  }

  /** Σ (n - s) P(n) over s <= n < m is P0 a^s/s! Σ j ρ^j. */
  lemma {:induction false} DistributionExcess(a: real, s: nat, rho: real, p0: real, m: nat)
    requires 1 <= s <= m && (s as real) * rho == a
    ensures Excess(Distribution(a, s, p0, m), s)
            == (MMC.PoissonTerm(a, s) * p0) * WeightedGeomSum(rho, m - s)
  {
    var d := Distribution(a, s, p0, m);
    ExcessIsShiftedMoment(d, s);
    TailIsGeometric(a, s, rho, p0, m);
    GeometricSequenceMoment(d[s..], MMC.PoissonTerm(a, s) * p0, rho);
  }

  // ---------------------------------------------------------------------
  // The normalising sum
  // ---------------------------------------------------------------------

  /** (1 - ρ^j)/(1 - ρ) is the geometric series 1 + ρ + ... + ρ^(j-1). */
  lemma {:induction false} TailFactor(rho: real, j: nat)
    requires rho > 0.0 && rho != 1.0
    ensures (1.0 - IPow(rho, j)) / (1.0 - rho) == GeomSum(rho, j)
  {
    GeomSumClosed(rho, j);
    DivEq(1.0 - Pow(rho, j), GeomSum(rho, j), 1.0 - rho);
  }

  /** With K >= s the normalising sum is the Erlang sum plus a^s/s! times
      K - s + 1 geometric terms, or plus the bare count K - s + 1 at ρ = 1. */
  lemma {:induction false} NormalisingSumSeries(a: real, rho: real, s: nat, k: nat)
    requires rho > 0.0 && s <= k
    ensures NormalisingSum(a, rho, s, k)
            == MMC.ErlangSum(a, s)
               + (if rho != 1.0 then MMC.PoissonTerm(a, s) * GeomSum(rho, k - s + 1)
                  else (k - s + 1) as real)
  {
    if rho != 1.0 {
      TailFactor(rho, k - s + 1);
    }
  }

  /** With K >= s the normalising sum is at least 1, so P0 is defined and in (0, 1]. */
  lemma {:induction false} NormalisingSumAtLeastOne(a: real, rho: real, s: nat, k: nat)
    requires a > 0.0 && rho > 0.0 && 1 <= s <= k
    ensures NormalisingSum(a, rho, s, k) > 1.0
  {
    NormalisingSumSeries(a, rho, s, k);
    MMC.ErlangSumAtLeastOne(a, s);
    if rho != 1.0 {
      MMC.PoissonTermPositive(a, s);
      GeomSumAtLeastOne(rho, k - s + 1);
      MulPositive(MMC.PoissonTerm(a, s), GeomSum(rho, k - s + 1));
    }
  }

  /** With K >= s the normalising sum exceeds 1, so P0 lies in (0, 1). */
  lemma {:induction false} CapacityCoversServers(lambda: real, mu: real, s: nat, k: nat)
    requires lambda > 0.0 && mu > 0.0 && 1 <= s <= k
    ensures (RatePositive(lambda, mu, s);
             NormalisingSum(lambda / mu, lambda / ((s as real) * mu), s, k) > 1.0)
    ensures (RatePositive(lambda, mu, s);
             0.0 < EmptyProbability(lambda / mu, lambda / ((s as real) * mu), s, k) < 1.0)
  {
    RatePositive(lambda, mu, s);
    var a, rho := lambda / mu, lambda / ((s as real) * mu);
    NormalisingSumAtLeastOne(a, rho, s, k);
    DivPositive(1.0, NormalisingSum(a, rho, s, k));
    DivLessThanOne(1.0, NormalisingSum(a, rho, s, k));
  }

  // ---------------------------------------------------------------------
  // Properties of the metrics
  // ---------------------------------------------------------------------

  lemma {:induction false} NormaliseAlgebra(e: real, t: real, g: real, ns: real, p0: real)
    requires ns == e + t * g && ns != 0.0 && p0 == 1.0 / ns
    ensures e * p0 + (t * p0) * g == 1.0
  {
    assert e * p0 + (t * p0) * g == ns * p0;
  }

  /** Away from ρ = 1 and with K >= s the K + 1 state probabilities add up to 1. */
  lemma {:induction false} Normalisation(lambda: real, mu: real, s: nat, k: nat, waitingCost: real, serviceCost: real)
    requires lambda > 0.0 && mu > 0.0 && 1 <= s <= k && lambda != (s as real) * mu
    ensures Sum(MetricsOf(lambda, mu, s, k, waitingCost, serviceCost).pn) == 1.0
  {
    CapacityCoversServers(lambda, mu, s, k);
    RatePositive(lambda, mu, s);
    var a, rho := lambda / mu, lambda / ((s as real) * mu);
    RateNotOne(lambda, mu, s);
    DistributionNormalised(a, rho, s, k);
  }

  lemma {:induction false} RateNotOne(lambda: real, mu: real, s: nat)
    requires lambda > 0.0 && mu > 0.0 && s >= 1 && lambda != (s as real) * mu
    ensures lambda / ((s as real) * mu) != 1.0
  {
    RatePositive(lambda, mu, s);
    if lambda / ((s as real) * mu) == 1.0 {
      DivCancel(lambda, (s as real) * mu);
    }
  }

  lemma {:induction false} DistributionNormalised(a: real, rho: real, s: nat, k: nat)
    requires a > 0.0 && rho > 0.0 && rho != 1.0 && 1 <= s <= k && (s as real) * rho == a
    ensures (NormalisingSumAtLeastOne(a, rho, s, k);
             Sum(Distribution(a, s, EmptyProbability(a, rho, s, k), k + 1)) == 1.0)
  {
    NormalisingSumAtLeastOne(a, rho, s, k);
    var p0 := EmptyProbability(a, rho, s, k);
    var e, t, g, ns := MMC.ErlangSum(a, s), MMC.PoissonTerm(a, s), GeomSum(rho, k - s + 1), NormalisingSum(a, rho, s, k);
    DistributionSum(a, s, rho, p0, k + 1);
    assert GeomSum(rho, k + 1 - s) == g by {
      assert k + 1 - s == k - s + 1;
    }
    NormalisingSumSeries(a, rho, s, k);
    NormaliseAlgebra(e, t, g, ns, p0);
  }

  lemma {:induction false} QueueLengthAlgebra(p0: real, pa: real, x: real, t: real, f: real, sq: real, w: real)
    requires f > 0.0 && f * sq > 0.0 && sq * w == x * t
    ensures (p0 * pa * x * t) / (f * sq) == ((pa / f) * p0) * w
  {
    DivCancel(pa, f);
    assert ((pa / f) * p0) * w * (f * sq) == ((pa / f) * f) * p0 * (sq * w);
    DivEq(p0 * pa * x * t, ((pa / f) * p0) * w, f * sq);
  }

  /** Away from ρ = 1 and with K >= s, the closed form for Lq is P0 a^s/s!
      times Σ j ρ^j over j = 0 .. K - s. */
  lemma {:induction false} QueueLengthSeries(a: real, rho: real, s: nat, k: nat, p0: real)
    requires rho > 0.0 && rho != 1.0 && s <= k
    ensures QueueLength(a, rho, s, k, p0) == (MMC.PoissonTerm(a, s) * p0) * WeightedGeomSum(rho, k - s + 1)
  {
    var f, pa, sq, w := Fact(s) as real, Pow(a, s), Square(1.0 - rho), WeightedGeomSum(rho, k - s + 1);
    var t := 1.0 - IPow(rho, k - s) * ((k - s + 1) as real - (k - s) as real * rho);
    QueueFactor(rho, s, k);
    SquareGapPositive(f, rho);
    QueueLengthAlgebra(p0, pa, rho, t, f, sq, w);
  }

  /** (1 - ρ)^2 Σ_{j<=K-s} j ρ^j is ρ times the bracket of the Lq formula. */
  lemma {:induction false} QueueFactor(rho: real, s: nat, k: nat)
    requires rho > 0.0 && s <= k
    ensures Square(1.0 - rho) * WeightedGeomSum(rho, k - s + 1)
            == rho * (1.0 - IPow(rho, k - s) * ((k - s + 1) as real - (k - s) as real * rho))
  {
    var m: nat := k - s;
    assert IPow(rho, k - s) == Pow(rho, m);
    assert (k - s + 1) as real == m as real + 1.0;
    WeightedGeomSumSquared(rho, m);
  }

  /** With a > 0 and P0 > 0 every state probability is positive. */
  lemma {:induction false} DistributionPositive(a: real, s: nat, p0: real, m: nat)
    requires a > 0.0 && p0 > 0.0 && s >= 1
    ensures forall n :: 0 <= n < m ==> Distribution(a, s, p0, m)[n] > 0.0
    ensures AllNonNegative(Distribution(a, s, p0, m))
  {
    forall n | 0 <= n < m
      ensures Distribution(a, s, p0, m)[n] > 0.0
    {
      MMC.StateProbabilityPositive(a, s, p0, n);
    }
  }

  /** Away from ρ = 1 and with K >= s, the closed form for Lq is the mean of
      max(n - s, 0) over the distribution, whatever P0 is. */
  lemma {:induction false} ClosedFormIsExcess(a: real, rho: real, s: nat, k: nat, p0: real)
    requires rho > 0.0 && rho != 1.0 && 1 <= s <= k && (s as real) * rho == a
    ensures QueueLength(a, rho, s, k, p0) == Excess(Distribution(a, s, p0, k + 1), s)
  {
    QueueLengthSeries(a, rho, s, k, p0);
    DistributionExcess(a, s, rho, p0, k + 1);
  }

  /** Lq is the mean of max(n - s, 0), and L splits into Lq plus the mean
      number of busy servers (for ρ != 1 and K >= s). */
  lemma {:induction false} QueueLengthIsExcess(lambda: real, mu: real, s: nat, k: nat, waitingCost: real, serviceCost: real)
    requires lambda > 0.0 && mu > 0.0 && 1 <= s <= k && lambda != (s as real) * mu
    ensures var m := MetricsOf(lambda, mu, s, k, waitingCost, serviceCost);
      m.lq == Excess(m.pn, s) && m.l == m.lq + m.busy
  {
    CapacityCoversServers(lambda, mu, s, k);
    RatePositive(lambda, mu, s);
    var a, rho := lambda / mu, lambda / ((s as real) * mu);
    RateNotOne(lambda, mu, s);
    var p0 := EmptyProbability(a, rho, s, k);
    ClosedFormIsExcess(a, rho, s, k, p0);
    MomentSplits(Distribution(a, s, p0, k + 1), s);
  }

  /** At ρ = 1 the reported Lq is 0, although with K > s customers do wait:
      the mean of max(n - s, 0) over the reported distribution is positive. */
  lemma {:induction false} QueueLengthAtOne(lambda: real, mu: real, s: nat, k: nat, waitingCost: real, serviceCost: real)
    requires lambda > 0.0 && mu > 0.0 && 1 <= s < k && lambda == (s as real) * mu
    ensures var m := MetricsOf(lambda, mu, s, k, waitingCost, serviceCost);
      m.lq == 0.0 && Excess(m.pn, s) > 0.0
  {
    CapacityCoversServers(lambda, mu, s, k);
    RatePositive(lambda, mu, s);
    var a, rho := lambda / mu, lambda / ((s as real) * mu);
    DivEq(lambda, 1.0, (s as real) * mu);
    var p0 := EmptyProbability(a, rho, s, k);
    DistributionExcess(a, s, rho, p0, k + 1);
    var n: nat := k + 1 - s;
    WeightedGeomSumAtOne(n);
    assert WeightedGeomSum(1.0, n) > 0.0 by {
      MulPositive(n as real, n as real - 1.0);
    }
    MMC.PoissonTermPositive(a, s);
    MulPositive(MMC.PoissonTerm(a, s), p0);
    MulPositive(MMC.PoissonTerm(a, s) * p0, WeightedGeomSum(1.0, n));
  }

  /** Blocking: with K >= s, P(N = K) > 0 and λ_eff < λ; away from ρ = 1 also
      P(N = K) < 1 and λ_eff > 0. */
  lemma {:induction false} Blocking(lambda: real, mu: real, s: nat, k: nat, waitingCost: real, serviceCost: real)
    requires lambda > 0.0 && mu > 0.0 && 1 <= s <= k
    ensures 0.0 < MetricsOf(lambda, mu, s, k, waitingCost, serviceCost).pBlock
    ensures MetricsOf(lambda, mu, s, k, waitingCost, serviceCost).lambdaEff < lambda
    ensures lambda != (s as real) * mu ==> MetricsOf(lambda, mu, s, k, waitingCost, serviceCost).pBlock < 1.0
    ensures lambda != (s as real) * mu ==> 0.0 < MetricsOf(lambda, mu, s, k, waitingCost, serviceCost).lambdaEff
  {
    CapacityCoversServers(lambda, mu, s, k);
    RatePositive(lambda, mu, s);
    var a, rho := lambda / mu, lambda / ((s as real) * mu);
    var p0 := EmptyProbability(a, rho, s, k);
    var pn := Distribution(a, s, p0, k + 1);
    DistributionPositive(a, s, p0, k + 1);
    if lambda != (s as real) * mu {
      RateNotOne(lambda, mu, s);
      DistributionNormalised(a, rho, s, k);
      LastBelowSum(pn);
    }
  }

  /** λ(1 - p) lies in (0, λ) exactly when p lies in (0, 1). */
  lemma {:induction false} RateKept(lambda: real, p: real)
    requires lambda > 0.0
    ensures 0.0 < p <==> lambda * (1.0 - p) < lambda
    ensures p < 1.0 <==> 0.0 < lambda * (1.0 - p)
  {
    if 0.0 < p {
      MulPositive(lambda, p);
    }
    if p < 1.0 {
      MulPositive(lambda, 1.0 - p);
    }
  }

  /** The mean number of busy servers is between 0 and L, and at most s when
      the distribution is normalised. */
  lemma {:induction false} BusyServers(lambda: real, mu: real, s: nat, k: nat, waitingCost: real, serviceCost: real)
    requires lambda > 0.0 && mu > 0.0 && 1 <= s <= k
    ensures var m := MetricsOf(lambda, mu, s, k, waitingCost, serviceCost);
      && 0.0 <= m.busy <= m.l
      && (lambda != (s as real) * mu ==> m.busy <= s as real)
  {
    CapacityCoversServers(lambda, mu, s, k);
    RatePositive(lambda, mu, s);
    var a, rho := lambda / mu, lambda / ((s as real) * mu);
    var p0 := EmptyProbability(a, rho, s, k);
    var pn := Distribution(a, s, p0, k + 1);
    DistributionPositive(a, s, p0, k + 1);
    BusyNonNegative(pn, s);
    ExcessNonNegative(pn, s);
    MomentSplits(pn, s);
    BusyBound(pn, s);
    if lambda != (s as real) * mu {
      RateNotOne(lambda, mu, s);
      DistributionNormalised(a, rho, s, k);
    }
  }

  /** Little's law with the evaluator's guard: λ_eff W = L and λ_eff Wq = Lq
      whenever λ_eff != 0, and W = Wq = 0 otherwise. */
  lemma {:induction false} LittleLaw(lambda: real, mu: real, s: nat, k: nat, waitingCost: real, serviceCost: real)
    requires lambda > 0.0 && mu > 0.0 && s >= 1 && Admissible(lambda, mu, s, k)
    ensures var m := MetricsOf(lambda, mu, s, k, waitingCost, serviceCost);
      && (m.lambdaEff != 0.0 ==> m.lambdaEff * m.w == m.l && m.lambdaEff * m.wq == m.lq)
      && (m.lambdaEff == 0.0 ==> m.w == 0.0 && m.wq == 0.0)
  {
    var m := MetricsOf(lambda, mu, s, k, waitingCost, serviceCost);
    GuardedLittleLaw(m);
  }

  /** Little's law for any record whose times are the zero-guarded
      quotients of its counts by its effective rate. */
  lemma {:induction false} GuardedLittleLaw(m: Metrics)
    requires m.w == DivUnlessZero(m.l, m.lambdaEff) && m.wq == DivUnlessZero(m.lq, m.lambdaEff)
    ensures m.lambdaEff != 0.0 ==> m.lambdaEff * m.w == m.l && m.lambdaEff * m.wq == m.lq
    ensures m.lambdaEff == 0.0 ==> m.w == 0.0 && m.wq == 0.0
  {
    UnlessZeroQuotient(m.l, m.lambdaEff);
    UnlessZeroQuotient(m.lq, m.lambdaEff);
  }
}
