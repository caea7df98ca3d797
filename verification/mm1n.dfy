/** The M/M/1/N evaluator: one exponential server and a finite population of
    N customers, each of whom arrives at rate λ while outside the system. The
    state weights are built by a forward recursion and then normalised. */
module MM1N {
  import opened Numeric
  import opened Outcome

  datatype Metrics = Metrics(
    l: real,          // mean number in the system
    lq: real,         // mean number waiting
    lambdaEff: real,  // throughput λ(N - L)
    w: real,          // mean time in the system
    wq: real,         // mean time waiting
    p0: real,         // probability of an empty system
    cost: real,       // waiting cost times L plus one service cost
    pn: seq<real>     // the normalised P(n) for n = 0 .. N
  )

  /** The largest state: N, or 0 for a negative N (the recursion then adds nothing). */
  function LastState(pop: int): nat
  {
    if pop < 0 then 0 else pop
  }

  /** The unnormalised weight of state n: 1 for the empty system, and each
      further state the previous weight times λ(N - (n - 1))/μ. */
  function Weight(lambda: real, mu: real, pop: int, n: nat): real
    requires mu != 0.0
  {
    if n == 0 then 1.0
    else Weight(lambda, mu, pop, n - 1) * (lambda * ((pop - (n - 1)) as real)) / mu
  }

  /** The weights of the states 0 .. N. */
  function Weights(lambda: real, mu: real, pop: int): (w: seq<real>)
    requires mu != 0.0
    ensures |w| == LastState(pop) + 1
    ensures forall n :: 0 <= n < |w| ==> w[n] == Weight(lambda, mu, pop, n)
  {
    seq(LastState(pop) + 1, n requires 0 <= n => Weight(lambda, mu, pop, n))
  }

  /** The normalised state distribution. */
  function Distribution(lambda: real, mu: real, pop: int): seq<real>
    requires mu != 0.0 && Sum(Weights(lambda, mu, pop)) != 0.0
  {
    Scale(Weights(lambda, mu, pop), Sum(Weights(lambda, mu, pop)))
  }

  /** The inputs on which the evaluator does not divide by zero: μ itself, the
      normalising constant, and the throughput λ(N - L) that divides L and Lq. */
  predicate Admissible(lambda: real, mu: real, pop: int)
  {
    && mu != 0.0
    && Sum(Weights(lambda, mu, pop)) != 0.0
    && lambda * ((pop as real) - Moment(Distribution(lambda, mu, pop))) != 0.0
  }

  /** The metrics, as the evaluator computes them once λ < μ. */
  function MetricsOf(lambda: real, mu: real, pop: int, waitingCost: real, serviceCost: real): Metrics
    requires Admissible(lambda, mu, pop)
  {
    Summary(lambda, pop, Distribution(lambda, mu, pop), waitingCost, serviceCost)
  }

  /** The means derived from the normalised distribution: L = Σ n P(n),
      Lq = L - (1 - P0), the throughput λ(N - L), W and Wq by unguarded
      division, and the cost. Little's law holds in both forms. */
  function Summary(lambda: real, pop: int, pn: seq<real>, waitingCost: real, serviceCost: real): (m: Metrics)
    requires |pn| >= 1 && lambda * ((pop as real) - Moment(pn)) != 0.0
    ensures m.lambdaEff * m.w == m.l
    ensures m.lambdaEff * m.wq == m.lq
  {
    var l := Moment(pn);
    var lq := l - (1.0 - pn[0]);
    var lambdaEff := lambda * ((pop as real) - l);
    DivCancel(l, lambdaEff);
    DivCancel(lq, lambdaEff);
    Metrics(l, lq, lambdaEff, l / lambdaEff, lq / lambdaEff, pn[0], waitingCost * l + serviceCost * 1.0, pn)
  }

  /** The M/M/1/N evaluator: unstable when μ <= λ; otherwise the weights are
      accumulated, normalised, and the means derived from them. */
  method QueueMetrics(lambda: real, mu: real, pop: int, waitingCost: real, serviceCost: real)
    returns (r: Result<Metrics>)
    requires lambda < mu ==> Admissible(lambda, mu, pop)
    ensures r.Err? <==> mu <= lambda
    ensures r.Err? ==> r.error == Unstable
    ensures r.Ok? ==> r.value == MetricsOf(lambda, mu, pop, waitingCost, serviceCost)
  {
    if mu <= lambda {
      return Err(Unstable);
    }
    var weights, total := BuildWeights(lambda, mu, pop);
    var pn := Scale(weights, total);
    return Ok(Summary(lambda, pop, pn, waitingCost, serviceCost));
  }

  /** The forward recursion: starting from [1], appends the weight of state n
      for n = 1 .. N and keeps the running total of the list. */
  method BuildWeights(lambda: real, mu: real, pop: int) returns (weights: seq<real>, total: real)
    requires mu != 0.0
    ensures weights == Weights(lambda, mu, pop)
    ensures total == Sum(weights)
  {
    weights := [1.0];
    total := 1.0;
    var n := 1;
    while n <= pop
      invariant 1 <= n <= LastState(pop) + 1
      invariant |weights| == n
      invariant forall i :: 0 <= i < n ==> weights[i] == Weight(lambda, mu, pop, i)
      invariant total == Sum(weights)
    {
      var p := weights[n - 1] * (lambda * ((pop - (n - 1)) as real)) / mu;
      ExtendWeights(lambda, mu, pop, weights, n, p);
      SumAppend(weights, p);
      weights := weights + [p];
      total := total + p;
      n := n + 1;
    }
  }

  lemma {:induction false} ExtendWeights(lambda: real, mu: real, pop: int, weights: seq<real>, n: nat, p: real)
    requires mu != 0.0 && n >= 1 && |weights| == n
    requires forall i :: 0 <= i < n ==> weights[i] == Weight(lambda, mu, pop, i)
    requires p == weights[n - 1] * (lambda * ((pop - (n - 1)) as real)) / mu
    ensures forall i :: 0 <= i < n + 1 ==> (weights + [p])[i] == Weight(lambda, mu, pop, i)
  {
    assert Weight(lambda, mu, pop, n) == Weight(lambda, mu, pop, n - 1) * (lambda * ((pop - (n - 1)) as real)) / mu;
  }

  /** N (N-1) ... (N-n+1): the number of ordered choices of n customers. */
  function Falling(pop: int, n: nat): real
  {
    if n == 0 then 1.0 else Falling(pop, n - 1) * ((pop - (n - 1)) as real)
  }

  lemma {:induction false} WeightStep(w: real, f: real, g: real, lambda: real, mu: real, p: real)
    requires mu != 0.0 && w == p * f
    ensures w * (lambda * g) / mu == ((lambda / mu) * p) * (f * g)
  {
    assert w * (lambda * g) / mu == (lambda / mu) * (w * g);
  }

  /** The recursion has the closed form (λ/μ)^n N (N-1) ... (N-n+1). */
  lemma {:induction false} WeightClosedForm(lambda: real, mu: real, pop: int, n: nat)
    requires mu != 0.0
    ensures Weight(lambda, mu, pop, n) == Pow(lambda / mu, n) * Falling(pop, n)
  {
    if n > 0 {
      WeightClosedForm(lambda, mu, pop, n - 1);
      WeightStep(Weight(lambda, mu, pop, n - 1), Falling(pop, n - 1), ((pop - (n - 1)) as real),
                 lambda, mu, Pow(lambda / mu, n - 1));
    }
  }

  /** For nonnegative λ every weight is nonnegative, and for positive λ the
      states up to N have positive weight. */
  lemma {:induction false} WeightSign(lambda: real, mu: real, pop: int, n: nat)
    requires lambda >= 0.0 && mu > 0.0 && n <= LastState(pop)
    ensures Weight(lambda, mu, pop, n) >= 0.0
    ensures lambda > 0.0 ==> Weight(lambda, mu, pop, n) > 0.0
  {
    if n > 0 {
      WeightSign(lambda, mu, pop, n - 1);
      SignStep(Weight(lambda, mu, pop, n - 1), lambda, (pop - (n - 1)) as real, mu);
    }
  }

  lemma {:induction false} SignStep(w: real, lambda: real, g: real, mu: real)
    requires w >= 0.0 && lambda >= 0.0 && g >= 1.0 && mu > 0.0
    ensures w * (lambda * g) / mu >= 0.0
    ensures w > 0.0 && lambda > 0.0 ==> w * (lambda * g) / mu > 0.0
  {
    MulNonNegative(lambda, g);
    MulNonNegative(w, lambda * g);
    DivNonNegative(w * (lambda * g), mu);
    if w > 0.0 && lambda > 0.0 {
      MulPositive(lambda, g);
      MulPositive(w, lambda * g);
      DivPositive(w * (lambda * g), mu);
    }
  }

  /** With λ >= 0 the weights sum to at least 1, so normalising is defined,
      and the distribution has N + 1 nonnegative entries that sum to 1. */
  lemma {:induction false} Normalisation(lambda: real, mu: real, pop: int)
    requires lambda >= 0.0 && mu > 0.0
    ensures Sum(Weights(lambda, mu, pop)) >= 1.0
    ensures var pn := Distribution(lambda, mu, pop);
      && |pn| == LastState(pop) + 1
      && AllNonNegative(pn)
      && Sum(pn) == 1.0
  {
    WeightTotal(lambda, mu, pop);
    var w := Weights(lambda, mu, pop);
    var c := Sum(w);
    var pn := Scale(w, c);
    assert Sum(pn) == 1.0 by {
      SumScale(w, c);
      DivEq(c, 1.0, c);
    }
    assert AllNonNegative(pn) by {
      forall n | 0 <= n < |pn|
        ensures pn[n] >= 0.0
      {
        DivNonNegative(w[n], c);
      }
    }
  }

  /** With λ >= 0 every weight is nonnegative and, the empty state weighing
      1, they sum to at least 1. */
  lemma {:induction false} WeightTotal(lambda: real, mu: real, pop: int)
    requires lambda >= 0.0 && mu > 0.0
    ensures AllNonNegative(Weights(lambda, mu, pop))
    ensures Sum(Weights(lambda, mu, pop)) >= 1.0
  {
    var w := Weights(lambda, mu, pop);
    forall n | 0 <= n < |w|
      ensures w[n] >= 0.0
    {
      WeightSign(lambda, mu, pop, n);
    }
    SumSplit(w, 1);
    assert w[..1] == [w[0]];
    assert Sum(w[..1]) == w[0];
    var tail := w[1..];
    assert AllNonNegative(tail);
    SumNonNegative(tail);
  }

  /** With λ > 0 and N >= 1 the empty state and state 1 both have positive
      probability. */
  lemma {:induction false} ProperDistribution(lambda: real, mu: real, pop: int)
    requires lambda > 0.0 && mu > 0.0 && pop >= 1
    ensures Sum(Weights(lambda, mu, pop)) >= 1.0
    ensures var pn := Distribution(lambda, mu, pop);
      && |pn| == pop + 1 && AllNonNegative(pn) && Sum(pn) == 1.0
      && 0.0 < pn[0] < 1.0 && 0.0 < pn[1]
  {
    Normalisation(lambda, mu, pop);
    var w := Weights(lambda, mu, pop);
    var c := Sum(w);
    var pn := Distribution(lambda, mu, pop);
    WeightSign(lambda, mu, pop, 1);
    DivPositive(w[0], c);
    DivPositive(w[1], c);
    SumSplit(pn, 1);
    assert pn[..1] == [pn[0]];
    assert Sum(pn[..1]) == pn[0];
    assert AllNonNegative(pn[1..]);
    ElementAtMostSum(pn[1..], 0);
  }

  /** Lq = L - (1 - P0) is the mean of (n - 1) over the busy states, hence nonnegative. */
  lemma {:induction false} QueueLengthIsExcess(lambda: real, mu: real, pop: int)
    requires lambda >= 0.0 && mu > 0.0
    ensures Sum(Weights(lambda, mu, pop)) != 0.0
    ensures var pn := Distribution(lambda, mu, pop);
      && Moment(pn) - (1.0 - pn[0]) == Excess(pn, 1)
      && Excess(pn, 1) >= 0.0
  {
    Normalisation(lambda, mu, pop);
    var pn := Distribution(lambda, mu, pop);
    MomentSplits(pn, 1);
    BusyOneServer(pn);
    ExcessNonNegative(pn, 1);
  }

  /** With λ > 0 and N >= 1 the mean number in the system L lies strictly
      between 0 and N, so the throughput λ(N - L) is positive and below λN:
      the evaluator's unguarded divisions are always defined. */
  lemma {:induction false} PositiveThroughput(lambda: real, mu: real, pop: int)
    requires lambda > 0.0 && mu > 0.0 && pop >= 1
    ensures Admissible(lambda, mu, pop)
    ensures var l := Moment(Distribution(lambda, mu, pop));
      && 0.0 < l < pop as real
      && 0.0 < lambda * ((pop as real) - l) < lambda * (pop as real)
  {
    ProperDistribution(lambda, mu, pop);
    var pn := Distribution(lambda, mu, pop);
    var l := Moment(pn);
    MeanStrictlyBetween(pn, pop);
    MulPositive(lambda, (pop as real) - l);
    MulPositive(lambda, l);
  }
}
