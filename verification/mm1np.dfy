/** The M/M/1 evaluator with non-preemptive priority classes: one exponential
    server at rate μ shared by classes listed from the highest priority to the
    lowest, each with its own Poisson arrival rate. A customer in service is
    never interrupted. Results are a sequence indexed by class position, so
    class k of the report is entry k - 1. */
module MM1NonPreemptive {
  import opened Numeric
  import opened Outcome
  import opened Priority
  import MM1

  datatype ClassMetrics = ClassMetrics(
    lambda: real,  // the class's arrival rate
    wq: real,      // mean time waiting
    w: real,       // mean time in the system
    lq: real,      // mean number waiting
    l: real        // mean number in the system
  )

  /** σ: entry i is ρ_0 + ... + ρ_i, the load of class i and every class
      above it. */
  function Sigma(rho: seq<real>): (sigma: seq<real>)
    ensures |sigma| == |rho|
  {
    seq(|rho|, i requires 0 <= i < |rho| => Sum(rho[..i + 1]))
  }

  /** Builds σ by appending one running total per class, in input order. */
  method CumulativeUtilisation(rho: seq<real>) returns (sigma: seq<real>)
    ensures sigma == Sigma(rho)
  {
    sigma := [];
    var i := 0;
    while i < |rho|
      invariant 0 <= i <= |rho|
      invariant sigma == Sigma(rho)[..i]
    {
      sigma := sigma + [Sum(rho[..i + 1])];
      i := i + 1;
    }
  }

  /** σ_{i-1}, the load of the classes above class i; zero for the first. */
  function Previous(sigma: seq<real>, i: nat): real
    requires i < |sigma|
  {
    if i == 0 then 0.0 else sigma[i - 1]
  }

  /** The product (1 - σ_{i-1})(1 - σ_i) that divides class i's waiting time. */
  function Denominator(sigma: seq<real>, i: nat): real
    requires i < |sigma|
  {
    (1.0 - Previous(sigma, i)) * (1.0 - sigma[i])
  }

  /** Entry i of σ is the running arrival rate of classes 0..i over μ, and
      the entry before it (zero for the first class) is that of classes
      0..i-1. */
  lemma {:induction false} SigmaIsRunningLoad(rates: seq<real>, mu: real, i: nat)
    requires mu != 0.0 && i < |rates|
    ensures Sigma(Scale(rates, mu))[i] == Sum(rates[..i + 1]) / mu
    ensures Previous(Sigma(Scale(rates, mu)), i) == Sum(rates[..i]) / mu
  {
    PrefixScale(rates, mu, i + 1);
    if i == 0 {
      assert rates[..0] == [];
    } else {
      PrefixScale(rates, mu, i);
    }
  }

  /** Class i's record: Wq = (ρ/μ) / ((1 - σ_{i-1})(1 - σ_i)),
      W = Wq + 1/μ, Lq = λ_i Wq and L = λ_i W. */
  function ClassOf(lambda: real, mu: real, rhoTotal: real, sigma: seq<real>, i: nat): (m: ClassMetrics)
    requires mu != 0.0 && i < |sigma| && Denominator(sigma, i) != 0.0
    ensures m.lambda == lambda
    ensures m.l - m.lq == lambda / mu
  {
    var wq := (rhoTotal / mu) / Denominator(sigma, i);
    var w := wq + 1.0 / mu;
    assert lambda * w - lambda * wq == lambda * (1.0 / mu);
    ClassMetrics(lambda, wq, w, lambda * wq, lambda * w)
  }

  /** The inputs for which no class's waiting time divides by zero. The
      source raises in that case; stability is checked first. */
  predicate Admissible(rates: seq<real>, mu: real)
  {
    mu != 0.0 &&
    (Sum(rates) / mu < 1.0 ==>
       forall i :: 0 <= i < |rates| ==> Denominator(Sigma(Scale(rates, mu)), i) != 0.0)
  }

  /** The per-class records of a stable system: one per class, in input
      order, each carrying its own arrival rate. */
  function MetricsOf(rates: seq<real>, mu: real): (r: seq<ClassMetrics>)
    requires Admissible(rates, mu) && Sum(rates) / mu < 1.0
    ensures |r| == |rates|
    ensures forall i :: 0 <= i < |rates| ==> r[i].lambda == rates[i]
  {
    var sigma := Sigma(Scale(rates, mu));
    seq(|rates|, i requires 0 <= i < |rates| =>
      ClassOf(rates[i], mu, Sum(rates) / mu, sigma, i))
  }

  /** The evaluator: the instability error exactly when Σλ_i/μ >= 1,
      otherwise one record per class. */
  method QueueMetrics(rates: seq<real>, mu: real) returns (r: Result<seq<ClassMetrics>>)
    requires Admissible(rates, mu)
    ensures r.Err? <==> Sum(rates) / mu >= 1.0
    ensures r.Err? ==> r.error == Unstable
    ensures r.Ok? ==> r.value == MetricsOf(rates, mu)
  {
    var rhoTotal := Sum(rates) / mu;
    if rhoTotal >= 1.0 {
      return Err(Unstable);
    }
    var rho := Scale(rates, mu);
    var sigma := CumulativeUtilisation(rho);
    var results: seq<ClassMetrics> := [];
    var i := 0;
    while i < |rates|
      invariant 0 <= i <= |rates|
      invariant results == MetricsOf(rates, mu)[..i]
    {
      assert Denominator(sigma, i) != 0.0;
      assert MetricsOf(rates, mu)[i] == ClassOf(rates[i], mu, rhoTotal, sigma, i);
      results := results + [ClassOf(rates[i], mu, rhoTotal, sigma, i)];
      i := i + 1;
    }
    return Ok(results);
  }

  /** With nonnegative rates and μ > 0, every denominator of a stable system
      is positive, so the evaluator never divides by zero. */
  lemma {:induction false} StableIsAdmissible(rates: seq<real>, mu: real)
    requires AllNonNegative(rates) && mu > 0.0
    ensures Admissible(rates, mu)
    ensures Sum(rates) / mu < 1.0 ==>
      forall i :: 0 <= i < |rates| ==> Denominator(Sigma(Scale(rates, mu)), i) > 0.0
  {
    if Sum(rates) / mu < 1.0 {
      forall i | 0 <= i < |rates|
        ensures Denominator(Sigma(Scale(rates, mu)), i) > 0.0
      {
        DenominatorBounds(rates, mu, i, i);
      }
    }
  }

  /** The denominators of classes i <= j are positive and shrink from i to j. */
  lemma {:induction false} DenominatorBounds(rates: seq<real>, mu: real, i: nat, j: nat)
    requires AllNonNegative(rates) && mu > 0.0 && Sum(rates) / mu < 1.0
    requires i <= j < |rates|
    ensures Denominator(Sigma(Scale(rates, mu)), i) >= Denominator(Sigma(Scale(rates, mu)), j) > 0.0
  {
    var sigma := Sigma(Scale(rates, mu));
    SigmaIsRunningLoad(rates, mu, i);
    SigmaIsRunningLoad(rates, mu, j);
    LoadOrder(rates, mu, i, j);
    DenominatorShrinks(sigma, i, j);
  }

  /** Running loads in order give shrinking, positive denominators. */
  lemma {:induction false} DenominatorShrinks(sigma: seq<real>, i: nat, j: nat)
    requires i <= j < |sigma|
    requires 0.0 <= Previous(sigma, i) <= Previous(sigma, j) <= sigma[j] < 1.0
    requires Previous(sigma, i) <= sigma[i] <= sigma[j]
    ensures Denominator(sigma, i) >= Denominator(sigma, j) > 0.0
  {
    FactorsShrink(Previous(sigma, i), sigma[i], Previous(sigma, j), sigma[j]);
  }

  /** A lower-priority class never waits less: with nonnegative rates, Wq is
      nondecreasing in the class position. */
  lemma {:induction false} WaitNondecreasing(rates: seq<real>, mu: real, i: nat, j: nat)
    requires AllNonNegative(rates) && mu > 0.0 && Sum(rates) / mu < 1.0
    requires i <= j < |rates|
    ensures (StableIsAdmissible(rates, mu); MetricsOf(rates, mu)[i].wq <= MetricsOf(rates, mu)[j].wq)
  {
    StableIsAdmissible(rates, mu);
    var sigma := Sigma(Scale(rates, mu));
    DenominatorBounds(rates, mu, i, j);
    SumNonNegative(rates);
    DivNonNegative(Sum(rates), mu);
    DivNonNegative(Sum(rates) / mu, mu);
    var m := MetricsOf(rates, mu);
    var rhoTotal := Sum(rates) / mu;
    assert m[i] == ClassOf(rates[i], mu, rhoTotal, sigma, i);
    assert m[j] == ClassOf(rates[j], mu, rhoTotal, sigma, j);
    QuotientAntitone(rhoTotal / mu, Denominator(sigma, i), Denominator(sigma, j));
  }

  /** With a single class the waiting time is the M/M/1 one, ρ/(μ - λ), and
      the two evaluators reject the same inputs. */
  lemma {:induction false} SingleClassIsMM1(lambda: real, mu: real)
    requires mu > 0.0
    ensures Sum([lambda]) / mu >= 1.0 <==> MM1.QueueMetrics(lambda, mu, 0.0, 0.0, 0).Err?
    ensures lambda < mu ==> Admissible([lambda], mu) && Sum([lambda]) / mu < 1.0
    ensures lambda < mu ==>
      MetricsOf([lambda], mu)[0].wq == MM1.QueueMetrics(lambda, mu, 0.0, 0.0, 0).value.wq
  {
    assert Sum([lambda]) == lambda by {
      assert [lambda][..0] == [];
    }
    DivCancel(lambda, mu);
    if lambda < mu {
      assert lambda / mu < 1.0;
      var sigma := Sigma(Scale([lambda], mu));
      SigmaIsRunningLoad([lambda], mu, 0);
      assert [lambda][..1] == [lambda];
      assert sigma[0] == lambda / mu;
      assert Denominator(sigma, 0) == 1.0 - lambda / mu;
      assert Admissible([lambda], mu);
      var rho := lambda / mu;
      var wq := MetricsOf([lambda], mu)[0].wq;
      assert wq * (1.0 * (1.0 - rho)) == rho / mu;
      MM1.OneMinusRatio(lambda, mu);
      DivCancel(rho, mu);
      DivCancel(mu - lambda, mu);
      assert wq * (mu - lambda) == rho;
      DivEq(rho, wq, mu - lambda);
    } else {
      assert lambda / mu >= 1.0 by {
        DivCancel(lambda, mu);
      }
    }
  }
}
