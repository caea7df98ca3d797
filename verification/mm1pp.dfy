/** The M/M/1 evaluator with preemptive priority classes: one exponential
    server at rate μ; an arriving customer of a higher class interrupts a
    lower one in service. Classes are listed from the highest priority to the
    lowest and the results are a sequence indexed by class position, so class
    k of the report is entry k - 1. */
module MM1Preemptive {
  import opened Numeric
  import opened Outcome
  import opened Priority

  datatype ClassMetrics = ClassMetrics(
    lambda: real,  // the class's arrival rate
    rho: real,     // the total utilisation Σλ/μ, the same in every entry
    l: real,       // mean number in the system
    lq: real,      // mean number waiting
    w: real,       // mean time in the system
    wq: real       // mean time waiting
  )

  /** (1 - Λ_{i-1}/μ)(1 - Λ_i/μ), which divides class i's time in the system. */
  function Denominator(rates: seq<real>, mu: real, i: nat): real
    requires mu != 0.0 && i < |rates|
  {
    (1.0 - Before(rates, i) / mu) * (1.0 - Sum(rates[..i + 1]) / mu)
  }

  /** Class i's record: W = (1/μ)/((1 - Λ_{i-1}/μ)(1 - Λ_i/μ)), Wq = W - 1/μ,
      and the counts use the cumulative rate Λ_i: L = Λ_i W, Lq = L - Λ_i/μ. */
  function ClassOf(rates: seq<real>, mu: real, rhoTotal: real, i: nat): (m: ClassMetrics)
    requires mu != 0.0 && i < |rates| && Denominator(rates, mu, i) != 0.0
    ensures m.lambda == rates[i] && m.rho == rhoTotal
    ensures m.lq == Sum(rates[..i + 1]) * m.wq
  {
    var upTo := Sum(rates[..i + 1]);
    var w := (1.0 / mu) / Denominator(rates, mu, i);
    var l := upTo * w;
    assert l - upTo / mu == upTo * (w - 1.0 / mu) by {
      assert upTo * (1.0 / mu) == upTo / mu;
    }
    ClassMetrics(rates[i], rhoTotal, l, l - upTo / mu, w, w - 1.0 / mu)
  }

  /** The inputs for which no class's time in the system divides by zero.
      The source raises in that case; stability is checked first. */
  predicate Admissible(rates: seq<real>, mu: real)
  {
    mu != 0.0 &&
    (Sum(rates) / mu < 1.0 ==>
       forall i :: 0 <= i < |rates| ==> Denominator(rates, mu, i) != 0.0)
  }

  /** The per-class records of a stable system: one per class in input
      order, each with its own arrival rate and the same total utilisation. */
  function MetricsOf(rates: seq<real>, mu: real): (r: seq<ClassMetrics>)
    requires Admissible(rates, mu) && Sum(rates) / mu < 1.0
    ensures |r| == |rates|
    ensures forall i :: 0 <= i < |rates| ==> r[i].lambda == rates[i] && r[i].rho == Sum(rates) / mu
  {
    SumScale(rates, mu);
    seq(|rates|, i requires 0 <= i < |rates| => ClassOf(rates, mu, Sum(Scale(rates, mu)), i))
  }

  /** The evaluator: the instability error exactly when Σλ_i/μ >= 1,
      otherwise one record per class. */
  method QueueMetrics(rates: seq<real>, mu: real) returns (r: Result<seq<ClassMetrics>>)
    requires Admissible(rates, mu)
    ensures r.Err? <==> Sum(rates) / mu >= 1.0
    ensures r.Err? ==> r.error == Unstable
    ensures r.Ok? ==> r.value == MetricsOf(rates, mu)
  {
    var rhoTotal := Sum(Scale(rates, mu));
    SumScale(rates, mu);
    if rhoTotal >= 1.0 {
      return Err(Unstable);
    }
    var results: seq<ClassMetrics> := [];
    var i := 0;
    while i < |rates|
      invariant 0 <= i <= |rates|
      invariant results == MetricsOf(rates, mu)[..i]
    {
      assert MetricsOf(rates, mu)[i] == ClassOf(rates, mu, rhoTotal, i);
      results := results + [ClassOf(rates, mu, rhoTotal, i)];
      i := i + 1;
    }
    return Ok(results);
  }

  /** The denominators of classes i <= j lie in (0, 1] and shrink from i
      to j. */
  lemma {:induction false} DenominatorBounds(rates: seq<real>, mu: real, i: nat, j: nat)
    requires AllNonNegative(rates) && mu > 0.0 && Sum(rates) / mu < 1.0
    requires i <= j < |rates|
    ensures 1.0 >= Denominator(rates, mu, i) >= Denominator(rates, mu, j) > 0.0
  {
    BeforeIsRunningTotal(rates, i);
    BeforeIsRunningTotal(rates, j);
    LoadOrder(rates, mu, i, j);
    DenominatorShrinks(rates, mu, i, j);
  }

  /** Running loads in order give denominators in (0, 1] that shrink. */
  lemma {:induction false} DenominatorShrinks(rates: seq<real>, mu: real, i: nat, j: nat)
    requires mu != 0.0 && i <= j < |rates|
    requires 0.0 <= Before(rates, i) / mu <= Before(rates, j) / mu <= Sum(rates[..j + 1]) / mu < 1.0
    requires Before(rates, i) / mu <= Sum(rates[..i + 1]) / mu <= Sum(rates[..j + 1]) / mu
    ensures 1.0 >= Denominator(rates, mu, i) >= Denominator(rates, mu, j) > 0.0
  {
    FactorsShrink(Before(rates, i) / mu, Sum(rates[..i + 1]) / mu,
                  Before(rates, j) / mu, Sum(rates[..j + 1]) / mu);
    FactorsAtMostOne(Before(rates, i) / mu, Sum(rates[..i + 1]) / mu);
  }

  /** With nonnegative rates and μ > 0 no denominator of a stable system is
      zero, so the evaluator never divides by zero. */
  lemma {:induction false} StableIsAdmissible(rates: seq<real>, mu: real)
    requires AllNonNegative(rates) && mu > 0.0
    ensures Admissible(rates, mu)
  {
    if Sum(rates) / mu < 1.0 {
      forall i | 0 <= i < |rates|
        ensures Denominator(rates, mu, i) != 0.0
      {
        DenominatorBounds(rates, mu, i, i);
      }
    }
  }

  /** With nonnegative rates every class waits a nonnegative time, and a
      lower class never spends less time in the system than a higher one. */
  lemma {:induction false} WaitsOrdered(rates: seq<real>, mu: real, i: nat, j: nat)
    requires AllNonNegative(rates) && mu > 0.0 && Sum(rates) / mu < 1.0
    requires i <= j < |rates|
    ensures (StableIsAdmissible(rates, mu);
             0.0 <= MetricsOf(rates, mu)[i].wq && MetricsOf(rates, mu)[i].w <= MetricsOf(rates, mu)[j].w)
  {
    StableIsAdmissible(rates, mu);
    var m := MetricsOf(rates, mu);
    var rhoTotal := Sum(Scale(rates, mu));
    assert m[i] == ClassOf(rates, mu, rhoTotal, i);
    assert m[j] == ClassOf(rates, mu, rhoTotal, j);
    DenominatorBounds(rates, mu, i, j);
    DivPositive(1.0, mu);
    QuotientAntitone(1.0 / mu, Denominator(rates, mu, i), Denominator(rates, mu, j));
    QuotientAntitone(1.0 / mu, 1.0, Denominator(rates, mu, i));
  }

  /** The highest-priority class sees an M/M/1 queue of its own:
      W_1 = 1/(μ - λ_1), whatever the other classes are. */
  lemma {:induction false} HighestPriorityClass(rates: seq<real>, mu: real)
    requires |rates| >= 1 && Admissible(rates, mu) && Sum(rates) / mu < 1.0
    ensures mu != rates[0]
    ensures MetricsOf(rates, mu)[0].w == 1.0 / (mu - rates[0])
  {
    assert rates[..1] == [rates[0]];
    assert Sum([rates[0]]) == rates[0] by {
      assert [rates[0]][..0] == [];
    }
    var d := Denominator(rates, mu, 0);
    assert d == 1.0 - rates[0] / mu;
    DivCancel(rates[0], mu);
    assert d * mu == mu - rates[0];
    assert MetricsOf(rates, mu)[0] == ClassOf(rates, mu, Sum(Scale(rates, mu)), 0);
    ReciprocalOverFactor(mu, mu - rates[0], d);
  }

  /** (1/μ)/d = 1/x when d μ = x. */
  lemma {:induction false} ReciprocalOverFactor(mu: real, x: real, d: real)
    requires mu != 0.0 && d != 0.0 && d * mu == x
    ensures x != 0.0
    ensures (1.0 / mu) / d == 1.0 / x
  {
    MulNonZero(d, mu);
    DivCancel(1.0, mu);
    DivCancel(1.0 / mu, d);
    assert ((1.0 / mu) / d) * x == ((1.0 / mu) / d) * d * mu;
    DivEq(1.0, (1.0 / mu) / d, x);
  }
}
