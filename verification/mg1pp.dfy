/** The M/G/1 evaluator with preemptive priority classes: one server, each
    class with its own Poisson arrival rate λ_i and a general service time of
    mean E[S_i] and variance Var_i. Class i's waiting time depends only on
    the classes from i to the end of the list, so that the last class is the
    one that preempts all others. Results are a sequence indexed by class
    position, so class k of the report is entry k - 1. */
module MG1Preemptive {
  import opened Numeric
  import opened Outcome
  import opened Priority
  import MG1

  datatype ClassMetrics = ClassMetrics(
    lambda: real,    // the class's arrival rate
    time: real,      // its mean service time E[S]
    variance: real,  // its service-time variance Var[S]
    rho: real,       // its utilisation λ E[S]
    l: real,         // mean number in the system
    lq: real,        // mean number waiting
    w: real,         // mean time in the system
    wq: real         // mean time waiting
  )

  predicate SameLength(rates: seq<real>, times: seq<real>, variances: seq<real>)
  {
    |times| == |rates| && |variances| == |rates|
  }

  /** ρ_i for every class. */
  function Utilisations(rates: seq<real>, times: seq<real>): (u: seq<real>)
    requires |times| == |rates|
    ensures |u| == |rates|
  {
    seq(|rates|, i requires 0 <= i < |rates| => Utilisation(rates[i], times[i]))
  }

  /** λ_j E[S²_j] for every class. */
  function Loads(rates: seq<real>, times: seq<real>, variances: seq<real>): (x: seq<real>)
    requires SameLength(rates, times, variances)
    ensures |x| == |rates|
  {
    seq(|rates|, j requires 0 <= j < |rates| => SecondMomentLoad(rates[j], times[j], variances[j]))
  }

  /** Wq = numerator / (2(1 - ρ_{>=i})), the waiting time of a class whose
      own and lower-listed classes carry the given load. */
  function Wait(numerator: real, load: real): real
    requires load != 1.0
  {
    numerator / (2.0 * (1.0 - load))
  }

  /** One class's record from its waiting time: W = Wq + E[S], L = λ W and
      Lq = L - λ E[S]. */
  function ClassOf(lambda: real, time: real, variance: real, rho: real, wq: real): (m: ClassMetrics)
    ensures m.lambda == lambda && m.time == time && m.variance == variance && m.rho == rho
    ensures m.wq == wq
  {
    var w := wq + time;
    var l := lambda * w;
    ClassMetrics(lambda, time, variance, rho, l, l - lambda * time, w, wq)
  }

  /** Little's law holds in each record: L = λ W, Lq = λ Wq, and W = Wq + E[S]. */
  lemma {:induction false} LittleLaw(lambda: real, time: real, variance: real, rho: real, wq: real)
    ensures var m := ClassOf(lambda, time, variance, rho, wq);
      m.lq == lambda * m.wq && m.l == lambda * m.w && m.w == m.wq + time
  {
    var m := ClassOf(lambda, time, variance, rho, wq);
    assert m.l - lambda * time == lambda * (m.w - time);
  }

  /** The inputs for which no class's waiting time divides by zero. The
      source raises in that case; the length and stability checks come
      first. */
  predicate Admissible(rates: seq<real>, times: seq<real>, variances: seq<real>)
  {
    SameLength(rates, times, variances) ==>
      Sum(Utilisations(rates, times)) < 1.0 ==>
        forall i :: 0 <= i < |rates| ==> Sum(Utilisations(rates, times)[i..]) != 1.0
  }

  /** The per-class records of a stable system, one per input position with
      no reordering; class i is computed from classes i .. n-1 only. */
  function MetricsOf(rates: seq<real>, times: seq<real>, variances: seq<real>): (r: seq<ClassMetrics>)
    requires SameLength(rates, times, variances) && Admissible(rates, times, variances)
    requires Sum(Utilisations(rates, times)) < 1.0
    ensures |r| == |rates|
    ensures forall i :: 0 <= i < |rates| ==>
      r[i].lambda == rates[i] && r[i].time == times[i] && r[i].variance == variances[i]
      && r[i].rho == Utilisations(rates, times)[i]
  {
    var u := Utilisations(rates, times);
    var x := Loads(rates, times, variances);
    seq(|rates|, i requires 0 <= i < |rates| =>
      ClassOf(rates[i], times[i], variances[i], u[i], Wait(Sum(x[i..]), Sum(u[i..]))))
  }

  /** The evaluator: the length error when the three lists differ in length,
      then the instability error exactly when Σ λ_i E[S_i] >= 1, otherwise
      one record per class. */
  method QueueMetrics(rates: seq<real>, times: seq<real>, variances: seq<real>)
    returns (r: Result<seq<ClassMetrics>>)
    requires Admissible(rates, times, variances)
    ensures r == Err(LengthMismatch) <==> !SameLength(rates, times, variances)
    ensures SameLength(rates, times, variances) ==>
      (r.Err? <==> Sum(Utilisations(rates, times)) >= 1.0)
    ensures SameLength(rates, times, variances) && r.Err? ==> r.error == Unstable
    ensures r.Ok? ==> SameLength(rates, times, variances) && r.value == MetricsOf(rates, times, variances)
  {
    var n := |rates|;
    if !(|times| == |variances| == n) {
      return Err(LengthMismatch);
    }
    var u := Utilisations(rates, times);
    var rhoTotal := Sum(u);
    if rhoTotal >= 1.0 {
      return Err(Unstable);
    }
    r := ClassesLoop(rates, times, variances);
  }

  /** The loop over the classes of a stable system: each class's waiting
      time from the load and utilisation of the classes from it to the end. */
  method ClassesLoop(rates: seq<real>, times: seq<real>, variances: seq<real>)
    returns (r: Result<seq<ClassMetrics>>)
    requires SameLength(rates, times, variances) && Admissible(rates, times, variances)
    requires Sum(Utilisations(rates, times)) < 1.0
    ensures r == Ok(MetricsOf(rates, times, variances))
  {
    var u := Utilisations(rates, times);
    var x := Loads(rates, times, variances);
    ghost var spec := MetricsOf(rates, times, variances);
    var results: seq<ClassMetrics> := [];
    var i := 0;
    while i < |rates|
      invariant 0 <= i <= |rates|
      invariant |results| == i && forall k :: 0 <= k < i ==> results[k] == spec[k]
    {
      var rhoAtOrBelow := Sum(u[i..]);
      var numerator := Sum(x[i..]);
      assert rhoAtOrBelow != 1.0;
      var m := ClassOf(rates[i], times[i], variances[i], u[i], Wait(numerator, rhoAtOrBelow));
      assert spec[i] == m;
      results := results + [m];
      i := i + 1;
    }
    assert results == spec;
    return Ok(results);
  }

  /** With nonnegative rates, times and variances, every utilisation and
      every λ E[S²] is nonnegative. */
  lemma {:induction false} NonNegativeTerms(rates: seq<real>, times: seq<real>, variances: seq<real>)
    requires SameLength(rates, times, variances)
    requires AllNonNegative(rates) && AllNonNegative(times) && AllNonNegative(variances)
    ensures AllNonNegative(Utilisations(rates, times))
    ensures AllNonNegative(Loads(rates, times, variances))
  {
    forall j | 0 <= j < |rates|
      ensures Utilisations(rates, times)[j] >= 0.0 && Loads(rates, times, variances)[j] >= 0.0
    {
      MulNonNegative(rates[j], times[j]);
      PowNonNegative(times[j], 2);
      MulNonNegative(rates[j], variances[j] + Pow(times[j], 2));
      assert Utilisations(rates, times)[j] == Utilisation(rates[j], times[j]);
      assert Loads(rates, times, variances)[j] == SecondMomentLoad(rates[j], times[j], variances[j]);
    }
  }

  /** Under stability with nonnegative inputs no denominator is zero. */
  lemma {:induction false} StableIsAdmissible(rates: seq<real>, times: seq<real>, variances: seq<real>)
    requires SameLength(rates, times, variances)
    requires AllNonNegative(rates) && AllNonNegative(times) && AllNonNegative(variances)
    ensures Admissible(rates, times, variances)
  {
    NonNegativeTerms(rates, times, variances);
    var u := Utilisations(rates, times);
    forall i | 0 <= i < |rates|
      ensures Sum(u[i..]) <= Sum(u)
    {
      SuffixTotals(u, 0, i);
      assert u[0..] == u;
    }
  }

  /** With nonnegative inputs a class never waits longer than a class before
      it in the list: Wq is nonincreasing in the position, the last class
      preempting all others. */
  lemma {:induction false} WaitNonIncreasing(rates: seq<real>, times: seq<real>, variances: seq<real>, i: nat, j: nat)
    requires SameLength(rates, times, variances)
    requires AllNonNegative(rates) && AllNonNegative(times) && AllNonNegative(variances)
    requires Sum(Utilisations(rates, times)) < 1.0
    requires i <= j < |rates|
    ensures (StableIsAdmissible(rates, times, variances);
             MetricsOf(rates, times, variances)[j].wq <= MetricsOf(rates, times, variances)[i].wq)
  {
    StableIsAdmissible(rates, times, variances);
    WaitOf(rates, times, variances, i);
    WaitOf(rates, times, variances, j);
    SuffixesOrdered(rates, times, variances, i, j);
    WaitMonotone(Sum(Loads(rates, times, variances)[j..]), Sum(Loads(rates, times, variances)[i..]),
                 Sum(Utilisations(rates, times)[j..]), Sum(Utilisations(rates, times)[i..]));
  }

  /** With nonnegative inputs the load and the numerator of classes j..n-1
      are at most those of classes i..n-1 for i <= j. */
  lemma {:induction false} SuffixesOrdered(rates: seq<real>, times: seq<real>, variances: seq<real>, i: nat, j: nat)
    requires SameLength(rates, times, variances)
    requires AllNonNegative(rates) && AllNonNegative(times) && AllNonNegative(variances)
    requires i <= j < |rates|
    ensures 0.0 <= Sum(Loads(rates, times, variances)[j..]) <= Sum(Loads(rates, times, variances)[i..])
    ensures Sum(Utilisations(rates, times)[j..]) <= Sum(Utilisations(rates, times)[i..])
                                                  <= Sum(Utilisations(rates, times))
  {
    NonNegativeTerms(rates, times, variances);
    var u := Utilisations(rates, times);
    SuffixTotals(u, i, j);
    SuffixTotals(Loads(rates, times, variances), i, j);
    SuffixTotals(u, 0, i);
    assert u[0..] == u;
  }

  /** Class i's waiting time: Σ_{j>=i} λ_j E[S²_j] over 2(1 - Σ_{j>=i} ρ_j). */
  lemma {:induction false} WaitOf(rates: seq<real>, times: seq<real>, variances: seq<real>, i: nat)
    requires SameLength(rates, times, variances) && Admissible(rates, times, variances)
    requires Sum(Utilisations(rates, times)) < 1.0 && i < |rates|
    ensures Sum(Utilisations(rates, times)[i..]) != 1.0
    ensures MetricsOf(rates, times, variances)[i].wq
         == Wait(Sum(Loads(rates, times, variances)[i..]), Sum(Utilisations(rates, times)[i..]))
  {
    var u := Utilisations(rates, times);
    var x := Loads(rates, times, variances);
    assert MetricsOf(rates, times, variances)[i]
        == ClassOf(rates[i], times[i], variances[i], u[i], Wait(Sum(x[i..]), Sum(u[i..])));
  }

  /** A smaller numerator over a smaller load gives a shorter wait:
      n1/(2(1 - a1)) <= n2/(2(1 - a2)) when 0 <= n1 <= n2 and a1 <= a2 < 1. */
  lemma {:induction false} WaitMonotone(n1: real, n2: real, a1: real, a2: real)
    requires 0.0 <= n1 <= n2 && a1 <= a2 < 1.0
    ensures 0.0 <= Wait(n1, a1) <= Wait(n2, a2)
  {
    QuotientMonotone(n1, n2, 2.0 * (1.0 - a1));
    QuotientAntitone(n1, 2.0 * (1.0 - a1), 2.0 * (1.0 - a1));
    QuotientAntitone(n2, 2.0 * (1.0 - a1), 2.0 * (1.0 - a2));
  }

  /** The last class, which no other class preempts, waits as in a
      single-class M/G/1 queue with μ = 1/E[S] and σ² = Var[S]. */
  lemma {:induction false} LastClassIsMG1(rates: seq<real>, times: seq<real>, variances: seq<real>)
    requires SameLength(rates, times, variances) && |rates| >= 1
    requires Admissible(rates, times, variances) && Sum(Utilisations(rates, times)) < 1.0
    requires rates[|rates| - 1] != 0.0 && times[|rates| - 1] != 0.0
    requires Utilisations(rates, times)[|rates| - 1] < 1.0
    ensures var k := |rates| - 1;
      (RateOverReciprocal(rates[k], times[k]);
       var single := MG1.QueueMetrics(rates[k], 1.0 / times[k], variances[k]);
       single.Ok? && MetricsOf(rates, times, variances)[k].wq == single.value.wq)
  {
    LastClassWait(rates, times, variances);
    SingleClassIsMG1(rates[|rates| - 1], times[|rates| - 1], variances[|rates| - 1],
                     Utilisations(rates, times)[|rates| - 1], Loads(rates, times, variances)[|rates| - 1]);
  }

  /** The last class's waiting time depends on its own parameters only. */
  lemma {:induction false} LastClassWait(rates: seq<real>, times: seq<real>, variances: seq<real>)
    requires SameLength(rates, times, variances) && |rates| >= 1
    requires Admissible(rates, times, variances) && Sum(Utilisations(rates, times)) < 1.0
    ensures var k := |rates| - 1;
      Utilisations(rates, times)[k] != 1.0 &&
      MetricsOf(rates, times, variances)[k].wq
        == Wait(Loads(rates, times, variances)[k], Utilisations(rates, times)[k])
  {
    var k := |rates| - 1;
    var u := Utilisations(rates, times);
    var x := Loads(rates, times, variances);
    WaitOf(rates, times, variances, k);
    assert u[k..] == [u[k]];
    assert x[k..] == [x[k]];
    SumOne(u[k]);
    SumOne(x[k]);
  }

  /** A lone class with E[S] = t, utilisation u = λ t and numerator
      x = λ (Var + t²) waits as M/G/1 with μ = 1/t. */
  lemma {:induction false} SingleClassIsMG1(lambda: real, t: real, v: real, u: real, x: real)
    requires lambda != 0.0 && t != 0.0 && u < 1.0
    requires u == Utilisation(lambda, t) && x == SecondMomentLoad(lambda, t, v)
    ensures (RateOverReciprocal(lambda, t);
             var single := MG1.QueueMetrics(lambda, 1.0 / t, v);
             single.Ok? && single.value.wq == Wait(x, u))
  {
    RateOverReciprocal(lambda, t);
    assert lambda / (1.0 / t) == u;
    PollaczekKhinchineNumerator(lambda, t, v, u, x);
    ScaledQuotient(lambda, x, 2.0 * (1.0 - u));
  }

  /** λ² Var + ρ² = λ · λ (Var + t²) when ρ = λ t. */
  lemma {:induction false} PollaczekKhinchineNumerator(lambda: real, t: real, v: real, u: real, x: real)
    requires u == Utilisation(lambda, t) && x == SecondMomentLoad(lambda, t, v)
    ensures MG1.QueueLengthNumerator(lambda, u, v) == lambda * x
  {
    PowTwo(lambda);
    PowTwo(u);
    PowTwo(t);
    Expand(lambda, t, v, u, x, Pow(lambda, 2), Pow(u, 2), Pow(t, 2));
  }

  /** The polynomial identity behind the numerator, over plain reals. */
  lemma {:induction false} Expand(l: real, t: real, v: real, u: real, x: real, l2: real, u2: real, t2: real)
    requires u == l * t && x == l * (v + t2)
    requires l2 == l * l && u2 == u * u && t2 == t * t
    ensures l2 * v + u2 == l * x
  {
    assert u2 == l * (l * t2);
    assert l * x == l * (l * v) + l * (l * t2);
  }

  /** λ / (1/t) = λ t. */
  lemma {:induction false} RateOverReciprocal(lambda: real, t: real)
    requires t != 0.0
    ensures 1.0 / t != 0.0 && lambda / (1.0 / t) == lambda * t
  {
    DivCancel(1.0, t);
    DivEq(lambda, lambda * t, 1.0 / t);
  }

  /** (λ a / d) / λ = a / d. */
  lemma {:induction false} ScaledQuotient(lambda: real, a: real, d: real)
    requires lambda != 0.0 && d != 0.0
    ensures (lambda * a) / d / lambda == a / d
  {
    var q := a / d;
    DivCancel(a, d);
    assert (lambda * q) * d == lambda * (q * d);
    DivEq(lambda * a, lambda * q, d);
    DivEq(lambda * q, q, lambda);
  }
}
