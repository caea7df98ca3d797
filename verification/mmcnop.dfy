/** The validating M/M/s evaluator with priority classes and no interruption.
    It shares its divisors with MMCNonPreemptive: one Erlang factor for all
    classes times the two running-load factors of each class. It checks μ,
    s and the rates before computing, refuses a class whose factors are not
    all positive instead of catching a zero divisor, and adds the total
    utilisation Λ/(sμ) to every record. Results are a sequence indexed by
    class position, so class k of the report is entry k - 1. */
module MMCNoPreemptive {
  import opened Numeric
  import opened Outcome
  import opened Priority
  import MMCNonPreemptive

  datatype ClassMetrics = ClassMetrics(
    w: real,         // mean time in the system
    wq: real,        // mean time waiting
    l: real,         // mean number in the system
    lq: real,        // mean number waiting
    rhoTotal: real   // the total utilisation Λ/(sμ), the same in every entry
  )

  /** The guard of class i: the Erlang factor e and both running-load
      factors 1 - Λ_{i-1}/(sμ) and 1 - Λ_i/(sμ) are positive. */
  predicate Admitted(rates: seq<real>, mu: real, s: nat, e: real, i: nat)
    requires mu != 0.0 && s >= 1 && i < |rates|
  {
    && e > 0.0
    && MMCNonPreemptive.UpperFactor(rates, mu, s, i) > 0.0
    && MMCNonPreemptive.LowerFactor(rates, mu, s, i) > 0.0
  }

  /** A divisor with positive factors is positive. */
  lemma {:induction false} PositiveDivisor(e: real, upper: real, lower: real)
    requires e > 0.0 && upper > 0.0 && lower > 0.0
    ensures MMCNonPreemptive.Divisor(e, upper, lower) > 0.0
  {
    MulPositive(e, upper);
    MulPositive(MMCNonPreemptive.Partial(e, upper), lower);
  }

  /** Class i's record: Wq = 1/(e · upper · lower), W = Wq + 1/μ, L = λ W and
      Lq = L - λ/μ, which is λ Wq. */
  function ClassOf(lambda: real, mu: real, e: real, upper: real, lower: real, rhoTotal: real): (m: ClassMetrics)
    requires mu != 0.0 && e > 0.0 && upper > 0.0 && lower > 0.0
    ensures m.wq > 0.0 && m.w - m.wq == 1.0 / mu
    ensures m.lq == lambda * m.wq && m.rhoTotal == rhoTotal
  {
    PositiveDivisor(e, upper, lower);
    var wq := 1.0 / MMCNonPreemptive.Divisor(e, upper, lower);
    DivPositive(1.0, MMCNonPreemptive.Divisor(e, upper, lower));
    var w := wq + 1.0 / mu;
    var l := lambda * w;
    assert l - lambda / mu == lambda * wq by {
      assert lambda * (1.0 / mu) == lambda / mu;
    }
    ClassMetrics(w, wq, l, l - lambda / mu, rhoTotal)
  }

  /** The inputs the source computes on without an uncaught exception: once
      μ, s and the rates pass and the system is stable, λ_total = 0 would
      make r^s zero and divide by it outside the guard. */
  predicate Defined(rates: seq<real>, mu: real, s: int)
  {
    mu > 0.0 && s >= 1 && AllNonNegative(rates) && Sum(rates) < Capacity(mu, s) ==> Sum(rates) != 0.0
  }

  /** The first class at or after k that fails the guard, or |rates| when
      every one passes. */
  function FirstRefused(rates: seq<real>, mu: real, s: nat, e: real, k: nat): (j: nat)
    requires mu != 0.0 && s >= 1 && k <= |rates|
    ensures k <= j <= |rates|
    ensures j < |rates| ==> !Admitted(rates, mu, s, e, j)
    decreases |rates| - k
  {
    if k == |rates| then k
    else if !Admitted(rates, mu, s, e, k) then k
    else FirstRefused(rates, mu, s, e, k + 1)
  }

  /** Every class between k and the first refused one passes the guard. */
  lemma {:induction false} FirstRefusedIsFirst(rates: seq<real>, mu: real, s: nat, e: real, k: nat)
    requires mu != 0.0 && s >= 1 && k <= |rates|
    ensures forall i :: k <= i < FirstRefused(rates, mu, s, e, k) ==> Admitted(rates, mu, s, e, i)
    decreases |rates| - k
  {
    if k < |rates| && Admitted(rates, mu, s, e, k) {
      FirstRefusedIsFirst(rates, mu, s, e, k + 1);
    }
  }

  /** Skipping classes that pass the guard does not move the first refusal. */
  lemma {:induction false} FirstRefusedSkips(rates: seq<real>, mu: real, s: nat, e: real, k: nat, i: nat)
    requires mu != 0.0 && s >= 1 && k <= i <= |rates|
    requires forall m :: k <= m < i ==> Admitted(rates, mu, s, e, m)
    ensures FirstRefused(rates, mu, s, e, k) == FirstRefused(rates, mu, s, e, i)
    decreases i - k
  {
    if k < i {
      FirstRefusedSkips(rates, mu, s, e, k + 1, i);
    }
  }

  /** One record per class, in input order. */
  function Entries(rates: seq<real>, mu: real, s: nat, e: real, rhoTotal: real): (r: seq<ClassMetrics>)
    requires mu != 0.0 && s >= 1
    requires forall i :: 0 <= i < |rates| ==> Admitted(rates, mu, s, e, i)
    ensures |r| == |rates|
  {
    seq(|rates|, i requires 0 <= i < |rates| =>
      assert Admitted(rates, mu, s, e, i);
      ClassOf(rates[i], mu, e, MMCNonPreemptive.UpperFactor(rates, mu, s, i),
              MMCNonPreemptive.LowerFactor(rates, mu, s, i), rhoTotal))
  }

  /** What the evaluator returns: the checks on μ, s, the rates and
      stability in that order, then the refusal of the first class failing
      the guard, or one record per class. */
  function Report(rates: seq<real>, mu: real, s: int): Result<seq<ClassMetrics>>
    requires Defined(rates, mu, s)
  {
    if mu <= 0.0 then Err(NonPositiveServiceRate)
    else if s <= 0 then Err(NonPositiveServers)
    else if !AllNonNegative(rates) then Err(NegativeArrivalRate)
    else if Sum(rates) >= Capacity(mu, s) then Err(Unstable)
    else
      Classes(rates, mu, s, MMCNonPreemptive.ErlangFactor(Sum(rates), mu, s), Sum(rates) / Capacity(mu, s))
  }

  /** The per-class part of the report, given the Erlang factor e and the
      total utilisation: the refusal of the first class failing the guard,
      or one record per class. */
  function Classes(rates: seq<real>, mu: real, s: nat, e: real, rhoTotal: real): Result<seq<ClassMetrics>>
    requires mu != 0.0 && s >= 1
  {
    var j := FirstRefused(rates, mu, s, e, 0);
    if j < |rates| then Err(InvalidDenominator(j + 1))
    else
      FirstRefusedIsFirst(rates, mu, s, e, 0);
      Ok(Entries(rates, mu, s, e, rhoTotal))
  }

  /** The evaluator: validates, computes the Erlang factor once and fills the
      records class by class, stopping at the first class that fails the
      guard. */
  method QueueMetrics(rates: seq<real>, mu: real, s: int) returns (r: Result<seq<ClassMetrics>>)
    requires Defined(rates, mu, s)
    ensures r == Report(rates, mu, s)
  {
    if mu <= 0.0 {
      return Err(NonPositiveServiceRate);
    }
    if s <= 0 {
      return Err(NonPositiveServers);
    }
    if !AllNonNegative(rates) {
      return Err(NegativeArrivalRate);
    }
    var total := Sum(rates);
    var capacity := Capacity(mu, s);
    var rho := total / capacity;
    if total >= capacity {
      return Err(Unstable);
    }
    var servers: nat := s;
    var termo := MMCNonPreemptive.ErlangFactor(total, mu, servers);
    r := ClassesLoop(rates, mu, servers, termo, rho);
  }

  /** The loop over the classes: the two running-load factors of each class,
      the guard, and its record. */
  method ClassesLoop(rates: seq<real>, mu: real, s: nat, termo: real, rho: real)
    returns (r: Result<seq<ClassMetrics>>)
    requires mu != 0.0 && s >= 1
    ensures r == Classes(rates, mu, s, termo, rho)
  {
    var results: seq<ClassMetrics> := [];
    for i := 0 to |rates|
      invariant |results| == i
      invariant forall k :: 0 <= k < i ==>
        && Admitted(rates, mu, s, termo, k)
        && results[k] == ClassOf(rates[k], mu, termo, MMCNonPreemptive.UpperFactor(rates, mu, s, k),
                              MMCNonPreemptive.LowerFactor(rates, mu, s, k), rho)
    {
      var termo2 := MMCNonPreemptive.UpperFactor(rates, mu, s, i);
      var termo3 := MMCNonPreemptive.LowerFactor(rates, mu, s, i);
      if termo <= 0.0 || termo2 <= 0.0 || termo3 <= 0.0 {
        FirstRefusedSkips(rates, mu, s, termo, 0, i);
        return Err(InvalidDenominator(i + 1));
      }
      results := results + [ClassOf(rates[i], mu, termo, termo2, termo3, rho)];
    }
    FirstRefusedSkips(rates, mu, s, termo, 0, |rates|);
    assert results == Entries(rates, mu, s, termo, rho);
    return Ok(results);
  }

  /** The validation errors come in the source's order, each exactly when
      every earlier check passes and its own fails. */
  lemma {:induction false} ValidationOrder(rates: seq<real>, mu: real, s: int)
    requires Defined(rates, mu, s)
    ensures Report(rates, mu, s) == Err(NonPositiveServiceRate) <==> mu <= 0.0
    ensures Report(rates, mu, s) == Err(NonPositiveServers) <==> mu > 0.0 && s <= 0
    ensures Report(rates, mu, s) == Err(NegativeArrivalRate) <==>
      mu > 0.0 && s >= 1 && exists i :: 0 <= i < |rates| && rates[i] < 0.0
    ensures Report(rates, mu, s) == Err(Unstable) <==>
      mu > 0.0 && s >= 1 && AllNonNegative(rates) && Sum(rates) >= Capacity(mu, s)
  {
  }

  /** Once the checks pass, the guard never fires: the Erlang factor exceeds
      sμ and both running-load factors of every class lie in (0, 1], so the
      evaluator always returns its records. */
  lemma {:induction false} NeverRefused(rates: seq<real>, mu: real, s: int)
    requires Defined(rates, mu, s)
    requires mu > 0.0 && s >= 1 && AllNonNegative(rates) && Sum(rates) < Capacity(mu, s)
    ensures Report(rates, mu, s).Ok?
  {
    var e := MMCNonPreemptive.ErlangFactor(Sum(rates), mu, s);
    SumNonNegative(rates);
    MMCNonPreemptive.ErlangFactorExceedsCapacity(Sum(rates), mu, s);
    forall i | 0 <= i < |rates|
      ensures Admitted(rates, mu, s, e, i)
    {
      MMCNonPreemptive.FactorBounds(rates, mu, s, i);
    }
    FirstRefusedSkips(rates, mu, s, e, 0, |rates|);
  }

  /** A record of this evaluator and the record MMCNonPreemptive builds from
      the same divisor agree in W, Wq, L and Lq. */
  lemma {:induction false} SameClassMetrics(lambda: real, mu: real, e: real, upper: real, lower: real, rhoTotal: real)
    requires mu != 0.0 && e > 0.0 && upper > 0.0 && lower > 0.0
    ensures MMCNonPreemptive.Divisor(e, upper, lower) != 0.0
    ensures var m := ClassOf(lambda, mu, e, upper, lower, rhoTotal);
      var n := MMCNonPreemptive.ClassOf(lambda, mu, MMCNonPreemptive.Divisor(e, upper, lower));
      m.w == n.w && m.wq == n.wq && m.l == n.l && m.lq == n.lq
  {
    PositiveDivisor(e, upper, lower);
    var d := MMCNonPreemptive.Divisor(e, upper, lower);
    assert ClassOf(lambda, mu, e, upper, lower, rhoTotal).wq == 1.0 / d;
    assert MMCNonPreemptive.ClassOf(lambda, mu, d).wq == 1.0 / d;
  }

  /** Record by record, for any factor e the guard admits, the entries agree
      with those of MMCNonPreemptive in W, Wq, L and Lq. */
  lemma {:induction false} SameEntries(rates: seq<real>, mu: real, s: nat, e: real, rhoTotal: real, i: nat)
    requires mu != 0.0 && s >= 1 && i < |rates|
    requires forall k :: 0 <= k < |rates| ==> Admitted(rates, mu, s, e, k)
    requires forall k :: 0 <= k < |rates| ==> MMCNonPreemptive.Product(rates, mu, s, e, k) != 0.0
    ensures var m := Entries(rates, mu, s, e, rhoTotal)[i];
      var n := MMCNonPreemptive.Entries(rates, mu, s, e)[i];
      m.w == n.w && m.wq == n.wq && m.l == n.l && m.lq == n.lq
  {
    var upper := MMCNonPreemptive.UpperFactor(rates, mu, s, i);
    var lower := MMCNonPreemptive.LowerFactor(rates, mu, s, i);
    assert Admitted(rates, mu, s, e, i);
    assert Entries(rates, mu, s, e, rhoTotal)[i] == ClassOf(rates[i], mu, e, upper, lower, rhoTotal);
    assert MMCNonPreemptive.Entries(rates, mu, s, e)[i]
        == MMCNonPreemptive.ClassOf(rates[i], mu, MMCNonPreemptive.Divisor(e, upper, lower));
    SameClassMetrics(rates[i], mu, e, upper, lower, rhoTotal);
  }

  /** On inputs that pass the checks both M/M/s evaluators without
      interruption report the same W, Wq, L and Lq for every class. */
  lemma {:induction false} AgreesWithNonPreemptive(rates: seq<real>, mu: real, s: int, i: nat)
    requires Defined(rates, mu, s)
    requires mu > 0.0 && s >= 1 && AllNonNegative(rates) && Sum(rates) < Capacity(mu, s)
    requires i < |rates|
    ensures MMCNonPreemptive.Defined(rates, mu, s)
    ensures (NeverRefused(rates, mu, s); SumNonNegative(rates); MMCNonPreemptive.NeverDividesByZero(rates, mu, s);
             var m := Report(rates, mu, s).value[i];
             var n := MMCNonPreemptive.Report(rates, mu, s).value[i];
             m.w == n.w && m.wq == n.wq && m.l == n.l && m.lq == n.lq)
  {
    NeverRefused(rates, mu, s);
    SumNonNegative(rates);
    MMCNonPreemptive.NeverDividesByZero(rates, mu, s);
    var e := MMCNonPreemptive.ErlangFactor(Sum(rates), mu, s);
    FirstRefusedIsFirst(rates, mu, s, e, 0);
    MMCNonPreemptive.FirstZeroIsFirst(rates, mu, s, e, 0);
    assert Report(rates, mu, s).value == Entries(rates, mu, s, e, Sum(rates) / Capacity(mu, s));
    assert MMCNonPreemptive.Report(rates, mu, s).value == MMCNonPreemptive.Entries(rates, mu, s, e);
    SameEntries(rates, mu, s, e, Sum(rates) / Capacity(mu, s), i);
  }

  /** Every record of a report is built by ClassOf from the class's own
      rate and factors, which pass the guard, and carries the same total
      utilisation Λ/(sμ), which lies in [0, 1). */
  lemma {:induction false} ReportEntries(rates: seq<real>, mu: real, s: int, i: nat)
    requires Defined(rates, mu, s) && Report(rates, mu, s).Ok? && i < |rates|
    ensures mu > 0.0 && s >= 1 && |Report(rates, mu, s).value| == |rates|
    ensures Admitted(rates, mu, s, MMCNonPreemptive.ErlangFactor(Sum(rates), mu, s), i)
    ensures Report(rates, mu, s).value[i]
         == ClassOf(rates[i], mu, MMCNonPreemptive.ErlangFactor(Sum(rates), mu, s),
                    MMCNonPreemptive.UpperFactor(rates, mu, s, i),
                    MMCNonPreemptive.LowerFactor(rates, mu, s, i), Sum(rates) / Capacity(mu, s))
    ensures 0.0 <= Report(rates, mu, s).value[i].rhoTotal < 1.0
  {
    var e := MMCNonPreemptive.ErlangFactor(Sum(rates), mu, s);
    var rho := Sum(rates) / Capacity(mu, s);
    FirstRefusedIsFirst(rates, mu, s, e, 0);
    assert Report(rates, mu, s).value == Entries(rates, mu, s, e, rho);
    assert Admitted(rates, mu, s, e, i);
    SumNonNegative(rates);
    MulPositive(s as real, mu);
    DivNonNegative(Sum(rates), Capacity(mu, s));
    DivLessThanOne(Sum(rates), Capacity(mu, s));
  }

  /** A lower-priority class never waits less than a higher one. */
  lemma {:induction false} WaitNondecreasing(rates: seq<real>, mu: real, s: int, i: nat, j: nat)
    requires Defined(rates, mu, s)
    requires mu > 0.0 && s >= 1 && AllNonNegative(rates) && Sum(rates) < Capacity(mu, s)
    requires i <= j < |rates|
    ensures (NeverRefused(rates, mu, s);
             Report(rates, mu, s).value[i].wq <= Report(rates, mu, s).value[j].wq)
  {
    NeverRefused(rates, mu, s);
    AgreesWithNonPreemptive(rates, mu, s, i);
    AgreesWithNonPreemptive(rates, mu, s, j);
    SumNonNegative(rates);
    MMCNonPreemptive.WaitNondecreasing(rates, mu, s, i, j);
  }
}
