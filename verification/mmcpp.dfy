/** The M/M/s evaluator with preemptive priority classes: s exponential
    servers at rate μ each; an arriving customer of a higher class interrupts
    a lower one in service. Classes are listed from the highest priority to
    the lowest. With one server the classical M/M/1 preemptive formulas are
    used. With several servers the top i + 1 classes are seen as one M/M/s
    queue with arrival rate Λ_i, and class i's time in the system is solved
    from the rate-weighted mean W̄_i of that aggregate:
    Λ_i W̄_i = Σ_{j<=i} λ_j W_j. Results are a sequence indexed by class
    position, so class k of the report is entry k - 1. */
module MMCPreemptive {
  import opened Numeric
  import opened Outcome
  import opened Priority
  import MMC
  import MM1Preemptive

  datatype Option<T> = None | Some(value: T)

  datatype ClassMetrics = ClassMetrics(
    w: real,   // mean time in the system
    wq: real,  // mean time waiting
    l: real,   // mean number in the system, counted with the cumulative rate Λ_i
    lq: real   // mean number waiting, counted with the cumulative rate Λ_i
  )

  /** Λ_i: the arrival rate of class i and of every class above it. */
  function Cumulative(rates: seq<real>, i: nat): real
    requires i < |rates|
  {
    Sum(rates[..i + 1])
  }

  /** Class i's record from its time in the system W: Wq = W - 1/μ,
      L = Λ_i W and Lq = L - Λ_i/μ, which is Λ_i Wq. */
  function ClassOf(upTo: real, mu: real, w: real): (m: ClassMetrics)
    requires mu != 0.0
    ensures m.w == w && m.w - m.wq == 1.0 / mu
    ensures m.l == upTo * m.w && m.lq == upTo * m.wq
  {
    var l := upTo * w;
    assert l - upTo / mu == upTo * (w - 1.0 / mu) by {
      assert upTo * (1.0 / mu) == upTo / mu;
    }
    ClassMetrics(w, w - 1.0 / mu, l, l - upTo / mu)
  }

  /** Λ/(sμ) >= 1 exactly when Λ >= sμ, for a positive capacity. */
  lemma {:induction false} RatioAtLeastOne(total: real, capacity: real)
    requires capacity > 0.0
    ensures total / capacity >= 1.0 <==> total >= capacity
  {
    DivCancel(total, capacity);
    if total / capacity >= 1.0 {
      MulNonNegative(total / capacity - 1.0, capacity);
    } else {
      MulPositive(1.0 - total / capacity, capacity);
    }
  }

  // ---------------------------------------------------------------------
  // One server
  // ---------------------------------------------------------------------

  /** The first class at or after k whose M/M/1 preemptive denominator
      (1 - Λ_{i-1}/μ)(1 - Λ_i/μ) is not positive, or |rates| if there is
      none. */
  function FirstBadDenominator(rates: seq<real>, mu: real, k: nat): (j: nat)
    requires mu != 0.0 && k <= |rates|
    ensures k <= j <= |rates|
    ensures j < |rates| ==> MM1Preemptive.Denominator(rates, mu, j) <= 0.0
    decreases |rates| - k
  {
    if k == |rates| then k
    else if MM1Preemptive.Denominator(rates, mu, k) <= 0.0 then k
    else FirstBadDenominator(rates, mu, k + 1)
  }

  /** Every class between k and the first bad denominator has a positive one. */
  lemma {:induction false} FirstBadIsFirst(rates: seq<real>, mu: real, k: nat)
    requires mu != 0.0 && k <= |rates|
    ensures forall i :: k <= i < FirstBadDenominator(rates, mu, k) ==> MM1Preemptive.Denominator(rates, mu, i) > 0.0
    decreases |rates| - k
  {
    if k < |rates| && MM1Preemptive.Denominator(rates, mu, k) > 0.0 {
      FirstBadIsFirst(rates, mu, k + 1);
    }
  }

  /** Skipping classes with positive denominators does not move the first
      bad one. */
  lemma {:induction false} FirstBadSkips(rates: seq<real>, mu: real, k: nat, i: nat)
    requires mu != 0.0 && k <= i <= |rates|
    requires forall m :: k <= m < i ==> MM1Preemptive.Denominator(rates, mu, m) > 0.0
    ensures FirstBadDenominator(rates, mu, k) == FirstBadDenominator(rates, mu, i)
    decreases i - k
  {
    if k < i {
      FirstBadSkips(rates, mu, k + 1, i);
    }
  }

  /** The one-server records: W = (1/μ)/((1 - Λ_{i-1}/μ)(1 - Λ_i/μ)). */
  function OneServerEntries(rates: seq<real>, mu: real): (r: seq<ClassMetrics>)
    requires mu != 0.0
    requires forall i :: 0 <= i < |rates| ==> MM1Preemptive.Denominator(rates, mu, i) > 0.0
    ensures |r| == |rates|
  {
    seq(|rates|, i requires 0 <= i < |rates| =>
      ClassOf(Cumulative(rates, i), mu, (1.0 / mu) / MM1Preemptive.Denominator(rates, mu, i)))
  }

  /** The one-server branch: the refusal of the first class with a
      nonpositive denominator, or one record per class. */
  function OneServer(rates: seq<real>, mu: real): Result<seq<ClassMetrics>>
    requires mu != 0.0
  {
    var j := FirstBadDenominator(rates, mu, 0);
    if j < |rates| then Err(InvalidDenominator(j + 1))
    else
      FirstBadIsFirst(rates, mu, 0);
      Ok(OneServerEntries(rates, mu))
  }

  // ---------------------------------------------------------------------
  // Several servers
  // ---------------------------------------------------------------------

  /** The last term (a^s/s!) · sμ/(sμ - λ) of the waiting probability, with
      a = λ/μ; it is computed before the sign of sμ - λ is looked at. */
  function LastTerm(lambda: real, mu: real, s: nat): real
    requires mu != 0.0 && Capacity(mu, s) != lambda
  {
    Pow(lambda / mu, s) / (Fact(s) as real) * Capacity(mu, s) / (Capacity(mu, s) - lambda)
  }

  /** Below capacity the last term is nonnegative. */
  lemma {:induction false} LastTermNonNegative(lambda: real, mu: real, s: nat)
    requires mu > 0.0 && lambda >= 0.0 && s >= 1 && lambda < Capacity(mu, s)
    ensures LastTerm(lambda, mu, s) >= 0.0
  {
    var a := lambda / mu;
    DivNonNegative(lambda, mu);
    PowNonNegative(a, s);
    DivNonNegative(Pow(a, s), Fact(s) as real);
    MulPositive(s as real, mu);
    MulNonNegative(Pow(a, s) / (Fact(s) as real), Capacity(mu, s));
    DivNonNegative(Pow(a, s) / (Fact(s) as real) * Capacity(mu, s), Capacity(mu, s) - lambda);
  }

  /** The Erlang-C waiting probability of an M/M/s queue with arrival rate
      λ: last/(Σ_{k<s} a^k/k! + last), or nothing when λ >= sμ. */
  function Pw(lambda: real, mu: real, s: nat): Option<real>
    requires mu > 0.0 && lambda >= 0.0 && s >= 1 && Capacity(mu, s) != lambda
  {
    var sumTerms := MMC.ErlangSum(lambda / mu, s);
    var lastTerm := LastTerm(lambda, mu, s);
    if Capacity(mu, s) - lambda <= 0.0 then None
    else
      DivNonNegative(lambda, mu);
      MMC.ErlangSumAtLeastOne(lambda / mu, s);
      LastTermNonNegative(lambda, mu, s);
      Some(lastTerm / (sumTerms + lastTerm))
  }

  /** The waiting probability exists exactly below capacity, and it is then
      a probability short of 1. */
  lemma {:induction false} PwCases(lambda: real, mu: real, s: nat)
    requires mu > 0.0 && lambda >= 0.0 && s >= 1 && Capacity(mu, s) != lambda
    ensures Pw(lambda, mu, s).Some? <==> lambda < Capacity(mu, s)
    ensures Pw(lambda, mu, s).Some? ==> 0.0 <= Pw(lambda, mu, s).value < 1.0
  {
    if lambda < Capacity(mu, s) {
      var sumTerms := MMC.ErlangSum(lambda / mu, s);
      var lastTerm := LastTerm(lambda, mu, s);
      DivNonNegative(lambda, mu);
      MMC.ErlangSumAtLeastOne(lambda / mu, s);
      LastTermNonNegative(lambda, mu, s);
      DivNonNegative(lastTerm, sumTerms + lastTerm);
      DivLessThanOne(lastTerm, sumTerms + lastTerm);
    }
  }

  /** W̄_i = Pw/(sμ - Λ_i) + 1/μ: the mean time in the system of the
      aggregate of the top i + 1 classes. */
  function MeanWait(rates: seq<real>, mu: real, s: nat, pw: real, i: nat): real
    requires mu != 0.0 && i < |rates| && Capacity(mu, s) != Cumulative(rates, i)
  {
    pw / (Capacity(mu, s) - Cumulative(rates, i)) + 1.0 / mu
  }

  /** Σ_{j<n} λ_j W_j: the rate-weighted times in the system of the first n
      classes. */
  function Weighted(rates: seq<real>, ws: seq<real>, n: nat): real
    requires n <= |rates| && n <= |ws|
  {
    if n == 0 then 0.0 else Weighted(rates, ws, n - 1) + rates[n - 1] * ws[n - 1]
  }

  /** Class i's time in the system, solved from Λ_i W̄_i = Σ_{j<i} λ_j W_j +
      λ_i W_i; the first class takes W̄ itself and a class with λ_i = 0 is
      given 0. */
  function NextWait(rates: seq<real>, ws: seq<real>, i: nat, meanWait: real): real
    requires i < |rates| && i <= |ws|
  {
    if i == 0 then meanWait
    else if rates[i] == 0.0 then 0.0
    else (Cumulative(rates, i) * meanWait - Weighted(rates, ws, i)) / rates[i]
  }

  /** The running rates the several-server branch evaluates Pw at: each is
      nonnegative and none equals the capacity. */
  predicate Evaluable(rates: seq<real>, mu: real, s: nat, n: nat)
    requires n <= |rates|
  {
    forall k :: 0 <= k < n ==> Cumulative(rates, k) >= 0.0 && Cumulative(rates, k) != Capacity(mu, s)
  }

  /** The times in the system of the first n classes, or the refusal of the
      first class whose waiting probability does not exist. */
  function Waits(rates: seq<real>, mu: real, s: nat, n: nat): (r: Result<seq<real>>)
    requires mu > 0.0 && s >= 2 && n <= |rates| && Evaluable(rates, mu, s, n)
    ensures r.Ok? ==> |r.value| == n
  {
    if n == 0 then Ok([])
    else
      match Waits(rates, mu, s, n - 1)
      case Err(e) => Err(e)
      case Ok(ws) =>
        match Pw(Cumulative(rates, n - 1), mu, s)
        case None => Err(WaitProbabilityUndefined(n))
        case Some(p) => Ok(ws + [NextWait(rates, ws, n - 1, MeanWait(rates, mu, s, p, n - 1))])
  }

  /** The several-server records, one per computed time in the system. */
  function ManyEntries(rates: seq<real>, mu: real, ws: seq<real>): (r: seq<ClassMetrics>)
    requires mu != 0.0 && |ws| <= |rates|
    ensures |r| == |ws|
  {
    seq(|ws|, i requires 0 <= i < |ws| => ClassOf(Cumulative(rates, i), mu, ws[i]))
  }

  /** With nonnegative rates below capacity every running rate is
      nonnegative and below capacity. */
  lemma {:induction false} RunningRatesBelowCapacity(rates: seq<real>, mu: real, s: nat)
    requires AllNonNegative(rates) && Sum(rates) < Capacity(mu, s)
    ensures forall k :: 0 <= k < |rates| ==> 0.0 <= Cumulative(rates, k) < Capacity(mu, s)
  {
    forall k | 0 <= k < |rates|
      ensures 0.0 <= Cumulative(rates, k) < Capacity(mu, s)
    {
      RunningTotals(rates, k + 1, |rates|);
    }
  }

  /** The several-server branch. */
  function ManyServers(rates: seq<real>, mu: real, s: nat): Result<seq<ClassMetrics>>
    requires AllNonNegative(rates) && mu > 0.0 && s >= 2 && Sum(rates) < Capacity(mu, s)
  {
    RunningRatesBelowCapacity(rates, mu, s);
    match Waits(rates, mu, s, |rates|)
    case Err(e) => Err(e)
    case Ok(ws) => Ok(ManyEntries(rates, mu, ws))
  }

  /** What the evaluator returns: the checks on μ, s, the rates and
      stability in that order, then the one-server or the several-server
      branch. */
  function Report(rates: seq<real>, mu: real, s: int): Result<seq<ClassMetrics>>
  {
    if mu <= 0.0 then Err(NonPositiveServiceRate)
    else if s <= 0 then Err(NonPositiveServers)
    else if !AllNonNegative(rates) then Err(NegativeArrivalRate)
    else if Sum(rates) / Capacity(mu, s) >= 1.0 then Err(Unstable)
    else if s == 1 then OneServer(rates, mu)
    else
      MulPositive(s as real, mu);
      RatioAtLeastOne(Sum(rates), Capacity(mu, s));
      ManyServers(rates, mu, s)
  }

  /** Once a class is refused, the refusal is what every longer run of the
      several-server loop returns. */
  lemma {:induction false} WaitsErrPersists(rates: seq<real>, mu: real, s: nat, n: nat, m: nat)
    requires mu > 0.0 && s >= 2 && n <= m <= |rates| && Evaluable(rates, mu, s, m)
    requires Waits(rates, mu, s, n).Err?
    ensures Waits(rates, mu, s, m) == Waits(rates, mu, s, n)
    decreases m - n
  {
    if n < m {
      WaitsErrPersists(rates, mu, s, n, m - 1);
    }
  }

  /** With nonnegative rates below capacity the several-server branch can
      evaluate Pw at every running rate. */
  lemma {:induction false} RunningRatesEvaluable(rates: seq<real>, mu: real, s: nat)
    requires AllNonNegative(rates) && Sum(rates) < Capacity(mu, s)
    ensures Evaluable(rates, mu, s, |rates|)
  {
    RunningRatesBelowCapacity(rates, mu, s);
  }

  /** One more class: the loop appends the time solved from the class's
      waiting probability. */
  lemma {:induction false} WaitsStep(rates: seq<real>, mu: real, s: nat, i: nat, ws: seq<real>, p: real)
    requires mu > 0.0 && s >= 2 && i < |rates| && Evaluable(rates, mu, s, i + 1)
    requires Waits(rates, mu, s, i) == Ok(ws) && Pw(Cumulative(rates, i), mu, s) == Some(p)
    ensures Waits(rates, mu, s, i + 1) == Ok(ws + [NextWait(rates, ws, i, MeanWait(rates, mu, s, p, i))])
  {
  }

  /** The evaluator: validates, then runs the one-server loop or the
      several-server loop. */
  method QueueMetrics(rates: seq<real>, mu: real, s: int) returns (r: Result<seq<ClassMetrics>>)
    ensures r == Report(rates, mu, s)
  {
    if mu <= 0.0 {
      return Err(NonPositiveServiceRate);
    }
    if s <= 0 {
      return Err(NonPositiveServers);
    }
    if !AllNonNegative(rates) {
      return Err(NegativeArrivalRate);
    }
    var total := Sum(rates);
    var capacity := Capacity(mu, s);
    var rho := total / capacity;
    if rho >= 1.0 {
      return Err(Unstable);
    }
    if s == 1 {
      r := OneServerLoop(rates, mu);
    } else {
      MulPositive(s as real, mu);
      RatioAtLeastOne(total, capacity);
      r := ManyServersLoop(rates, mu, s);
    }
  }

  /** The one-server loop, stopping at the first nonpositive denominator. */
  method OneServerLoop(rates: seq<real>, mu: real) returns (r: Result<seq<ClassMetrics>>)
    requires mu != 0.0
    ensures r == OneServer(rates, mu)
  {
    var results: seq<ClassMetrics> := [];
    for i := 0 to |rates|
      invariant |results| == i
      invariant forall k :: 0 <= k < i ==>
        && MM1Preemptive.Denominator(rates, mu, k) > 0.0
        && results[k] == ClassOf(Cumulative(rates, k), mu, (1.0 / mu) / MM1Preemptive.Denominator(rates, mu, k))
    {
      var upTo := Cumulative(rates, i);
      var denom := MM1Preemptive.Denominator(rates, mu, i);
      if denom <= 0.0 {
        FirstBadSkips(rates, mu, 0, i);
        return Err(InvalidDenominator(i + 1));
      }
      var w := (1.0 / mu) / denom;
      results := results + [ClassOf(upTo, mu, w)];
    }
    FirstBadSkips(rates, mu, 0, |rates|);
    assert results == OneServerEntries(rates, mu);
    return Ok(results);
  }

  /** The several-server loop, which keeps the times in the system of the
      classes already done and stops at the first class without a waiting
      probability. */
  method ManyServersLoop(rates: seq<real>, mu: real, s: nat) returns (r: Result<seq<ClassMetrics>>)
    requires AllNonNegative(rates) && mu > 0.0 && s >= 2 && Sum(rates) < Capacity(mu, s)
    ensures r == ManyServers(rates, mu, s)
  {
    RunningRatesEvaluable(rates, mu, s);
    var capacity := Capacity(mu, s);
    var results: seq<ClassMetrics> := [];
    var ws: seq<real> := [];
    for i := 0 to |rates|
      invariant Waits(rates, mu, s, i) == Ok(ws)
      invariant |results| == i
      invariant forall k :: 0 <= k < i ==> results[k] == ClassOf(Cumulative(rates, k), mu, ws[k])
    {
      var upTo := Cumulative(rates, i);
      var pwBar := Pw(upTo, mu, s);
      if pwBar.None? {
        WaitsErrPersists(rates, mu, s, i + 1, |rates|);
        return Err(WaitProbabilityUndefined(i + 1));
      }
      var wBar := pwBar.value / (capacity - upTo) + 1.0 / mu;
      var w := NextWait(rates, ws, i, wBar);
      WaitsStep(rates, mu, s, i, ws, pwBar.value);
      ws := ws + [w];
      results := results + [ClassOf(upTo, mu, w)];
    }
    assert results == ManyEntries(rates, mu, ws);
    return Ok(results);
  }

  // ---------------------------------------------------------------------
  // Properties
  // ---------------------------------------------------------------------

  /** The validation errors come in the source's order, each exactly when
      every earlier check passes and its own fails; the instability test on
      the ratio Λ/(sμ) is the test Λ >= sμ. */
  lemma {:induction false} ValidationOrder(rates: seq<real>, mu: real, s: int)
    ensures Report(rates, mu, s) == Err(NonPositiveServiceRate) <==> mu <= 0.0
    ensures Report(rates, mu, s) == Err(NonPositiveServers) <==> mu > 0.0 && s <= 0
    ensures Report(rates, mu, s) == Err(NegativeArrivalRate) <==>
      mu > 0.0 && s >= 1 && exists i :: 0 <= i < |rates| && rates[i] < 0.0
    ensures Report(rates, mu, s) == Err(Unstable) <==>
      mu > 0.0 && s >= 1 && AllNonNegative(rates) && Sum(rates) >= Capacity(mu, s)
  {
    if mu > 0.0 && s >= 1 {
      MulPositive(s as real, mu);
      RatioAtLeastOne(Sum(rates), Capacity(mu, s));
      if AllNonNegative(rates) && Sum(rates) < Capacity(mu, s) {
        StableRefusals(rates, mu, s);
      }
    }
  }

  /** Once the checks pass, the only refusals left are those of a single
      class: a nonpositive denominator or a missing waiting probability. */
  lemma {:induction false} StableRefusals(rates: seq<real>, mu: real, s: int)
    requires mu > 0.0 && s >= 1 && AllNonNegative(rates) && Sum(rates) < Capacity(mu, s)
    ensures Report(rates, mu, s).Err? ==>
      Report(rates, mu, s).error.InvalidDenominator? || Report(rates, mu, s).error.WaitProbabilityUndefined?
  {
    MulPositive(s as real, mu);
    RatioAtLeastOne(Sum(rates), Capacity(mu, s));
    if s >= 2 {
      var servers: nat := s;
      RunningRatesEvaluable(rates, mu, servers);
      WaitsRefuseOnlyClasses(rates, mu, servers, |rates|);
    }
  }

  /** The several-server loop only ever refuses a class for its waiting
      probability. */
  lemma {:induction false} WaitsRefuseOnlyClasses(rates: seq<real>, mu: real, s: nat, n: nat)
    requires mu > 0.0 && s >= 2 && n <= |rates| && Evaluable(rates, mu, s, n)
    ensures Waits(rates, mu, s, n).Err? ==> Waits(rates, mu, s, n).error.WaitProbabilityUndefined?
  {
    if n > 0 {
      WaitsRefuseOnlyClasses(rates, mu, s, n - 1);
    }
  }

  /** A one-server record and the M/M/1 preemptive record of the same class
      agree in W, Wq, L and Lq. */
  lemma {:induction false} SameAsMM1(rates: seq<real>, mu: real, rhoTotal: real, i: nat)
    requires mu != 0.0 && i < |rates| && MM1Preemptive.Denominator(rates, mu, i) != 0.0
    ensures var m := ClassOf(Cumulative(rates, i), mu, (1.0 / mu) / MM1Preemptive.Denominator(rates, mu, i));
      var n := MM1Preemptive.ClassOf(rates, mu, rhoTotal, i);
      m.w == n.w && m.wq == n.wq && m.l == n.l && m.lq == n.lq
  {
  }

  /** With one server and inputs that pass the checks, the evaluator returns
      the records of the M/M/1 preemptive evaluator: the same W, Wq, L and Lq
      for every class. */
  lemma {:induction false} OneServerIsMM1(rates: seq<real>, mu: real, i: nat)
    requires mu > 0.0 && AllNonNegative(rates) && Sum(rates) < Capacity(mu, 1) && i < |rates|
    ensures Report(rates, mu, 1).Ok? && |Report(rates, mu, 1).value| == |rates|
    ensures (MM1Preemptive.StableIsAdmissible(rates, mu);
             var m := Report(rates, mu, 1).value[i];
             var n := MM1Preemptive.MetricsOf(rates, mu)[i];
             m.w == n.w && m.wq == n.wq && m.l == n.l && m.lq == n.lq)
  {
    MM1Preemptive.StableIsAdmissible(rates, mu);
    OneServerOk(rates, mu);
    var rhoTotal := Sum(Scale(rates, mu));
    assert MM1Preemptive.MetricsOf(rates, mu)[i] == MM1Preemptive.ClassOf(rates, mu, rhoTotal, i);
    assert Report(rates, mu, 1).value[i]
        == ClassOf(Cumulative(rates, i), mu, (1.0 / mu) / MM1Preemptive.Denominator(rates, mu, i));
    SameAsMM1(rates, mu, rhoTotal, i);
  }

  /** With one server and inputs that pass the checks no denominator is
      refused: the report is the one-server records. */
  lemma {:induction false} OneServerOk(rates: seq<real>, mu: real)
    requires mu > 0.0 && AllNonNegative(rates) && Sum(rates) < Capacity(mu, 1)
    ensures Sum(rates) / mu < 1.0
    ensures forall k :: 0 <= k < |rates| ==> MM1Preemptive.Denominator(rates, mu, k) > 0.0
    ensures Report(rates, mu, 1) == Ok(OneServerEntries(rates, mu))
  {
    assert Capacity(mu, 1) == mu;
    RatioAtLeastOne(Sum(rates), mu);
    DivLessThanOne(Sum(rates), mu);
    forall k | 0 <= k < |rates|
      ensures MM1Preemptive.Denominator(rates, mu, k) > 0.0
    {
      MM1Preemptive.DenominatorBounds(rates, mu, k, k);
    }
    FirstBadSkips(rates, mu, 0, |rates|);
  }

  /** With several servers and inputs that pass the checks, every class's
      waiting probability exists: the evaluator returns one record per
      class. */
  lemma {:induction false} NeverUndefined(rates: seq<real>, mu: real, s: int)
    requires mu > 0.0 && s >= 2 && AllNonNegative(rates) && Sum(rates) < Capacity(mu, s)
    ensures Report(rates, mu, s).Ok? && |Report(rates, mu, s).value| == |rates|
  {
    var servers: nat := s;
    MulPositive(s as real, mu);
    RatioAtLeastOne(Sum(rates), Capacity(mu, s));
    RunningRatesBelowCapacity(rates, mu, servers);
    WaitsOk(rates, mu, servers, |rates|);
  }

  /** Below capacity the several-server loop refuses no class. */
  lemma {:induction false} WaitsOk(rates: seq<real>, mu: real, s: nat, n: nat)
    requires mu > 0.0 && s >= 2 && n <= |rates|
    requires forall k :: 0 <= k < |rates| ==> 0.0 <= Cumulative(rates, k) < Capacity(mu, s)
    ensures Evaluable(rates, mu, s, n) && Waits(rates, mu, s, n).Ok?
  {
    if n > 0 {
      WaitsOk(rates, mu, s, n - 1);
      PwCases(Cumulative(rates, n - 1), mu, s);
    }
  }

  /** The times of a shorter run are a prefix of those of a longer one. */
  lemma {:induction false} WaitsPrefix(rates: seq<real>, mu: real, s: nat, m: nat, n: nat)
    requires mu > 0.0 && s >= 2 && m <= n <= |rates| && Evaluable(rates, mu, s, n)
    requires Waits(rates, mu, s, n).Ok?
    ensures Waits(rates, mu, s, m).Ok? && Waits(rates, mu, s, m).value == Waits(rates, mu, s, n).value[..m]
    decreases n - m
  {
    if m < n {
      WaitsPrefix(rates, mu, s, m, n - 1);
      var longer := Waits(rates, mu, s, n).value;
      assert longer[..n - 1][..m] == longer[..m];
    } else {
      assert Waits(rates, mu, s, n).value[..n] == Waits(rates, mu, s, n).value;
    }
  }

  /** The weighted sum of the first n classes reads only their own times. */
  lemma {:induction false} WeightedPrefix(rates: seq<real>, ws: seq<real>, vs: seq<real>, n: nat)
    requires n <= |rates| && n <= |ws| && n <= |vs| && ws[..n] == vs[..n]
    ensures Weighted(rates, ws, n) == Weighted(rates, vs, n)
  {
    if n > 0 {
      assert ws[n - 1] == ws[..n][n - 1] == vs[..n][n - 1] == vs[n - 1];
      assert ws[..n - 1] == ws[..n][..n - 1];
      assert vs[..n - 1] == vs[..n][..n - 1];
      WeightedPrefix(rates, ws, vs, n - 1);
    }
  }

  /** Solving prior + λ x = Λ W̄ for x and multiplying back gives Λ W̄. */
  lemma {:induction false} BackSolve(x: real, lambda: real, upTo: real, meanWait: real, prior: real)
    requires lambda != 0.0 && x == (upTo * meanWait - prior) / lambda
    ensures prior + lambda * x == upTo * meanWait
  {
    DivCancel(upTo * meanWait - prior, lambda);
  }

  /** One step of the back-solve: appending class i's solved time makes the
      rate-weighted times of classes 0..i add up to Λ_i W̄_i, unless class
      i > 0 has no arrivals, in which case its time is 0. */
  lemma {:induction false} BackSolveStep(rates: seq<real>, before: seq<real>, i: nat, meanWait: real)
    requires i < |rates| && |before| == i
    ensures var w := NextWait(rates, before, i, meanWait);
      && ((i == 0 || rates[i] != 0.0) ==> Weighted(rates, before + [w], i + 1) == Cumulative(rates, i) * meanWait)
      && (i > 0 && rates[i] == 0.0 ==> w == 0.0)
  {
    var w := NextWait(rates, before, i, meanWait);
    var after := before + [w];
    assert after[..i] == before[..i];
    WeightedPrefix(rates, after, before, i);
    assert Weighted(rates, after, i + 1) == Weighted(rates, before, i) + rates[i] * w;
    if i == 0 {
      assert rates[..1] == [rates[0]];
      SumOne(rates[0]);
    } else if rates[i] != 0.0 {
      BackSolve(w, rates[i], Cumulative(rates, i), meanWait, Weighted(rates, before, i));
    }
  }

  /** Every class the several-server loop computes has a waiting
      probability, and the mean time W̄_i of the top i + 1 classes is at
      least the service time 1/μ. */
  lemma {:induction false} MeanWaitAtLeastService(rates: seq<real>, mu: real, s: nat, n: nat, i: nat)
    requires mu > 0.0 && s >= 2 && n <= |rates| && Evaluable(rates, mu, s, n)
    requires Waits(rates, mu, s, n).Ok? && i < n
    ensures Pw(Cumulative(rates, i), mu, s).Some?
    ensures MeanWait(rates, mu, s, Pw(Cumulative(rates, i), mu, s).value, i) >= 1.0 / mu
  {
    WaitsPrefix(rates, mu, s, i + 1, n);
    var pw := Pw(Cumulative(rates, i), mu, s);
    assert pw.Some?;
    PwCases(Cumulative(rates, i), mu, s);
    MeanWaitBound(pw.value, Capacity(mu, s) - Cumulative(rates, i), mu);
  }

  /** Class i's time in the system, inside a longer run of the several-server
      loop, is the one solved from the times before it and W̄_i. */
  lemma {:induction false} WaitsAt(rates: seq<real>, mu: real, s: nat, n: nat, i: nat)
    requires mu > 0.0 && s >= 2 && n <= |rates| && Evaluable(rates, mu, s, n)
    requires Waits(rates, mu, s, n).Ok? && i < n
    ensures Waits(rates, mu, s, i).Ok? && Pw(Cumulative(rates, i), mu, s).Some?
    ensures var before := Waits(rates, mu, s, i).value;
      Waits(rates, mu, s, n).value[..i + 1]
      == before + [NextWait(rates, before, i, MeanWait(rates, mu, s, Pw(Cumulative(rates, i), mu, s).value, i))]
  {
    WaitsPrefix(rates, mu, s, i + 1, n);
    WaitsPrefix(rates, mu, s, i, n);
  }

  /** The conservation law the several-server loop is built on: for every
      class i it computes, with W̄_i the aggregate M/M/s time of the top
      i + 1 classes, the rate-weighted times of classes 0..i add up to
      Λ_i W̄_i unless class i > 0 has no arrivals; such a class is given
      W = 0, and the first class is given W̄_1 itself. */
  lemma {:induction false} Conservation(rates: seq<real>, mu: real, s: nat, n: nat, i: nat, ws: seq<real>, pw: real, meanWait: real)
    requires mu > 0.0 && s >= 2 && n <= |rates| && Evaluable(rates, mu, s, n)
    requires Waits(rates, mu, s, n) == Ok(ws) && i < n
    requires Pw(Cumulative(rates, i), mu, s) == Some(pw) && meanWait == MeanWait(rates, mu, s, pw, i)
    ensures (i == 0 || rates[i] != 0.0) ==> Weighted(rates, ws, i + 1) == Cumulative(rates, i) * meanWait
    ensures i > 0 && rates[i] == 0.0 ==> ws[i] == 0.0
    ensures i == 0 ==> ws[0] == meanWait
  {
    WaitsAt(rates, mu, s, n, i);
    BackSolveWithin(rates, ws, Waits(rates, mu, s, i).value, i, meanWait);
  }

  /** The back-solve step read inside a longer run whose first i + 1 times
      are the earlier times followed by class i's solved time. */
  lemma {:induction false} BackSolveWithin(rates: seq<real>, ws: seq<real>, before: seq<real>, i: nat, meanWait: real)
    requires i < |rates| && i < |ws| && |before| == i
    requires ws[..i + 1] == before + [NextWait(rates, before, i, meanWait)]
    ensures (i == 0 || rates[i] != 0.0) ==> Weighted(rates, ws, i + 1) == Cumulative(rates, i) * meanWait
    ensures i > 0 && rates[i] == 0.0 ==> ws[i] == 0.0
    ensures i == 0 ==> ws[0] == meanWait
  {
    var w := NextWait(rates, before, i, meanWait);
    assert ws[i] == w by {
      assert ws[i] == ws[..i + 1][i];
    }
    assert (before + [w])[..i + 1] == before + [w];
    WeightedPrefix(rates, ws, before + [w], i + 1);
    BackSolveStep(rates, before, i, meanWait);
  }

  /** Pw/(sμ - Λ) + 1/μ >= 1/μ for a nonnegative Pw and a positive gap. */
  lemma {:induction false} MeanWaitBound(pw: real, gap: real, mu: real)
    requires pw >= 0.0 && gap > 0.0 && mu != 0.0
    ensures pw / gap + 1.0 / mu >= 1.0 / mu
  {
    DivNonNegative(pw, gap);
  }
}
