/** The M/M/s evaluator with non-preemptive priority classes: s exponential
    servers at rate μ each, shared by classes listed from the highest priority
    to the lowest. A customer in service is never interrupted. Every class's
    waiting time divides one by an Erlang factor common to all classes and by
    the two running-load factors of the class. Results are a sequence indexed
    by class position, so class k of the report is entry k - 1. */
module MMCNonPreemptive {
  import opened Numeric
  import opened Outcome
  import opened Priority
  import MMC

  datatype ClassMetrics = ClassMetrics(
    lambda: real,  // the class's arrival rate
    w: real,       // mean time in the system
    wq: real,      // mean time waiting
    lq: real,      // mean number waiting
    l: real        // mean number in the system
  )

  /** The class-independent factor s!(sμ - Λ)/r^s · Σ_{j<s} r^j/j! + sμ,
      with Λ the total arrival rate and r = Λ/μ. */
  function ErlangFactor(total: real, mu: real, s: nat): real
    requires mu != 0.0 && total != 0.0
  {
    PowNonZero(total / mu, s);
    (Fact(s) as real) * (Capacity(mu, s) - total) / Pow(total / mu, s) * MMC.ErlangSum(total / mu, s)
      + Capacity(mu, s)
  }

  /** 1 - Λ_{i-1}/(sμ): the share of capacity left by the classes above i. */
  function UpperFactor(rates: seq<real>, mu: real, s: nat, i: nat): real
    requires mu != 0.0 && s >= 1 && i < |rates|
  {
    1.0 - Before(rates, i) / Capacity(mu, s)
  }

  /** 1 - Λ_i/(sμ): the share of capacity left by class i and those above. */
  function LowerFactor(rates: seq<real>, mu: real, s: nat, i: nat): real
    requires mu != 0.0 && s >= 1 && i < |rates|
  {
    1.0 - Sum(rates[..i + 1]) / Capacity(mu, s)
  }

  /** termo1 · termo2 · termo3, multiplied left to right. */
  function Divisor(e: real, upper: real, lower: real): real
  {
    Partial(e, upper) * lower
  }

  /** termo1 · termo2, the first of the two multiplications. */
  function Partial(e: real, upper: real): real
  {
    e * upper
  }

  /** The divisor of class i's waiting time: the Erlang factor e times the
      two running-load factors. */
  function Product(rates: seq<real>, mu: real, s: nat, e: real, i: nat): real
    requires mu != 0.0 && s >= 1 && i < |rates|
  {
    Divisor(e, UpperFactor(rates, mu, s, i), LowerFactor(rates, mu, s, i))
  }

  /** Class i's record: Wq is the reciprocal of its divisor, W = Wq + 1/μ,
      Lq = λ Wq and L = λ W. */
  function ClassOf(lambda: real, mu: real, product: real): (m: ClassMetrics)
    requires mu != 0.0 && product != 0.0
    ensures m.lambda == lambda && m.wq * product == 1.0
    ensures m.w - m.wq == 1.0 / mu && m.lq == lambda * m.wq && m.l == lambda * m.w
    ensures m.l - m.lq == lambda / mu
  {
    var wq := 1.0 / product;
    var w := wq + 1.0 / mu;
    assert lambda * w - lambda * wq == lambda * (1.0 / mu);
    ClassMetrics(lambda, w, wq, lambda * wq, lambda * w)
  }

  /** λ_total < sμ: the only check the source makes before computing. */
  predicate Stable(rates: seq<real>, mu: real, s: int)
  {
    Sum(rates) < Capacity(mu, s)
  }

  /** The inputs the source computes on without an uncaught exception: μ is
      a divisor from the start, and a stable system with s < 1 servers or
      with λ_total = 0 (so r^s = 0) divides by zero outside the guarded
      division. */
  predicate Defined(rates: seq<real>, mu: real, s: int)
  {
    mu != 0.0 && (Stable(rates, mu, s) ==> s >= 1 && Sum(rates) != 0.0)
  }

  /** The first class at or after k whose divisor is zero, or |rates| when
      there is none. */
  function FirstZero(rates: seq<real>, mu: real, s: nat, e: real, k: nat): (j: nat)
    requires mu != 0.0 && s >= 1 && k <= |rates|
    ensures k <= j <= |rates|
    ensures j < |rates| ==> Product(rates, mu, s, e, j) == 0.0
    decreases |rates| - k
  {
    if k == |rates| then k
    else if Product(rates, mu, s, e, k) == 0.0 then k
    else FirstZero(rates, mu, s, e, k + 1)
  }

  /** Every class between k and the first zero divisor has a nonzero one. */
  lemma {:induction false} FirstZeroIsFirst(rates: seq<real>, mu: real, s: nat, e: real, k: nat)
    requires mu != 0.0 && s >= 1 && k <= |rates|
    ensures forall i :: k <= i < FirstZero(rates, mu, s, e, k) ==> Product(rates, mu, s, e, i) != 0.0
    decreases |rates| - k
  {
    if k < |rates| && Product(rates, mu, s, e, k) != 0.0 {
      FirstZeroIsFirst(rates, mu, s, e, k + 1);
    }
  }

  /** Skipping classes with nonzero divisors does not move the first zero. */
  lemma {:induction false} FirstZeroSkips(rates: seq<real>, mu: real, s: nat, e: real, k: nat, i: nat)
    requires mu != 0.0 && s >= 1 && k <= i <= |rates|
    requires forall m :: k <= m < i ==> Product(rates, mu, s, e, m) != 0.0
    ensures FirstZero(rates, mu, s, e, k) == FirstZero(rates, mu, s, e, i)
    decreases i - k
  {
    if k < i {
      FirstZeroSkips(rates, mu, s, e, k + 1, i);
    }
  }

  /** One record per class, in input order, each built from the class's own
      divisor. */
  function Entries(rates: seq<real>, mu: real, s: nat, e: real): (r: seq<ClassMetrics>)
    requires mu != 0.0 && s >= 1
    requires forall i :: 0 <= i < |rates| ==> Product(rates, mu, s, e, i) != 0.0
    ensures |r| == |rates|
  {
    seq(|rates|, i requires 0 <= i < |rates| => ClassOf(rates[i], mu, Product(rates, mu, s, e, i)))
  }

  /** What the evaluator returns: the instability error, the division error
      of the first class with a zero divisor, or one record per class. */
  function Report(rates: seq<real>, mu: real, s: int): Result<seq<ClassMetrics>>
    requires Defined(rates, mu, s)
  {
    if !Stable(rates, mu, s) then Err(Unstable)
    else Classes(rates, mu, s, ErlangFactor(Sum(rates), mu, s))
  }

  /** The per-class part of the report, given the Erlang factor e: the
      division error of the first class with a zero divisor, or one record
      per class. */
  function Classes(rates: seq<real>, mu: real, s: nat, e: real): Result<seq<ClassMetrics>>
    requires mu != 0.0 && s >= 1
  {
    var j := FirstZero(rates, mu, s, e, 0);
    if j < |rates| then Err(DivisionByZero(j + 1))
    else
      FirstZeroIsFirst(rates, mu, s, e, 0);
      Ok(Entries(rates, mu, s, e))
  }

  /** The evaluator: checks stability, computes the Erlang factor once and
      fills the records class by class, stopping at a zero divisor. */
  method QueueMetrics(rates: seq<real>, mu: real, s: int) returns (r: Result<seq<ClassMetrics>>)
    requires Defined(rates, mu, s)
    ensures r == Report(rates, mu, s)
  {
    var total := Sum(rates);
    if total >= Capacity(mu, s) {
      return Err(Unstable);
    }
    var servers: nat := s;
    var termo1 := ErlangFactor(total, mu, servers);
    r := ClassesLoop(rates, mu, servers, termo1);
  }

  /** The loop over the classes: the two running-load factors of each class,
      the zero test on the divisor, and its record. */
  method ClassesLoop(rates: seq<real>, mu: real, s: nat, termo1: real) returns (r: Result<seq<ClassMetrics>>)
    requires mu != 0.0 && s >= 1
    ensures r == Classes(rates, mu, s, termo1)
  {
    var results: seq<ClassMetrics> := [];
    for i := 0 to |rates|
      invariant |results| == i
      invariant forall k :: 0 <= k < i ==>
        && Product(rates, mu, s, termo1, k) != 0.0
        && results[k] == ClassOf(rates[k], mu, Product(rates, mu, s, termo1, k))
    {
      var termo2 := UpperFactor(rates, mu, s, i);
      var termo3 := LowerFactor(rates, mu, s, i);
      var product := Divisor(termo1, termo2, termo3);
      if product == 0.0 {
        FirstZeroSkips(rates, mu, s, termo1, 0, i);
        return Err(DivisionByZero(i + 1));
      }
      results := results + [ClassOf(rates[i], mu, product)];
    }
    FirstZeroSkips(rates, mu, s, termo1, 0, |rates|);
    assert results == Entries(rates, mu, s, termo1);
    return Ok(results);
  }

  /** The instability error is returned exactly when λ_total >= sμ. A stable
      system fails exactly when some class has a zero divisor, and then the
      error names the first such class. */
  lemma {:induction false} ErrorCases(rates: seq<real>, mu: real, s: int)
    requires Defined(rates, mu, s)
    ensures Report(rates, mu, s) == Err(Unstable) <==> Sum(rates) >= Capacity(mu, s)
    ensures Stable(rates, mu, s) ==>
      var e := ErlangFactor(Sum(rates), mu, s);
      (Report(rates, mu, s).Err? <==> exists i :: 0 <= i < |rates| && Product(rates, mu, s, e, i) == 0.0)
    ensures Report(rates, mu, s).Err? && Stable(rates, mu, s) ==>
      var e := ErlangFactor(Sum(rates), mu, s);
      var j := Report(rates, mu, s).error.classNo - 1;
      && 0 <= j < |rates| && Product(rates, mu, s, e, j) == 0.0
      && forall i :: 0 <= i < j ==> Product(rates, mu, s, e, i) != 0.0
  {
    if Stable(rates, mu, s) {
      FirstZeroIsFirst(rates, mu, s, ErlangFactor(Sum(rates), mu, s), 0);
    }
  }

  /** A stable report holds one record per class, in input order, and the
      record of class i is built from the class's own rate and divisor
      (ClassOf then gives Wq · divisor = 1, W - Wq = 1/μ, Lq = λ Wq and
      L = λ W). */
  lemma {:induction false} ReportEntries(rates: seq<real>, mu: real, s: int, i: nat)
    requires Defined(rates, mu, s) && Report(rates, mu, s).Ok? && i < |rates|
    ensures Stable(rates, mu, s) && |Report(rates, mu, s).value| == |rates|
    ensures Product(rates, mu, s, ErlangFactor(Sum(rates), mu, s), i) != 0.0
    ensures Report(rates, mu, s).value[i]
         == ClassOf(rates[i], mu, Product(rates, mu, s, ErlangFactor(Sum(rates), mu, s), i))
  {
    var e := ErlangFactor(Sum(rates), mu, s);
    FirstZeroIsFirst(rates, mu, s, e, 0);
    assert Report(rates, mu, s).value == Entries(rates, mu, s, e);
  }

  /** With 0 < λ_total < sμ the Erlang factor exceeds the capacity sμ. */
  lemma {:induction false} ErlangFactorExceedsCapacity(total: real, mu: real, s: nat)
    requires mu > 0.0 && s >= 1 && 0.0 < total < Capacity(mu, s)
    ensures ErlangFactor(total, mu, s) > Capacity(mu, s)
  {
    var r := total / mu;
    DivPositive(total, mu);
    PowPositive(r, s);
    var head := (Fact(s) as real) * (Capacity(mu, s) - total);
    MulPositive(Fact(s) as real, Capacity(mu, s) - total);
    DivPositive(head, Pow(r, s));
    MMC.ErlangSumAtLeastOne(r, s);
    MulPositive(head / Pow(r, s), MMC.ErlangSum(r, s));
  }

  /** With nonnegative rates below capacity, class i's running-load factors
      satisfy 0 < 1 - Λ_i/(sμ) <= 1 - Λ_{i-1}/(sμ) <= 1. */
  lemma {:induction false} FactorBounds(rates: seq<real>, mu: real, s: nat, i: nat)
    requires AllNonNegative(rates) && mu > 0.0 && s >= 1 && Stable(rates, mu, s) && i < |rates|
    ensures 0.0 < LowerFactor(rates, mu, s, i) <= UpperFactor(rates, mu, s, i) <= 1.0
  {
    var capacity := Capacity(mu, s);
    BeforeIsRunningTotal(rates, i);
    DivLessThanOne(Sum(rates), capacity);
    LoadOrder(rates, capacity, i, i);
  }

  /** For any positive factor e, the divisors of classes i <= j are positive
      and shrink from i to j. */
  lemma {:induction false} ProductBounds(rates: seq<real>, mu: real, s: nat, e: real, i: nat, j: nat)
    requires AllNonNegative(rates) && mu > 0.0 && s >= 1 && Stable(rates, mu, s)
    requires e > 0.0 && i <= j < |rates|
    ensures Product(rates, mu, s, e, i) >= Product(rates, mu, s, e, j) > 0.0
  {
    var capacity := Capacity(mu, s);
    BeforeIsRunningTotal(rates, i);
    BeforeIsRunningTotal(rates, j);
    DivLessThanOne(Sum(rates), capacity);
    LoadOrder(rates, capacity, i, j);
    OrderedProducts(Product(rates, mu, s, e, i), Product(rates, mu, s, e, j), e,
                    UpperFactor(rates, mu, s, i), LowerFactor(rates, mu, s, i),
                    UpperFactor(rates, mu, s, j), LowerFactor(rates, mu, s, j));
  }

  /** Two divisors e u l whose running-load factors shrink from class i to
      class j: the later one is smaller and both are positive. */
  lemma {:induction false} OrderedProducts(pi: real, pj: real, e: real, ui: real, li: real, uj: real, lj: real)
    requires pi == Divisor(e, ui, li) && pj == Divisor(e, uj, lj)
    requires e > 0.0 && 0.0 < lj <= li && lj <= uj <= ui
    ensures pi >= pj > 0.0
  {
    MulNonNegative(ui, li - lj);
    MulNonNegative(lj, ui - uj);
    MulPositive(uj, lj);
    assert ui * li - uj * lj == ui * (li - lj) + lj * (ui - uj);
    MulPositive(e, uj * lj);
    MulNonNegative(e, ui * li - uj * lj);
    assert Partial(e, ui) * li == e * (ui * li);
    assert Partial(e, uj) * lj == e * (uj * lj);
  }

  /** With nonnegative rates, λ_total > 0 and stability, no divisor is zero:
      the division error is never returned. */
  lemma {:induction false} NeverDividesByZero(rates: seq<real>, mu: real, s: int)
    requires AllNonNegative(rates) && mu > 0.0 && s >= 1 && Sum(rates) > 0.0 && Stable(rates, mu, s)
    ensures Report(rates, mu, s).Ok?
  {
    var e := ErlangFactor(Sum(rates), mu, s);
    ErlangFactorExceedsCapacity(Sum(rates), mu, s);
    forall i | 0 <= i < |rates|
      ensures Product(rates, mu, s, e, i) != 0.0
    {
      ProductBounds(rates, mu, s, e, i, i);
    }
    FirstZeroSkips(rates, mu, s, e, 0, |rates|);
  }

  /** For any positive factor e and nonnegative rates below capacity, the
      waiting times the records carry are nonnegative and nondecreasing in
      the class position. */
  lemma {:induction false} EntriesWaitOrdered(rates: seq<real>, mu: real, s: nat, e: real, i: nat, j: nat)
    requires AllNonNegative(rates) && mu > 0.0 && s >= 1 && Stable(rates, mu, s)
    requires e > 0.0 && i <= j < |rates|
    requires forall k :: 0 <= k < |rates| ==> Product(rates, mu, s, e, k) != 0.0
    ensures 0.0 <= Entries(rates, mu, s, e)[i].wq <= Entries(rates, mu, s, e)[j].wq
  {
    ProductBounds(rates, mu, s, e, i, j);
    var pi, pj := Product(rates, mu, s, e, i), Product(rates, mu, s, e, j);
    var mi, mj := ClassOf(rates[i], mu, pi), ClassOf(rates[j], mu, pj);
    assert Entries(rates, mu, s, e)[i] == mi;
    assert Entries(rates, mu, s, e)[j] == mj;
    WaitsOfOrderedDivisors(rates[i], rates[j], mu, pi, pj);
  }

  /** With nonnegative rates a lower-priority class never waits less: Wq is
      nondecreasing in the class position. */
  lemma {:induction false} WaitNondecreasing(rates: seq<real>, mu: real, s: int, i: nat, j: nat)
    requires AllNonNegative(rates) && mu > 0.0 && s >= 1 && Sum(rates) > 0.0 && Stable(rates, mu, s)
    requires i <= j < |rates|
    ensures (NeverDividesByZero(rates, mu, s);
             0.0 <= Report(rates, mu, s).value[i].wq <= Report(rates, mu, s).value[j].wq)
  {
    NeverDividesByZero(rates, mu, s);
    var e := ErlangFactor(Sum(rates), mu, s);
    ErlangFactorExceedsCapacity(Sum(rates), mu, s);
    FirstZeroIsFirst(rates, mu, s, e, 0);
    assert Report(rates, mu, s).value == Entries(rates, mu, s, e);
    EntriesWaitOrdered(rates, mu, s, e, i, j);
  }

  /** Records built from divisors d1 >= d2 > 0 carry waiting times in the
      other order, both nonnegative. */
  lemma {:induction false} WaitsOfOrderedDivisors(lambda1: real, lambda2: real, mu: real, d1: real, d2: real)
    requires mu != 0.0 && d1 >= d2 > 0.0
    ensures 0.0 <= ClassOf(lambda1, mu, d1).wq <= ClassOf(lambda2, mu, d2).wq
  {
    assert ClassOf(lambda1, mu, d1).wq == 1.0 / d1;
    assert ClassOf(lambda2, mu, d2).wq == 1.0 / d2;
    QuotientAntitone(1.0, d1, d2);
  }

  /** With a negative rate the zero divisor is reachable: for λ = (1, -0.5),
      μ = 1 and one server the first class's running load fills the server. */
  lemma DivisionByZeroReachable()
    ensures Defined([1.0, -0.5], 1.0, 1)
    ensures Report([1.0, -0.5], 1.0, 1) == Err(DivisionByZero(1))
  {
    var rates := [1.0, -0.5];
    assert rates[..1] == [1.0];
    SumOne(1.0);
    assert rates[..|rates| - 1] == [1.0];
    assert Sum(rates) == 0.5;
    assert LowerFactor(rates, 1.0, 1, 0) == 0.0;
  }
}
