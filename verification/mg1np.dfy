/** The M/G/1 evaluator with non-preemptive priorities by shortest mean
    service time: classes are reordered by ascending E[S] (a stable sort, so
    classes with equal E[S] keep their input order), served without
    interruption, and reported under their original class numbers. The report
    is a sequence of entries in service-priority order, each keyed by the
    class's 1-based input position. */
module MG1NonPreemptive {
  import opened Numeric
  import opened Outcome
  import opened Priority
  import MG1Preemptive

  type ClassMetrics = MG1Preemptive.ClassMetrics

  /** One input class with its 0-based input position. */
  datatype Job = Job(index: nat, lambda: real, time: real, variance: real)

  /** One report entry: the class number (input position + 1) and its metrics. */
  datatype Entry = Entry(key: nat, metrics: ClassMetrics)

  predicate SameLength(rates: seq<real>, times: seq<real>, variances: seq<real>)
  {
    |times| == |rates| && |variances| == |rates|
  }

  /** The classes in input order, each tagged with its position. */
  function JobsOf(rates: seq<real>, times: seq<real>, variances: seq<real>): (js: seq<Job>)
    requires SameLength(rates, times, variances)
    ensures |js| == |rates|
    ensures forall k :: 0 <= k < |js| ==> js[k] == Job(k, rates[k], times[k], variances[k])
  {
    seq(|rates|, k requires 0 <= k < |rates| => Job(k, rates[k], times[k], variances[k]))
  }

  /** a is served before b: a shorter mean service time, or the same one and
      an earlier input position (the sort is stable). */
  predicate Precedes(a: Job, b: Job)
  {
    a.time < b.time || (a.time == b.time && a.index < b.index)
  }

  predicate SortedByTime(js: seq<Job>)
  {
    forall i, j :: 0 <= i < j < |js| ==> Precedes(js[i], js[j])
  }

  /** Every position of js carries a smaller index than x. */
  predicate IndicesBelow(js: seq<Job>, x: Job)
  {
    forall i :: 0 <= i < |js| ==> js[i].index < x.index
  }

  /** Inserts x after every job whose mean service time is at most x's. */
  function Insert(x: Job, r: seq<Job>): (q: seq<Job>)
    ensures |q| == |r| + 1
    ensures multiset(q) == multiset(r) + multiset{x}
  {
    if |r| == 0 then [x]
    else if r[0].time <= x.time then
      assert r == [r[0]] + r[1..];
      [r[0]] + Insert(x, r[1..])
    else [x] + r
  }

  /** Stable sort by mean service time: each job, taken in input order, is
      inserted behind every job already placed with a time at most its own. */
  function SortByTime(js: seq<Job>): (q: seq<Job>)
    ensures |q| == |js|
    ensures multiset(q) == multiset(js)
  {
    if |js| == 0 then []
    else
      assert js == js[..|js| - 1] + [js[|js| - 1]];
      Insert(js[|js| - 1], SortByTime(js[..|js| - 1]))
  }

  /** Inserting a job with a larger index than all others keeps the order. */
  lemma {:induction false} InsertSorted(x: Job, r: seq<Job>)
    requires SortedByTime(r) && IndicesBelow(r, x)
    ensures SortedByTime(Insert(x, r))
  {
    if |r| == 0 {
    } else if r[0].time <= x.time {
      var tail := r[1..];
      InsertSorted(x, tail);
      var rest := Insert(x, tail);
      forall k | 0 <= k < |rest|
        ensures Precedes(r[0], rest[k])
      {
        assert rest[k] in multiset(rest);
        if rest[k] != x {
          assert rest[k] in multiset(tail);
          var m :| 0 <= m < |tail| && tail[m] == rest[k];
          assert r[m + 1] == rest[k];
        }
      }
      ConsSorted(r[0], rest);
    } else {
      forall k | 0 <= k < |r|
        ensures Precedes(x, r[k])
      {
        if k > 0 {
          assert Precedes(r[0], r[k]);
        }
      }
      ConsSorted(x, r);
    }
  }

  /** A job that precedes every job of a sorted sequence can go in front. */
  lemma {:induction false} ConsSorted(a: Job, s: seq<Job>)
    requires SortedByTime(s)
    requires forall k :: 0 <= k < |s| ==> Precedes(a, s[k])
    ensures SortedByTime([a] + s)
  {
    var q := [a] + s;
    forall i, j | 0 <= i < j < |q|
      ensures Precedes(q[i], q[j])
    {
      if i > 0 {
        assert q[i] == s[i - 1] && q[j] == s[j - 1];
      } else {
        assert q[j] == s[j - 1];
      }
    }
  }

  /** The input jobs' indices increase with their positions. */
  predicate IndicesIncreasing(js: seq<Job>)
  {
    forall i, j :: 0 <= i < j < |js| ==> js[i].index < js[j].index
  }

  /** Sorting jobs whose indices increase with position orders them by
      (E[S], input position). */
  lemma {:induction false} SortIsSorted(js: seq<Job>)
    requires IndicesIncreasing(js)
    ensures SortedByTime(SortByTime(js))
  {
    if |js| > 0 {
      var init := js[..|js| - 1];
      var x := js[|js| - 1];
      SortIsSorted(init);
      var r := SortByTime(init);
      forall i | 0 <= i < |r|
        ensures r[i].index < x.index
      {
        assert r[i] in multiset(init);
        var k :| 0 <= k < |init| && init[k] == r[i];
      }
      InsertSorted(x, r);
    }
  }

  /** A strictly sorted ordering of a multiset of jobs is unique: any
      procedure that sorts by (E[S], input position) gives this one. */
  lemma {:induction false} SortedUnique(p: seq<Job>, q: seq<Job>)
    requires SortedByTime(p) && SortedByTime(q) && multiset(p) == multiset(q)
    ensures p == q
  {
    if |p| > 0 {
      assert |q| > 0 by {
        assert p[0] in multiset(q);
      }
      SmallestFirst(p, q);
      assert p == [p[0]] + p[1..];
      assert q == [q[0]] + q[1..];
      assert multiset(p[1..]) == multiset(p) - multiset{p[0]};
      assert multiset(q[1..]) == multiset(q) - multiset{q[0]};
      SortedUnique(p[1..], q[1..]);
    } else {
      assert |q| == |multiset(q)| == 0;
    }
  }

  /** Two sorted orderings of the same jobs start with the same job. */
  lemma {:induction false} SmallestFirst(p: seq<Job>, q: seq<Job>)
    requires SortedByTime(p) && SortedByTime(q) && multiset(p) == multiset(q)
    requires |p| > 0 && |q| > 0
    ensures p[0] == q[0]
  {
    assert q[0] in multiset(p);
    var i :| 0 <= i < |p| && p[i] == q[0];
    assert p[0] in multiset(q);
    var j :| 0 <= j < |q| && q[j] == p[0];
    if i != 0 && j != 0 {
      assert false;
    }
  }

  /** f applied to each job. */
  function Column(js: seq<Job>, f: Job -> real): (c: seq<real>)
    ensures |c| == |js|
  {
    seq(|js|, i requires 0 <= i < |js| => f(js[i]))
  }

  /** A job's utilisation λ E[S]. */
  function UtilisationOf(j: Job): real
  {
    Utilisation(j.lambda, j.time)
  }

  /** A job's λ E[S²] with E[S²] = Var + E[S]². */
  function LoadOf(j: Job): real
  {
    SecondMomentLoad(j.lambda, j.time, j.variance)
  }

  /** Summing f over the jobs after an insertion adds f(x). */
  lemma {:induction false} InsertTotal(x: Job, r: seq<Job>, f: Job -> real)
    ensures Sum(Column(Insert(x, r), f)) == Sum(Column(r, f)) + f(x)
  {
    if |r| == 0 {
      assert Column([x], f) == [f(x)];
      SumOne(f(x));
      assert Column(r, f) == [];
    } else if r[0].time <= x.time {
      var tail := r[1..];
      InsertTotal(x, tail, f);
      assert Column(Insert(x, r), f) == [f(r[0])] + Column(Insert(x, tail), f);
      assert Column(r, f) == [f(r[0])] + Column(tail, f);
      SumConcat([f(r[0])], Column(Insert(x, tail), f));
      SumConcat([f(r[0])], Column(tail, f));
      SumOne(f(r[0]));
    } else {
      assert Column(Insert(x, r), f) == [f(x)] + Column(r, f);
      SumConcat([f(x)], Column(r, f));
      SumOne(f(x));
    }
  }

  /** A total over the classes does not depend on the order the sort puts
      them in. */
  lemma {:induction false} SortKeepsTotal(js: seq<Job>, f: Job -> real)
    ensures Sum(Column(SortByTime(js), f)) == Sum(Column(js, f))
  {
    if |js| > 0 {
      var init := js[..|js| - 1];
      SortKeepsTotal(init, f);
      InsertTotal(js[|js| - 1], SortByTime(init), f);
      assert Column(js, f)[..|js| - 1] == Column(init, f);
    }
  }

  /** The divisor of class i's waiting time: 2(1 - σ_{i-1})(1 - σ_i), where
      σ_i is the running total of the utilisations in service order up to
      and including class i; for the first class it is 2(1 - σ_0). */
  function Denominator(u: seq<real>, i: nat): real
    requires i < |u|
  {
    if i == 0 then 2.0 * (1.0 - Sum(u[..i + 1]))
    else 2.0 * (1.0 - Sum(u[..i])) * (1.0 - Sum(u[..i + 1]))
  }

  /** The general two-factor form 2(1 - σ_{i-1})(1 - σ_i). */
  function TwoFactor(previous: real, current: real): real
  {
    2.0 * (1.0 - previous) * (1.0 - current)
  }

  /** The first class's special case is the general form with σ_{-1} = 0. */
  lemma {:induction false} DenominatorIsTwoFactor(u: seq<real>, i: nat)
    requires i < |u|
    ensures Denominator(u, i) == TwoFactor(Sum(u[..i]), Sum(u[..i + 1]))
  {
    if i == 0 {
      assert u[..0] == [];
    }
  }

  /** The jobs in service order. */
  function Classes(rates: seq<real>, times: seq<real>, variances: seq<real>): (q: seq<Job>)
    requires SameLength(rates, times, variances)
    ensures |q| == |rates|
  {
    SortByTime(JobsOf(rates, times, variances))
  }

  /** The inputs for which no class's waiting time divides by zero. The
      source raises in that case; the length and stability checks come first. */
  predicate Admissible(rates: seq<real>, times: seq<real>, variances: seq<real>)
  {
    SameLength(rates, times, variances) ==>
      var u := Column(Classes(rates, times, variances), UtilisationOf);
      Sum(u) < 1.0 ==> forall i :: 0 <= i < |u| ==> Denominator(u, i) != 0.0
  }

  /** Entry i of the report: the class in service position i, keyed by its
      input position + 1, with Wq = Σ_j λ_j E[S²_j] / Denominator. */
  function EntryOf(c: Job, u: seq<real>, numerator: real, i: nat): Entry
    requires i < |u| && Denominator(u, i) != 0.0
  {
    Entry(c.index + 1,
          MG1Preemptive.ClassOf(c.lambda, c.time, c.variance, UtilisationOf(c), numerator / Denominator(u, i)))
  }

  /** The report of a stable system, in service order. */
  function Entries(rates: seq<real>, times: seq<real>, variances: seq<real>): (r: seq<Entry>)
    requires SameLength(rates, times, variances) && Admissible(rates, times, variances)
    requires Sum(Column(Classes(rates, times, variances), UtilisationOf)) < 1.0
    ensures |r| == |rates|
  {
    var classes := Classes(rates, times, variances);
    var u := Column(classes, UtilisationOf);
    var numerator := Sum(Column(classes, LoadOf));
    seq(|rates|, i requires 0 <= i < |rates| => EntryOf(classes[i], u, numerator, i))
  }

  /** The evaluator: the length error when the lists differ in length, then
      the instability error exactly when Σ λ_i E[S_i] >= 1 (in input order),
      otherwise one entry per class in service order. */
  method QueueMetrics(rates: seq<real>, times: seq<real>, variances: seq<real>)
    returns (r: Result<seq<Entry>>)
    requires Admissible(rates, times, variances)
    ensures r == Err(LengthMismatch) <==> !SameLength(rates, times, variances)
    ensures SameLength(rates, times, variances) ==>
      (r.Err? <==> Sum(Column(JobsOf(rates, times, variances), UtilisationOf)) >= 1.0)
    ensures SameLength(rates, times, variances) && r.Err? ==> r.error == Unstable
    ensures r.Ok? ==>
      && SameLength(rates, times, variances)
      && Sum(Column(Classes(rates, times, variances), UtilisationOf)) < 1.0
      && r.value == Entries(rates, times, variances)
  {
    var n := |rates|;
    if !(|times| == |variances| == n) {
      return Err(LengthMismatch);
    }
    var classes := SortByTime(JobsOf(rates, times, variances));
    var u := Column(classes, UtilisationOf);
    var rhoTotal := Sum(u);
    SortKeepsTotal(JobsOf(rates, times, variances), UtilisationOf);
    if rhoTotal >= 1.0 {
      return Err(Unstable);
    }
    var loads := Column(classes, LoadOf);
    var results: seq<Entry> := [];
    var i := 0;
    while i < n
      invariant 0 <= i <= n
      invariant results == Entries(rates, times, variances)[..i]
    {
      var numerator := Sum(loads);
      var denominator := Denominator(u, i);
      assert denominator != 0.0;
      var e := EntryOf(classes[i], u, numerator, i);
      assert Entries(rates, times, variances)[i] == e;
      results := results + [e];
      i := i + 1;
    }
    return Ok(results);
  }

  /** The service order is sorted by (E[S], input position) and holds every
      input class exactly once. */
  lemma {:induction false} ClassesSorted(rates: seq<real>, times: seq<real>, variances: seq<real>)
    requires SameLength(rates, times, variances)
    ensures SortedByTime(Classes(rates, times, variances))
    ensures multiset(Classes(rates, times, variances)) == multiset(JobsOf(rates, times, variances))
  {
    SortIsSorted(JobsOf(rates, times, variances));
  }

  /** The class in service position i is the input class at position
      Classes[i].index, unchanged. */
  lemma {:induction false} ClassIsInput(rates: seq<real>, times: seq<real>, variances: seq<real>, i: nat)
    requires SameLength(rates, times, variances) && i < |rates|
    ensures var c := Classes(rates, times, variances)[i];
      c.index < |rates| && c == Job(c.index, rates[c.index], times[c.index], variances[c.index])
  {
    var js := JobsOf(rates, times, variances);
    var c := Classes(rates, times, variances)[i];
    assert c in multiset(Classes(rates, times, variances));
    assert c in multiset(js);
    var k :| 0 <= k < |js| && js[k] == c;
  }

  /** The entry in service position i is keyed by its class number, a
      position 1..n of the input, and carries the λ, E[S] and Var given at
      that input position. */
  lemma {:induction false} EntryCarriesInput(rates: seq<real>, times: seq<real>, variances: seq<real>, i: nat)
    requires SameLength(rates, times, variances) && Admissible(rates, times, variances)
    requires Sum(Column(Classes(rates, times, variances), UtilisationOf)) < 1.0
    requires i < |rates|
    ensures var e := Entries(rates, times, variances)[i];
      && e.key == Classes(rates, times, variances)[i].index + 1
      && 1 <= e.key <= |rates|
      && e.metrics.lambda == rates[e.key - 1]
      && e.metrics.time == times[e.key - 1]
      && e.metrics.variance == variances[e.key - 1]
  {
    var classes := Classes(rates, times, variances);
    var u := Column(classes, UtilisationOf);
    assert Entries(rates, times, variances)[i] == EntryOf(classes[i], u, Sum(Column(classes, LoadOf)), i);
    ClassIsInput(rates, times, variances, i);
  }

  /** No class number appears twice in the report. */
  lemma {:induction false} KeysDistinct(rates: seq<real>, times: seq<real>, variances: seq<real>, i: nat, j: nat)
    requires SameLength(rates, times, variances) && Admissible(rates, times, variances)
    requires Sum(Column(Classes(rates, times, variances), UtilisationOf)) < 1.0
    requires i < j < |rates|
    ensures Entries(rates, times, variances)[i].key != Entries(rates, times, variances)[j].key
  {
    var classes := Classes(rates, times, variances);
    EntryCarriesInput(rates, times, variances, i);
    EntryCarriesInput(rates, times, variances, j);
    ClassesSorted(rates, times, variances);
    assert Precedes(classes[i], classes[j]);
  }

  /** Every class number 1..n appears in the report. */
  lemma {:induction false} EveryClassReported(rates: seq<real>, times: seq<real>, variances: seq<real>, k: nat)
    requires SameLength(rates, times, variances) && Admissible(rates, times, variances)
    requires Sum(Column(Classes(rates, times, variances), UtilisationOf)) < 1.0
    requires 1 <= k <= |rates|
    ensures exists i :: 0 <= i < |rates| && Entries(rates, times, variances)[i].key == k
  {
    var classes := Classes(rates, times, variances);
    var js := JobsOf(rates, times, variances);
    ClassesSorted(rates, times, variances);
    assert js[k - 1] in multiset(classes);
    var i :| 0 <= i < |classes| && classes[i] == js[k - 1];
    EntryCarriesInput(rates, times, variances, i);
  }

  /** The numerator Σ_j λ_j E[S²_j] is the same for every class and does not
      depend on the order: class i waits that total over its own denominator. */
  lemma {:induction false} WaitOf(rates: seq<real>, times: seq<real>, variances: seq<real>, i: nat)
    requires SameLength(rates, times, variances) && Admissible(rates, times, variances)
    requires Sum(Column(Classes(rates, times, variances), UtilisationOf)) < 1.0
    requires i < |rates|
    ensures var u := Column(Classes(rates, times, variances), UtilisationOf);
      Denominator(u, i) != 0.0 &&
      Entries(rates, times, variances)[i].metrics.wq
        == Sum(Column(JobsOf(rates, times, variances), LoadOf)) / Denominator(u, i)
  {
    var classes := Classes(rates, times, variances);
    var u := Column(classes, UtilisationOf);
    SortKeepsTotal(JobsOf(rates, times, variances), LoadOf);
    assert Entries(rates, times, variances)[i]
        == EntryOf(classes[i], u, Sum(Column(classes, LoadOf)), i);
  }

  /** Little's law holds in every entry: Lq = λ Wq, L = λ W, W = Wq + E[S]. */
  lemma {:induction false} EntryLittleLaw(rates: seq<real>, times: seq<real>, variances: seq<real>, i: nat)
    requires SameLength(rates, times, variances) && Admissible(rates, times, variances)
    requires Sum(Column(Classes(rates, times, variances), UtilisationOf)) < 1.0
    requires i < |rates|
    ensures var m := Entries(rates, times, variances)[i].metrics;
      m.lq == m.lambda * m.wq && m.l == m.lambda * m.w && m.w == m.wq + m.time
  {
    var classes := Classes(rates, times, variances);
    var u := Column(classes, UtilisationOf);
    var c := classes[i];
    var numerator := Sum(Column(classes, LoadOf));
    assert Entries(rates, times, variances)[i] == EntryOf(c, u, numerator, i);
    MG1Preemptive.LittleLaw(c.lambda, c.time, c.variance, UtilisationOf(c), numerator / Denominator(u, i));
  }

  /** 2(1 - p)(1 - c) is twice the product of the two factors. */
  lemma {:induction false} TwoFactorScaled(p: real, c: real)
    ensures TwoFactor(p, c) == 2.0 * ((1.0 - p) * (1.0 - c))
  {
    assert (2.0 * (1.0 - p)) * (1.0 - c) == 2.0 * ((1.0 - p) * (1.0 - c));
  }

  /** With nonnegative utilisations summing below 1, the denominators are
      positive and shrink along the service order. */
  lemma {:induction false} DenominatorBounds(u: seq<real>, i: nat, j: nat)
    requires AllNonNegative(u) && Sum(u) < 1.0 && i <= j < |u|
    ensures Denominator(u, i) >= Denominator(u, j) > 0.0
  {
    var p1, c1, p2, c2 := Sum(u[..i]), Sum(u[..i + 1]), Sum(u[..j]), Sum(u[..j + 1]);
    assert 0.0 <= p1 <= p2 && p1 <= c1 <= c2 < 1.0 && p2 <= c2 by {
      RunningTotals(u, i, i + 1);
      RunningTotals(u, j, j + 1);
      RunningTotals(u, i, j);
      RunningTotals(u, i + 1, j + 1);
    }
    DenominatorIsTwoFactor(u, i);
    DenominatorIsTwoFactor(u, j);
    TwoFactorsShrink(p1, c1, p2, c2);
  }

  /** The general two-factor form shrinks, and stays positive, as the
      running totals grow towards a total below 1. */
  lemma {:induction false} TwoFactorsShrink(p1: real, c1: real, p2: real, c2: real)
    requires 0.0 <= p1 <= p2 && p1 <= c1 <= c2 < 1.0 && p2 <= c2
    ensures TwoFactor(p1, c1) >= TwoFactor(p2, c2) > 0.0
  {
    FactorsShrink(p1, c1, p2, c2);
    TwoFactorScaled(p1, c1);
    TwoFactorScaled(p2, c2);
  }

  /** With nonnegative inputs every class's utilisation and λ E[S²] in
      service order is nonnegative. */
  lemma {:induction false} NonNegativeColumns(rates: seq<real>, times: seq<real>, variances: seq<real>)
    requires SameLength(rates, times, variances)
    requires AllNonNegative(rates) && AllNonNegative(times) && AllNonNegative(variances)
    ensures AllNonNegative(Column(Classes(rates, times, variances), UtilisationOf))
    ensures AllNonNegative(Column(Classes(rates, times, variances), LoadOf))
  {
    var classes := Classes(rates, times, variances);
    forall i | 0 <= i < |classes|
      ensures UtilisationOf(classes[i]) >= 0.0 && LoadOf(classes[i]) >= 0.0
    {
      ClassIsInput(rates, times, variances, i);
      var c := classes[i];
      MulNonNegative(c.lambda, c.time);
      PowNonNegative(c.time, 2);
      MulNonNegative(c.lambda, c.variance + Pow(c.time, 2));
    }
  }

  /** Under stability with nonnegative inputs no denominator is zero. */
  lemma {:induction false} StableIsAdmissible(rates: seq<real>, times: seq<real>, variances: seq<real>)
    requires SameLength(rates, times, variances)
    requires AllNonNegative(rates) && AllNonNegative(times) && AllNonNegative(variances)
    ensures Admissible(rates, times, variances)
  {
    NonNegativeColumns(rates, times, variances);
    var u := Column(Classes(rates, times, variances), UtilisationOf);
    if Sum(u) < 1.0 {
      forall i | 0 <= i < |u|
        ensures Denominator(u, i) != 0.0
      {
        DenominatorBounds(u, i, i);
      }
    }
  }

  /** In service order a class never waits less than the classes served
      before it: Wq is nondecreasing along the sorted order. */
  lemma {:induction false} WaitNondecreasing(rates: seq<real>, times: seq<real>, variances: seq<real>, i: nat, j: nat)
    requires SameLength(rates, times, variances)
    requires AllNonNegative(rates) && AllNonNegative(times) && AllNonNegative(variances)
    requires Sum(Column(Classes(rates, times, variances), UtilisationOf)) < 1.0
    requires i <= j < |rates|
    ensures (StableIsAdmissible(rates, times, variances);
             Entries(rates, times, variances)[i].metrics.wq <= Entries(rates, times, variances)[j].metrics.wq)
  {
    StableIsAdmissible(rates, times, variances);
    NonNegativeColumns(rates, times, variances);
    var u := Column(Classes(rates, times, variances), UtilisationOf);
    var loads := Column(JobsOf(rates, times, variances), LoadOf);
    SortKeepsTotal(JobsOf(rates, times, variances), LoadOf);
    SumNonNegative(Column(Classes(rates, times, variances), LoadOf));
    WaitOf(rates, times, variances, i);
    WaitOf(rates, times, variances, j);
    DenominatorBounds(u, i, j);
    QuotientAntitone(Sum(loads), Denominator(u, i), Denominator(u, j));
  }
}
