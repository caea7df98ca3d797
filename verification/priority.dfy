/** Facts shared by the priority-class evaluators: running totals over the
    classes in priority order and the monotonicity of the per-class
    denominators built from them. */
module Priority {
  import opened Numeric

  /** A class's utilisation ρ = λ E[S]. */
  function Utilisation(lambda: real, time: real): real
  {
    lambda * time
  }

  /** A class's share λ E[S²] of the waiting-time numerator, with
      E[S²] = Var + E[S]². */
  function SecondMomentLoad(lambda: real, time: real, variance: real): real
  {
    lambda * (variance + Pow(time, 2))
  }

  /** sμ: the service capacity of s servers working at rate μ each. */
  function Capacity(mu: real, s: int): real
  {
    (s as real) * mu
  }

  /** Λ_{i-1}: the arrival rate of the classes above class i, zero for the
      first class. */
  function Before(rates: seq<real>, i: nat): real
    requires i < |rates|
  {
    if i > 0 then Sum(rates[..i]) else 0.0
  }

  /** Λ_{i-1} is the running total of the rates before class i, the first
      class included, whose empty prefix sums to zero. */
  lemma {:induction false} BeforeIsRunningTotal(rates: seq<real>, i: nat)
    requires i < |rates|
    ensures Before(rates, i) == Sum(rates[..i])
  {
    if i == 0 {
      assert rates[..0] == [];
    }
  }

  /** The running total up to class i, over the scaled rates, is the scaled
      running total of the rates. */
  lemma {:induction false} PrefixScale(s: seq<real>, c: real, i: nat)
    requires c != 0.0 && i <= |s|
    ensures Sum(Scale(s, c)[..i]) == Sum(s[..i]) / c
  {
    assert Scale(s, c)[..i] == Scale(s[..i], c);
    SumScale(s[..i], c);
  }

  /** With nonnegative entries the running totals start at zero, never
      decrease and end at the total. */
  lemma {:induction false} RunningTotals(s: seq<real>, i: nat, j: nat)
    requires AllNonNegative(s) && i <= j <= |s|
    ensures 0.0 <= Sum(s[..i]) <= Sum(s[..j]) <= Sum(s)
  {
    assert s[..0] == [];
    assert s[..|s|] == s;
    PrefixSumMonotone(s, 0, i);
    PrefixSumMonotone(s, i, j);
    PrefixSumMonotone(s, j, |s|);
  }

  /** The sum of the entries from i on, for nonnegative entries, shrinks as i
      grows and never exceeds the total. */
  lemma {:induction false} SuffixTotals(s: seq<real>, i: nat, j: nat)
    requires AllNonNegative(s) && i <= j <= |s|
    ensures 0.0 <= Sum(s[j..]) <= Sum(s[i..]) <= Sum(s)
  {
    SumSplit(s, i);
    SumSplit(s, j);
    RunningTotals(s, i, j);
    assert AllNonNegative(s[j..]);
    SumNonNegative(s[j..]);
  }

  /** The running arrival rates of classes i <= j, over μ, in order and below
      1 when the total load is. */
  lemma {:induction false} LoadOrder(rates: seq<real>, mu: real, i: nat, j: nat)
    requires AllNonNegative(rates) && mu > 0.0 && Sum(rates) / mu < 1.0
    requires i <= j < |rates|
    ensures 0.0 <= Sum(rates[..i]) / mu <= Sum(rates[..j]) / mu <= Sum(rates[..j + 1]) / mu < 1.0
    ensures Sum(rates[..i]) / mu <= Sum(rates[..i + 1]) / mu <= Sum(rates[..j + 1]) / mu
  {
    RunningTotals(rates, i, i + 1);
    RunningTotals(rates, j, j + 1);
    RunningTotals(rates, i, j);
    RunningTotals(rates, i + 1, j + 1);
    QuotientMonotone(0.0, Sum(rates[..i]), mu);
    QuotientMonotone(Sum(rates[..i]), Sum(rates[..i + 1]), mu);
    QuotientMonotone(Sum(rates[..i]), Sum(rates[..j]), mu);
    QuotientMonotone(Sum(rates[..i + 1]), Sum(rates[..j + 1]), mu);
    QuotientMonotone(Sum(rates[..j]), Sum(rates[..j + 1]), mu);
    QuotientMonotone(Sum(rates[..j + 1]), Sum(rates), mu);
  }

  /** Dividing by a positive number keeps the order. */
  lemma {:induction false} QuotientMonotone(x1: real, x2: real, d: real)
    requires x1 <= x2 && d > 0.0
    ensures x1 / d <= x2 / d
  {
    DivCancel(x1, d);
    DivCancel(x2, d);
  }

  /** A nonnegative numerator over a smaller positive denominator is larger. */
  lemma {:induction false} QuotientAntitone(x: real, d1: real, d2: real)
    requires x >= 0.0 && d1 >= d2 > 0.0
    ensures 0.0 <= x / d1 <= x / d2
  {
    DivCancel(x, d1);
    DivCancel(x, d2);
    DivNonNegative(x, d1);
    assert (x / d1) * d2 <= (x / d1) * d1 by {
      MulNonNegative(x / d1, d1 - d2);
    }
  }

  /** The two-factor denominator (1 - p)(1 - c) of a class shrinks, and stays
      positive, as the running totals p <= c grow towards a total below 1. */
  lemma {:induction false} FactorsShrink(p1: real, c1: real, p2: real, c2: real)
    requires 0.0 <= p1 <= p2 && p1 <= c1 <= c2 < 1.0 && p2 <= c2
    ensures (1.0 - p1) * (1.0 - c1) >= (1.0 - p2) * (1.0 - c2) > 0.0
  {
    MulPositive(1.0 - p2, 1.0 - c2);
    ProductsOrdered(1.0 - p1, 1.0 - c1, 1.0 - p2, 1.0 - c2);
  }

  /** Products of positive factors keep the factors' order. */
  lemma {:induction false} ProductsOrdered(a1: real, b1: real, a2: real, b2: real)
    requires a1 >= a2 > 0.0 && b1 >= b2 > 0.0
    ensures a1 * b1 >= a2 * b2 > 0.0
  {
    MulPositive(a2, b2);
    MulNonNegative(a1, b1 - b2);
    MulNonNegative(a1 - a2, b2);
    assert a1 * b1 - a1 * b2 == a1 * (b1 - b2);
    assert a1 * b2 - a2 * b2 == (a1 - a2) * b2;
  }

  /** The same denominator never exceeds 1. */
  lemma {:induction false} FactorsAtMostOne(p: real, c: real)
    requires 0.0 <= p <= c <= 1.0
    ensures (1.0 - p) * (1.0 - c) <= 1.0
  {
    MulNonNegative(p, 1.0 - c);
    assert (1.0 - p) * (1.0 - c) == 1.0 - c - p * (1.0 - c);
  }
}
