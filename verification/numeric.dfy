/** Exact arithmetic shared by every evaluator: integer powers, factorials,
    sums over sequences of reals, geometric series and the first moment of a
    state distribution. The evaluators compute with binary or decimal
    floating point; here every quantity is an exact `real`. */
module Numeric {

  /** x raised to a natural power (Python's `x ** n` for an integer n >= 0). */
  function Pow(x: real, n: nat): real
  {
    if n == 0 then 1.0 else x * Pow(x, n - 1)
  }

  function Square(x: real): real
  {
    x * x
  }

  lemma {:induction false} PowPositive(x: real, n: nat)
    requires x > 0.0
    ensures Pow(x, n) > 0.0
  {
    if n > 0 {
      PowPositive(x, n - 1);
      MulPositive(x, Pow(x, n - 1));
    }
  }

  lemma {:induction false} PowNonNegative(x: real, n: nat)
    requires x >= 0.0
    ensures Pow(x, n) >= 0.0
  {
    if n > 0 {
      PowNonNegative(x, n - 1);
      MulNonNegative(x, Pow(x, n - 1));
    }
  }

  lemma {:induction false} PowNonZero(x: real, n: nat)
    requires x != 0.0
    ensures Pow(x, n) != 0.0
  {
    if n > 0 {
      PowNonZero(x, n - 1);
      MulNonZero(x, Pow(x, n - 1));
    }
  }

  /** x raised to an integer power, negative exponents included
      (Python's `x ** e` for an int e and a nonzero x). */
  function IPow(x: real, e: int): (r: real)
    requires x > 0.0
    ensures r > 0.0
  {
    PowPositive(x, if e >= 0 then e else -e);
    if e >= 0 then Pow(x, e) else 1.0 / Pow(x, -e)
  }

  /** n! */
  function Fact(n: nat): (r: nat)
    ensures r >= 1
  {
    if n == 0 then 1 else n * Fact(n - 1)
  }

  /** Sum of a sequence, peeled from the end so that appending one element
      adds exactly that element. */
  function Sum(s: seq<real>): real
  {
    if |s| == 0 then 0.0 else Sum(s[..|s| - 1]) + s[|s| - 1]
  }

  /** First moment of a state distribution: the sum of n * s[n]. */
  function Moment(s: seq<real>): real
  {
    if |s| == 0 then 0.0 else Moment(s[..|s| - 1]) + (|s| - 1) as real * s[|s| - 1]
  }

  function Min(a: nat, b: nat): nat { if a <= b then a else b }

  /** x / y when y > 0, and 0 otherwise: the guarded division the evaluators
      use for W and Wq. */
  function DivOrZero(x: real, y: real): real
  {
    if y > 0.0 then x / y else 0.0
  }

  /** The guarded quotient times a positive divisor gives back the dividend;
      with a nonpositive divisor it is 0. */
  lemma {:induction false} GuardedQuotient(x: real, y: real)
    ensures y > 0.0 ==> y * DivOrZero(x, y) == x
    ensures y <= 0.0 ==> DivOrZero(x, y) == 0.0
  {
    if y > 0.0 {
      DivCancel(x, y);
    }
  }

  /** x / y when y != 0, and 0 otherwise: the guard used where the source
      tests the divisor against zero rather than its sign. */
  function DivUnlessZero(x: real, y: real): real
  {
    if y != 0.0 then x / y else 0.0
  }

  /** The zero-guarded quotient times a nonzero divisor gives back the
      dividend; with a zero divisor it is 0. */
  lemma {:induction false} UnlessZeroQuotient(x: real, y: real)
    ensures y != 0.0 ==> y * DivUnlessZero(x, y) == x
    ensures y == 0.0 ==> DivUnlessZero(x, y) == 0.0
  {
    if y != 0.0 {
      DivCancel(x, y);
    }
  }

  /** Sum of min(n, c) * s[n]: the mean number of busy servers when there are c of them. */
  function Busy(s: seq<real>, c: nat): real
  {
    if |s| == 0 then 0.0 else Busy(s[..|s| - 1], c) + Min(|s| - 1, c) as real * s[|s| - 1]
  }

  /** Sum of max(n - c, 0) * s[n]: the mean number waiting when there are c servers. */
  function Excess(s: seq<real>, c: nat): real
  {
    if |s| == 0 then 0.0
    else Excess(s[..|s| - 1], c) + (if |s| - 1 <= c then 0.0 else (|s| - 1 - c) as real) * s[|s| - 1]
  }

  /** 1 + x + ... + x^(n-1) */
  function GeomSum(x: real, n: nat): real
  {
    if n == 0 then 0.0 else GeomSum(x, n - 1) + Pow(x, n - 1)
  }

  /** 0*x^0 + 1*x^1 + ... + (n-1)*x^(n-1) */
  function WeightedGeomSum(x: real, n: nat): real
  {
    if n == 0 then 0.0 else WeightedGeomSum(x, n - 1) + (n - 1) as real * Pow(x, n - 1)
  }

  /** s[k] = c * x^k for every index k. */
  predicate Geometric(s: seq<real>, c: real, x: real)
  {
    forall k :: 0 <= k < |s| ==> s[k] == c * Pow(x, k)
  }

  predicate AllNonNegative(s: seq<real>)
  {
    forall i :: 0 <= i < |s| ==> s[i] >= 0.0
  }

  // ---------------------------------------------------------------------
  // Field arithmetic helpers (Z3 needs these steps spelled out)
  // ---------------------------------------------------------------------

  lemma {:induction false} DivEq(a: real, b: real, d: real)
    requires d != 0.0 && a == b * d
    ensures a / d == b
  {
  }

  lemma {:induction false} MulNonZero(a: real, b: real)
    requires a != 0.0 && b != 0.0
    ensures a * b != 0.0
  {
  }

  lemma {:induction false} MulPositive(a: real, b: real)
    requires a > 0.0 && b > 0.0
    ensures a * b > 0.0
  {
  }

  lemma {:induction false} MulNonNegative(a: real, b: real)
    requires a >= 0.0 && b >= 0.0
    ensures a * b >= 0.0
  {
  }

  lemma {:induction false} SquarePositive(x: real)
    requires x != 0.0
    ensures Square(x) > 0.0
  {
    if x > 0.0 {
      PowPositive(x, 2);
    } else {
      PowPositive(-x, 2);
      PowTwo(-x);
    }
    PowTwo(x);
  }

  lemma {:induction false} DivPositive(a: real, b: real)
    requires a > 0.0 && b > 0.0
    ensures a / b > 0.0
  {
  }

  lemma {:induction false} DivNonNegative(a: real, b: real)
    requires a >= 0.0 && b > 0.0
    ensures a / b >= 0.0
  {
  }

  lemma {:induction false} DivLessThanOne(a: real, b: real)
    requires 0.0 < b && a < b
    ensures a / b < 1.0
  {
  }

  lemma {:induction false} DivTimes(a: real, b: real, c: real, d: real)
    requires b != 0.0 && d != 0.0
    ensures (a / b) * (c / d) == (a * c) / (b * d)
  {
  }

  lemma {:induction false} DivCancel(a: real, b: real)
    requires b != 0.0
    ensures (a / b) * b == a
  {
  }

  lemma {:induction false} DivMul(a: real, b: real, c: real)
    requires b != 0.0
    ensures (a / b) * c == (a * c) / b
  {
    DivCancel(a, b);
    assert ((a / b) * c) * b == ((a / b) * b) * c;
    DivEq(a * c, (a / b) * c, b);
  }

  // ---------------------------------------------------------------------
  // Powers
  // ---------------------------------------------------------------------

  lemma {:induction false} PowOne(n: nat)
    ensures Pow(1.0, n) == 1.0
  {
    if n > 0 { PowOne(n - 1); }
  }

  lemma {:induction false} PowTwo(x: real)
    ensures Pow(x, 2) == x * x
  {
    assert Pow(x, 1) == x;
  }

  lemma {:induction false} PowAdd(x: real, m: nat, n: nat)
    ensures Pow(x, m + n) == Pow(x, m) * Pow(x, n)
    decreases n
  {
    if n > 0 {
      PowAdd(x, m, n - 1);
      assert Pow(x, m + n) == x * Pow(x, m + n - 1);
    }
  }

  lemma {:induction false} PowProduct(x: real, y: real, n: nat)
    ensures Pow(x * y, n) == Pow(x, n) * Pow(y, n)
  {
    if n > 0 {
      PowProduct(x, y, n - 1);
      assert Pow(x * y, n) == (x * y) * (Pow(x, n - 1) * Pow(y, n - 1));
    }
  }

  /** Powers of a base in [0, 1) stay below 1; powers of a base above 1 exceed 1. */
  lemma {:induction false} PowBelowOne(x: real, n: nat)
    requires 0.0 <= x < 1.0 && n >= 1
    ensures Pow(x, n) < 1.0
  {
    if n > 1 {
      PowBelowOne(x, n - 1);
      PowNonNegative(x, n - 1);
      assert Pow(x, n) == x * Pow(x, n - 1);
      MulNonNegative(x, 1.0 - Pow(x, n - 1));
    }
  }

  lemma {:induction false} PowAboveOne(x: real, n: nat)
    requires x > 1.0 && n >= 1
    ensures Pow(x, n) > 1.0
  {
    if n > 1 {
      PowAboveOne(x, n - 1);
      assert Pow(x, n) == x * Pow(x, n - 1);
      MulPositive(x - 1.0, Pow(x, n - 1) - 1.0);
    }
  }

  /** For a positive base other than 1, 1 - x and 1 - x^n (n >= 1) are
      nonzero and have the same sign, so their quotient is positive. */
  lemma {:induction false} PowSameSide(x: real, n: nat)
    requires x > 0.0 && x != 1.0 && n >= 1
    ensures Pow(x, n) != 1.0
    ensures (1.0 - x) / (1.0 - Pow(x, n)) > 0.0
  {
    if x < 1.0 {
      PowBelowOne(x, n);
      DivPositive(1.0 - x, 1.0 - Pow(x, n));
    } else {
      PowAboveOne(x, n);
      DivNegatives(1.0 - x, 1.0 - Pow(x, n));
    }
  }

  lemma {:induction false} DivNegatives(a: real, b: real)
    requires a < 0.0 && b < 0.0
    ensures a / b > 0.0
  {
    assert a / b == (-a) / (-b);
    DivPositive(-a, -b);
  }

  /** Powers of a base in [0, 1] never increase with the exponent. */
  lemma {:induction false} PowAtMostOne(x: real, n: nat)
    requires 0.0 <= x <= 1.0
    ensures Pow(x, n) <= 1.0
  {
    if n > 0 {
      PowAtMostOne(x, n - 1);
      PowNonNegative(x, n - 1);
      assert Pow(x, n) == x * Pow(x, n - 1);
      MulNonNegative(1.0 - x, Pow(x, n - 1));
      MulNonNegative(x, 1.0 - Pow(x, n - 1));
    }
  }

  // ---------------------------------------------------------------------
  // Sums over sequences
  // ---------------------------------------------------------------------

  /** The sum of a single entry is that entry. */
  lemma {:induction false} SumOne(a: real)
    ensures Sum([a]) == a
  {
    assert [a][..0] == [];
  }

  lemma {:induction false} SumAppend(s: seq<real>, x: real)
    ensures Sum(s + [x]) == Sum(s) + x
  {
    assert (s + [x])[..|s|] == s;
  }

  lemma {:induction false} SumConcat(a: seq<real>, b: seq<real>)
    ensures Sum(a + b) == Sum(a) + Sum(b)
    decreases |b|
  {
    if |b| == 0 {
      assert a + b == a;
    } else {
      var b' := b[..|b| - 1];
      assert (a + b)[..|a + b| - 1] == a + b';
      SumConcat(a, b');
    }
  }

  lemma {:induction false} SumPrefixStep(s: seq<real>, i: nat)
    requires i < |s|
    ensures Sum(s[..i + 1]) == Sum(s[..i]) + s[i]
  {
    assert s[..i + 1][..i] == s[..i];
  }

  lemma {:induction false} SumSplit(s: seq<real>, i: nat)
    requires i <= |s|
    ensures Sum(s) == Sum(s[..i]) + Sum(s[i..])
  {
    assert s == s[..i] + s[i..];
    SumConcat(s[..i], s[i..]);
  }

  lemma {:induction false} SumSuffixStep(s: seq<real>, i: nat)
    requires i < |s|
    ensures Sum(s[i..]) == s[i] + Sum(s[i + 1..])
  {
    assert s[i..] == [s[i]] + s[i + 1..];
    SumConcat([s[i]], s[i + 1..]);
    assert [s[i]][..0] == [];
  }

  lemma {:induction false} SumNonNegative(s: seq<real>)
    requires AllNonNegative(s)
    ensures Sum(s) >= 0.0
  {
    if |s| > 0 {
      SumNonNegative(s[..|s| - 1]);
    }
  }

  /** With nonnegative terms, a longer prefix never has a smaller sum. */
  lemma {:induction false} PrefixSumMonotone(s: seq<real>, i: nat, j: nat)
    requires AllNonNegative(s) && i <= j <= |s|
    ensures Sum(s[..i]) <= Sum(s[..j])
  {
    SumSplit(s[..j], i);
    assert s[..j][..i] == s[..i];
    SumNonNegative(s[..j][i..]);
  }

  /** With nonnegative terms, every element is at most the whole sum. */
  lemma {:induction false} ElementAtMostSum(s: seq<real>, k: nat)
    requires AllNonNegative(s) && k < |s|
    ensures s[k] <= Sum(s)
  {
    SumSplit(s, k);
    SumSuffixStep(s, k);
    SumNonNegative(s[..k]);
    SumNonNegative(s[k + 1..]);
  }

  /** Dividing every term by c divides the sum by c. */
  function Scale(s: seq<real>, c: real): (r: seq<real>)
    requires c != 0.0
    ensures |r| == |s| && forall i :: 0 <= i < |s| ==> r[i] == s[i] / c
  {
    seq(|s|, i requires 0 <= i < |s| => s[i] / c)
  }

  lemma {:induction false} SumScale(s: seq<real>, c: real)
    requires c != 0.0
    ensures Sum(Scale(s, c)) == Sum(s) / c
  {
    if |s| > 0 {
      var s' := s[..|s| - 1];
      assert Scale(s, c)[..|s| - 1] == Scale(s', c);
      SumScale(s', c);
    }
  }

  lemma {:induction false} MomentScale(s: seq<real>, c: real)
    requires c != 0.0
    ensures Moment(Scale(s, c)) == Moment(s) / c
  {
    ScaledMoment(s, Scale(s, c), c);
  }

  /** The moment of entries each divided by c is the moment divided by c. */
  lemma {:induction false} ScaledMoment(s: seq<real>, t: seq<real>, c: real)
    requires c != 0.0 && |t| == |s|
    requires forall i :: 0 <= i < |s| ==> t[i] == s[i] / c
    ensures Moment(t) == Moment(s) / c
  {
    if |s| > 0 {
      var n := |s| - 1;
      var m := Moment(s[..n]);
      MomentLast(t);
      MomentLast(s);
      ScaledMoment(s[..n], t[..n], c);
      ScaledStep(m, s[n], n as real, c);
    }
  }

  /** The last entry's share of the moment. */
  lemma {:induction false} MomentLast(s: seq<real>)
    requires |s| > 0
    ensures Moment(s) == Moment(s[..|s| - 1]) + s[|s| - 1] * (|s| - 1) as real
  {
  }

  /** m/c + (x/c) k == (m + x k)/c. */
  lemma {:induction false} ScaledStep(m: real, x: real, k: real, c: real)
    requires c != 0.0
    ensures m / c + (x / c) * k == (m + x * k) / c
  {
    DivMul(x, c, k);
    QuotientSum(m, x * k, c);
  }

  /** Quotients by the same divisor add up. */
  lemma {:induction false} QuotientSum(a: real, b: real, c: real)
    requires c != 0.0
    ensures a / c + b / c == (a + b) / c
  {
    DivCancel(a, c);
    DivCancel(b, c);
    assert (a / c + b / c) * c == a + b;
    DivEq(a + b, a / c + b / c, c);
  }

  // ---------------------------------------------------------------------
  // Moments, busy servers and queue excess
  // ---------------------------------------------------------------------

  /** Each customer is either in service or waiting: n = min(n, c) + max(n - c, 0). */
  lemma {:induction false} MomentSplits(s: seq<real>, c: nat)
    ensures Moment(s) == Busy(s, c) + Excess(s, c)
  {
    if |s| > 0 {
      MomentSplits(s[..|s| - 1], c);
    }
  }

  /** With one server, the mean number busy is the probability of a nonempty system. */
  lemma {:induction false} BusyOneServer(s: seq<real>)
    requires |s| >= 1
    ensures Busy(s, 1) == Sum(s) - s[0]
  {
    if |s| > 1 {
      var s' := s[..|s| - 1];
      BusyOneServer(s');
    }
  }

  lemma {:induction false} ExcessNonNegative(s: seq<real>, c: nat)
    requires AllNonNegative(s)
    ensures Excess(s, c) >= 0.0
  {
    if |s| > 0 {
      ExcessNonNegative(s[..|s| - 1], c);
      var t := if |s| - 1 <= c then 0.0 else (|s| - 1 - c) as real;
      MulNonNegative(t, s[|s| - 1]);
    }
  }

  lemma {:induction false} BusyNonNegative(s: seq<real>, c: nat)
    requires AllNonNegative(s)
    ensures Busy(s, c) >= 0.0
  {
    if |s| > 0 {
      BusyNonNegative(s[..|s| - 1], c);
      MulNonNegative(Min(|s| - 1, c) as real, s[|s| - 1]);
    }
  }

  /** With c servers, at most c of them are busy: Busy(s, c) <= c * Sum(s). */
  lemma {:induction false} BusyBound(s: seq<real>, c: nat)
    requires AllNonNegative(s)
    ensures Busy(s, c) <= (c as real) * Sum(s)
  {
    if |s| > 0 {
      var s' := s[..|s| - 1];
      var x := s[|s| - 1];
      BusyBound(s', c);
      MulNonNegative((c - Min(|s| - 1, c)) as real, x);
      assert (c as real) * Sum(s) == (c as real) * Sum(s') + (c as real) * x;
    }
  }

  /** When the first entry is positive and there are at least two, the last
      entry is strictly below the total. */
  lemma {:induction false} LastBelowSum(s: seq<real>)
    requires AllNonNegative(s) && |s| >= 2 && s[0] > 0.0
    ensures s[|s| - 1] < Sum(s)
  {
    var s' := s[..|s| - 1];
    assert AllNonNegative(s');
    ElementAtMostSum(s', 0);
  }

  /** In a distribution over 0..|s|-1, the mean is at most (|s|-1) times the
      probability of a nonempty system. */
  lemma {:induction false} MomentBound(s: seq<real>)
    requires AllNonNegative(s) && |s| >= 1
    ensures Moment(s) <= (|s| - 1) as real * (Sum(s) - s[0])
  {
    if |s| > 1 {
      var s' := s[..|s| - 1];
      MomentBound(s');
      var x := s[|s| - 1];
      assert s'[0] == s[0];
      SumNonNegative(s[1..|s| - 1]);
      SumSplit(s', 1);
      assert s'[..1] == [s[0]];
      SumOne(s[0]);
      assert s'[1..] == s[1..|s| - 1];
      assert Moment(s) == Moment(s') + (|s| - 1) as real * x;
      MomentBoundStep(Moment(s'), (|s| - 2) as real, Sum(s') - s[0], x);
    }
  }

  /** One step of MomentBound: from ms <= m t, adding (m + 1) x stays below
      (m + 1)(t + x). */
  lemma {:induction false} MomentBoundStep(ms: real, m: real, t: real, x: real)
    requires ms <= m * t && t >= 0.0
    ensures ms + (m + 1.0) * x <= (m + 1.0) * (t + x)
  {
    assert (m + 1.0) * (t + x) == m * t + t + (m + 1.0) * x;
  }

  /** A distribution over 0 .. m (m >= 1) whose empty state has probability
      strictly between 0 and 1 has its mean strictly between 0 and m. */
  lemma {:induction false} MeanStrictlyBetween(pn: seq<real>, m: nat)
    requires |pn| == m + 1 && m >= 1 && AllNonNegative(pn) && Sum(pn) == 1.0 && 0.0 < pn[0] < 1.0
    ensures 0.0 < Moment(pn) < m as real
  {
    MomentBound(pn);
    MulPositive(m as real, pn[0]);
    MomentSplits(pn, 1);
    BusyOneServer(pn);
    ExcessNonNegative(pn, 1);
  }

  // ---------------------------------------------------------------------
  // Geometric series
  // ---------------------------------------------------------------------

  /** (1 - x)(1 + x + ... + x^(n-1)) = 1 - x^n */
  lemma {:induction false} GeomSumClosed(x: real, n: nat)
    ensures (1.0 - x) * GeomSum(x, n) == 1.0 - Pow(x, n)
  {
    if n > 0 {
      GeomSumClosed(x, n - 1);
      assert Pow(x, n) == x * Pow(x, n - 1);
    }
  }

  lemma {:induction false} GeomSumAtOne(n: nat)
    ensures GeomSum(1.0, n) == n as real
  {
    if n > 0 {
      GeomSumAtOne(n - 1);
      PowOne(n - 1);
    }
  }

  /** (1 - x) * sum_{k<n} k x^k = (1 + x + ... + x^(n-1)) - 1 - (n - 1) x^n */
  lemma {:induction false} WeightedGeomSumClosed(x: real, n: nat)
    ensures (1.0 - x) * WeightedGeomSum(x, n) == GeomSum(x, n) - 1.0 - (n as real - 1.0) * Pow(x, n)
  {
    if n > 0 {
      WeightedGeomSumClosed(x, n - 1);
      var m := (n - 1) as real;
      var y := Pow(x, n - 1);
      assert Pow(x, n) == x * y;
      assert (1.0 - x) * (m * y) == m * y - m * (x * y);
    }
  }

  lemma {:induction false} WeightedGeomSumAtOne(n: nat)
    ensures 2.0 * WeightedGeomSum(1.0, n) == n as real * (n as real - 1.0)
  {
    if n > 0 {
      WeightedGeomSumAtOne(n - 1);
      PowOne(n - 1);
    }
  }

  /** 1 + x + ... + x^(n-1) >= 1 for x >= 0 and n >= 1. */
  lemma {:induction false} GeomSumAtLeastOne(x: real, n: nat)
    requires x >= 0.0 && n >= 1
    ensures GeomSum(x, n) >= 1.0
  {
    if n > 1 {
      GeomSumAtLeastOne(x, n - 1);
      PowNonNegative(x, n - 1);
    }
  }

  /** Both closed forms at m + 1 terms, with the exponent written as m. */
  lemma {:induction false} ClosedForms(x: real, m: nat)
    ensures (1.0 - x) * GeomSum(x, m + 1) == 1.0 - Pow(x, m + 1)
    ensures (1.0 - x) * WeightedGeomSum(x, m + 1)
            == GeomSum(x, m + 1) - 1.0 - (m as real) * Pow(x, m + 1)
  {
    GeomSumClosed(x, m + 1);
    WeightedGeomSumClosed(x, m + 1);
    assert ((m + 1) as real - 1.0) == m as real;
  }

  /** (1 - x)^2 * sum_{j<=m} j x^j = x (1 - x^m ((m + 1) - m x)) */
  lemma {:induction false} WeightedGeomSumSquared(x: real, m: nat)
    ensures Square(1.0 - x) * WeightedGeomSum(x, m + 1)
            == x * (1.0 - Pow(x, m) * ((m as real + 1.0) - (m as real) * x))
  {
    WeightedGeomSumByProduct(x, m);
  }

  lemma {:induction false} WeightedGeomSumByProduct(x: real, m: nat)
    ensures (1.0 - x) * (1.0 - x) * WeightedGeomSum(x, m + 1)
            == x * (1.0 - Pow(x, m) * ((m as real + 1.0) - (m as real) * x))
  {
    ClosedForms(x, m);
    assert Pow(x, m + 1) == x * Pow(x, m);
    SquaredStep(x, GeomSum(x, m + 1), WeightedGeomSum(x, m + 1), Pow(x, m), m as real);
  }

  lemma {:induction false} SquaredStep(x: real, g: real, w: real, y: real, mm: real)
    requires (1.0 - x) * g == 1.0 - x * y
    requires (1.0 - x) * w == g - 1.0 - mm * (x * y)
    ensures (1.0 - x) * (1.0 - x) * w == x * (1.0 - y * ((mm + 1.0) - mm * x))
  {
    assert (1.0 - x) * (1.0 - x) * w == (1.0 - x) * ((1.0 - x) * w);
    assert (1.0 - x) * (g - 1.0 - mm * (x * y)) == (1.0 - x) * g - (1.0 - x) - mm * (x * y) * (1.0 - x);
  }

  /** A sequence whose k-th term is c * x^k sums to c times the geometric series. */
  lemma {:induction false} GeometricSequenceSum(s: seq<real>, c: real, x: real)
    requires Geometric(s, c, x)
    ensures Sum(s) == c * GeomSum(x, |s|)
  {
    if |s| > 0 {
      var n := |s| - 1;
      GeometricSequenceSum(s[..n], c, x);
      assert c * GeomSum(x, n + 1) == c * GeomSum(x, n) + c * Pow(x, n);
    }
  }

  /** A geometric distribution's first terms, (1 - x) x^k, sum to 1 - x^|s|. */
  lemma {:induction false} GeometricPrefixSum(s: seq<real>, x: real)
    requires Geometric(s, 1.0 - x, x)
    ensures Sum(s) == 1.0 - Pow(x, |s|)
  {
    GeometricSequenceSum(s, 1.0 - x, x);
    GeomSumClosed(x, |s|);
  }

  /** No entry of index at most c contributes to the excess over c. */
  lemma {:induction false} ExcessOfHead(s: seq<real>, c: nat)
    requires |s| <= c + 1
    ensures Excess(s, c) == 0.0
  {
    if |s| > 0 {
      ExcessOfHead(s[..|s| - 1], c);
    }
  }

  /** The excess over h is the first moment of the entries from index h on. */
  lemma {:induction false} ExcessIsShiftedMoment(s: seq<real>, h: nat)
    requires h <= |s|
    ensures Excess(s, h) == Moment(s[h..])
  {
    if |s| == h {
      ExcessOfHead(s, h);
    } else {
      var n := |s| - 1;
      ExcessIsShiftedMoment(s[..n], h);
      assert s[..n][h..] == s[h..][..n - h];
      assert (if n <= h then 0.0 else (n - h) as real) == (n - h) as real;
    }
  }

  /** A head of known sum followed by a geometric tail. */
  lemma {:induction false} HeadAndGeometricTail(s: seq<real>, h: nat, n: nat, e: real, c: real, x: real)
    requires h + n == |s| && Sum(s[..h]) == e && Geometric(s[h..], c, x)
    ensures Sum(s) == e + c * GeomSum(x, n)
  {
    SumSplit(s, h);
    GeometricSequenceSum(s[h..], c, x);
  }

  /** ... and its first moment is c times the weighted series. */
  lemma {:induction false} GeometricSequenceMoment(s: seq<real>, c: real, x: real)
    requires Geometric(s, c, x)
    ensures Moment(s) == c * WeightedGeomSum(x, |s|)
  {
    var g := Powers(x, |s|);
    forall k | 0 <= k < |s|
      ensures s[k] == c * g[k]
    {
      assert g[k] == Pow(x, k);
    }
    MomentLinear(s, g, c);
    PowersMoment(x, |s|);
  }

  /** 1, x, x², ..., x^(n-1). */
  function Powers(x: real, n: nat): (g: seq<real>)
    ensures |g| == n && forall k :: 0 <= k < n ==> g[k] == Pow(x, k)
  {
    seq(n, k requires 0 <= k < n => Pow(x, k))
  }

  /** The moment of the powers of x is the weighted geometric sum. */
  lemma {:induction false} PowersMoment(x: real, n: nat)
    ensures Moment(Powers(x, n)) == WeightedGeomSum(x, n)
  {
    if n > 0 {
      assert Powers(x, n)[..n - 1] == Powers(x, n - 1);
      PowersMoment(x, n - 1);
    }
  }

  /** Scaling every entry by c scales the moment by c. */
  lemma {:induction false} MomentLinear(s: seq<real>, g: seq<real>, c: real)
    requires |s| == |g| && forall k :: 0 <= k < |s| ==> s[k] == c * g[k]
    ensures Moment(s) == c * Moment(g)
  {
    if |s| > 0 {
      var n := |s| - 1;
      MomentLinear(s[..n], g[..n], c);
      MomentStep(Moment(s), Moment(s[..n]), s[n], n as real, Moment(g[..n]), Moment(g), c, g[n]);
    }
  }

  /** One step of the induction above, over plain reals: if the prefix's
      moment is c w and the new entry is c p, the whole moment is c (w + m p). */
  lemma {:induction false} MomentStep(ms: real, mp: real, t: real, m: real, w: real, w1: real, c: real, p: real)
    requires mp == c * w && t == c * p && ms == mp + m * t && w1 == w + m * p
    ensures ms == c * w1
  {
    assert c * (w + m * p) == c * w + m * (c * p);
  }


}
