/**
 * Sums, the mean and the population variance of a sequence of reals, with
 * Samuelson's inequality bounding how far one value can lie from the mean.
 */
module Statistics {
  function Square(x: real): real {
    x * x
  }

  lemma SquareNonnegative(x: real)
    ensures Square(x) >= 0.0
  {
  }

  function Sum(xs: seq<real>): real {
    if |xs| == 0 then 0.0 else Sum(xs[..|xs| - 1]) + xs[|xs| - 1]
  }

  function SumSquares(xs: seq<real>): real {
    if |xs| == 0 then 0.0 else SumSquares(xs[..|xs| - 1]) + Square(xs[|xs| - 1])
  }

  function Mean(xs: seq<real>): real
    requires |xs| > 0
  {
    Sum(xs) / (|xs| as real)
  }

  /** Each value minus `m`. */
  function Deviations(xs: seq<real>, m: real): (d: seq<real>)
    ensures |d| == |xs|
    ensures forall i :: 0 <= i < |xs| ==> d[i] == xs[i] - m
  {
    seq(|xs|, i requires 0 <= i < |xs| => xs[i] - m)
  }

  /** The population variance (`ddof=0`). */
  function Variance(xs: seq<real>): (v: real)
    requires |xs| > 0
    ensures v >= 0.0
  {
    SumSquaresNonnegative(Deviations(xs, Mean(xs)));
    SumSquares(Deviations(xs, Mean(xs))) / (|xs| as real)
  }

  /** The sum of (y - a)^2 over `s`, expanded. */
  function Spread(s: seq<real>, a: real): real {
    SumSquares(s) - 2.0 * a * Sum(s) + (|s| as real) * Square(a)
  }

  /** `x <= k * y`, stated as one predicate so that a goal of this shape
      matches the fact that establishes it. */
  predicate AtMostTimes(x: real, k: real, y: real) {
    x <= k * y
  }

  /** `n * x <= m * y`, likewise. */
  predicate ScaledAtMost(n: real, x: real, m: real, y: real) {
    n * x <= m * y
  }

  lemma {:induction false} SumSquaresNonnegative(xs: seq<real>)
    ensures SumSquares(xs) >= 0.0
  {
    if |xs| > 0 {
      SumSquaresNonnegative(xs[..|xs| - 1]);
      SquareNonnegative(xs[|xs| - 1]);
    }
  }

  // ---------------------------------------------------------------------------
  // Arithmetic steps, stated over plain reals

  lemma SquareExpand(y: real, a: real)
    ensures Square(y - a) == Square(y) - 2.0 * a * y + Square(a)
    ensures Square(y + a) == Square(y) + 2.0 * a * y + Square(a)
  {
  }

  lemma SpreadStep(g': real, g: real, q: real, p: real, k: real, a: real, y: real, n: real, sum: real, sq: real)
    requires g == q - 2.0 * a * p + k * Square(a)
    requires g' == sq - 2.0 * a * sum + n * Square(a)
    requires n == k + 1.0 && sum == p + y && sq == q + Square(y)
    ensures g' == g + Square(y - a)
  {
    SquareExpand(y, a);
    assert 2.0 * a * (p + y) == 2.0 * a * p + 2.0 * a * y;
    assert (k + 1.0) * Square(a) == k * Square(a) + Square(a);
  }

  lemma CauchyStep(k: real, p: real, q: real, a: real, g: real, n: real, sum: real, sq: real)
    requires k >= 0.0
    requires AtMostTimes(Square(p), k, q)
    requires g >= 0.0 && g == q - 2.0 * a * p + k * Square(a)
    requires n == k + 1.0 && sum == p + a && sq == q + Square(a)
    ensures AtMostTimes(Square(sum), n, sq)
  {
    SquareExpand(p, a);
    assert Square(sum) == Square(p) + 2.0 * a * p + Square(a);
    assert n * sq == k * q + q + k * Square(a) + Square(a);
  }

  lemma EmptyProducts(n: real, sum: real, sq: real)
    requires n == 0.0 && sum == 0.0
    ensures AtMostTimes(Square(sum), n, sq)
  {
    assert Square(sum) == 0.0;
    assert n * sq == 0.0;
  }

  lemma CancelFactor(n: real, x: real, y: real)
    requires n > 0.0 && n * x <= n * y
    ensures x <= y
  {
    assert n * x - n * y == n * (x - y);
  }

  lemma CenteredStep(n: real, m: real, s: real, d: real, sumRest: real, sqRest: real)
    requires m == n - 1.0
    requires sumRest == -d && sqRest == s - Square(d)
    requires AtMostTimes(Square(sumRest), m, sqRest)
    ensures ScaledAtMost(n, Square(d), m, s)
  {
    assert Square(-d) == Square(d);
  }

  lemma VarianceStep(n: real, m: real, s: real, dd: real, v: real)
    requires n >= 1.0 && ScaledAtMost(n, dd, m, s) && v == s / n
    ensures AtMostTimes(dd, m, v)
  {
    assert s == n * v;
    assert m * s == n * (m * v);
    CancelFactor(n, dd, m * v);
  }

  // ---------------------------------------------------------------------------
  // Sums

  lemma {:induction false} SumConcat(a: seq<real>, b: seq<real>)
    ensures Sum(a + b) == Sum(a) + Sum(b)
  {
    if |b| > 0 {
      assert (a + b)[..|a + b| - 1] == a + b[..|b| - 1];
      SumConcat(a, b[..|b| - 1]);
    } else {
      assert a + b == a;
    }
  }

  lemma {:induction false} SumSquaresConcat(a: seq<real>, b: seq<real>)
    ensures SumSquares(a + b) == SumSquares(a) + SumSquares(b)
  {
    if |b| > 0 {
      assert (a + b)[..|a + b| - 1] == a + b[..|b| - 1];
      SumSquaresConcat(a, b[..|b| - 1]);
    } else {
      assert a + b == a;
    }
  }

  /** The deviations from `m` sum to the sum less |xs| times `m`. */
  lemma {:induction false} SumDeviations(xs: seq<real>, m: real)
    ensures Sum(Deviations(xs, m)) == Sum(xs) - (|xs| as real) * m
  {
    if |xs| > 0 {
      var init := xs[..|xs| - 1];
      SumDeviations(init, m);
      assert Deviations(xs, m)[..|xs| - 1] == Deviations(init, m);
    }
  }

  /** The deviations from the mean sum to zero. */
  lemma MeanDeviations(xs: seq<real>)
    requires |xs| > 0
    ensures Sum(Deviations(xs, Mean(xs))) == 0.0
  {
    SumDeviations(xs, Mean(xs));
  }

  /** Adding a value y to `s` adds (y - a)^2 to its spread around `a`. */
  lemma SpreadSnoc(s: seq<real>, a: real)
    requires |s| > 0
    ensures Spread(s, a) == Spread(s[..|s| - 1], a) + Square(s[|s| - 1] - a)
  {
    var init := s[..|s| - 1];
    SpreadStep(Spread(s, a), Spread(init, a), SumSquares(init), Sum(init), |init| as real, a, s[|s| - 1],
      |s| as real, Sum(s), SumSquares(s));
  }

  lemma {:induction false} SpreadNonnegative(s: seq<real>, a: real)
    ensures Spread(s, a) >= 0.0
  {
    if |s| == 0 {
      assert Spread(s, a) == 0.0 - 2.0 * a * 0.0 + 0.0 * Square(a);
    } else {
      SpreadNonnegative(s[..|s| - 1], a);
      SpreadSnoc(s, a);
      SquareNonnegative(s[|s| - 1] - a);
    }
  }

  /** Cauchy-Schwarz for a sum: (sum of s)^2 <= |s| * (sum of squares of s). */
  lemma {:induction false} CauchySchwarz(s: seq<real>)
    ensures AtMostTimes(Square(Sum(s)), |s| as real, SumSquares(s))
  {
    if |s| == 0 {
      EmptyProducts(|s| as real, Sum(s), SumSquares(s));
    } else {
      var init := s[..|s| - 1];
      var a := s[|s| - 1];
      CauchySchwarz(init);
      SpreadNonnegative(init, a);
      CauchyStep(|init| as real, Sum(init), SumSquares(init), a, Spread(init, a), |s| as real, Sum(s), SumSquares(s));
    }
  }

  /** Samuelson's inequality: no value lies further than sqrt(n - 1) standard
      deviations from the mean of n values. */
  lemma Samuelson(xs: seq<real>, i: nat)
    requires i < |xs|
    ensures AtMostTimes(Square(xs[i] - Mean(xs)), (|xs| - 1) as real, Variance(xs))
  {
    var dev := Deviations(xs, Mean(xs));
    MeanDeviations(xs);
    CenteredBound(dev, i);
    VarianceStep(|xs| as real, ((|xs| - 1) as real), SumSquares(dev), Square(xs[i] - Mean(xs)), Variance(xs));
  }

  /** The same bound for values that sum to zero, before dividing by n. */
  lemma CenteredBound(dev: seq<real>, i: nat)
    requires i < |dev| && Sum(dev) == 0.0
    ensures ScaledAtMost(|dev| as real, Square(dev[i]), (|dev| - 1) as real, SumSquares(dev))
  {
    var rest := dev[..i] + dev[i + 1..];
    RemoveOne(dev, i);
    CauchySchwarz(rest);
    assert |rest| == |dev| - 1;
    CenteredStep(|dev| as real, (|dev| - 1) as real, SumSquares(dev), dev[i], Sum(rest), SumSquares(rest));
  }

  /** Taking one element out of a sequence takes it out of both sums. */
  lemma RemoveOne(s: seq<real>, i: nat)
    requires i < |s|
    ensures Sum(s[..i] + s[i + 1..]) == Sum(s) - s[i]
    ensures SumSquares(s[..i] + s[i + 1..]) == SumSquares(s) - Square(s[i])
  {
    var a, x, b := s[..i], s[i], s[i + 1..];
    assert s == a + s[i..];
    assert s[i..] == [x] + b;
    assert [x][..0] == [];
    SumConcat(a, s[i..]);
    SumConcat([x], b);
    SumConcat(a, b);
    SumSquaresConcat(a, s[i..]);
    SumSquaresConcat([x], b);
    SumSquaresConcat(a, b);
  }

  // ---------------------------------------------------------------------------
  // Constant data

  lemma {:induction false} ConstantSum(xs: seq<real>, c: real)
    requires forall i :: 0 <= i < |xs| ==> xs[i] == c
    ensures Sum(xs) == (|xs| as real) * c
  {
    if |xs| > 0 {
      ConstantSum(xs[..|xs| - 1], c);
    }
  }

  lemma {:induction false} ZeroSquares(d: seq<real>)
    requires forall i :: 0 <= i < |d| ==> d[i] == 0.0
    ensures SumSquares(d) == 0.0
  {
    if |d| > 0 {
      ZeroSquares(d[..|d| - 1]);
    }
  }

  /** Equal values have that value as their mean and no spread. */
  lemma ConstantVariance(xs: seq<real>, c: real)
    requires |xs| > 0 && forall i :: 0 <= i < |xs| ==> xs[i] == c
    ensures Mean(xs) == c && Variance(xs) == 0.0
  {
    ConstantSum(xs, c);
    ZeroSquares(Deviations(xs, c));
  }
}
