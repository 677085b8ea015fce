/**
 * `detect_outliers` (data_engine/cleaner.py): per numeric column, the number
 * of values whose z-score (population standard deviation, missing values
 * left out) exceeds 3 in absolute value. Over the reals |z| > 3 is
 * (x - mean)^2 > 9 * variance; a column whose variance is zero gets
 * z-scores of NaN and so no outlier, which the same inequality gives.
 */
module Outliers {
  import opened Results
  import opened Seqs
  import opened Dicts
  import opened Frames
  import opened Statistics

  /** |x - m| / sqrt(v) > 3, squared. */
  predicate IsOutlier(x: real, m: real, v: real) {
    Square(x - m) > 9.0 * v
  }

  /** The number of outliers among `xs`. */
  function CountOutliers(xs: seq<real>, m: real, v: real): (n: nat)
    ensures n <= |xs|
    ensures n == 0 <==> forall i :: 0 <= i < |xs| ==> !IsOutlier(xs[i], m, v)
  {
    if |xs| == 0 then 0
    else
      var init := xs[..|xs| - 1];
      assert forall i :: 0 <= i < |init| ==> init[i] == xs[i];
      CountOutliers(init, m, v) + (if IsOutlier(xs[|xs| - 1], m, v) then 1 else 0)
  }

  /** The outlier count of one column, missing values left out. */
  function OutlierCount(col: seq<Cell>): (n: nat)
    ensures n <= |Numbers(col)|
  {
    var xs := Numbers(col);
    if |xs| == 0 then 0 else CountOutliers(xs, Mean(xs), Variance(xs))
  }

  /** The indices of the numeric columns below `n`, in order
      (`select_dtypes(include=[np.number])`). */
  function NumericColumns(kinds: seq<Kind>, n: nat): (idx: seq<nat>)
    requires n <= |kinds|
    ensures |idx| <= n
    ensures forall t :: 0 <= t < |idx| ==> idx[t] < n && kinds[idx[t]] == Numeric
    ensures forall j :: 0 <= j < n && kinds[j] == Numeric ==> j in idx
    ensures forall s, t :: 0 <= s < t < |idx| ==> idx[s] < idx[t]
  {
    if n == 0 then []
    else
      var init := NumericColumns(kinds, n - 1);
      if kinds[n - 1] == Numeric then init + [n - 1] else init
  }

  /** The (column, outlier count) pairs in column order. */
  function OutlierPairs(f: Frame): (ps: seq<(string, nat)>)
    requires WellFormed(f)
    ensures |ps| == |NumericColumns(f.kinds, |f.kinds|)|
  {
    var idx := NumericColumns(f.kinds, |f.kinds|);
    seq(|idx|, t requires 0 <= t < |idx| => (f.columns[idx[t]], OutlierCount(Column(f.rows, idx[t]))))
  }

  /** `detect_outliers(df)`: an empty dict when the numeric part of the frame
      is empty (no numeric column or no row); otherwise one entry per numeric
      column name, in column order. */
  function DetectOutliers(f: Frame): (d: Dict<nat>)
    requires WellFormed(f)
    ensures (forall j :: 0 <= j < |f.kinds| ==> f.kinds[j] != Numeric) ==> d == []
    ensures |f.rows| == 0 ==> d == []
    ensures Distinct(Keys(d))
  {
    var ps := OutlierPairs(f);
    if |ps| == 0 || |f.rows| == 0 then []
    else
      FromPairsKeys(ps);
      FromPairs(ps)
  }

  /** With distinct column names and at least one row, the report maps every
      numeric column to its outlier count and has no entry for any other column. */
  lemma DetectOutliersGet(f: Frame, j: nat)
    requires WellFormed(f) && Distinct(f.columns) && |f.rows| > 0 && j < |f.columns|
    ensures Get(DetectOutliers(f), f.columns[j])
         == if f.kinds[j] == Numeric then Some(OutlierCount(Column(f.rows, j))) else None
  {
    var idx := NumericColumns(f.kinds, |f.kinds|);
    var ps := OutlierPairs(f);
    var k := f.columns[j];
    if f.kinds[j] == Numeric {
      var t :| 0 <= t < |idx| && idx[t] == j;
      forall t' | 0 <= t' < |ps| && t' != t ensures ps[t'].0 != k {
        assert idx[t'] != idx[t];
      }
      LastValueUnique(ps, t);
    } else {
      forall t' | 0 <= t' < |ps| ensures ps[t'].0 != k {
        assert idx[t'] != j;
      }
      assert k !in Keys(ps);
    }
    if |ps| > 0 {
      FromPairsGet(ps, k);
    }
  }

  /** A column with at most ten values never has an outlier: |z| cannot exceed
      sqrt(n - 1) <= 3. */
  lemma SmallColumnNoOutliers(xs: seq<real>)
    requires 0 < |xs| <= 10
    ensures CountOutliers(xs, Mean(xs), Variance(xs)) == 0
  {
    forall i | 0 <= i < |xs| ensures !IsOutlier(xs[i], Mean(xs), Variance(xs)) {
      SmallColumnValue(xs, i);
    }
  }

  lemma SmallColumnValue(xs: seq<real>, i: nat)
    requires i < |xs| <= 10
    ensures !IsOutlier(xs[i], Mean(xs), Variance(xs))
  {
    Samuelson(xs, i);
    WithinThree(Square(xs[i] - Mean(xs)), (|xs| - 1) as real, Variance(xs));
  }

  lemma WithinThree(dd: real, k: real, v: real)
    requires 0.0 <= k <= 9.0 && v >= 0.0 && AtMostTimes(dd, k, v)
    ensures !(dd > 9.0 * v)
  {
    assert (9.0 - k) * v >= 0.0;
  }

  /** The five values 1, 2, 3, 4 and 100 yield no outlier: with five values
      the largest possible |z| is 2. */
  lemma FiveValuesNoOutlier()
    ensures OutlierCount([Num(1.0), Num(2.0), Num(3.0), Num(4.0), Num(100.0)]) == 0
  {
    var col := [Num(1.0), Num(2.0), Num(3.0), Num(4.0), Num(100.0)];
    assert col[4].Num?;
    SmallColumnNoOutliers(Numbers(col));
  }

  /** A column whose values are all equal has variance zero and no outlier. */
  lemma ConstantColumnNoOutliers(xs: seq<real>, c: real)
    requires |xs| > 0 && forall i :: 0 <= i < |xs| ==> xs[i] == c
    ensures Variance(xs) == 0.0
    ensures CountOutliers(xs, Mean(xs), Variance(xs)) == 0
  {
    ConstantVariance(xs, c);
    forall i | 0 <= i < |xs| ensures !IsOutlier(xs[i], Mean(xs), Variance(xs)) {
      assert xs[i] - Mean(xs) == 0.0;
    }
  }
}
