/** The numeric reductions the trend detector borrows from pandas and numpy:
    sums and means, squared deviations, day-over-day differences, counts of
    rising and falling steps, and `tail`. Quantities are exact reals. */
module SeriesStats {

  function Min(a: int, b: int): int {
    if a <= b then a else b
  }

  /** The last `k` elements of `s` (all of `s` when it is shorter), as `Series.tail(k)`. */
  function Tail<T>(s: seq<T>, k: nat): (r: seq<T>)
    ensures |r| == Min(|s|, k)
    ensures r == s[|s| - |r|..]
  {
    if |s| <= k then s else s[|s| - k..]
  }

  function Sum(s: seq<real>): real {
    if |s| == 0 then 0.0 else Sum(s[..|s| - 1]) + s[|s| - 1]
  }

  /** Arithmetic mean; pandas gives NaN for an empty series, so callers guard it. */
  function Mean(s: seq<real>): real
    requires |s| > 0
  {
    Sum(s) / (|s| as real)
  }

  function Square(x: real): (r: real)
    ensures r >= 0.0
  {
    x * x
  }

  lemma PositiveProduct(a: real, b: real)
    requires a > 0.0 && b > 0.0
    ensures a * b > 0.0
  {
  }

  lemma MulStrict(a: real, b: real, c: real)
    requires a > 0.0 && b < c
    ensures a * b < a * c
  {
  }

  lemma MulWeak(a: real, b: real, c: real)
    requires a >= 0.0 && b <= c
    ensures a * b <= a * c
  {
  }

  /** Sum of squared deviations from `m`; never negative. */
  function SumSquaredDeviation(s: seq<real>, m: real): (r: real)
    ensures r >= 0.0
  {
    if |s| == 0 then 0.0
    else
      SumSquaredDeviation(s[..|s| - 1], m) + Square(s[|s| - 1] - m)
  }

  /** Population variance (`ddof=0`). */
  function PopulationVariance(s: seq<real>): (r: real)
    requires |s| > 0
    ensures r >= 0.0
  {
    SumSquaredDeviation(s, Mean(s)) / (|s| as real)
  }

  /** `numpy.diff`: the day-over-day steps; one shorter than `s`. */
  function Diffs(s: seq<real>): (d: seq<real>)
    ensures |d| == if |s| == 0 then 0 else |s| - 1
    ensures forall i :: 0 <= i < |d| ==> d[i] == s[i + 1] - s[i]
  {
    if |s| <= 1 then [] else seq(|s| - 1, i requires 0 <= i < |s| - 1 => s[i + 1] - s[i])
  }

  /** Number of strictly positive entries, as `(d > 0).sum()`. */
  function CountPositive(d: seq<real>): nat {
    if |d| == 0 then 0
    else CountPositive(d[..|d| - 1]) + (if d[|d| - 1] > 0.0 then 1 else 0)
  }

  /** Number of strictly negative entries, as `(d < 0).sum()`. */
  function CountNegative(d: seq<real>): nat {
    if |d| == 0 then 0
    else CountNegative(d[..|d| - 1]) + (if d[|d| - 1] < 0.0 then 1 else 0)
  }

  /** A step cannot be both up and down, and flat steps count for neither. */
  lemma {:induction false} StepCountsBounded(d: seq<real>)
    ensures CountPositive(d) + CountNegative(d) <= |d|
    ensures (forall i :: 0 <= i < |d| ==> d[i] == 0.0) ==> CountPositive(d) == 0 && CountNegative(d) == 0
  {
    if |d| > 0 {
      StepCountsBounded(d[..|d| - 1]);
    }
  }

  /** No step is counted as rising exactly when none is positive, and none as
      falling exactly when none is negative. */
  lemma {:induction false} CountsVanish(d: seq<real>)
    ensures CountPositive(d) == 0 <==> forall i :: 0 <= i < |d| ==> d[i] <= 0.0
    ensures CountNegative(d) == 0 <==> forall i :: 0 <= i < |d| ==> d[i] >= 0.0
  {
    if |d| > 0 {
      var init := d[..|d| - 1];
      CountsVanish(init);
      assert forall i :: 0 <= i < |init| ==> init[i] == d[i];
    }
  }

  lemma {:induction false} SumOfConstant(s: seq<real>, c: real)
    requires forall i :: 0 <= i < |s| ==> s[i] == c
    ensures Sum(s) == (|s| as real) * c
  {
    if |s| > 0 {
      SumOfConstant(s[..|s| - 1], c);
    }
  }

  /** A constant series has itself as mean and no spread around it. */
  lemma {:induction false} ConstantSeriesHasNoSpread(s: seq<real>, c: real)
    requires |s| > 0
    requires forall i :: 0 <= i < |s| ==> s[i] == c
    ensures Mean(s) == c
    ensures PopulationVariance(s) == 0.0
  {
    SumOfConstant(s, c);
    NoDeviationFromConstant(s, c);
  }

  lemma {:induction false} NoDeviationFromConstant(s: seq<real>, c: real)
    requires forall i :: 0 <= i < |s| ==> s[i] == c
    ensures SumSquaredDeviation(s, c) == 0.0
  {
    if |s| > 0 {
      NoDeviationFromConstant(s[..|s| - 1], c);
    }
  }
}
