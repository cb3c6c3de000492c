/** Rule-based demand-trend classification per product (agents/trend_detector.py).

    Each product's daily series is sorted by date, cut to its most recent
    `trendWindow` points, summarised by a few window statistics, and given one
    label by an ordered "first matching rule wins" ladder. The detector keeps
    one variable, the last label it assigned, alive from one product to the
    next; the ladder's single-day-spike rule reads it, so the verdict for a
    product can depend on the product classified before it. */
module TrendDetector {
  import opened Wrappers
  import opened SeriesStats

  // ---------------------------------------------------------------- data model

  datatype Label = InsufficientData | Spiky | Increasing | Decreasing | Stable

  datatype Direction = Up | Down

  /** Which rule fired, with the numbers its explanation cites. */
  datatype Reason =
    | ShortHistory(daysAvailable: nat, minimumRequired: int)
    | Volatile(volatilitySquared: real)
    | MostlyIncreases(last: real, average: real, pctChange: real, numIncreases: nat, numDecreases: nat)
    | MostlyDecreases(last: real, average: real, pctChange: real, numDecreases: nat, numIncreases: nat)
    | SingleDaySpike(direction: Direction, threshold: real)
    | LimitedBias(last: real, average: real, numIncreases: nat, numDecreases: nat)

  /** One aggregated sales record of a product: a day number and its quantity. */
  datatype Point = Point(date: int, quantity: real)

  /** The rows of one product, as a `groupby("product_name")` group. */
  datatype ProductSeries = ProductSeries(name: string, points: seq<Point>)

  /** The verdict for one product. The volatility index (a coefficient of
      variation, which needs a square root) is held exactly by its square. */
  datatype ProductTrend = ProductTrend(
    productName: string,
    trendLabel: Label,
    reason: Reason,
    lastQuantity: real,
    averageQuantity: real,
    pctChangeVsAvg: real,
    volatilitySquared: real,
    numDaysUsed: nat)

  /** Reading the carried-over label before any product has set it
      (Python raises `UnboundLocalError`). */
  datatype Fault = UnboundTrendLabel(productName: string)

  datatype DetectorConfig = DetectorConfig(
    trendWindow: int,
    minHistory: int,
    increasingThreshold: real,
    decreasingThreshold: real,
    volatilityThreshold: real,
    spikePctChangeThreshold: real)
  {
    /** A window of at least one point, so that the last point exists. */
    predicate Valid() {
      trendWindow >= 1
    }
  }

  const DefaultDetectorConfig := DetectorConfig(7, 3, 0.20, -0.20, 0.50, 0.50)

  // ---------------------------------------------------------- date ordering

  ghost predicate DatesAscending(s: seq<Point>) {
    forall i, j :: 0 <= i < j < |s| ==> s[i].date <= s[j].date
  }

  /** Every point of `s` is dated no earlier than `d`. */
  ghost predicate DatedFrom(s: seq<Point>, d: int) {
    forall i :: 0 <= i < |s| ==> d <= s[i].date
  }

  function InsertByDate(p: Point, s: seq<Point>): (r: seq<Point>)
    ensures |r| == |s| + 1
  {
    if |s| == 0 then [p]
    else if p.date <= s[0].date then [p] + s
    else [s[0]] + InsertByDate(p, s[1..])
  }

  lemma {:induction false} InsertIsPermutation(p: Point, s: seq<Point>)
    ensures multiset(InsertByDate(p, s)) == multiset(s) + multiset{p}
  {
    if |s| > 0 && p.date > s[0].date {
      InsertIsPermutation(p, s[1..]);
      assert s == [s[0]] + s[1..];
    }
  }

  lemma {:induction false} InsertKeepsLowerBound(p: Point, s: seq<Point>, d: int)
    requires d <= p.date && DatedFrom(s, d)
    ensures DatedFrom(InsertByDate(p, s), d)
  {
    if |s| > 0 && p.date > s[0].date {
      InsertKeepsLowerBound(p, s[1..], d);
      var r := InsertByDate(p, s);
      forall i | 0 <= i < |r| ensures d <= r[i].date {
        if i > 0 {
          assert r[i] == InsertByDate(p, s[1..])[i - 1];
        }
      }
    }
  }

  lemma {:induction false} InsertKeepsAscending(p: Point, s: seq<Point>)
    requires DatesAscending(s)
    ensures DatesAscending(InsertByDate(p, s))
  {
    if |s| > 0 && p.date > s[0].date {
      var rest := InsertByDate(p, s[1..]);
      assert DatesAscending(s[1..]) by {
        forall i, j | 0 <= i < j < |s[1..]| ensures s[1..][i].date <= s[1..][j].date {
          assert s[1..][i] == s[i + 1] && s[1..][j] == s[j + 1];
        }
      }
      InsertKeepsAscending(p, s[1..]);
      assert DatedFrom(s[1..], s[0].date) by {
        forall i | 0 <= i < |s[1..]| ensures s[0].date <= s[1..][i].date {
          assert s[1..][i] == s[i + 1];
        }
      }
      InsertKeepsLowerBound(p, s[1..], s[0].date);
      var r := [s[0]] + rest;
      forall i, j | 0 <= i < j < |r| ensures r[i].date <= r[j].date {
        assert r[j] == rest[j - 1];
        if i > 0 {
          assert r[i] == rest[i - 1];
        }
      }
    }
  }

  /** `sort_index()` on the date index. */
  function SortByDate(s: seq<Point>): (r: seq<Point>)
    ensures |r| == |s|
  {
    if |s| == 0 then [] else InsertByDate(s[0], SortByDate(s[1..]))
  }

  lemma {:induction false} SortByDatePermutes(s: seq<Point>)
    ensures multiset(SortByDate(s)) == multiset(s)
  {
    if |s| > 0 {
      SortByDatePermutes(s[1..]);
      InsertIsPermutation(s[0], SortByDate(s[1..]));
      assert s == [s[0]] + s[1..];
    }
  }

  lemma {:induction false} SortByDateAscending(s: seq<Point>)
    ensures DatesAscending(SortByDate(s))
  {
    if |s| > 0 {
      SortByDateAscending(s[1..]);
      InsertKeepsAscending(s[0], SortByDate(s[1..]));
    }
  }

  /** The sort returns a date-ascending permutation of the points. */
  lemma SortByDateOrdersAndPermutes(s: seq<Point>)
    ensures multiset(SortByDate(s)) == multiset(s)
    ensures DatesAscending(SortByDate(s))
  {
    SortByDatePermutes(s);
    SortByDateAscending(s);
  }

  /** Points already in date order come back unchanged. */
  lemma {:induction false} SortKeepsOrderedInput(s: seq<Point>)
    requires DatesAscending(s)
    ensures SortByDate(s) == s
  {
    if |s| > 0 {
      assert DatesAscending(s[1..]) by {
        forall i, j | 0 <= i < j < |s[1..]| ensures s[1..][i].date <= s[1..][j].date {
          assert s[1..][i] == s[i + 1] && s[1..][j] == s[j + 1];
        }
      }
      SortKeepsOrderedInput(s[1..]);
      assert s == [s[0]] + s[1..];
    }
  }

  function Quantities(s: seq<Point>): (q: seq<real>)
    ensures |q| == |s|
    ensures forall i :: 0 <= i < |s| ==> q[i] == s[i].quantity
  {
    seq(|s|, i requires 0 <= i < |s| => s[i].quantity)
  }

  /** The points evaluated for a product: the most recent `trendWindow`, oldest first. */
  function WindowPoints(points: seq<Point>, trendWindow: nat): (kept: seq<Point>)
    ensures |kept| == Min(|points|, trendWindow)
  {
    Tail(SortByDate(points), trendWindow)
  }

  /** The sorted points left out of the window. */
  function DroppedPoints(points: seq<Point>, trendWindow: nat): (dropped: seq<Point>)
    ensures SortByDate(points) == dropped + WindowPoints(points, trendWindow)
  {
    var sorted := SortByDate(points);
    assert sorted == sorted[..|sorted| - Min(|sorted|, trendWindow)] + sorted[|sorted| - Min(|sorted|, trendWindow)..];
    sorted[..|sorted| - Min(|sorted|, trendWindow)]
  }

  function Window(points: seq<Point>, trendWindow: nat): (w: seq<real>)
    ensures |w| == Min(|points|, trendWindow)
  {
    Quantities(WindowPoints(points, trendWindow))
  }

  /** Cutting a date-ordered sequence leaves an ordered suffix that no point of
      the prefix is later than. */
  lemma CutOfOrdered(sorted: seq<Point>, k: nat)
    requires DatesAscending(sorted) && k <= |sorted|
    ensures DatesAscending(sorted[k..])
    ensures forall i, j :: 0 <= i < k && 0 <= j < |sorted| - k ==> sorted[..k][i].date <= sorted[k..][j].date
  {
    forall i, j | 0 <= i < k && 0 <= j < |sorted| - k ensures sorted[..k][i].date <= sorted[k..][j].date {
      assert sorted[..k][i] == sorted[i] && sorted[k..][j] == sorted[k + j];
    }
    forall i, j | 0 <= i < j < |sorted| - k ensures sorted[k..][i].date <= sorted[k..][j].date {
      assert sorted[k..][i] == sorted[k + i] && sorted[k..][j] == sorted[k + j];
    }
  }

  /** The window is in date order, and together with the dropped points it is
      exactly the input; no dropped point is later than a point in the window. */
  lemma WindowIsMostRecent(points: seq<Point>, trendWindow: nat)
    ensures DatesAscending(WindowPoints(points, trendWindow))
    ensures multiset(DroppedPoints(points, trendWindow)) + multiset(WindowPoints(points, trendWindow))
            == multiset(points)
    ensures var dropped, kept := DroppedPoints(points, trendWindow), WindowPoints(points, trendWindow);
            forall i, j :: 0 <= i < |dropped| && 0 <= j < |kept| ==> dropped[i].date <= kept[j].date
  {
    var sorted := SortByDate(points);
    SortByDateOrdersAndPermutes(points);
    var dropped, kept := DroppedPoints(points, trendWindow), WindowPoints(points, trendWindow);
    var k := |dropped|;
    assert dropped == sorted[..k] && kept == sorted[k..];
    CutOfOrdered(sorted, k);
  }

  // ------------------------------------------------------- window statistics

  /** Mean of all points except the last; 0 when there are none. */
  function HistoryAverage(w: seq<real>): real
    requires |w| >= 1
  {
    if |w| >= 2 then Mean(w[..|w| - 1]) else 0.0
  }

  /** The history average, times the number of history days, is their total;
      with no history it is 0. */
  lemma HistoryAverageMeaning(w: seq<real>)
    requires |w| >= 1
    ensures |w| == 1 ==> HistoryAverage(w) == 0.0
    ensures |w| >= 2 ==> HistoryAverage(w) * ((|w| - 1) as real) == Sum(w[..|w| - 1])
  {
  }

  /** Fractional change of `last` against `avg`, or 0 when `avg` is not positive. */
  function PctChange(last: real, avg: real): (r: real)
    ensures avg <= 0.0 ==> r == 0.0
  {
    if avg > 0.0 then (last - avg) / avg else 0.0
  }

  /** Against a positive average, the change is the fraction `r` with `last == avg * (1 + r)`. */
  lemma PctChangeMeaning(last: real, avg: real)
    requires avg > 0.0
    ensures PctChange(last, avg) * avg == last - avg
    ensures last == avg * (1.0 + PctChange(last, avg))
  {
  }

  /** For a positive average, clearing a fractional threshold is a comparison of
      the last value with a scaled average. */
  lemma PctChangeThreshold(last: real, avg: real, t: real)
    requires avg > 0.0
    ensures PctChange(last, avg) >= t <==> last >= avg * (1.0 + t)
    ensures PctChange(last, avg) <= t <==> last <= avg * (1.0 + t)
  {
    var r := PctChange(last, avg);
    PctChangeMeaning(last, avg);
    if r >= t {
      MulWeak(avg, t, r);
    } else {
      MulStrict(avg, r, t);
    }
    if r <= t {
      MulWeak(avg, r, t);
    } else {
      MulStrict(avg, t, r);
    }
  }

  /** Square of the population coefficient of variation over the whole window:
      variance / mean^2 when the mean is positive, else 0. */
  function VolatilitySquared(w: seq<real>): (r: real)
    requires |w| >= 1
    ensures r >= 0.0
    ensures Mean(w) <= 0.0 ==> r == 0.0
  {
    var m := Mean(w);
    if m > 0.0 then
      DivisionKeepsSign(PopulationVariance(w), m);
      DivisionKeepsSign(PopulationVariance(w) / m, m);
      PopulationVariance(w) / m / m
    else 0.0
  }

  /** For a positive mean, the value times the mean squared is the variance:
      it is the square of (standard deviation / mean). */
  lemma VolatilityMeaning(w: seq<real>)
    requires |w| >= 1 && Mean(w) > 0.0
    ensures VolatilitySquared(w) * Mean(w) * Mean(w) == PopulationVariance(w)
  {
    DivisionKeepsSign(PopulationVariance(w), Mean(w));
    DivisionKeepsSign(PopulationVariance(w) / Mean(w), Mean(w));
  }

  lemma DivisionKeepsSign(a: real, b: real)
    requires a >= 0.0 && b > 0.0
    ensures a / b >= 0.0 && (a / b) * b == a
  {
  }

  /** `volatility >= threshold`, stated on the square of the (non-negative) volatility. */
  predicate VolatilityAtLeast(volatilitySquared: real, threshold: real) {
    threshold <= 0.0 || volatilitySquared >= threshold * threshold
  }

  /** The squared comparison agrees with comparing the volatility itself. */
  lemma VolatilityComparison(v: real, threshold: real)
    requires v >= 0.0
    ensures VolatilityAtLeast(v * v, threshold) <==> v >= threshold
  {
    if threshold > 0.0 {
      if v >= threshold {
        calc {
          v * v;
        >= { MulWeak(v, threshold, v); }
          v * threshold;
        >= { MulWeak(threshold, threshold, v); }
          threshold * threshold;
        }
      } else {
        calc {
          v * v;
        <= { MulWeak(v, v, threshold); }
          v * threshold;
        < { MulStrict(threshold, v, threshold); }
          threshold * threshold;
        }
      }
    }
  }

  /** The last up-to-3 day-over-day steps of the window. */
  function RecentDiffs(w: seq<real>): (d: seq<real>)
    ensures |d| == Min(3, if |w| == 0 then 0 else |w| - 1)
  {
    Tail(Diffs(w), 3)
  }

  datatype WindowStats = WindowStats(
    last: real,
    average: real,
    pctChange: real,
    volatilitySquared: real,
    numPositive: nat,
    numNegative: nat)

  function StatsOf(w: seq<real>): (s: WindowStats)
    requires |w| >= 1
    ensures s.last == w[|w| - 1]
    ensures s.numPositive + s.numNegative <= Min(3, |w| - 1)
    ensures s.volatilitySquared >= 0.0
  {
    var last := w[|w| - 1];
    var avg := HistoryAverage(w);
    StepCountsBounded(RecentDiffs(w));
    WindowStats(last, avg, PctChange(last, avg), VolatilitySquared(w),
                CountPositive(RecentDiffs(w)), CountNegative(RecentDiffs(w)))
  }

  // --------------------------------------------------------- spike scan

  /** Step `i` is a single-day spike: its prior value is positive and the
      fractional change reaches the threshold in absolute value. */
  predicate IsSpikeAt(w: seq<real>, i: int, threshold: real)
    requires 1 <= i < |w|
  {
    var prev := w[i - 1];
    prev > 0.0 && Abs((w[i] - prev) / prev) >= threshold
  }

  function Abs(x: real): real {
    if x < 0.0 then -x else x
  }

  /** Direction of step `i`: up exactly when the value rose. */
  function DirectionAt(w: seq<real>, i: int): (d: Direction)
    requires 1 <= i < |w| && w[i - 1] > 0.0
    ensures d == Up <==> w[i] > w[i - 1]
  {
    var prev := w[i - 1];
    var change := (w[i] - prev) / prev;
    assert change * prev == w[i] - prev;
    if change > 0.0 then Up else Down
  }

  /** The first spike at step `i` or later, scanning oldest to newest. */
  function FirstSpikeFrom(w: seq<real>, threshold: real, i: nat): Option<Direction>
    requires i >= 1
    decreases |w| - i
  {
    if i >= |w| then None
    else if IsSpikeAt(w, i, threshold) then Some(DirectionAt(w, i))
    else FirstSpikeFrom(w, threshold, i + 1)
  }

  /** The first spike of the window, if any. */
  function FirstSpike(w: seq<real>, threshold: real): Option<Direction> {
    FirstSpikeFrom(w, threshold, 1)
  }

  /** A spike in terms of the values themselves: the day's value reaches the
      previous one scaled up by `1 + threshold`, or falls to it scaled by
      `1 - threshold`. */
  lemma SpikeThreshold(w: seq<real>, i: int, threshold: real)
    requires 1 <= i < |w| && w[i - 1] > 0.0
    ensures IsSpikeAt(w, i, threshold)
            <==> w[i] >= w[i - 1] * (1.0 + threshold) || w[i] <= w[i - 1] * (1.0 - threshold)
  {
    var prev := w[i - 1];
    var change := (w[i] - prev) / prev;
    assert change * prev == w[i] - prev;
    if change >= threshold {
      MulWeak(prev, threshold, change);
    } else {
      MulStrict(prev, change, threshold);
    }
    if -change >= threshold {
      MulWeak(prev, threshold, -change);
    } else {
      MulStrict(prev, -change, threshold);
    }
  }

  lemma {:induction false} FirstSpikeFromIsEarliest(w: seq<real>, threshold: real, k: nat)
    requires k >= 1
    ensures FirstSpikeFrom(w, threshold, k).None?
            <==> forall i :: k <= i < |w| ==> !IsSpikeAt(w, i, threshold)
    ensures FirstSpikeFrom(w, threshold, k).Some? ==>
            exists i :: k <= i < |w| && IsSpikeAt(w, i, threshold)
                     && (forall j :: k <= j < i ==> !IsSpikeAt(w, j, threshold))
                     && FirstSpikeFrom(w, threshold, k).value == DirectionAt(w, i)
    decreases |w| - k
  {
    if k < |w| {
      if IsSpikeAt(w, k, threshold) {
        assert FirstSpikeFrom(w, threshold, k) == Some(DirectionAt(w, k));
      } else {
        FirstSpikeFromIsEarliest(w, threshold, k + 1);
        assert FirstSpikeFrom(w, threshold, k) == FirstSpikeFrom(w, threshold, k + 1);
        if FirstSpikeFrom(w, threshold, k + 1).Some? {
          var i :| k + 1 <= i < |w| && IsSpikeAt(w, i, threshold)
                   && (forall j :: k + 1 <= j < i ==> !IsSpikeAt(w, j, threshold))
                   && FirstSpikeFrom(w, threshold, k + 1).value == DirectionAt(w, i);
          assert forall j :: k <= j < i ==> !IsSpikeAt(w, j, threshold);
        }
      }
    }
  }

  /** The scan finds a spike exactly when one exists, and reports the
      direction of the earliest one. */
  lemma FirstSpikeIsEarliest(w: seq<real>, threshold: real)
    ensures FirstSpike(w, threshold).None?
            <==> forall i :: 1 <= i < |w| ==> !IsSpikeAt(w, i, threshold)
    ensures FirstSpike(w, threshold).Some? ==>
            exists i :: 1 <= i < |w| && IsSpikeAt(w, i, threshold)
                     && (forall j :: 1 <= j < i ==> !IsSpikeAt(w, j, threshold))
                     && FirstSpike(w, threshold).value == DirectionAt(w, i)
  {
    FirstSpikeFromIsEarliest(w, threshold, 1);
  }

  /** The spike scan: an index loop that stops at the first qualifying step. */
  method ScanForSpike(w: seq<real>, threshold: real) returns (spike: Option<Direction>)
    ensures spike == FirstSpike(w, threshold)
  {
    var i := 1;
    while i < |w|
      invariant i >= 1
      invariant FirstSpikeFrom(w, threshold, i) == FirstSpike(w, threshold)
      decreases |w| - i
    {
      var prev := w[i - 1];
      var cur := w[i];
      if prev > 0.0 {
        var change := (cur - prev) / prev;
        if Abs(change) >= threshold {
          spike := Some(if change > 0.0 then Up else Down);
          return;
        }
      }
      i := i + 1;
    }
    spike := None;
  }

  // ------------------------------------------------------- the rule ladder

  /** Rule (a): volatile, and the change clears neither directional threshold. */
  predicate VolatileRule(s: WindowStats, cfg: DetectorConfig) {
    VolatilityAtLeast(s.volatilitySquared, cfg.volatilityThreshold)
    && !(s.pctChange >= cfg.increasingThreshold || s.pctChange <= cfg.decreasingThreshold)
  }

  /** Rule (b): the change clears the increasing threshold and at least two recent steps rose. */
  predicate RisingRule(s: WindowStats, cfg: DetectorConfig) {
    s.pctChange >= cfg.increasingThreshold && s.numPositive >= 2
  }

  /** Rule (c): the change clears the decreasing threshold and at least two recent steps fell. */
  predicate FallingRule(s: WindowStats, cfg: DetectorConfig) {
    s.pctChange <= cfg.decreasingThreshold && s.numNegative >= 2
  }

  predicate FallsThrough(s: WindowStats, cfg: DetectorConfig) {
    !VolatileRule(s, cfg) && !RisingRule(s, cfg) && !FallingRule(s, cfg)
  }

  datatype Verdict = Verdict(trendLabel: Label, reason: Reason)

  /** The ordered ladder as the detector runs it. `lastLabel` is the label the
      detector last assigned to any product (None before the first); the
      spike rule reads it, and `None` there is the unbound-variable fault. */
  function Ladder(s: WindowStats, spike: Option<Direction>, lastLabel: Option<Label>, cfg: DetectorConfig)
    : (r: Option<Verdict>)
    ensures r.None? ==> lastLabel.None?
    ensures r.Some? ==> r.value.trendLabel != InsufficientData
    ensures r.Some? && r.value.trendLabel == Increasing ==> RisingRule(s, cfg)
    ensures r.Some? && r.value.trendLabel == Decreasing ==> FallingRule(s, cfg)
  {
    if VolatileRule(s, cfg) then
      Some(Verdict(Spiky, Volatile(s.volatilitySquared)))
    else if RisingRule(s, cfg) then
      Some(Verdict(Increasing, MostlyIncreases(s.last, s.average, s.pctChange, s.numPositive, s.numNegative)))
    else if FallingRule(s, cfg) then
      Some(Verdict(Decreasing, MostlyDecreases(s.last, s.average, s.pctChange, s.numNegative, s.numPositive)))
    else if spike.Some? then
      match lastLabel
      case None => None
      case Some(previous) =>
        if previous != Spiky then Some(Verdict(Spiky, SingleDaySpike(spike.value, cfg.spikePctChangeThreshold)))
        else Some(Verdict(Stable, LimitedBias(s.last, s.average, s.numPositive, s.numNegative)))
    else
      Some(Verdict(Stable, LimitedBias(s.last, s.average, s.numPositive, s.numNegative)))
  }

  /** The ladder as evidently intended: a detected single-day spike on fall-through
      makes the product spiky, whatever was classified before it. */
  function IntendedLadder(s: WindowStats, spike: Option<Direction>, cfg: DetectorConfig): (v: Verdict)
    ensures v.trendLabel != InsufficientData
  {
    if VolatileRule(s, cfg) then
      Verdict(Spiky, Volatile(s.volatilitySquared))
    else if RisingRule(s, cfg) then
      Verdict(Increasing, MostlyIncreases(s.last, s.average, s.pctChange, s.numPositive, s.numNegative))
    else if FallingRule(s, cfg) then
      Verdict(Decreasing, MostlyDecreases(s.last, s.average, s.pctChange, s.numNegative, s.numPositive))
    else if spike.Some? then
      Verdict(Spiky, SingleDaySpike(spike.value, cfg.spikePctChangeThreshold))
    else
      Verdict(Stable, LimitedBias(s.last, s.average, s.numPositive, s.numNegative))
  }

  /** Each rung of the ladder as written, as an "if and only if": the first
      matching rule wins, and the spike rule reads the carried label. */
  lemma LadderRules(s: WindowStats, spike: Option<Direction>, lastLabel: Option<Label>, cfg: DetectorConfig)
    ensures var r := Ladder(s, spike, lastLabel, cfg);
            && ((r.Some? && r.value.trendLabel == Increasing) <==> RisingRule(s, cfg))
            && ((r.Some? && r.value.trendLabel == Decreasing) <==> FallingRule(s, cfg) && !RisingRule(s, cfg))
            && ((r.Some? && r.value.reason.Volatile?) <==> VolatileRule(s, cfg))
            && ((r.Some? && r.value.reason.SingleDaySpike?)
                <==> FallsThrough(s, cfg) && spike.Some? && lastLabel.Some? && lastLabel.value != Spiky)
            && ((r.Some? && r.value.trendLabel == Stable)
                <==> FallsThrough(s, cfg) && (spike.None? || lastLabel == Some(Spiky)))
            && (r.None? <==> FallsThrough(s, cfg) && spike.Some? && lastLabel.None?)
            && (r.Some? ==> (r.value.trendLabel == Spiky <==> r.value.reason.Volatile? || r.value.reason.SingleDaySpike?))
  {
  }

  /** Each rung of the intended ladder, as an "if and only if". */
  lemma IntendedLadderRules(s: WindowStats, spike: Option<Direction>, cfg: DetectorConfig)
    ensures var v := IntendedLadder(s, spike, cfg);
            && (v.trendLabel == Increasing <==> RisingRule(s, cfg))
            && (v.trendLabel == Decreasing <==> FallingRule(s, cfg) && !RisingRule(s, cfg))
            && (v.trendLabel == Spiky <==> VolatileRule(s, cfg) || (FallsThrough(s, cfg) && spike.Some?))
            && (v.trendLabel == Stable <==> FallsThrough(s, cfg) && spike.None?)
  {
  }

  /** The detector's ladder agrees with the intended one exactly when the
      spike rule is not reached, or the carried label is bound and not spiky. */
  lemma LadderAgreesWithIntended(s: WindowStats, spike: Option<Direction>, lastLabel: Option<Label>, cfg: DetectorConfig)
    ensures Ladder(s, spike, lastLabel, cfg) == Some(IntendedLadder(s, spike, cfg))
            <==> !(FallsThrough(s, cfg) && spike.Some?) || (lastLabel.Some? && lastLabel.value != Spiky)
  {
  }

  // ------------------------------------------------------ one product

  /** The verdict for one non-empty product series, given the label the
      detector last assigned. */
  function TrendOf(g: ProductSeries, cfg: DetectorConfig, lastLabel: Option<Label>): (r: Result<ProductTrend, Fault>)
    requires cfg.Valid() && |g.points| > 0
    ensures r.Err? ==> r.error == UnboundTrendLabel(g.name) && lastLabel.None?
    ensures r.Ok? ==> r.value.productName == g.name
    ensures r.Ok? ==> r.value.numDaysUsed == Min(|g.points|, cfg.trendWindow)
    ensures r.Ok? ==> (r.value.trendLabel == InsufficientData <==> r.value.numDaysUsed < cfg.minHistory)
    ensures r.Ok? ==> r.value.volatilitySquared >= 0.0
    ensures r.Ok? && r.value.trendLabel == Increasing ==> r.value.pctChangeVsAvg >= cfg.increasingThreshold
    ensures r.Ok? && r.value.trendLabel == Decreasing ==> r.value.pctChangeVsAvg <= cfg.decreasingThreshold
  {
    var w := Window(g.points, cfg.trendWindow);
    if |w| < cfg.minHistory then
      Ok(ProductTrend(g.name, InsufficientData, ShortHistory(|w|, cfg.minHistory),
                      w[|w| - 1], Mean(w), 0.0, 0.0, |w|))
    else
      var s := StatsOf(w);
      var v := Ladder(s, FirstSpike(w, cfg.spikePctChangeThreshold), lastLabel, cfg);
      if v.None? then Err(UnboundTrendLabel(g.name))
      else
        Ok(ProductTrend(g.name, v.value.trendLabel, v.value.reason, s.last, s.average, s.pctChange,
                        s.volatilitySquared, |w|))
  }

  /** A window shorter than `minHistory` is reported, not classified: zero change
      and volatility, the last point, and the mean of the whole window. */
  lemma ShortWindowIsInsufficient(g: ProductSeries, cfg: DetectorConfig, lastLabel: Option<Label>)
    requires cfg.Valid() && |g.points| > 0
    requires Min(|g.points|, cfg.trendWindow) < cfg.minHistory
    ensures TrendOf(g, cfg, lastLabel).Ok?
    ensures var t := TrendOf(g, cfg, lastLabel).value;
            var w := Window(g.points, cfg.trendWindow);
            t.trendLabel == InsufficientData && t.pctChangeVsAvg == 0.0 && t.volatilitySquared == 0.0
            && t.lastQuantity == w[|w| - 1] && t.averageQuantity == Mean(w)
  {
  }

  /** A long enough window is classified from its statistics: the average
      excludes the last point, the change is measured against it, and the
      volatility covers the whole window. */
  lemma LongWindowStatistics(g: ProductSeries, cfg: DetectorConfig, lastLabel: Option<Label>)
    requires cfg.Valid() && |g.points| > 0
    requires Min(|g.points|, cfg.trendWindow) >= cfg.minHistory
    requires TrendOf(g, cfg, lastLabel).Ok?
    ensures var t := TrendOf(g, cfg, lastLabel).value;
            var w := Window(g.points, cfg.trendWindow);
            t.trendLabel != InsufficientData
            && t.lastQuantity == w[|w| - 1]
            && t.averageQuantity == HistoryAverage(w)
            && t.pctChangeVsAvg == PctChange(t.lastQuantity, t.averageQuantity)
            && t.volatilitySquared == VolatilitySquared(w)
  {
    var w := Window(g.points, cfg.trendWindow);
    var s := StatsOf(w);
    assert TrendOf(g, cfg, lastLabel).value.averageQuantity == s.average;
  }

  /** The product's verdict under the intended ladder (no carried-over label). */
  function IntendedTrendOf(g: ProductSeries, cfg: DetectorConfig): (t: ProductTrend)
    requires cfg.Valid() && |g.points| > 0
    ensures t.productName == g.name && t.numDaysUsed == Min(|g.points|, cfg.trendWindow)
    ensures t.trendLabel == InsufficientData <==> t.numDaysUsed < cfg.minHistory
  {
    var w := Window(g.points, cfg.trendWindow);
    if |w| < cfg.minHistory then
      ProductTrend(g.name, InsufficientData, ShortHistory(|w|, cfg.minHistory),
                   w[|w| - 1], Mean(w), 0.0, 0.0, |w|)
    else
      var s := StatsOf(w);
      var v := IntendedLadder(s, FirstSpike(w, cfg.spikePctChangeThreshold), cfg);
      ProductTrend(g.name, v.trendLabel, v.reason, s.last, s.average, s.pctChange, s.volatilitySquared, |w|)
  }

  /** Whether the ladder reaches the spike rule for this product with a spike found. */
  predicate ReachesSpikeRule(g: ProductSeries, cfg: DetectorConfig)
    requires cfg.Valid() && |g.points| > 0
  {
    var w := Window(g.points, cfg.trendWindow);
    |w| >= cfg.minHistory
    && FallsThrough(StatsOf(w), cfg) && FirstSpike(w, cfg.spikePctChangeThreshold).Some?
  }

  /** The detector's verdict is the intended one exactly when the product does
      not reach the spike rule, or the carried label is bound and not spiky. */
  lemma TrendOfAgreesWithIntended(g: ProductSeries, cfg: DetectorConfig, lastLabel: Option<Label>)
    requires cfg.Valid() && |g.points| > 0
    ensures TrendOf(g, cfg, lastLabel) == Ok(IntendedTrendOf(g, cfg))
            <==> !ReachesSpikeRule(g, cfg) || (lastLabel.Some? && lastLabel.value != Spiky)
  {
    var w := Window(g.points, cfg.trendWindow);
    if |w| >= cfg.minHistory {
      LadderAgreesWithIntended(StatsOf(w), FirstSpike(w, cfg.spikePctChangeThreshold), lastLabel, cfg);
    }
  }

  /** Every point of the window comes from the input series. */
  lemma WindowDrawnFromSeries(points: seq<Point>, trendWindow: nat, c: real)
    requires forall i :: 0 <= i < |points| ==> points[i].quantity == c
    ensures forall i :: 0 <= i < |Window(points, trendWindow)| ==> Window(points, trendWindow)[i] == c
  {
    var sorted := SortByDate(points);
    SortByDateOrdersAndPermutes(points);
    var wp := WindowPoints(points, trendWindow);
    forall i | 0 <= i < |wp| ensures wp[i].quantity == c {
      assert wp[i] == sorted[|sorted| - |wp| + i];
      assert wp[i] in multiset(sorted);
      assert wp[i] in multiset(points);
      var k :| 0 <= k < |points| && points[k] == wp[i];
    }
  }

  /** A constant positive window: no change, no volatility, no recent steps, no spike. */
  lemma ConstantWindowStatistics(w: seq<real>, c: real, spikeThreshold: real)
    requires |w| >= 1 && c > 0.0 && spikeThreshold > 0.0
    requires forall i :: 0 <= i < |w| ==> w[i] == c
    ensures StatsOf(w).pctChange == 0.0
    ensures StatsOf(w).volatilitySquared == 0.0
    ensures StatsOf(w).numPositive == 0 && StatsOf(w).numNegative == 0
    ensures FirstSpike(w, spikeThreshold).None?
  {
    ConstantSeriesHasNoSpread(w, c);
    assert VolatilitySquared(w) == 0.0 / c / c;
    if |w| >= 2 {
      ConstantSeriesHasNoSpread(w[..|w| - 1], c);
      assert HistoryAverage(w) == c;
    }
    assert StatsOf(w).pctChange == PctChange(w[|w| - 1], HistoryAverage(w));
    FlatStepsCountNothing(w, c);
    NoSpikeInConstantWindow(w, c, spikeThreshold);
  }

  lemma FlatStepsCountNothing(w: seq<real>, c: real)
    requires forall i :: 0 <= i < |w| ==> w[i] == c
    ensures CountPositive(RecentDiffs(w)) == 0 && CountNegative(RecentDiffs(w)) == 0
  {
    var all := Diffs(w);
    forall j | 0 <= j < |all| ensures all[j] == 0.0 {
      assert all[j] == w[j + 1] - w[j];
    }
    var d := Tail(all, 3);
    assert d == RecentDiffs(w);
    forall i | 0 <= i < |d| ensures d[i] == 0.0 {
      assert d[i] == all[|all| - |d| + i];
    }
    CountsVanish(d);
  }

  lemma NoSpikeInConstantWindow(w: seq<real>, c: real, spikeThreshold: real)
    requires c > 0.0 && spikeThreshold > 0.0
    requires forall i :: 0 <= i < |w| ==> w[i] == c
    ensures FirstSpike(w, spikeThreshold).None?
  {
    NoSpikeInConstantWindowFrom(w, c, spikeThreshold, 1);
  }

  lemma {:induction false} NoSpikeInConstantWindowFrom(w: seq<real>, c: real, spikeThreshold: real, k: nat)
    requires c > 0.0 && spikeThreshold > 0.0 && k >= 1
    requires forall i :: 0 <= i < |w| ==> w[i] == c
    ensures FirstSpikeFrom(w, spikeThreshold, k).None?
    decreases |w| - k
  {
    if k < |w| {
      assert w[k] - w[k - 1] == 0.0;
      assert !IsSpikeAt(w, k, spikeThreshold);
      NoSpikeInConstantWindowFrom(w, c, spikeThreshold, k + 1);
    }
  }

  /** A constant positive series long enough to classify is stable, whatever
      label came before, when the volatility and spike thresholds are positive. */
  lemma ConstantSeriesIsStable(g: ProductSeries, cfg: DetectorConfig, lastLabel: Option<Label>, c: real)
    requires cfg.Valid() && |g.points| > 0
    requires c > 0.0 && forall i :: 0 <= i < |g.points| ==> g.points[i].quantity == c
    requires Min(|g.points|, cfg.trendWindow) >= cfg.minHistory
    requires cfg.volatilityThreshold > 0.0 && cfg.spikePctChangeThreshold > 0.0
    ensures TrendOf(g, cfg, lastLabel).Ok?
    ensures TrendOf(g, cfg, lastLabel).value.trendLabel == Stable
  {
    var w := Window(g.points, cfg.trendWindow);
    WindowDrawnFromSeries(g.points, cfg.trendWindow, c);
    ConstantWindowStatistics(w, c, cfg.spikePctChangeThreshold);
    PositiveProduct(cfg.volatilityThreshold, cfg.volatilityThreshold);
    assert !VolatilityAtLeast(StatsOf(w).volatilitySquared, cfg.volatilityThreshold);
    FlatWindowIsStable(g, cfg, lastLabel);
  }

  /** A window long enough to classify, that no rule matches and that has no
      spike, is stable. */
  lemma FlatWindowIsStable(g: ProductSeries, cfg: DetectorConfig, lastLabel: Option<Label>)
    requires cfg.Valid() && |g.points| > 0
    requires Min(|g.points|, cfg.trendWindow) >= cfg.minHistory
    requires var w := Window(g.points, cfg.trendWindow);
             FallsThrough(StatsOf(w), cfg) && FirstSpike(w, cfg.spikePctChangeThreshold).None?
    ensures TrendOf(g, cfg, lastLabel).Ok?
    ensures TrendOf(g, cfg, lastLabel).value.trendLabel == Stable
  {
  }

  // ------------------------------------------------------ all products

  /** What the detection loop has built so far: the verdicts, and the label it
      last assigned (the carried `trend_label`). */
  datatype Progress = Progress(trends: seq<ProductTrend>, lastLabel: Option<Label>)

  /** One iteration of the per-product loop. Empty groups are skipped; an
      insufficient-data verdict does not touch the carried label. */
  function Step(p: Result<Progress, Fault>, g: ProductSeries, cfg: DetectorConfig): (r: Result<Progress, Fault>)
    requires cfg.Valid()
    ensures p.Err? ==> r == p
    ensures r.Ok? ==> p.Ok? && |r.value.trends| == |p.value.trends| + (if |g.points| > 0 then 1 else 0)
  {
    match p
    case Err(f) => Err(f)
    case Ok(st) =>
      if |g.points| == 0 then p
      else
        match TrendOf(g, cfg, st.lastLabel)
        case Err(f) => Err(f)
        case Ok(t) =>
          Ok(Progress(st.trends + [t],
                      if t.trendLabel == InsufficientData then st.lastLabel else Some(t.trendLabel)))
  }

  /** The loop run over the groups in order. */
  function Run(groups: seq<ProductSeries>, cfg: DetectorConfig): Result<Progress, Fault>
    requires cfg.Valid()
  {
    if |groups| == 0 then Ok(Progress([], None))
    else Step(Run(groups[..|groups| - 1], cfg), groups[|groups| - 1], cfg)
  }

  /** The groups that have points, in order. */
  function NonEmptyGroups(groups: seq<ProductSeries>): (ne: seq<ProductSeries>)
    ensures |ne| <= |groups|
    ensures forall k :: 0 <= k < |ne| ==> |ne[k].points| > 0
  {
    if |groups| == 0 then []
    else
      var init := NonEmptyGroups(groups[..|groups| - 1]);
      if |groups[|groups| - 1].points| > 0 then init + [groups[|groups| - 1]] else init
  }

  /** The kept groups are exactly the input's groups that have points. */
  lemma {:induction false} NonEmptyGroupsMembership(groups: seq<ProductSeries>)
    ensures forall g :: g in NonEmptyGroups(groups) <==> g in groups && |g.points| > 0
  {
    if |groups| > 0 {
      NonEmptyGroupsMembership(groups[..|groups| - 1]);
      assert groups == groups[..|groups| - 1] + [groups[|groups| - 1]];
    }
  }

  /** Label of the most recent verdict that is not insufficient_data. */
  function LastClassified(trends: seq<ProductTrend>): Option<Label> {
    if |trends| == 0 then None
    else if trends[|trends| - 1].trendLabel != InsufficientData then Some(trends[|trends| - 1].trendLabel)
    else LastClassified(trends[..|trends| - 1])
  }

  /** `trends` are the verdicts for the non-empty groups `ne`, each one given
      the label of the latest product classified before it. */
  predicate ClassifiedInTurn(ne: seq<ProductSeries>, trends: seq<ProductTrend>, cfg: DetectorConfig)
    requires cfg.Valid()
  {
    |trends| == |ne| && forall k :: 0 <= k < |ne| ==> ClassifiedAt(ne, trends, k, cfg)
  }

  predicate ClassifiedAt(ne: seq<ProductSeries>, trends: seq<ProductTrend>, k: int, cfg: DetectorConfig)
    requires cfg.Valid() && 0 <= k < |ne| && k < |trends|
  {
    |ne[k].points| > 0 && TrendOf(ne[k], cfg, LastClassified(trends[..k])) == Ok(trends[k])
  }

  lemma ClassifiedInTurnExtends(ne: seq<ProductSeries>, trends: seq<ProductTrend>, g: ProductSeries,
                                t: ProductTrend, cfg: DetectorConfig)
    requires cfg.Valid() && ClassifiedInTurn(ne, trends, cfg)
    requires |g.points| > 0 && TrendOf(g, cfg, LastClassified(trends)) == Ok(t)
    ensures ClassifiedInTurn(ne + [g], trends + [t], cfg)
  {
    var ne', ts' := ne + [g], trends + [t];
    forall k | 0 <= k < |ne'| ensures ClassifiedAt(ne', ts', k, cfg) {
      if k < |ne| {
        assert ClassifiedAt(ne, trends, k, cfg);
        assert ts'[..k] == trends[..k] && ts'[k] == trends[k] && ne'[k] == ne[k];
      } else {
        assert ts'[..k] == trends && ts'[k] == t && ne'[k] == g;
      }
    }
  }

  lemma {:induction false} RunClassifiesInTurn(groups: seq<ProductSeries>, cfg: DetectorConfig)
    requires cfg.Valid()
    requires Run(groups, cfg).Ok?
    ensures var st := Run(groups, cfg).value;
            ClassifiedInTurn(NonEmptyGroups(groups), st.trends, cfg) && st.lastLabel == LastClassified(st.trends)
  {
    if |groups| > 0 {
      var init := groups[..|groups| - 1];
      var g := groups[|groups| - 1];
      assert Run(init, cfg).Ok?;
      RunClassifiesInTurn(init, cfg);
      var st := Run(init, cfg).value;
      var ne0 := NonEmptyGroups(init);
      if |g.points| > 0 {
        var t := TrendOf(g, cfg, st.lastLabel).value;
        var ts := st.trends + [t];
        assert Run(groups, cfg)
               == Ok(Progress(ts, if t.trendLabel == InsufficientData then st.lastLabel else Some(t.trendLabel)));
        assert NonEmptyGroups(groups) == ne0 + [g];
        assert ts[..|st.trends|] == st.trends;
        ClassifiedInTurnExtends(ne0, st.trends, g, t, cfg);
      } else {
        assert Run(groups, cfg) == Run(init, cfg) && NonEmptyGroups(groups) == ne0;
      }
    }
  }

  /** Every non-empty group yields exactly one verdict, in group order, and
      empty groups yield none. Verdict `k` is the classification of the `k`-th
      non-empty group under the label of the latest product classified before
      it, and the carried label is that of the most recently classified product. */
  lemma OneVerdictPerNonEmptyGroup(groups: seq<ProductSeries>, cfg: DetectorConfig)
    requires cfg.Valid()
    requires Run(groups, cfg).Ok?
    ensures var st := Run(groups, cfg).value;
            var ne := NonEmptyGroups(groups);
            |st.trends| == |ne|
            && (forall k :: 0 <= k < |ne| ==>
                  TrendOf(ne[k], cfg, LastClassified(st.trends[..k])) == Ok(st.trends[k]))
            && st.lastLabel == LastClassified(st.trends)
  {
    RunClassifiesInTurn(groups, cfg);
    var st, ne := Run(groups, cfg).value, NonEmptyGroups(groups);
    forall k | 0 <= k < |ne| ensures TrendOf(ne[k], cfg, LastClassified(st.trends[..k])) == Ok(st.trends[k]) {
      assert ClassifiedAt(ne, st.trends, k, cfg);
    }
  }

  /** Once a fault is raised, the rest of the loop does not run. */
  lemma {:induction false} FaultPersists(groups: seq<ProductSeries>, k: nat, cfg: DetectorConfig)
    requires cfg.Valid() && k <= |groups|
    requires Run(groups[..k], cfg).Err?
    ensures Run(groups, cfg) == Run(groups[..k], cfg)
  {
    if k < |groups| {
      var init := groups[..|groups| - 1];
      assert init[..k] == groups[..k];
      FaultPersists(init, k, cfg);
    } else {
      assert groups[..k] == groups;
    }
  }

  /** Once some product has been classified, the carried label stays bound and
      no later product can raise the fault. */
  lemma {:induction false} NoFaultAfterFirstClassification(groups: seq<ProductSeries>, k: nat, cfg: DetectorConfig)
    requires cfg.Valid() && k <= |groups|
    requires Run(groups[..k], cfg).Ok? && Run(groups[..k], cfg).value.lastLabel.Some?
    ensures Run(groups, cfg).Ok? && Run(groups, cfg).value.lastLabel.Some?
  {
    if k < |groups| {
      var init := groups[..|groups| - 1];
      assert init[..k] == groups[..k];
      NoFaultAfterFirstClassification(init, k, cfg);
      var st := Run(init, cfg).value;
      var g := groups[|groups| - 1];
      if |g.points| > 0 {
        var t := TrendOf(g, cfg, st.lastLabel);
        assert t.Ok?;
        assert Run(groups, cfg) == Ok(Progress(st.trends + [t.value],
          if t.value.trendLabel == InsufficientData then st.lastLabel else Some(t.value.trendLabel)));
      }
    } else {
      assert groups[..k] == groups;
    }
  }

  /** The verdicts the loop returns, or the fault it raises. */
  function Detected(groups: seq<ProductSeries>, cfg: DetectorConfig): Result<seq<ProductTrend>, Fault>
    requires cfg.Valid()
  {
    match Run(groups, cfg)
    case Ok(st) => Ok(st.trends)
    case Err(f) => Err(f)
  }

  /** The verdicts as evidently intended: each non-empty product classified on
      its own series alone, with no carried label and no fault. */
  function IntendedDetected(groups: seq<ProductSeries>, cfg: DetectorConfig): seq<ProductTrend>
    requires cfg.Valid()
  {
    if |groups| == 0 then []
    else
      var g := groups[|groups| - 1];
      var init := IntendedDetected(groups[..|groups| - 1], cfg);
      if |g.points| > 0 then init + [IntendedTrendOf(g, cfg)] else init
  }

  /** Under the intended ladder the verdict for each product is the one its
      own series gives, in group order, whatever products come before it. */
  lemma {:induction false} IntendedVerdictsArePerProduct(groups: seq<ProductSeries>, cfg: DetectorConfig)
    requires cfg.Valid()
    ensures var ts, ne := IntendedDetected(groups, cfg), NonEmptyGroups(groups);
            |ts| == |ne| && forall k :: 0 <= k < |ne| ==> ts[k] == IntendedTrendOf(ne[k], cfg)
  {
    if |groups| > 0 {
      var init, g := groups[..|groups| - 1], groups[|groups| - 1];
      IntendedVerdictsArePerProduct(init, cfg);
      var ts0, ne0 := IntendedDetected(init, cfg), NonEmptyGroups(init);
      if |g.points| > 0 {
        var t := IntendedTrendOf(g, cfg);
        var ts, ne := ts0 + [t], ne0 + [g];
        assert IntendedDetected(groups, cfg) == ts;
        assert NonEmptyGroups(groups) == ne;
        forall k | 0 <= k < |ne| ensures ts[k] == IntendedTrendOf(ne[k], cfg) {
          if k < |ne0| {
            assert ts[k] == ts0[k] && ne[k] == ne0[k];
          } else {
            assert ts[k] == t && ne[k] == g;
          }
        }
      } else {
        assert IntendedDetected(groups, cfg) == ts0 && NonEmptyGroups(groups) == ne0;
      }
    }
  }

  /** The detector as written gives the intended verdicts whenever no product
      that is classified reaches the ladder's spike rule with a spike found. */
  lemma {:induction false} AgreesWithIntendedWhenNoCarriedLabelIsRead(groups: seq<ProductSeries>, cfg: DetectorConfig)
    requires cfg.Valid()
    requires forall k :: 0 <= k < |groups| && |groups[k].points| > 0 ==> !ReachesSpikeRule(groups[k], cfg)
    ensures Detected(groups, cfg) == Ok(IntendedDetected(groups, cfg))
  {
    if |groups| > 0 {
      var init := groups[..|groups| - 1];
      assert forall k :: 0 <= k < |init| ==> init[k] == groups[k];
      AgreesWithIntendedWhenNoCarriedLabelIsRead(init, cfg);
      var g := groups[|groups| - 1];
      if |g.points| > 0 {
        TrendOfAgreesWithIntended(g, cfg, Run(init, cfg).value.lastLabel);
      }
    }
  }

  /** One loop iteration's body: classify a non-empty product. This is `TrendOf`
      step by step, with the spike scan done by the loop of `ScanForSpike`. */
  method ClassifyProduct(g: ProductSeries, cfg: DetectorConfig, lastLabel: Option<Label>)
    returns (r: Result<ProductTrend, Fault>)
    requires cfg.Valid() && |g.points| > 0
    ensures r == TrendOf(g, cfg, lastLabel)
  {
    var w := Window(g.points, cfg.trendWindow);
    if |w| < cfg.minHistory {
      return Ok(ProductTrend(g.name, InsufficientData, ShortHistory(|w|, cfg.minHistory),
                             w[|w| - 1], Mean(w), 0.0, 0.0, |w|));
    }
    var stats := StatsOf(w);
    var spike := ScanForSpike(w, cfg.spikePctChangeThreshold);
    var verdict := Ladder(stats, spike, lastLabel, cfg);
    if verdict.None? {
      return Err(UnboundTrendLabel(g.name));
    }
    r := Ok(ProductTrend(g.name, verdict.value.trendLabel, verdict.value.reason, stats.last, stats.average,
                         stats.pctChange, stats.volatilitySquared, |w|));
  }

  /** `detect_trends`: visit the groups in order, skip empty ones, append one
      verdict per product, and carry the last assigned label across products. */
  method DetectTrends(groups: seq<ProductSeries>, cfg: DetectorConfig)
    returns (r: Result<seq<ProductTrend>, Fault>)
    requires cfg.Valid()
    ensures r == Detected(groups, cfg)
  {
    var trends: seq<ProductTrend> := [];
    var lastLabel: Option<Label> := None;
    var i := 0;
    while i < |groups|
      invariant 0 <= i <= |groups|
      invariant Run(groups[..i], cfg) == Ok(Progress(trends, lastLabel))
    {
      assert groups[..i + 1][..i] == groups[..i];
      var g := groups[i];
      if |g.points| == 0 {
        i := i + 1;
        continue;
      }
      var t := ClassifyProduct(g, cfg, lastLabel);
      if t.Err? {
        FaultPersists(groups, i + 1, cfg);
        return Err(t.error);
      }
      trends := trends + [t.value];
      if t.value.trendLabel != InsufficientData {
        lastLabel := Some(t.value.trendLabel);
      }
      i := i + 1;
    }
    assert groups[..i] == groups;
    r := Ok(trends);
  }
}
