# Demand-trend detection and stocking signals, in Dafny

This project models the two rule engines of a retail demand-analysis tool.

- **Trend detector** (`agents/trend_detector.py`): takes each product's daily sales, sorts them by date and keeps the most recent `trend_window` days. It summarises that window with a few statistics:
  - the last value and the average of the days before it;
  - the fractional change between the two;
  - the volatility index (population standard deviation over mean);
  - how many of the last three day-over-day steps rose or fell;
  - the first single-day spike.
  
  An ordered "first matching rule wins" ladder then gives the product one label: `insufficient_data`, `spiky`, `increasing`, `decreasing` or `stable`.
- **Demand insight** (`agents/demand_insight.py`): turns each verdict into a stocking signal. The signal has an action (`increase_stock`, `reduce_stock`, `maintain_stock`, `review_data`) and a strength tier (`mild`, `moderate`, `strong`). The tier comes from the change against thresholds of the insight agent's own.

Files:

- `wrappers.dfy`: `Option` and `Result`.
- `series_stats.dfy` (module `SeriesStats`): the pandas and numpy reductions the detector uses, on exact reals. These are `tail`, sum and mean, population variance, `diff`, and counts of positive and negative steps.
- `trend_detector.dfy` (module `TrendDetector`):
  - the verdict record and the date sort;
  - the window statistics and the spike scan (a loop method);
  - the rule ladder and the per-product verdict;
  - the detection loop (`DetectTrends`, a loop method), proved against a left fold `Run` over the product groups.
- `demand_insight.dfy` (module `DemandInsight`): the recommendation rule, the signal record, and `GenerateSignals` (a loop method).
- `scenarios.dfy` (module `DetectorScenarios`): worked examples on concrete daily series with both agents' default thresholds.

Two points need care.

**The carried-over label.** The detector assigns `trend_label` only inside the ladder, and the spike rule reads it (`trend_label != "spiky"`) before the current product has set it. So the spike rule sees the label of the product classified before it.
- The model keeps this variable as `lastLabel: Option<Label>`, threaded through the loop.
- `None`, before any product has been classified, makes the read a fault: Python raises `UnboundLocalError`. This is `Fault.UnboundTrendLabel`.
- The consequences are proved and logged under Findings. Corrected definitions are proved beside the as-written ones.

**The volatility index.** It needs a square root, so the model holds its square exactly, as `volatilitySquared = variance / mean / mean`. The rule `volatility >= threshold` becomes `VolatilityAtLeast(volatilitySquared, threshold)`. Lemma `VolatilityComparison` proves the two agree for every non-negative volatility.

## Model

| member | source | states |
|---|---|---|
| SeriesStats.Tail | agents/trend_detector.py:65 | `tail(k)` keeps `min(n, k)` elements, and they are the suffix of the series |
| SeriesStats.Diffs | agents/trend_detector.py:100 | one step fewer than the window, and step `i` is `w[i+1] - w[i]` |
| SeriesStats.PopulationVariance | agents/trend_detector.py:95 | the `ddof=0` variance is never negative |
| SeriesStats.StepCountsBounded | agents/trend_detector.py:101-103 | rising plus falling steps never exceed the number of steps, and an all-flat sequence counts nothing |
| SeriesStats.CountsVanish | agents/trend_detector.py:102-103 | `CountPositive` and `CountNegative`, the `(d > 0).sum()` and `(d < 0).sum()` counts: no step counts as rising exactly when none is positive, and none as falling exactly when none is negative |
| SeriesStats.ConstantSeriesHasNoSpread | agents/trend_detector.py:93-95 | a constant series has itself as mean and zero variance |
| TrendDetector.SortByDate | agents/trend_detector.py:61 | `sort_index()` keeps the number of rows; `SortByDateOrdersAndPermutes` states its order and contents |
| TrendDetector.SortByDateOrdersAndPermutes | agents/trend_detector.py:61 | `sort_index()` returns a date-ascending permutation of the product's rows |
| TrendDetector.SortKeepsOrderedInput | agents/trend_detector.py:61 | rows already in date order are returned unchanged |
| TrendDetector.Window | agents/trend_detector.py:65 | the window holds `min(n, trend_window)` quantities |
| TrendDetector.DroppedPoints | agents/trend_detector.py:61-65 | the sorted rows are exactly the dropped rows followed by the window's rows |
| TrendDetector.WindowIsMostRecent | agents/trend_detector.py:61-65 | the window is in date order, and with the dropped points it is exactly the input; no dropped point is later than a kept one |
| TrendDetector.HistoryAverageMeaning | agents/trend_detector.py:84-86 | `HistoryAverage`, the mean of the days before the last: times the number of those days it is their total, and it is 0 when there are none |
| TrendDetector.PctChange | agents/trend_detector.py:88-91 | the change is 0 whenever the average is not positive |
| TrendDetector.PctChangeMeaning | agents/trend_detector.py:88-91 | against a positive average the change `r` satisfies `last == avg * (1 + r)` |
| TrendDetector.PctChangeThreshold | agents/trend_detector.py:119-136 | against a positive average, the change clears a threshold `t` exactly when `last` clears `avg * (1 + t)`, upwards and downwards |
| TrendDetector.VolatilitySquared | agents/trend_detector.py:93-97 | the squared volatility is never negative, and is 0 when the window mean is not positive |
| TrendDetector.VolatilityMeaning | agents/trend_detector.py:93-97 | the squared volatility times the mean squared is the population variance |
| TrendDetector.VolatilityComparison | agents/trend_detector.py:119 | for a non-negative volatility `v`, `v >= threshold` exactly when `VolatilityAtLeast(v * v, threshold)` |
| TrendDetector.RecentDiffs | agents/trend_detector.py:99-101 | at most the last three steps: `min(3, n - 1)` of them |
| TrendDetector.StatsOf | agents/trend_detector.py:84-103 | the last value is the window's last point, the step counts are at most `min(3, n - 1)`, and the volatility is non-negative |
| TrendDetector.DirectionAt | agents/trend_detector.py:115 | a spike is `up` exactly when the value rose |
| TrendDetector.SpikeThreshold | agents/trend_detector.py:108-113 | `IsSpikeAt`, the test of one step: with a positive previous value, the step is a spike exactly when the value reaches the previous one times `1 + threshold` or falls to it times `1 - threshold` |
| TrendDetector.FirstSpikeIsEarliest | agents/trend_detector.py:105-116 | the scan finds nothing exactly when no step is a spike; otherwise it reports the direction of the earliest spike |
| TrendDetector.FirstSpikeFromIsEarliest | agents/trend_detector.py:108-116 | the same, for the scan from any starting step |
| TrendDetector.ScanForSpike | agents/trend_detector.py:105-116 | the loop with its early `break` returns the earliest spike's direction, or none |
| TrendDetector.Ladder | agents/trend_detector.py:118-158 | never `insufficient_data`; `increasing` only under the rising rule and `decreasing` only under the falling rule |
| TrendDetector.LadderRules | agents/trend_detector.py:118-158 | one "if and only if" per rung, first match winning: volatile, increasing, decreasing, spike, stable, and the fault when the spike rule reads an unset label |
| TrendDetector.IntendedLadder | agents/trend_detector.py:143-151 | the corrected ladder never yields `insufficient_data` |
| TrendDetector.IntendedLadderRules | agents/trend_detector.py:119-158 | corrected ladder, one "if and only if" per label: on fall-through a found spike makes the product spiky, and otherwise it is stable |
| TrendDetector.LadderAgreesWithIntended | agents/trend_detector.py:144 | the two ladders agree exactly when the spike rule is not reached with a spike, or the carried label is set and is not spiky |
| TrendDetector.TrendOf | agents/trend_detector.py:62-171 | a fault names the product and happens only with no carried label. A verdict names the product and uses `min(n, trend_window)` days. It is `insufficient_data` exactly when the window is short, and `increasing`/`decreasing` only when the change clears that threshold |
| TrendDetector.ShortWindowIsInsufficient | agents/trend_detector.py:66-82 | a short window is reported with zero change and volatility, the last point, and the mean of the whole window |
| TrendDetector.LongWindowStatistics | agents/trend_detector.py:84-97 | a long window is classified; the average excludes the last point, the change is measured against it, and the volatility covers the whole window |
| TrendDetector.IntendedTrendOf | agents/trend_detector.py:143-151 | corrected per-product verdict: names the product, uses `min(n, trend_window)` days, and is `insufficient_data` exactly when the window is short |
| TrendDetector.TrendOfAgreesWithIntended | agents/trend_detector.py:144 | the detector's verdict equals the corrected one exactly when the product does not reach the spike rule with a spike, or the carried label is set and is not spiky |
| TrendDetector.WindowDrawnFromSeries | agents/trend_detector.py:61-65 | a series with one quantity throughout gives a window with that quantity throughout |
| TrendDetector.ConstantWindowStatistics | agents/trend_detector.py:84-116 | a constant positive window has zero change, zero volatility, no rising or falling steps and no spike |
| TrendDetector.ConstantSeriesIsStable | agents/trend_detector.py:118-158 | a constant positive series long enough to classify is `stable` whatever label came before, for positive volatility and spike thresholds |
| TrendDetector.Step | agents/trend_detector.py:60-171 | one iteration of the loop: a raised fault passes through unchanged, and a step that does not fault adds one verdict for a non-empty group and none for an empty one |
| TrendDetector.NonEmptyGroups | agents/trend_detector.py:60-63 | the groups kept are all non-empty, no more of them than the input |
| TrendDetector.NonEmptyGroupsMembership | agents/trend_detector.py:60-63 | a group is kept exactly when it is one of the input's groups and has points |
| TrendDetector.OneVerdictPerNonEmptyGroup | agents/trend_detector.py:57-171 | a run that does not fault gives one verdict per non-empty group, in group order. Verdict `k` is `TrendOf` of the `k`-th non-empty group under the label of the latest earlier verdict that is not `insufficient_data`, and the carried label at the end is that of the latest such verdict |
| TrendDetector.FaultPersists | agents/trend_detector.py:144 | once the loop raises, the later groups do not change the outcome |
| TrendDetector.NoFaultAfterFirstClassification | agents/trend_detector.py:123-153 | once some product has been classified, no later product can raise the fault |
| TrendDetector.IntendedVerdictsArePerProduct | agents/trend_detector.py:57-63 | under the corrected ladder each non-empty group's verdict depends only on its own series, in group order |
| TrendDetector.AgreesWithIntendedWhenNoCarriedLabelIsRead | agents/trend_detector.py:144 | when no classified product reaches the spike rule with a spike, the detector returns exactly the corrected verdicts |
| TrendDetector.ClassifyProduct | agents/trend_detector.py:65-171 | one loop iteration for a non-empty product computes the verdict `TrendOf` specifies |
| TrendDetector.DetectTrends | agents/trend_detector.py:57-173 | the loop skips empty groups, appends one verdict per product and carries the last assigned label; it returns exactly the fold `Detected`, or its fault |
| DemandInsight.Recommend | agents/demand_insight.py:43-133 | `insufficient_data` gives review/mild and `spiky` review/moderate. `increasing` gives increase with strong, moderate or mild by the increase thresholds, strong checked first; `decreasing` mirrors it, and `stable` gives maintain/mild. Review is chosen exactly for the first two labels |
| DemandInsight.IncreaseStrengthMonotone | agents/demand_insight.py:85-105 | a larger rise never earns a weaker increase tier, for any thresholds |
| DemandInsight.ReduceStrengthMonotone | agents/demand_insight.py:106-126 | a larger fall never earns a weaker reduction tier, for any thresholds |
| DemandInsight.SignalFor | agents/demand_insight.py:135-147 | the signal copies the verdict's product, label and numbers; it asks for more stock exactly for `increasing`, less exactly for `decreasing`, and a data review exactly for `insufficient_data` or `spiky` |
| DemandInsight.GenerateSignals | agents/demand_insight.py:40-149 | one signal per verdict, in order. Each signal copies the product, label and numbers unchanged, and carries the action, strength and explanation `Recommend` gives |
| DemandInsight.DirectionalVerdictsAreNeverMild | agents/demand_insight.py:85-126 | when the detector's thresholds are at least as far out as the moderate tiers, an `increasing` or `decreasing` verdict never gets a mild signal |
| DemandInsight.DefaultDirectionalVerdictsAreNeverMild | agents/demand_insight.py:30-33 | with both agents' default thresholds, directional verdicts are never mild |
| DetectorScenarios.DailyWindow | agents/trend_detector.py:61-65 | a date-ordered series no longer than the window is its own window |
| DetectorScenarios.SeriesAStatistics | agents/trend_detector.py:84-116 | `[10,10,10,10,10,10,30]`: last 30, average 10, change 2.0, one rising step, falls through the ladder, upward spike found |
| DetectorScenarios.SeriesAVerdicts | agents/trend_detector.py:143-158 | on that series the detector raises with no carried label, and says `stable` after a `spiky` product |
| DetectorScenarios.SeriesAFaultsWhenClassifiedFirst | agents/trend_detector.py:144 | as the only product, that series makes the whole run raise |
| DetectorScenarios.SeriesAIsIntendedSpiky | agents/trend_detector.py:144-151 | its corrected verdict is `spiky` with an upward single-day spike |
| DetectorScenarios.SeriesVStatistics | agents/trend_detector.py:93-97 | `[1,19,10]`: zero change and squared volatility 0.54, so the volatility rule fires |
| DetectorScenarios.SeriesVIsSpiky | agents/trend_detector.py:119-127 | that series is `spiky` by volatility whatever label came before |
| DetectorScenarios.SeriesAStableAfterSpikyProduct | agents/trend_detector.py:144-158 | products `P1` (series `[1,19,10]`) and `P2` (series A), visited in name order: the detector reports `P1` `spiky` and `P2` `stable`, while `P2`'s corrected verdict is `spiky` |
| DetectorScenarios.SeriesBStatistics | agents/trend_detector.py:84-103 | `[100,102,101,103,104,106,150]`: average 616/6, change 284/616, three rising steps |
| DetectorScenarios.SeriesBIsIncreasing | agents/demand_insight.py:85-99 | that series is `increasing` and gets a moderate increase |
| DetectorScenarios.SeriesCIsStable | agents/trend_detector.py:66 | `[50,50,50]` at exactly the minimum history is classified `stable` and gets maintain/mild |
| DetectorScenarios.SeriesDIsStable | agents/demand_insight.py:127-133 | a flat seven-day series is `stable` over seven days and gets maintain/mild |

## Left out

- Reading the sales table, the `groupby("product_name")` partition and the column lookups are not modelled. The detector receives the groups as a sequence of `ProductSeries` in the order `groupby` yields them, which is ascending product name. The model does not constrain that order or require the names to be distinct: the general lemmas hold for every order, and the scenarios list their products in name order. Data loading, store aggregation, the report generator, the command-line entry point and the web front end are not part of this model.
- Quantities are exact reals, not IEEE doubles. Rounding, NaN and infinity are not modelled.
- The volatility index is held by its square, because a square root is not expressible over reals here. `ProductTrend.volatilitySquared` and `DemandSignal.volatilitySquared` carry the square where the source carries the index. `VolatilityComparison` states the equivalence of the rule.
- Reasons and explanations are tags that carry the numbers the text cites. The formatted strings (`:.1f`, `:.2f`, percentages) are not built.
- Labels, actions and strengths are closed datatypes. A verdict whose label is some other string cannot be expressed, so the insight agent's `else` branch for such a label is not reachable in the model.
- TrendDetector.TrendOf requires `trend_window >= 1`. The source does not check this: for a non-empty product, a window of 0 gives an empty window, and `window.iloc[-1]` then raises `IndexError`. A negative window gives pandas' "all but the first k" `tail`. Neither is modelled.
- TrendDetector.Run and TrendDetector.Detected carry no contract of their own. What the fold computes is stated by `OneVerdictPerNonEmptyGroup`, `FaultPersists` and `NoFaultAfterFirstClassification`, and `DetectTrends` is proved equal to it.
- Rows sharing a date are ordered by the model's insertion sort. pandas' `sort_index` makes no stability promise, so their relative order may differ.
- The Python `UnboundLocalError` is modelled as a `Fault` result that stops the run. Any partial output is discarded, as it is when the exception propagates.

## Findings

| source | as written | input that shows it | evidently intended | confidence | as-written member | corrected member |
|---|---|---|---|---|---|---|
| agents/trend_detector.py:144 | the spike rule tests `trend_label`, a variable it has not yet set for this product, so it reads the label of the previously classified product | `[10,10,10,10,10,10,30]` with default thresholds: as the first product it raises `UnboundLocalError`; after a volatile product it is labelled `stable` | a single-day spike on fall-through labels the product `spiky`, independently of other products | high; not executed | TrendDetector.LadderRules, DetectorScenarios.SeriesAFaultsWhenClassifiedFirst, DetectorScenarios.SeriesAStableAfterSpikyProduct | TrendDetector.IntendedLadder, TrendDetector.IntendedLadderRules, TrendDetector.IntendedTrendOf, TrendDetector.IntendedVerdictsArePerProduct |
