/** Stocking recommendations from trend verdicts (agents/demand_insight.py).

    Each verdict's label, and for the two directional labels its change
    against the recent average, selects an action and a strength tier; the
    product, label and numeric fields are copied into the signal unchanged. */
module DemandInsight {
  import opened Wrappers
  import opened TrendDetector

  datatype Action = IncreaseStock | ReduceStock | MaintainStock | ReviewData

  datatype Strength = Mild | Moderate | Strong

  /** Which fixed explanation text the signal carries. */
  datatype Explanation =
    | CheckDataCapture
    | AvoidDrasticChanges
    | IncreaseAggressively
    | IncreaseGradually
    | IncreaseSlightly
    | ReduceSignificantly
    | ReduceGradually
    | ReduceSlightly
    | MaintainLevels

  datatype InsightConfig = InsightConfig(
    strongIncreaseThreshold: real,
    moderateIncreaseThreshold: real,
    strongDecreaseThreshold: real,
    moderateDecreaseThreshold: real)

  const DefaultInsightConfig := InsightConfig(0.50, 0.20, -0.50, -0.20)

  datatype Recommendation = Recommendation(action: Action, strength: Strength, explanation: Explanation)

  datatype DemandSignal = DemandSignal(
    productName: string,
    trendLabel: Label,
    action: Action,
    actionStrength: Strength,
    explanation: Explanation,
    lastQuantity: real,
    averageQuantity: real,
    pctChangeVsAvg: real,
    volatilitySquared: real)

  /** The rule for one verdict: two labels map to fixed outputs, the two
      directional labels are tiered with the strong threshold checked first,
      and every other label falls through to maintain_stock. */
  function Recommend(trend: Label, pct: real, cfg: InsightConfig): (r: Recommendation)
    ensures trend == InsufficientData ==> r.action == ReviewData && r.strength == Mild
    ensures trend == Spiky ==> r.action == ReviewData && r.strength == Moderate
    ensures trend == Increasing ==>
              r.action == IncreaseStock
              && (r.strength == Strong <==> pct >= cfg.strongIncreaseThreshold)
              && (r.strength == Moderate <==>
                    cfg.moderateIncreaseThreshold <= pct < cfg.strongIncreaseThreshold)
              && (r.strength == Mild <==>
                    pct < cfg.strongIncreaseThreshold && pct < cfg.moderateIncreaseThreshold)
    ensures trend == Decreasing ==>
              r.action == ReduceStock
              && (r.strength == Strong <==> pct <= cfg.strongDecreaseThreshold)
              && (r.strength == Moderate <==>
                    cfg.strongDecreaseThreshold < pct <= cfg.moderateDecreaseThreshold)
              && (r.strength == Mild <==>
                    pct > cfg.strongDecreaseThreshold && pct > cfg.moderateDecreaseThreshold)
    ensures trend == Stable ==> r.action == MaintainStock && r.strength == Mild
    ensures r.action == ReviewData <==> trend == InsufficientData || trend == Spiky
  {
    match trend
    case InsufficientData => Recommendation(ReviewData, Mild, CheckDataCapture)
    case Spiky => Recommendation(ReviewData, Moderate, AvoidDrasticChanges)
    case Increasing =>
      if pct >= cfg.strongIncreaseThreshold then Recommendation(IncreaseStock, Strong, IncreaseAggressively)
      else if pct >= cfg.moderateIncreaseThreshold then Recommendation(IncreaseStock, Moderate, IncreaseGradually)
      else Recommendation(IncreaseStock, Mild, IncreaseSlightly)
    case Decreasing =>
      if pct <= cfg.strongDecreaseThreshold then Recommendation(ReduceStock, Strong, ReduceSignificantly)
      else if pct <= cfg.moderateDecreaseThreshold then Recommendation(ReduceStock, Moderate, ReduceGradually)
      else Recommendation(ReduceStock, Mild, ReduceSlightly)
    case _ => Recommendation(MaintainStock, Mild, MaintainLevels)
  }

  function Rank(s: Strength): nat {
    match s
    case Mild => 0
    case Moderate => 1
    case Strong => 2
  }

  /** A larger rise never earns a weaker increase, whatever the thresholds. */
  lemma IncreaseStrengthMonotone(pct: real, pct': real, cfg: InsightConfig)
    requires pct <= pct'
    ensures Rank(Recommend(Increasing, pct, cfg).strength) <= Rank(Recommend(Increasing, pct', cfg).strength)
  {
  }

  /** A larger fall never earns a weaker reduction, whatever the thresholds. */
  lemma ReduceStrengthMonotone(pct: real, pct': real, cfg: InsightConfig)
    requires pct' <= pct
    ensures Rank(Recommend(Decreasing, pct, cfg).strength) <= Rank(Recommend(Decreasing, pct', cfg).strength)
  {
  }

  /** The signal for one verdict: it copies the verdict, asks for more stock
      exactly for an increasing product, for less exactly for a decreasing one,
      and for a data review exactly for a short or spiky one. */
  function SignalFor(t: ProductTrend, cfg: InsightConfig): (s: DemandSignal)
    ensures CarriesThrough(t, s)
    ensures s.action == IncreaseStock <==> t.trendLabel == Increasing
    ensures s.action == ReduceStock <==> t.trendLabel == Decreasing
    ensures s.action == ReviewData <==> t.trendLabel == InsufficientData || t.trendLabel == Spiky
  {
    var r := Recommend(t.trendLabel, t.pctChangeVsAvg, cfg);
    DemandSignal(t.productName, t.trendLabel, r.action, r.strength, r.explanation,
                 t.lastQuantity, t.averageQuantity, t.pctChangeVsAvg, t.volatilitySquared)
  }

  /** The signal copies the verdict's identity and numbers unchanged. */
  predicate CarriesThrough(t: ProductTrend, s: DemandSignal) {
    s.productName == t.productName && s.trendLabel == t.trendLabel
    && s.lastQuantity == t.lastQuantity && s.averageQuantity == t.averageQuantity
    && s.pctChangeVsAvg == t.pctChangeVsAvg && s.volatilitySquared == t.volatilitySquared
  }

  /** `generate_signals`: one signal per verdict, in the same order. */
  method GenerateSignals(trends: seq<ProductTrend>, cfg: InsightConfig) returns (signals: seq<DemandSignal>)
    ensures |signals| == |trends|
    ensures forall k :: 0 <= k < |trends| ==>
              CarriesThrough(trends[k], signals[k])
              && Recommendation(signals[k].action, signals[k].actionStrength, signals[k].explanation)
                 == Recommend(trends[k].trendLabel, trends[k].pctChangeVsAvg, cfg)
  {
    signals := [];
    for i := 0 to |trends|
      invariant |signals| == i
      invariant forall k :: 0 <= k < i ==> signals[k] == SignalFor(trends[k], cfg)
    {
      signals := signals + [SignalFor(trends[i], cfg)];
    }
  }

  /** When the detector's increasing threshold is at least the moderate-increase
      threshold, a product the detector calls increasing never gets a mild
      increase; likewise for decreasing. */
  lemma DirectionalVerdictsAreNeverMild(g: ProductSeries, dcfg: DetectorConfig, lastLabel: Option<Label>,
                                        icfg: InsightConfig)
    requires dcfg.Valid() && |g.points| > 0
    requires dcfg.increasingThreshold >= icfg.moderateIncreaseThreshold
    requires dcfg.decreasingThreshold <= icfg.moderateDecreaseThreshold
    requires TrendOf(g, dcfg, lastLabel).Ok?
    ensures var t := TrendOf(g, dcfg, lastLabel).value;
            (t.trendLabel == Increasing || t.trendLabel == Decreasing) ==> SignalFor(t, icfg).actionStrength != Mild
  {
  }

  /** With both agents' default thresholds, directional verdicts are never mild. */
  lemma DefaultDirectionalVerdictsAreNeverMild(g: ProductSeries, lastLabel: Option<Label>)
    requires |g.points| > 0
    requires TrendOf(g, DefaultDetectorConfig, lastLabel).Ok?
    ensures var t := TrendOf(g, DefaultDetectorConfig, lastLabel).value;
            (t.trendLabel == Increasing || t.trendLabel == Decreasing)
            ==> SignalFor(t, DefaultInsightConfig).actionStrength != Mild
  {
    DirectionalVerdictsAreNeverMild(g, DefaultDetectorConfig, lastLabel, DefaultInsightConfig);
  }
}
