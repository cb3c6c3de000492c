/** Worked examples for the detector and the insight rules, with the default
    thresholds of both agents, on daily series dated 1, 2, 3, … */
module DetectorScenarios {
  import opened Wrappers
  import opened SeriesStats
  import opened TrendDetector
  import opened DemandInsight

  /** One point per day, dated from 1 in order. */
  function Daily(qs: seq<real>): (ps: seq<Point>)
    ensures |ps| == |qs|
    ensures forall i :: 0 <= i < |qs| ==> ps[i].quantity == qs[i]
    ensures DatesAscending(ps)
  {
    seq(|qs|, i requires 0 <= i < |qs| => Point(i + 1, qs[i]))
  }

  /** A daily series that fits the window is its own window. */
  lemma DailyWindow(qs: seq<real>, trendWindow: nat)
    requires |qs| <= trendWindow
    ensures Window(Daily(qs), trendWindow) == qs
  {
    SortKeepsOrderedInput(Daily(qs));
  }

  const SeriesA: seq<real> := [10.0, 10.0, 10.0, 10.0, 10.0, 10.0, 30.0]
  const SeriesB: seq<real> := [100.0, 102.0, 101.0, 103.0, 104.0, 106.0, 150.0]
  const SeriesC: seq<real> := [50.0, 50.0, 50.0]
  const SeriesD: seq<real> := [20.0, 20.0, 20.0, 20.0, 20.0, 20.0, 20.0]
  /** Last value equal to the history's mean, but widely spread. */
  const SeriesV: seq<real> := [1.0, 19.0, 10.0]

  /** Counts of rising and falling steps among three steps given one by one. */
  lemma CountThreeSteps(a: real, b: real, c: real)
    ensures CountPositive([a, b, c])
            == (if a > 0.0 then 1 else 0) + (if b > 0.0 then 1 else 0) + (if c > 0.0 then 1 else 0)
    ensures CountNegative([a, b, c])
            == (if a < 0.0 then 1 else 0) + (if b < 0.0 then 1 else 0) + (if c < 0.0 then 1 else 0)
  {
    assert [a, b, c][..2] == [a, b];
    assert [a, b][..1] == [a];
    assert [a][..0] == [];
    assert CountPositive([a]) == (if a > 0.0 then 1 else 0);
    assert CountNegative([a]) == (if a < 0.0 then 1 else 0);
    assert CountPositive([a, b]) == CountPositive([a]) + (if b > 0.0 then 1 else 0);
    assert CountNegative([a, b]) == CountNegative([a]) + (if b < 0.0 then 1 else 0);
  }

  /** Series A: the last value triples the flat history, so the change clears
      the increasing threshold, but only one of the last three steps rose; the
      ladder falls through to the spike rule, which finds the jump. */
  lemma SeriesAStatistics()
    ensures var s := StatsOf(SeriesA);
            s.last == 30.0 && s.average == 10.0 && s.pctChange == 2.0
            && s.numPositive == 1 && s.numNegative == 0
    ensures FallsThrough(StatsOf(SeriesA), DefaultDetectorConfig)
    ensures FirstSpike(SeriesA, 0.50) == Some(Up)
  {
    var h := SeriesA[..6];
    SumOfConstant(h, 10.0);
    assert HistoryAverage(SeriesA) == 10.0;
    assert RecentDiffs(SeriesA) == [0.0, 0.0, 20.0];
    CountThreeSteps(0.0, 0.0, 20.0);
  }

  /** On series A the detector as written raises when no label is carried,
      and answers stable when the carried label is spiky. */
  lemma SeriesAVerdicts(name: string)
    ensures TrendOf(ProductSeries(name, Daily(SeriesA)), DefaultDetectorConfig, None)
            == Err(UnboundTrendLabel(name))
    ensures var r := TrendOf(ProductSeries(name, Daily(SeriesA)), DefaultDetectorConfig, Some(Spiky));
            r.Ok? && r.value.trendLabel == Stable
  {
    DailyWindow(SeriesA, 7);
    SeriesAStatistics();
  }

  /** The detector as written raises on series A when no product was
      classified before it. */
  lemma SeriesAFaultsWhenClassifiedFirst(name: string)
    ensures Detected([ProductSeries(name, Daily(SeriesA))], DefaultDetectorConfig)
            == Err(UnboundTrendLabel(name))
  {
    var g := ProductSeries(name, Daily(SeriesA));
    SeriesAVerdicts(name);
    assert [g][..0] == [];
    assert Run([g], DefaultDetectorConfig) == Step(Ok(Progress([], None)), g, DefaultDetectorConfig);
  }

  /** The intended verdict on series A is a spiky product with an upward spike. */
  lemma SeriesAIsIntendedSpiky(name: string)
    ensures var t := IntendedTrendOf(ProductSeries(name, Daily(SeriesA)), DefaultDetectorConfig);
            t.trendLabel == Spiky && t.reason == SingleDaySpike(Up, 0.50)
  {
    DailyWindow(SeriesA, 7);
    SeriesAStatistics();
  }

  /** Series V is volatile: no change against its history, but a squared
      volatility of 0.54 against the threshold's 0.25. */
  lemma SeriesVStatistics()
    ensures var s := StatsOf(SeriesV);
            s.pctChange == 0.0 && s.volatilitySquared == 0.54
    ensures VolatileRule(StatsOf(SeriesV), DefaultDetectorConfig)
  {
    assert SeriesV[..2] == [1.0, 19.0];
    assert [1.0, 19.0][..1] == [1.0] && [1.0][..0] == [];
    assert Sum(SeriesV) == 30.0;
    assert Mean(SeriesV) == 10.0;
    assert SumSquaredDeviation(SeriesV, 10.0) == 162.0;
    assert PopulationVariance(SeriesV) == 54.0;
  }

  lemma SeriesVIsSpiky(name: string, lastLabel: Option<Label>)
    ensures var r := TrendOf(ProductSeries(name, Daily(SeriesV)), DefaultDetectorConfig, lastLabel);
            r.Ok? && r.value.trendLabel == Spiky && r.value.reason.Volatile?
  {
    DailyWindow(SeriesV, 7);
    SeriesVStatistics();
  }

  /** As written, series A after a volatile product is reported stable, while
      the intended verdict is spiky. The products are named so that the volatile
      one comes first in name order, the order in which the groups are visited. */
  lemma SeriesAStableAfterSpikyProduct()
    ensures var r := Detected([ProductSeries("P1", Daily(SeriesV)), ProductSeries("P2", Daily(SeriesA))],
                              DefaultDetectorConfig);
            r.Ok? && |r.value| == 2
            && r.value[0].trendLabel == Spiky && r.value[1].trendLabel == Stable
    ensures IntendedTrendOf(ProductSeries("P2", Daily(SeriesA)), DefaultDetectorConfig).trendLabel == Spiky
  {
    var v := ProductSeries("P1", Daily(SeriesV));
    var a := ProductSeries("P2", Daily(SeriesA));
    var groups := [v, a];
    SeriesVIsSpiky("P1", None);
    SeriesAVerdicts("P2");
    SeriesAIsIntendedSpiky("P2");
    var tv := TrendOf(v, DefaultDetectorConfig, None).value;
    var ta := TrendOf(a, DefaultDetectorConfig, Some(Spiky)).value;
    var first := Ok(Progress([tv], Some(Spiky)));
    assert groups[..1] == [v] && [v][..0] == [];
    assert Step(Ok(Progress([], None)), v, DefaultDetectorConfig) == first by {
      assert [] + [tv] == [tv];
    }
    assert Run([v], DefaultDetectorConfig) == first;
    assert Step(first, a, DefaultDetectorConfig) == Ok(Progress([tv, ta], Some(Stable))) by {
      assert [tv] + [ta] == [tv, ta];
    }
    assert Run(groups, DefaultDetectorConfig) == Ok(Progress([tv, ta], Some(Stable)));
  }

  /** Series B: all of the last three steps rose, and the last value is
      284/616 (about 0.46) above the history's average. */
  lemma SeriesBStatistics()
    ensures var s := StatsOf(SeriesB);
            s.average == 616.0 / 6.0 && s.pctChange == 284.0 / 616.0
            && s.numPositive == 3 && s.numNegative == 0
  {
    var h := SeriesB[..6];
    assert h == [100.0, 102.0, 101.0, 103.0, 104.0, 106.0];
    assert h[..5] == [100.0, 102.0, 101.0, 103.0, 104.0];
    assert h[..4] == [100.0, 102.0, 101.0, 103.0];
    assert h[..3] == [100.0, 102.0, 101.0];
    assert h[..2] == [100.0, 102.0];
    assert h[..1] == [100.0] && h[..0] == [];
    assert h[..5][..4] == h[..4] && h[..4][..3] == h[..3] && h[..3][..2] == h[..2];
    assert h[..2][..1] == h[..1] && h[..1][..0] == h[..0];
    assert Sum(h[..1]) == 100.0;
    assert Sum(h[..2]) == 202.0;
    assert Sum(h[..3]) == 303.0;
    assert Sum(h[..4]) == 406.0;
    assert Sum(h[..5]) == 510.0;
    assert Sum(h) == 616.0;
    assert HistoryAverage(SeriesB) == 616.0 / 6.0;
    assert RecentDiffs(SeriesB) == [1.0, 2.0, 44.0];
    CountThreeSteps(1.0, 2.0, 44.0);
  }

  /** Series B rises steadily then jumps: increasing, and a moderate increase
      since the change is below the strong threshold. */
  lemma SeriesBIsIncreasing(name: string, lastLabel: Option<Label>)
    ensures TrendOf(ProductSeries(name, Daily(SeriesB)), DefaultDetectorConfig, lastLabel).Ok?
    ensures var t := TrendOf(ProductSeries(name, Daily(SeriesB)), DefaultDetectorConfig, lastLabel).value;
            t.trendLabel == Increasing
            && SignalFor(t, DefaultInsightConfig).action == IncreaseStock
            && SignalFor(t, DefaultInsightConfig).actionStrength == Moderate
  {
    DailyWindow(SeriesB, 7);
    SeriesBStatistics();
  }

  /** Series C sits exactly at the minimum history: classified, stable, and a
      mild maintain_stock signal. */
  lemma SeriesCIsStable(name: string, lastLabel: Option<Label>)
    ensures TrendOf(ProductSeries(name, Daily(SeriesC)), DefaultDetectorConfig, lastLabel).Ok?
    ensures var t := TrendOf(ProductSeries(name, Daily(SeriesC)), DefaultDetectorConfig, lastLabel).value;
            t.trendLabel == Stable
            && SignalFor(t, DefaultInsightConfig).action == MaintainStock
            && SignalFor(t, DefaultInsightConfig).actionStrength == Mild
  {
    var g := ProductSeries(name, Daily(SeriesC));
    assert forall p :: p in g.points ==> p.quantity == 50.0;
    ConstantSeriesIsStable(g, DefaultDetectorConfig, lastLabel, 50.0);
  }

  /** Series D is flat over a full window: stable, and a mild maintain_stock signal. */
  lemma SeriesDIsStable(name: string, lastLabel: Option<Label>)
    ensures TrendOf(ProductSeries(name, Daily(SeriesD)), DefaultDetectorConfig, lastLabel).Ok?
    ensures var t := TrendOf(ProductSeries(name, Daily(SeriesD)), DefaultDetectorConfig, lastLabel).value;
            t.trendLabel == Stable && t.numDaysUsed == 7
            && SignalFor(t, DefaultInsightConfig).action == MaintainStock
            && SignalFor(t, DefaultInsightConfig).actionStrength == Mild
  {
    var g := ProductSeries(name, Daily(SeriesD));
    ConstantSeriesIsStable(g, DefaultDetectorConfig, lastLabel, 20.0);
  }
}
