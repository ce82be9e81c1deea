/** What `_apply_cleaning_rules` promises: it never adds a point, every
    survivor meets the y thresholds, no survivor lies in a noise region
    marked for removal or fails a region check, and the result is sorted by
    x.  Each stage only deletes, so each stage's promise survives the
    stages after it. */
module CleaningProperties {
  import opened Support
  import opened Cleaning

  /** A point of a sequence whose multiset is below another's is in the other. */
  lemma MemberOfSmaller(a: seq<Point>, b: seq<Point>, q: Point)
    requires multiset(a) <= multiset(b) && q in a
    ensures q in b
  {
    assert q in multiset(a);
  }

  /** A sequence whose multiset is below another's is no longer. */
  lemma MultisetLength(a: seq<Point>, b: seq<Point>)
    requires multiset(a) <= multiset(b)
    ensures |a| <= |b|
  {
    var d := multiset(b) - multiset(a);
    assert multiset(b) == multiset(a) + d;
    assert |multiset(b)| == |multiset(a)| + |d|;
  }

  /** What survives a filter passes its test, and the filter only deletes. */
  lemma FilterPasses(s: seq<Point>, f: Point -> bool)
    ensures multiset(Filter(s, f)) <= multiset(s)
    ensures forall q :: q in Filter(s, f) ==> f(q)
  {
    FilterIsSubsequence(s, f);
    forall q | q in Filter(s, f) ensures f(q) {
      var i :| 0 <= i < |Filter(s, f)| && Filter(s, f)[i] == q;
    }
  }

  lemma ThresholdStageShape(points: seq<Point>, yLow: Option<real>, yHigh: Option<real>)
    ensures multiset(ThresholdStage(points, yLow, yHigh)) <= multiset(points)
    ensures forall q :: q in ThresholdStage(points, yLow, yHigh) ==> WithinThresholds(yLow, yHigh, q)
  {
    if yLow.Some? || yHigh.Some? {
      FilterPasses(points, ThresholdTest(yLow, yHigh));
    }
  }

  lemma RegionStageShape(points: seq<Point>, r: CheckRegion)
    ensures multiset(RegionStage(points, r)) <= multiset(points)
    ensures forall q :: q in RegionStage(points, r) ==> RegionKeeps(r, q)
  {
    if r.xStart.Some? && r.xEnd.Some? {
      FilterPasses(points, RegionTest(r));
    }
  }

  /** After all region checks, every survivor passes every check. */
  lemma {:induction false} CheckRegionsShape(points: seq<Point>, rs: seq<CheckRegion>)
    ensures multiset(CheckRegionsFrom(points, rs)) <= multiset(points)
    ensures forall i, q :: 0 <= i < |rs| && q in CheckRegionsFrom(points, rs) ==> RegionKeeps(rs[i], q)
    decreases |rs|
  {
    if rs != [] {
      var next := RegionStage(points, rs[0]);
      RegionStageShape(points, rs[0]);
      CheckRegionsShape(next, rs[1..]);
      var res := CheckRegionsFrom(points, rs);
      forall i, q | 0 <= i < |rs| && q in res ensures RegionKeeps(rs[i], q) {
        if i == 0 {
          MemberOfSmaller(res, next, q);
        } else {
          assert rs[i] == rs[1..][i - 1];
        }
      }
    }
  }

  lemma NoiseStageShape(points: seq<Point>, r: NoiseRegion)
    ensures multiset(NoiseStage(points, r)) <= multiset(points)
    ensures forall q :: q in NoiseStage(points, r) ==> NoiseKeeps(r, q)
  {
    if Removes(r) {
      FilterPasses(points, NoiseTest(r));
    }
  }

  /** After all noise regions, no survivor lies in one marked for removal. */
  lemma {:induction false} RemoveNoiseShape(points: seq<Point>, ns: seq<NoiseRegion>)
    ensures multiset(RemoveNoiseFrom(points, ns)) <= multiset(points)
    ensures forall i, q :: 0 <= i < |ns| && q in RemoveNoiseFrom(points, ns) ==> NoiseKeeps(ns[i], q)
    decreases |ns|
  {
    if ns != [] {
      var next := NoiseStage(points, ns[0]);
      NoiseStageShape(points, ns[0]);
      RemoveNoiseShape(next, ns[1..]);
      var res := RemoveNoiseFrom(points, ns);
      forall i, q | 0 <= i < |ns| && q in res ensures NoiseKeeps(ns[i], q) {
        if i == 0 {
          MemberOfSmaller(res, next, q);
        } else {
          assert ns[i] == ns[1..][i - 1];
        }
      }
    }
  }

  /** A fence filter keeps exactly the points between its fences. */
  lemma FenceShape(points: seq<Point>, lower: real, upper: real)
    ensures multiset(Filter(points, FenceTest(lower, upper))) <= multiset(points)
    ensures forall p :: p in Filter(points, FenceTest(lower, upper)) ==> lower <= p.y <= upper
    ensures forall i :: 0 <= i < |points| && lower <= points[i].y <= upper ==>
      points[i] in Filter(points, FenceTest(lower, upper))
  {
    FilterPasses(points, FenceTest(lower, upper));
  }

  /** With a non-negative multiplier the fences lie outside the quartiles. */
  lemma IqrFenceOutsideQuartiles(q: Quartiles, multiplier: real)
    requires q.q1 <= q.q3 && multiplier >= 0.0
    ensures IqrFence(q, multiplier).lower <= q.q1 && q.q3 <= IqrFence(q, multiplier).upper
  {
    MulNonneg(multiplier, q.q3 - q.q1);
  }

  /** The interquartile filter only runs on more than ten points; it then
      keeps only points within the fences and, with a non-negative
      multiplier, every point between the two quartiles. */
  lemma IqrStageShape(points: seq<Point>, multiplier: real)
    ensures multiset(IqrStage(points, multiplier)) <= multiset(points)
    ensures |points| <= 10 ==> IqrStage(points, multiplier) == points
    ensures |points| > 10 ==>
      var q := QuartilesOf(points);
      var f := IqrFence(q, multiplier);
      (forall p :: p in IqrStage(points, multiplier) ==> f.lower <= p.y <= f.upper)
      && (multiplier >= 0.0 ==>
            forall i :: 0 <= i < |points| && q.q1 <= points[i].y <= q.q3 ==> points[i] in IqrStage(points, multiplier))
  {
    if |points| > 10 {
      var q := QuartilesOf(points);
      var f := IqrFence(q, multiplier);
      FenceShape(points, f.lower, f.upper);
      if multiplier >= 0.0 {
        IqrFenceOutsideQuartiles(q, multiplier);
      }
    }
  }

  /** The points with a neighbour come from the first `n` of `sp`, no
      more often than there. */
  lemma {:induction false} NonIsolatedMultiset(sp: seq<Point>, threshold: real, n: nat)
    requires n <= |sp|
    ensures multiset(NonIsolated(sp, threshold, n)) <= multiset(sp[..n])
    decreases n
  {
    if n > 0 {
      NonIsolatedMultiset(sp, threshold, n - 1);
      assert sp[..n] == sp[..n - 1] + [sp[n - 1]];
    }
  }

  /** Each kept point is some `sp[i]` that has a neighbour. */
  lemma {:induction false} NonIsolatedSound(sp: seq<Point>, threshold: real, n: nat)
    requires n <= |sp|
    ensures forall q :: q in NonIsolated(sp, threshold, n) ==>
      exists i :: 0 <= i < n && q == sp[i] && HasNeighbor(sp, i, threshold)
    decreases n
  {
    if n > 0 {
      NonIsolatedSound(sp, threshold, n - 1);
    }
  }

  /** Each `sp[i]` that has a neighbour is kept. */
  lemma {:induction false} NonIsolatedComplete(sp: seq<Point>, threshold: real, n: nat)
    requires n <= |sp|
    ensures forall i :: 0 <= i < n && HasNeighbor(sp, i, threshold) ==> sp[i] in NonIsolated(sp, threshold, n)
    decreases n
  {
    if n > 0 {
      NonIsolatedComplete(sp, threshold, n - 1);
    }
  }

  /** The kept points keep the order of `sp` by x. */
  lemma {:induction false} NonIsolatedSorted(sp: seq<Point>, threshold: real, n: nat)
    requires n <= |sp| && SortedBy(sp, PointX)
    ensures SortedBy(NonIsolated(sp, threshold, n), PointX)
    decreases n
  {
    if n > 0 {
      NonIsolatedSorted(sp, threshold, n - 1);
      var rest := NonIsolated(sp, threshold, n - 1);
      if HasNeighbor(sp, n - 1, threshold) {
        NonIsolatedSound(sp, threshold, n - 1);
        var r := rest + [sp[n - 1]];
        assert r == NonIsolated(sp, threshold, n);
        forall a, b | 0 <= a < b < |r| ensures PointX(r[a]) <= PointX(r[b]) {
          if b < |rest| {
            assert r[a] == rest[a] && r[b] == rest[b];
          } else {
            assert rest[a] in rest;
            var i :| 0 <= i < n - 1 && rest[a] == sp[i] && HasNeighbor(sp, i, threshold);
          }
        }
      }
    }
  }

  /** The isolated-point filter only runs on more than five points; its
      result is adopted only when it keeps more than half of them, and then
      it is the x-sorted points that have a neighbour. */
  lemma IsolatedStageShape(points: seq<Point>, threshold: real)
    ensures multiset(IsolatedStage(points, threshold)) <= multiset(points)
    ensures |points| <= 5 ==> IsolatedStage(points, threshold) == points
    ensures var r := IsolatedStage(points, threshold);
      r == points
      || (|points| > 5 && 2 * |r| > |points|
          && r == NonIsolated(SortBy(points, PointX), threshold, |points|)
          && SortedBy(r, PointX))
  {
    if |points| > 5 {
      var sp := SortBy(points, PointX);
      SortBySorted(points, PointX);
      NonIsolatedMultiset(sp, threshold, |sp|);
      NonIsolatedSorted(sp, threshold, |sp|);
      assert sp[..|sp|] == sp;
    }
  }

  lemma RuleStageShape(points: seq<Point>, rule: CleaningRule)
    ensures multiset(RuleStage(points, rule)) <= multiset(points)
  {
    match rule
    case RemoveOutliersRule(m) => IqrStageShape(points, OrDefault(m, DefaultIqrMultiplier));
    case RemoveIsolatedRule(t) => IsolatedStageShape(points, OrDefault(t, DefaultDistanceThreshold));
    case OtherRule =>
  }

  lemma {:induction false} ApplyRulesShape(points: seq<Point>, rules: seq<CleaningRule>)
    ensures multiset(ApplyRulesFrom(points, rules)) <= multiset(points)
    decreases |rules|
  {
    if rules != [] {
      RuleStageShape(points, rules[0]);
      ApplyRulesShape(RuleStage(points, rules[0]), rules[1..]);
    }
  }

  /** Cleaning never adds a point: the result is a sub-multiset of the input,
      sorted by x. */
  lemma CleaningNeverAdds(points: seq<Point>, a: Analysis)
    ensures multiset(CleaningResult(points, a)) <= multiset(points)
    ensures |CleaningResult(points, a)| <= |points|
    ensures SortedBy(CleaningResult(points, a), PointX)
  {
    var s1 := ThresholdStage(points, a.yLow, a.yHigh);
    var s2 := CheckRegionsFrom(s1, a.regions);
    var s3 := RemoveNoiseFrom(s2, a.noise);
    var s4 := ApplyRulesFrom(s3, a.rules);
    ThresholdStageShape(points, a.yLow, a.yHigh);
    CheckRegionsShape(s1, a.regions);
    RemoveNoiseShape(s2, a.noise);
    ApplyRulesShape(s3, a.rules);
    SortBySorted(s4, PointX);
    var r := CleaningResult(points, a);
    assert multiset(r) == multiset(s4);
    MultisetLength(r, points);
  }

  /** Every survivor of the noise stage and the rules came through that
      stage. */
  lemma SurvivorsOfNoise(points: seq<Point>, a: Analysis, q: Point)
    requires q in CleaningResult(points, a)
    ensures q in RemoveNoiseFrom(CheckRegionsFrom(ThresholdStage(points, a.yLow, a.yHigh), a.regions), a.noise)
  {
    var s3 := RemoveNoiseFrom(CheckRegionsFrom(ThresholdStage(points, a.yLow, a.yHigh), a.regions), a.noise);
    var s4 := ApplyRulesFrom(s3, a.rules);
    ApplyRulesShape(s3, a.rules);
    MemberOfSmaller(CleaningResult(points, a), s4, q);
    MemberOfSmaller(s4, s3, q);
  }

  /** No survivor lies inside a noise region whose action is "remove". */
  lemma CleaningRemovesNoise(points: seq<Point>, a: Analysis)
    ensures forall i, q :: 0 <= i < |a.noise| && Removes(a.noise[i]) && q in CleaningResult(points, a) ==>
      !InNoiseRegion(a.noise[i], q)
  {
    var s2 := CheckRegionsFrom(ThresholdStage(points, a.yLow, a.yHigh), a.regions);
    RemoveNoiseShape(s2, a.noise);
    forall i, q | 0 <= i < |a.noise| && Removes(a.noise[i]) && q in CleaningResult(points, a)
      ensures !InNoiseRegion(a.noise[i], q)
    {
      SurvivorsOfNoise(points, a, q);
    }
  }

  /** Every survivor passed the region checks and the thresholds. */
  lemma SurvivorsOfRegions(points: seq<Point>, a: Analysis, q: Point)
    requires q in CleaningResult(points, a)
    ensures q in CheckRegionsFrom(ThresholdStage(points, a.yLow, a.yHigh), a.regions)
    ensures q in ThresholdStage(points, a.yLow, a.yHigh)
  {
    var s1 := ThresholdStage(points, a.yLow, a.yHigh);
    var s2 := CheckRegionsFrom(s1, a.regions);
    SurvivorsOfNoise(points, a, q);
    RemoveNoiseShape(s2, a.noise);
    MemberOfSmaller(RemoveNoiseFrom(s2, a.noise), s2, q);
    CheckRegionsShape(s1, a.regions);
    MemberOfSmaller(s2, s1, q);
  }

  /** Every survivor meets each y threshold that is given, and a survivor in
      the x range of a region check with both expected ends given has its y
      within them. */
  lemma CleaningKeepsBounds(points: seq<Point>, a: Analysis)
    ensures forall q :: q in CleaningResult(points, a) ==>
      (a.yLow.Some? ==> q.y >= a.yLow.value) && (a.yHigh.Some? ==> q.y <= a.yHigh.value)
    ensures forall i, q :: 0 <= i < |a.regions| && q in CleaningResult(points, a) ==> RegionKeeps(a.regions[i], q)
  {
    var s1 := ThresholdStage(points, a.yLow, a.yHigh);
    ThresholdStageShape(points, a.yLow, a.yHigh);
    CheckRegionsShape(s1, a.regions);
    forall q | q in CleaningResult(points, a)
      ensures (a.yLow.Some? ==> q.y >= a.yLow.value) && (a.yHigh.Some? ==> q.y <= a.yHigh.value)
      ensures forall i :: 0 <= i < |a.regions| ==> RegionKeeps(a.regions[i], q)
    {
      SurvivorsOfRegions(points, a, q);
    }
  }
}
