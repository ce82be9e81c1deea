/** The data-cleaning helpers of the AI assistant: `_apply_cleaning_rules`,
    which filters a point list through the stages an analysis asks for, and
    `_generate_clean_operations`, which lists the points that cleaning
    deleted.

    The analysis arrives as parsed JSON; here it is a datatype whose absent
    entries are `None`.  Every stage only deletes points, so the promises
    about each stage survive the later ones. */
module Cleaning {
  import opened Support

  /** One entry of `x_regions_to_check`: an x range and the expected y range. */
  datatype CheckRegion = CheckRegion(xStart: Option<real>, xEnd: Option<real>,
                                     expectedLow: Option<real>, expectedHigh: Option<real>)

  /** One entry of `noise_regions`: whether its action is "remove", and its
      x and y ranges. */
  datatype NoiseRegion = NoiseRegion(remove: bool, xLow: Option<real>, xHigh: Option<real>,
                                     yLow: Option<real>, yHigh: Option<real>)

  /** One entry of `cleaning_rules`; a rule of any other type does nothing. */
  datatype CleaningRule =
    | RemoveOutliersRule(iqrMultiplier: Option<real>)
    | RemoveIsolatedRule(distanceThreshold: Option<real>)
    | OtherRule

  datatype Analysis = Analysis(yLow: Option<real>, yHigh: Option<real>,
                               regions: seq<CheckRegion>, noise: seq<NoiseRegion>,
                               rules: seq<CleaningRule>)

  const DefaultIqrMultiplier: real := 1.5
  const DefaultDistanceThreshold: real := 0.1

  function OrDefault(r: Option<real>, default: real): real
  {
    if r.Some? then r.value else default
  }

  // ---------------------------------------------------------------------
  // Stage 1: y thresholds

  predicate WithinThresholds(yLow: Option<real>, yHigh: Option<real>, p: Point)
  {
    (yLow.None? || p.y >= yLow.value) && (yHigh.None? || p.y <= yHigh.value)
  }

  function ThresholdTest(yLow: Option<real>, yHigh: Option<real>): Point -> bool
  {
    p => WithinThresholds(yLow, yHigh, p)
  }

  function ThresholdStage(points: seq<Point>, yLow: Option<real>, yHigh: Option<real>): seq<Point>
  {
    if yLow.Some? || yHigh.Some? then Filter(points, ThresholdTest(yLow, yHigh)) else points
  }

  // ---------------------------------------------------------------------
  // Stage 2: region checks

  /** A point inside a region's x range survives only with its y inside the
      expected range, when both ends of that range are given. */
  predicate RegionKeeps(r: CheckRegion, p: Point)
  {
    (r.xStart.Some? && r.xEnd.Some? && r.xStart.value <= p.x <= r.xEnd.value
     && r.expectedLow.Some? && r.expectedHigh.Some?)
    ==>
    r.expectedLow.value <= p.y <= r.expectedHigh.value
  }

  function RegionTest(r: CheckRegion): Point -> bool
  {
    p => RegionKeeps(r, p)
  }

  /** A region without both x ends is skipped. */
  function RegionStage(points: seq<Point>, r: CheckRegion): seq<Point>
  {
    if r.xStart.Some? && r.xEnd.Some? then Filter(points, RegionTest(r)) else points
  }

  function CheckRegionsFrom(points: seq<Point>, rs: seq<CheckRegion>): seq<Point>
    decreases |rs|
  {
    if rs == [] then points else CheckRegionsFrom(RegionStage(points, rs[0]), rs[1..])
  }

  // ---------------------------------------------------------------------
  // Stage 3: noise regions

  /** The point lies in the region's x range and, when both y ends are
      given, in its y range. */
  predicate InNoiseRegion(r: NoiseRegion, p: Point)
    requires r.xLow.Some? && r.xHigh.Some?
  {
    r.xLow.value <= p.x <= r.xHigh.value
    && (r.yLow.None? || r.yHigh.None? || r.yLow.value <= p.y <= r.yHigh.value)
  }

  /** Only regions whose action is "remove" and whose x range is complete
      remove anything. */
  predicate Removes(r: NoiseRegion)
  {
    r.remove && r.xLow.Some? && r.xHigh.Some?
  }

  predicate NoiseKeeps(r: NoiseRegion, p: Point)
  {
    Removes(r) ==> !InNoiseRegion(r, p)
  }

  function NoiseTest(r: NoiseRegion): Point -> bool
  {
    p => NoiseKeeps(r, p)
  }

  function NoiseStage(points: seq<Point>, r: NoiseRegion): seq<Point>
  {
    if Removes(r) then Filter(points, NoiseTest(r)) else points
  }

  function RemoveNoiseFrom(points: seq<Point>, ns: seq<NoiseRegion>): seq<Point>
    decreases |ns|
  {
    if ns == [] then points else RemoveNoiseFrom(NoiseStage(points, ns[0]), ns[1..])
  }

  // ---------------------------------------------------------------------
  // Stage 4: cleaning rules

  function Ys(points: seq<Point>): (ys: seq<real>)
    ensures |ys| == |points| && forall i :: 0 <= i < |points| ==> ys[i] == points[i].y
  {
    seq(|points|, i requires 0 <= i < |points| => points[i].y)
  }

  /** The first and third quartile as the code picks them: the entries at
      `n // 4` and `3 * n // 4` of the sorted y values. */
  datatype Quartiles = Quartiles(q1: real, q3: real)

  function QuartilesOf(points: seq<Point>): (q: Quartiles)
    requires points != []
    ensures q.q1 <= q.q3
    ensures exists i :: 0 <= i < |points| && points[i].y == q.q1
    ensures exists i :: 0 <= i < |points| && points[i].y == q.q3
  {
    var ys := SortBy(Ys(points), RealKey);
    var n := |ys|;
    QuartileIndices(n);
    SortBySorted(Ys(points), RealKey);
    SortByMembers(Ys(points), RealKey);
    assert RealKey(ys[n / 4]) <= RealKey(ys[3 * n / 4]);
    assert ys[n / 4] in Ys(points) && ys[3 * n / 4] in Ys(points);
    Quartiles(ys[n / 4], ys[3 * n / 4])
  }

  lemma QuartileIndices(n: nat)
    requires n > 0
    ensures 0 <= n / 4 <= 3 * n / 4 < n
  {
  }

  predicate WithinFence(lower: real, upper: real, p: Point)
  {
    lower <= p.y <= upper
  }

  function FenceTest(lower: real, upper: real): Point -> bool
  {
    p => WithinFence(lower, upper, p)
  }

  /** `remove_outliers`: with more than ten points, keep those within
      `multiplier` interquartile ranges of the quartiles. */
  function IqrStage(points: seq<Point>, multiplier: real): seq<Point>
  {
    if |points| > 10 then
      var f := IqrFence(QuartilesOf(points), multiplier);
      Filter(points, FenceTest(f.lower, f.upper))
    else points
  }

  datatype Fence = Fence(lower: real, upper: real)

  /** `multiplier` interquartile ranges below the first quartile and above
      the third. */
  function IqrFence(q: Quartiles, multiplier: real): Fence
  {
    var iqr := q.q3 - q.q1;
    Fence(q.q1 - multiplier * iqr, q.q3 + multiplier * iqr)
  }

  /** Some other point within two positions of `i` in `sp` has a y closer
      than `threshold`. */
  ghost predicate HasNeighbor(sp: seq<Point>, i: nat, threshold: real)
    requires i < |sp|
  {
    exists j :: MaxInt(0, i - 2) <= j < MinInt(|sp|, i + 3) && j != i && AbsReal(sp[i].y - sp[j].y) < threshold
  }

  /** The points among the first `n` of `sp` that have a neighbour, in order. */
  ghost function NonIsolated(sp: seq<Point>, threshold: real, n: nat): seq<Point>
    requires n <= |sp|
  {
    if n == 0 then []
    else
      var rest := NonIsolated(sp, threshold, n - 1);
      if HasNeighbor(sp, n - 1, threshold) then rest + [sp[n - 1]] else rest
  }

  /** `remove_isolated`: with more than five points, keep the x-sorted points
      that have a neighbour, unless that would keep half of them or fewer. */
  ghost function IsolatedStage(points: seq<Point>, threshold: real): seq<Point>
  {
    if |points| > 5 then
      var sp := SortBy(points, PointX);
      var kept := NonIsolated(sp, threshold, |sp|);
      if 2 * |kept| > |points| then kept else points
    else points
  }

  ghost function RuleStage(points: seq<Point>, rule: CleaningRule): seq<Point>
  {
    match rule
    case RemoveOutliersRule(m) => IqrStage(points, OrDefault(m, DefaultIqrMultiplier))
    case RemoveIsolatedRule(t) => IsolatedStage(points, OrDefault(t, DefaultDistanceThreshold))
    case OtherRule => points
  }

  ghost function ApplyRulesFrom(points: seq<Point>, rules: seq<CleaningRule>): seq<Point>
    decreases |rules|
  {
    if rules == [] then points else ApplyRulesFrom(RuleStage(points, rules[0]), rules[1..])
  }

  /** The four stages in order, then the sort by x. */
  ghost function CleaningResult(points: seq<Point>, a: Analysis): seq<Point>
  {
    var afterRegions := CheckRegionsFrom(ThresholdStage(points, a.yLow, a.yHigh), a.regions);
    SortBy(ApplyRulesFrom(RemoveNoiseFrom(afterRegions, a.noise), a.rules), PointX)
  }

  // ---------------------------------------------------------------------
  // The loops

  /** One region check, building the surviving list by appending. */
  method RegionCheck(cleaned: seq<Point>, region: CheckRegion) returns (kept: seq<Point>)
    ensures kept == RegionStage(cleaned, region)
  {
    kept := cleaned;
    if region.xStart.Some? && region.xEnd.Some? {
      var xStart, xEnd := region.xStart.value, region.xEnd.value;
      var newCleaned: seq<Point> := [];
      for i := 0 to |cleaned|
        invariant newCleaned == Filter(cleaned[..i], RegionTest(region))
      {
        var p := cleaned[i];
        assert cleaned[..i + 1] == cleaned[..i] + [p];
        FilterAppend(cleaned[..i], p, RegionTest(region));
        if xStart <= p.x <= xEnd {
          if region.expectedLow.Some? && region.expectedHigh.Some? {
            if region.expectedLow.value <= p.y <= region.expectedHigh.value {
              newCleaned := newCleaned + [p];
            }
          } else {
            newCleaned := newCleaned + [p];
          }
        } else {
          newCleaned := newCleaned + [p];
        }
      }
      assert cleaned[..|cleaned|] == cleaned;
      kept := newCleaned;
    }
  }

  /** The neighbour search for point `i`, stopping at the first neighbour. */
  method FindNeighbor(sp: seq<Point>, i: nat, threshold: real) returns (hasNeighbor: bool)
    requires i < |sp|
    ensures hasNeighbor == HasNeighbor(sp, i, threshold)
  {
    hasNeighbor := false;
    var lo, hi := MaxInt(0, i - 2), MinInt(|sp|, i + 3);
    var j := lo;
    while j < hi
      invariant lo <= j <= hi
      invariant !hasNeighbor
      invariant forall k :: lo <= k < j && k != i ==> AbsReal(sp[i].y - sp[k].y) >= threshold
      decreases hi - j
    {
      if i != j {
        var dist := AbsReal(sp[i].y - sp[j].y);
        if dist < threshold {
          hasNeighbor := true;
          return;
        }
      }
      j := j + 1;
    }
  }

  /** `remove_isolated`, with its guard on the input size and on the share
      of points kept. */
  method RemoveIsolated(cleaned: seq<Point>, threshold: real) returns (r: seq<Point>)
    ensures r == IsolatedStage(cleaned, threshold)
  {
    r := cleaned;
    if |cleaned| > 5 {
      var sortedPoints := SortBy(cleaned, PointX);
      var nonIsolated: seq<Point> := [];
      for i := 0 to |sortedPoints|
        invariant nonIsolated == NonIsolated(sortedPoints, threshold, i)
      {
        var hasNeighbor := FindNeighbor(sortedPoints, i, threshold);
        if hasNeighbor {
          nonIsolated := nonIsolated + [sortedPoints[i]];
        }
      }
      if 2 * |nonIsolated| > |cleaned| {
        r := nonIsolated;
      }
    }
  }

  method CheckRegions(points: seq<Point>, rs: seq<CheckRegion>) returns (cleaned: seq<Point>)
    ensures cleaned == CheckRegionsFrom(points, rs)
  {
    cleaned := points;
    for i := 0 to |rs|
      invariant CheckRegionsFrom(cleaned, rs[i..]) == CheckRegionsFrom(points, rs)
    {
      assert rs[i..][1..] == rs[i + 1..];
      cleaned := RegionCheck(cleaned, rs[i]);
    }
    assert rs[|rs|..] == [];
  }

  method RemoveNoise(points: seq<Point>, ns: seq<NoiseRegion>) returns (cleaned: seq<Point>)
    ensures cleaned == RemoveNoiseFrom(points, ns)
  {
    cleaned := points;
    for i := 0 to |ns|
      invariant RemoveNoiseFrom(cleaned, ns[i..]) == RemoveNoiseFrom(points, ns)
    {
      assert ns[i..][1..] == ns[i + 1..];
      var region := ns[i];
      if region.remove && region.xLow.Some? && region.xHigh.Some? {
        cleaned := Filter(cleaned, NoiseTest(region));
      }
    }
    assert ns[|ns|..] == [];
  }

  method ApplyRules(points: seq<Point>, rules: seq<CleaningRule>) returns (cleaned: seq<Point>)
    ensures cleaned == ApplyRulesFrom(points, rules)
  {
    cleaned := points;
    for i := 0 to |rules|
      invariant ApplyRulesFrom(cleaned, rules[i..]) == ApplyRulesFrom(points, rules)
    {
      assert rules[i..][1..] == rules[i + 1..];
      match rules[i]
      case RemoveOutliersRule(m) =>
        cleaned := IqrStage(cleaned, OrDefault(m, DefaultIqrMultiplier));
      case RemoveIsolatedRule(t) =>
        cleaned := RemoveIsolated(cleaned, OrDefault(t, DefaultDistanceThreshold));
      case OtherRule =>
    }
    assert rules[|rules|..] == [];
  }

  /** `_apply_cleaning_rules`. */
  method ApplyCleaningRules(points: seq<Point>, analysis: Analysis) returns (cleaned: seq<Point>)
    ensures cleaned == CleaningResult(points, analysis)
  {
    cleaned := points;
    if analysis.yLow.Some? || analysis.yHigh.Some? {
      cleaned := Filter(cleaned, ThresholdTest(analysis.yLow, analysis.yHigh));
    }
    cleaned := CheckRegions(cleaned, analysis.regions);
    cleaned := RemoveNoise(cleaned, analysis.noise);
    cleaned := ApplyRules(cleaned, analysis.rules);
    cleaned := SortBy(cleaned, PointX);
  }

  // ---------------------------------------------------------------------
  // The deletion list

  /** One entry of `deletions`; its "type" and "reason" are fixed labels. */
  datatype Deletion = Deletion(index: nat, point: Point)

  datatype CleanOperations = CleanOperations(deletions: seq<Deletion>, deletedCount: nat,
                                             modifiedCount: nat, addedCount: nat)

  /** The positions among the first `n` original points whose coordinates
      are not in `kept`, in order. */
  function DeletionsBefore(original: seq<Point>, kept: set<Point>, n: nat): seq<Deletion>
    requires n <= |original|
  {
    if n == 0 then []
    else
      var rest := DeletionsBefore(original, kept, n - 1);
      if original[n - 1] !in kept then rest + [Deletion(n - 1, original[n - 1])] else rest
  }

  /** Each deletion names a position before `n` and its point, and that
      point is not kept; the positions increase. */
  lemma {:induction false} DeletionsSound(original: seq<Point>, kept: set<Point>, n: nat)
    requires n <= |original|
    ensures forall k :: 0 <= k < |DeletionsBefore(original, kept, n)| ==>
      var e := DeletionsBefore(original, kept, n)[k];
      e.index < n && e.point == original[e.index] && original[e.index] !in kept
    ensures forall k, l :: 0 <= k < l < |DeletionsBefore(original, kept, n)| ==>
      DeletionsBefore(original, kept, n)[k].index < DeletionsBefore(original, kept, n)[l].index
    decreases n
  {
    if n > 0 {
      DeletionsSound(original, kept, n - 1);
      var rest := DeletionsBefore(original, kept, n - 1);
      if original[n - 1] !in kept {
        var d := rest + [Deletion(n - 1, original[n - 1])];
        assert d == DeletionsBefore(original, kept, n);
        assert forall k :: 0 <= k < |rest| ==> d[k] == rest[k] && rest[k].index < n - 1;
      } else {
        assert rest == DeletionsBefore(original, kept, n);
      }
    }
  }

  /** Every position before `n` whose point is not kept is named. */
  lemma {:induction false} DeletionsComplete(original: seq<Point>, kept: set<Point>, n: nat)
    requires n <= |original|
    ensures forall i :: 0 <= i < n && original[i] !in kept ==>
      Deletion(i, original[i]) in DeletionsBefore(original, kept, n)
    decreases n
  {
    if n > 0 {
      DeletionsComplete(original, kept, n - 1);
    }
  }

  /** `_generate_clean_operations`: position `i` is listed exactly when the
      coordinates of `original[i]` are absent from the cleaned points; the
      positions increase and only deletions are counted. */
  method GenerateCleanOperations(original: seq<Point>, cleaned: seq<Point>) returns (ops: CleanOperations)
    ensures ops.deletions == DeletionsBefore(original, set p | p in cleaned, |original|)
    ensures forall i :: 0 <= i < |original| ==>
      (original[i] !in cleaned <==> Deletion(i, original[i]) in ops.deletions)
    ensures forall k :: 0 <= k < |ops.deletions| ==>
      ops.deletions[k].index < |original| && ops.deletions[k].point == original[ops.deletions[k].index]
    ensures forall k, l :: 0 <= k < l < |ops.deletions| ==> ops.deletions[k].index < ops.deletions[l].index
    ensures ops.deletedCount == |ops.deletions| && ops.modifiedCount == 0 && ops.addedCount == 0
  {
    var cleanedSet := set p | p in cleaned;
    var deletions: seq<Deletion> := [];
    var deletedCount := 0;
    for i := 0 to |original|
      invariant deletions == DeletionsBefore(original, cleanedSet, i)
      invariant deletedCount == |deletions|
    {
      var point := original[i];
      if point !in cleanedSet {
        deletions := deletions + [Deletion(i, point)];
        deletedCount := deletedCount + 1;
      }
    }
    ops := CleanOperations(deletions, deletedCount, 0, 0);
    DeletionsSound(original, cleanedSet, |original|);
    DeletionsComplete(original, cleanedSet, |original|);
  }
}
