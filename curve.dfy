/** The per-column reduction of `extract_curve` and the structure of
    `remove_outliers`.

    `extract_curve` groups the skeleton pixels by column in a dictionary
    (keys in first-seen order, each column's rows in scan order), walks the
    columns in increasing x, keeps every `step`-th one and reduces each kept
    column to the median of its rows.

    `remove_outliers` flags the interior points whose slope change deviates
    too far from the median change (a floating-point test on the median
    absolute deviation, given here as a verdict), drops them, and falls back
    to the input when fewer than four points would remain. */
module Curve {
  import opened Support

  // ---------------------------------------------------------------------
  // Grouping pixels by column

  /** The dictionary's keys in insertion order: each column's first occurrence. */
  function KeyOrder(ps: seq<Pixel>): seq<int>
  {
    if ps == [] then []
    else
      var o := KeyOrder(ps[..|ps| - 1]);
      var x := ps[|ps| - 1].x;
      if x in o then o else o + [x]
  }

  /** The dictionary `x_to_y`: for each column, its pixels' rows in order. */
  function ColumnsOf(ps: seq<Pixel>): map<int, seq<int>>
  {
    if ps == [] then map[]
    else
      var c := ColumnsOf(ps[..|ps| - 1]);
      var p := ps[|ps| - 1];
      c[p.x := (if p.x in c then c[p.x] else []) + [p.y]]
  }

  /** The rows of the pixels in column `x`, in order: `[y for (x', y) in ps if x' == x]`. */
  function ColumnYs(ps: seq<Pixel>, x: int): seq<int>
  {
    if ps == [] then []
    else
      var p := ps[|ps| - 1];
      ColumnYs(ps[..|ps| - 1], x) + (if p.x == x then [p.y] else [])
  }

  ghost predicate HasColumn(ps: seq<Pixel>, x: int)
  {
    exists i :: 0 <= i < |ps| && ps[i].x == x
  }

  /** The loop that fills `x_to_y`. */
  method GroupColumns(ps: seq<Pixel>) returns (order: seq<int>, columns: map<int, seq<int>>)
    ensures order == KeyOrder(ps) && columns == ColumnsOf(ps)
  {
    order, columns := [], map[];
    for i := 0 to |ps|
      invariant order == KeyOrder(ps[..i]) && columns == ColumnsOf(ps[..i])
      invariant forall x :: x in order <==> x in columns
    {
      assert ps[..i + 1][..i] == ps[..i];
      var p := ps[i];
      if p.x !in columns {
        columns := columns[p.x := []];
        order := order + [p.x];
      }
      columns := columns[p.x := columns[p.x] + [p.y]];
      ColumnKeys(ps[..i]);
    }
    assert ps[..|ps|] == ps;
  }

  /** The columns present are exactly those of some pixel, listed once each in
      the key order, and each holds at least one row. */
  lemma {:induction false} ColumnKeys(ps: seq<Pixel>)
    ensures forall x :: x in ColumnsOf(ps) <==> HasColumn(ps, x)
    ensures forall x :: x in KeyOrder(ps) <==> x in ColumnsOf(ps)
    ensures forall i, j :: 0 <= i < j < |KeyOrder(ps)| ==> KeyOrder(ps)[i] != KeyOrder(ps)[j]
    ensures forall x :: x in ColumnsOf(ps) ==> ColumnsOf(ps)[x] != []
    decreases |ps|
  {
    if ps != [] {
      var front := ps[..|ps| - 1];
      ColumnKeys(front);
      forall x ensures HasColumn(ps, x) <==> HasColumn(front, x) || ps[|ps| - 1].x == x {
        if HasColumn(front, x) {
          var i :| 0 <= i < |front| && front[i].x == x;
          assert ps[i] == front[i];
        }
        if HasColumn(ps, x) && ps[|ps| - 1].x != x {
          var i :| 0 <= i < |ps| && ps[i].x == x;
          assert front[i] == ps[i];
        }
      }
    }
  }

  /** Each column of the dictionary lists the rows of that column's pixels in
      scan order. */
  lemma {:induction false} ColumnContents(ps: seq<Pixel>, x: int)
    ensures x in ColumnsOf(ps) ==> ColumnsOf(ps)[x] == ColumnYs(ps, x)
    ensures x !in ColumnsOf(ps) ==> ColumnYs(ps, x) == []
    decreases |ps|
  {
    if ps != [] {
      ColumnContents(ps[..|ps| - 1], x);
    }
  }

  // ---------------------------------------------------------------------
  // Median

  /** `np.median`: the middle element of the sorted values, or the mean of
      the two middle ones when their number is even. */
  function Median(ys: seq<int>): real
    requires ys != []
  {
    var s := SortBy(ys, IntKey);
    var n := |s|;
    if n % 2 == 1 then s[n / 2] as real
    else (s[n / 2 - 1] + s[n / 2]) as real / 2.0
  }

  /** The median lies between the two middle values of the sorted list, so at
      least half the values are no larger and at least half no smaller. */
  lemma MedianBetweenMiddle(ys: seq<int>)
    requires ys != []
    ensures var s := SortBy(ys, IntKey);
      s[(|s| - 1) / 2] as real <= Median(ys) <= s[|s| / 2] as real
  {
    var s := SortBy(ys, IntKey);
    var lo, hi := (|s| - 1) / 2, |s| / 2;
    if |s| % 2 == 0 {
      assert lo == hi - 1;
      SortBySorted(ys, IntKey);
      assert IntKey(s[lo]) <= IntKey(s[hi]);
    } else {
      assert lo == hi;
    }
  }

  /** The median lies between the smallest and the largest value. */
  lemma MedianInRange(ys: seq<int>)
    requires ys != []
    ensures exists i :: 0 <= i < |ys| && ys[i] as real <= Median(ys)
    ensures exists j :: 0 <= j < |ys| && Median(ys) <= ys[j] as real
  {
    var s := SortBy(ys, IntKey);
    MedianBetweenMiddle(ys);
    SortByMembers(ys, IntKey);
    assert s[(|s| - 1) / 2] in ys && s[|s| / 2] in ys;
  }

  /** A column whose pixels all sit in one row has that row as its median. */
  lemma MedianOfConstant(ys: seq<int>, c: int)
    requires ys != [] && forall i :: 0 <= i < |ys| ==> ys[i] == c
    ensures Median(ys) == c as real
  {
    var s := SortBy(ys, IntKey);
    SortByMembers(ys, IntKey);
    assert s[|s| / 2] in ys && s[(|s| - 1) / 2] in ys;
    if |s| % 2 == 0 {
      assert s[|s| / 2 - 1] in ys;
    }
  }

  // ---------------------------------------------------------------------
  // Down-sampling

  /** `(x, median)` for every column `xs[i]` with `i % step == 0`, among the
      first `n` columns. */
  function SampledBefore(xs: seq<int>, columns: map<int, seq<int>>, step: nat, n: nat): seq<Point>
    requires n <= |xs| && step > 0
    requires forall x :: x in xs ==> x in columns && columns[x] != []
  {
    if n == 0 then []
    else
      var rest := SampledBefore(xs, columns, step, n - 1);
      if (n - 1) % step == 0 then rest + [ColumnPoint(xs, columns, n - 1)] else rest
  }

  /** Column `xs[i]` with the median of its rows. */
  function ColumnPoint(xs: seq<int>, columns: map<int, seq<int>>, i: nat): Point
    requires i < |xs| && xs[i] in columns && columns[xs[i]] != []
  {
    Point(xs[i] as real, Median(columns[xs[i]]))
  }

  /** `step = max(1, downsample_factor)` */
  function StepOf(downsample: int): (step: nat)
    ensures step >= 1 && (downsample >= 1 ==> step == downsample)
  {
    if downsample >= 1 then downsample else 1
  }

  /** The down-sampling loop over the sorted columns. */
  method SampleColumns(xs: seq<int>, columns: map<int, seq<int>>, downsample: int) returns (points: seq<Point>)
    requires forall x :: x in xs ==> x in columns && columns[x] != []
    ensures points == SampledBefore(xs, columns, StepOf(downsample), |xs|)
  {
    var step := StepOf(downsample);
    points := [];
    for i := 0 to |xs|
      invariant points == SampledBefore(xs, columns, step, i)
    {
      if i % step == 0 {
        var x := xs[i];
        assert x in xs;
        assert x in columns && columns[x] != [];
        points := points + [ColumnPoint(xs, columns, i)];
      }
    }
  }

  /** The positions `i < n` with `i % step == 0`. */
  function SampledPositions(step: nat, n: nat): seq<nat>
    requires step > 0
  {
    if n == 0 then []
    else
      var rest := SampledPositions(step, n - 1);
      if (n - 1) % step == 0 then rest + [n - 1] else rest
  }

  /** The sampled positions are 0, step, 2*step, … below `n`: ceil(n / step)
      of them. */
  lemma {:induction false} SampledPositionsAt(step: nat, n: nat)
    requires step > 0
    ensures var c := |SampledPositions(step, n)|;
      n <= c * step && (c == 0 || (c - 1) * step < n)
    ensures forall k :: 0 <= k < |SampledPositions(step, n)| ==> SampledPositions(step, n)[k] == k * step
    decreases n
  {
    if n > 0 {
      var m := n - 1;
      SampledPositionsAt(step, m);
      var c := |SampledPositions(step, m)|;
      if m % step == 0 {
        var q := m / step;
        assert m == q * step;
        if q < c {
          MulMono(q, c - 1, step);
        } else if c < q {
          MulMono(c + 1, q, step);
        }
        assert m == c * step;
      } else if m == c * step {
        DivOfDecomposition(m, step, c, 0);
      }
    }
  }

  /** The sampled list holds the sampled columns, each with its median. */
  lemma {:induction false} SampledFollowsPositions(xs: seq<int>, columns: map<int, seq<int>>, step: nat, n: nat)
    requires n <= |xs| && step > 0
    requires forall x :: x in xs ==> x in columns && columns[x] != []
    ensures |SampledBefore(xs, columns, step, n)| == |SampledPositions(step, n)|
    ensures forall k :: 0 <= k < |SampledPositions(step, n)| ==>
      SampledPositions(step, n)[k] < n
      && SampledBefore(xs, columns, step, n)[k] == ColumnPoint(xs, columns, SampledPositions(step, n)[k])
    decreases n
  {
    if n > 0 {
      SampledFollowsPositions(xs, columns, step, n - 1);
    }
  }

  /** The sampled list holds exactly the columns at positions 0, step,
      2*step, …, each with its median: ceil(|xs| / step) points. */
  lemma SampledAt(xs: seq<int>, columns: map<int, seq<int>>, step: nat)
    requires step > 0
    requires forall x :: x in xs ==> x in columns && columns[x] != []
    ensures var c := |SampledBefore(xs, columns, step, |xs|)|;
      |xs| <= c * step && (c == 0 || (c - 1) * step < |xs|)
    ensures forall k :: 0 <= k < |SampledBefore(xs, columns, step, |xs|)| ==>
      k * step < |xs| && SampledBefore(xs, columns, step, |xs|)[k] == ColumnPoint(xs, columns, k * step)
  {
    SampledPositionsAt(step, |xs|);
    SampledFollowsPositions(xs, columns, step, |xs|);
  }

  lemma MulMono(a: nat, b: nat, s: nat)
    requires a <= b
    ensures a * s <= b * s
  {
    assert b * s == a * s + (b - a) * s;
  }

  /** Euclidean division is unique. */
  lemma DivOfDecomposition(m: nat, s: nat, q: nat, r: nat)
    requires s > 0 && r < s && m == q * s + r
    ensures m / s == q && m % s == r
  {
    var q', r' := m / s, m % s;
    assert m == q' * s + r';
    if q < q' {
      MulMono(q + 1, q', s);
    } else if q' < q {
      MulMono(q' + 1, q, s);
    }
  }

  lemma {:induction false} SampledPositionsIncrease(step: nat, n: nat)
    requires step > 0
    ensures forall k, l :: 0 <= k < l < |SampledPositions(step, n)| ==>
      SampledPositions(step, n)[k] < SampledPositions(step, n)[l] < n
    decreases n
  {
    if n > 0 {
      SampledPositionsIncrease(step, n - 1);
      SampledFollowsPositionsBound(step, n - 1);
    }
  }

  lemma {:induction false} SampledFollowsPositionsBound(step: nat, n: nat)
    requires step > 0
    ensures forall k :: 0 <= k < |SampledPositions(step, n)| ==> SampledPositions(step, n)[k] < n
    decreases n
  {
    if n > 0 {
      SampledFollowsPositionsBound(step, n - 1);
    }
  }

  /** Sampling strictly increasing columns gives strictly increasing x. */
  lemma SampledIncreasing(xs: seq<int>, columns: map<int, seq<int>>, step: nat)
    requires step > 0 && forall i, j :: 0 <= i < j < |xs| ==> xs[i] < xs[j]
    requires forall x :: x in xs ==> x in columns && columns[x] != []
    ensures var r := SampledBefore(xs, columns, step, |xs|);
      forall k, l :: 0 <= k < l < |r| ==> r[k].x < r[l].x
  {
    var r := SampledBefore(xs, columns, step, |xs|);
    var ps := SampledPositions(step, |xs|);
    SampledFollowsPositions(xs, columns, step, |xs|);
    SampledPositionsIncrease(step, |xs|);
    forall k, l | 0 <= k < l < |r| ensures r[k].x < r[l].x {
      assert r[k] == ColumnPoint(xs, columns, ps[k]) && r[l] == ColumnPoint(xs, columns, ps[l]);
    }
  }

  // ---------------------------------------------------------------------
  // Outlier removal

  /** `outlier_mask[i]`: slope change `i - 1` is flagged, which marks point
      `i`; only interior points can be marked. */
  predicate Marked(n: nat, flagged: nat -> bool, i: nat)
  {
    1 <= i <= n - 2 && flagged(i - 1)
  }

  /** `[p for i, p in enumerate(points) if not outlier_mask[i]]`, from index `i` on. */
  function Unmarked(points: seq<Point>, flagged: nat -> bool, i: nat): seq<Point>
    requires i <= |points|
    decreases |points| - i
  {
    if i == |points| then []
    else (if Marked(|points|, flagged, i) then [] else [points[i]]) + Unmarked(points, flagged, i + 1)
  }

  /** `remove_outliers`.  The verdict on the slope changes is `None` when
      their median absolute deviation is below 1e-10, and otherwise says which
      slope changes deviate by more than the threshold. */
  function RemoveOutliers(points: seq<Point>, verdict: Option<nat -> bool>): seq<Point>
  {
    if |points| < 5 then points
    else
      match verdict
      case None => points
      case Some(flagged) =>
        var cleaned := Unmarked(points, flagged, 0);
        if |cleaned| > 3 then cleaned else points
  }

  lemma {:induction false} UnmarkedIsSubsequence(points: seq<Point>, flagged: nat -> bool, i: nat)
    requires i <= |points|
    ensures IsSubsequence(Unmarked(points, flagged, i), points[i..])
    decreases |points| - i
  {
    if i == |points| {
      assert Unmarked(points, flagged, i) == [];
    } else {
      var r, rest := Unmarked(points, flagged, i), Unmarked(points, flagged, i + 1);
      UnmarkedIsSubsequence(points, flagged, i + 1);
      assert points[i..][1..] == points[i + 1..];
      if !Marked(|points|, flagged, i) {
        assert r[0] == points[i..][0] && r[1..] == rest;
      } else {
        assert r == rest;
      }
    }
  }

  /** From any index up to the last, the last point survives. */
  lemma {:induction false} UnmarkedKeepsLast(points: seq<Point>, flagged: nat -> bool, i: nat)
    requires i < |points|
    ensures var r := Unmarked(points, flagged, i); r != [] && r[|r| - 1] == points[|points| - 1]
    decreases |points| - i
  {
    if i < |points| - 1 {
      UnmarkedKeepsLast(points, flagged, i + 1);
    }
  }

  /** The cleaned list is the input with some interior points deleted: the
      first and last points always survive, a list of fewer than five points
      or a constant slope change comes back unchanged, and the input comes
      back whenever at most three points would remain. */
  lemma RemoveOutliersShape(points: seq<Point>, verdict: Option<nat -> bool>)
    ensures var r := RemoveOutliers(points, verdict);
      IsSubsequence(r, points) && multiset(r) <= multiset(points)
      && (|points| < 5 || verdict.None? ==> r == points)
      && (r == points || 3 < |r| < |points|)
      && (points != [] ==> r != [] && r[0] == points[0] && r[|r| - 1] == points[|points| - 1])
  {
    var r := RemoveOutliers(points, verdict);
    if r != points {
      var flagged := verdict.value;
      assert r == Unmarked(points, flagged, 0);
      UnmarkedIsSubsequence(points, flagged, 0);
      assert points[0..] == points;
      UnmarkedKeepsLast(points, flagged, 0);
      SubsequenceMultiset(r, points);
      SubsequenceLength(r, points);
    } else {
      SubsequenceReflexive(points);
    }
  }

  /** A subsequence that differs from its source is shorter. */
  lemma {:induction false} SubsequenceLength<T>(a: seq<T>, b: seq<T>)
    requires IsSubsequence(a, b) && a != b
    ensures |a| < |b|
    decreases |b|
  {
    if |a| == |b| && a != [] {
      if a[0] == b[0] && IsSubsequence(a[1..], b[1..]) {
        SubsequenceLength(a[1..], b[1..]);
      }
    }
  }
}
