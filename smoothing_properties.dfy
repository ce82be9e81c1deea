/** What smoothing promises: the same number of points, at the x values of
    the sorted input, with every y a mean of input y values, so that the
    smoothed curve never leaves the band the input lies in. */
module SmoothingProperties {
  import opened Support
  import opened Smoothing

  /** Every y value of `s` lies between `a` and `b`. */
  ghost predicate YsWithin(s: seq<Point>, a: real, b: real)
  {
    forall p :: p in s ==> a <= p.y <= b
  }

  /** A mix of two values of a band stays in it. */
  lemma Convex(alpha: real, y: real, p: real, a: real, b: real)
    requires 0.0 <= alpha <= 1.0 && a <= y <= b && a <= p <= b
    ensures a <= Mix(alpha, y, p) <= b
  {
    MulNonneg(y - a, alpha);
    MulNonneg(p - a, 1.0 - alpha);
    MulNonneg(b - y, alpha);
    MulNonneg(b - p, 1.0 - alpha);
    assert alpha * y + (1.0 - alpha) * p - a == (y - a) * alpha + (p - a) * (1.0 - alpha);
    assert b - (alpha * y + (1.0 - alpha) * p) == (b - y) * alpha + (b - p) * (1.0 - alpha);
  }

  /** The sum of `n` values of a band lies between `n` copies of its ends. */
  lemma {:induction false} SumYBounds(ps: seq<Point>, a: real, b: real)
    requires YsWithin(ps, a, b)
    ensures Times(|ps|, a) <= SumY(ps) <= Times(|ps|, b)
    decreases |ps|
  {
    if ps != [] {
      var front := ps[..|ps| - 1];
      assert forall p :: p in front ==> p in ps;
      SumYBounds(front, a, b);
      assert ps[|ps| - 1] in ps;
    }
  }

  /** Every point of a slice is a point of the whole. */
  lemma SliceWithin(sp: seq<Point>, lo: nat, hi: nat, a: real, b: real)
    requires lo <= hi <= |sp| && YsWithin(sp, a, b)
    ensures YsWithin(sp[lo..hi], a, b)
  {
    assert forall p :: p in sp[lo..hi] ==> p in sp;
  }

  /** A sum of at least `k` copies of `a` over `k` is at least `a`. */
  lemma MeanAbove(s: real, k: nat, a: real)
    requires k > 0 && Times(k, a) <= s
    ensures a <= s / k as real
  {
    TimesIsProduct(k, a);
    DivAbove(s, k as real, a);
  }

  /** A sum of at most `k` copies of `b` over `k` is at most `b`. */
  lemma MeanBelow(s: real, k: nat, b: real)
    requires k > 0 && s <= Times(k, b)
    ensures s / k as real <= b
  {
    TimesIsProduct(k, b);
    DivBelow(s, k as real, b);
  }

  /** A window mean of points of a band lies in the band. */
  lemma MeanAtBounds(sp: seq<Point>, i: nat, half: nat, a: real, b: real)
    requires i < |sp| && YsWithin(sp, a, b)
    ensures a <= MeanAt(sp, i, half).y <= b
  {
    var lo, hi := WindowStart(i, half), WindowEnd(|sp|, i, half);
    SliceWithin(sp, lo, hi, a, b);
    SumYBounds(sp[lo..hi], a, b);
    MeanAbove(SumY(sp[lo..hi]), hi - lo, a);
    MeanBelow(SumY(sp[lo..hi]), hi - lo, b);
  }

  /** Each weight multiplied by `a`, added up. */
  function Scaled(ws: seq<real>, a: real): real
  {
    if ws == [] then 0.0 else Scaled(ws[..|ws| - 1], a) + a * ws[|ws| - 1]
  }

  lemma {:induction false} ScaledIsProduct(ws: seq<real>, a: real)
    ensures Scaled(ws, a) == SumOf(ws) * a
    decreases |ws|
  {
    if ws == [] {
      ZeroMul(a);
    } else {
      var front := ws[..|ws| - 1];
      ScaledIsProduct(front, a);
      assert (SumOf(front) + ws[|ws| - 1]) * a == SumOf(front) * a + a * ws[|ws| - 1];
    }
  }

  /** Values of at least `a` with nonnegative weights give a weighted sum of
      at least the weights scaled by `a`. */
  lemma {:induction false} DotAbove(ps: seq<Point>, ws: seq<real>, a: real)
    requires |ps| == |ws| && forall k :: 0 <= k < |ws| ==> ws[k] >= 0.0
    requires forall p :: p in ps ==> a <= p.y
    ensures Scaled(ws, a) <= Dot(ps, ws)
    decreases |ps|
  {
    if ps != [] {
      var front, wfront := ps[..|ps| - 1], ws[..|ws| - 1];
      assert forall p :: p in front ==> p in ps;
      assert forall k :: 0 <= k < |wfront| ==> wfront[k] == ws[k];
      DotAbove(front, wfront, a);
      assert ps[|ps| - 1] in ps;
      MulMonotone(a, ps[|ps| - 1].y, ws[|ws| - 1]);
    }
  }

  /** Values of at most `b` with nonnegative weights give a weighted sum of
      at most the weights scaled by `b`. */
  lemma {:induction false} DotBelow(ps: seq<Point>, ws: seq<real>, b: real)
    requires |ps| == |ws| && forall k :: 0 <= k < |ws| ==> ws[k] >= 0.0
    requires forall p :: p in ps ==> p.y <= b
    ensures Dot(ps, ws) <= Scaled(ws, b)
    decreases |ps|
  {
    if ps != [] {
      var front, wfront := ps[..|ps| - 1], ws[..|ws| - 1];
      assert forall p :: p in front ==> p in ps;
      assert forall k :: 0 <= k < |wfront| ==> wfront[k] == ws[k];
      DotBelow(front, wfront, b);
      assert ps[|ps| - 1] in ps;
      MulMonotone(ps[|ps| - 1].y, b, ws[|ws| - 1]);
    }
  }

  /** A weighted mean, with positive weights, of values of at least `a` is
      at least `a`. */
  lemma WeightedMeanAbove(ps: seq<Point>, ws: seq<real>, a: real)
    requires |ps| == |ws| && ws != [] && forall k :: 0 <= k < |ws| ==> ws[k] > 0.0
    requires forall p :: p in ps ==> a <= p.y
    ensures a <= Dot(ps, ws) / SumOf(ws)
  {
    DotAbove(ps, ws, a);
    ScaledIsProduct(ws, a);
    DivAbove(Dot(ps, ws), SumOf(ws), a);
  }

  /** A weighted mean, with positive weights, of values of at most `b` is at
      most `b`. */
  lemma WeightedMeanBelow(ps: seq<Point>, ws: seq<real>, b: real)
    requires |ps| == |ws| && ws != [] && forall k :: 0 <= k < |ws| ==> ws[k] > 0.0
    requires forall p :: p in ps ==> p.y <= b
    ensures Dot(ps, ws) / SumOf(ws) <= b
  {
    DotBelow(ps, ws, b);
    ScaledIsProduct(ws, b);
    DivBelow(Dot(ps, ws), SumOf(ws), b);
  }

  /** A weighted window mean of points of a band lies in the band. */
  lemma WeightedAtBounds(sp: seq<Point>, i: nat, half: nat, a: real, b: real)
    requires i < |sp| && YsWithin(sp, a, b)
    ensures a <= WeightedAt(sp, i, half).y <= b
  {
    var lo, hi := WindowStart(i, half), WindowEnd(|sp|, i, half);
    SliceWithin(sp, lo, hi, a, b);
    WeightedMeanAbove(sp[lo..hi], Weights(i, lo, hi), a);
    WeightedMeanBelow(sp[lo..hi], Weights(i, lo, hi), b);
  }

  /** Exponential smoothing keeps the x values and the first point. */
  lemma {:induction false} ExponentialXs(sp: seq<Point>, alpha: real, n: nat)
    requires 1 <= n <= |sp|
    ensures Exponential(sp, alpha, n)[0] == sp[0]
    ensures forall i :: 0 <= i < n ==> Exponential(sp, alpha, n)[i].x == sp[i].x
    decreases n
  {
    if n > 1 {
      ExponentialXs(sp, alpha, n - 1);
    }
  }

  /** With `alpha` between 0 and 1, each exponentially smoothed y lies in the
      band of the inputs. */
  lemma {:induction false} ExponentialWithin(sp: seq<Point>, alpha: real, n: nat, a: real, b: real)
    requires 1 <= n <= |sp| && 0.0 <= alpha <= 1.0 && YsWithin(sp, a, b)
    ensures YsWithin(Exponential(sp, alpha, n), a, b)
    decreases n
  {
    assert sp[0] in sp;
    if n > 1 {
      ExponentialWithin(sp, alpha, n - 1, a, b);
      var prev := Exponential(sp, alpha, n - 1);
      var last := Point(sp[n - 1].x, Mix(alpha, sp[n - 1].y, prev[n - 2].y));
      assert Exponential(sp, alpha, n) == prev + [last];
      assert sp[n - 1] in sp;
      assert prev[n - 2] in prev;
      Convex(alpha, sp[n - 1].y, prev[n - 2].y, a, b);
      forall q | q in prev + [last] ensures a <= q.y <= b {
        if q != last {
          assert q in prev;
        }
      }
    }
  }

  lemma SortedWithin(points: seq<Point>, a: real, b: real)
    requires YsWithin(points, a, b)
    ensures YsWithin(SortBy(points, PointX), a, b)
  {
    SortByMembers(points, PointX);
  }

  /** `_apply_smoothing` returns as many points as it was given; fewer than
      three come back untouched; otherwise point `i` of the result sits at
      the x of point `i` of the input sorted by x, so the result is sorted by
      x, and exponential smoothing keeps the first sorted point as it is. */
  lemma SmoothedShape(points: seq<Point>, rec: Recommendation)
    ensures |Smoothed(points, rec)| == |points|
    ensures |points| < 3 ==> Smoothed(points, rec) == points
    ensures |points| >= 3 ==>
      forall i :: 0 <= i < |points| ==> Smoothed(points, rec)[i].x == SortBy(points, PointX)[i].x
    ensures |points| >= 3 ==> SortedBy(Smoothed(points, rec), PointX)
    ensures |points| >= 3 && MethodOf(rec) == ExponentialMethod ==>
      Smoothed(points, rec)[0] == SortBy(points, PointX)[0]
  {
    if |points| >= 3 {
      var sp := SortBy(points, PointX);
      SortBySorted(points, PointX);
      if MethodOf(rec) == ExponentialMethod {
        ExponentialXs(sp, ClampAlpha(RealOrDefault(rec.smoothingFactor, DefaultSmoothingFactor)), |sp|);
      }
      var r := Smoothed(points, rec);
      assert forall i :: 0 <= i < |r| ==> PointX(r[i]) == PointX(sp[i]);
    }
  }

  /** Every smoothed y is a mean of input y values: if every input y lies
      between `a` and `b`, so does every smoothed y. */
  lemma SmoothedWithinBounds(points: seq<Point>, rec: Recommendation, a: real, b: real)
    requires YsWithin(points, a, b)
    ensures YsWithin(Smoothed(points, rec), a, b)
  {
    if |points| >= 3 {
      var sp := SortBy(points, PointX);
      SortedWithin(points, a, b);
      var m := MethodOf(rec);
      var r := Smoothed(points, rec);
      if m == ExponentialMethod {
        ExponentialWithin(sp, ClampAlpha(RealOrDefault(rec.smoothingFactor, DefaultSmoothingFactor)), |sp|, a, b);
      } else {
        forall q | q in r ensures a <= q.y <= b {
          var i :| 0 <= i < |r| && r[i] == q;
          if m == SavitzkyGolayMethod {
            WeightedAtBounds(sp, i, OddWindow(IntOrDefault(rec.windowSize, DefaultSavitzkyGolayWindow), |sp|, 5) / 2, a, b);
          } else if m == MovingAverageMethod {
            MeanAtBounds(sp, i, OddWindow(IntOrDefault(rec.windowSize, DefaultMovingWindow), |sp|, 3) / 2, a, b);
          } else {
            MeanAtBounds(sp, i, FallbackWindow / 2, a, b);
          }
        }
      }
    }
  }

  /** A flat curve stays flat. */
  lemma SmoothedKeepsConstant(points: seq<Point>, rec: Recommendation, c: real)
    requires forall p :: p in points ==> p.y == c
    ensures forall q :: q in Smoothed(points, rec) ==> q.y == c
  {
    SmoothedWithinBounds(points, rec, c, c);
  }

  /** Comparing a list with itself lists no modification. */
  lemma {:induction false} NoModificationsOfSame(os: seq<Point>, n: nat)
    requires n <= |os|
    ensures ModificationsBefore(os, os, n) == []
    decreases n
  {
    if n > 0 {
      NoModificationsOfSame(os, n - 1);
    }
  }
}
