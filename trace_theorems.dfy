/** What a whole run of the tracer produces.

    A trace never repeats a pixel, lies inside the image, and every pixel after
    the first is a skeleton pixel within Chebyshev distance 4 of its
    predecessor, at the smallest distance among the skeleton pixels not traced
    before it.  Its length is bounded by the iteration cap and by the number of
    skeleton pixels; it starts with the start pixel when that pixel is inside
    the image, and is empty otherwise. */
module TraceTheorems {
  import opened Support
  import opened Tracer
  import opened TracerProperties

  ghost predicate Distinct(s: seq<Pixel>)
  {
    forall i, j :: 0 <= i < j < |s| ==> s[i] != s[j]
  }

  /** `z` may follow the pixels `hist`: a skeleton pixel not in `hist`, within
      distance 1 to 4 of the last of them, and no untraced skeleton pixel is
      nearer to that last pixel. */
  ghost predicate Link(g: Grid, hist: seq<Pixel>, z: Pixel)
    requires hist != []
  {
    var p := hist[|hist| - 1];
    IsSkeleton(g, z.x, z.y) && z !in hist && 1 <= Cheb(p, z) <= MaxGapRadius
    && forall x, y :: IsSkeleton(g, x, y) && Cheb(p, Pixel(x, y)) < Cheb(p, z) ==> Pixel(x, y) in hist
  }

  /** The shape of every trace, built up one pixel at a time: each pixel lies
      inside the image, and each one after the first may follow the pixels
      before it. */
  ghost predicate ValidTrace(g: Grid, tr: seq<Pixel>)
    decreases |tr|
  {
    tr == [] ||
    var front, z := tr[..|tr| - 1], tr[|tr| - 1];
    ValidTrace(g, front) && InBounds(g, z.x, z.y) && (front != [] ==> Link(g, front, z))
  }

  /** The loop state agrees with its trace: the visited pixels are the traced ones. */
  ghost predicate Consistent(g: Grid, st: TraceState)
  {
    ValidTrace(g, st.traced) && forall p :: p in st.visited <==> p in st.traced
  }

  /** The pixel about to be visited may follow the trace. */
  ghost predicate Pending(g: Grid, st: TraceState)
  {
    st.traced != [] ==> Link(g, st.traced, st.current)
  }

  /** Every pixel of a valid trace lies inside the image. */
  lemma {:induction false} ValidTraceInBounds(g: Grid, tr: seq<Pixel>)
    requires ValidTrace(g, tr)
    ensures forall i :: 0 <= i < |tr| ==> InBounds(g, tr[i].x, tr[i].y)
    decreases |tr|
  {
    if tr != [] {
      var front := tr[..|tr| - 1];
      ValidTraceInBounds(g, front);
      assert forall i :: 0 <= i < |front| ==> tr[i] == front[i];
    }
  }

  /** Every pixel of a valid trace after the first may follow the pixels
      before it. */
  lemma {:induction false} ValidTraceLinks(g: Grid, tr: seq<Pixel>)
    requires ValidTrace(g, tr)
    ensures forall i :: 0 < i < |tr| ==> Link(g, tr[..i], tr[i])
    decreases |tr|
  {
    if tr != [] {
      var front := tr[..|tr| - 1];
      ValidTraceLinks(g, front);
      forall i | 0 < i < |front| ensures Link(g, tr[..i], tr[i]) {
        assert tr[..i] == front[..i] && tr[i] == front[i];
      }
    }
  }

  /** No pixel occurs twice in a valid trace. */
  lemma ValidTraceDistinct(g: Grid, tr: seq<Pixel>)
    requires ValidTrace(g, tr)
    ensures Distinct(tr)
  {
    ValidTraceLinks(g, tr);
    forall i, j | 0 <= i < j < |tr| ensures tr[i] != tr[j] {
      assert Link(g, tr[..j], tr[j]);
      assert tr[i] == tr[..j][i];
    }
  }

  /** Appending a pixel that may follow keeps a trace valid. */
  lemma ValidTraceExtend(g: Grid, tr: seq<Pixel>, c: Pixel)
    requires ValidTrace(g, tr) && InBounds(g, c.x, c.y)
    requires tr != [] ==> Link(g, tr, c)
    ensures ValidTrace(g, tr + [c])
  {
    assert (tr + [c])[..|tr|] == tr;
  }

  /** A nearest free pixel from the last traced pixel may follow the trace,
      when the visited pixels are the traced ones. */
  lemma NearestIsLink(g: Grid, visited: set<Pixel>, tr: seq<Pixel>, z: Pixel)
    requires tr != [] && forall p :: p in visited <==> p in tr
    requires NearestFree(g, visited, tr[|tr| - 1], z)
    ensures Link(g, tr, z)
  {
  }

  /** One step keeps the state consistent, and a step that continues leaves a
      pixel that may follow the trace. */
  lemma StepKeepsConsistent(g: Grid, st: TraceState, norm: NormFn)
    requires Consistent(g, st) && Pending(g, st)
    ensures Consistent(g, Step(g, st, norm).state)
    ensures Step(g, st, norm).Continue? ==> Pending(g, Step(g, st, norm).state)
  {
    var c := st.current;
    if InBounds(g, c.x, c.y) && c !in st.visited {
      StepVisits(g, st, norm);
      ValidTraceExtend(g, st.traced, c);
      var next := Step(g, st, norm).state;
      assert next.visited == st.visited + {c} && next.traced == st.traced + [c];
      if Step(g, st, norm).Continue? {
        StepTakesNearest(g, st, norm);
        NearestIsLink(g, next.visited, next.traced, next.current);
      }
    }
  }

  /** Every run keeps the state consistent. */
  lemma {:induction false} RunKeepsConsistent(g: Grid, st: TraceState, fuel: nat, norm: NormFn)
    requires Consistent(g, st) && Pending(g, st)
    ensures Consistent(g, Run(g, st, fuel, norm))
    decreases fuel
  {
    if fuel > 0 {
      RunFirstStep(g, st, fuel, norm);
      StepKeepsConsistent(g, st, norm);
      if Step(g, st, norm).Continue? {
        RunKeepsConsistent(g, Step(g, st, norm).state, fuel - 1, norm);
      }
    }
  }

  /** A step appends at most one pixel. */
  lemma StepGrows(g: Grid, st: TraceState, norm: NormFn)
    ensures var tr := Step(g, st, norm).state.traced;
      |st.traced| <= |tr| <= |st.traced| + 1 && tr[..|st.traced|] == st.traced
  {
    var c := st.current;
    if InBounds(g, c.x, c.y) && c !in st.visited {
      StepVisits(g, st, norm);
    }
  }

  /** A run only appends to the trace, at most one pixel per iteration. */
  lemma {:induction false} RunGrows(g: Grid, st: TraceState, fuel: nat, norm: NormFn)
    ensures var tr := Run(g, st, fuel, norm).traced;
      |st.traced| <= |tr| <= |st.traced| + fuel && tr[..|st.traced|] == st.traced
    decreases fuel
  {
    if fuel > 0 {
      RunFirstStep(g, st, fuel, norm);
      StepGrows(g, st, norm);
      if Step(g, st, norm).Continue? {
        var next := Step(g, st, norm).state;
        RunGrows(g, next, fuel - 1, norm);
        var tr := Run(g, next, fuel - 1, norm).traced;
        assert tr[..|st.traced|] == tr[..|next.traced|][..|st.traced|];
      }
    }
  }

  /** The trace is a path of distinct in-bounds pixels, each after the first a
      nearest untraced skeleton pixel within distance 4 of its predecessor. */
  lemma TraceIsValid(g: Grid, start: Pixel, count: nat, norm: NormFn)
    ensures ValidTrace(g, Trace(g, start, count, norm))
  {
    RunKeepsConsistent(g, InitialState(start), 2 * count, norm);
  }

  lemma SkeletonInSet(g: Grid, z: Pixel)
    requires IsSkeleton(g, z.x, z.y)
    ensures z in SkeletonSet(g)
  {
    assert 0 <= z.y < |g| && 0 <= z.x < |g[z.y]|;
  }

  /** The trace is no longer than the iteration cap. */
  lemma TraceCapped(g: Grid, start: Pixel, count: nat, norm: NormFn)
    ensures |Trace(g, start, count, norm)| <= 2 * count
  {
    RunGrows(g, InitialState(start), 2 * count, norm);
  }

  /** Every pixel of the trace after the first is a skeleton pixel. */
  lemma TraceOnSkeleton(g: Grid, start: Pixel, count: nat, norm: NormFn)
    ensures forall i :: 0 < i < |Trace(g, start, count, norm)| ==>
      Trace(g, start, count, norm)[i] in SkeletonSet(g)
  {
    var tr := Trace(g, start, count, norm);
    TraceIsValid(g, start, count, norm);
    ValidTraceLinks(g, tr);
    forall i | 0 < i < |tr| ensures tr[i] in SkeletonSet(g) {
      assert Link(g, tr[..i], tr[i]);
      SkeletonInSet(g, tr[i]);
    }
  }

  /** The trace holds at most one pixel besides skeleton pixels, which it never
      repeats, and none besides them when it starts on the skeleton. */
  lemma TraceLength(g: Grid, start: Pixel, count: nat, norm: NormFn)
    ensures |Trace(g, start, count, norm)| <= |SkeletonSet(g)| + 1
    ensures IsSkeleton(g, start.x, start.y) ==> |Trace(g, start, count, norm)| <= |SkeletonSet(g)|
  {
    var tr := Trace(g, start, count, norm);
    var sk := SkeletonSet(g);
    TraceIsValid(g, start, count, norm);
    ValidTraceDistinct(g, tr);
    TraceOnSkeleton(g, start, count, norm);
    TraceStart(g, start, count, norm);
    if tr != [] {
      var rest := tr[1..];
      assert forall i :: 0 <= i < |rest| ==> rest[i] == tr[i + 1];
      DistinctBoundedBySet(rest, sk);
      if IsSkeleton(g, start.x, start.y) {
        SkeletonInSet(g, start);
        DistinctBoundedBySet(tr, sk);
      }
    }
  }

  /** A run from an unvisited in-bounds pixel traces that pixel first. */
  lemma RunTracesCurrent(g: Grid, st: TraceState, fuel: nat, norm: NormFn)
    requires fuel > 0 && InBounds(g, st.current.x, st.current.y) && st.current !in st.visited
    ensures var tr := Run(g, st, fuel, norm).traced;
      |st.traced| < |tr| && tr[..|st.traced| + 1] == st.traced + [st.current]
  {
    RunFirstStep(g, st, fuel, norm);
    StepVisits(g, st, norm);
    var next := Step(g, st, norm).state;
    if Step(g, st, norm).Continue? {
      RunGrows(g, next, fuel - 1, norm);
    }
  }

  /** A start outside the image, or a skeleton without pixels, gives an empty
      trace; otherwise the trace begins with the start pixel. */
  lemma TraceStart(g: Grid, start: Pixel, count: nat, norm: NormFn)
    ensures !InBounds(g, start.x, start.y) || count == 0 ==> Trace(g, start, count, norm) == []
    ensures InBounds(g, start.x, start.y) && count > 0 ==>
      Trace(g, start, count, norm) != [] && Trace(g, start, count, norm)[0] == start
  {
    var st := InitialState(start);
    if count > 0 {
      if InBounds(g, start.x, start.y) {
        RunTracesCurrent(g, st, 2 * count, norm);
        var tr := Trace(g, start, count, norm);
        assert tr[0] == tr[..1][0];
      } else {
        RunStops(g, st, 2 * count, norm);
      }
    }
  }
}
