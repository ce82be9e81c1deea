/** The momentum-guided skeleton tracer of the image processor
    (`_find_start_point` and `_momentum_trace`).

    The tracer walks a one-pixel-wide skeleton from a start pixel.  At each
    step it marks the current pixel visited, appends it to the trace, and looks
    for the next pixel: first among the unvisited skeleton 8-neighbours, scored
    by how well their direction agrees with the momentum; if there is none, in
    the full squares of radius 2, 3 and 4 around the pixel, stopping at the
    first radius that yields anything, where every candidate has the same flat
    score.  The ranking keeps the earliest candidate among equal scores.  The
    momentum is the unnormalised blend `0.6 * m + 0.4 * d`.  The loop runs at
    most twice the number of skeleton pixels.

    The specification is the step function `Step` and its iteration `Run`;
    `MomentumTrace` is the in-place loop, proved equal to it.  The Euclidean
    norm (a floating-point square root in the source) is a parameter. */
module Tracer {
  import opened Support

  /** A binary skeleton, indexed `grid[row][column]` as `skeleton[y, x]`. */
  type Grid = seq<seq<bool>>

  function Width(g: Grid): nat { if |g| == 0 then 0 else |g[0]| }

  ghost predicate IsGrid(g: Grid)
  {
    forall r :: 0 <= r < |g| ==> |g[r]| == Width(g)
  }

  /** The source's bounds check `0 <= x < w and 0 <= y < h`. */
  predicate InBounds(g: Grid, x: int, y: int)
  {
    0 <= x < Width(g) && 0 <= y < |g|
  }

  /** `skeleton[y, x] > 0` for an in-bounds pixel (the last conjunct only
      matters for ragged sequences, which `IsGrid` rules out). */
  predicate IsSkeleton(g: Grid, x: int, y: int)
  {
    InBounds(g, x, y) && x < |g[y]| && g[y][x]
  }

  /** The set of skeleton pixels. */
  ghost function SkeletonSet(g: Grid): set<Pixel>
  {
    set y, x | 0 <= y < |g| && 0 <= x < |g[y]| && IsSkeleton(g, x, y) :: Pixel(x, y)
  }

  /** A pixel the tracer may move to: in bounds, on the skeleton, not visited. */
  predicate Free(g: Grid, visited: set<Pixel>, x: int, y: int)
  {
    IsSkeleton(g, x, y) && Pixel(x, y) !in visited
  }


  /** Chebyshev (chessboard) distance. */
  function Cheb(p: Pixel, q: Pixel): nat
  {
    MaxInt(AbsInt(p.x - q.x), AbsInt(p.y - q.y))
  }

  // ---------------------------------------------------------------------
  // Vectors and scores

  datatype Vec = Vec(x: real, y: real)

  /** The Euclidean norm, supplied by the caller; all that is assumed of it is
      that it is never negative, so `norm(v) + 1e-10` is never zero. */
  type NormFn = f: Vec -> real | forall v :: 0.0 <= f(v) witness (v: Vec) => 0.0

  const Epsilon: real := 0.0000000001
  const MomentumWeight: real := 0.7
  const GapScore: real := 0.5
  const MaxGapRadius: nat := 4

  /** The scan order of the 8-neighbourhood. */
  const Directions: seq<(int, int)> :=
    [(1, 0), (1, 1), (0, 1), (-1, 1), (-1, 0), (-1, -1), (0, -1), (1, -1)]

  function Scale(k: real, v: Vec): Vec { Vec(k * v.x, k * v.y) }

  function Add(a: Vec, b: Vec): Vec { Vec(a.x + b.x, a.y + b.y) }

  function Dot(a: Vec, b: Vec): real { a.x * b.x + a.y * b.y }

  /** `v / (norm(v) + 1e-10)`. */
  function Normalize(v: Vec, norm: NormFn): Vec
  {
    Scale(1.0 / (norm(v) + Epsilon), v)
  }

  function UnitDirection(dx: int, dy: int, norm: NormFn): Vec
  {
    Normalize(Vec(dx as real, dy as real), norm)
  }

  /** `0.7 * dot(dir, momentum / (|momentum| + 1e-10)) + 0.3`. */
  function AlignmentScore(dir: Vec, momentum: Vec, norm: NormFn): real
  {
    MomentumWeight * Dot(dir, Normalize(momentum, norm)) + (1.0 - MomentumWeight)
  }

  /** The exponential moving average `0.6 * momentum + 0.4 * dir`. */
  function UpdateMomentum(momentum: Vec, dir: Vec): Vec
  {
    Add(Scale(0.6, momentum), Scale(0.4, dir))
  }

  datatype Candidate = Candidate(pos: Pixel, score: real, dir: Vec)

  // ---------------------------------------------------------------------
  // Candidate lists, in the order the source builds them

  function NeighbourCandidate(c: Pixel, j: nat, m: Vec, norm: NormFn): Candidate
    requires j < |Directions|
  {
    var u := UnitDirection(Directions[j].0, Directions[j].1, norm);
    Candidate(Pixel(c.x + Directions[j].0, c.y + Directions[j].1), AlignmentScore(u, m, norm), u)
  }

  predicate FreeDirection(g: Grid, visited: set<Pixel>, c: Pixel, j: nat)
    requires j < |Directions|
  {
    Free(g, visited, c.x + Directions[j].0, c.y + Directions[j].1)
  }

  /** Candidates for the directions `0, ..., j - 1`, in scan order. */
  function NeighboursBefore(g: Grid, visited: set<Pixel>, c: Pixel, m: Vec, norm: NormFn, j: nat): seq<Candidate>
    requires j <= |Directions|
  {
    if j == 0 then []
    else
      NeighboursBefore(g, visited, c, m, norm, j - 1)
      + (if FreeDirection(g, visited, c, j - 1) then [NeighbourCandidate(c, j - 1, m, norm)] else [])
  }

  /** The free 8-neighbours, in the order of `Directions`. */
  function Neighbours(g: Grid, visited: set<Pixel>, c: Pixel, m: Vec, norm: NormFn): seq<Candidate>
  {
    NeighboursBefore(g, visited, c, m, norm, |Directions|)
  }

  function GapCandidate(c: Pixel, dx: int, dy: int, norm: NormFn): Candidate
  {
    Candidate(Pixel(c.x + dx, c.y + dy), GapScore, UnitDirection(dx, dy, norm))
  }

  /** Does the offset `(dx, dy)` lead to a free pixel?  The centre is skipped. */
  predicate FreeOffset(g: Grid, visited: set<Pixel>, c: Pixel, dx: int, dy: int)
  {
    (dx != 0 || dy != 0) && Free(g, visited, c.x + dx, c.y + dy)
  }

  /** Gap candidates of column `dx` of the square of radius `r`, rows `-r .. dy - 1`. */
  function ColumnBefore(g: Grid, visited: set<Pixel>, c: Pixel, r: nat, dx: int, dy: int, norm: NormFn): seq<Candidate>
    decreases dy + r
  {
    if dy <= -(r as int) then []
    else
      ColumnBefore(g, visited, c, r, dx, dy - 1, norm)
      + (if FreeOffset(g, visited, c, dx, dy - 1) then [GapCandidate(c, dx, dy - 1, norm)] else [])
  }

  /** Gap candidates of columns `-r .. dx - 1` of the square of radius `r`. */
  function SquareBefore(g: Grid, visited: set<Pixel>, c: Pixel, r: nat, dx: int, norm: NormFn): seq<Candidate>
    decreases dx + r
  {
    if dx <= -(r as int) then []
    else SquareBefore(g, visited, c, r, dx - 1, norm) + ColumnBefore(g, visited, c, r, dx - 1, r + 1, norm)
  }

  /** The square of radius `r`, columns `dx = -r..r` outer, rows `dy = -r..r` inner. */
  function SquareCandidates(g: Grid, visited: set<Pixel>, c: Pixel, r: nat, norm: NormFn): seq<Candidate>
  {
    SquareBefore(g, visited, c, r, r + 1, norm)
  }

  /** The squares of radius `r, ..., 4`, stopping at the first non-empty one. */
  function GapSearch(g: Grid, visited: set<Pixel>, c: Pixel, r: nat, norm: NormFn): seq<Candidate>
    decreases MaxGapRadius + 1 - r
  {
    if r > MaxGapRadius then []
    else
      var s := SquareCandidates(g, visited, c, r, norm);
      if s != [] then s else GapSearch(g, visited, c, r + 1, norm)
  }

  function NextCandidates(g: Grid, visited: set<Pixel>, c: Pixel, m: Vec, norm: NormFn): seq<Candidate>
  {
    var ns := Neighbours(g, visited, c, m, norm);
    if ns != [] then ns else GapSearch(g, visited, c, 2, norm)
  }

  /** The first candidate of the stable descending sort by score, that is, the
      first candidate of maximal score. */
  function BestIndex(cs: seq<Candidate>): (i: nat)
    requires cs != []
    ensures i < |cs|
  {
    if |cs| == 1 then 0
    else
      var k := BestIndex(cs[1..]);
      if cs[0].score >= cs[1..][k].score then 0 else k + 1
  }

  /** `BestIndex` picks a candidate of maximal score, and the first one. */
  lemma {:induction false} BestIndexIsFirstMaximum(cs: seq<Candidate>)
    requires cs != []
    ensures forall j :: 0 <= j < |cs| ==> cs[j].score <= cs[BestIndex(cs)].score
    ensures forall j :: 0 <= j < BestIndex(cs) ==> cs[j].score < cs[BestIndex(cs)].score
    decreases |cs|
  {
    if |cs| > 1 {
      var rest := cs[1..];
      BestIndexIsFirstMaximum(rest);
      forall j | 0 < j < |cs| ensures cs[j] == rest[j - 1] {
      }
    }
  }

  // ---------------------------------------------------------------------
  // Skeleton pixels and the start point

  /** The skeleton pixels of row `y` from column `x` on, left to right. */
  function RowPixels(g: Grid, y: nat, x: nat): seq<Pixel>
    requires y < |g|
    decreases |g[y]| - x
  {
    if x >= |g[y]| then []
    else (if g[y][x] then [Pixel(x, y)] else []) + RowPixels(g, y, x + 1)
  }

  function PixelsFrom(g: Grid, y: nat): seq<Pixel>
    decreases |g| - y
  {
    if y >= |g| then [] else RowPixels(g, y, 0) + PixelsFrom(g, y + 1)
  }

  /** `np.where(skeleton > 0)`, zipped into pixels: row-major order. */
  function SkeletonPixels(g: Grid): seq<Pixel>
  {
    PixelsFrom(g, 0)
  }

  /** `np.argmin` of the x coordinates: the first index of minimal x. */
  function ArgMinX(ps: seq<Pixel>): (i: nat)
    requires ps != []
    ensures i < |ps|
    ensures forall j :: 0 <= j < |ps| ==> ps[i].x <= ps[j].x
    ensures forall j :: 0 <= j < i ==> ps[i].x < ps[j].x
  {
    if |ps| == 1 then 0
    else
      var k := ArgMinX(ps[1..]);
      if ps[0].x <= ps[1..][k].x then 0 else k + 1
  }

  /** `np.argmax` of the x coordinates: the first index of maximal x. */
  function ArgMaxX(ps: seq<Pixel>): (i: nat)
    requires ps != []
    ensures i < |ps|
    ensures forall j :: 0 <= j < |ps| ==> ps[j].x <= ps[i].x
    ensures forall j :: 0 <= j < i ==> ps[j].x < ps[i].x
  {
    if |ps| == 1 then 0
    else
      var k := ArgMaxX(ps[1..]);
      if ps[0].x >= ps[1..][k].x then 0 else k + 1
  }

  predicate StartsLeft(direction: string)
  {
    direction == "left_to_right" || direction == "auto"
  }

  /** `_find_start_point`: the first pixel of minimal x for "left_to_right" and
      "auto", the first pixel of maximal x for any other direction.  The caller
      only calls it on a non-empty skeleton. */
  function FindStartPoint(ps: seq<Pixel>, direction: string): (p: Pixel)
    requires ps != []
    ensures p in ps
    ensures StartsLeft(direction) ==> forall q :: q in ps ==> p.x <= q.x
    ensures !StartsLeft(direction) ==> forall q :: q in ps ==> q.x <= p.x
    ensures exists i :: 0 <= i < |ps| && ps[i] == p && forall j :: 0 <= j < i ==> ps[j].x != p.x
  {
    if StartsLeft(direction) then ps[ArgMinX(ps)] else ps[ArgMaxX(ps)]
  }

  // ---------------------------------------------------------------------
  // The specification of the trace

  datatype TraceState = TraceState(visited: set<Pixel>, traced: seq<Pixel>, current: Pixel, momentum: Vec)

  datatype StepOutcome = Halt(state: TraceState) | Continue(state: TraceState)

  /** One iteration of the `while` loop of `_momentum_trace`. */
  function Step(g: Grid, st: TraceState, norm: NormFn): StepOutcome
  {
    var c := st.current;
    if !InBounds(g, c.x, c.y) then Halt(st)
    else if c in st.visited then Halt(st)
    else
      var visited := st.visited + {c};
      var traced := st.traced + [c];
      var cs := NextCandidates(g, visited, c, st.momentum, norm);
      if cs == [] then Halt(TraceState(visited, traced, c, st.momentum))
      else
        var best := cs[BestIndex(cs)];
        Continue(TraceState(visited, traced, best.pos, UpdateMomentum(st.momentum, best.dir)))
  }

  /** At most `fuel` iterations from `st`. */
  function Run(g: Grid, st: TraceState, fuel: nat, norm: NormFn): TraceState
    decreases fuel, 1
  {
    if fuel == 0 then st else Resume(g, st, fuel, norm)
  }

  /** One iteration from `st`, then at most `fuel - 1` more. */
  function Resume(g: Grid, st: TraceState, fuel: nat, norm: NormFn): TraceState
    requires fuel > 0
    decreases fuel, 0
  {
    match Step(g, st, norm)
    case Halt(s) => s
    case Continue(s) => Run(g, s, fuel - 1, norm)
  }

  function InitialState(start: Pixel): TraceState
  {
    TraceState({}, [], start, Vec(1.0, 0.0))
  }

  /** The trace from `start`, where `count` is the number of skeleton pixels
      (`len(all_x)`), so the loop runs at most `2 * count` times. */
  function Trace(g: Grid, start: Pixel, count: nat, norm: NormFn): seq<Pixel>
  {
    Run(g, InitialState(start), 2 * count, norm).traced
  }

  // ---------------------------------------------------------------------
  // The in-place implementation

  /** `visited` (an array the size of the skeleton) holds exactly the pixels of `vis`. */
  ghost predicate Mirrors(visited: array2<bool>, vis: set<Pixel>)
    reads visited
  {
    forall y, x :: 0 <= y < visited.Length0 && 0 <= x < visited.Length1 ==>
      (visited[y, x] <==> Pixel(x, y) in vis)
  }

  method ScanNeighbours(g: Grid, visited: array2<bool>, c: Pixel, momentum: Vec, norm: NormFn, ghost vis: set<Pixel>)
    returns (candidates: seq<Candidate>)
    requires IsGrid(g) && visited.Length0 == |g| && visited.Length1 == Width(g)
    requires Mirrors(visited, vis)
    ensures candidates == Neighbours(g, vis, c, momentum, norm)
  {
    candidates := [];
    for j := 0 to |Directions|
      invariant candidates == NeighboursBefore(g, vis, c, momentum, norm, j)
    {
      var nx, ny := c.x + Directions[j].0, c.y + Directions[j].1;
      if 0 <= nx < Width(g) && 0 <= ny < |g| && g[ny][nx] && !visited[ny, nx] {
        candidates := candidates + [NeighbourCandidate(c, j, momentum, norm)];
      } else {
        assert !FreeDirection(g, vis, c, j);
      }
    }
  }

  /** One column `dx` of the square of radius `radius`, rows `-radius..radius`. */
  method ScanGapColumn(g: Grid, visited: array2<bool>, c: Pixel, radius: nat, dx: int, norm: NormFn, ghost vis: set<Pixel>)
    returns (candidates: seq<Candidate>)
    requires IsGrid(g) && visited.Length0 == |g| && visited.Length1 == Width(g)
    requires Mirrors(visited, vis)
    ensures candidates == ColumnBefore(g, vis, c, radius, dx, radius + 1, norm)
  {
    candidates := [];
    for dy: int := -(radius as int) to radius + 1
      invariant candidates == ColumnBefore(g, vis, c, radius, dx, dy, norm)
    {
      if !(dx == 0 && dy == 0) {
        var nx, ny := c.x + dx, c.y + dy;
        if 0 <= nx < Width(g) && 0 <= ny < |g| && g[ny][nx] && !visited[ny, nx] {
          candidates := candidates + [GapCandidate(c, dx, dy, norm)];
        } else {
          assert !FreeOffset(g, vis, c, dx, dy);
        }
      }
    }
  }

  /** The full square of radius `radius`, column by column. */
  method ScanGapSquare(g: Grid, visited: array2<bool>, c: Pixel, radius: nat, norm: NormFn, ghost vis: set<Pixel>)
    returns (candidates: seq<Candidate>)
    requires IsGrid(g) && visited.Length0 == |g| && visited.Length1 == Width(g)
    requires Mirrors(visited, vis)
    ensures candidates == SquareCandidates(g, vis, c, radius, norm)
  {
    candidates := [];
    for dx: int := -(radius as int) to radius + 1
      invariant candidates == SquareBefore(g, vis, c, radius, dx, norm)
    {
      var column := ScanGapColumn(g, visited, c, radius, dx, norm, vis);
      candidates := candidates + column;
    }
  }

  /** The gap search: radii 2, 3, 4, stopping at the first that yields a candidate. */
  method ScanGap(g: Grid, visited: array2<bool>, c: Pixel, norm: NormFn, ghost vis: set<Pixel>)
    returns (candidates: seq<Candidate>)
    requires IsGrid(g) && visited.Length0 == |g| && visited.Length1 == Width(g)
    requires Mirrors(visited, vis)
    ensures candidates == GapSearch(g, vis, c, 2, norm)
  {
    candidates := [];
    for radius := 2 to MaxGapRadius + 1
      invariant candidates == []
      invariant GapSearch(g, vis, c, radius, norm) == GapSearch(g, vis, c, 2, norm)
    {
      var square := ScanGapSquare(g, visited, c, radius, norm, vis);
      var found := square != [];
      if found {
        candidates := square;
        break;
      }
    }
  }

  /** The neighbour scan, then the gap search when it finds nothing. */
  method ScanCandidates(g: Grid, visited: array2<bool>, c: Pixel, momentum: Vec, norm: NormFn, ghost vis: set<Pixel>)
    returns (candidates: seq<Candidate>)
    requires IsGrid(g) && visited.Length0 == |g| && visited.Length1 == Width(g)
    requires Mirrors(visited, vis)
    ensures candidates == NextCandidates(g, vis, c, momentum, norm)
  {
    candidates := ScanNeighbours(g, visited, c, momentum, norm, vis);
    if candidates == [] {
      candidates := ScanGap(g, visited, c, norm, vis);
    }
  }

  /** Running from `st` takes `st`'s first step. */
  lemma RunFirstStep(g: Grid, st: TraceState, fuel: nat, norm: NormFn)
    requires fuel > 0
    ensures Step(g, st, norm).Halt? ==> Run(g, st, fuel, norm) == Step(g, st, norm).state
    ensures Step(g, st, norm).Continue? ==> Run(g, st, fuel, norm) == Run(g, Step(g, st, norm).state, fuel - 1, norm)
  {
  }

  /** A current pixel that is out of bounds or already visited ends the run. */
  lemma RunStops(g: Grid, st: TraceState, fuel: nat, norm: NormFn)
    requires fuel > 0
    requires !InBounds(g, st.current.x, st.current.y) || st.current in st.visited
    ensures Run(g, st, fuel, norm) == st
  {
    RunFirstStep(g, st, fuel, norm);
  }

  /** Otherwise the pixel is marked and appended, and the run goes on from
      the best candidate, if any. */
  lemma RunVisits(g: Grid, st: TraceState, fuel: nat, norm: NormFn, cs: seq<Candidate>)
    requires fuel > 0
    requires InBounds(g, st.current.x, st.current.y) && st.current !in st.visited
    requires cs == NextCandidates(g, st.visited + {st.current}, st.current, st.momentum, norm)
    ensures var next := TraceState(st.visited + {st.current}, st.traced + [st.current], st.current, st.momentum);
            cs == [] ==> Run(g, st, fuel, norm) == next
    ensures var visited, traced := st.visited + {st.current}, st.traced + [st.current];
            cs != [] ==>
              Run(g, st, fuel, norm)
              == Run(g, TraceState(visited, traced, cs[BestIndex(cs)].pos,
                                   UpdateMomentum(st.momentum, cs[BestIndex(cs)].dir)), fuel - 1, norm)
  {
    RunFirstStep(g, st, fuel, norm);
  }

  /** One pass of the `while` loop of `_momentum_trace`: the pixel at `current`
      is checked, marked and appended, and the next pixel is chosen. */
  method TraceStep(skeleton: Grid, visited: array2<bool>, traced: seq<Pixel>, current: Pixel,
                   momentum: Vec, norm: NormFn, ghost vis: set<Pixel>, ghost fuel: nat, ghost target: TraceState)
    returns (halt: bool, traced': seq<Pixel>, current': Pixel, momentum': Vec, ghost vis': set<Pixel>)
    requires IsGrid(skeleton)
    requires visited.Length0 == |skeleton| && visited.Length1 == Width(skeleton)
    requires Mirrors(visited, vis)
    requires fuel > 0 && Run(skeleton, TraceState(vis, traced, current, momentum), fuel, norm) == target
    modifies visited
    ensures Mirrors(visited, vis')
    ensures halt ==> TraceState(vis', traced', current', momentum') == target
    ensures !halt ==> Run(skeleton, TraceState(vis', traced', current', momentum'), fuel - 1, norm) == target
  {
    ghost var before := TraceState(vis, traced, current, momentum);
    traced', current', momentum', vis' := traced, current, momentum, vis;
    var h, w := visited.Length0, visited.Length1;
    var x, y := current.x, current.y;
    if x < 0 || x >= w || y < 0 || y >= h {
      halt := true;
      RunStops(skeleton, before, fuel, norm);
      return;
    }
    if visited[y, x] {
      halt := true;
      RunStops(skeleton, before, fuel, norm);
      return;
    }
    visited[y, x] := true;
    vis' := vis + {current};
    assert Mirrors(visited, vis') by {
      forall yy, xx | 0 <= yy < h && 0 <= xx < w ensures visited[yy, xx] <==> Pixel(xx, yy) in vis' {
        if yy != y || xx != x {
          assert Pixel(xx, yy) != current;
        }
      }
    }
    traced' := traced + [current];
    var candidates := ScanCandidates(skeleton, visited, current, momentum, norm, vis');
    RunVisits(skeleton, before, fuel, norm, candidates);
    if candidates == [] {
      halt := true;
      return;
    }
    var best := candidates[BestIndex(candidates)];
    momentum' := UpdateMomentum(momentum, best.dir);
    current' := best.pos;
    halt := false;
  }

  /** `np.zeros_like(skeleton, dtype=bool)`. */
  method NewVisited(h: nat, w: nat) returns (visited: array2<bool>)
    ensures fresh(visited)
    ensures visited.Length0 == h && visited.Length1 == w
    ensures Mirrors(visited, {})
  {
    visited := new bool[h, w]((_, _) => false);
  }

  /** `_momentum_trace`: at most `2 * count` passes, each one `TraceStep`. */
  method MomentumTrace(skeleton: Grid, start: Pixel, count: nat, norm: NormFn) returns (traced: seq<Pixel>)
    requires IsGrid(skeleton)
    ensures traced == Trace(skeleton, start, count, norm)
  {
    var h, w := |skeleton|, Width(skeleton);
    var visited := NewVisited(h, w);
    traced := [];
    var current := start;
    var momentum := Vec(1.0, 0.0);
    var maxIterations := 2 * count;
    var iteration := 0;
    ghost var vis: set<Pixel> := {};
    ghost var left: nat := maxIterations;
    ghost var final := Trace(skeleton, start, count, norm);
    while iteration < maxIterations
      invariant 0 <= iteration <= maxIterations
      invariant visited.Length0 == h && visited.Length1 == w
      invariant Mirrors(visited, vis)
      invariant left == maxIterations - iteration
      invariant Run(skeleton, TraceState(vis, traced, current, momentum), left, norm).traced == final
    {
      var halt;
      halt, traced, current, momentum, vis := TraceStep(skeleton, visited, traced, current, momentum, norm, vis, left, Run(skeleton, TraceState(vis, traced, current, momentum), left, norm));
      left := left - 1;
      iteration := iteration + 1;
      if halt {
        break;
      }
    }
  }
}
