/** What one pass of the tracing loop chooses, and what a whole trace is.

    The candidate lists of `Tracer` are characterised here by the offsets they
    come from: the free 8-neighbours in `Directions` order, and the free pixels
    of a square in column-major order (`dx` outer, `dy` inner).  From these the
    choice made by `Step` follows: the best-scoring free neighbour (the first
    one among equal scores) if there is one, otherwise the first free pixel of
    the nearest ring at distance 2, 3 or 4.  The trace itself is a path of
    distinct pixels in which every pixel after the first is a skeleton pixel
    at the smallest Chebyshev distance from its predecessor among the skeleton
    pixels not traced so far. */
module TracerProperties {
  import opened Support
  import opened Tracer

  // ---------------------------------------------------------------------
  // Index lists

  /** The indices `k < j` with `keep(k)`, in increasing order. */
  ghost function Kept(keep: nat -> bool, j: nat): seq<nat>
  {
    if j == 0 then [] else Kept(keep, j - 1) + (if keep(j - 1) then [j - 1] else [])
  }

  lemma {:induction false} KeptSound(keep: nat -> bool, j: nat)
    ensures forall i :: 0 <= i < |Kept(keep, j)| ==> Kept(keep, j)[i] < j && keep(Kept(keep, j)[i])
  {
    if j > 0 {
      KeptSound(keep, j - 1);
      var ks0 := Kept(keep, j - 1);
      var ks := Kept(keep, j);
      assert forall i :: 0 <= i < |ks0| ==> ks[i] == ks0[i];
    }
  }

  lemma {:induction false} KeptIncreasing(keep: nat -> bool, j: nat)
    ensures forall i, i' :: 0 <= i < i' < |Kept(keep, j)| ==> Kept(keep, j)[i] < Kept(keep, j)[i']
  {
    if j > 0 {
      KeptIncreasing(keep, j - 1);
      KeptSound(keep, j - 1);
      var ks0 := Kept(keep, j - 1);
      var ks := Kept(keep, j);
      assert forall i :: 0 <= i < |ks0| ==> ks[i] == ks0[i];
    }
  }

  lemma {:induction false} KeptComplete(keep: nat -> bool, j: nat, k: nat)
    requires k < j && keep(k)
    ensures k in Kept(keep, j)
  {
    var ks0 := Kept(keep, j - 1);
    var ks := Kept(keep, j);
    if k < j - 1 {
      KeptComplete(keep, j - 1, k);
      assert ks == ks0 + (if keep(j - 1) then [j - 1] else []);
    } else {
      assert ks[|ks0|] == k;
    }
  }

  lemma {:induction false} KeptNone(keep: nat -> bool, j: nat)
    requires forall k: nat :: k < j ==> !keep(k)
    ensures Kept(keep, j) == []
  {
    if j > 0 {
      KeptNone(keep, j - 1);
    }
  }

  // ---------------------------------------------------------------------
  // The 8-neighbourhood

  ghost function IsFreeDirection(g: Grid, visited: set<Pixel>, c: Pixel): nat -> bool
  {
    (k: nat) => k < |Directions| && FreeDirection(g, visited, c, k)
  }

  /** The free directions, in scan order. */
  ghost function FreeDirections(g: Grid, visited: set<Pixel>, c: Pixel, j: nat): seq<nat>
  {
    Kept(IsFreeDirection(g, visited, c), j)
  }

  /** The neighbour list holds one candidate per free direction, in scan order. */
  lemma {:induction false} NeighboursIndexed(g: Grid, visited: set<Pixel>, c: Pixel, m: Vec, norm: NormFn, j: nat)
    requires j <= |Directions|
    ensures |NeighboursBefore(g, visited, c, m, norm, j)| == |FreeDirections(g, visited, c, j)|
    ensures forall i :: 0 <= i < |FreeDirections(g, visited, c, j)| ==>
      FreeDirections(g, visited, c, j)[i] < |Directions|
      && NeighboursBefore(g, visited, c, m, norm, j)[i] == NeighbourCandidate(c, FreeDirections(g, visited, c, j)[i], m, norm)
  {
    var keep := IsFreeDirection(g, visited, c);
    KeptSound(keep, j);
    if j > 0 {
      NeighboursIndexed(g, visited, c, m, norm, j - 1);
      var ks0, ns0 := Kept(keep, j - 1), NeighboursBefore(g, visited, c, m, norm, j - 1);
      var ks, ns := Kept(keep, j), NeighboursBefore(g, visited, c, m, norm, j);
      if FreeDirection(g, visited, c, j - 1) {
        assert ks == ks0 + [j - 1] && ns == ns0 + [NeighbourCandidate(c, j - 1, m, norm)];
      } else {
        assert ks == ks0 && ns == ns0;
      }
      assert forall i :: 0 <= i < |ks0| ==> ks[i] == ks0[i] && ns[i] == ns0[i];
    }
  }

  /** Direction `k` is free, scores at least as high as every free direction,
      and strictly higher than every free direction scanned before it. */
  ghost predicate BestFreeDirection(g: Grid, visited: set<Pixel>, c: Pixel, m: Vec, norm: NormFn, k: nat)
    requires k < |Directions|
  {
    FreeDirection(g, visited, c, k)
    && (forall k' :: 0 <= k' < |Directions| && FreeDirection(g, visited, c, k') ==>
          NeighbourCandidate(c, k', m, norm).score <= NeighbourCandidate(c, k, m, norm).score)
    && (forall k' :: 0 <= k' < k && FreeDirection(g, visited, c, k') ==>
          NeighbourCandidate(c, k', m, norm).score < NeighbourCandidate(c, k, m, norm).score)
  }

  /** With a free neighbour, the candidate taken is that of the best free
      direction, the first one among equal scores. */
  lemma NeighbourChoice(g: Grid, visited: set<Pixel>, c: Pixel, m: Vec, norm: NormFn, k0: nat)
    requires k0 < |Directions| && FreeDirection(g, visited, c, k0)
    ensures Neighbours(g, visited, c, m, norm) != []
    ensures var cs := Neighbours(g, visited, c, m, norm);
      exists k :: 0 <= k < |Directions| && cs[BestIndex(cs)] == NeighbourCandidate(c, k, m, norm)
        && BestFreeDirection(g, visited, c, m, norm, k)
  {
    var keep := IsFreeDirection(g, visited, c);
    var cs := Neighbours(g, visited, c, m, norm);
    var ks := FreeDirections(g, visited, c, |Directions|);
    KeptSound(keep, |Directions|);
    KeptIncreasing(keep, |Directions|);
    KeptComplete(keep, |Directions|, k0);
    NeighboursIndexed(g, visited, c, m, norm, |Directions|);
    BestIndexIsFirstMaximum(cs);
    var i := BestIndex(cs);
    var k := ks[i];
    forall k' | 0 <= k' < |Directions| && FreeDirection(g, visited, c, k')
      ensures NeighbourCandidate(c, k', m, norm).score <= cs[i].score
    {
      KeptComplete(keep, |Directions|, k');
      var i' :| 0 <= i' < |ks| && ks[i'] == k';
      assert cs[i'] == NeighbourCandidate(c, k', m, norm);
    }
    forall k' | 0 <= k' < k && FreeDirection(g, visited, c, k')
      ensures NeighbourCandidate(c, k', m, norm).score < cs[i].score
    {
      KeptComplete(keep, |Directions|, k');
      var i' :| 0 <= i' < |ks| && ks[i'] == k';
      assert i' < i;
      assert cs[i'] == NeighbourCandidate(c, k', m, norm);
    }
    assert BestFreeDirection(g, visited, c, m, norm, k);
  }

  /** The Chebyshev length of an offset. */
  function Ring(dx: int, dy: int): nat
  {
    MaxInt(AbsInt(dx), AbsInt(dy))
  }

  lemma RingBounds(dx: int, dy: int)
    ensures -(Ring(dx, dy) as int) <= dx <= Ring(dx, dy) && -(Ring(dx, dy) as int) <= dy <= Ring(dx, dy)
    ensures Ring(dx, dy) == 0 <==> dx == 0 && dy == 0
  {
  }

  lemma ChebOffset(c: Pixel, dx: int, dy: int)
    ensures Cheb(c, Pixel(c.x + dx, c.y + dy)) == Ring(dx, dy)
  {
  }

  /** The 8 directions are exactly the offsets at Chebyshev distance 1. */
  lemma DirectionsAreRing()
    ensures forall k :: 0 <= k < |Directions| ==> Ring(Directions[k].0, Directions[k].1) == 1
    ensures forall dx, dy :: -1 <= dx <= 1 && -1 <= dy <= 1 && (dx != 0 || dy != 0) ==>
      exists k :: 0 <= k < |Directions| && Directions[k] == (dx, dy)
  {
    forall dx, dy | -1 <= dx <= 1 && -1 <= dy <= 1 && (dx != 0 || dy != 0)
      ensures exists k :: 0 <= k < |Directions| && Directions[k] == (dx, dy)
    {
      if dy == 0 {
        if dx == 1 { assert Directions[0] == (dx, dy); } else { assert Directions[4] == (dx, dy); }
      } else if dy == 1 {
        if dx == 1 { assert Directions[1] == (dx, dy); }
        else if dx == 0 { assert Directions[2] == (dx, dy); }
        else { assert Directions[3] == (dx, dy); }
      } else {
        if dx == 1 { assert Directions[7] == (dx, dy); }
        else if dx == 0 { assert Directions[6] == (dx, dy); }
        else { assert Directions[5] == (dx, dy); }
      }
    }
  }

  /** No free direction means no free offset at Chebyshev distance 1. */
  lemma NoFreeNeighbour(g: Grid, visited: set<Pixel>, c: Pixel, dx: int, dy: int)
    requires forall k :: 0 <= k < |Directions| ==> !FreeDirection(g, visited, c, k)
    requires -1 <= dx <= 1 && -1 <= dy <= 1
    ensures !FreeOffset(g, visited, c, dx, dy)
  {
    DirectionsAreRing();
    if dx != 0 || dy != 0 {
      var k :| 0 <= k < |Directions| && Directions[k] == (dx, dy);
      assert !FreeDirection(g, visited, c, k);
    }
  }

  // ---------------------------------------------------------------------
  // The squares of the gap search

  /** `(dx, dy)` comes before `(dx', dy')` in the column-major scan. */
  predicate ScansBefore(dx: int, dy: int, dx': int, dy': int)
  {
    dx < dx' || (dx == dx' && dy < dy')
  }

  /** A free offset in rows `-r .. dy - 1` gives the column a candidate. */
  lemma {:induction false} ColumnHasFree(g: Grid, visited: set<Pixel>, c: Pixel, r: nat, dx: int, dy: int, norm: NormFn, e: int)
    requires -(r as int) <= e < dy
    ensures FreeOffset(g, visited, c, dx, e) ==> ColumnBefore(g, visited, c, r, dx, dy, norm) != []
    decreases dy + r
  {
    if e < dy - 1 {
      ColumnHasFree(g, visited, c, r, dx, dy - 1, norm, e);
    }
  }

  /** The first candidate of a column is its first free offset. */
  lemma {:induction false} ColumnHead(g: Grid, visited: set<Pixel>, c: Pixel, r: nat, dx: int, dy: int, norm: NormFn)
    requires ColumnBefore(g, visited, c, r, dx, dy, norm) != []
    ensures exists e ::
              -(r as int) <= e < dy && FreeOffset(g, visited, c, dx, e)
              && ColumnBefore(g, visited, c, r, dx, dy, norm)[0] == GapCandidate(c, dx, e, norm)
              && forall e' :: -(r as int) <= e' < e ==> !FreeOffset(g, visited, c, dx, e')
    decreases dy + r
  {
    var front := ColumnBefore(g, visited, c, r, dx, dy - 1, norm);
    var col := ColumnBefore(g, visited, c, r, dx, dy, norm);
    if front != [] {
      ColumnHead(g, visited, c, r, dx, dy - 1, norm);
      assert col[0] == front[0];
    } else {
      var e := dy - 1;
      assert col == [GapCandidate(c, dx, e, norm)];
      forall e' | -(r as int) <= e' < e ensures !FreeOffset(g, visited, c, dx, e') {
        ColumnHasFree(g, visited, c, r, dx, dy - 1, norm, e');
      }
    }
  }

  /** Every candidate of a column has the flat gap score. */
  lemma {:induction false} ColumnScores(g: Grid, visited: set<Pixel>, c: Pixel, r: nat, dx: int, dy: int, norm: NormFn)
    ensures forall i :: 0 <= i < |ColumnBefore(g, visited, c, r, dx, dy, norm)| ==>
      ColumnBefore(g, visited, c, r, dx, dy, norm)[i].score == GapScore
    decreases dy + r
  {
    if dy > -(r as int) {
      ColumnScores(g, visited, c, r, dx, dy - 1, norm);
      var front := ColumnBefore(g, visited, c, r, dx, dy - 1, norm);
      var col := ColumnBefore(g, visited, c, r, dx, dy, norm);
      assert forall i :: 0 <= i < |front| ==> col[i] == front[i];
    }
  }

  /** A free offset in columns `-r .. dx - 1` gives the square a candidate. */
  lemma {:induction false} SquareHasFree(g: Grid, visited: set<Pixel>, c: Pixel, r: nat, dx: int, norm: NormFn, d: int, e: int)
    requires -(r as int) <= d < dx && -(r as int) <= e <= r
    ensures FreeOffset(g, visited, c, d, e) ==> SquareBefore(g, visited, c, r, dx, norm) != []
    decreases dx + r
  {
    if d < dx - 1 {
      SquareHasFree(g, visited, c, r, dx - 1, norm, d, e);
    } else {
      ColumnHasFree(g, visited, c, r, d, r + 1, norm, e);
    }
  }

  /** The first candidate of a square is its first free offset in scan order. */
  lemma {:induction false} SquareHead(g: Grid, visited: set<Pixel>, c: Pixel, r: nat, dx: int, norm: NormFn)
    requires SquareBefore(g, visited, c, r, dx, norm) != []
    ensures exists d, e ::
              -(r as int) <= d < dx && -(r as int) <= e <= r && FreeOffset(g, visited, c, d, e)
              && SquareBefore(g, visited, c, r, dx, norm)[0] == GapCandidate(c, d, e, norm)
              && forall d', e' :: -(r as int) <= d' && -(r as int) <= e' <= r && ScansBefore(d', e', d, e) ==>
                   !FreeOffset(g, visited, c, d', e')
    decreases dx + r
  {
    var front := SquareBefore(g, visited, c, r, dx - 1, norm);
    var col := ColumnBefore(g, visited, c, r, dx - 1, r + 1, norm);
    var sq := SquareBefore(g, visited, c, r, dx, norm);
    assert sq == front + col;
    if front != [] {
      SquareHead(g, visited, c, r, dx - 1, norm);
      assert sq[0] == front[0];
    } else {
      var d := dx - 1;
      ColumnHead(g, visited, c, r, d, r + 1, norm);
      var e :| -(r as int) <= e < r + 1 && FreeOffset(g, visited, c, d, e) && col[0] == GapCandidate(c, d, e, norm)
               && forall e' :: -(r as int) <= e' < e ==> !FreeOffset(g, visited, c, d, e');
      assert sq[0] == col[0];
      forall d', e' | -(r as int) <= d' && -(r as int) <= e' <= r && ScansBefore(d', e', d, e)
        ensures !FreeOffset(g, visited, c, d', e')
      {
        if d' < d {
          SquareHasFree(g, visited, c, r, d, norm, d', e');
        }
      }
    }
  }

  /** Every candidate of a square has the flat gap score. */
  lemma {:induction false} SquareScores(g: Grid, visited: set<Pixel>, c: Pixel, r: nat, dx: int, norm: NormFn)
    ensures forall i :: 0 <= i < |SquareBefore(g, visited, c, r, dx, norm)| ==>
      SquareBefore(g, visited, c, r, dx, norm)[i].score == GapScore
    decreases dx + r
  {
    if dx > -(r as int) {
      SquareScores(g, visited, c, r, dx - 1, norm);
      ColumnScores(g, visited, c, r, dx - 1, r + 1, norm);
      var front := SquareBefore(g, visited, c, r, dx - 1, norm);
      var col := ColumnBefore(g, visited, c, r, dx - 1, r + 1, norm);
      var sq := SquareBefore(g, visited, c, r, dx, norm);
      assert sq == front + col;
      assert forall i :: 0 <= i < |sq| ==> sq[i] == (if i < |front| then front[i] else col[i - |front|]);
    }
  }

  /** Among candidates of equal score the ranking takes the first. */
  lemma FlatScoresTakeFirst(cs: seq<Candidate>)
    requires cs != []
    requires forall i :: 0 <= i < |cs| ==> cs[i].score == cs[0].score
    ensures BestIndex(cs) == 0
  {
    BestIndexIsFirstMaximum(cs);
  }

  /** A non-empty gap search from radius `r` is the first non-empty square
      of radius `r` to 4. */
  lemma {:induction false} GapSearchFound(g: Grid, visited: set<Pixel>, c: Pixel, r: nat, norm: NormFn)
    requires GapSearch(g, visited, c, r, norm) != []
    ensures exists q ::
              r <= q <= MaxGapRadius && GapSearch(g, visited, c, r, norm) == SquareCandidates(g, visited, c, q, norm)
              && forall q' :: r <= q' < q ==> SquareCandidates(g, visited, c, q', norm) == []
    decreases MaxGapRadius + 1 - r
  {
    if SquareCandidates(g, visited, c, r, norm) == [] {
      GapSearchFound(g, visited, c, r + 1, norm);
    }
  }

  /** An empty gap search from radius `r` means every square of radius `r` to
      4 is empty. */
  lemma {:induction false} GapSearchEmpty(g: Grid, visited: set<Pixel>, c: Pixel, r: nat, norm: NormFn, q: nat)
    requires r <= q <= MaxGapRadius
    ensures GapSearch(g, visited, c, r, norm) == [] ==> SquareCandidates(g, visited, c, q, norm) == []
    decreases q - r
  {
    if r < q && SquareCandidates(g, visited, c, r, norm) == [] {
      GapSearchEmpty(g, visited, c, r + 1, norm, q);
    }
  }

  // ---------------------------------------------------------------------
  // One step of the trace

  /** `z` is a free pixel at Chebyshev distance 1 to 4 from `c`, and no free
      pixel is nearer to `c`. */
  ghost predicate NearestFree(g: Grid, visited: set<Pixel>, c: Pixel, z: Pixel)
  {
    Free(g, visited, z.x, z.y) && 1 <= Cheb(c, z) <= MaxGapRadius
    && forall x, y :: Free(g, visited, x, y) ==> Cheb(c, z) <= Cheb(c, Pixel(x, y))
  }

  /** The offset `(dx, dy)` is the gap pixel the search takes: free, on a ring
      of radius 2 to 4, on the nearest ring that has a free pixel, and the
      first free pixel of the square of that radius in scan order. */
  ghost predicate GapChoice(g: Grid, visited: set<Pixel>, c: Pixel, dx: int, dy: int)
  {
    var q := Ring(dx, dy);
    FreeOffset(g, visited, c, dx, dy) && 2 <= q <= MaxGapRadius
    && (forall d, e :: FreeOffset(g, visited, c, d, e) ==> q <= Ring(d, e))
    && (forall d, e :: -(q as int) <= d && -(q as int) <= e <= q && ScansBefore(d, e, dx, dy) ==>
          !FreeOffset(g, visited, c, d, e))
  }

  /** With no free neighbour and every square below radius `q` empty, no free
      offset is nearer than `q`. */
  lemma NoFreeBelow(g: Grid, visited: set<Pixel>, c: Pixel, norm: NormFn, q: nat)
    requires forall k :: 0 <= k < |Directions| ==> !FreeDirection(g, visited, c, k)
    requires forall q' :: 2 <= q' < q ==> SquareCandidates(g, visited, c, q', norm) == []
    ensures forall d, e :: FreeOffset(g, visited, c, d, e) ==> q <= Ring(d, e)
  {
    forall d, e ensures FreeOffset(g, visited, c, d, e) ==> q <= Ring(d, e) {
      var t := Ring(d, e);
      if t <= 1 {
        NoFreeNeighbour(g, visited, c, d, e);
      } else if t < q {
        assert SquareCandidates(g, visited, c, t, norm) == [];
        SquareHasFree(g, visited, c, t, t + 1, norm, d, e);
      }
    }
  }

  /** A step from a pixel with a free neighbour moves to the best free
      neighbour and blends its direction into the momentum. */
  lemma StepToNeighbour(g: Grid, st: TraceState, norm: NormFn, k0: nat)
    requires InBounds(g, st.current.x, st.current.y) && st.current !in st.visited
    requires k0 < |Directions| && FreeDirection(g, st.visited + {st.current}, st.current, k0)
    ensures Step(g, st, norm).Continue?
    ensures var c, visited := st.current, st.visited + {st.current};
      exists k :: 0 <= k < |Directions| && BestFreeDirection(g, visited, c, st.momentum, norm, k)
        && Step(g, st, norm).state
           == TraceState(visited, st.traced + [c], Pixel(c.x + Directions[k].0, c.y + Directions[k].1),
                         UpdateMomentum(st.momentum, UnitDirection(Directions[k].0, Directions[k].1, norm)))
  {
    NeighbourChoice(g, st.visited + {st.current}, st.current, st.momentum, norm, k0);
  }

  /** A step from a pixel without a free neighbour either stops, when no free
      pixel lies within distance 4, or moves to the gap pixel the search takes,
      blending the direction of that jump into the momentum. */
  lemma StepAcrossGap(g: Grid, st: TraceState, norm: NormFn)
    requires InBounds(g, st.current.x, st.current.y) && st.current !in st.visited
    requires forall k :: 0 <= k < |Directions| ==> !FreeDirection(g, st.visited + {st.current}, st.current, k)
    ensures var c, visited := st.current, st.visited + {st.current};
      Step(g, st, norm).Halt? ==>
        Step(g, st, norm).state == TraceState(visited, st.traced + [c], c, st.momentum)
        && forall d, e :: Ring(d, e) <= MaxGapRadius ==> !FreeOffset(g, visited, c, d, e)
    ensures var c, visited := st.current, st.visited + {st.current};
      Step(g, st, norm).Continue? ==>
        exists d, e :: GapChoice(g, visited, c, d, e)
          && Step(g, st, norm).state
             == TraceState(visited, st.traced + [c], Pixel(c.x + d, c.y + e),
                           UpdateMomentum(st.momentum, UnitDirection(d, e, norm)))
  {
    var c, visited := st.current, st.visited + {st.current};
    NoNeighbours(g, visited, c, st.momentum, norm);
    var cs := GapSearch(g, visited, c, 2, norm);
    assert NextCandidates(g, visited, c, st.momentum, norm) == cs;
    if cs == [] {
      GapSearchNothing(g, visited, c, norm);
    } else {
      GapSearchChoice(g, visited, c, norm);
    }
  }

  /** Without a free direction the neighbour list is empty. */
  lemma NoNeighbours(g: Grid, visited: set<Pixel>, c: Pixel, m: Vec, norm: NormFn)
    requires forall k :: 0 <= k < |Directions| ==> !FreeDirection(g, visited, c, k)
    ensures Neighbours(g, visited, c, m, norm) == []
  {
    KeptNone(IsFreeDirection(g, visited, c), |Directions|);
    NeighboursIndexed(g, visited, c, m, norm, |Directions|);
  }

  /** An empty gap search, with no free neighbour, means no free pixel within
      distance 4. */
  lemma GapSearchNothing(g: Grid, visited: set<Pixel>, c: Pixel, norm: NormFn)
    requires forall k :: 0 <= k < |Directions| ==> !FreeDirection(g, visited, c, k)
    requires GapSearch(g, visited, c, 2, norm) == []
    ensures forall d, e :: Ring(d, e) <= MaxGapRadius ==> !FreeOffset(g, visited, c, d, e)
  {
    forall q | 2 <= q < MaxGapRadius + 1 ensures SquareCandidates(g, visited, c, q, norm) == [] {
      GapSearchEmpty(g, visited, c, 2, norm, q);
    }
    NoFreeBelow(g, visited, c, norm, MaxGapRadius + 1);
  }

  /** The first candidate of the first non-empty square is the gap pixel of
      `GapChoice`. */
  lemma SquareChoice(g: Grid, visited: set<Pixel>, c: Pixel, norm: NormFn, q: nat)
    requires forall k :: 0 <= k < |Directions| ==> !FreeDirection(g, visited, c, k)
    requires 2 <= q <= MaxGapRadius && SquareCandidates(g, visited, c, q, norm) != []
    requires forall q' :: 2 <= q' < q ==> SquareCandidates(g, visited, c, q', norm) == []
    ensures var cs := SquareCandidates(g, visited, c, q, norm);
      exists d, e :: GapChoice(g, visited, c, d, e) && cs[BestIndex(cs)] == GapCandidate(c, d, e, norm)
  {
    var cs := SquareCandidates(g, visited, c, q, norm);
    SquareHead(g, visited, c, q, q + 1, norm);
    SquareScores(g, visited, c, q, q + 1, norm);
    FlatScoresTakeFirst(cs);
    var d, e :| -(q as int) <= d < q + 1 && -(q as int) <= e <= q && FreeOffset(g, visited, c, d, e)
                && cs[0] == GapCandidate(c, d, e, norm)
                && forall d', e' :: -(q as int) <= d' && -(q as int) <= e' <= q && ScansBefore(d', e', d, e) ==>
                     !FreeOffset(g, visited, c, d', e');
    NoFreeBelow(g, visited, c, norm, q);
    assert Ring(d, e) == q;
    assert GapChoice(g, visited, c, d, e);
  }

  /** A non-empty gap search, with no free neighbour, ranks first the gap
      pixel of `GapChoice`. */
  lemma GapSearchChoice(g: Grid, visited: set<Pixel>, c: Pixel, norm: NormFn)
    requires forall k :: 0 <= k < |Directions| ==> !FreeDirection(g, visited, c, k)
    requires GapSearch(g, visited, c, 2, norm) != []
    ensures var cs := GapSearch(g, visited, c, 2, norm);
      exists d, e :: GapChoice(g, visited, c, d, e) && cs[BestIndex(cs)] == GapCandidate(c, d, e, norm)
  {
    GapSearchFound(g, visited, c, 2, norm);
    var q :| 2 <= q <= MaxGapRadius && GapSearch(g, visited, c, 2, norm) == SquareCandidates(g, visited, c, q, norm)
             && forall q' :: 2 <= q' < q ==> SquareCandidates(g, visited, c, q', norm) == [];
    SquareChoice(g, visited, c, norm, q);
  }
  /** A free direction gives the neighbour list a candidate. */
  lemma NeighboursHaveFree(g: Grid, visited: set<Pixel>, c: Pixel, m: Vec, norm: NormFn, k: nat)
    requires k < |Directions|
    ensures FreeDirection(g, visited, c, k) ==> Neighbours(g, visited, c, m, norm) != []
  {
    if FreeDirection(g, visited, c, k) {
      KeptComplete(IsFreeDirection(g, visited, c), |Directions|, k);
      NeighboursIndexed(g, visited, c, m, norm, |Directions|);
    }
  }

  /** Every neighbour candidate is a free pixel at distance 1. */
  lemma NeighbourPositions(g: Grid, visited: set<Pixel>, c: Pixel, m: Vec, norm: NormFn)
    ensures var cs := Neighbours(g, visited, c, m, norm);
      forall i :: 0 <= i < |cs| ==> Free(g, visited, cs[i].pos.x, cs[i].pos.y) && Cheb(c, cs[i].pos) == 1
  {
    var cs := Neighbours(g, visited, c, m, norm);
    var ks := FreeDirections(g, visited, c, |Directions|);
    KeptSound(IsFreeDirection(g, visited, c), |Directions|);
    NeighboursIndexed(g, visited, c, m, norm, |Directions|);
    DirectionsAreRing();
    forall i | 0 <= i < |cs| ensures Free(g, visited, cs[i].pos.x, cs[i].pos.y) && Cheb(c, cs[i].pos) == 1 {
      ChebOffset(c, Directions[ks[i]].0, Directions[ks[i]].1);
    }
  }

  /** The best neighbour is a nearest free pixel. */
  lemma NeighbourNearest(g: Grid, visited: set<Pixel>, c: Pixel, m: Vec, norm: NormFn)
    requires c in visited
    requires Neighbours(g, visited, c, m, norm) != []
    ensures var cs := Neighbours(g, visited, c, m, norm);
      NearestFree(g, visited, c, cs[BestIndex(cs)].pos)
  {
    NeighbourPositions(g, visited, c, m, norm);
    forall x, y | Free(g, visited, x, y) ensures 1 <= Cheb(c, Pixel(x, y)) {
      assert Pixel(x, y) != c;
    }
  }

  /** The gap pixel of `GapChoice` is a nearest free pixel. */
  lemma GapNearest(g: Grid, visited: set<Pixel>, c: Pixel, d: int, e: int)
    requires c in visited
    requires GapChoice(g, visited, c, d, e)
    ensures NearestFree(g, visited, c, Pixel(c.x + d, c.y + e))
  {
    ChebOffset(c, d, e);
    forall x, y | Free(g, visited, x, y) ensures Ring(d, e) <= Cheb(c, Pixel(x, y)) {
      var d', e' := x - c.x, y - c.y;
      assert Pixel(c.x + d', c.y + e') == Pixel(x, y) != c;
      assert FreeOffset(g, visited, c, d', e');
      ChebOffset(c, d', e');
    }
  }

  /** Without a candidate among the neighbours, there is no free direction. */
  lemma NoFreeDirection(g: Grid, visited: set<Pixel>, c: Pixel, m: Vec, norm: NormFn)
    requires Neighbours(g, visited, c, m, norm) == []
    ensures forall k :: 0 <= k < |Directions| ==> !FreeDirection(g, visited, c, k)
  {
    forall k | 0 <= k < |Directions| ensures !FreeDirection(g, visited, c, k) {
      NeighboursHaveFree(g, visited, c, m, norm, k);
    }
  }

  /** The candidate ranked first, if there is one, is a nearest free pixel. */
  lemma CandidateNearest(g: Grid, visited: set<Pixel>, c: Pixel, m: Vec, norm: NormFn)
    requires c in visited
    requires NextCandidates(g, visited, c, m, norm) != []
    ensures var cs := NextCandidates(g, visited, c, m, norm);
      NearestFree(g, visited, c, cs[BestIndex(cs)].pos)
  {
    if Neighbours(g, visited, c, m, norm) != [] {
      NeighbourNearest(g, visited, c, m, norm);
    } else {
      NoFreeDirection(g, visited, c, m, norm);
      GapSearchChoice(g, visited, c, norm);
      var cs := GapSearch(g, visited, c, 2, norm);
      var d, e :| GapChoice(g, visited, c, d, e) && cs[BestIndex(cs)] == GapCandidate(c, d, e, norm);
      GapNearest(g, visited, c, d, e);
    }
  }

  /** There is no candidate exactly when no free pixel lies within distance 4. */
  lemma NoCandidateIffIsolated(g: Grid, visited: set<Pixel>, c: Pixel, m: Vec, norm: NormFn)
    requires c in visited
    ensures NextCandidates(g, visited, c, m, norm) == []
            <==> forall x, y :: Free(g, visited, x, y) ==> MaxGapRadius < Cheb(c, Pixel(x, y))
  {
    var cs := NextCandidates(g, visited, c, m, norm);
    if cs != [] {
      CandidateNearest(g, visited, c, m, norm);
      var z := cs[BestIndex(cs)].pos;
      assert Free(g, visited, z.x, z.y) && Cheb(c, Pixel(z.x, z.y)) <= MaxGapRadius;
    } else {
      NoFreeDirection(g, visited, c, m, norm);
      GapSearchNothing(g, visited, c, norm);
      forall x, y | Free(g, visited, x, y) ensures MaxGapRadius < Cheb(c, Pixel(x, y)) {
        var d', e' := x - c.x, y - c.y;
        assert Pixel(c.x + d', c.y + e') == Pixel(x, y) != c;
        ChebOffset(c, d', e');
      }
    }
  }

  /** A step from an in-bounds, unvisited pixel marks and appends it, then moves
      to the candidate ranked first, or stops if there is none. */
  lemma StepVisits(g: Grid, st: TraceState, norm: NormFn)
    requires InBounds(g, st.current.x, st.current.y) && st.current !in st.visited
    ensures var c, visited, traced := st.current, st.visited + {st.current}, st.traced + [st.current];
      var cs := NextCandidates(g, visited, c, st.momentum, norm);
      (Step(g, st, norm).Halt? <==> cs == [])
      && (cs == [] ==> Step(g, st, norm).state == TraceState(visited, traced, c, st.momentum))
      && (cs != [] ==> Step(g, st, norm).state
                       == TraceState(visited, traced, cs[BestIndex(cs)].pos, UpdateMomentum(st.momentum, cs[BestIndex(cs)].dir)))
  {
  }

  /** Whatever way a step continues, it moves to a free pixel within distance
      4 with no free pixel nearer. */
  lemma StepTakesNearest(g: Grid, st: TraceState, norm: NormFn)
    requires InBounds(g, st.current.x, st.current.y) && st.current !in st.visited
    requires Step(g, st, norm).Continue?
    ensures NearestFree(g, st.visited + {st.current}, st.current, Step(g, st, norm).state.current)
  {
    StepVisits(g, st, norm);
    CandidateNearest(g, st.visited + {st.current}, st.current, st.momentum, norm);
  }

  /** A step that visits its pixel stops exactly when no free pixel lies
      within distance 4. */
  lemma StepStopsWhenIsolated(g: Grid, st: TraceState, norm: NormFn)
    requires InBounds(g, st.current.x, st.current.y) && st.current !in st.visited
    ensures Step(g, st, norm).Halt?
            <==> forall x, y :: Free(g, st.visited + {st.current}, x, y) ==> MaxGapRadius < Cheb(st.current, Pixel(x, y))
  {
    StepVisits(g, st, norm);
    NoCandidateIffIsolated(g, st.visited + {st.current}, st.current, st.momentum, norm);
  }
}
