/** The skeleton pixels in the order the tracer reads them, and the start pixel
    chosen from them.

    `np.where` lists the skeleton pixels row by row, left to right within a
    row; `np.argmin`/`np.argmax` take the first extreme index.  Together they
    make the start pixel the left-most (or right-most) skeleton pixel, the
    top-most among those in that column. */
module PixelOrder {
  import opened Support
  import opened Tracer

  /** Row-major order: `p` comes before `q` in a scan row by row. */
  predicate RowMajorBefore(p: Pixel, q: Pixel)
  {
    p.y < q.y || (p.y == q.y && p.x < q.x)
  }

  ghost predicate RowMajorSorted(ps: seq<Pixel>)
  {
    forall i, j :: 0 <= i < j < |ps| ==> RowMajorBefore(ps[i], ps[j])
  }

  /** The pixels listed for row `y` from column `x` on are that row's set pixels. */
  lemma {:induction false} RowPixelsMembers(g: Grid, y: nat, x: nat)
    requires y < |g|
    ensures forall p :: p in RowPixels(g, y, x) <==> p.y == y && x <= p.x < |g[y]| && g[y][p.x]
    decreases |g[y]| - x
  {
    if x < |g[y]| {
      RowPixelsMembers(g, y, x + 1);
    }
  }

  /** Within a row the pixels come left to right. */
  lemma {:induction false} RowPixelsSorted(g: Grid, y: nat, x: nat)
    requires y < |g|
    ensures RowMajorSorted(RowPixels(g, y, x))
    decreases |g[y]| - x
  {
    if x < |g[y]| {
      RowPixelsSorted(g, y, x + 1);
      RowPixelsMembers(g, y, x + 1);
      var rest := RowPixels(g, y, x + 1);
      if g[y][x] {
        var ps := RowPixels(g, y, x);
        assert ps == [Pixel(x, y)] + rest;
        forall i, j | 0 <= i < j < |ps| ensures RowMajorBefore(ps[i], ps[j]) {
          assert ps[j] == rest[j - 1] && ps[j] in rest;
          if i > 0 {
            assert ps[i] == rest[i - 1];
          }
        }
      }
    }
  }

  /** The pixels listed from row `y` on are the set pixels of those rows. */
  lemma {:induction false} PixelsFromMembers(g: Grid, y: nat)
    ensures forall p :: p in PixelsFrom(g, y) <==> y <= p.y < |g| && 0 <= p.x < |g[p.y]| && g[p.y][p.x]
    decreases |g| - y
  {
    if y < |g| {
      RowPixelsMembers(g, y, 0);
      PixelsFromMembers(g, y + 1);
    }
  }

  /** Rows come top to bottom, so the whole list is in row-major order. */
  lemma {:induction false} PixelsFromSorted(g: Grid, y: nat)
    ensures RowMajorSorted(PixelsFrom(g, y))
    ensures forall p :: p in PixelsFrom(g, y) ==> y <= p.y
    decreases |g| - y
  {
    if y < |g| {
      var row, rest := RowPixels(g, y, 0), PixelsFrom(g, y + 1);
      RowPixelsSorted(g, y, 0);
      RowPixelsMembers(g, y, 0);
      PixelsFromSorted(g, y + 1);
      var ps := row + rest;
      forall i, j | 0 <= i < j < |ps| ensures RowMajorBefore(ps[i], ps[j]) {
        if j < |row| {
          assert ps[i] == row[i] && ps[j] == row[j];
        } else if i < |row| {
          assert ps[i] == row[i] && ps[i] in row;
          assert ps[j] == rest[j - |row|] && ps[j] in rest;
        } else {
          assert ps[i] == rest[i - |row|] && ps[j] == rest[j - |row|];
        }
      }
    }
  }

  /** On a rectangular grid the listed pixels are exactly the skeleton's. */
  lemma SkeletonPixelsMembers(g: Grid)
    requires IsGrid(g)
    ensures forall p :: p in SkeletonPixels(g) <==> IsSkeleton(g, p.x, p.y)
    ensures RowMajorSorted(SkeletonPixels(g))
  {
    PixelsFromMembers(g, 0);
    PixelsFromSorted(g, 0);
  }

  /** The start pixel is a skeleton pixel in the extreme column the direction
      asks for (left-most for "left_to_right" and "auto", right-most
      otherwise), and the top-most skeleton pixel of that column. */
  lemma StartPointIsExtreme(g: Grid, direction: string)
    requires IsGrid(g) && SkeletonPixels(g) != []
    ensures var p := FindStartPoint(SkeletonPixels(g), direction);
      IsSkeleton(g, p.x, p.y)
      && (StartsLeft(direction) ==> forall x, y :: IsSkeleton(g, x, y) ==> p.x <= x)
      && (!StartsLeft(direction) ==> forall x, y :: IsSkeleton(g, x, y) ==> x <= p.x)
      && forall y :: IsSkeleton(g, p.x, y) ==> p.y <= y
  {
    var ps := SkeletonPixels(g);
    var p := FindStartPoint(ps, direction);
    SkeletonPixelsMembers(g);
    forall x, y | IsSkeleton(g, x, y) ensures Pixel(x, y) in ps {
    }
    var i :| 0 <= i < |ps| && ps[i] == p && forall j :: 0 <= j < i ==> ps[j].x != p.x;
    forall y | IsSkeleton(g, p.x, y) ensures p.y <= y {
      assert Pixel(p.x, y) in ps;
      var j :| 0 <= j < |ps| && ps[j] == Pixel(p.x, y);
      if j > i {
        assert RowMajorBefore(ps[i], ps[j]);
      }
    }
  }
}
