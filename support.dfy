/** Shared values and sequence helpers used by both the image processor and the
    point-list helpers: optional values, error-carrying results, pixel and data
    points, order-preserving filters and a stable sort by key (the behaviour of
    Python's `sorted(..., key=...)` and `list.sort(key=...)`). */
module Support {

  datatype Option<+T> = None | Some(value: T)

  datatype Result<+T, +E> = Ok(value: T) | Err(error: E)

  /** An integer pixel coordinate: `x` is the column, `y` the row. */
  datatype Pixel = Pixel(x: int, y: int)

  /** A data point; the point-list helpers work on `{"x": float, "y": float}`
      dictionaries, which carry exactly these two fields. */
  datatype Point = Point(x: real, y: real)

  function PointX(p: Point): real { p.x }

  function PointY(p: Point): real { p.y }

  function RealKey(r: real): real { r }

  function IntKey(i: int): real { i as real }

  function AbsReal(r: real): real { if r < 0.0 then -r else r }

  function AbsInt(a: int): nat { if a < 0 then -a else a }

  function MinInt(a: int, b: int): int { if a <= b then a else b }

  function MaxInt(a: int, b: int): int { if a >= b then a else b }

  function MinReal(a: real, b: real): real { if a <= b then a else b }

  function MaxReal(a: real, b: real): real { if a >= b then a else b }

  /** `a` is obtained from `b` by deleting elements, keeping the order. */
  ghost predicate IsSubsequence<T>(a: seq<T>, b: seq<T>)
    decreases |b|
  {
    |a| <= |b| &&
    (a == [] || (a[0] == b[0] && IsSubsequence(a[1..], b[1..])) || IsSubsequence(a, b[1..]))
  }

  lemma {:induction false} SubsequenceReflexive<T>(s: seq<T>)
    ensures IsSubsequence(s, s)
    decreases |s|
  {
    if s != [] {
      SubsequenceReflexive(s[1..]);
    }
  }

  ghost predicate SortedBy<T>(s: seq<T>, key: T -> real)
  {
    forall i, j :: 0 <= i < j < |s| ==> key(s[i]) <= key(s[j])
  }

  /** Deleting elements from a sorted sequence leaves it sorted. */
  lemma {:induction false} SubsequenceKeepsSorted<T>(a: seq<T>, b: seq<T>, key: T -> real)
    requires IsSubsequence(a, b) && SortedBy(b, key)
    ensures SortedBy(a, key)
    decreases |b|
  {
    if a != [] {
      if a[0] == b[0] && IsSubsequence(a[1..], b[1..]) {
        SubsequenceKeepsSorted(a[1..], b[1..], key);
        forall j | 0 < j < |a| ensures key(a[0]) <= key(a[j]) {
          SubsequenceMember(a[1..], b[1..], j - 1);
        }
      } else {
        SubsequenceKeepsSorted(a, b[1..], key);
      }
    }
  }

  /** Every element of a subsequence sits in the sequence it was taken from. */
  lemma {:induction false} SubsequenceMember<T>(a: seq<T>, b: seq<T>, i: nat)
    requires IsSubsequence(a, b) && i < |a|
    ensures a[i] in b
    decreases |b|
  {
    if a[0] == b[0] && IsSubsequence(a[1..], b[1..]) {
      if i > 0 {
        SubsequenceMember(a[1..], b[1..], i - 1);
      }
    } else {
      SubsequenceMember(a, b[1..], i);
    }
  }

  lemma {:induction false} SubsequenceMultiset<T>(a: seq<T>, b: seq<T>)
    requires IsSubsequence(a, b)
    ensures multiset(a) <= multiset(b)
    decreases |b|
  {
    if a != [] {
      assert b == [b[0]] + b[1..];
      if a[0] == b[0] && IsSubsequence(a[1..], b[1..]) {
        assert a == [a[0]] + a[1..];
        SubsequenceMultiset(a[1..], b[1..]);
      } else {
        SubsequenceMultiset(a, b[1..]);
      }
    }
  }

  /** The list comprehension `[p for p in s if f(p)]`. */
  function Filter<T>(s: seq<T>, f: T -> bool): (r: seq<T>)
    ensures |r| <= |s|
    ensures forall i :: 0 <= i < |r| ==> f(r[i]) && r[i] in s
    ensures forall i :: 0 <= i < |s| && f(s[i]) ==> s[i] in r
  {
    if s == [] then []
    else
      var rest := Filter(s[1..], f);
      assert forall i :: 0 < i < |s| ==> s[i] == s[1..][i - 1];
      if f(s[0]) then [s[0]] + rest else rest
  }

  /** Filtering one more element at the back appends it when it passes. */
  lemma {:induction false} FilterAppend<T>(s: seq<T>, x: T, f: T -> bool)
    ensures Filter(s + [x], f) == Filter(s, f) + (if f(x) then [x] else [])
    decreases |s|
  {
    if s != [] {
      assert (s + [x])[1..] == s[1..] + [x];
      FilterAppend(s[1..], x, f);
    }
  }

  /** A filter deletes elements and keeps the order of the rest. */
  lemma {:induction false} FilterIsSubsequence<T>(s: seq<T>, f: T -> bool)
    ensures IsSubsequence(Filter(s, f), s)
    ensures multiset(Filter(s, f)) <= multiset(s)
    decreases |s|
  {
    if s != [] {
      FilterIsSubsequence(s[1..], f);
      var r := Filter(s, f);
      if f(s[0]) {
        assert r[0] == s[0] && r[1..] == Filter(s[1..], f);
      } else {
        assert r == Filter(s[1..], f);
      }
    }
    SubsequenceMultiset(Filter(s, f), s);
  }

  /** Filtering a sequence that is already sorted keeps it sorted. */
  lemma FilterKeepsSorted<T>(s: seq<T>, f: T -> bool, key: T -> real)
    requires SortedBy(s, key)
    ensures SortedBy(Filter(s, f), key)
  {
    FilterIsSubsequence(s, f);
    SubsequenceKeepsSorted(Filter(s, f), s, key);
  }

  /** Inserts `p` in front of the first element whose key is not smaller, so
      that among equal keys the earlier input element stays first. */
  function Insert<T>(p: T, t: seq<T>, key: T -> real): (r: seq<T>)
    ensures |r| == |t| + 1
    ensures multiset(r) == multiset(t) + multiset{p}
  {
    if t == [] || key(p) <= key(t[0]) then [p] + t
    else
      assert t == [t[0]] + t[1..];
      [t[0]] + Insert(p, t[1..], key)
  }

  lemma {:induction false} InsertKeepsSorted<T>(p: T, t: seq<T>, key: T -> real)
    requires SortedBy(t, key)
    ensures SortedBy(Insert(p, t, key), key)
    decreases |t|
  {
    var r := Insert(p, t, key);
    if t == [] || key(p) <= key(t[0]) {
      forall i, j | 0 <= i < j < |r| ensures key(r[i]) <= key(r[j]) {
        assert r[j] == t[j - 1];
        if i > 0 {
          assert r[i] == t[i - 1];
        }
      }
    } else {
      var rest := Insert(p, t[1..], key);
      InsertKeepsSorted(p, t[1..], key);
      InsertAbove(p, t[1..], key, key(t[0]));
      assert r == [t[0]] + rest;
      forall i, j | 0 <= i < j < |r| ensures key(r[i]) <= key(r[j]) {
        assert r[j] == rest[j - 1];
        if i > 0 {
          assert r[i] == rest[i - 1];
        }
      }
    }
  }

  /** Inserting an element no smaller than `b` among elements no smaller than
      `b` gives elements no smaller than `b`. */
  lemma {:induction false} InsertAbove<T>(p: T, t: seq<T>, key: T -> real, b: real)
    requires b <= key(p)
    requires forall i :: 0 <= i < |t| ==> b <= key(t[i])
    ensures forall i :: 0 <= i < |Insert(p, t, key)| ==> b <= key(Insert(p, t, key)[i])
    decreases |t|
  {
    if t != [] && key(p) > key(t[0]) {
      InsertAbove(p, t[1..], key, b);
      var rest := Insert(p, t[1..], key);
      assert Insert(p, t, key) == [t[0]] + rest;
    }
  }

  /** Python's stable sort by key. */
  function SortBy<T>(s: seq<T>, key: T -> real): (r: seq<T>)
    ensures |r| == |s|
    ensures multiset(r) == multiset(s)
  {
    if s == [] then []
    else
      assert s == [s[0]] + s[1..];
      Insert(s[0], SortBy(s[1..], key), key)
  }

  lemma {:induction false} SortBySorted<T>(s: seq<T>, key: T -> real)
    ensures SortedBy(SortBy(s, key), key)
    decreases |s|
  {
    if s != [] {
      SortBySorted(s[1..], key);
      InsertKeepsSorted(s[0], SortBy(s[1..], key), key);
    }
  }

  /** Sorting exchanges elements only: every element of the sorted sequence is
      one of the input's and the other way round. */
  lemma SortByMembers<T>(s: seq<T>, key: T -> real)
    ensures forall x :: x in SortBy(s, key) <==> x in s
  {
    var r := SortBy(s, key);
    forall x ensures x in r <==> x in s {
      assert x in r <==> x in multiset(r);
      assert x in s <==> x in multiset(s);
    }
  }

  /** Sequence of distinct elements inside a finite set is no longer than the set. */
  lemma {:induction false} DistinctBoundedBySet<T>(s: seq<T>, a: set<T>)
    requires forall i, j :: 0 <= i < j < |s| ==> s[i] != s[j]
    requires forall i :: 0 <= i < |s| ==> s[i] in a
    ensures |s| <= |a|
    decreases |s|
  {
    if s != [] {
      var last := s[|s| - 1];
      var front := s[..|s| - 1];
      forall i | 0 <= i < |front| ensures front[i] in a - {last} {
        assert front[i] == s[i];
      }
      DistinctBoundedBySet(front, a - {last});
    }
  }

  // ---------------------------------------------------------------------
  // Real arithmetic the solver needs spelled out

  lemma MulMonotone(x: real, y: real, w: real)
    requires x <= y && w >= 0.0
    ensures x * w <= y * w
  {
  }

  lemma MulNonneg(x: real, w: real)
    requires x >= 0.0 && w >= 0.0
    ensures x * w >= 0.0
  {
  }

  lemma ZeroMul(x: real)
    ensures 0.0 * x == 0.0
  {
  }

  lemma MulStrict(x: real, y: real, w: real)
    requires x < y && w > 0.0
    ensures x * w < y * w
  {
  }

  lemma MulCancel(x: real, y: real, w: real)
    requires w > 0.0 && x * w < y * w
    ensures x < y
  {
    if x >= y {
      MulMonotone(y, x, w);
    }
  }

  /** `k` copies of `a` added up. */
  function Times(k: nat, a: real): real
  {
    if k == 0 then 0.0 else Times(k - 1, a) + a
  }

  lemma {:induction false} TimesIsProduct(k: nat, a: real)
    ensures Times(k, a) == k as real * a
    decreases k
  {
    if k > 0 {
      TimesIsProduct(k - 1, a);
      assert k as real * a == (k - 1) as real * a + a;
    }
  }

  lemma DivAbove(s: real, n: real, a: real)
    requires n > 0.0 && n * a <= s
    ensures a <= s / n
  {
    var q := s / n;
    assert q * n == s;
    if q < a {
      MulStrict(q, a, n);
    }
  }

  lemma DivBelow(s: real, n: real, b: real)
    requires n > 0.0 && s <= n * b
    ensures s / n <= b
  {
    var q := s / n;
    assert q * n == s;
    if q > b {
      MulStrict(b, q, n);
    }
  }
}
