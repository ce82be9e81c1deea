/** `merge_masks`: pixel-wise union, intersection and difference of two
    8-bit masks, as OpenCV's `bitwise_or`, `bitwise_and` and `bitwise_not`
    compute them.

    A mask is a grid of bytes where 255 marks a selected pixel and 0 an
    unselected one.  OpenCV refuses to combine two masks of different sizes;
    that refusal is the error result here.  An operation name other than the
    three known ones returns the first mask without looking at the second. */
module Masks {
  import opened Support

  type Mask = seq<seq<bv8>>

  /** The two masks have the same number of rows and equally long rows. */
  predicate SameShape(m1: Mask, m2: Mask)
  {
    |m1| == |m2| && forall r :: 0 <= r < |m1| ==> |m1[r]| == |m2[r]|
  }

  predicate IsKnownOperation(operation: string)
  {
    operation == "union" || operation == "intersect" || operation == "subtract"
  }

  /** The byte operation behind each known operation name. */
  function Combine(operation: string, a: bv8, b: bv8): bv8
  {
    if operation == "union" then a | b
    else if operation == "intersect" then a & b
    else a & !b
  }

  function CombineRows(operation: string, r1: seq<bv8>, r2: seq<bv8>): (r: seq<bv8>)
    requires |r1| == |r2|
    ensures |r| == |r1|
    ensures forall x :: 0 <= x < |r| ==> r[x] == Combine(operation, r1[x], r2[x])
  {
    seq(|r1|, x requires 0 <= x < |r1| => Combine(operation, r1[x], r2[x]))
  }

  datatype MergeError = ShapeMismatch

  function MergeMasks(m1: Mask, m2: Mask, operation: string): (r: Result<Mask, MergeError>)
    ensures !IsKnownOperation(operation) ==> r == Ok(m1)
    ensures IsKnownOperation(operation) ==> (r.Ok? <==> SameShape(m1, m2))
    ensures IsKnownOperation(operation) && r.Ok? ==>
      SameShape(r.value, m1)
      && forall y, x :: 0 <= y < |m1| && 0 <= x < |m1[y]| ==> r.value[y][x] == Combine(operation, m1[y][x], m2[y][x])
  {
    if !IsKnownOperation(operation) then Ok(m1)
    else if !SameShape(m1, m2) then Err(ShapeMismatch)
    else Ok(seq(|m1|, y requires 0 <= y < |m1| => CombineRows(operation, m1[y], m2[y])))
  }

  /** The selected pixels of a mask. */
  ghost function Selected(m: Mask): set<Pixel>
  {
    set y, x | 0 <= y < |m| && 0 <= x < |m[y]| && m[y][x] != 0 :: Pixel(x, y)
  }

  /** Every byte is 0 or 255, as in the masks the processor produces. */
  ghost predicate IsBinary(m: Mask)
  {
    forall y, x :: 0 <= y < |m| && 0 <= x < |m[y]| ==> m[y][x] == 0 || m[y][x] == 255
  }

  /** Every byte is 0. */
  ghost predicate IsEmpty(m: Mask)
  {
    forall y, x :: 0 <= y < |m| && 0 <= x < |m[y]| ==> m[y][x] == 0
  }

  /** On masks of equal size, the three operations select the union, the
      intersection and the difference of the selected pixels; the results are
      binary masks again. */
  lemma MergeIsSetAlgebra(m1: Mask, m2: Mask, operation: string)
    requires SameShape(m1, m2) && IsBinary(m1) && IsBinary(m2) && IsKnownOperation(operation)
    ensures MergeMasks(m1, m2, operation).Ok?
    ensures IsBinary(MergeMasks(m1, m2, operation).value)
    ensures operation == "union" ==> Selected(MergeMasks(m1, m2, operation).value) == Selected(m1) + Selected(m2)
    ensures operation == "intersect" ==> Selected(MergeMasks(m1, m2, operation).value) == Selected(m1) * Selected(m2)
    ensures operation == "subtract" ==> Selected(MergeMasks(m1, m2, operation).value) == Selected(m1) - Selected(m2)
  {
    var m := MergeMasks(m1, m2, operation).value;
    forall y, x | 0 <= y < |m| && 0 <= x < |m[y]|
      ensures m[y][x] == 0 || m[y][x] == 255
      ensures m[y][x] != 0 <==> Combine(operation, if m1[y][x] != 0 then 255 else 0, if m2[y][x] != 0 then 255 else 0) != 0
    {
      CombineBinary(operation, m1[y][x], m2[y][x]);
    }
    forall p
      ensures p in Selected(m) <==> 0 <= p.y < |m1| && 0 <= p.x < |m1[p.y]| && m[p.y][p.x] != 0
      ensures p in Selected(m1) <==> 0 <= p.y < |m1| && 0 <= p.x < |m1[p.y]| && m1[p.y][p.x] != 0
      ensures p in Selected(m2) <==> 0 <= p.y < |m1| && 0 <= p.x < |m1[p.y]| && m2[p.y][p.x] != 0
    {
    }
  }

  /** On the bytes 0 and 255 the bitwise operations are the Boolean ones. */
  lemma CombineBinary(operation: string, a: bv8, b: bv8)
    requires a == 0 || a == 255
    requires b == 0 || b == 255
    requires IsKnownOperation(operation)
    ensures Combine(operation, a, b) == 0 || Combine(operation, a, b) == 255
    ensures operation == "union" ==> (Combine(operation, a, b) != 0 <==> a != 0 || b != 0)
    ensures operation == "intersect" ==> (Combine(operation, a, b) != 0 <==> a != 0 && b != 0)
    ensures operation == "subtract" ==> (Combine(operation, a, b) != 0 <==> a != 0 && b == 0)
  {
  }

  /** The union of a mask with itself is that mask. */
  lemma UnionIdempotent(m: Mask)
    ensures MergeMasks(m, m, "union") == Ok(m)
  {
    assert SameShape(m, m);
    var r := MergeMasks(m, m, "union").value;
    forall y | 0 <= y < |m| ensures r[y] == m[y] {
      forall x | 0 <= x < |m[y]| ensures r[y][x] == m[y][x] {
        UnionByteIdempotent(m[y][x]);
      }
    }
    assert r == m;
  }

  lemma UnionByteIdempotent(a: bv8)
    ensures Combine("union", a, a) == a
  {
  }

  /** Subtracting a mask from itself selects nothing, whatever its bytes. */
  lemma SubtractSelfIsEmpty(m: Mask)
    ensures MergeMasks(m, m, "subtract").Ok?
    ensures SameShape(MergeMasks(m, m, "subtract").value, m)
    ensures IsEmpty(MergeMasks(m, m, "subtract").value)
  {
    var r := MergeMasks(m, m, "subtract").value;
    forall y, x | 0 <= y < |r| && 0 <= x < |r[y]| ensures r[y][x] == 0 {
      SubtractByteSelf(m[y][x]);
    }
  }

  lemma SubtractByteSelf(a: bv8)
    ensures Combine("subtract", a, a) == 0
  {
  }

  /** Intersecting with an empty mask of the same size selects nothing. */
  lemma IntersectEmptyIsEmpty(m: Mask, e: Mask)
    requires SameShape(m, e) && IsEmpty(e)
    ensures MergeMasks(m, e, "intersect").Ok?
    ensures IsEmpty(MergeMasks(m, e, "intersect").value)
  {
    var r := MergeMasks(m, e, "intersect").value;
    forall y, x | 0 <= y < |r| && 0 <= x < |r[y]| ensures r[y][x] == 0 {
      IntersectByteZero(m[y][x]);
    }
  }

  lemma IntersectByteZero(a: bv8)
    ensures Combine("intersect", a, 0) == 0
  {
  }
}
