/** Concrete values that pin down the behaviour of the geometry on small
    inputs, including Python's rounding toward negative infinity. */
module SampleValues {
  import opened PyInt
  import opened Points
  import opened Boxes

  /** `//` rounds toward negative infinity whatever the signs. */
  lemma FloorDivSamples()
    ensures FloorDiv(7, 2) == 3 && FloorDiv(-7, 2) == -4
    ensures FloorDiv(7, -2) == -4 && FloorDiv(-7, -2) == 3
  {
    assert IsFloorQuotient(-7, 2, -4);
    FloorQuotientUnique(-7, 2, FloorDiv(-7, 2), -4);
    assert IsFloorQuotient(7, -2, -4);
    FloorQuotientUnique(7, -2, FloorDiv(7, -2), -4);
  }

  /** Both corner orders give the box at (2, 2) of size 8 by 8. */
  lemma FromCornersSample()
    ensures FromCorners(2, 2, 10, 10) == BoundingBox(2, 2, 8, 8)
    ensures FromCorners(10, 10, 2, 2) == BoundingBox(2, 2, 8, 8)
  {
  }

  /** The 10-by-10 box at the origin contains (5, 5) but neither of its
      own corners. */
  lemma ContainsPointSamples()
    ensures ContainsPoint(FromCorners(0, 0, 10, 10), Point2DInt(5, 5))
    ensures !ContainsPoint(FromCorners(0, 0, 10, 10), Point2DInt(0, 0))
    ensures !ContainsPoint(FromCorners(0, 0, 10, 10), Point2DInt(10, 10))
  {
    var outer := FromCorners(0, 0, 10, 10);
    assert TopLeft(outer) == Point2DInt(0, 0) && BottomRight(outer) == Point2DInt(10, 10);
  }

  /** The 10-by-10 box at the origin contains the box spanned by (2, 2)
      and (8, 8). */
  lemma ContainsBoxSample()
    ensures ContainsBox(FromCorners(0, 0, 10, 10), FromCorners(2, 2, 8, 8))
  {
    var outer, inner := FromCorners(0, 0, 10, 10), FromCorners(2, 2, 8, 8);
    assert TopLeft(outer) == Point2DInt(0, 0) && BottomRight(outer) == Point2DInt(10, 10);
    assert TopLeft(inner) == Point2DInt(2, 2) && BottomRight(inner) == Point2DInt(8, 8);
  }

  /** The centre of the 10-by-4 box at the origin. */
  lemma CenterSample()
    ensures Center(BoundingBox(0, 0, 10, 4)) == Point2DInt(5, 2)
  {
    assert TrueDivide(Point2DInt(10, 4), 2) == Point2DInt(5, 2);
  }

  /** The square of side 10 around (5, 2). */
  lemma FromCenterSample()
    ensures FromCenter(Point2DInt(5, 2), 10, 10) == BoundingBox(0, -3, 10, 10)
  {
    assert TrueDivide(Point2DInt(10, 10), 2) == Point2DInt(5, 5);
  }

  /** Python's `max([10, 4])`. */
  lemma MaxOfListSample()
    ensures MaxOfList([10, 4]) == 10
  {
    assert [10, 4][..1] == [10];
  }

  /** A wide box becomes a square around the same centre, extending
      upward by the rounded-down half of the difference. */
  lemma SquarifySample()
    ensures Squarify(BoundingBox(0, 0, 10, 4)) == BoundingBox(0, -3, 10, 10)
  {
    CenterSample();
    FromCenterSample();
    MaxOfListSample();
  }

  /** The centre of a box of negative size is rounded toward negative
      infinity, as in Python. */
  lemma NegativeSizeCenterSample()
    ensures Center(BoundingBox(0, 0, -3, -3)) == Point2DInt(-2, -2)
  {
    assert IsFloorQuotient(-3, 2, -2);
    FloorQuotientUnique(-3, 2, FloorDiv(-3, 2), -2);
  }
}
