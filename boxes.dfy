/** The axis-aligned integer rectangle `BoundingBox` of
    src/pose/util.py: a top-left corner `(x, y)` and a size `w, h`.
    The factories, derived points, containment predicates, `squarify` and
    `clamp` are modelled as written, including the corner-only
    `intersects` and the `clamp` that reads only `max_box.x` and
    `max_box.y`. */
module Boxes {
  import opened PyInt
  import opened Points

  /** Top-left corner, width and height. Nothing forces `w` or `h` to be
      non-negative; the factory `FromCorners` produces such boxes. */
  datatype BoundingBox = BoundingBox(x: int, y: int, w: int, h: int)

  /** `__iter__`: the box unpacked as `(x, y, w, h)`. */
  function Fields(b: BoundingBox): (s: seq<int>)
    ensures |s| == 4
  {
    [b.x, b.y, b.w, b.h]
  }

  /** `top_left`. */
  function TopLeft(b: BoundingBox): Point2DInt
  {
    Point2DInt(b.x, b.y)
  }

  /** `_size_as_point`. */
  function SizeAsPoint(b: BoundingBox): Point2DInt
  {
    Point2DInt(b.w, b.h)
  }

  /** `bottom_right`: the top-left corner moved by the size. */
  function BottomRight(b: BoundingBox): Point2DInt
  {
    Add(TopLeft(b), SizeAsPoint(b))
  }

  /** `center`: the top-left corner moved by half the size, rounded down
      (the point type's `/` floors). */
  function Center(b: BoundingBox): (r: Point2DInt)
    ensures IsFloorQuotient(b.w, 2, r.x - b.x) && IsFloorQuotient(b.h, 2, r.y - b.y)
    ensures b.w >= 0 ==> TopLeft(b).x <= r.x <= BottomRight(b).x
    ensures b.h >= 0 ==> TopLeft(b).y <= r.y <= BottomRight(b).y
  {
    Add(TopLeft(b), TrueDivide(SizeAsPoint(b), 2))
  }

  /** `from_corners`: the box spanned by two opposite corners given in any
      order; the lower coordinate of each axis becomes the top-left. */
  function FromCorners(aX: int, aY: int, bX: int, bY: int): (r: BoundingBox)
    ensures r.w >= 0 && r.h >= 0
    ensures TopLeft(r) == Point2DInt(Min(aX, bX), Min(aY, bY))
    ensures BottomRight(r) == Point2DInt(Max(aX, bX), Max(aY, bY))
  {
    var (lowX, highX) := if aX > bX then (bX, aX) else (aX, bX);
    var (lowY, highY) := if aY > bY then (bY, aY) else (aY, bY);
    BoundingBox(lowX, lowY, highX - lowX, highY - lowY)
  }

  /** `from_points`: `from_corners` on the coordinates of two points. */
  function FromPoints(pa: Point2DInt, pb: Point2DInt): (r: BoundingBox)
    ensures r.w >= 0 && r.h >= 0
    ensures TopLeft(r) == Point2DInt(Min(pa.x, pb.x), Min(pa.y, pb.y))
    ensures BottomRight(r) == Point2DInt(Max(pa.x, pb.x), Max(pa.y, pb.y))
  {
    FromCorners(pa.x, pa.y, pb.x, pb.y)
  }

  /** `from_center`: the box of size `w, h` whose top-left corner is
      `center - (w, h) / 2`, unpacked through the point's `__iter__`.
      Negative sizes are not rejected. */
  function FromCenter(center: Point2DInt, w: int, h: int): (r: BoundingBox)
    ensures r.w == w && r.h == h
    ensures Center(r) == center
  {
    var corner := Coords(Sub(center, TrueDivide(Point2DInt(w, h), 2)));
    BoundingBox(corner[0], corner[1], w, h)
  }

  /** `contains_point`: strictly inside, all four edges excluded. */
  predicate ContainsPoint(b: BoundingBox, point: Point2DInt)
  {
    point.x > TopLeft(b).x && point.x < BottomRight(b).x &&
    point.y > TopLeft(b).y && point.y < BottomRight(b).y
  }

  /** `contains_box`: both corners of `other` strictly inside `b`. */
  predicate ContainsBox(b: BoundingBox, other: BoundingBox)
  {
    ContainsPoint(b, TopLeft(other)) && ContainsPoint(b, BottomRight(other))
  }

  /** `_contains_either_corner`: some corner of `other` strictly inside `b`. */
  predicate ContainsEitherCorner(b: BoundingBox, other: BoundingBox)
  {
    ContainsPoint(b, TopLeft(other)) || ContainsPoint(b, BottomRight(other))
  }

  /** `intersects`: one of the two boxes has a corner strictly inside the
      other. Overlaps where no corner lands inside are not detected. */
  predicate Intersects(b: BoundingBox, other: BoundingBox)
  {
    ContainsEitherCorner(b, other) || ContainsEitherCorner(other, b)
  }

  /** `squarify`: the square of side `max(w, h)` built around the centre. */
  function Squarify(b: BoundingBox): (r: BoundingBox)
    ensures r.w == r.h
    ensures r.w >= b.w && r.w >= b.h && (r.w == b.w || r.w == b.h)
    ensures Center(r) == Center(b)
  {
    var s := MaxOfList([b.w, b.h]);
    FromCenter(Center(b), s, s)
  }

  /** `clamp`: both the lower and the upper bound of each axis are taken
      from `maxBox.x` and `maxBox.y`; `maxBox.w` and `maxBox.h` are never
      read. */
  function Clamp(b: BoundingBox, maxBox: BoundingBox): (r: BoundingBox)
    ensures r.w >= 0 && r.h >= 0
  {
    var outAx := Max(TopLeft(b).x, maxBox.x);
    var outAy := Max(TopLeft(b).y, maxBox.y);
    var outBx := Min(BottomRight(b).x, maxBox.x);
    var outBy := Min(BottomRight(b).y, maxBox.y);
    FromCorners(outAx, outAy, outBx, outBy)
  }

  /** The nearest point of `[lo, hi]` to `v`. */
  function Clip(v: int, lo: int, hi: int): (r: int)
    requires lo <= hi
    ensures lo <= r <= hi
    ensures lo <= v <= hi ==> r == v
    ensures v < lo ==> r == lo
    ensures hi < v ==> r == hi
  {
    Max(lo, Min(v, hi))
  }

  // ---------------------------------------------------------------------
  // Unpacking

  /** Unpacking a box loses nothing: the four fields determine the box. */
  lemma FieldsInjective(a: BoundingBox, b: BoundingBox)
    requires Fields(a) == Fields(b)
    ensures a == b
  {
    assert Fields(a)[0] == Fields(b)[0] && Fields(a)[1] == Fields(b)[1];
    assert Fields(a)[2] == Fields(b)[2] && Fields(a)[3] == Fields(b)[3];
  }

  // ---------------------------------------------------------------------
  // Factories

  /** Either corner may come first, and the two axes are normalised
      independently, so any two opposite corners give the same box. */
  lemma FromCornersOrderIndependent(aX: int, aY: int, bX: int, bY: int)
    ensures FromCorners(aX, aY, bX, bY) == FromCorners(bX, bY, aX, aY)
    ensures FromCorners(aX, aY, bX, bY) == FromCorners(bX, aY, aX, bY)
  {
  }

  /** `from_points` is `from_corners` on the points' coordinates. */
  lemma FromPointsIsFromCorners(pa: Point2DInt, pb: Point2DInt)
    ensures FromPoints(pa, pb) == FromCorners(pa.x, pa.y, pb.x, pb.y)
  {
  }

  /** A box of non-negative size is rebuilt from its own two corners. */
  lemma FromOwnCorners(b: BoundingBox)
    requires b.w >= 0 && b.h >= 0
    ensures FromPoints(TopLeft(b), BottomRight(b)) == b
  {
    var r := FromPoints(TopLeft(b), BottomRight(b));
    assert TopLeft(r) == TopLeft(b);
    assert BottomRight(r) == BottomRight(b);
  }

  /** A box is rebuilt from its own centre and size, whatever its size. */
  lemma FromOwnCenter(b: BoundingBox)
    ensures FromCenter(Center(b), b.w, b.h) == b
  {
    var q := TrueDivide(SizeAsPoint(b), 2);
    assert Center(b) == Add(TopLeft(b), q);
    AddSubInverse(TopLeft(b), q);
  }

  // ---------------------------------------------------------------------
  // Containment

  /** Strictness: a box contains neither of its own corners. */
  lemma ContainsPointExcludesCorners(b: BoundingBox)
    ensures !ContainsPoint(b, TopLeft(b))
    ensures !ContainsPoint(b, BottomRight(b))
  {
  }

  /** Strictness on every edge: a point on any of the four edge lines,
      the two unstored corners `(x + w, y)` and `(x, y + h)` included, lies
      outside the box. */
  lemma ContainsPointExcludesEdges(b: BoundingBox, p: Point2DInt)
    requires p.x == b.x || p.x == b.x + b.w || p.y == b.y || p.y == b.y + b.h
    ensures !ContainsPoint(b, p)
  {
  }

  /** A box narrower or flatter than 2 contains no point at all; in
      particular a box with `w == 0` or `h == 0`. */
  lemma ThinBoxContainsNothing(b: BoundingBox, p: Point2DInt)
    requires b.w < 2 || b.h < 2
    ensures !ContainsPoint(b, p)
  {
  }

  /** Every point of an inner box lies in an outer box that contains it. */
  lemma ContainsBoxContainsItsPoints(a: BoundingBox, b: BoundingBox, p: Point2DInt)
    requires ContainsBox(a, b) && ContainsPoint(b, p)
    ensures ContainsPoint(a, p)
  {
  }

  /** Box containment is transitive. */
  lemma ContainsBoxTransitive(a: BoundingBox, b: BoundingBox, c: BoundingBox)
    requires ContainsBox(a, b) && ContainsBox(b, c)
    ensures ContainsBox(a, c)
  {
  }

  /** No box contains itself. */
  lemma ContainsBoxIrreflexive(b: BoundingBox)
    ensures !ContainsBox(b, b)
  {
    ContainsPointExcludesCorners(b);
  }

  // ---------------------------------------------------------------------
  // Intersection

  /** `intersects` does not depend on the order of its arguments. */
  lemma IntersectsSymmetric(a: BoundingBox, b: BoundingBox)
    ensures Intersects(a, b) == Intersects(b, a)
  {
  }

  /** A box that contains another intersects it. */
  lemma ContainsBoxImpliesIntersects(a: BoundingBox, b: BoundingBox)
    requires ContainsBox(a, b)
    ensures Intersects(a, b)
  {
  }

  /** Because containment is strict, no box intersects itself. */
  lemma NoBoxIntersectsItself(b: BoundingBox)
    ensures !Intersects(b, b)
  {
    ContainsPointExcludesCorners(b);
  }

  /** Two crossing bars share the point (5, 5), yet neither has a corner
      inside the other, so `intersects` reports no intersection. */
  lemma CrossingBarsDoNotIntersect()
    ensures ContainsPoint(BoundingBox(0, 4, 10, 2), Point2DInt(5, 5))
    ensures ContainsPoint(BoundingBox(4, 0, 2, 10), Point2DInt(5, 5))
    ensures !Intersects(BoundingBox(0, 4, 10, 2), BoundingBox(4, 0, 2, 10))
  {
    var horizontal, vertical := BoundingBox(0, 4, 10, 2), BoundingBox(4, 0, 2, 10);
    assert TopLeft(horizontal) == Point2DInt(0, 4) && BottomRight(horizontal) == Point2DInt(10, 6);
    assert TopLeft(vertical) == Point2DInt(4, 0) && BottomRight(vertical) == Point2DInt(6, 10);
  }

  // ---------------------------------------------------------------------
  // Squarify

  /** A box that is already square is returned unchanged. */
  lemma SquarifyKeepsSquare(b: BoundingBox)
    requires b.w == b.h
    ensures Squarify(b) == b
  {
    FromOwnCenter(b);
  }

  /** Squarifying twice is the same as squarifying once. */
  lemma SquarifyIdempotent(b: BoundingBox)
    ensures Squarify(Squarify(b)) == Squarify(b)
  {
    SquarifyKeepsSquare(Squarify(b));
  }

  /** The square covers the original box on every side. */
  lemma SquarifyCovers(b: BoundingBox)
    ensures TopLeft(Squarify(b)).x <= b.x && b.x + b.w <= BottomRight(Squarify(b)).x
    ensures TopLeft(Squarify(b)).y <= b.y && b.y + b.h <= BottomRight(Squarify(b)).y
  {
  }

  // ---------------------------------------------------------------------
  // Clamp

  /** The result depends on `maxBox` only through `maxBox.x` and `maxBox.y`. */
  lemma ClampIgnoresMaxBoxSize(b: BoundingBox, m1: BoundingBox, m2: BoundingBox)
    requires m1.x == m2.x && m1.y == m2.y
    ensures Clamp(b, m1) == Clamp(b, m2)
  {
  }

  /** For a box of non-negative size, the clamped span on each axis runs
      between `maxBox`'s coordinate and the nearest point of the box's own
      span on that axis. */
  lemma ClampSpans(b: BoundingBox, m: BoundingBox)
    requires b.w >= 0 && b.h >= 0
    ensures var r, cx := Clamp(b, m), Clip(m.x, b.x, b.x + b.w);
      r.x == Min(m.x, cx) && r.x + r.w == Max(m.x, cx)
    ensures var r, cy := Clamp(b, m), Clip(m.y, b.y, b.y + b.h);
      r.y == Min(m.y, cy) && r.y + r.h == Max(m.y, cy)
  {
  }

  /** When `maxBox.x` falls within the box's horizontal span the result has
      width 0, and likewise for the height. */
  lemma ClampCollapses(b: BoundingBox, m: BoundingBox)
    ensures b.w >= 0 && b.x <= m.x <= b.x + b.w ==> Clamp(b, m).w == 0
    ensures b.h >= 0 && b.y <= m.y <= b.y + b.h ==> Clamp(b, m).h == 0
  {
  }

  /** For a box of any size, the result spans the two clamped corners
      `(max(x, maxBox.x), max(y, maxBox.y))` and
      `(min(x + w, maxBox.x), min(y + h, maxBox.y))`, with the lower
      coordinate of each axis as its top-left. */
  lemma ClampCorners(b: BoundingBox, m: BoundingBox)
    ensures var r, outAx, outBx := Clamp(b, m), Max(b.x, m.x), Min(b.x + b.w, m.x);
      TopLeft(r).x == Min(outAx, outBx) && BottomRight(r).x == Max(outAx, outBx)
    ensures var r, outAy, outBy := Clamp(b, m), Max(b.y, m.y), Min(b.y + b.h, m.y);
      TopLeft(r).y == Min(outAy, outBy) && BottomRight(r).y == Max(outAy, outBy)
  {
  }

  /** Clamping a box of non-negative size against itself collapses it to
      its top-left corner. */
  lemma ClampAgainstItself(b: BoundingBox)
    requires b.w >= 0 && b.h >= 0
    ensures Clamp(b, b) == BoundingBox(b.x, b.y, 0, 0)
  {
    ClampSpans(b, b);
  }

  /** Clamping any box against itself: on an axis of non-negative size the
      result collapses to the box's coordinate, and on an axis of negative
      size it is the same span with its ends swapped into place. */
  lemma ClampAgainstItselfAnySize(b: BoundingBox)
    ensures Clamp(b, b) ==
      BoundingBox(Min(b.x, b.x + b.w), Min(b.y, b.y + b.h), Max(0, -b.w), Max(0, -b.h))
  {
    ClampCorners(b, b);
  }
}
