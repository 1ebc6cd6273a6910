/** The integer point value type `Point2DInt` of
    src/pose/util.py and its arithmetic. Every operator builds a new point;
    nothing is updated in place. */
module Points {
  import opened PyInt

  /** An image position with integer coordinates. */
  datatype Point2DInt = Point2DInt(x: int, y: int)

  /** Python's `n ** 2` on an integer. */
  function Square(n: int): (r: int)
    ensures r >= 0
    ensures r == 0 <==> n == 0
  {
    if n == 0 then 0
    else
      assert n * n == (-n) * (-n);
      assert n < 0 ==> (-n) * (-n) >= -n;
      assert n > 0 ==> n * n >= n;
      n * n
  }

  /** `sqr_dist_to`: the squared Euclidean distance from `p` to `other`. */
  function SqrDistTo(p: Point2DInt, other: Point2DInt): (d: int)
    ensures d >= 0
    ensures d == 0 <==> p == other
  {
    Square(other.x - p.x) + Square(other.y - p.y)
  }

  /** `__add__`: component-wise sum. */
  function Add(p: Point2DInt, other: Point2DInt): Point2DInt
  {
    Point2DInt(p.x + other.x, p.y + other.y)
  }

  /** `__sub__`: component-wise difference. */
  function Sub(p: Point2DInt, other: Point2DInt): Point2DInt
  {
    Point2DInt(p.x - other.x, p.y - other.y)
  }

  /** `__mul__`: both coordinates times an integer scalar. */
  function Scale(p: Point2DInt, scalar: int): Point2DInt
  {
    Point2DInt(p.x * scalar, p.y * scalar)
  }

  /** `__floordiv__`: both coordinates floor-divided by the scalar. */
  function FloorDivide(p: Point2DInt, scalar: int): (r: Point2DInt)
    requires scalar != 0
    ensures IsFloorQuotient(p.x, scalar, r.x) && IsFloorQuotient(p.y, scalar, r.y)
  {
    Point2DInt(FloorDiv(p.x, scalar), FloorDiv(p.y, scalar))
  }

  /** `__truediv__`: on this type `/` is floor division as well. */
  function TrueDivide(p: Point2DInt, scalar: int): (r: Point2DInt)
    requires scalar != 0
    ensures IsFloorQuotient(p.x, scalar, r.x) && IsFloorQuotient(p.y, scalar, r.y)
  {
    Point2DInt(FloorDiv(p.x, scalar), FloorDiv(p.y, scalar))
  }

  /** `__iter__`: the point unpacked as the pair `(x, y)`. */
  function Coords(p: Point2DInt): (s: seq<int>)
    ensures |s| == 2
  {
    [p.x, p.y]
  }

  /** The squared distance does not depend on the direction. */
  lemma SqrDistSymmetric(p: Point2DInt, q: Point2DInt)
    ensures SqrDistTo(p, q) == SqrDistTo(q, p)
  {
    assert Square(q.x - p.x) == Square(p.x - q.x) by {
      assert (q.x - p.x) * (q.x - p.x) == (p.x - q.x) * (p.x - q.x);
    }
    assert Square(q.y - p.y) == Square(p.y - q.y) by {
      assert (q.y - p.y) * (q.y - p.y) == (p.y - q.y) * (p.y - q.y);
    }
  }

  /** Translating both points by the same offset keeps their squared distance. */
  lemma SqrDistTranslationInvariant(p: Point2DInt, q: Point2DInt, t: Point2DInt)
    ensures SqrDistTo(Add(p, t), Add(q, t)) == SqrDistTo(p, q)
  {
    assert (q.x + t.x) - (p.x + t.x) == q.x - p.x;
    assert (q.y + t.y) - (p.y + t.y) == q.y - p.y;
  }

  /** Subtracting undoes adding, and adding undoes subtracting. */
  lemma AddSubInverse(p: Point2DInt, q: Point2DInt)
    ensures Sub(Add(p, q), q) == p
    ensures Add(Sub(p, q), q) == p
  {
  }

  /** Floor-dividing by a nonzero scalar undoes scaling by it. */
  lemma ScaleThenFloorDivide(p: Point2DInt, s: int)
    requires s != 0
    ensures FloorDivide(Scale(p, s), s) == p
  {
    FloorDivOfMultiple(p.x, s);
    FloorDivOfMultiple(p.y, s);
  }

  /** For every point and nonzero scalar `/` and `//` give the same point. */
  lemma TrueDivideIsFloorDivide(p: Point2DInt, s: int)
    requires s != 0
    ensures TrueDivide(p, s) == FloorDivide(p, s)
  {
  }

  /** Unpacking a point loses nothing: the pair determines the point. */
  lemma CoordsInjective(p: Point2DInt, q: Point2DInt)
    requires Coords(p) == Coords(q)
    ensures p == q
  {
    assert Coords(p)[0] == Coords(q)[0];
    assert Coords(p)[1] == Coords(q)[1];
  }
}
