# Integer 2D geometry of the pose utilities

This project models the integer geometry in `src/pose/util.py`. That file
describes detected human poses in images. The model covers the two value types
that carry behaviour:

- `Point2DInt` is an integer image position. Its operations are the squared
  distance, component-wise `+` and `-`, scalar `*`, scalar `//`, and `/`. On
  this type `/` floors too. The point can also be unpacked as `(x, y)`.
- `BoundingBox` is an axis-aligned integer rectangle, stored as its top-left
  corner `(x, y)` and its size `w, h`. Its operations are:
  - the factories `from_corners`, `from_points` and `from_center`;
  - the derived points `top_left`, `bottom_right` and `center`;
  - the strict containment predicates and `intersects`;
  - `squarify` and `clamp`;
  - unpacking as `(x, y, w, h)`.

Every operation builds a new value and mutates nothing. So each type is a
Dafny `datatype`, each operation a `function`, and the properties are
lemmas. The modules are:

- `PyInt` (`py_int.dfy`): Python's floor division `//` and its uniqueness.
  Python's `//` rounds toward negative infinity. Dafny's Euclidean `/`
  differs from it when the divisor is negative.
  The module also has the two-argument `min` and `max`, and `max` over a
  list, which `squarify` uses.
- `Points` (`points.dfy`): `Point2DInt` and its arithmetic.
- `Boxes` (`boxes.dfy`): `BoundingBox`, its factories, derived points,
  predicates, `squarify` and `clamp`.
- `Pose` (`pose.dfy`): the records `Joint2D` and `Human2D`, and the joint
  count 16.
- `SampleValues` (`sample_values.dfy`): concrete values that show how the
  operations behave on small inputs.

The model keeps the code's quirks as written:

- `intersects` only tests whether a corner of one box lies strictly inside
  the other. So no box intersects itself, and two crossing bars that share
  interior points do not "intersect".
- `clamp` takes both the lower and the upper bound of each axis from
  `max_box.x` and `max_box.y`. It never reads `max_box.w` or `max_box.h`. For
  a box of non-negative size, the clamped span on an axis therefore runs from
  `max_box`'s coordinate to the nearest point of the box's own span. Clamping
  a box of non-negative size against itself collapses it to its top-left
  corner. A box of negative size does not collapse: clamping the box at the
  origin of size -3 by -3 against itself gives the box at (-3, -3) of size 3
  by 3 (`Boxes.ClampAgainstItselfAnySize`).
- `/` on `Point2DInt` is floor division, exactly like `//`.

Some facts about sizes that follow from the code:

- `clamp` never returns a negative size, because it builds its result with
  `from_corners` (`Boxes.Clamp`).
- Only `from_corners`, `from_points` and `clamp` guarantee a non-negative
  size. `from_center` and the plain constructor keep a negative size they
  are given. `squarify` returns a negative side when both `w` and `h` are
  negative.

## Model

| member | source | states |
|---|---|---|
| `PyInt.FloorDiv` | src/pose/util.py:27 | Python's `a // b` for a nonzero divisor: the result is the floor quotient. The remainder has the divisor's sign and is smaller than it in magnitude. |
| `PyInt.FloorQuotientUnique` | src/pose/util.py:27 | At most one integer is the floor quotient of `a` by `b`, so `//` is pinned down by that property. |
| `PyInt.FloorDivOfMultiple` | src/pose/util.py:23-27 | For any nonzero `s`, `(a * s) // s == a`. |
| `PyInt.Min` | src/pose/util.py:140-141 | Python's `min(a, b)` returns one of its arguments, and that argument is no larger than either. |
| `PyInt.Max` | src/pose/util.py:138-139 | Python's `max(a, b)` returns one of its arguments, and that argument is no smaller than either. |
| `PyInt.MaxOfList` | src/pose/util.py:134 | `max([w, h])` returns an element of the list that is at least as large as every element. |
| `PyInt.FloorDivMonotone` | src/pose/util.py:133-135 | With a positive divisor, `//` is monotone in the dividend. |
| `PyInt.FloorDivPositive` | src/pose/util.py:103 | With a positive divisor, such as the 2 used by `center` and `from_center`, Python's `//` equals Euclidean division. |
| `Points.Square` | src/pose/util.py:12 | `n ** 2` is non-negative, and it is 0 exactly when `n` is 0. |
| `Points.SqrDistTo` | src/pose/util.py:11-12 | `sqr_dist_to` is non-negative. It is 0 exactly when the two points are equal. |
| `Points.SqrDistSymmetric` | src/pose/util.py:11-12 | `p.sqr_dist_to(q) == q.sqr_dist_to(p)`. |
| `Points.SqrDistTranslationInvariant` | src/pose/util.py:11-18 | Adding the same point to both arguments does not change their squared distance. |
| `Points.AddSubInverse` | src/pose/util.py:17-21 | `(p + q) - q == p` and `(p - q) + q == p`. |
| `Points.FloorDivide` | src/pose/util.py:26-27 | `p // s` has as each coordinate the floor quotient of `p`'s coordinate by `s` (requires `s != 0`). |
| `Points.ScaleThenFloorDivide` | src/pose/util.py:23-27 | For every point and nonzero scalar `s`, `(p * s) // s == p`. |
| `Points.TrueDivide` | src/pose/util.py:29-30 | `p / s` also floors each coordinate (requires `s != 0`). |
| `Points.TrueDivideIsFloorDivide` | src/pose/util.py:26-30 | For every point and nonzero scalar, `/` and `//` return the same point. |
| `Points.Coords` | src/pose/util.py:32-34 | Unpacking a point yields a sequence of length 2. `Points.CoordsInjective` shows that this sequence determines the point. |
| `Points.CoordsInjective` | src/pose/util.py:32-34 | The unpacked pair `(x, y)` determines the point. |
| `Boxes.Fields` | src/pose/util.py:81-85 | Unpacking a box yields a sequence of length 4. `Boxes.FieldsInjective` shows that this sequence determines the box. |
| `Boxes.FieldsInjective` | src/pose/util.py:81-85 | The unpacked `(x, y, w, h)` determines the box. |
| `Boxes.Center` | src/pose/util.py:117-119 | The centre is offset from the top-left by the floor of half the size. When the size is non-negative, the centre lies between `top_left` and `bottom_right` on each axis, inclusive. |
| `Boxes.FromCorners` | src/pose/util.py:89-95 | The result has `w >= 0` and `h >= 0`. Its `top_left` is the component-wise min of the two corners, and its `bottom_right` the component-wise max. |
| `Boxes.FromCornersOrderIndependent` | src/pose/util.py:89-95 | Swapping the two corners gives the same box, and so does swapping only their x coordinates. |
| `Boxes.FromPoints` | src/pose/util.py:97-99 | The result has non-negative size. Its corners are the component-wise min and max of the two points. |
| `Boxes.FromPointsIsFromCorners` | src/pose/util.py:97-99 | `from_points(pa, pb) == from_corners(pa.x, pa.y, pb.x, pb.y)`. |
| `Boxes.FromOwnCorners` | src/pose/util.py:97-115 | A box of non-negative size is rebuilt exactly by `from_points(top_left, bottom_right)`. |
| `Boxes.FromCenter` | src/pose/util.py:101-103 | The result has size `w, h`, and its `center` is the given centre, for any sizes. |
| `Boxes.FromOwnCenter` | src/pose/util.py:101-119 | Every box is rebuilt exactly by `from_center(center, w, h)`. |
| `Boxes.ContainsPointExcludesCorners` | src/pose/util.py:121-122 | No box contains its own `top_left` or `bottom_right`. |
| `Boxes.ContainsPointExcludesEdges` | src/pose/util.py:121-122 | Containment is strict on all four edges: a point whose x equals `x` or `x + w`, or whose y equals `y` or `y + h`, is not contained. This covers the unstored corners `(x + w, y)` and `(x, y + h)`. |
| `Boxes.ThinBoxContainsNothing` | src/pose/util.py:121-122 | A box with `w < 2` or `h < 2` contains no point. That includes every box with `w == 0` or `h == 0`. |
| `Boxes.ContainsBoxContainsItsPoints` | src/pose/util.py:121-125 | If `a` contains box `b` and `b` contains a point, then `a` contains that point too. |
| `Boxes.ContainsBoxTransitive` | src/pose/util.py:124-125 | `contains_box` is transitive. |
| `Boxes.ContainsBoxIrreflexive` | src/pose/util.py:124-125 | No box contains itself. |
| `Boxes.IntersectsSymmetric` | src/pose/util.py:127-131 | `a.intersects(b) == b.intersects(a)`. |
| `Boxes.ContainsBoxImpliesIntersects` | src/pose/util.py:124-131 | `a.contains_box(b)` implies `a.intersects(b)`. |
| `Boxes.NoBoxIntersectsItself` | src/pose/util.py:127-131 | `b.intersects(b)` is false for every box. |
| `Boxes.CrossingBarsDoNotIntersect` | src/pose/util.py:127-131 | Two crossing bars both contain the point (5, 5), yet `intersects` is false for them. |
| `Boxes.Squarify` | src/pose/util.py:133-135 | The result has `w == h`, this side is one of the input's `w` and `h` and at least both, and the result has the same centre as the input. |
| `Boxes.SquarifyKeepsSquare` | src/pose/util.py:133-135 | A box with `w == h` is returned unchanged. |
| `Boxes.SquarifyIdempotent` | src/pose/util.py:133-135 | Squarifying twice gives the same box as squarifying once. |
| `Boxes.SquarifyCovers` | src/pose/util.py:133-135 | The square reaches at least as far as the input box on all four sides. |
| `Boxes.Clamp` | src/pose/util.py:137-142 | The result always has `w >= 0` and `h >= 0`. |
| `Boxes.ClampIgnoresMaxBoxSize` | src/pose/util.py:137-142 | The result depends only on `max_box.x` and `max_box.y`, never on `max_box.w` or `max_box.h`. |
| `Boxes.ClampSpans` | src/pose/util.py:137-142 | For a box of non-negative size, each axis of the result spans from `max_box`'s coordinate to the nearest point of the box's own span on that axis. |
| `Boxes.ClampCollapses` | src/pose/util.py:137-142 | If the box has non-negative width and `x <= max_box.x <= x + w`, the result has width 0. The same holds for the height. |
| `Boxes.ClampCorners` | src/pose/util.py:137-142 | For boxes of any size, the result's `top_left` is the component-wise min, and its `bottom_right` the component-wise max, of the two clamped corners. These are `(max(x, max_box.x), max(y, max_box.y))` and `(min(x + w, max_box.x), min(y + h, max_box.y))`. |
| `Boxes.ClampAgainstItselfAnySize` | src/pose/util.py:137-142 | For a box of any size, clamping it against itself gives the box at `(min(x, x + w), min(y, y + h))` of size `max(0, -w)` by `max(0, -h)`. An axis of negative size does not collapse; its two ends are swapped into place. |
| `Boxes.ClampAgainstItself` | src/pose/util.py:137-142 | Clamping a box of non-negative size against itself gives the box at its top-left corner with size 0. |
| `SampleValues.FloorDivSamples` | src/pose/util.py:27 | `7 // 2 == 3`, `-7 // 2 == -4`, `7 // -2 == -4` and `-7 // -2 == 3`. |
| `SampleValues.FromCornersSample` | src/pose/util.py:89-95 | `from_corners(2, 2, 10, 10)` and `from_corners(10, 10, 2, 2)` both give the box at (2, 2) of size 8 by 8. |
| `SampleValues.ContainsPointSamples` | src/pose/util.py:121-122 | The 10-by-10 box at the origin contains (5, 5) but not (0, 0) or (10, 10). |
| `SampleValues.ContainsBoxSample` | src/pose/util.py:124-125 | The 10-by-10 box at the origin contains the box from (2, 2) to (8, 8). |
| `SampleValues.CenterSample` | src/pose/util.py:117-119 | The centre of the 10-by-4 box at the origin is (5, 2). |
| `SampleValues.FromCenterSample` | src/pose/util.py:101-103 | The 10-by-10 box centred at (5, 2) has its top-left at (0, -3). |
| `SampleValues.MaxOfListSample` | src/pose/util.py:134 | `max([10, 4]) == 10`. |
| `SampleValues.SquarifySample` | src/pose/util.py:133-135 | Squarifying the 10-by-4 box at the origin gives the 10-by-10 box at (0, -3). |
| `SampleValues.NegativeSizeCenterSample` | src/pose/util.py:117-119 | The centre of a box of size -3 by -3 at the origin is (-2, -2): the half size is rounded toward negative infinity. |

Members without a contract of their own are listed below. Each one models
source lines directly, and the lemmas named beside it state its properties.

- `Points.Add` (src/pose/util.py:17-18): `Points.AddSubInverse`, `Points.SqrDistTranslationInvariant`.
- `Points.Sub` (src/pose/util.py:20-21): `Points.AddSubInverse`.
- `Points.Scale` (src/pose/util.py:23-24): `Points.ScaleThenFloorDivide`.
- `Boxes.TopLeft` (src/pose/util.py:105-107), `Boxes.SizeAsPoint` (src/pose/util.py:109-111) and `Boxes.BottomRight` (src/pose/util.py:113-115): `Boxes.FromCorners`, `Boxes.FromOwnCorners`, `Boxes.Center`, `Boxes.ClampCorners`.
- `Boxes.ContainsPoint` (src/pose/util.py:121-122): `Boxes.ContainsPointExcludesCorners`, `Boxes.ContainsPointExcludesEdges`, `Boxes.ThinBoxContainsNothing`, `Boxes.ContainsBoxContainsItsPoints`.
- `Boxes.ContainsBox` (src/pose/util.py:124-125): `Boxes.ContainsBoxTransitive`, `Boxes.ContainsBoxIrreflexive`, `Boxes.ContainsBoxImpliesIntersects`.
- `Boxes.ContainsEitherCorner` (src/pose/util.py:127-128) and `Boxes.Intersects` (src/pose/util.py:130-131): `Boxes.IntersectsSymmetric`, `Boxes.NoBoxIntersectsItself`, `Boxes.ContainsBoxImpliesIntersects`, `Boxes.CrossingBarsDoNotIntersect`.

## Left out

- `Point2D` (src/pose/util.py:39-70): its coordinates are floating point, and its operators return integer points built from float values. Floating-point arithmetic is not modelled.
- `dist_to` on both point types: it takes a floating-point square root through `math.sqrt`. Only the squared distance is modelled.
- `__repr__`: it only formats the point as a string for display.
- `Human2D.bbox`: the source leaves it unimplemented, so there is nothing to model. `Joint2D` and `Human2D` appear only as data records. The joint identifier's range 0-15 is not checked in the source and is not checked here.
- A zero divisor, for which `//` and `/` raise `ZeroDivisionError`: modelled as the precondition `scalar != 0` on `Points.FloorDivide`, `Points.TrueDivide` and `PyInt.FloorDiv`. The exception's propagation is not modelled.
- Python's dynamic typing: `clamp` accepts any object with `x` and `y` attributes as `max_box`. The model takes a `BoundingBox`, and `Boxes.ClampIgnoresMaxBoxSize` shows that only its `x` and `y` matter. The points' operators accept any operand with `x` and `y` or any number; the model takes integer points and integer scalars.
