/** Python's integer builtins that the geometry relies on: floor division
    `//` (which rounds toward negative infinity, and so differs from Dafny's
    Euclidean `/` when the divisor is negative), the two-argument `min` and
    `max`, and `max` over a list. */
module PyInt {

  /** The smaller of two integers, as Python's `min(a, b)`. */
  function Min(a: int, b: int): (r: int)
    ensures r <= a && r <= b
    ensures r == a || r == b
  {
    if b < a then b else a
  }

  /** The larger of two integers, as Python's `max(a, b)`. */
  function Max(a: int, b: int): (r: int)
    ensures a <= r && b <= r
    ensures r == a || r == b
  {
    if b > a then b else a
  }

  /** Python's `max` over a non-empty list: a left-to-right scan that keeps
      the first largest element and replaces it only by a strictly larger
      one. An empty list raises in Python and is excluded here. */
  function MaxOfList(s: seq<int>): (m: int)
    requires |s| > 0
    ensures m in s
    ensures forall i :: 0 <= i < |s| ==> s[i] <= m
  {
    if |s| == 1 then s[0]
    else
      var best := MaxOfList(s[..|s| - 1]);
      if s[|s| - 1] > best then s[|s| - 1] else best
  }

  /** `q` is the floor of the rational `a / b`: the remainder `a - b * q`
      has the sign of the divisor and is smaller than it in magnitude. */
  predicate IsFloorQuotient(a: int, b: int, q: int)
  {
    if b > 0 then b * q <= a < b * q + b
    else b < 0 && b * q + b < a <= b * q
  }

  /** Python's `a // b`. A zero divisor raises in Python; here it is
      excluded by the precondition. */
  function FloorDiv(a: int, b: int): (q: int)
    requires b != 0
    ensures IsFloorQuotient(a, b, q)
  {
    if b > 0 then a / b
    else
      var q := (-a) / (-b);
      assert (-b) * q <= -a < (-b) * q + (-b);
      q
  }

  /** A nonzero multiple of `b` is at least `b` away from zero, on `b`'s side. */
  lemma MultipleAtLeast(b: int, k: int)
    requires b != 0 && k >= 1
    ensures b > 0 ==> b * k >= b
    ensures b < 0 ==> b * k <= b
  {
    assert b * k == b + b * (k - 1);
    if b > 0 {
      assert b * (k - 1) >= 0;
    } else {
      assert (-b) * (k - 1) >= 0;
      assert b * (k - 1) == -((-b) * (k - 1));
    }
  }

  /** Two distinct integers cannot both be floor quotients. */
  lemma FloorQuotientOrdered(a: int, b: int, q1: int, q2: int)
    requires IsFloorQuotient(a, b, q1) && IsFloorQuotient(a, b, q2)
    ensures !(q1 < q2)
  {
    if q1 < q2 {
      assert b * q2 == b * q1 + b * (q2 - q1);
      MultipleAtLeast(b, q2 - q1);
    }
  }

  /** There is only one floor quotient. */
  lemma FloorQuotientUnique(a: int, b: int, q1: int, q2: int)
    requires IsFloorQuotient(a, b, q1) && IsFloorQuotient(a, b, q2)
    ensures q1 == q2
  {
    FloorQuotientOrdered(a, b, q1, q2);
    FloorQuotientOrdered(a, b, q2, q1);
  }

  /** Floor division undoes multiplication by the same nonzero divisor. */
  lemma FloorDivOfMultiple(a: int, s: int)
    requires s != 0
    ensures FloorDiv(a * s, s) == a
  {
    assert s * a == a * s;
    assert IsFloorQuotient(a * s, s, a);
    FloorQuotientUnique(a * s, s, FloorDiv(a * s, s), a);
  }

  /** With a positive divisor, Python's `//` and Dafny's `/` agree. */
  lemma FloorDivPositive(a: int, b: int)
    requires b > 0
    ensures FloorDiv(a, b) == a / b
  {
  }

  /** Floor division by a positive divisor is monotone in the dividend. */
  lemma FloorDivMonotone(a1: int, a2: int, b: int)
    requires b > 0 && a1 <= a2
    ensures FloorDiv(a1, b) <= FloorDiv(a2, b)
  {
    var q1, q2 := FloorDiv(a1, b), FloorDiv(a2, b);
    if q2 < q1 {
      assert b * q1 == b * q2 + b * (q1 - q2);
      MultipleAtLeast(b, q1 - q2);
    }
  }
}
