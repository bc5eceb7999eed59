/**
  The geometry core: a polygon is an immutable value holding its side lengths
  and its area, built either from a list of side lengths or from a list of
  integer vertices. Construction is all-or-nothing: the sides must number at
  least three, be positive, and each be strictly shorter than the sum of the
  others (the generalized polygon inequality).

  `Math.sqrt` is a foreign numeric routine; it is a parameter `sqrt` here, and
  the only thing ever assumed of it is that it does not return a negative
  number for a non-negative argument (and only where a lemma says so).
 */
module Geometry {
  import opened Lang

  /** One row `{x, y}` of the source's `int[][]` vertex array. */
  datatype Point = Point(x: Int32, y: Int32)

  /** The immutable polygon: its `final` sides and `final` area. */
  datatype Polygon = Polygon(sides: seq<real>, area: real)

  /** The area of a polygon whose area cannot be derived from side lengths alone. */
  const UnknownArea: real := -1.0

  ghost predicate SqrtNonNegative(sqrt: real -> real) {
    forall x :: 0.0 <= x ==> 0.0 <= sqrt(x)
  }

  /** The sum of the sides, added left to right (`Arrays.stream(sides).sum()`). */
  function Sum(s: seq<real>): real
    decreases |s|
  {
    if |s| == 0 then 0.0 else Sum(s[..|s| - 1]) + s[|s| - 1]
  }

  /** What a legal side list is, stated declaratively. */
  predicate ValidSides(s: seq<real>) {
    && |s| >= 3
    && (forall i :: 0 <= i < |s| ==> 0.0 < s[i])
    && (forall i :: 0 <= i < |s| ==> s[i] < Sum(s) - s[i])
  }

  /** The first index at or after `from` holding a non-positive side, or `|s|`. */
  function FirstNonPositive(s: seq<real>, from: nat): (k: nat)
    requires from <= |s|
    ensures from <= k <= |s|
    ensures forall i :: from <= i < k ==> 0.0 < s[i]
    ensures k < |s| ==> s[k] <= 0.0
    decreases |s| - from
  {
    if from == |s| || s[from] <= 0.0 then from else FirstNonPositive(s, from + 1)
  }

  /** The first index at or after `from` whose side is not shorter than the rest
      of `perimeter`, or `|s|`. */
  function FirstViolation(s: seq<real>, perimeter: real, from: nat): (k: nat)
    requires from <= |s|
    ensures from <= k <= |s|
    ensures forall i :: from <= i < k ==> s[i] < perimeter - s[i]
    ensures k < |s| ==> perimeter - s[k] <= s[k]
    decreases |s| - from
  {
    if from == |s| || perimeter - s[from] <= s[from] then from
    else FirstViolation(s, perimeter, from + 1)
  }

  /** The verdict `validateSides` reaches: too few sides first, then the first
      non-positive side, then the first side that breaks the inequality. */
  function SidesVerdict(s: seq<real>): (v: Outcome)
    ensures v == Pass <==> ValidSides(s)
    ensures v == Fail(TooFewSides) <==> |s| < 3
    ensures v.Fail? && v.fault.NonPositiveSide? ==>
              var k := v.fault.side;
              && 3 <= |s| && 1 <= k <= |s| && s[k - 1] <= 0.0
              && forall i :: 0 <= i < k - 1 ==> 0.0 < s[i]
    ensures v.Fail? && v.fault.InequalityViolated? ==>
              var k := v.fault.side;
              && 3 <= |s| && 1 <= k <= |s| && Sum(s) - s[k - 1] <= s[k - 1]
              && (forall i :: 0 <= i < |s| ==> 0.0 < s[i])
              && forall i :: 0 <= i < k - 1 ==> s[i] < Sum(s) - s[i]
    ensures v.Fail? ==> v.fault.TooFewSides? || v.fault.NonPositiveSide? || v.fault.InequalityViolated?
  {
    if |s| < 3 then Fail(TooFewSides)
    else
      var k := FirstNonPositive(s, 0);
      if k < |s| then Fail(NonPositiveSide(k + 1))
      else
        var m := FirstViolation(s, Sum(s), 0);
        if m < |s| then Fail(InequalityViolated(m + 1)) else Pass
  }

  /** `validateSides`: returns normally exactly when the sides are legal, and
      otherwise reports what `SidesVerdict` reports. */
  method ValidateSides(sides: seq<real>) returns (verdict: Outcome)
    ensures verdict == SidesVerdict(sides)
  {
    if |sides| < 3 {
      return Fail(TooFewSides);
    }
    var i := 0;
    while i < |sides|
      invariant 0 <= i <= |sides|
      invariant forall j :: 0 <= j < i ==> 0.0 < sides[j]
    {
      if sides[i] <= 0.0 {
        return Fail(NonPositiveSide(i + 1));
      }
      i := i + 1;
    }
    var perim := Sum(sides);
    i := 0;
    while i < |sides|
      invariant 0 <= i <= |sides|
      invariant forall j :: 0 <= j < i ==> sides[j] < perim - sides[j]
    {
      if sides[i] >= perim - sides[i] {
        return Fail(InequalityViolated(i + 1));
      }
      i := i + 1;
    }
    return Pass;
  }

  /** Heron's formula for a triangle; any other side count has no area. */
  function HeronArea(s: seq<real>, sqrt: real -> real): real {
    if |s| == 3 then
      var p := (s[0] + s[1] + s[2]) / 2.0;
      sqrt(p * (p - s[0]) * (p - s[1]) * (p - s[2]))
    else UnknownArea
  }

  /** A legal triangle makes Heron's radicand strictly positive, so the square
      root is taken of a positive number. */
  lemma HeronRadicandPositive(s: seq<real>)
    requires ValidSides(s) && |s| == 3
    ensures var p := (s[0] + s[1] + s[2]) / 2.0;
            p * (p - s[0]) * (p - s[1]) * (p - s[2]) > 0.0
  {
    var a, b, c := s[0], s[1], s[2];
    assert Sum(s) == a + b + c by {
      assert s[..1][..0] == [];
      assert Sum(s[..1]) == a;
      assert s[..2][..1] == s[..1];
      assert Sum(s[..2]) == a + b;
      assert s[..|s| - 1] == s[..2];
    }
    var p := (a + b + c) / 2.0;
    var pa, pb, pc := p - a, p - b, p - c;
    assert p > 0.0 && pa > 0.0 && pb > 0.0 && pc > 0.0;
    assert p * pa > 0.0;
    assert p * pa * pb > 0.0;
    assert p * pa * pb * pc > 0.0;
  }

  /** Area from sides is known exactly for triangles, and the sentinel otherwise. */
  lemma HeronAreaKnownIffTriangle(s: seq<real>, sqrt: real -> real)
    requires ValidSides(s) && SqrtNonNegative(sqrt)
    ensures HeronArea(s, sqrt) == UnknownArea <==> |s| != 3
    ensures |s| == 3 ==> 0.0 <= HeronArea(s, sqrt)
  {
    if |s| == 3 {
      HeronRadicandPositive(s);
    }
  }

  /** `new Polygon(double[] sides)`: validate, then keep a copy of the sides and
      the area from sides. */
  function PolygonFromSides(s: seq<real>, sqrt: real -> real): (r: Result<Polygon>)
    ensures r.Ok? <==> ValidSides(s)
    ensures r.Ok? ==> r.value.sides == s && r.value.area == HeronArea(s, sqrt)
    ensures r.Err? ==> r.error == InvalidPolygon(SidesVerdict(s).fault)
  {
    match SidesVerdict(s)
    case Fail(f) => Err(InvalidPolygon(f))
    case Pass => Ok(Polygon(s, HeronArea(s, sqrt)))
  }

  method NewPolygonFromSides(sides: seq<real>, sqrt: real -> real) returns (r: Result<Polygon>)
    ensures r == PolygonFromSides(sides, sqrt)
  {
    var verdict := ValidateSides(sides);
    if verdict.Fail? {
      return Err(InvalidPolygon(verdict.fault));
    }
    r := Ok(Polygon(sides, HeronArea(sides, sqrt)));
  }

  /** The length of the edge from `p` to `q`; the coordinate differences are
      Java `int` subtractions. */
  function EdgeLength(p: Point, q: Point, sqrt: real -> real): real {
    sqrt(SquaredDistance(p, q))
  }

  function SquaredDistance(p: Point, q: Point): real {
    SquaredLength(Delta(p.x, q.x), Delta(p.y, q.y))
  }

  /** `b - a` as a Java `int` subtraction. */
  function Delta(a: Int32, b: Int32): Int32 {
    Wrap(b - a)
  }

  function SquaredLength(dx: Int32, dy: Int32): real {
    (dx as real) * (dx as real) + (dy as real) * (dy as real)
  }

  /** The vertex after vertex `i` of `n`, wrapping around to vertex 0: the
      source's `(i + 1) % n` (see `NextIsModulo`). */
  function Next(i: nat, n: nat): (j: nat)
    requires i < n
    ensures j < n
  {
    if i + 1 < n then i + 1 else 0
  }

  lemma NextIsModulo(i: nat, n: nat)
    requires i < n
    ensures Next(i, n) == (i + 1) % n
  {
  }

  /** Side `i` joins vertex `i` to vertex `(i + 1) mod n`. */
  function EdgeLengths(c: seq<Point>, sqrt: real -> real): seq<real> {
    seq(|c|, i requires 0 <= i < |c| => EdgeLength(c[i], c[Next(i, |c|)], sqrt))
  }

  /** The term vertex `i` contributes to the shoelace sum, with both products
      taken exactly (see `WrittenShoelaceArea` for the `int` products the
      source actually multiplies). */
  function Cross(c: seq<Point>, i: nat): int
    requires i < |c|
  {
    CrossOf(c[i], c[Next(i, |c|)])
  }

  function CrossOf(p: Point, q: Point): int {
    p.x * q.y - q.x * p.y
  }

  function CrossTerms(c: seq<Point>): seq<int> {
    seq(|c|, i requires 0 <= i < |c| => Cross(c, i))
  }

  function SumInts(s: seq<int>): int
    decreases |s|
  {
    if |s| == 0 then 0 else SumInts(s[..|s| - 1]) + s[|s| - 1]
  }

  function Abs(x: real): real {
    if x < 0.0 then -x else x
  }

  /** The shoelace area: the absolute value of the whole sum, taken once, halved. */
  function ShoelaceArea(c: seq<Point>): (a: real)
    ensures 0.0 <= a
  {
    Abs(SumInts(CrossTerms(c)) as real) / 2.0
  }

  /** `computeAreaFromCoordinates`. */
  method ComputeAreaFromCoordinates(coords: seq<Point>) returns (area: real)
    ensures area == ShoelaceArea(coords)
  {
    var n := |coords|;
    var acc := 0.0;
    for i := 0 to n
      invariant acc == SumInts(CrossTerms(coords)[..i]) as real
    {
      var j := (i + 1) % n;
      NextIsModulo(i, n);
      assert CrossTerms(coords)[..i + 1][..i] == CrossTerms(coords)[..i];
      acc := acc + (coords[i].x * coords[j].y) as real;
      acc := acc - (coords[j].x * coords[i].y) as real;
    }
    assert CrossTerms(coords)[..n] == CrossTerms(coords);
    area := Abs(acc) / 2.0;
  }

  lemma {:induction false} SumIntsAppend(a: seq<int>, b: seq<int>)
    ensures SumInts(a + b) == SumInts(a) + SumInts(b)
    decreases |b|
  {
    if |b| > 0 {
      SumIntsAppend(a, b[..|b| - 1]);
      assert (a + b)[..|a + b| - 1] == a + b[..|b| - 1];
    } else {
      assert a + b == a;
    }
  }

  function Negated(s: seq<int>): seq<int> {
    seq(|s|, i requires 0 <= i < |s| => -s[i])
  }

  function ReversedInts(s: seq<int>): seq<int> {
    seq(|s|, i requires 0 <= i < |s| => s[|s| - 1 - i])
  }

  lemma {:induction false} SumIntsNegated(s: seq<int>)
    ensures SumInts(Negated(s)) == -SumInts(s)
    decreases |s|
  {
    if |s| > 0 {
      SumIntsNegated(s[..|s| - 1]);
      assert Negated(s)[..|s| - 1] == Negated(s[..|s| - 1]);
    }
  }

  lemma {:induction false} SumIntsReversed(s: seq<int>)
    ensures SumInts(ReversedInts(s)) == SumInts(s)
    decreases |s|
  {
    if |s| > 0 {
      var init := s[..|s| - 1];
      SumIntsReversed(init);
      assert ReversedInts(s) == [s[|s| - 1]] + ReversedInts(init);
      SumIntsAppend([s[|s| - 1]], ReversedInts(init));
      assert SumInts([s[|s| - 1]]) == s[|s| - 1] by {
        assert [s[|s| - 1]][..0] == [];
      }
    }
  }

  function Reversed(c: seq<Point>): seq<Point> {
    seq(|c|, i requires 0 <= i < |c| => c[|c| - 1 - i])
  }

  /** Each term of the reversed polygon is a negated term of the original:
      the inner terms in reverse order, the wrap-around term in place. */
  lemma CrossTermsReversed(c: seq<Point>)
    requires |c| >= 1
    ensures var t := CrossTerms(c);
            CrossTerms(Reversed(c)) == Negated(ReversedInts(t[..|c| - 1]) + [t[|c| - 1]])
  {
    var n := |c|;
    var t := CrossTerms(c);
    var r := Reversed(c);
    var inner := ReversedInts(t[..n - 1]) + [t[n - 1]];
    forall i | 0 <= i < n
      ensures CrossTerms(r)[i] == Negated(inner)[i]
    {
      CrossReversedAt(c, i);
      if i < n - 1 {
        assert inner[i] == t[..n - 1][n - 2 - i];
      }
    }
  }

  lemma CrossReversedAt(c: seq<Point>, i: nat)
    requires i < |c|
    ensures Cross(Reversed(c), i) == -Cross(c, if i < |c| - 1 then |c| - 2 - i else |c| - 1)
  {
    var n := |c|;
    var r := Reversed(c);
    if i < n - 1 {
      var k := n - 2 - i;
      assert r[i] == c[k + 1] && r[i + 1] == c[k];
    } else {
      assert r[i] == c[0] && r[0] == c[n - 1];
    }
  }

  /** Walking the vertices in the opposite direction does not change the area:
      the sum changes sign, and the absolute value is taken once. */
  lemma ShoelaceReversal(c: seq<Point>)
    ensures ShoelaceArea(Reversed(c)) == ShoelaceArea(c)
  {
    var n := |c|;
    if n == 0 {
      assert Reversed(c) == c;
    } else {
      var t := CrossTerms(c);
      CrossTermsReversed(c);
      var inner := ReversedInts(t[..n - 1]) + [t[n - 1]];
      SumIntsNegated(inner);
      SumIntsAppend(ReversedInts(t[..n - 1]), [t[n - 1]]);
      SumIntsReversed(t[..n - 1]);
      assert t == t[..n - 1] + [t[n - 1]];
      SumIntsAppend(t[..n - 1], [t[n - 1]]);
      assert SumInts(CrossTerms(Reversed(c))) == -SumInts(t);
    }
  }

  /** The shoelace area as `computeAreaFromCoordinates` is written: each
      product is an `int` multiplication, which wraps before it reaches the
      `double` sum. */
  function WrittenShoelaceArea(c: seq<Point>): (a: real)
    ensures 0.0 <= a
  {
    Abs(SumInts(WrittenCrossTerms(c)) as real) / 2.0
  }

  function WrittenCrossTerms(c: seq<Point>): seq<int> {
    seq(|c|, i requires 0 <= i < |c| => WrittenCrossOf(c[i], c[Next(i, |c|)]))
  }

  function WrittenCrossOf(p: Point, q: Point): int {
    Wrap(p.x * q.y) - Wrap(q.x * p.y)
  }

  /** The right triangle with legs of length `k` along the axes. */
  function RightTriangle(k: Int32): seq<Point> {
    [Point(0, 0), Point(k, 0), Point(0, k)]
  }

  /** Its shoelace area is `k * k / 2`; the source's area is that of the
      wrapped product `k * k` instead. */
  lemma RightTriangleAreas(k: Int32)
    ensures ShoelaceArea(RightTriangle(k)) == (k * k) as real / 2.0
    ensures WrittenShoelaceArea(RightTriangle(k)) == Abs(Wrap(k * k) as real) / 2.0
  {
    RightTriangleTerms(k);
    RightTriangleWrittenTerms(k);
    SumOfThreeInts(0, k * k, 0);
    SumOfThreeInts(0, Wrap(k * k), 0);
  }

  lemma RightTriangleTerms(k: Int32)
    ensures CrossTerms(RightTriangle(k)) == [0, k * k, 0]
  {
  }

  lemma RightTriangleWrittenTerms(k: Int32)
    ensures WrittenCrossTerms(RightTriangle(k)) == [0, Wrap(k * k), 0]
  {
    assert Wrap(0) == 0;
  }

  /** With legs of 65536 the product is 2^32, which wraps to zero: the source
      reports area 0 where the shoelace formula gives 2^31. */
  lemma ShoelaceProductOverflow()
    ensures WrittenShoelaceArea(RightTriangle(65536)) == 0.0
    ensures ShoelaceArea(RightTriangle(65536)) == 2147483648.0
  {
    RightTriangleAreas(65536);
    WrappedSquare();
  }

  /** 2^16 times 2^16 is 2^32, which wraps to zero. */
  lemma WrappedSquare()
    ensures Wrap(65536 * 65536) == 0
  {
    WrapCongruent(65536 * 65536, 0);
  }

  lemma SumOfThreeInts(a: int, b: int, c: int)
    ensures SumInts([a, b, c]) == a + b + c
  {
    assert SumInts([a]) == a by {
      assert [a][..0] == [];
    }
    assert SumInts([a, b]) == a + b by {
      assert [a, b][..1] == [a];
    }
    assert [a, b, c][..2] == [a, b];
  }

  /** While every coordinate stays within 46340 of zero, no product leaves the
      `int` range and the source's area is the shoelace area. */
  lemma WrittenShoelaceWithoutOverflow(c: seq<Point>)
    requires forall i :: 0 <= i < |c| ==> Small(c[i])
    ensures WrittenShoelaceArea(c) == ShoelaceArea(c)
  {
    forall i | 0 <= i < |c|
      ensures WrittenCrossTerms(c)[i] == CrossTerms(c)[i]
    {
      var p, q := c[i], c[Next(i, |c|)];
      ProductFits(p.x, q.y);
      ProductFits(q.x, p.y);
    }
    assert WrittenCrossTerms(c) == CrossTerms(c);
  }

  predicate Small(p: Point) {
    -46340 <= p.x <= 46340 && -46340 <= p.y <= 46340
  }

  lemma ProductFits(a: int, b: int)
    requires -46340 <= a <= 46340 && -46340 <= b <= 46340
    ensures IntMin <= a * b <= IntMax
  {
    var m := if a < 0 then -a else a;
    var n := if b < 0 then -b else b;
    ProductBound(m, n);
    if a < 0 {
      if b < 0 {
        assert a * b == m * n;
      } else {
        assert a * b == -(m * n);
      }
    } else if b < 0 {
      assert a * b == -(m * n);
    } else {
      assert a * b == m * n;
    }
  }

  lemma ProductBound(m: nat, n: nat)
    requires m <= 46340 && n <= 46340
    ensures m * n <= 46340 * 46340
  {
    assert (46340 - m) * n >= 0;
    assert 46340 * n - m * n == (46340 - m) * n;
    assert 46340 * (46340 - n) >= 0;
  }

  /** `new Polygon(int[][] coordinates)`: at least three vertices, sides from
      consecutive vertices (wrapping around), the same validation, and the
      shoelace area. */
  function PolygonFromVertices(c: seq<Point>, sqrt: real -> real): (r: Result<Polygon>)
    ensures r.Ok? <==> |c| >= 3 && ValidSides(EdgeLengths(c, sqrt))
    ensures |c| < 3 ==> r == Err(InvalidPolygon(TooFewVertices))
    ensures r.Ok? ==> r.value.sides == EdgeLengths(c, sqrt) && |r.value.sides| == |c|
    ensures r.Ok? ==> r.value.area == ShoelaceArea(c) && 0.0 <= r.value.area
    ensures 3 <= |c| && r.Err? ==> r.error == InvalidPolygon(SidesVerdict(EdgeLengths(c, sqrt)).fault)
  {
    if |c| < 3 then Err(InvalidPolygon(TooFewVertices))
    else
      var sides := EdgeLengths(c, sqrt);
      match SidesVerdict(sides)
      case Fail(f) => Err(InvalidPolygon(f))
      case Pass => Ok(Polygon(sides, ShoelaceArea(c)))
  }

  method NewPolygonFromVertices(coordinates: seq<Point>, sqrt: real -> real) returns (r: Result<Polygon>)
    ensures r == PolygonFromVertices(coordinates, sqrt)
  {
    if |coordinates| < 3 {
      return Err(InvalidPolygon(TooFewVertices));
    }
    var computedSides := ComputeSides(coordinates, sqrt);
    var verdict := ValidateSides(computedSides[..]);
    if verdict.Fail? {
      return Err(InvalidPolygon(verdict.fault));
    }
    var area := ComputeAreaFromCoordinates(coordinates);
    r := Ok(Polygon(computedSides[..], area));
  }

  /** The side-length loop of the vertex constructor: side `i` runs from vertex
      `i` to the next one, wrapping around to vertex 0 after the last. */
  method ComputeSides(coordinates: seq<Point>, sqrt: real -> real) returns (computedSides: array<real>)
    ensures fresh(computedSides)
    ensures computedSides[..] == EdgeLengths(coordinates, sqrt)
  {
    var n := |coordinates|;
    computedSides := new real[n];
    for i := 0 to n
      invariant forall j :: 0 <= j < i ==> computedSides[j] == EdgeLengths(coordinates, sqrt)[j]
    {
      var p1 := coordinates[i];
      var p2 := coordinates[(i + 1) % n];
      NextIsModulo(i, n);
      var dx := Wrap(p2.x - p1.x);
      var dy := Wrap(p2.y - p1.y);
      var side := sqrt(SquaredLength(dx, dy));
      EdgeLengthAt(coordinates, sqrt, i);
      computedSides[i] := side;
    }
  }

  lemma EdgeLengthAt(c: seq<Point>, sqrt: real -> real, i: nat)
    requires i < |c|
    ensures var p, q := c[i], c[Next(i, |c|)];
            EdgeLengths(c, sqrt)[i] == sqrt(SquaredLength(Wrap(q.x - p.x), Wrap(q.y - p.y)))
  {
  }

  /** Shifting every vertex by the same `int` offset leaves every side length
      as it was, so a moved figure's stored sides still describe it. */
  lemma EdgeLengthsTranslated(c: seq<Point>, dx: Int32, dy: Int32, sqrt: real -> real)
    ensures EdgeLengths(Translated(c, dx, dy), sqrt) == EdgeLengths(c, sqrt)
  {
    var t := Translated(c, dx, dy);
    var a, b := EdgeLengths(t, sqrt), EdgeLengths(c, sqrt);
    forall i | 0 <= i < |c|
      ensures a[i] == b[i]
    {
      EdgeLengthsTranslatedAt(c, dx, dy, sqrt, i);
    }
    assert |a| == |b|;
  }

  lemma EdgeLengthsTranslatedAt(c: seq<Point>, dx: Int32, dy: Int32, sqrt: real -> real, i: nat)
    requires i < |c|
    ensures EdgeLengths(Translated(c, dx, dy), sqrt)[i] == EdgeLengths(c, sqrt)[i]
  {
    var t := Translated(c, dx, dy);
    var j := Next(i, |c|);
    DeltaTranslated(c[i].x, c[j].x, dx);
    DeltaTranslated(c[i].y, c[j].y, dy);
    assert SquaredDistance(t[i], t[j]) == SquaredDistance(c[i], c[j]);
  }

  lemma DeltaTranslated(a: Int32, b: Int32, d: Int32)
    ensures Delta(Wrap(a + d), Wrap(b + d)) == Delta(a, b)
  {
    WrapDifferenceTranslated(a, b, d);
  }

  /** Every vertex shifted by `(dx, dy)` with Java `int` addition. */
  function Translated(c: seq<Point>, dx: Int32, dy: Int32): (r: seq<Point>)
    ensures |r| == |c|
  {
    seq(|c|, i requires 0 <= i < |c| => Point(Wrap(c[i].x + dx), Wrap(c[i].y + dy)))
  }

  /** Moving back by the opposite offset undoes a move, even across overflow. */
  lemma TranslatedInverse(c: seq<Point>, dx: Int32, dy: Int32)
    requires IntMin < dx && IntMin < dy
    ensures Translated(Translated(c, dx, dy), -dx, -dy) == c
  {
    forall i | 0 <= i < |c|
      ensures Translated(Translated(c, dx, dy), -dx, -dy)[i] == c[i]
    {
      WrapAddInverse(c[i].x, dx);
      WrapAddInverse(c[i].y, dy);
    }
  }

  /** `getPerimeter`: the sum of the sides; for a legal polygon it is positive
      and more than twice every side. */
  function Perimeter(p: Polygon): (r: real)
    ensures ValidSides(p.sides) ==> 0.0 < r
    ensures ValidSides(p.sides) ==> forall i :: 0 <= i < |p.sides| ==> 2.0 * p.sides[i] < r
  {
    if ValidSides(p.sides) then SumPositive(p.sides); Sum(p.sides) else Sum(p.sides)
  }

  lemma {:induction false} SumPositive(s: seq<real>)
    requires |s| > 0 && forall i :: 0 <= i < |s| ==> 0.0 < s[i]
    ensures 0.0 < Sum(s)
    decreases |s|
  {
    if |s| > 1 {
      SumPositive(s[..|s| - 1]);
    }
  }

  /** `getSides` hands out a copy; a sequence value is one. */
  function Sides(p: Polygon): seq<real> {
    p.sides
  }

  /** `getSideCount`: the length of what `getSides` returns. */
  function SideCount(p: Polygon): (r: nat)
    ensures r == |Sides(p)|
  {
    |p.sides|
  }

  /** What the two getters report of a constructed polygon: the sides it was
      given, or one edge length per vertex, and never fewer than three. */
  lemma BuiltPolygonSides(s: seq<real>, c: seq<Point>, sqrt: real -> real)
    ensures PolygonFromSides(s, sqrt).Ok? ==>
              Sides(PolygonFromSides(s, sqrt).value) == s
              && SideCount(PolygonFromSides(s, sqrt).value) == |s| >= 3
    ensures PolygonFromVertices(c, sqrt).Ok? ==>
              Sides(PolygonFromVertices(c, sqrt).value) == EdgeLengths(c, sqrt)
              && SideCount(PolygonFromVertices(c, sqrt).value) == |c| >= 3
  {
  }
}
