/**
  The collection demo of the console program: build a polygon from each row
  of a fixed table of side lengths, keep the ones the constructor accepts,
  and sort two copies of the result, one by area and one by perimeter then
  area. Printing is not modelled.
 */
module Demo {
  import opened Lang
  import opened Geometry
  import opened Ordering

  /** `createPolygon(sides)`: nothing but `new Polygon(sides)`. */
  method CreatePolygon(sides: seq<real>, sqrt: real -> real) returns (r: Result<Polygon>)
    ensures r.Ok? <==> ValidSides(sides)
    ensures r.Ok? ==> r.value.sides == sides && r.value.area == HeronArea(sides, sqrt)
    ensures r == PolygonFromSides(sides, sqrt)
  {
    r := NewPolygonFromSides(sides, sqrt);
  }

  /** The polygons the demo keeps: one per row the constructor accepts, in
      row order; a rejected row is skipped. */
  function Successes(data: seq<seq<real>>, sqrt: real -> real): (r: seq<Polygon>)
    ensures |r| <= |data|
    decreases |data|
  {
    if |data| == 0 then []
    else
      var kept := Successes(data[..|data| - 1], sqrt);
      match PolygonFromSides(data[|data| - 1], sqrt)
      case Ok(p) => kept + [p]
      case Err(_) => kept
  }

  /** Every kept polygon is legal and carries the area its sides give. */
  lemma {:induction false} SuccessesValid(data: seq<seq<real>>, sqrt: real -> real)
    ensures forall p :: p in Successes(data, sqrt) ==>
              ValidSides(p.sides) && p.area == HeronArea(p.sides, sqrt) && p.sides in data
    decreases |data|
  {
    if |data| > 0 {
      var init := data[..|data| - 1];
      SuccessesValid(init, sqrt);
      assert forall s :: s in init ==> s in data;
    }
  }

  /** When every row is legal nothing is skipped: row `i` becomes polygon `i`. */
  lemma {:induction false} SuccessesAllLegal(data: seq<seq<real>>, sqrt: real -> real)
    requires forall i :: 0 <= i < |data| ==> ValidSides(data[i])
    ensures |Successes(data, sqrt)| == |data|
    ensures forall i :: 0 <= i < |data| ==>
              Successes(data, sqrt)[i] == Polygon(data[i], HeronArea(data[i], sqrt))
    decreases |data|
  {
    if |data| > 0 {
      var init := data[..|data| - 1];
      SuccessesAllLegal(init, sqrt);
    }
  }

  /** A row the constructor rejects adds nothing. */
  lemma SuccessesSkipRejected(data: seq<seq<real>>, sides: seq<real>, sqrt: real -> real)
    requires !ValidSides(sides)
    ensures Successes(data + [sides], sqrt) == Successes(data, sqrt)
  {
    assert (data + [sides])[..|data|] == data;
  }

  /** The demo's loop: try each row, append what succeeds. */
  method CollectPolygons(data: seq<seq<real>>, sqrt: real -> real) returns (polygons: seq<Polygon>)
    ensures polygons == Successes(data, sqrt)
  {
    polygons := [];
    for i := 0 to |data|
      invariant polygons == Successes(data[..i], sqrt)
    {
      assert data[..i + 1][..i] == data[..i];
      var p := CreatePolygon(data[i], sqrt);
      if p.Ok? {
        polygons := polygons + [p.value];
      }
    }
    assert data[..|data|] == data;
  }

  /** The table of side lengths the demo uses. */
  function TestData(): seq<seq<real>> {
    [[3.0, 4.0, 5.0], [5.0, 5.0, 5.0], [2.0, 2.0, 3.0, 4.0], [6.0, 8.0, 10.0], [1.0, 1.0, 1.0]]
  }

  /** Every row of the table is a legal polygon, so the demo keeps all five;
      the quadrilateral is the one whose area is unknown. */
  lemma TestDataAccepted(sqrt: real -> real)
    requires SqrtNonNegative(sqrt)
    ensures |Successes(TestData(), sqrt)| == 5
    ensures forall i :: 0 <= i < 5 ==> Successes(TestData(), sqrt)[i].sides == TestData()[i]
    ensures forall i :: 0 <= i < 5 ==> (Successes(TestData(), sqrt)[i].area == UnknownArea <==> i == 2)
  {
    var data := TestData();
    SumOfThree(data[0]);
    SumOfThree(data[1]);
    SumOfFour(data[2]);
    SumOfThree(data[3]);
    SumOfThree(data[4]);
    SuccessesAllLegal(data, sqrt);
    forall i | 0 <= i < 5
      ensures HeronArea(data[i], sqrt) == UnknownArea <==> i == 2
    {
      HeronAreaKnownIffTriangle(data[i], sqrt);
    }
  }

  lemma SumOfThree(s: seq<real>)
    requires |s| == 3
    ensures Sum(s) == s[0] + s[1] + s[2]
  {
    var two := s[..2];
    var one := two[..1];
    assert Sum(one) == Sum(one[..0]) + one[0] == s[0];
    assert Sum(two) == Sum(one) + two[1];
    assert Sum(s) == Sum(two) + s[2];
  }

  lemma SumOfFour(s: seq<real>)
    requires |s| == 4
    ensures Sum(s) == s[0] + s[1] + s[2] + s[3]
  {
    SumOfThree(s[..3]);
  }

  /** `demonstratePolygonsCollection` without its printing: the kept
      polygons, a copy sorted with `Collections.sort` (by area), and a copy
      sorted by perimeter then area. Both sorts are stable sorted
      permutations of the list, which itself keeps its order. */
  method DemonstratePolygonsCollection(sqrt: real -> real)
    returns (polygons: seq<Polygon>, byArea: seq<Polygon>, byPerimeterThenArea: seq<Polygon>)
    ensures polygons == Successes(TestData(), sqrt)
    ensures Sorted(ByArea, byArea) && multiset(byArea) == multiset(polygons)
    ensures forall pivot :: Ties(ByArea, byArea, pivot) == Ties(ByArea, polygons, pivot)
    ensures Sorted(ByPerimeterThenArea, byPerimeterThenArea)
    ensures multiset(byPerimeterThenArea) == multiset(polygons)
    ensures forall pivot ::
              Ties(ByPerimeterThenArea, byPerimeterThenArea, pivot) == Ties(ByPerimeterThenArea, polygons, pivot)
  {
    polygons := CollectPolygons(TestData(), sqrt);
    byArea := StableSort(ByArea, polygons);
    byPerimeterThenArea := StableSort(ByPerimeterThenArea, polygons);
  }
}
