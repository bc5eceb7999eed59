/**
  The two orderings the demo sorts by, and the stable sort that applies them.

  `Polygon.compareTo` compares effective areas with `Double.compare`, where a
  polygon whose area is unknown (the negative sentinel) counts as having area
  `Double.MAX_VALUE`. The demo's second comparator compares perimeters first
  and breaks ties with the same effective area. Both library sorts the demo
  calls (`Collections.sort`, `List.sort`) promise a stable sort; here that sort
  is an insertion sort, proved sorted, a permutation of its input, and stable.
 */
module Ordering {
  import opened Lang
  import opened Geometry

  /** `Double.MAX_VALUE`, (2 - 2^-52) * 2^1023, written out. */
  const MaxDouble: real := 179769313486231570814527423731704356798070567525844996598917476803157260780028538760589558632766878171540458953514382464234321326889464182768467546703537516986049910576551282076245490090389328944075868508455133942304583236903222948165808559332123348274797826204144723168738177180919299881250404026184124858368.0

  /** The area a polygon is ordered by: unknown areas move to the far end. */
  function EffectiveArea(p: Polygon): real {
    if p.area < 0.0 then MaxDouble else p.area
  }

  /** `Double.compare` on numbers (no NaN, no signed zero): -1, 0 or 1. */
  function CompareReals(a: real, b: real): (c: int)
    ensures c == -1 <==> a < b
    ensures c == 0 <==> a == b
    ensures c == 1 <==> b < a
  {
    if a < b then -1 else if a == b then 0 else 1
  }

  /** `Polygon.compareTo`. */
  function CompareTo(p: Polygon, q: Polygon): (c: int)
    ensures c == -CompareReals(EffectiveArea(q), EffectiveArea(p))
    ensures p.area < 0.0 && q.area < 0.0 ==> c == 0
    ensures p.area < 0.0 && 0.0 <= q.area <= MaxDouble ==> 0 <= c
    ensures p.area < 0.0 && 0.0 <= q.area < MaxDouble ==> c == 1
    ensures 0.0 <= p.area && 0.0 <= q.area ==> c == CompareReals(p.area, q.area)
  {
    CompareReals(EffectiveArea(p), EffectiveArea(q))
  }

  /** The two orders of the demo: `compareTo`, and perimeter then area. */
  datatype Order = ByArea | ByPerimeterThenArea

  /** A sort key: compared on `major` first, then on `minor`. */
  datatype Key = Key(major: real, minor: real)

  function KeyOf(order: Order, p: Polygon): Key {
    match order
    case ByArea => Key(EffectiveArea(p), 0.0)
    case ByPerimeterThenArea => Key(Sum(p.sides), EffectiveArea(p))
  }

  /** `Comparator.comparingDouble(major).thenComparing(minor)`. */
  function CompareKeys(a: Key, b: Key): (c: int)
    ensures c == -1 || c == 0 || c == 1
    ensures c == 0 <==> a == b
    ensures c < 0 <==> a.major < b.major || (a.major == b.major && a.minor < b.minor)
  {
    var c := CompareReals(a.major, b.major);
    if c != 0 then c else CompareReals(a.minor, b.minor)
  }

  /** The comparator of either order, applied to two polygons. */
  function Compare(order: Order, p: Polygon, q: Polygon): int {
    CompareKeys(KeyOf(order, p), KeyOf(order, q))
  }

  /** Sorting by area sorts exactly as `compareTo` does. */
  lemma CompareByAreaIsCompareTo(p: Polygon, q: Polygon)
    ensures Compare(ByArea, p, q) == CompareTo(p, q)
  {
  }

  /** The perimeter-then-area order puts the shorter perimeter (`getPerimeter`)
      first, and on a tie the smaller effective area. */
  lemma CompareByPerimeterThenArea(p: Polygon, q: Polygon)
    ensures Compare(ByPerimeterThenArea, p, q) < 0 <==>
              Perimeter(p) < Perimeter(q)
              || (Perimeter(p) == Perimeter(q) && EffectiveArea(p) < EffectiveArea(q))
  {
  }

  lemma CompareAntisymmetric(order: Order, p: Polygon, q: Polygon)
    ensures Compare(order, p, q) == -Compare(order, q, p)
  {
  }

  lemma CompareTransitive(order: Order, p: Polygon, q: Polygon, r: Polygon)
    requires Compare(order, p, q) <= 0 && Compare(order, q, r) <= 0
    ensures Compare(order, p, r) <= 0
  {
  }

  lemma CompareEquivalent(order: Order, p: Polygon, q: Polygon, r: Polygon)
    requires Compare(order, p, q) == 0
    ensures Compare(order, p, r) == Compare(order, q, r)
  {
  }

  /** Every pair in order, not only neighbours. */
  predicate Sorted(order: Order, s: seq<Polygon>) {
    forall i, j :: 0 <= i < j < |s| ==> Compare(order, s[i], s[j]) <= 0
  }

  /** The elements of `s` that the order cannot tell from `pivot`, in their
      order in `s`. A sort is stable when it keeps every such subsequence. */
  function Ties(order: Order, s: seq<Polygon>, pivot: Polygon): (r: seq<Polygon>)
    ensures |r| <= |s|
    decreases |s|
  {
    if |s| == 0 then []
    else
      var last := s[|s| - 1];
      Ties(order, s[..|s| - 1], pivot) + (if Compare(order, last, pivot) == 0 then [last] else [])
  }

  /** Put `x` into `t` after every element that does not compare above it. */
  function Insert(order: Order, x: Polygon, t: seq<Polygon>): (r: seq<Polygon>)
    ensures |r| == |t| + 1
    decreases |t|
  {
    if |t| == 0 then [x]
    else if Compare(order, t[|t| - 1], x) > 0 then Insert(order, x, t[..|t| - 1]) + [t[|t| - 1]]
    else t + [x]
  }

  /** Insertion sort: the input's elements inserted one by one, left to right. */
  function InsertionSort(order: Order, s: seq<Polygon>): (r: seq<Polygon>)
    ensures |r| == |s|
    decreases |s|
  {
    if |s| == 0 then [] else Insert(order, s[|s| - 1], InsertionSort(order, s[..|s| - 1]))
  }

  lemma {:induction false} InsertPermutes(order: Order, x: Polygon, t: seq<Polygon>)
    ensures multiset(Insert(order, x, t)) == multiset(t) + multiset{x}
    decreases |t|
  {
    if |t| > 0 && Compare(order, t[|t| - 1], x) > 0 {
      InsertPermutes(order, x, t[..|t| - 1]);
      assert t == t[..|t| - 1] + [t[|t| - 1]];
    }
  }

  lemma {:induction false} InsertSorted(order: Order, x: Polygon, t: seq<Polygon>)
    requires Sorted(order, t)
    ensures Sorted(order, Insert(order, x, t))
    decreases |t|
  {
    if |t| == 0 {
    } else if Compare(order, t[|t| - 1], x) > 0 {
      var init, y := t[..|t| - 1], t[|t| - 1];
      assert Sorted(order, init);
      InsertSorted(order, x, init);
      var u := Insert(order, x, init);
      InsertPermutes(order, x, init);
      CompareAntisymmetric(order, y, x);
      assert forall e | e in init :: Compare(order, e, y) <= 0 by {
        forall e | e in init
          ensures Compare(order, e, y) <= 0
        {
          var k :| 0 <= k < |init| && init[k] == e;
          assert t[k] == e;
        }
      }
      BoundedByMembers(order, u, init, x, y);
      SortedSnoc(order, u, y);
    } else {
      forall i | 0 <= i < |t|
        ensures Compare(order, t[i], x) <= 0
      {
        if i < |t| - 1 {
          CompareTransitive(order, t[i], t[|t| - 1], x);
        }
      }
      SortedSnoc(order, t, x);
    }
  }

  /** A bound on every element is a bound on every rearrangement. */
  lemma BoundedByMembers(order: Order, u: seq<Polygon>, init: seq<Polygon>, x: Polygon, y: Polygon)
    requires multiset(u) == multiset(init) + multiset{x}
    requires forall e | e in init :: Compare(order, e, y) <= 0
    requires Compare(order, x, y) <= 0
    ensures forall i | 0 <= i < |u| :: Compare(order, u[i], y) <= 0
  {
    forall i | 0 <= i < |u|
      ensures Compare(order, u[i], y) <= 0
    {
      assert u[i] in multiset(u);
      if u[i] != x {
        assert u[i] in multiset(init);
      }
    }
  }

  /** Appending an upper bound of a sorted sequence keeps it sorted. */
  lemma SortedSnoc(order: Order, u: seq<Polygon>, y: Polygon)
    requires Sorted(order, u)
    requires forall i | 0 <= i < |u| :: Compare(order, u[i], y) <= 0
    ensures Sorted(order, u + [y])
  {
    var r := u + [y];
    forall i, j | 0 <= i < j < |r|
      ensures Compare(order, r[i], r[j]) <= 0
    {
      if j < |u| {
        assert r[i] == u[i] && r[j] == u[j];
      }
    }
  }

  /** Inserting `x` adds it to the end of its own tie class and leaves every
      other tie class alone. */
  lemma {:induction false} InsertTies(order: Order, x: Polygon, t: seq<Polygon>, pivot: Polygon)
    ensures Ties(order, Insert(order, x, t), pivot)
            == Ties(order, t, pivot) + (if Compare(order, x, pivot) == 0 then [x] else [])
    decreases |t|
  {
    if |t| == 0 {
      TiesSnoc(order, [], x, pivot);
    } else if Compare(order, t[|t| - 1], x) > 0 {
      var init, y := t[..|t| - 1], t[|t| - 1];
      assert init + [y] == t;
      InsertTies(order, x, init, pivot);
      InsertTiesPast(order, x, init, y, pivot);
    } else {
      assert Insert(order, x, t) == t + [x];
      TiesSnoc(order, t, x, pivot);
    }
  }

  /** The inductive step where `x` moves past a last element `y` above it. */
  lemma InsertTiesPast(order: Order, x: Polygon, init: seq<Polygon>, y: Polygon, pivot: Polygon)
    requires Compare(order, y, x) > 0
    requires Ties(order, Insert(order, x, init), pivot)
             == Ties(order, init, pivot) + (if Compare(order, x, pivot) == 0 then [x] else [])
    ensures Ties(order, Insert(order, x, init + [y]), pivot)
            == Ties(order, init + [y], pivot) + (if Compare(order, x, pivot) == 0 then [x] else [])
  {
    var t := init + [y];
    var tx := if Compare(order, x, pivot) == 0 then [x] else [];
    var ty := if Compare(order, y, pivot) == 0 then [y] else [];
    assert t[..|t| - 1] == init && t[|t| - 1] == y;
    NotBothTies(order, x, y, pivot);
    assert tx + ty == ty + tx;
    calc {
      Ties(order, Insert(order, x, t), pivot);
      { assert Insert(order, x, t) == Insert(order, x, init) + [y]; }
      Ties(order, Insert(order, x, init) + [y], pivot);
      { TiesSnoc(order, Insert(order, x, init), y, pivot); }
      Ties(order, Insert(order, x, init), pivot) + ty;
      Ties(order, init, pivot) + tx + ty;
      Ties(order, init, pivot) + (ty + tx);
      { TiesSnoc(order, init, y, pivot); }
      Ties(order, t, pivot) + tx;
    }
  }

  lemma TiesSnoc(order: Order, u: seq<Polygon>, y: Polygon, pivot: Polygon)
    ensures Ties(order, u + [y], pivot)
            == Ties(order, u, pivot) + (if Compare(order, y, pivot) == 0 then [y] else [])
  {
    assert (u + [y])[..|u|] == u;
  }

  /** Two elements the order tells apart are never both tied with one pivot. */
  lemma NotBothTies(order: Order, x: Polygon, y: Polygon, pivot: Polygon)
    requires Compare(order, y, x) > 0
    ensures Compare(order, x, pivot) != 0 || Compare(order, y, pivot) != 0
  {
    if Compare(order, y, pivot) == 0 {
      CompareEquivalent(order, y, pivot, x);
      CompareAntisymmetric(order, pivot, x);
    }
  }

  /** The sort's output is sorted. */
  lemma {:induction false} InsertionSortSorted(order: Order, s: seq<Polygon>)
    ensures Sorted(order, InsertionSort(order, s))
    decreases |s|
  {
    if |s| > 0 {
      InsertionSortSorted(order, s[..|s| - 1]);
      InsertSorted(order, s[|s| - 1], InsertionSort(order, s[..|s| - 1]));
    }
  }

  /** The sort's output holds the input's elements, each as often. */
  lemma {:induction false} InsertionSortPermutes(order: Order, s: seq<Polygon>)
    ensures multiset(InsertionSort(order, s)) == multiset(s)
    decreases |s|
  {
    if |s| > 0 {
      InsertionSortPermutes(order, s[..|s| - 1]);
      InsertPermutes(order, s[|s| - 1], InsertionSort(order, s[..|s| - 1]));
      assert s == s[..|s| - 1] + [s[|s| - 1]];
    }
  }

  /** The sort is stable: elements that compare equal keep their input order. */
  lemma {:induction false} InsertionSortStable(order: Order, s: seq<Polygon>, pivot: Polygon)
    ensures Ties(order, InsertionSort(order, s), pivot) == Ties(order, s, pivot)
    decreases |s|
  {
    if |s| > 0 {
      InsertionSortStable(order, s[..|s| - 1], pivot);
      InsertTies(order, s[|s| - 1], InsertionSort(order, s[..|s| - 1]), pivot);
    }
  }

  /** `Collections.sort(list)` / `list.sort(comparator)` on a copy of `s`: the
      list comes back sorted, as a permutation of `s` that keeps ties in order. */
  method StableSort(order: Order, s: seq<Polygon>) returns (r: seq<Polygon>)
    ensures r == InsertionSort(order, s)
    ensures Sorted(order, r) && multiset(r) == multiset(s)
    ensures forall pivot :: Ties(order, r, pivot) == Ties(order, s, pivot)
  {
    r := [];
    for i := 0 to |s|
      invariant r == InsertionSort(order, s[..i])
    {
      assert s[..i + 1][..i] == s[..i];
      r := InsertInto(order, s[i], r);
    }
    assert s[..|s|] == s;
    InsertionSortSorted(order, s);
    InsertionSortPermutes(order, s);
    forall pivot
      ensures Ties(order, r, pivot) == Ties(order, s, pivot)
    {
      InsertionSortStable(order, s, pivot);
    }
  }

  /** One step of the sort: shift `x` left past every element above it. */
  method InsertInto(order: Order, x: Polygon, r: seq<Polygon>) returns (u: seq<Polygon>)
    ensures u == Insert(order, x, r)
  {
    var j := |r|;
    assert r[..j] == r && r[j..] == [];
    while j > 0 && Compare(order, r[j - 1], x) > 0
      invariant 0 <= j <= |r|
      invariant Insert(order, x, r) == Insert(order, x, r[..j]) + r[j..]
    {
      InsertShift(order, x, r, j);
      j := j - 1;
    }
    u := r[..j] + [x] + r[j..];
  }

  /** Moving past an element above `x` shifts the split point one place left. */
  lemma InsertShift(order: Order, x: Polygon, r: seq<Polygon>, j: nat)
    requires 0 < j <= |r| && Compare(order, r[j - 1], x) > 0
    ensures Insert(order, x, r[..j]) + r[j..] == Insert(order, x, r[..j - 1]) + r[j - 1..]
  {
    assert r[..j][..j - 1] == r[..j - 1];
    assert r[j - 1..] == [r[j - 1]] + r[j..];
  }
}
