/** Median and median absolute deviation. */
module Medians {
  import opened Common
  import opened Sorting
  import opened Sums

  predicate RealLeq(x: real, y: real) {
    x <= y
  }

  lemma RealLeqIsTotal()
    ensures TotalOrder(RealLeq)
  {
  }

  function SortReals(values: seq<real>): (s: seq<real>)
    ensures |s| == |values| && multiset(s) == multiset(values)
    ensures forall i, j :: 0 <= i < j < |s| ==> s[i] <= s[j]
  {
    RealLeqIsTotal();
    SortIsSorted(values, RealLeq);
    var s := Sort(values, RealLeq);
    assert forall i, j :: 0 <= i < j < |s| ==> RealLeq(s[i], s[j]);
    s
  }

  /** The middle element, or the mean of the two middle elements. */
  function Middle(sorted: seq<real>): real
    requires sorted != []
  {
    var mid := |sorted| / 2;
    if |sorted| % 2 == 0 then (sorted[mid - 1] + sorted[mid]) / 2.0 else sorted[mid]
  }

  function MedianOf(values: seq<real>): real {
    if values == [] then 0.0 else Middle(SortReals(values))
  }

  method Median(values: seq<real>) returns (median: real)
    ensures median == MedianOf(values) && (values == [] ==> median == 0.0)
  {
    if |values| == 0 {
      return 0.0;
    }
    var sorted := new real[|values|](i requires 0 <= i < |values| => values[i]);
    assert sorted[..] == values;
    SortInPlace(sorted, RealLeq);
    assert sorted[..] == SortReals(values);
    var mid := sorted.Length / 2;
    if sorted.Length % 2 == 0 {
      return (sorted[..][mid - 1] + sorted[..][mid]) / 2.0;
    }
    return sorted[..][mid];
  }

  function Deviations(values: seq<real>, centre: real): (d: seq<real>)
    ensures |d| == |values|
  {
    seq(|values|, i requires 0 <= i < |values| => Abs(values[i] - centre))
  }

  function MadOf(values: seq<real>, median: real): real {
    MedianOf(Deviations(values, median))
  }

  method MAD(values: seq<real>, median: real) returns (mad: real)
    ensures mad == MadOf(values, median) && (values == [] ==> mad == 0.0)
  {
    if |values| == 0 {
      return 0.0;
    }
    var dev := new real[|values|];
    for i := 0 to |values|
      invariant forall j :: 0 <= j < i ==> dev[j] == Abs(values[j] - median)
    {
      dev[i] := Abs(values[i] - median);
    }
    assert dev[..] == Deviations(values, median);
    mad := Median(dev[..]);
  }

  /** The median looks at the values as a collection: their order does not matter. */
  lemma MedianIgnoresOrder(v: seq<real>, w: seq<real>)
    requires multiset(v) == multiset(w)
    ensures MedianOf(v) == MedianOf(w)
  {
    RealLeqIsTotal();
    SortIsSorted(w, RealLeq);
    SortCharacterised(v, Sort(w, RealLeq), RealLeq);
    assert |v| == |multiset(v)| == |multiset(w)| == |w|;
  }

  // ----- total absolute deviation

  function TotalDeviation(s: seq<real>, c: real): real {
    if s == [] then 0.0 else TotalDeviation(s[..|s| - 1], c) + Abs(s[|s| - 1] - c)
  }

  lemma {:induction false} TotalDeviationOfInsert(x: real, s: seq<real>, c: real)
    ensures TotalDeviation(Insert(x, s, RealLeq), c) == TotalDeviation(s, c) + Abs(x - c)
  {
    if s == [] || RealLeq(s[|s| - 1], x) {
      assert (s + [x])[..|s|] == s;
    } else {
      var most, last := s[..|s| - 1], s[|s| - 1];
      var r := Insert(x, most, RealLeq);
      TotalDeviationOfInsert(x, most, c);
      assert (r + [last])[..|r|] == r;
    }
  }

  lemma {:induction false} TotalDeviationOfSort(v: seq<real>, c: real)
    ensures TotalDeviation(SortReals(v), c) == TotalDeviation(v, c)
  {
    if v != [] {
      TotalDeviationOfSort(v[..|v| - 1], c);
      TotalDeviationOfInsert(v[|v| - 1], SortReals(v[..|v| - 1]), c);
    }
  }

  lemma {:induction false} TotalDeviationOfCons(x: real, s: seq<real>, c: real)
    ensures TotalDeviation([x] + s, c) == Abs(x - c) + TotalDeviation(s, c)
  {
    if s == [] {
      assert ([x] + s)[..0] == [];
    } else {
      TotalDeviationOfCons(x, s[..|s| - 1], c);
      assert ([x] + s)[..|s|] == [x] + s[..|s| - 1];
    }
  }

  /** c lies between the two middle elements, or is the only one. */
  predicate Central(sorted: seq<real>, c: real) {
    var mid := |sorted| / 2;
    sorted == [] || (if |sorted| % 2 == 0 then sorted[mid - 1] <= c <= sorted[mid] else c == sorted[mid])
  }

  /** Pairing the elements from both ends: only a central point is within every pair. */
  lemma {:induction false} CentralMinimises(s: seq<real>, m: real, c: real)
    requires forall i, j :: 0 <= i < j < |s| ==> s[i] <= s[j]
    requires Central(s, m)
    ensures TotalDeviation(s, m) <= TotalDeviation(s, c)
    ensures TotalDeviation(s, m) == TotalDeviation(s, c) <==> Central(s, c)
    decreases |s|
  {
    var n := |s|;
    if n == 1 {
      assert TotalDeviation(s, m) == TotalDeviation(s[..0], m) + Abs(s[0] - m);
      assert TotalDeviation(s, c) == TotalDeviation(s[..0], c) + Abs(s[0] - c);
    } else if n >= 2 {
      var inner := s[1..n - 1];
      PeelEnds(s, m);
      PeelEnds(s, c);
      assert inner != [] ==> inner[|inner| / 2] == s[n / 2];
      assert inner != [] && n % 2 == 0 ==> inner[|inner| / 2 - 1] == s[n / 2 - 1];
      CentralMinimises(inner, m, c);
    }
  }

  lemma PeelEnds(s: seq<real>, c: real)
    requires |s| >= 2
    ensures TotalDeviation(s, c)
         == Abs(s[0] - c) + TotalDeviation(s[1..|s| - 1], c) + Abs(s[|s| - 1] - c)
  {
    var most := s[..|s| - 1];
    assert most == [s[0]] + s[1..|s| - 1];
    TotalDeviationOfCons(s[0], s[1..|s| - 1], c);
  }

  /** The median minimises the total absolute deviation, and the points that do so are exactly those
      between the two middle values. */
  lemma MedianMinimisesDeviation(values: seq<real>, c: real)
    requires values != []
    ensures TotalDeviation(values, MedianOf(values)) <= TotalDeviation(values, c)
    ensures TotalDeviation(values, MedianOf(values)) == TotalDeviation(values, c) <==> Central(SortReals(values), c)
  {
    var s := SortReals(values);
    TotalDeviationOfSort(values, MedianOf(values));
    TotalDeviationOfSort(values, c);
    CentralMinimises(s, Middle(s), c);
  }

  // ----- robustness

  /** How many values lie in [a, b]. */
  function CountIn(s: seq<real>, a: real, b: real): nat {
    if s == [] then 0 else CountIn(s[..|s| - 1], a, b) + (if a <= s[|s| - 1] <= b then 1 else 0)
  }

  lemma {:induction false} CountInOfInsert(x: real, s: seq<real>, a: real, b: real)
    ensures CountIn(Insert(x, s, RealLeq), a, b) == CountIn(s, a, b) + (if a <= x <= b then 1 else 0)
  {
    if s == [] || RealLeq(s[|s| - 1], x) {
      assert (s + [x])[..|s|] == s;
    } else {
      var most, last := s[..|s| - 1], s[|s| - 1];
      var r := Insert(x, most, RealLeq);
      CountInOfInsert(x, most, a, b);
      assert (r + [last])[..|r|] == r;
    }
  }

  lemma {:induction false} CountInOfSort(v: seq<real>, a: real, b: real)
    ensures CountIn(SortReals(v), a, b) == CountIn(v, a, b)
  {
    if v != [] {
      CountInOfSort(v[..|v| - 1], a, b);
      CountInOfInsert(v[|v| - 1], SortReals(v[..|v| - 1]), a, b);
    }
  }

  /** All values from the k-th on are out of range, or all up to the k-th are, or all before it are in. */
  lemma {:induction false} CountInBounds(s: seq<real>, a: real, b: real, k: nat)
    requires k <= |s|
    ensures (forall i :: k <= i < |s| ==> !(a <= s[i] <= b)) ==> CountIn(s, a, b) <= k
    ensures (forall i :: 0 <= i < k ==> !(a <= s[i] <= b)) ==> CountIn(s, a, b) <= |s| - k
    ensures (forall i :: 0 <= i < k ==> a <= s[i] <= b) ==> CountIn(s, a, b) >= k
  {
    if s != [] {
      var most := s[..|s| - 1];
      CountInBounds(most, a, b, if k == |s| then k - 1 else k);
      assert forall i :: 0 <= i < |most| ==> most[i] == s[i];
    }
  }

  /** If a strict majority of the values lie in [a, b], so does the median, however extreme the rest. */
  lemma MajorityHoldsMedian(values: seq<real>, a: real, b: real)
    requires 2 * CountIn(values, a, b) > |values|
    ensures a <= MedianOf(values) <= b
  {
    hide SortReals, Middle;
    CountInOfSort(values, a, b);
    assert values != [];
    MajorityHoldsMiddle(SortReals(values), a, b);
  }

  lemma MajorityHoldsMiddle(s: seq<real>, a: real, b: real)
    requires forall i, j :: 0 <= i < j < |s| ==> s[i] <= s[j]
    requires s != [] && 2 * CountIn(s, a, b) > |s|
    ensures a <= Middle(s) <= b
  {
    hide CountIn;
    MajorityHoldsElement(s, a, b, |s| / 2);
    if |s| % 2 == 0 {
      MajorityHoldsElement(s, a, b, |s| / 2 - 1);
    }
  }

  lemma MajorityHoldsElement(s: seq<real>, a: real, b: real, k: nat)
    requires forall i, j :: 0 <= i < j < |s| ==> s[i] <= s[j]
    requires |s| <= 2 * k + 2 && 2 * k <= |s| && k < |s|
    requires 2 * CountIn(s, a, b) > |s|
    ensures a <= s[k] <= b
  {
    CountInBounds(s, a, b, k);
    CountInBounds(s, a, b, k + 1);
  }

  lemma {:induction false} DeviationsCount(values: seq<real>, m: real, a: real, b: real)
    requires a <= m <= b
    ensures CountIn(values, a, b) <= CountIn(Deviations(values, m), 0.0, b - a)
    ensures a == b ==> CountIn(values, a, b) == CountIn(Deviations(values, m), 0.0, b - a)
  {
    if values != [] {
      var most := values[..|values| - 1];
      DeviationsCount(most, m, a, b);
      assert Deviations(values, m)[..|most|] == Deviations(most, m);
    }
  }

  /** The deviation about the median is as tight as any range that holds a strict majority. */
  lemma MajorityBoundsMad(values: seq<real>, a: real, b: real)
    requires 2 * CountIn(values, a, b) > |values|
    ensures 0.0 <= MadOf(values, MedianOf(values)) <= b - a
  {
    hide MedianOf, CountIn;
    MajorityHoldsMedian(values, a, b);
    DeviationsCount(values, MedianOf(values), a, b);
    MajorityHoldsMedian(Deviations(values, MedianOf(values)), 0.0, b - a);
  }

  lemma SortedDeviations(values: seq<real>, centre: real)
    ensures forall x :: x in SortReals(Deviations(values, centre)) ==> x >= 0.0
  {
    var dev := Deviations(values, centre);
    forall x | x in SortReals(dev) ensures x >= 0.0 {
      assert x in multiset(SortReals(dev));
      assert x in dev;
    }
  }

  /** Half of a list of non-negative numbers is 0 when its median is. */
  lemma ZeroMedianOfSorted(s: seq<real>)
    requires s != [] && s[0] >= 0.0
    requires forall i, j :: 0 <= i < j < |s| ==> s[i] <= s[j]
    requires Middle(s) == 0.0
    ensures 2 * CountIn(s, 0.0, 0.0) > |s|
  {
    var mid := |s| / 2;
    assert s[0] <= s[mid];
    assert mid > 0 ==> s[0] <= s[mid - 1] <= s[mid];
    assert s[mid] == 0.0;
    CountInBounds(s, 0.0, 0.0, mid + 1);
  }

  /** The deviation about a centre is 0 exactly when a strict majority of the values equal the centre. */
  lemma MadZeroIffMajority(values: seq<real>, centre: real)
    requires values != []
    ensures MadOf(values, centre) >= 0.0
    ensures MadOf(values, centre) == 0.0 <==> 2 * CountIn(values, centre, centre) > |values|
  {
    var dev := Deviations(values, centre);
    hide Deviations, SortReals;
    var s := SortReals(dev);
    SortedDeviations(values, centre);
    assert forall i :: 0 <= i < |s| ==> s[i] in s;
    DeviationsCount(values, centre, centre, centre);
    CountInOfSort(dev, 0.0, 0.0);
    if 2 * CountIn(values, centre, centre) > |values| {
      MajorityHoldsMedian(dev, 0.0, 0.0);
    }
    if MadOf(values, centre) == 0.0 {
      ZeroMedianOfSorted(s);
    }
  }

  // ----- change of units

  function Affine(s: seq<real>, a: real, c: real): (r: seq<real>)
    ensures |r| == |s|
  {
    seq(|s|, i requires 0 <= i < |s| => Product(a, s[i]) + c)
  }

  lemma {:induction false} AffineOfInsert(x: real, s: seq<real>, a: real, c: real)
    ensures multiset(Affine(Insert(x, s, RealLeq), a, c)) == multiset(Affine(s, a, c)) + multiset{Product(a, x) + c}
  {
    hide *;
    if s == [] || RealLeq(s[|s| - 1], x) {
      InsertOnTop(x, s, RealLeq);
      AffineOfSnoc(s, x, a, c);
    } else {
      var most, last := s[..|s| - 1], s[|s| - 1];
      InsertBelowLast(x, s, RealLeq);
      AffineOfInsert(x, most, a, c);
      AffineOfSnoc(Insert(x, most, RealLeq), last, a, c);
      AffineOfSnoc(most, last, a, c);
      assert s == most + [last];
    }
  }

  lemma AffineOfSnoc(s: seq<real>, x: real, a: real, c: real)
    ensures Affine(s + [x], a, c) == Affine(s, a, c) + [Product(a, x) + c]
  {
  }

  lemma SortOfSnoc(v: seq<real>)
    requires v != []
    ensures SortReals(v) == Insert(v[|v| - 1], SortReals(v[..|v| - 1]), RealLeq)
  {
    hide Insert, Sorted;
  }

  lemma {:induction false} AffineOfSort(v: seq<real>, a: real, c: real)
    ensures multiset(Affine(SortReals(v), a, c)) == multiset(Affine(v, a, c))
  {
    if v != [] {
      var most, last := v[..|v| - 1], v[|v| - 1];
      hide *;
      SortOfSnoc(v);
      AffineOfSort(most, a, c);
      AffineOfInsert(last, SortReals(most), a, c);
      AffineOfSnoc(most, last, a, c);
      assert v == most + [last];
      assert multiset(Affine(v, a, c)) == multiset(Affine(most, a, c)) + multiset{Product(a, last) + c};
    }
  }

  lemma ProductKeepsOrder(a: real, x: real, y: real)
    requires x <= y
    ensures a >= 0.0 ==> Product(a, x) <= Product(a, y)
    ensures a <= 0.0 ==> Product(a, x) >= Product(a, y)
  {
    assert Product(a, y - x) == Product(a, y) - Product(a, x);
  }

  /** Sorting after a change of units: the same order, or the opposite one for a negative factor. */
  lemma SortOfAffine(v: seq<real>, a: real, c: real)
    ensures a >= 0.0 ==> SortReals(Affine(v, a, c)) == Affine(SortReals(v), a, c)
    ensures a <= 0.0 ==> SortReals(Affine(v, a, c)) == Reverse(Affine(SortReals(v), a, c))
  {
    var t := Affine(SortReals(v), a, c);
    AffineOfSort(v, a, c);
    AffineOfSorted(SortReals(v), a, c);
    ReverseKeepsElements(t);
    if a >= 0.0 {
      SortRealsIs(Affine(v, a, c), t);
    }
    if a <= 0.0 {
      SortRealsIs(Affine(v, a, c), Reverse(t));
    }
  }

  lemma SortRealsIs(values: seq<real>, t: seq<real>)
    requires multiset(t) == multiset(values)
    requires forall i, j :: 0 <= i < j < |t| ==> t[i] <= t[j]
    ensures SortReals(values) == t
  {
    RealLeqIsTotal();
    SortCharacterised(values, t, RealLeq);
  }

  lemma AffineOfSorted(s: seq<real>, a: real, c: real)
    requires forall i, j :: 0 <= i < j < |s| ==> s[i] <= s[j]
    ensures a >= 0.0 ==> forall i, j :: 0 <= i < j < |s| ==> Affine(s, a, c)[i] <= Affine(s, a, c)[j]
    ensures a <= 0.0 ==> forall i, j :: 0 <= i < j < |s| ==> Affine(s, a, c)[i] >= Affine(s, a, c)[j]
  {
    forall i, j | 0 <= i < j < |s|
      ensures a >= 0.0 ==> Affine(s, a, c)[i] <= Affine(s, a, c)[j]
      ensures a <= 0.0 ==> Affine(s, a, c)[i] >= Affine(s, a, c)[j]
    {
      ProductKeepsOrder(a, s[i], s[j]);
    }
  }

  /** The median follows a change of units, including one that reverses the order. */
  lemma MedianEquivariant(v: seq<real>, a: real, c: real)
    requires v != []
    ensures MedianOf(Affine(v, a, c)) == Product(a, MedianOf(v)) + c
  {
    hide Product, SortReals;
    var s := SortReals(v);
    SortOfAffine(v, a, c);
    var mid := |s| / 2;
    if |s| % 2 == 0 {
      HalfOfProducts(a, s[mid - 1], s[mid], c);
    }
  }

  lemma HalfOfProducts(a: real, x: real, y: real, c: real)
    ensures (Product(a, x) + c + (Product(a, y) + c)) / 2.0 == Product(a, (x + y) / 2.0) + c
  {
  }

  lemma AbsOfProduct(a: real, x: real)
    ensures Abs(Product(a, x)) == Product(Abs(a), Abs(x))
  {
  }

  /** The deviation about the median scales with the size of the factor. */
  lemma MadEquivariant(v: seq<real>, m: real, a: real, c: real)
    requires v != []
    ensures MadOf(Affine(v, a, c), Product(a, m) + c) == Product(Abs(a), MadOf(v, m))
  {
    var w := Affine(v, a, c);
    forall i | 0 <= i < |v| ensures Abs(w[i] - (Product(a, m) + c)) == Product(Abs(a), Abs(v[i] - m)) + 0.0 {
      assert Product(a, v[i]) - Product(a, m) == Product(a, v[i] - m);
      AbsOfProduct(a, v[i] - m);
    }
    assert Deviations(w, Product(a, m) + c) == Affine(Deviations(v, m), Abs(a), 0.0);
    MedianEquivariant(Deviations(v, m), Abs(a), 0.0);
  }
}
