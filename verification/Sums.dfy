/** Prefix sums over sequences of reals: the quantities the statistics loops accumulate,
    and the algebraic identities between them. */
module Sums {
  
  /** A product, with its sign in the contract. */
  function Product(x: real, y: real): (r: real)
    ensures x == 0.0 || y == 0.0 ==> r == 0.0
    ensures (x > 0.0 && y > 0.0) || (x < 0.0 && y < 0.0) ==> r > 0.0
    ensures (x > 0.0 && y < 0.0) || (x < 0.0 && y > 0.0) ==> r < 0.0
  {
    x * y
  }

  lemma ProductIsTimes(x: real, y: real)
    ensures Product(x, y) == x * y
  {
  }

  function Sq(x: real): (r: real)
    ensures r >= 0.0
    ensures r == 0.0 <==> x == 0.0
  {
    Product(x, x)
  }

  lemma SqIsProduct(x: real)
    ensures Sq(x) == x * x
  {
  }

  function Sum(s: seq<real>, n: nat): real
    requires n <= |s|
  {
    if n == 0 then 0.0 else Sum(s, n - 1) + s[n - 1]
  }

  /** Sum of s[i] * t[i]. */
  function Dot(s: seq<real>, t: seq<real>, n: nat): real
    requires n <= |s| && n <= |t|
  {
    if n == 0 then 0.0 else Dot(s, t, n - 1) + Product(s[n - 1], t[n - 1])
  }

  /** Sum of squared deviations from c. */
  function SquaredDeviations(s: seq<real>, c: real, n: nat): (d: real)
    requires n <= |s|
    ensures d >= 0.0
  {
    if n == 0 then 0.0 else SquaredDeviations(s, c, n - 1) + Sq(s[n - 1] - c)
  }

  function LineAt(x: real, a: real, b: real): real {
    a * x + b
  }

  /** Sum of (a * x + b)^2: the squared size of a line over the points xs. */
  function SquaredLine(xs: seq<real>, a: real, b: real, n: nat): (d: real)
    requires n <= |xs|
    ensures d >= 0.0
  {
    if n == 0 then 0.0 else SquaredLine(xs, a, b, n - 1) + Sq(LineAt(xs[n - 1], a, b))
  }

  /** Residual sum of squares of the line y = a * x + b. */
  function Residuals(xs: seq<real>, ys: seq<real>, a: real, b: real, n: nat): (d: real)
    requires n <= |xs| && n <= |ys|
    ensures d >= 0.0
  {
    if n == 0 then 0.0 else Residuals(xs, ys, a, b, n - 1) + Sq(ys[n - 1] - LineAt(xs[n - 1], a, b))
  }

  /** Moving the centre of the squared deviations from m to c. */
  lemma {:induction false} Recentre(s: seq<real>, m: real, c: real, n: nat)
    requires n <= |s|
    ensures SquaredDeviations(s, c, n) == SquaredDeviations(s, m, n) + RecentringTerm(Sum(s, n), n as real, m, m - c)
  {
    if n == 0 {
      assert RecentringTerm(0.0, 0.0, m, m - c) == 0.0;
    } else {
      Recentre(s, m, c, n - 1);
      RecentreStep(Sum(s, n - 1), (n - 1) as real, s[n - 1], m, m - c);
      assert s[n - 1] - m + (m - c) == s[n - 1] - c;
      assert (n - 1) as real + 1.0 == n as real;
    }
  }

  function RecentringTerm(sum: real, k: real, m: real, d: real): real {
    2.0 * d * (sum - k * m) + k * Sq(d)
  }

  lemma RecentreStep(sum: real, k: real, v: real, m: real, d: real)
    ensures Sq(v - m + d) + RecentringTerm(sum, k, m, d) == Sq(v - m) + RecentringTerm(sum + v, k + 1.0, m, d)
  {
    var e := v - m;
    SqIsProduct(e + d);
    SqIsProduct(e);
    SqIsProduct(d);
    assert (e + d) * (e + d) == e * e + 2.0 * d * e + d * d;
    assert 2.0 * d * (sum + v - (k + 1.0) * m) == 2.0 * d * (sum - k * m) + 2.0 * d * e;
    assert (k + 1.0) * (d * d) == k * (d * d) + d * d;
  }

  lemma {:induction false} SquaresAreDeviationsFromZero(s: seq<real>, n: nat)
    requires n <= |s|
    ensures Dot(s, s, n) == SquaredDeviations(s, 0.0, n)
  {
    if n > 0 { SquaresAreDeviationsFromZero(s, n - 1); }
  }

  /** One term never exceeds the whole sum of squares. */
  lemma {:induction false} TermWithinDeviations(s: seq<real>, c: real, n: nat, k: nat)
    requires k < n <= |s|
    ensures Sq(s[k] - c) <= SquaredDeviations(s, c, n)
  {
    if k < n - 1 { TermWithinDeviations(s, c, n - 1, k); }
  }

  lemma {:induction false} NoDeviationIffConstant(s: seq<real>, c: real, n: nat)
    requires n <= |s|
    ensures SquaredDeviations(s, c, n) == 0.0 <==> forall i :: 0 <= i < n ==> s[i] == c
  {
    if n > 0 { NoDeviationIffConstant(s, c, n - 1); }
  }

  lemma {:induction false} ConstantSum(s: seq<real>, c: real, n: nat)
    requires n <= |s|
    requires forall i :: 0 <= i < n ==> s[i] == c
    ensures Sum(s, n) == n as real * c
  {
    if n > 0 { ConstantSum(s, c, n - 1); }
  }

  /** How far the line's residuals are from the two normal equations, weighted by a change (u, v)
      of the line: the first is the residuals' product with xs, the second their sum. */
  function CrossTerms(sxy: real, sxx: real, sx: real, sy: real, k: real, a: real, b: real, u: real, v: real): real {
    2.0 * u * SlopeGap(sxy, sxx, sx, a, b) + 2.0 * v * InterceptGap(sy, sx, k, a, b)
  }

  function SlopeGap(sxy: real, sxx: real, sx: real, a: real, b: real): real {
    sxy - a * sxx - b * sx
  }

  function InterceptGap(sy: real, sx: real, k: real, a: real, b: real): real {
    sy - a * sx - k * b
  }

  /** Comparing two lines on the same points: the difference of their residual sums is the size of
      the line between them plus the cross terms. */
  lemma {:induction false} ResidualsOfAnotherLine(
      xs: seq<real>, ys: seq<real>, a: real, b: real, u: real, v: real, n: nat)
    requires n <= |xs| && n <= |ys|
    ensures Residuals(xs, ys, a - u, b - v, n)
         == Residuals(xs, ys, a, b, n) + SquaredLine(xs, u, v, n)
          + CrossTerms(Dot(xs, ys, n), Dot(xs, xs, n), Sum(xs, n), Sum(ys, n), n as real, a, b, u, v)
  {
    if n == 0 {
      assert CrossTerms(0.0, 0.0, 0.0, 0.0, 0.0, a, b, u, v) == 0.0;
    } else {
      hide CrossTerms, Sq, Product, LineAt;
      ResidualsOfAnotherLine(xs, ys, a, b, u, v, n - 1);
      var x, y := xs[n - 1], ys[n - 1];
      OnePoint(x, y, a, b, u, v);
      CrossTermsStep(Dot(xs, ys, n - 1), Dot(xs, xs, n - 1), Sum(xs, n - 1), Sum(ys, n - 1), (n - 1) as real,
                     x, y, a, b, u, v);
      assert (n - 1) as real + 1.0 == n as real;
      assert Dot(xs, ys, n) == Dot(xs, ys, n - 1) + Product(x, y);
      assert Dot(xs, xs, n) == Dot(xs, xs, n - 1) + Product(x, x);
      assert Sum(xs, n) == Sum(xs, n - 1) + x && Sum(ys, n) == Sum(ys, n - 1) + y;
    }
  }

  lemma OnePoint(x: real, y: real, a: real, b: real, u: real, v: real)
    ensures Sq(y - LineAt(x, a - u, b - v))
         == Sq(y - LineAt(x, a, b)) + Sq(LineAt(x, u, v)) + CrossTerms(Product(x, y), Product(x, x), x, y, 1.0, a, b, u, v)
  {
    var r, g := y - LineAt(x, a, b), LineAt(x, u, v);
    SqIsProduct(r);
    SqIsProduct(g);
    SqIsProduct(r + g);
    assert y - LineAt(x, a - u, b - v) == r + g;
    assert (r + g) * (r + g) == r * r + g * g + 2.0 * (r * g);
    assert r * g == u * (x * r) + v * r;
    assert x * r == x * y - a * (x * x) - b * x;
  }

  lemma CrossTermsStep(sxy: real, sxx: real, sx: real, sy: real, k: real,
                       x: real, y: real, a: real, b: real, u: real, v: real)
    ensures CrossTerms(sxy + Product(x, y), sxx + Product(x, x), sx + x, sy + y, k + 1.0, a, b, u, v)
         == CrossTerms(sxy, sxx, sx, sy, k, a, b, u, v) + CrossTerms(Product(x, y), Product(x, x), x, y, 1.0, a, b, u, v)
  {
  }

  // ----- extremes

  function Largest(values: seq<real>): (r: real)
    requires values != []
    ensures r in values && forall v :: v in values ==> v <= r
  {
    var last := values[|values| - 1];
    if |values| == 1 then last
    else
      var most := Largest(values[..|values| - 1]);
      assert values == values[..|values| - 1] + [last];
      if last > most then last else most
  }

  function Smallest(values: seq<real>): (r: real)
    requires values != []
    ensures r in values && forall v :: v in values ==> r <= v
  {
    var last := values[|values| - 1];
    if |values| == 1 then last
    else
      var most := Smallest(values[..|values| - 1]);
      assert values == values[..|values| - 1] + [last];
      if last < most then last else most
  }
}
