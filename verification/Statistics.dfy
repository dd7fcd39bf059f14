/** Sums, means and mean square deviations of integer lists, in exact arithmetic. */
module Statistics {

  function Sum(xs: seq<int>): int {
    if xs == [] then 0 else Sum(xs[..|xs| - 1]) + xs[|xs| - 1]
  }

  function SumOfSquares(xs: seq<int>): int {
    if xs == [] then 0 else SumOfSquares(xs[..|xs| - 1]) + xs[|xs| - 1] * xs[|xs| - 1]
  }

  lemma SumAppend(xs: seq<int>, x: int)
    ensures Sum(xs + [x]) == Sum(xs) + x
    ensures SumOfSquares(xs + [x]) == SumOfSquares(xs) + x * x
  {
    assert (xs + [x])[..|xs|] == xs;
  }

  function Mean(xs: seq<int>): real
    requires xs != []
  {
    Sum(xs) as real / |xs| as real
  }

  /** The sum of (x - m)^2. */
  function SquaredDeviations(xs: seq<int>, m: real): (d: real)
    ensures d >= 0.0
  {
    if xs == [] then 0.0
    else
      var d := xs[|xs| - 1] as real - m;
      Square(d) + SquaredDeviations(xs[..|xs| - 1], m)
  }

  function Square(d: real): (r: real)
    ensures r >= 0.0
  {
    if d >= 0.0 then MulNonNegative(d, d); d * d
    else MulNonNegative(-d, -d); d * d
  }

  lemma MulNonNegative(a: real, b: real)
    requires a >= 0.0 && b >= 0.0
    ensures a * b >= 0.0
  {
  }

  /** The population variance, from its definition. */
  function Variance(xs: seq<int>): (v: real)
    requires xs != []
    ensures v >= 0.0
  {
    DivNonNegative(SquaredDeviations(xs, Mean(xs)), |xs| as real);
    SquaredDeviations(xs, Mean(xs)) / |xs| as real
  }

  lemma DivNonNegative(a: real, b: real)
    requires a >= 0.0 && b > 0.0
    ensures a / b >= 0.0
  {
  }

  function Expanded(s1: real, s2: real, n: real, m: real): real {
    s2 - 2.0 * (m * s1) + n * (m * m)
  }

  lemma ExpandOne(s1: real, s2: real, n: real, m: real, x: real)
    ensures Expanded(s1 + x, s2 + x * x, n + 1.0, m) == Square(x - m) + Expanded(s1, s2, n, m)
  {
    assert (x - m) * (x - m) == x * x - 2.0 * (m * x) + m * m;
    assert m * (s1 + x) == m * s1 + m * x;
    assert (n + 1.0) * (m * m) == n * (m * m) + m * m;
  }

  lemma SquareAsReal(x: int)
    ensures (x * x) as real == x as real * x as real
  {
  }

  lemma {:induction false} ExpandDeviations(xs: seq<int>, m: real)
    ensures SquaredDeviations(xs, m) == Expanded(Sum(xs) as real, SumOfSquares(xs) as real, |xs| as real, m)
  {
    if xs == [] {
      assert m * 0.0 == 0.0;
    } else {
      var before, x := xs[..|xs| - 1], xs[|xs| - 1];
      ExpandDeviations(before, m);
      SquareAsReal(x);
      ExpandOne(Sum(before) as real, SumOfSquares(before) as real, |before| as real, m, x as real);
    }
  }

  /** The running sums give the variance: this is why the program may take the square root. */
  lemma VarianceFromSums(xs: seq<int>)
    requires xs != []
    ensures Variance(xs) == SumOfSquares(xs) as real / |xs| as real - Mean(xs) * Mean(xs)
  {
    ExpandDeviations(xs, Mean(xs));
    DivideExpanded(Sum(xs) as real, SumOfSquares(xs) as real, |xs| as real);
  }

  lemma DivideExpanded(s1: real, s2: real, n: real)
    requires n > 0.0
    ensures Expanded(s1, s2, n, s1 / n) / n == s2 / n - (s1 / n) * (s1 / n)
  {
    DivideDeviations(s1, s2, n);
  }

  lemma DivideDeviations(s1: real, s2: real, n: real)
    requires n > 0.0
    ensures var m := s1 / n;
      (s2 - 2.0 * (m * s1) + n * (m * m)) / n == s2 / n - m * m
  {
    var m := s1 / n;
    assert s1 == m * n;
    assert m * s1 == n * (m * m);
    assert s2 - 2.0 * (m * s1) + n * (m * m) == s2 - n * (m * m);
    assert (s2 - n * (m * m)) / n == s2 / n - m * m;
  }

}
