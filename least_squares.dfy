/** The slope of the least-squares line through points (xs[i], ys[i]),
    computed exactly: slope = Covariation / Spread, where
      Covariation = n * sum(x*y) - sum(x) * sum(y)
      Spread      = n * sum(x*x) - sum(x)^2.
    This is what a degree-1 polynomial fit returns, without floating point. */
module LeastSquares {

  function Square(z: int): (r: int)
    ensures r >= 0
  {
    z * z
  }

  function Sum(xs: seq<int>): int {
    if xs == [] then 0 else Sum(xs[..|xs| - 1]) + xs[|xs| - 1]
  }

  function SumSq(xs: seq<int>): int {
    if xs == [] then 0 else SumSq(xs[..|xs| - 1]) + Square(xs[|xs| - 1])
  }

  function SumProd(xs: seq<int>, ys: seq<int>): int
    requires |xs| == |ys|
  {
    if xs == [] then 0
    else SumProd(xs[..|xs| - 1], ys[..|ys| - 1]) + xs[|xs| - 1] * ys[|ys| - 1]
  }

  function Spread(xs: seq<int>): int {
    |xs| * SumSq(xs) - Sum(xs) * Sum(xs)
  }

  function Covariation(xs: seq<int>, ys: seq<int>): int
    requires |xs| == |ys|
  {
    |xs| * SumProd(xs, ys) - Sum(xs) * Sum(ys)
  }

  /** sum((x - a)^2): how far the points lie from the abscissa a. */
  function SqDev(xs: seq<int>, a: int): int {
    if xs == [] then 0
    else SqDev(xs[..|xs| - 1], a) + Square(xs[|xs| - 1] - a)
  }

  /** The least-squares slope; defined when the abscissae are not all equal. */
  function Slope(xs: seq<int>, ys: seq<int>): real
    requires |xs| == |ys| && Spread(xs) > 0
  {
    Covariation(xs, ys) as real / Spread(xs) as real
  }

  // ---------------------------------------------------------------------------
  // Polynomial identities over plain integers, kept apart from the sums so
  // that the solver sees nothing but the ring axioms.

  lemma SquareOfDifference(x: int, a: int)
    ensures Square(x - a) == Square(x) - 2 * a * x + a * a
  {
  }

  lemma SqDevStepAlgebra(dev: int, sq: int, s: int, n: int, x: int, a: int)
    requires dev == sq - 2 * a * s + n * a * a
    ensures dev + Square(x - a) == (sq + Square(x)) - 2 * a * (s + x) + (n + 1) * a * a
  {
    SquareOfDifference(x, a);
    assert (n + 1) * a * a == n * a * a + a * a;
    assert 2 * a * (s + x) == 2 * a * s + 2 * a * x;
  }

  lemma SquareOfNonzero(z: int)
    requires z != 0
    ensures Square(z) > 0
  {
    if z > 0 {
      assert z * z >= z;
    } else {
      assert z * z >= -z;
    }
  }

  lemma SpreadAlgebra(n: int, s1: int, s2: int, a: int)
    ensures (n + 1) * (s2 + a * a) - (s1 + a) * (s1 + a)
         == n * s2 - s1 * s1 + (s2 - 2 * a * s1 + n * a * a)
  {
  }

  lemma LineAlgebra(n: int, s1: int, s2: int, sy: int, sp: int, q: int, c: int, k: int)
    requires q * sy == n * c + k * s1
    requires q * sp == c * s1 + k * s2
    ensures q * (n * sp - s1 * sy) == k * (n * s2 - s1 * s1)
  {
    calc {
      q * (n * sp - s1 * sy);
      n * (q * sp) - s1 * (q * sy);
      n * (c * s1 + k * s2) - s1 * (n * c + k * s1);
      k * (n * s2 - s1 * s1);
    }
  }

  lemma LineStepAlgebra(x: int, y: int, q: int, c: int, k: int)
    requires q * y == c + k * x
    ensures q * (x * y) == c * x + k * (x * x)
  {
    calc {
      q * (x * y);
      x * (q * y);
      x * (c + k * x);
      c * x + k * (x * x);
    }
  }

  lemma ShiftAlgebra(n: int, s1: int, s2: int, sy: int, sp: int, d: int)
    ensures n * (s2 + 2 * d * s1 + n * d * d) - (s1 + n * d) * (s1 + n * d) == n * s2 - s1 * s1
    ensures n * (sp + d * sy) - (s1 + n * d) * sy == n * sp - s1 * sy
  {
  }

  lemma ShiftStepAlgebra(x: int, y: int, d: int)
    ensures (x + d) * (x + d) == x * x + 2 * d * x + d * d
    ensures (x + d) * y == x * y + d * y
  {
  }

  /** One step of ShiftSumProd, on plain integers. */
  lemma ShiftProdAlgebra(p: int, s: int, x: int, y: int, d: int)
    ensures (p + d * s) + (x + d) * y == (p + x * y) + d * (s + y)
  {
  }

  /** One step of LineSums, on plain integers. */
  lemma LineSumsAlgebra(q: int, c: int, k: int, x: int, y: int, n: int, sx: int, sy: int, sxx: int, sxy: int)
    requires q * y == c + k * x
    requires q * sy == n * c + k * sx && q * sxy == c * sx + k * sxx
    ensures q * (sy + y) == (n + 1) * c + k * (sx + x)
    ensures q * (sxy + x * y) == c * (sx + x) + k * (sxx + x * x)
  {
    LineStepAlgebra(x, y, q, c, k);
    assert (n + 1) * c == n * c + c;
    assert k * (sx + x) == k * sx + k * x;
    assert k * (sxx + x * x) == k * sxx + k * (x * x);
    assert c * (sx + x) == c * sx + c * x;
  }

  lemma ShiftSqAlgebra(q: int, s: int, n: int, x: int, d: int)
    ensures q + 2 * d * s + n * d * d + (x + d) * (x + d) == (q + x * x) + 2 * d * (s + x) + (n + 1) * d * d
  {
    ShiftStepAlgebra(x, 0, d);
    assert (n + 1) * d * d == n * d * d + d * d;
    assert 2 * d * (s + x) == 2 * d * s + 2 * d * x;
  }

  lemma RatioOfProportional(cov: int, spr: int, q: int, k: int)
    requires q > 0 && spr > 0 && q * cov == k * spr
    ensures cov as real / spr as real == k as real / q as real
  {
    assert q as real * cov as real == k as real * spr as real;
  }

  // ---------------------------------------------------------------------------

  lemma {:induction false} SqDevExpand(xs: seq<int>, a: int)
    ensures SqDev(xs, a) == SumSq(xs) - 2 * a * Sum(xs) + |xs| * a * a
  {
    if xs != [] {
      var init, x := xs[..|xs| - 1], xs[|xs| - 1];
      SqDevExpand(init, a);
      assert SqDev(xs, a) == SqDev(init, a) + Square(x - a);
      assert SumSq(xs) == SumSq(init) + Square(x) && Sum(xs) == Sum(init) + x;
      SqDevStepAlgebra(SqDev(init, a), SumSq(init), Sum(init), |init|, x, a);
    }
  }

  /** Adding one point grows the spread by that point's squared distance
      from every earlier one. */
  lemma SpreadStep(xs: seq<int>, a: int)
    ensures Spread(xs + [a]) == Spread(xs) + SqDev(xs, a)
  {
    var ys := xs + [a];
    assert ys[..|ys| - 1] == xs;
    var n, s1, s2 := |xs|, Sum(xs), SumSq(xs);
    assert Sum(ys) == s1 + a;
    assert SumSq(ys) == s2 + a * a;
    SqDevExpand(xs, a);
    SpreadAlgebra(n, s1, s2, a);
  }

  lemma {:induction false} SqDevAtLeast(xs: seq<int>, a: int, k: nat)
    requires k < |xs|
    ensures SqDev(xs, a) >= Square(xs[k] - a)
  {
    var init := xs[..|xs| - 1];
    assert SqDev(xs, a) == SqDev(init, a) + Square(xs[|xs| - 1] - a);
    SqDevNonneg(init, a);
    if k < |xs| - 1 {
      SqDevAtLeast(init, a, k);
      assert init[k] == xs[k];
    }
  }

  lemma {:induction false} SqDevNonneg(xs: seq<int>, a: int)
    ensures SqDev(xs, a) >= 0
  {
    if xs != [] {
      SqDevNonneg(xs[..|xs| - 1], a);
    }
  }

  lemma {:induction false} SpreadNonneg(xs: seq<int>)
    ensures Spread(xs) >= 0
  {
    if xs != [] {
      var init := xs[..|xs| - 1];
      assert xs == init + [xs[|xs| - 1]];
      SpreadNonneg(init);
      SpreadStep(init, xs[|xs| - 1]);
      SqDevNonneg(init, xs[|xs| - 1]);
    }
  }

  /** The fit is determined as soon as the first and last abscissae differ. */
  lemma SpreadPositive(xs: seq<int>)
    requires |xs| >= 2 && xs[0] != xs[|xs| - 1]
    ensures Spread(xs) > 0
  {
    var init, last := xs[..|xs| - 1], xs[|xs| - 1];
    assert xs == init + [last];
    SpreadNonneg(init);
    SpreadStep(init, last);
    SqDevAtLeast(init, last, 0);
    SquareOfNonzero(init[0] - last);
  }

  /** Points on the line q*y = c + k*x (q > 0) have least-squares slope k/q:
      the fit recovers an exact linear trend. */
  lemma ExactOnLine(xs: seq<int>, ys: seq<int>, q: int, c: int, k: int)
    requires |xs| == |ys| && q > 0
    requires forall i :: 0 <= i < |xs| ==> q * ys[i] == c + k * xs[i]
    ensures q * Covariation(xs, ys) == k * Spread(xs)
    ensures Spread(xs) > 0 ==> Slope(xs, ys) == k as real / q as real
  {
    LineSums(xs, ys, q, c, k);
    LineAlgebra(|xs|, Sum(xs), SumSq(xs), Sum(ys), SumProd(xs, ys), q, c, k);
    if Spread(xs) > 0 {
      RatioOfProportional(Covariation(xs, ys), Spread(xs), q, k);
    }
  }

  lemma {:induction false} LineSums(xs: seq<int>, ys: seq<int>, q: int, c: int, k: int)
    requires |xs| == |ys|
    requires forall i :: 0 <= i < |xs| ==> q * ys[i] == c + k * xs[i]
    ensures q * Sum(ys) == |xs| * c + k * Sum(xs)
    ensures q * SumProd(xs, ys) == c * Sum(xs) + k * SumSq(xs)
  {
    if xs != [] {
      var xi, yi, x, y := xs[..|xs| - 1], ys[..|ys| - 1], xs[|xs| - 1], ys[|ys| - 1];
      LineSums(xi, yi, q, c, k);
      assert q * y == c + k * x;
      assert Sum(xs) == Sum(xi) + x && SumSq(xs) == SumSq(xi) + x * x;
      assert Sum(ys) == Sum(yi) + y && SumProd(xs, ys) == SumProd(xi, yi) + x * y;
      LineSumsAlgebra(q, c, k, x, y, |xi|, Sum(xi), Sum(yi), SumSq(xi), SumProd(xi, yi));
    }
  }

  /** xs with d added to every abscissa. */
  function Shift(xs: seq<int>, d: int): (r: seq<int>)
    ensures |r| == |xs|
    ensures forall i :: 0 <= i < |xs| ==> r[i] == xs[i] + d
  {
    if xs == [] then [] else Shift(xs[..|xs| - 1], d) + [xs[|xs| - 1] + d]
  }

  /** Moving the time origin does not change the fit: measuring time from the
      oldest sample (as the trigger engine does) or from any other instant
      gives the same spread and covariation, hence the same slope. */
  lemma ShiftInvariant(xs: seq<int>, ys: seq<int>, d: int)
    requires |xs| == |ys|
    ensures Spread(Shift(xs, d)) == Spread(xs)
    ensures Covariation(Shift(xs, d), ys) == Covariation(xs, ys)
  {
    ShiftSums(xs, ys, d);
    ShiftAlgebra(|xs|, Sum(xs), SumSq(xs), Sum(ys), SumProd(xs, ys), d);
  }

  lemma ShiftSums(xs: seq<int>, ys: seq<int>, d: int)
    requires |xs| == |ys|
    ensures Sum(Shift(xs, d)) == Sum(xs) + |xs| * d
    ensures SumSq(Shift(xs, d)) == SumSq(xs) + 2 * d * Sum(xs) + |xs| * d * d
    ensures SumProd(Shift(xs, d), ys) == SumProd(xs, ys) + d * Sum(ys)
  {
    ShiftSum(xs, d);
    ShiftSumSq(xs, d);
    ShiftSumProd(xs, ys, d);
  }

  lemma {:induction false} ShiftSum(xs: seq<int>, d: int)
    ensures Sum(Shift(xs, d)) == Sum(xs) + |xs| * d
  {
    if xs != [] {
      var xi, x := xs[..|xs| - 1], xs[|xs| - 1];
      var sh := Shift(xs, d);
      assert sh[..|sh| - 1] == Shift(xi, d);
      ShiftSum(xi, d);
      assert |xs| * d == |xi| * d + d;
    }
  }

  lemma {:induction false} ShiftSumSq(xs: seq<int>, d: int)
    ensures SumSq(Shift(xs, d)) == SumSq(xs) + 2 * d * Sum(xs) + |xs| * d * d
  {
    if xs != [] {
      var xi, x := xs[..|xs| - 1], xs[|xs| - 1];
      var sh := Shift(xs, d);
      assert sh[..|sh| - 1] == Shift(xi, d);
      assert SumSq(sh) == SumSq(Shift(xi, d)) + (x + d) * (x + d);
      ShiftSumSq(xi, d);
      assert SumSq(xs) == SumSq(xi) + x * x && Sum(xs) == Sum(xi) + x;
      ShiftSqAlgebra(SumSq(xi), Sum(xi), |xi|, x, d);
    }
  }

  lemma {:induction false} ShiftSumProd(xs: seq<int>, ys: seq<int>, d: int)
    requires |xs| == |ys|
    ensures SumProd(Shift(xs, d), ys) == SumProd(xs, ys) + d * Sum(ys)
  {
    if xs != [] {
      var xi, yi, x, y := xs[..|xs| - 1], ys[..|ys| - 1], xs[|xs| - 1], ys[|ys| - 1];
      var sh := Shift(xs, d);
      assert sh[..|sh| - 1] == Shift(xi, d);
      assert SumProd(sh, ys) == SumProd(Shift(xi, d), yi) + (x + d) * y;
      ShiftSumProd(xi, yi, d);
      assert SumProd(xs, ys) == SumProd(xi, yi) + x * y;
      assert Sum(ys) == Sum(yi) + y;
      ShiftProdAlgebra(SumProd(xi, yi), Sum(yi), x, y, d);
    }
  }
}
