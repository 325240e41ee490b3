/** The two least-squares fits: the leak detector's trend line and the benchmark's power law. */
module LeastSquares {
  import opened JsText
  import opened RealFacts

  // ---- real arithmetic ----

  /** The line with intercept a and slope b, at x. */
  function At(a: real, b: real, x: real): real { a + b * x }

  /** The intercept of the line with slope s through (mx, my). */
  function Through(mx: real, my: real, s: real): real { my - s * mx }

  function Mix(p: real, q: real, u: real, v: real): real { p * u + q * v }

  // ---- sums over points ----

  function Sum(xs: seq<real>): real {
    if xs == [] then 0.0 else Sum(xs[..|xs| - 1]) + xs[|xs| - 1]
  }

  function Mean(xs: seq<real>): real
    requires xs != []
  {
    Sum(xs) / |xs| as real
  }

  /** The sum of (x - a) * (y - b) over the first n points. */
  function Dot(xs: seq<real>, a: real, ys: seq<real>, b: real, n: nat): real
    requires n <= |xs| && n <= |ys|
  {
    if n == 0 then 0.0 else Dot(xs, a, ys, b, n - 1) + Times(xs[n - 1] - a, ys[n - 1] - b)
  }

  /** The sum of x - a over the first n points. */
  function Shifted(xs: seq<real>, a: real, n: nat): real
    requires n <= |xs|
  {
    if n == 0 then 0.0 else Shifted(xs, a, n - 1) + (xs[n - 1] - a)
  }

  /** How far point i lies above the line. */
  function Miss(xs: seq<real>, ys: seq<real>, a: real, b: real, i: nat): real
    requires i < |xs| && i < |ys|
  {
    ys[i] - At(a, b, xs[i])
  }

  /** The sum of squared misses of a line over the first n points. */
  function Residual(xs: seq<real>, ys: seq<real>, a: real, b: real, n: nat): real
    requires n <= |xs| && n <= |ys|
  {
    if n == 0 then 0.0
    else
      var e := Miss(xs, ys, a, b, n - 1);
      Residual(xs, ys, a, b, n - 1) + Times(e, e)
  }

  function MissSum(xs: seq<real>, ys: seq<real>, a: real, b: real, n: nat): real
    requires n <= |xs| && n <= |ys|
  {
    if n == 0 then 0.0 else MissSum(xs, ys, a, b, n - 1) + Miss(xs, ys, a, b, n - 1)
  }

  function MissMoment(xs: seq<real>, ys: seq<real>, a: real, b: real, n: nat): real
    requires n <= |xs| && n <= |ys|
  {
    if n == 0 then 0.0 else MissMoment(xs, ys, a, b, n - 1) + Times(xs[n - 1], Miss(xs, ys, a, b, n - 1))
  }

  /** The sum of squared heights of a line over the first n x values. */
  function Heights(xs: seq<real>, a: real, b: real, n: nat): real
    requires n <= |xs|
  {
    if n == 0 then 0.0
    else
      var h := At(a, b, xs[n - 1]);
      Heights(xs, a, b, n - 1) + Times(h, h)
  }

  lemma {:induction false} DotSign(xs: seq<real>, a: real, n: nat)
    requires n <= |xs|
    ensures Dot(xs, a, xs, a, n) >= 0.0
    ensures Dot(xs, a, xs, a, n) == 0.0 <==> forall i :: 0 <= i < n ==> xs[i] == a
  {
    if n > 0 {
      DotSign(xs, a, n - 1);
      SquareSign(xs[n - 1] - a);
    }
  }

  lemma {:induction false} ResidualSign(xs: seq<real>, ys: seq<real>, a: real, b: real, n: nat)
    requires n <= |xs| && n <= |ys|
    ensures Residual(xs, ys, a, b, n) >= 0.0
    ensures Residual(xs, ys, a, b, n) == 0.0 <==> forall i :: 0 <= i < n ==> ys[i] == At(a, b, xs[i])
  {
    if n > 0 {
      ResidualSign(xs, ys, a, b, n - 1);
      SquareSign(Miss(xs, ys, a, b, n - 1));
    }
  }

  lemma {:induction false} HeightsSign(xs: seq<real>, a: real, b: real, n: nat)
    requires n <= |xs|
    ensures Heights(xs, a, b, n) >= 0.0
    ensures Heights(xs, a, b, n) == 0.0 <==> forall i :: 0 <= i < n ==> At(a, b, xs[i]) == 0.0
  {
    if n > 0 {
      HeightsSign(xs, a, b, n - 1);
      SquareSign(At(a, b, xs[n - 1]));
    }
  }

  lemma {:induction false} ShiftedSum(xs: seq<real>, a: real, n: nat)
    requires n <= |xs|
    ensures Shifted(xs, a, n) == Sum(xs[..n]) - Times(n as real, a)
  {
    if n > 0 {
      ShiftedSum(xs, a, n - 1);
      assert xs[..n][..n - 1] == xs[..n - 1];
      OneMore(n, a);
    }
  }

  lemma OneMore(n: nat, a: real)
    requires n > 0
    ensures Times(n as real, a) == Times((n - 1) as real, a) + a
  {
  }

  lemma {:induction false} DeviationsCancel(xs: seq<real>)
    requires xs != []
    ensures Shifted(xs, Mean(xs), |xs|) == 0.0
  {
    ShiftedSum(xs, Mean(xs), |xs|);
    assert xs[..|xs|] == xs;
  }

  // ---- the best line ----

  ghost predicate IsBestLine(xs: seq<real>, ys: seq<real>, a: real, b: real)
    requires |xs| == |ys|
  {
    forall c, d :: Residual(xs, ys, a, b, |xs|) <= Residual(xs, ys, c, d, |xs|)
  }

  /** The misses sum to zero, alone and weighted by x. */
  ghost predicate NormalEquations(xs: seq<real>, ys: seq<real>, a: real, b: real)
    requires |xs| == |ys|
  {
    MissSum(xs, ys, a, b, |xs|) == 0.0 && MissMoment(xs, ys, a, b, |xs|) == 0.0
  }

  lemma SquareOfSum(x: real, y: real, a: real, b: real, c: real, s: real)
    ensures Times(y - At(a, b, x), y - At(a, b, x))
            == Times(y - At(c, s, x), y - At(c, s, x)) + Times(At(c - a, s - b, x), At(c - a, s - b, x))
               + 2.0 * Mix(c - a, s - b, y - At(c, s, x), Times(x, y - At(c, s, x)))
  {
  }

  lemma MixAdds(p: real, q: real, u: real, v: real, u': real, v': real)
    ensures Mix(p, q, u + u', v + v') == Mix(p, q, u, v) + Mix(p, q, u', v')
  {
  }

  /** Two lines compared: the residuals differ by the distance between the lines and a cross term. */
  lemma {:induction false} CompareLines(xs: seq<real>, ys: seq<real>, a: real, b: real, c: real, s: real, n: nat)
    requires n <= |xs| && n <= |ys|
    ensures Residual(xs, ys, a, b, n)
            == Residual(xs, ys, c, s, n) + Heights(xs, c - a, s - b, n)
               + 2.0 * Mix(c - a, s - b, MissSum(xs, ys, c, s, n), MissMoment(xs, ys, c, s, n))
  {
    if n == 0 {
    } else {
      var k := n - 1;
      CompareLines(xs, ys, a, b, c, s, k);
      SquareOfSum(xs[k], ys[k], a, b, c, s);
      var e := Miss(xs, ys, c, s, k);
      MixAdds(c - a, s - b, MissSum(xs, ys, c, s, k), MissMoment(xs, ys, c, s, k), e, Times(xs[k], e));
    }
  }

  /** A line that satisfies the normal equations beats every other line by their distance. */
  lemma {:induction false} NormalLineGap(xs: seq<real>, ys: seq<real>, a: real, b: real, c: real, s: real)
    requires |xs| == |ys| && NormalEquations(xs, ys, c, s)
    ensures Residual(xs, ys, a, b, |xs|) == Residual(xs, ys, c, s, |xs|) + Heights(xs, c - a, s - b, |xs|)
  {
    CompareLines(xs, ys, a, b, c, s, |xs|);
  }

  lemma {:induction false} NormalLineIsBest(xs: seq<real>, ys: seq<real>, c: real, s: real)
    requires |xs| == |ys| && NormalEquations(xs, ys, c, s)
    ensures IsBestLine(xs, ys, c, s)
  {
    forall a, b ensures Residual(xs, ys, c, s, |xs|) <= Residual(xs, ys, a, b, |xs|) {
      NormalLineGap(xs, ys, a, b, c, s);
      HeightsSign(xs, c - a, s - b, |xs|);
    }
  }

  /** Where two x values differ, the best line is unique. */
  lemma {:induction false} BestLineIsUnique(
    xs: seq<real>, ys: seq<real>, a: real, b: real, c: real, s: real, i: nat, j: nat)
    requires |xs| == |ys| && NormalEquations(xs, ys, c, s) && IsBestLine(xs, ys, a, b)
    requires i < |xs| && j < |xs| && xs[i] != xs[j]
    ensures a == c && b == s
  {
    NormalLineGap(xs, ys, a, b, c, s);
    HeightsSign(xs, c - a, s - b, |xs|);
    assert Residual(xs, ys, a, b, |xs|) <= Residual(xs, ys, c, s, |xs|);
  }

  /** Points on a line with two different x values are fitted by that line. */
  lemma {:induction false} ExactLineIsRecovered(
    xs: seq<real>, ys: seq<real>, a: real, b: real, c: real, s: real, i: nat, j: nat)
    requires |xs| == |ys| && NormalEquations(xs, ys, c, s)
    requires forall k :: 0 <= k < |xs| ==> ys[k] == At(a, b, xs[k])
    requires i < |xs| && j < |xs| && xs[i] != xs[j]
    ensures a == c && b == s
  {
    ResidualSign(xs, ys, a, b, |xs|);
    forall a', b' ensures Residual(xs, ys, a, b, |xs|) <= Residual(xs, ys, a', b', |xs|) {
      ResidualSign(xs, ys, a', b', |xs|);
    }
    BestLineIsUnique(xs, ys, a, b, c, s, i, j);
  }

  // ---- the computed slope and intercept ----

  lemma TimesAdds(k: real, u: real, v: real)
    ensures Times(k, u + v) == Times(k, u) + Times(k, v)
  {
  }

  lemma TimesZero(k: real)
    ensures Times(k, 0.0) == 0.0
  {
  }

  lemma {:induction false} MissSumByDeviations(xs: seq<real>, ys: seq<real>, mx: real, my: real, s: real, n: nat)
    requires n <= |xs| && n <= |ys|
    ensures MissSum(xs, ys, Through(mx, my, s), s, n) == Shifted(ys, my, n) - Times(s, Shifted(xs, mx, n))
  {
    if n == 0 {
      TimesZero(s);
    } else {
      MissSumByDeviations(xs, ys, mx, my, s, n - 1);
      TimesAdds(s, Shifted(xs, mx, n - 1), xs[n - 1] - mx);
    }
  }

  lemma MomentSplits(x: real, y: real, mx: real, my: real, s: real)
    ensures var e := y - At(Through(mx, my, s), s, x);
            Times(x, e) == Times(x - mx, y - my) - Times(s, Times(x - mx, x - mx)) + Times(mx, e)
  {
  }

  lemma {:induction false} MissMomentByDots(xs: seq<real>, ys: seq<real>, mx: real, my: real, s: real, n: nat)
    requires n <= |xs| && n <= |ys|
    ensures MissMoment(xs, ys, Through(mx, my, s), s, n)
            == Dot(xs, mx, ys, my, n) - Times(s, Dot(xs, mx, xs, mx, n))
               + Times(mx, MissSum(xs, ys, Through(mx, my, s), s, n))
  {
    if n == 0 {
      TimesZero(s);
      TimesZero(mx);
    } else {
      var k, c := n - 1, Through(mx, my, s);
      MissMomentByDots(xs, ys, mx, my, s, k);
      MomentSplits(xs[k], ys[k], mx, my, s);
      TimesAdds(s, Dot(xs, mx, xs, mx, k), Times(xs[k] - mx, xs[k] - mx));
      TimesAdds(mx, MissSum(xs, ys, c, s, k), Miss(xs, ys, c, s, k));
    }
  }

  /** A slope that balances the sums centred at (mx, my), which is the centroid. */
  ghost predicate Balances(xs: seq<real>, ys: seq<real>, mx: real, my: real, s: real)
    requires |xs| == |ys|
  {
    && Shifted(xs, mx, |xs|) == 0.0 && Shifted(ys, my, |ys|) == 0.0
    && Times(s, Dot(xs, mx, xs, mx, |xs|)) == Dot(xs, mx, ys, my, |xs|)
  }

  /** The line through the centroid with a balancing slope. */
  lemma {:induction false} CentredLineIsNormal(xs: seq<real>, ys: seq<real>, mx: real, my: real, s: real)
    requires |xs| == |ys| && Balances(xs, ys, mx, my, s)
    ensures NormalEquations(xs, ys, Through(mx, my, s), s)
  {
    MissSumByDeviations(xs, ys, mx, my, s, |xs|);
    MissMomentByDots(xs, ys, mx, my, s, |xs|);
    TimesZero(s);
    TimesZero(mx);
  }

  lemma {:induction false} DotVanishes(xs: seq<real>, a: real, ys: seq<real>, b: real, n: nat)
    requires n <= |xs| && n <= |ys|
    requires forall i :: 0 <= i < n ==> xs[i] == a
    ensures Dot(xs, a, ys, b, n) == 0.0
  {
    if n > 0 { DotVanishes(xs, a, ys, b, n - 1); }
  }

  // ---- R squared ----

  /** The variation of the y values about their mean. */
  function Spread(ys: seq<real>): real
    requires ys != []
  {
    Dot(ys, Mean(ys), ys, Mean(ys), |ys|)
  }

  /** 1 - r is the share of the variation that the line leaves over. */
  ghost predicate Explains(xs: seq<real>, ys: seq<real>, a: real, b: real, r: real)
    requires |xs| == |ys| > 0
  {
    Times(1.0 - r, Spread(ys)) == Residual(xs, ys, a, b, |xs|)
  }

  lemma {:induction false} FlatResidual(xs: seq<real>, ys: seq<real>, m: real, n: nat)
    requires n <= |xs| && n <= |ys|
    ensures Residual(xs, ys, m, 0.0, n) == Dot(ys, m, ys, m, n)
  {
    if n > 0 {
      FlatResidual(xs, ys, m, n - 1);
    }
  }

  /** R squared lies in [0, 1], and is 1 exactly when every point lies on the line. */
  lemma {:induction false} RSquaredRange(xs: seq<real>, ys: seq<real>, c: real, s: real, r: real)
    requires |xs| == |ys| > 0 && IsBestLine(xs, ys, c, s) && Explains(xs, ys, c, s, r) && Spread(ys) != 0.0
    ensures 0.0 <= r <= 1.0
    ensures r == 1.0 <==> forall i :: 0 <= i < |xs| ==> ys[i] == At(c, s, xs[i])
  {
    FlatResidual(xs, ys, Mean(ys), |xs|);
    DotSign(ys, Mean(ys), |ys|);
    ResidualSign(xs, ys, c, s, |xs|);
    assert Residual(xs, ys, c, s, |xs|) <= Residual(xs, ys, Mean(ys), 0.0, |xs|);
    ShareRange(r, Spread(ys));
  }

  lemma ShareRange(r: real, t: real)
    requires t > 0.0 && 0.0 <= Times(1.0 - r, t) <= t
    ensures 0.0 <= r <= 1.0
    ensures r == 1.0 <==> Times(1.0 - r, t) == 0.0
  {
    SignOfProduct(1.0 - r, t);
    SignOfProduct(r, t);
    assert Times(1.0 - r, t) == t - Times(r, t);
  }

  /** The variation determines R squared, so the two programs report the same value when there is some. */
  lemma {:induction false} RSquaredIsUnique(xs: seq<real>, ys: seq<real>, c: real, s: real, r: real, r': real)
    requires |xs| == |ys| > 0 && Spread(ys) != 0.0
    requires Explains(xs, ys, c, s, r) && Explains(xs, ys, c, s, r')
    ensures r == r'
  {
    if r != r' { ProductNonZero(r' - r, Spread(ys)); }
    assert Times(r' - r, Spread(ys)) == Times(1.0 - r, Spread(ys)) - Times(1.0 - r', Spread(ys));
  }

  lemma {:induction false} HeightsScaled(xs: seq<real>, mx: real, my: real, s: real, n: nat)
    requires n <= |xs|
    ensures Heights(xs, Through(mx, my, s) - my, s - 0.0, n) == Times(Times(s, s), Dot(xs, mx, xs, mx, n))
  {
    if n == 0 {
      TimesZero(Times(s, s));
    } else {
      var v := xs[n - 1] - mx;
      HeightsScaled(xs, mx, my, s, n - 1);
      TimesAdds(Times(s, s), Dot(xs, mx, xs, mx, n - 1), Times(v, v));
    }
  }

  /** What the line through the centroid with a balancing slope leaves over. */
  lemma {:induction false} CentredResidual(xs: seq<real>, ys: seq<real>, mx: real, my: real, s: real)
    requires |xs| == |ys| && Balances(xs, ys, mx, my, s)
    ensures Residual(xs, ys, Through(mx, my, s), s, |xs|)
            == Dot(ys, my, ys, my, |ys|) - Times(s, Dot(xs, mx, ys, my, |xs|))
  {
    CentredLineIsNormal(xs, ys, mx, my, s);
    NormalLineGap(xs, ys, my, 0.0, Through(mx, my, s), s);
    FlatResidual(xs, ys, my, |xs|);
    HeightsScaled(xs, mx, my, s, |xs|);
    Regroup(s, Dot(xs, mx, xs, mx, |xs|));
  }

  lemma Regroup(s: real, t: real)
    ensures Times(Times(s, s), t) == Times(s, Times(s, t))
  {
  }

  // ---- the detector's trend line ----

  datatype Fit = Fit(slope: real, intercept: real, r2: real)

  predicate AllSame(xs: seq<real>) { forall i, j :: 0 <= i < j < |xs| ==> xs[i] == xs[j] }

  lemma {:induction false} NoSpreadMeansSame(xs: seq<real>)
    requires xs != []
    ensures Spread(xs) == 0.0 <==> AllSame(xs)
  {
    DotSign(xs, Mean(xs), |xs|);
    if AllSame(xs) {
      ConstantShift(xs, xs[0], Mean(xs), |xs|);
      DeviationsCancel(xs);
      if Mean(xs) != xs[0] { ProductNonZero(|xs| as real, xs[0] - Mean(xs)); }
    }
  }

  lemma {:induction false} ConstantShift(xs: seq<real>, c: real, mean: real, n: nat)
    requires n <= |xs| && forall i :: 0 <= i < |xs| ==> xs[i] == c
    ensures Shifted(xs, mean, n) == Times(n as real, c - mean)
  {
    if n > 0 {
      ConstantShift(xs, c, mean, n - 1);
      OneMore(n, c - mean);
    }
  }

  method CentredSums(xs: seq<real>, mx: real, ys: seq<real>, my: real) returns (sxx: real, sxy: real, syy: real)
    requires |xs| == |ys|
    ensures sxx == Dot(xs, mx, xs, mx, |xs|)
    ensures sxy == Dot(xs, mx, ys, my, |xs|)
    ensures syy == Dot(ys, my, ys, my, |ys|)
  {
    sxx, sxy, syy := 0.0, 0.0, 0.0;
    for i := 0 to |xs|
      invariant sxx == Dot(xs, mx, xs, mx, i)
      invariant sxy == Dot(xs, mx, ys, my, i)
      invariant syy == Dot(ys, my, ys, my, i)
    {
      sxy := sxy + Times(xs[i] - mx, ys[i] - my);
      sxx := sxx + Times(xs[i] - mx, xs[i] - mx);
      syy := syy + Times(ys[i] - my, ys[i] - my);
    }
  }

  /** sxy / sxx, or 0 where the x values do not vary. */
  method SlopeOf(xs: seq<real>, ys: seq<real>, mx: real, my: real, sxx: real, sxy: real) returns (slope: real)
    requires |xs| == |ys| > 0 && mx == Mean(xs) && my == Mean(ys)
    requires sxx == Dot(xs, mx, xs, mx, |xs|) && sxy == Dot(xs, mx, ys, my, |xs|)
    ensures Balances(xs, ys, mx, my, slope)
    ensures AllSame(xs) ==> slope == 0.0
  {
    NoSpreadMeansSame(xs);
    DeviationsCancel(xs);
    DeviationsCancel(ys);
    slope := 0.0;
    if sxx == 0.0 {
      DotSign(xs, mx, |xs|);
      DotVanishes(xs, mx, ys, my, |xs|);
    } else {
      slope := sxy / sxx;
    }
  }

  /** Three points or more: the best line, and the share of the variation it explains. */
  method LinearFit(xs: seq<real>, ys: seq<real>) returns (fit: Fit)
    requires |xs| == |ys|
    ensures |xs| < 3 ==> fit == Fit(0.0, ShortFit(ys), 0.0)
    ensures |xs| >= 3 ==>
              && NormalEquations(xs, ys, fit.intercept, fit.slope)
              && IsBestLine(xs, ys, fit.intercept, fit.slope)
              && (AllSame(xs) ==> fit.slope == 0.0)
              && Explains(xs, ys, fit.intercept, fit.slope, fit.r2)
              && (AllSame(ys) ==> fit.r2 == 0.0)
  {
    var n := |xs|;
    if n < 3 { return Fit(0.0, if |ys| == 0 then 0.0 else ys[0], 0.0); }
    var mx, my := Mean(xs), Mean(ys);
    var sxx, sxy, syy := CentredSums(xs, mx, ys, my);
    var slope := SlopeOf(xs, ys, mx, my, sxx, sxy);
    var r2 := ShareOf(xs, ys, mx, my, sxx, sxy, syy, slope);
    CentredLineIsNormal(xs, ys, mx, my, slope);
    NormalLineIsBest(xs, ys, Through(mx, my, slope), slope);
    fit := Fit(slope, Through(mx, my, slope), r2);
  }

  method ShareOf(
    xs: seq<real>, ys: seq<real>, mx: real, my: real, sxx: real, sxy: real, syy: real, slope: real)
    returns (r2: real)
    requires |xs| == |ys| > 0 && mx == Mean(xs) && my == Mean(ys)
    requires sxx == Dot(xs, mx, xs, mx, |xs|) && sxy == Dot(xs, mx, ys, my, |xs|) && syy == Dot(ys, my, ys, my, |ys|)
    requires Balances(xs, ys, mx, my, slope)
    ensures Explains(xs, ys, Through(mx, my, slope), slope, r2)
    ensures AllSame(ys) ==> r2 == 0.0
  {
    NoSpreadMeansSame(ys);
    CentredResidual(xs, ys, mx, my, slope);
    if sxx == 0.0 || syy == 0.0 {
      r2 := 0.0;
      NothingExplained(xs, ys, mx, my, slope);
    } else {
      ProductNonZero(sxx, syy);
      r2 := Times(sxy, sxy) / Times(sxx, syy);
    }
  }

  lemma {:induction false} NothingExplained(xs: seq<real>, ys: seq<real>, mx: real, my: real, s: real)
    requires |xs| == |ys| && Balances(xs, ys, mx, my, s)
    requires Dot(xs, mx, xs, mx, |xs|) == 0.0 || Dot(ys, my, ys, my, |ys|) == 0.0
    ensures Residual(xs, ys, Through(mx, my, s), s, |xs|) == Dot(ys, my, ys, my, |ys|)
  {
    TimesZero(s);
    if Dot(xs, mx, xs, mx, |xs|) != 0.0 {
      DotSign(ys, my, |ys|);
      DotVanishes(ys, my, xs, mx, |xs|);
      DotSymmetric(xs, mx, ys, my, |xs|);
    }
    CentredResidual(xs, ys, mx, my, s);
  }

  lemma {:induction false} DotSymmetric(xs: seq<real>, a: real, ys: seq<real>, b: real, n: nat)
    requires n <= |xs| && n <= |ys|
    ensures Dot(xs, a, ys, b, n) == Dot(ys, b, xs, a, n)
  {
    if n > 0 {
      DotSymmetric(xs, a, ys, b, n - 1);
    }
  }

  /** The height of the flat line returned for fewer than three points. */
  function ShortFit(ys: seq<real>): real { if ys == [] then 0.0 else ys[0] }

  /** Below three points that line is still best except for two different values. */
  lemma {:induction false} ShortFitBestExactly(xs: seq<real>, ys: seq<real>)
    requires |xs| == |ys| < 3
    ensures IsBestLine(xs, ys, ShortFit(ys), 0.0) <==> (|ys| == 2 ==> ys[0] == ys[1])
  {
    var a := ShortFit(ys);
    FlatResidual(xs, ys, a, |xs|);
    DotSign(ys, a, |ys|);
    if |ys| == 2 ==> ys[0] == ys[1] {
      forall c, d ensures Residual(xs, ys, a, 0.0, |xs|) <= Residual(xs, ys, c, d, |xs|) {
        ResidualSign(xs, ys, c, d, |xs|);
      }
    } else {
      var mid := (ys[0] + ys[1]) / 2.0;
      FlatResidual(xs, ys, mid, |xs|);
      HalfwayIsBetter(ys[0], ys[1]);
      assert Dot(ys, a, ys, a, 2) == Dot(ys, a, ys, a, 1) + Times(ys[1] - a, ys[1] - a);
      assert Dot(ys, mid, ys, mid, 2) == Dot(ys, mid, ys, mid, 1) + Times(ys[1] - mid, ys[1] - mid);
      assert Dot(ys, a, ys, a, 1) == Times(ys[0] - a, ys[0] - a);
      assert Dot(ys, mid, ys, mid, 1) == Times(ys[0] - mid, ys[0] - mid);
    }
  }

  lemma HalfwayIsBetter(p: real, q: real)
    requires p != q
    ensures var mid := (p + q) / 2.0;
            Times(p - mid, p - mid) + Times(q - mid, q - mid) < Times(p - p, p - p) + Times(q - p, q - p)
  {
    var h := (q - p) / 2.0;
    SquareSign(h);
    var mid := (p + q) / 2.0;
    assert p - mid == -h && q - mid == h && q - p == h + h;
    assert Times(p - mid, p - mid) == Times(h, h);
    assert Times(q - p, q - p) == 4.0 * Times(h, h);
  }

  // ---- the benchmark's power law ----

  datatype Point = Point(n: nat, cost: nat)

  predicate Usable(p: Point) { p.n > 0 && p.cost > 0 }

  function Filtered(points: seq<Point>): seq<Point> {
    if points == [] then []
    else
      var k := |points| - 1;
      Filtered(points[..k]) + if Usable(points[k]) then [points[k]] else []
  }

  function LogXs(ln: real -> real, points: seq<Point>): (xs: seq<real>)
    ensures |xs| == |points|
  {
    seq(|points|, i requires 0 <= i < |points| => ln(points[i].n as real))
  }

  function LogYs(ln: real -> real, points: seq<Point>): (ys: seq<real>)
    ensures |ys| == |points|
  {
    seq(|points|, i requires 0 <= i < |points| => ln(points[i].cost as real))
  }

  datatype FitResult = FitResult(exponent: real, rSquared: real)

  ghost predicate InjectiveOnPositives(ln: real -> real) {
    forall x, y :: x > 0.0 && y > 0.0 && ln(x) == ln(y) ==> x == y
  }

  /** Two points with different n. */
  predicate TwoSizes(points: seq<Point>) {
    exists i, j :: 0 <= i < j < |points| && points[i].n != points[j].n
  }

  lemma {:induction false} FilteredUsable(points: seq<Point>)
    ensures forall p :: p in Filtered(points) <==> p in points && Usable(p)
  {
    if points != [] {
      var k := |points| - 1;
      FilteredUsable(points[..k]);
      assert points == points[..k] + [points[k]];
    }
  }

  /** Exactly the points of positive size and cost are fitted, each as often as it was measured. */
  lemma {:induction false} FilteredCounts(points: seq<Point>, p: Point)
    ensures multiset(Filtered(points))[p] == if p.n > 0 && p.cost > 0 then multiset(points)[p] else 0
  {
    if points != [] {
      var k := |points| - 1;
      FilteredCounts(points[..k], p);
      assert points == points[..k] + [points[k]];
    }
  }

  /** Logarithms of n vary exactly when n does. */
  lemma {:induction false} LogsVaryExactly(ln: real -> real, points: seq<Point>)
    requires InjectiveOnPositives(ln) && forall p :: p in points ==> Usable(p)
    ensures !AllSame(LogXs(ln, points)) <==> TwoSizes(points)
  {
    var xs := LogXs(ln, points);
    forall i, j | 0 <= i < j < |points| ensures xs[i] == xs[j] <==> points[i].n == points[j].n {
      assert points[i] in points && points[j] in points;
    }
  }

  ghost predicate IsPowerLaw(fit: FitResult, xs: seq<real>, ys: seq<real>)
    requires |xs| == |ys| > 0
  {
    var intercept := Through(Mean(xs), Mean(ys), fit.exponent);
    && NormalEquations(xs, ys, intercept, fit.exponent)
    && IsBestLine(xs, ys, intercept, fit.exponent)
    && Explains(xs, ys, intercept, fit.exponent, fit.rSquared)
    && (AllSame(ys) ==> fit.rSquared == 1.0)
  }

  /** A fit exactly when two usable points differ in n; then the best line in log-log scale. */
  method FitPowerLaw(points: seq<Point>, ln: real -> real) returns (fit: Option<FitResult>)
    ensures InjectiveOnPositives(ln) ==> (fit.Some? <==> TwoSizes(Filtered(points)))
    ensures fit.Some? ==>
              var xs, ys := LogXs(ln, Filtered(points)), LogYs(ln, Filtered(points));
              |xs| >= 2 && !AllSame(xs) && IsPowerLaw(fit.value, xs, ys)
  {
    var used := Filtered(points);
    var xs, ys := LogXs(ln, used), LogYs(ln, used);
    FilteredUsable(points);
    if InjectiveOnPositives(ln) { LogsVaryExactly(ln, used); }
    if |xs| < 2 { return None; }
    var meanX, meanY := Mean(xs), Mean(ys);
    var ssXx, ssXy := 0.0, 0.0;
    for i := 0 to |xs|
      invariant ssXx == Dot(xs, meanX, xs, meanX, i)
      invariant ssXy == Dot(xs, meanX, ys, meanY, i)
    {
      ssXx := ssXx + Times(xs[i] - meanX, xs[i] - meanX);
      ssXy := ssXy + Times(xs[i] - meanX, ys[i] - meanY);
    }
    NoSpreadMeansSame(xs);
    if ssXx == 0.0 { return None; }
    var result := PowerLawOf(xs, ys, meanX, meanY, ssXx, ssXy);
    fit := Some(result);
  }

  method PowerLawOf(
    xs: seq<real>, ys: seq<real>, meanX: real, meanY: real, ssXx: real, ssXy: real)
    returns (fit: FitResult)
    requires |xs| == |ys| > 0 && meanX == Mean(xs) && meanY == Mean(ys)
    requires ssXx == Dot(xs, meanX, xs, meanX, |xs|) != 0.0 && ssXy == Dot(xs, meanX, ys, meanY, |xs|)
    ensures IsPowerLaw(fit, xs, ys)
  {
    var slope := SlopeOf(xs, ys, meanX, meanY, ssXx, ssXy);
    var intercept := Through(meanX, meanY, slope);
    var ssTot, ssRes := ResidualSums(xs, ys, meanY, intercept, slope);
    NoSpreadMeansSame(ys);
    CentredLineIsNormal(xs, ys, meanX, meanY, slope);
    NormalLineIsBest(xs, ys, intercept, slope);
    if ssTot == 0.0 { NothingExplained(xs, ys, meanX, meanY, slope); }
    var rSquared := UnexplainedShare(ssTot, ssRes);
    fit := FitResult(slope, rSquared);
  }

  method UnexplainedShare(ssTot: real, ssRes: real) returns (r: real)
    requires ssTot == 0.0 ==> ssRes == 0.0
    ensures Times(1.0 - r, ssTot) == ssRes
    ensures ssTot == 0.0 ==> r == 1.0
  {
    r := if ssTot == 0.0 then 1.0 else 1.0 - ssRes / ssTot;
  }

  method ResidualSums(
    xs: seq<real>, ys: seq<real>, meanY: real, intercept: real, slope: real)
    returns (ssTot: real, ssRes: real)
    requires |xs| == |ys|
    ensures ssTot == Dot(ys, meanY, ys, meanY, |ys|)
    ensures ssRes == Residual(xs, ys, intercept, slope, |xs|)
  {
    ssTot, ssRes := 0.0, 0.0;
    for i := 0 to |xs|
      invariant ssTot == Dot(ys, meanY, ys, meanY, i)
      invariant ssRes == Residual(xs, ys, intercept, slope, i)
    {
      ssTot := ssTot + Times(ys[i] - meanY, ys[i] - meanY);
      var miss := ys[i] - At(intercept, slope, xs[i]);
      ssRes := ssRes + Times(miss, miss);
    }
  }

  /** On the same points the two programs report the same R squared exactly when the y values vary. */
  lemma {:induction false} ProgramsAgreeExactly(xs: seq<real>, ys: seq<real>, fit: Fit, law: FitResult)
    requires |xs| == |ys| > 0 && !AllSame(xs)
    requires NormalEquations(xs, ys, fit.intercept, fit.slope) && Explains(xs, ys, fit.intercept, fit.slope, fit.r2)
    requires AllSame(ys) ==> fit.r2 == 0.0
    requires IsPowerLaw(law, xs, ys)
    ensures fit.slope == law.exponent
    ensures fit.r2 == law.rSquared <==> !AllSame(ys)
  {
    var i, j :| 0 <= i < j < |xs| && xs[i] != xs[j];
    var intercept := Through(Mean(xs), Mean(ys), law.exponent);
    BestLineIsUnique(xs, ys, intercept, law.exponent, fit.intercept, fit.slope, i, j);
    NoSpreadMeansSame(ys);
    if !AllSame(ys) { RSquaredIsUnique(xs, ys, fit.intercept, fit.slope, fit.r2, law.rSquared); }
  }

  // ---- an exact power law ----

  function Power(n: nat, b: nat): nat { if b == 0 then 1 else n * Power(n, b - 1) }

  /** The logarithm turns products into sums. */
  ghost predicate Additive(ln: real -> real) {
    forall x, y :: x > 0.0 && y > 0.0 ==> ln(Times(x, y)) == ln(x) + ln(y)
  }

  lemma {:induction false} LogOfPower(ln: real -> real, n: nat, b: nat)
    requires Additive(ln) && n > 0
    ensures Power(n, b) > 0 && ln(Power(n, b) as real) == Times(b as real, ln(n as real))
  {
    if b == 0 {
      assert ln(Times(1.0, 1.0)) == ln(1.0) + ln(1.0);
      assert Times(1.0, 1.0) == 1.0;
    } else {
      LogOfPower(ln, n, b - 1);
      var x, y := n as real, Power(n, b - 1) as real;
      PowerStep(n, b);
      assert ln(Times(x, y)) == ln(x) + ln(y);
      OneMore(b, ln(x));
    }
  }

  lemma PowerStep(n: nat, b: nat)
    requires b > 0 && n > 0 && Power(n, b - 1) > 0
    ensures Power(n, b) > 0 && Power(n, b) as real == Times(n as real, Power(n, b - 1) as real)
  {
  }

  /** Costs that follow a * n^b exactly are fitted with exponent b and R squared 1. */
  lemma {:induction false} PowerLawIsRecovered(points: seq<Point>, ln: real -> real, a: nat, b: nat, fit: FitResult)
    requires Additive(ln) && a > 0 && points != []
    requires forall i :: 0 <= i < |points| ==> points[i].n > 0 && points[i].cost == a * Power(points[i].n, b)
    requires !AllSame(LogXs(ln, points)) && IsPowerLaw(fit, LogXs(ln, points), LogYs(ln, points))
    ensures fit.exponent == b as real && fit.rSquared == 1.0
  {
    var xs, ys := LogXs(ln, points), LogYs(ln, points);
    forall k | 0 <= k < |xs| ensures ys[k] == At(ln(a as real), b as real, xs[k]) {
      LogOfCost(ln, points[k].n, a, b);
    }
    var i, j :| 0 <= i < j < |xs| && xs[i] != xs[j];
    var c := Through(Mean(xs), Mean(ys), fit.exponent);
    ExactLineIsRecovered(xs, ys, ln(a as real), b as real, c, fit.exponent, i, j);
    NoSpreadMeansSame(ys);
    if !AllSame(ys) { RSquaredRange(xs, ys, c, fit.exponent, fit.rSquared); }
  }

  lemma {:induction false} LogOfCost(ln: real -> real, n: nat, a: nat, b: nat)
    requires Additive(ln) && a > 0 && n > 0
    ensures a * Power(n, b) > 0
    ensures ln((a * Power(n, b)) as real) == At(ln(a as real), b as real, ln(n as real))
  {
    LogOfPower(ln, n, b);
    var x, y := a as real, Power(n, b) as real;
    RealProduct(a, Power(n, b));
    assert ln(Times(x, y)) == ln(x) + ln(y);
  }

  lemma RealProduct(m: nat, n: nat)
    requires m > 0 && n > 0
    ensures m * n > 0 && (m * n) as real == Times(m as real, n as real)
  {
  }
}
