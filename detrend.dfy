/**
 * `detrend` and `windowMean` of the PPG page: an ordinary least-squares line
 * through the points (i, y[i]) is subtracted from the window, and a window is
 * averaged. Samples are exact reals; `NaN` is `None`.
 */
module Detrending {
  import opened Wrappers

  /** `sy` after `k` steps: the sum of the first `k` samples. */
  function Sum(y: seq<real>, k: nat): real
    requires k <= |y|
  {
    if k == 0 then 0.0 else Sum(y, k - 1) + y[k - 1]
  }

  /** `sxy` after `k` steps: the sum of i * y[i] over the first `k` samples. */
  function SumIY(y: seq<real>, k: nat): real
    requires k <= |y|
  {
    if k == 0 then 0.0 else SumIY(y, k - 1) + (k - 1) as real * y[k - 1]
  }

  /** `sx` after `n` steps: the sum of the abscissae 0, 1, ..., n - 1. */
  function SumI(n: nat): real {
    if n == 0 then 0.0 else SumI(n - 1) + (n - 1) as real
  }

  /** `sxx` after `n` steps: the sum of their squares. */
  function SumII(n: nat): real {
    if n == 0 then 0.0 else SumII(n - 1) + (n - 1) as real * (n - 1) as real
  }

  /** `xx = n * sxx - sx * sx`, the denominator of the slope, from a count and two sums. */
  function Spread(n: real, sx: real, sxx: real): real {
    n * sxx - sx * sx
  }

  /** The denominator of the slope for the abscissae 0, 1, ..., n - 1. */
  function Xx(n: nat): real {
    Spread(n as real, SumI(n), SumII(n))
  }

  lemma {:induction false} SumIClosed(n: nat)
    ensures 2.0 * SumI(n) == n as real * (n as real - 1.0)
  {
    if n > 0 {
      SumIClosed(n - 1);
    }
  }

  lemma {:induction false} SumIIClosed(n: nat)
    ensures 6.0 * SumII(n) == n as real * (n as real - 1.0) * (2.0 * n as real - 1.0)
  {
    if n > 0 {
      SumIIClosed(n - 1);
      var m := (n - 1) as real;
      assert 6.0 * SumII(n) == m * (m - 1.0) * (2.0 * m - 1.0) + 6.0 * m * m;
      assert m * (m - 1.0) * (2.0 * m - 1.0) + 6.0 * m * m == (m + 1.0) * m * (2.0 * m + 1.0);
    }
  }

  /** `12 * xx = n^2 (n - 1) (n + 1)`. */
  lemma XxClosed(n: nat)
    ensures 12.0 * Xx(n) == n as real * n as real * (n as real - 1.0) * (n as real + 1.0)
  {
    SumIClosed(n);
    SumIIClosed(n);
    var m := n as real;
    var a := SumI(n);
    var b := SumII(n);
    assert 12.0 * (m * b) == 2.0 * m * (6.0 * b);
    assert 12.0 * (a * a) == 3.0 * (2.0 * a) * (2.0 * a);
    assert 2.0 * m * (m * (m - 1.0) * (2.0 * m - 1.0)) - 3.0 * (m * (m - 1.0)) * (m * (m - 1.0))
        == m * m * (m - 1.0) * (m + 1.0);
  }

  /** The slope's denominator vanishes exactly for windows of fewer than two samples. */
  lemma XxPositive(n: nat)
    ensures n >= 2 <==> Xx(n) != 0.0
    ensures n >= 2 ==> Xx(n) > 0.0
  {
    XxClosed(n);
    var m := n as real;
    if n >= 2 {
      assert m * m > 0.0;
      assert (m - 1.0) * (m + 1.0) > 0.0;
      assert m * m * ((m - 1.0) * (m + 1.0)) > 0.0;
    } else {
      assert m * (m - 1.0) == 0.0;
    }
  }

  /** A fitted line `intercept + slope * i`. */
  datatype Line = Line(slope: real, intercept: real)

  /** The value of a line at abscissa `i`. */
  function At(l: Line, i: int): real {
    l.intercept + l.slope * i as real
  }

  /** The first normal equation, multiplied out: `slope * xx = n * sxy - sx * sy`. */
  predicate SlopeEquation(l: Line, n: real, sx: real, sy: real, sxy: real, xx: real) {
    l.slope * xx == n * sxy - sx * sy
  }

  /** The second normal equation, multiplied out: `n * intercept = sy - slope * sx`. */
  predicate InterceptEquation(l: Line, n: real, sx: real, sy: real) {
    n * l.intercept == sy - l.slope * sx
  }

  /**
   * The normal equations of least squares for `n` points with sums `sx`,
   * `sy`, `sxy` and slope denominator `xx`.
   */
  predicate Solves(l: Line, n: real, sx: real, sy: real, sxy: real, xx: real) {
    SlopeEquation(l, n, sx, sy, sxy, xx) && InterceptEquation(l, n, sx, sy)
  }

  /** The normal equations of the points (i, y[i]). */
  predicate Normal(y: seq<real>, l: Line) {
    Solves(l, |y| as real, SumI(|y|), Sum(y, |y|), SumIY(y, |y|), Xx(|y|))
  }

  /** The normal equations of `n` points with a non-zero `xx` have a solution. */
  lemma SolveNormal(n: real, sx: real, sy: real, sxy: real, xx: real) returns (l: Line)
    requires n != 0.0 && xx != 0.0
    ensures Solves(l, n, sx, sy, sxy, xx)
  {
    var slope := (n * sxy - sx * sy) / xx;
    var intercept := sy / n - slope * (sx / n);
    assert n * (sy / n) == sy && n * (sx / n) == sx;
    assert n * (slope * (sx / n)) == slope * (n * (sx / n));
    l := Line(slope, intercept);
  }

  lemma NormalExists(y: seq<real>)
    requires |y| > 0 && Xx(|y|) != 0.0
    ensures exists l :: Normal(y, l)
  {
    var l := SolveNormal(|y| as real, SumI(|y|), Sum(y, |y|), SumIY(y, |y|), Xx(|y|));
    assert Normal(y, l);
  }

  /** The normal equations have one solution when `xx` is not zero. */
  lemma SolutionUnique(n: real, sx: real, sy: real, sxy: real, xx: real, l: Line, l': Line)
    requires n != 0.0 && xx != 0.0
    requires Solves(l, n, sx, sy, sxy, xx) && Solves(l', n, sx, sy, sxy, xx)
    ensures l == l'
  {
    assert (l.slope - l'.slope) * xx == 0.0;
    assert n * (l.intercept - l'.intercept) == 0.0;
  }

  lemma NormalUnique(y: seq<real>, l: Line, l': Line)
    requires |y| > 0 && Xx(|y|) != 0.0 && Normal(y, l) && Normal(y, l')
    ensures l == l'
  {
    SolutionUnique(|y| as real, SumI(|y|), Sum(y, |y|), SumIY(y, |y|), Xx(|y|), l, l');
  }

  /** The least-squares line through the points (i, y[i]): the solution of the normal equations. */
  ghost function Fit(y: seq<real>): (l: Line)
    requires |y| > 0 && Xx(|y|) != 0.0
    ensures Normal(y, l)
  {
    NormalExists(y);
    var l :| Normal(y, l);
    l
  }

  /** `y[i] - (intercept + slope * i)` for every sample. */
  function Residuals(y: seq<real>, l: Line): (r: seq<real>)
    ensures |r| == |y|
    ensures forall i :: 0 <= i < |y| ==> r[i] == y[i] - At(l, i)
  {
    seq(|y|, i requires 0 <= i < |y| => y[i] - At(l, i))
  }

  /** The values of a line at the first `n` abscissae. */
  function Fitted(l: Line, n: nat): (f: seq<real>)
    ensures |f| == n
    ensures forall i :: 0 <= i < n ==> f[i] == At(l, i)
  {
    seq(n, i => At(l, i))
  }

  /**
   * What `detrend(y)` returns: the residuals of the fitted line; no residual
   * for an empty window; `None` when the slope is `0 / 0`, which makes every
   * residual `NaN`.
   */
  ghost function Detrended(y: seq<real>): (r: Option<seq<real>>)
    ensures r.Some? ==> |r.value| == |y|
  {
    if |y| == 0 then Some([])
    else if Xx(|y|) == 0.0 then None
    else Some(Residuals(y, Fit(y)))
  }

  /** `windowMean(y)`: the sum over the length; `None` for `0 / 0`. */
  function Mean(y: seq<real>): (r: Option<real>)
    ensures r.Some? <==> |y| > 0
  {
    if |y| == 0 then None else Some(Sum(y, |y|) / |y| as real)
  }

  // ---- the source's loops ----

  /**
   * The first half of `detrend`: the abscissae `x = [0, 1, ..., n]` (one more
   * than the samples) and the four sums accumulated over the samples.
   */
  method Accumulate(y: seq<real>) returns (sx: real, sy: real, sxy: real, sxx: real)
    ensures sx == SumI(|y|) && sy == Sum(y, |y|) && sxy == SumIY(y, |y|) && sxx == SumII(|y|)
  {
    var n := |y|;
    var x: seq<real> := [];
    var i := 0;
    while i <= n
      invariant 0 <= i <= n + 1 && |x| == i
      invariant forall k :: 0 <= k < i ==> x[k] == k as real
    {
      x := x + [i as real];
      i := i + 1;
    }

    sx, sy, sxy, sxx := 0.0, 0.0, 0.0, 0.0;
    i := 0;
    while i < n
      invariant 0 <= i <= n
      invariant sx == SumI(i) && sxx == SumII(i)
      invariant sy == Sum(y, i) && sxy == SumIY(y, i)
    {
      sx := sx + x[i];
      sy := sy + y[i];
      sxy := sxy + x[i] * y[i];
      sxx := sxx + x[i] * x[i];
      i := i + 1;
    }
  }

  /**
   * The middle of `detrend`: the means `mx` and `my`, `xx` and `xy`, and the
   * slope and intercept. `None` where a division by zero makes them `NaN` or
   * infinite.
   */
  method LineOfSums(n: nat, sx: real, sy: real, sxy: real, sxx: real) returns (line: Option<Line>)
    ensures line.None? <==> n == 0 || Spread(n as real, sx, sxx) == 0.0
    ensures line.Some? ==> Solves(line.value, n as real, sx, sy, sxy, Spread(n as real, sx, sxx))
  {
    if n == 0 {
      return None;
    }
    var mx := sx / n as real;
    var my := sy / n as real;
    var xx := n as real * sxx - sx * sx;
    var xy := n as real * sxy - sx * sy;
    if xx == 0.0 {
      return None;
    }
    var slope := xy / xx;
    var intercept := my - slope * mx;
    MeansAlgebra(n as real, sx, sy, mx, my, slope);
    line := Some(Line(slope, intercept));
  }

  lemma MeansAlgebra(n: real, sx: real, sy: real, mx: real, my: real, slope: real)
    requires n != 0.0 && mx == sx / n && my == sy / n
    ensures n * my == sy && n * mx == sx && n * (slope * mx) == slope * (n * mx)
  {
  }

  /** The last loop of `detrend`: `y[i] - (intercept + slope * i)` for every sample. */
  method SubtractLine(y: seq<real>, l: Line) returns (detrended: seq<real>)
    ensures detrended == Residuals(y, l)
  {
    detrended := [];
    var i := 0;
    while i < |y|
      invariant 0 <= i <= |y| && |detrended| == i
      invariant forall k :: 0 <= k < i ==> detrended[k] == y[k] - At(l, k)
    {
      detrended := detrended + [y[i] - (l.intercept + l.slope * i as real)];
      i := i + 1;
    }
  }

  /** The line the source computes from the four sums of `y` is the least-squares line of `y`. */
  lemma FitFromSums(y: seq<real>, sx: real, sy: real, sxy: real, sxx: real, l: Line)
    requires sx == SumI(|y|) && sy == Sum(y, |y|) && sxy == SumIY(y, |y|) && sxx == SumII(|y|)
    requires |y| > 0 && Spread(|y| as real, sx, sxx) != 0.0
    requires Solves(l, |y| as real, sx, sy, sxy, Spread(|y| as real, sx, sxx))
    ensures Xx(|y|) != 0.0 && Fit(y) == l
  {
    NormalUnique(y, l, Fit(y));
  }

  /** `detrend(y)`: the sums, the line through them, and the residuals. */
  method Detrend(y: seq<real>) returns (r: Option<seq<real>>)
    ensures r == Detrended(y)
  {
    var sx, sy, sxy, sxx := Accumulate(y);
    var line := LineOfSums(|y|, sx, sy, sxy, sxx);
    if line.None? {
      if |y| == 0 {
        // the means are NaN, but the residual loop does not run
        return Some([]);
      }
      // the slope is NaN, and so is every residual
      return None;
    }
    FitFromSums(y, sx, sy, sxy, sxx, line.value);
    var detrended := SubtractLine(y, line.value);
    r := Some(detrended);
  }

  /** `windowMean` as the source writes it: a running sum divided by the length. */
  method WindowMean(y: seq<real>) returns (r: Option<real>)
    ensures r == Mean(y)
  {
    var n := |y|;
    var sum := 0.0;
    var i := 0;
    while i < n
      invariant 0 <= i <= n && sum == Sum(y, i)
    {
      sum := sum + y[i];
      i := i + 1;
    }
    if n == 0 {
      return None;
    }
    r := Some(sum / n as real);
  }

  // ---- what the fit guarantees ----

  /** `detrend` yields `NaN`s exactly for a one-sample window. */
  lemma DetrendedDefined(y: seq<real>)
    ensures Detrended(y).None? <==> |y| == 1
  {
    XxPositive(|y|);
  }

  /** The sum of an elementwise difference is the difference of the sums. */
  lemma {:induction false} SumOfDifference(y: seq<real>, f: seq<real>, r: seq<real>, k: nat)
    requires |f| == |y| && |r| == |y| && k <= |y|
    requires forall i :: 0 <= i < |y| ==> r[i] == y[i] - f[i]
    ensures Sum(r, k) == Sum(y, k) - Sum(f, k)
  {
    if k > 0 {
      SumOfDifference(y, f, r, k - 1);
    }
  }

  /** So is the weighted sum. */
  lemma {:induction false} WeightedSumOfDifference(y: seq<real>, f: seq<real>, r: seq<real>, k: nat)
    requires |f| == |y| && |r| == |y| && k <= |y|
    requires forall i :: 0 <= i < |y| ==> r[i] == y[i] - f[i]
    ensures SumIY(r, k) == SumIY(y, k) - SumIY(f, k)
  {
    if k > 0 {
      WeightedSumOfDifference(y, f, r, k - 1);
      Distribute((k - 1) as real, r[k - 1], y[k - 1], f[k - 1]);
    }
  }

  lemma Distribute(m: real, r: real, a: real, b: real)
    requires r == a - b
    ensures m * r == m * a - m * b
  {
  }

  /** `s` is the sum of a line over `n` abscissae whose sum is `sx`. */
  predicate IsLineSum(l: Line, n: real, sx: real, s: real) {
    s == n * l.intercept + l.slope * sx
  }

  /** `s` is the sum of i times a line over abscissae whose sums are `sx` and `sxx`. */
  predicate IsLineWeightedSum(l: Line, sx: real, sxx: real, s: real) {
    s == l.intercept * sx + l.slope * sxx
  }

  lemma LineSumStep(l: Line, k: nat, s: real, v: real)
    requires k > 0 && IsLineSum(l, (k - 1) as real, SumI(k - 1), s) && v == At(l, k - 1)
    ensures IsLineSum(l, k as real, SumI(k), s + v)
  {
  }

  lemma LineWeightedSumStep(l: Line, k: nat, s: real, v: real)
    requires k > 0 && IsLineWeightedSum(l, SumI(k - 1), SumII(k - 1), s) && v == At(l, k - 1)
    ensures IsLineWeightedSum(l, SumI(k), SumII(k), s + (k - 1) as real * v)
  {
  }

  /** The sum of the values of a line. */
  lemma {:induction false} FittedSum(l: Line, n: nat, k: nat)
    requires k <= n
    ensures IsLineSum(l, k as real, SumI(k), Sum(Fitted(l, n), k))
  {
    if k > 0 {
      FittedSum(l, n, k - 1);
      LineSumStep(l, k, Sum(Fitted(l, n), k - 1), Fitted(l, n)[k - 1]);
    }
  }

  /** The weighted sum of the values of a line. */
  lemma {:induction false} FittedWeightedSum(l: Line, n: nat, k: nat)
    requires k <= n
    ensures IsLineWeightedSum(l, SumI(k), SumII(k), SumIY(Fitted(l, n), k))
  {
    if k > 0 {
      FittedWeightedSum(l, n, k - 1);
      LineWeightedSumStep(l, k, SumIY(Fitted(l, n), k - 1), Fitted(l, n)[k - 1]);
    }
  }

  /** A line meeting the second normal equation leaves residuals that sum to zero. */
  lemma NormalResiduals(y: seq<real>, l: Line)
    requires InterceptEquation(l, |y| as real, SumI(|y|), Sum(y, |y|))
    ensures Sum(Residuals(y, l), |y|) == 0.0
  {
    SumOfDifference(y, Fitted(l, |y|), Residuals(y, l), |y|);
    FittedSum(l, |y|, |y|);
    ResidualAlgebra(l, |y| as real, SumI(|y|), Sum(y, |y|), Sum(Fitted(l, |y|), |y|), Sum(Residuals(y, l), |y|));
  }

  lemma ResidualAlgebra(l: Line, n: real, sx: real, sy: real, sf: real, sr: real)
    requires InterceptEquation(l, n, sx, sy) && IsLineSum(l, n, sx, sf) && sr == sy - sf
    ensures sr == 0.0
  {
  }

  /** Both normal equations make the residuals orthogonal to the abscissae. */
  lemma NormalWeightedResiduals(y: seq<real>, l: Line)
    requires |y| > 0 && Normal(y, l)
    ensures SumIY(Residuals(y, l), |y|) == 0.0
  {
    WeightedSumOfDifference(y, Fitted(l, |y|), Residuals(y, l), |y|);
    FittedWeightedSum(l, |y|, |y|);
    OrthogonalAlgebra(l, |y| as real, SumI(|y|), Sum(y, |y|), SumIY(y, |y|), SumII(|y|),
                      SumIY(Fitted(l, |y|), |y|), SumIY(Residuals(y, l), |y|));
  }

  lemma OrthogonalAlgebra(l: Line, n: real, sx: real, sy: real, sxy: real, sxx: real, sf: real, sr: real)
    requires n != 0.0 && Solves(l, n, sx, sy, sxy, Spread(n, sx, sxx))
    requires IsLineWeightedSum(l, sx, sxx, sf) && sr == sxy - sf
    ensures sr == 0.0
  {
    var s, c := l.slope, l.intercept;
    assert n * sr == n * sxy - (n * c) * sx - s * (n * sxx);
    assert n * sr == n * sxy - sy * sx + s * sx * sx - s * (n * sxx);
  }

  /** The residuals of a fit sum to zero and are orthogonal to the abscissae. */
  lemma DetrendedSums(y: seq<real>)
    requires |y| >= 2
    ensures Detrended(y).Some?
    ensures Sum(Detrended(y).value, |y|) == 0.0 && SumIY(Detrended(y).value, |y|) == 0.0
  {
    XxPositive(|y|);
    NormalResiduals(y, Fit(y));
    NormalWeightedResiduals(y, Fit(y));
  }

  /** The detrended window of two or more samples averages to zero. */
  lemma MeanOfDetrended(y: seq<real>)
    requires |y| >= 2
    ensures Detrended(y).Some? && Mean(Detrended(y).value) == Some(0.0)
  {
    DetrendedSums(y);
  }

  lemma {:induction false} SumOfConstant(n: nat, c: real, k: nat)
    requires k <= n
    ensures Sum(seq(n, _ => c), k) == k as real * c
  {
    if k > 0 {
      SumOfConstant(n, c, k - 1);
    }
  }

  /** A window of one repeated value averages to that value. */
  lemma MeanOfConstant(n: nat, c: real)
    requires n > 0
    ensures Mean(seq(n, _ => c)) == Some(c)
  {
    SumOfConstant(n, c, n);
    assert (n as real * c) / n as real == c;
  }

  /** A line's values and weighted values, summed, satisfy the normal equations with that line. */
  lemma LineNormalAlgebra(l: Line, n: real, sx: real, sy: real, sxy: real, sxx: real)
    requires IsLineSum(l, n, sx, sy) && IsLineWeightedSum(l, sx, sxx, sxy)
    ensures Solves(l, n, sx, sy, sxy, Spread(n, sx, sxx))
  {
    var s, c := l.slope, l.intercept;
    assert n * sxy - sx * sy == n * (c * sx + s * sxx) - sx * (n * c + s * sx);
  }

  /** A line solves the normal equations of its own values. */
  lemma FittedNormal(l: Line, n: nat)
    ensures Normal(Fitted(l, n), l)
  {
    FittedSum(l, n, n);
    FittedWeightedSum(l, n, n);
    LineNormalAlgebra(l, n as real, SumI(n), Sum(Fitted(l, n), n), SumIY(Fitted(l, n), n), SumII(n));
  }

  /** Samples on a straight line `a + b * i` detrend to all zeros: the fit is that very line. */
  lemma LinearIsFlat(l: Line, n: nat)
    requires n >= 2
    ensures Detrended(Fitted(l, n)) == Some(seq(n, _ => 0.0))
  {
    var y := Fitted(l, n);
    XxPositive(n);
    FittedNormal(l, n);
    NormalUnique(y, l, Fit(y));
    assert Residuals(y, l) == seq(n, _ => 0.0);
  }

  /** The zero line solves the normal equations of points whose two sums vanish. */
  lemma ZeroLineSolves(n: real, sx: real, xx: real)
    ensures Solves(Line(0.0, 0.0), n, sx, 0.0, 0.0, xx)
  {
  }

  /** Detrending a detrended window changes nothing: its own fit is the zero line. */
  lemma DetrendIdempotent(y: seq<real>)
    requires |y| >= 2
    ensures Detrended(y).Some?
    ensures Detrended(Detrended(y).value) == Detrended(y)
  {
    DetrendedSums(y);
    var r := Detrended(y).value;
    XxPositive(|r|);
    ZeroLineSolves(|r| as real, SumI(|r|), Xx(|r|));
    NormalUnique(r, Line(0.0, 0.0), Fit(r));
    assert Residuals(r, Line(0.0, 0.0)) == r;
  }
}
