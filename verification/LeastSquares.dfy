/**
 * The weighted least-squares line of internal/itm/linear_least_squares_fit.go.
 *
 * A profile keeps the layout of the source: pfl[0] intervals, pfl[1] the step in m, then the heights of the
 * samples 0..np. A line is named by its height at sample 0 and its slope per sample.
 */
module LeastSquares {
  import opened GoMath

  predicate Packed(pfl: seq<real>) {
    |pfl| >= 4 && pfl[1] > 0.0 && pfl[0] == (|pfl| - 3) as real
  }

  function Np(pfl: seq<real>): (np: nat)
    requires Packed(pfl)
    ensures np == Trunc(pfl[0])
  {
    |pfl| - 3
  }

  /** The height of sample k. */
  function Height(pfl: seq<real>, k: int): real
    requires Packed(pfl) && 0 <= k <= Np(pfl)
  {
    pfl[k + 2]
  }

  /** Two sample indices in order. */
  predicate Span(pfl: seq<real>, i0: int, i1: int) {
    Packed(pfl) && 0 <= i0 < i1 <= Np(pfl)
  }

  /** The sample range of the distances xs and xe, both in steps: outwards to whole samples, widened when empty. */
  function FitRange(np: nat, xs: real, xe: real): (int, int) {
    var i0 := Trunc(Fdim(xs, 0.0));
    var i1 := np - Trunc(Fdim(np as real, xe));
    if i1 <= i0 then
      (Trunc(Fdim(i0 as real, 1.0)), np - Trunc(Fdim(np as real, i1 as real + 1.0)))
    else
      (i0, i1)
  }

  /** Any pair of distances in order that meets the profile selects a usable range. */
  lemma FitRangeUsable(np: nat, xs: real, xe: real)
    requires np >= 1 && xs <= xe && xs <= np as real && xe >= 0.0
    ensures var r := FitRange(np, xs, xe); 0 <= r.0 < r.1 <= np
    ensures var r := FitRange(np, xs, xe); 0.0 <= xs && xe <= np as real ==> r.0 as real <= xs && xe <= r.1 as real
  {
  }

  /** The range is no wider than it has to be: at most a step beyond either distance. */
  lemma FitRangeTight(np: nat, xs: real, xe: real)
    requires 0.0 <= xs <= xe <= np as real && np >= 1
    ensures var r := FitRange(np, xs, xe); xs - 1.0 <= r.0 as real <= xs && xe <= r.1 as real <= xe + 1.0
  {
    hide Trunc;
    var i0, i1 := Trunc(Fdim(xs, 0.0)), np - Trunc(Fdim(np as real, xe));
    TruncBounds(Fdim(xs, 0.0));
    TruncBounds(Fdim(np as real, xe));
    if i1 <= i0 {
      TruncWhole(if i0 > 1 then i0 - 1 else 0);
      TruncWhole(if np > i1 + 1 then np - (i1 + 1) else 0);
      assert Fdim(i0 as real, 1.0) == (if i0 > 1 then i0 - 1 else 0) as real;
      assert Fdim(np as real, i1 as real + 1.0) == (if np > i1 + 1 then np - (i1 + 1) else 0) as real;
    }
  }

  lemma TruncBounds(x: real)
    requires x >= 0.0
    ensures 0 <= Trunc(x) && Trunc(x) as real <= x < Trunc(x) as real + 1.0
  {
  }

  lemma TruncWhole(n: nat)
    ensures Trunc(n as real) == n
  {
  }

  /** The height at sample k of the line with height c at sample 0 and slope b. */
  function Line(c: real, b: real, k: int): real {
    c + b * k as real
  }

  /** The height at x of the line c + b * x. */
  function Over(c: real, b: real, x: real): real {
    c + b * x
  }

  function Squared(x: real): real {
    Times(x, x)
  }

  /** Half weight at both ends of the range. */
  function Weight(i0: int, i1: int, k: int): real {
    if k == i0 || k == i1 then 0.5 else 1.0
  }

  /** The weighted squared residual at sample k. */
  function Term(pfl: seq<real>, i0: int, i1: int, c: real, b: real, k: int): real
    requires Packed(pfl) && 0 <= k <= Np(pfl)
  {
    Times(Weight(i0, i1, k), Squared(Height(pfl, k) - Line(c, b, k)))
  }

  /** The weighted squared residuals of the samples lo..hi-1. */
  ghost function TermSum(pfl: seq<real>, i0: int, i1: int, c: real, b: real, lo: int, hi: int): real
    requires Packed(pfl) && 0 <= lo && hi <= Np(pfl) + 1
    decreases hi - lo
  {
    if hi <= lo then 0.0 else TermSum(pfl, i0, i1, c, b, lo, hi - 1) + Term(pfl, i0, i1, c, b, hi - 1)
  }

  /** The weighted sum of squared residuals of a line over the samples i0..i1. */
  ghost function Ssr(pfl: seq<real>, i0: int, i1: int, c: real, b: real): real
    requires Span(pfl, i0, i1)
  {
    TermSum(pfl, i0, i1, c, b, i0, i1 + 1)
  }

  /** No line has a smaller weighted sum of squared residuals. */
  ghost predicate Optimal(pfl: seq<real>, i0: int, i1: int, c: real, b: real)
    requires Span(pfl, i0, i1)
  {
    forall c2, b2 :: Ssr(pfl, i0, i1, c, b) <= Ssr(pfl, i0, i1, c2, b2)
  }

  // ---- the closed form the code evaluates ----

  function Mid(i0: int, i1: int): real {
    i1 as real - 0.5 * (i1 - i0) as real
  }

  function InnerY(pfl: seq<real>, lo: int, hi: int): real
    requires 0 <= lo && hi + 2 <= |pfl|
    decreases hi - lo
  {
    if hi <= lo then 0.0 else InnerY(pfl, lo, hi - 1) + pfl[hi + 1]
  }

  function InnerTY(pfl: seq<real>, lo: int, hi: int, mid: real): real
    requires 0 <= lo && hi + 2 <= |pfl|
    decreases hi - lo
  {
    if hi <= lo then 0.0 else InnerTY(pfl, lo, hi - 1, mid) + Times(pfl[hi + 1], (hi - 1) as real - mid)
  }

  function SumY(pfl: seq<real>, i0: int, i1: int): real
    requires Span(pfl, i0, i1)
  {
    0.5 * (pfl[i0 + 2] + pfl[i1 + 2]) + InnerY(pfl, i0 + 1, i1)
  }

  function SumTY(pfl: seq<real>, i0: int, i1: int): real
    requires Span(pfl, i0, i1)
  {
    Times(0.5 * (pfl[i0 + 2] - pfl[i1 + 2]), -0.5 * (i1 - i0) as real) + InnerTY(pfl, i0 + 1, i1, Mid(i0, i1))
  }

  function Mean(sy: real, len: real): real
    requires len >= 1.0
  {
    sy / len
  }

  function Slope(sty: real, len: real): real
    requires len >= 1.0
  {
    sty * 12.0 / Cubic(len)
  }

  function Cubic(len: real): (d: real)
    ensures len >= 1.0 ==> d > 0.0
  {
    (len * len + 2.0) * len
  }

  /** The fitted line: its height at sample 0 and its slope. */
  function Fit(pfl: seq<real>, i0: int, i1: int): (real, real)
    requires Span(pfl, i0, i1)
  {
    var len := (i1 - i0) as real;
    var slope := Slope(SumTY(pfl, i0, i1), len);
    (Over(Mean(SumY(pfl, i0, i1), len), slope, -Mid(i0, i1)), slope)
  }

  method LinearLeastSquaresFit(pfl: seq<real>, dStart: real, dEnd: real) returns (y1: real, y2: real)
    requires Packed(pfl)
    requires var r := FitRange(Np(pfl), dStart / pfl[1], dEnd / pfl[1]); Span(pfl, r.0, r.1)
    ensures var r := FitRange(Np(pfl), dStart / pfl[1], dEnd / pfl[1]);
            var f := Fit(pfl, r.0, r.1);
            Optimal(pfl, r.0, r.1, f.0, f.1) && y1 == Line(f.0, f.1, 0) && y2 == Line(f.0, f.1, Np(pfl))
  {
    var np := Trunc(pfl[0]);
    var iStart := Trunc(Fdim(dStart / pfl[1], 0.0));
    var iEnd := np - Trunc(Fdim(np as real, dEnd / pfl[1]));
    if iEnd <= iStart {
      iStart := Trunc(Fdim(iStart as real, 1.0));
      iEnd := np - Trunc(Fdim(np as real, iEnd as real + 1.0));
    }
    ghost var i0 := iStart;
    assert (iStart, iEnd) == FitRange(np, dStart / pfl[1], dEnd / pfl[1]);
    hide FitRange, Trunc, Fdim, Times, Mean, Slope, Over, Line, Optimal;
    var xLength := (iEnd - iStart) as real;
    var midShiftedIndex := -0.5 * xLength;
    var midShiftedEnd := iEnd as real + midShiftedIndex;
    var sumY := 0.5 * (pfl[iStart + 2] + pfl[iEnd + 2]);
    var scaledSumY := Times(0.5 * (pfl[iStart + 2] - pfl[iEnd + 2]), midShiftedIndex);
    ghost var scaled0 := scaledSumY;
    var i := 2;
    while i as real <= xLength
      invariant 2 <= i <= iEnd - i0 + 1
      invariant iStart == i0 + (i - 2)
      invariant midShiftedIndex == iStart as real - Mid(i0, iEnd)
      invariant sumY == 0.5 * (pfl[i0 + 2] + pfl[iEnd + 2]) + InnerY(pfl, i0 + 1, iStart + 1)
      invariant scaledSumY == scaled0 + InnerTY(pfl, i0 + 1, iStart + 1, Mid(i0, iEnd))
      decreases iEnd - i0 + 1 - i
    {
      iStart := iStart + 1;
      midShiftedIndex := midShiftedIndex + 1.0;
      sumY := sumY + pfl[iStart + 2];
      scaledSumY := scaledSumY + Times(pfl[iStart + 2], midShiftedIndex);
      i := i + 1;
    }
    assert iStart + 1 == iEnd;
    assert sumY == SumY(pfl, i0, iEnd) && scaledSumY == SumTY(pfl, i0, iEnd) && midShiftedEnd == Mid(i0, iEnd);
    sumY := Mean(sumY, xLength);
    scaledSumY := Slope(scaledSumY, xLength);
    y1 := Over(sumY, scaledSumY, -midShiftedEnd);
    y2 := Over(sumY, scaledSumY, np as real - midShiftedEnd);
    FitIsOptimal(pfl, i0, iEnd);
    LineEnds(sumY, scaledSumY, midShiftedEnd, np);
  }

  lemma LineEnds(mean: real, s: real, mid: real, np: nat)
    ensures Over(mean, s, -mid) == Line(Over(mean, s, -mid), s, 0)
    ensures Over(mean, s, np as real - mid) == Line(Over(mean, s, -mid), s, np)
  {
  }

  // ---- the fit is the unique optimum ----

  /** Weighted sums of y*y, y, y*t, 1, t and t*t. */
  datatype Moments = Moments(yy: real, y: real, ty: real, n: real, t: real, tt: real)

  function AddSample(m: Moments, w: real, y: real, t: real): Moments {
    Moments(m.yy + Times(w, Squared(y)), m.y + Times(w, y), m.ty + Times(w, Times(y, t)), m.n + w, m.t + Times(w, t),
            m.tt + Times(w, Squared(t)))
  }

  /** The sum of squared residuals of the line a + b * t. */
  function Residual(m: Moments, a: real, b: real): real {
    Combine(m.yy, m.y, m.ty, m.n, m.t, m.tt, a, b)
  }

  function Combine(yy: real, y: real, ty: real, n: real, t: real, tt: real, a: real, b: real): real {
    yy - 2.0 * (a * y) - 2.0 * (b * ty) + a * a * n + 2.0 * (a * b * t) + b * b * tt
  }

  lemma ResidualAdds(m: Moments, w: real, y: real, k: int, c: real, b: real, mid: real)
    ensures var a := Over(c, b, mid);
            Residual(AddSample(m, w, y, k as real - mid), a, b) == Residual(m, a, b) + Times(w, Squared(y - Line(c, b, k)))
  {
    var a, t := Over(c, b, mid), k as real - mid;
    LineAt(c, b, mid, k);
    hide Combine, Squared, Line, Over, Times;
    CombineAdds(m.yy, m.y, m.ty, m.n, m.t, m.tt,
                Times(w, Squared(y)), Times(w, y), Times(w, Times(y, t)), w, Times(w, t), Times(w, Squared(t)), a, b);
    CombineOne(w, y, t, a, b);
  }

  lemma LineAt(c: real, b: real, mid: real, k: int)
    ensures Line(c, b, k) == Over(c, b, mid) + b * (k as real - mid)
  {
  }

  lemma CombineAdds(yy: real, y: real, ty: real, n: real, t: real, tt: real,
                    yy2: real, y2: real, ty2: real, n2: real, t2: real, tt2: real, a: real, b: real)
    ensures Combine(yy + yy2, y + y2, ty + ty2, n + n2, t + t2, tt + tt2, a, b)
            == Combine(yy, y, ty, n, t, tt, a, b) + Combine(yy2, y2, ty2, n2, t2, tt2, a, b)
  {
  }

  lemma CombineOne(w: real, y: real, t: real, a: real, b: real)
    ensures Combine(Times(w, Squared(y)), Times(w, y), Times(w, Times(y, t)), w, Times(w, t), Times(w, Squared(t)), a, b)
            == Times(w, Squared(y - (a + b * t)))
  {
    var p := b * t;
    assert (y - (a + p)) * (y - (a + p)) == y * y - 2.0 * (a * y) - 2.0 * (y * p) + a * a + 2.0 * (a * p) + p * p;
  }

  function RangeMoments(pfl: seq<real>, i0: int, i1: int, n: int): Moments
    requires Span(pfl, i0, i1) && n <= i1 + 1
    decreases n - i0
  {
    if n <= i0 then Moments(0.0, 0.0, 0.0, 0.0, 0.0, 0.0)
    else AddSample(RangeMoments(pfl, i0, i1, n - 1), Weight(i0, i1, n - 1), pfl[n + 1], (n - 1) as real - Mid(i0, i1))
  }

  lemma {:induction false} SsrByMoments(pfl: seq<real>, i0: int, i1: int, n: int, c: real, b: real)
    requires Span(pfl, i0, i1) && n <= i1 + 1
    ensures TermSum(pfl, i0, i1, c, b, i0, n) == Residual(RangeMoments(pfl, i0, i1, n), Over(c, b, Mid(i0, i1)), b)
    decreases n - i0
  {
    if n > i0 {
      hide Residual, Squared, AddSample, Weight, Line, Mid, Over;
      SsrByMoments(pfl, i0, i1, n - 1, c, b);
      ResidualAdds(RangeMoments(pfl, i0, i1, n - 1), Weight(i0, i1, n - 1), pfl[n + 1], n - 1, c, b, Mid(i0, i1));
    }
  }

  ghost function ClosedT(m: real, c: real): real {
    m * c + (m * m - m) / 2.0
  }

  ghost function ClosedTT(m: real, c: real): real {
    m * (c * c) + c * (m * m) - c * m + (2.0 * (m * m * m) - 3.0 * (m * m) + m) / 6.0
  }

  lemma ClosedStep(m: real, c: real, t: real)
    requires t == c + m
    ensures ClosedT(m + 1.0, c) == ClosedT(m, c) + t
    ensures ClosedTT(m + 1.0, c) == ClosedTT(m, c) + Squared(t)
  {
    var k := m + 1.0;
    assert k * k == m * m + 2.0 * m + 1.0;
    assert k * k * k == m * m * m + 3.0 * (m * m) + 3.0 * m + 1.0;
    assert k * c == m * c + c && c * k == c * m + c;
    assert k * (c * c) == m * (c * c) + c * c;
    assert c * (k * k) == c * (m * m) + 2.0 * (c * m) + c;
    assert t * t == c * c + 2.0 * (c * m) + m * m;
  }

  /** Up to the last sample the sums over t are those of an arithmetic progression, less half of the first term. */
  lemma {:induction false} TMoments(pfl: seq<real>, i0: int, i1: int, n: int)
    requires Span(pfl, i0, i1) && i0 < n <= i1
    ensures var m, k, c := RangeMoments(pfl, i0, i1, n), (n - i0) as real, i0 as real - Mid(i0, i1);
            m.n == k - 0.5 && m.t == ClosedT(k, c) - 0.5 * c && m.tt == ClosedTT(k, c) - 0.5 * Squared(c)
    decreases n - i0
  {
    hide ClosedT, ClosedTT, Mid, Times, Squared;
    var c, t := i0 as real - Mid(i0, i1), (n - 1) as real - Mid(i0, i1);
    TimesWeight(t);
    TimesWeight(Squared(t));
    if n == i0 + 1 {
      assert RangeMoments(pfl, i0, i1, i0) == Moments(0.0, 0.0, 0.0, 0.0, 0.0, 0.0);
      ClosedOne(c);
    } else {
      TMoments(pfl, i0, i1, n - 1);
      ClosedStep((n - 1 - i0) as real, c, t);
    }
  }

  lemma TimesWeight(x: real)
    ensures Times(0.5, x) == 0.5 * x && Times(1.0, x) == x
  {
  }

  lemma ClosedOne(c: real)
    ensures ClosedT(1.0, c) == c && ClosedTT(1.0, c) == Squared(c)
  {
  }

  /** The sums of the code are the weighted sums. */
  lemma {:induction false} YMoments(pfl: seq<real>, i0: int, i1: int, n: int)
    requires Span(pfl, i0, i1) && i0 < n <= i1
    ensures var m := RangeMoments(pfl, i0, i1, n);
            && m.y == 0.5 * pfl[i0 + 2] + InnerY(pfl, i0 + 1, n)
            && m.ty == 0.5 * Times(pfl[i0 + 2], i0 as real - Mid(i0, i1)) + InnerTY(pfl, i0 + 1, n, Mid(i0, i1))
    decreases n - i0
  {
    hide Mid, Times;
    TimesWeight(pfl[n + 1]);
    TimesWeight(Times(pfl[n + 1], (n - 1) as real - Mid(i0, i1)));
    if n == i0 + 1 {
      assert RangeMoments(pfl, i0, i1, i0) == Moments(0.0, 0.0, 0.0, 0.0, 0.0, 0.0);
    } else {
      YMoments(pfl, i0, i1, n - 1);
    }
  }

  /** With half weights at both ends the sum of t is 0 and the sum of t * t is L (L * L + 2) / 12. */
  lemma {:induction false} MomentsClosed(pfl: seq<real>, i0: int, i1: int)
    requires Span(pfl, i0, i1)
    ensures var m, len := RangeMoments(pfl, i0, i1, i1 + 1), (i1 - i0) as real;
            m == Moments(m.yy, SumY(pfl, i0, i1), SumTY(pfl, i0, i1), len, 0.0, Cubic(len) / 12.0)
  {
    hide ClosedT, ClosedTT, Times, Cubic;
    var len, t := (i1 - i0) as real, i1 as real - Mid(i0, i1);
    TMoments(pfl, i0, i1, i1);
    YMoments(pfl, i0, i1, i1);
    ClosedHalf(len, -0.5 * len);
    EndTerms(pfl[i0 + 2], pfl[i1 + 2], len);
    assert i0 as real - Mid(i0, i1) == -0.5 * len && t == 0.5 * len == -(-0.5 * len);
    TimesWeight(t);
    TimesWeight(Squared(t));
    TimesWeight(pfl[i1 + 2]);
    TimesWeight(Times(pfl[i1 + 2], t));
  }

  lemma EndTerms(yl: real, yr: real, len: real)
    ensures Times(0.5 * (yl - yr), -0.5 * len) == 0.5 * Times(yl, -0.5 * len) + 0.5 * Times(yr, 0.5 * len)
  {
  }

  lemma ClosedHalf(len: real, c: real)
    requires c == -0.5 * len
    ensures ClosedT(len, c) - 0.5 * c + 0.5 * (-c) == 0.0
    ensures ClosedTT(len, c) - 0.5 * Squared(c) + 0.5 * Squared(-c) == Cubic(len) / 12.0
  {
    var q := len * len * len;
    assert len * c == -0.5 * (len * len) == c * len;
    assert c * c == 0.25 * (len * len) == (-c) * (-c);
    assert len * (c * c) == 0.25 * q;
    assert c * (len * len) == -0.5 * q;
    assert Cubic(len) == q + 2.0 * len;
  }

  lemma CompleteSquares(m: Moments, mean: real, s: real, a: real, b: real)
    requires m.t == 0.0 && m.y == Times(mean, m.n) && m.ty == Times(s, m.tt)
    ensures Residual(m, a, b) == Residual(m, mean, s) + Times(m.n, Squared(a - mean)) + Times(m.tt, Squared(b - s))
  {
    assert Squared(a - mean) == a * a - 2.0 * (a * mean) + mean * mean;
    assert Squared(b - s) == b * b - 2.0 * (b * s) + s * s;
    assert m.n * Squared(a - mean) == a * a * m.n - 2.0 * (a * m.y) + mean * mean * m.n;
    assert m.tt * Squared(b - s) == b * b * m.tt - 2.0 * (b * m.ty) + s * s * m.tt;
    assert mean * m.y == mean * mean * m.n && s * m.ty == s * s * m.tt;
  }

  lemma WeightedSquare(w: real, x: real)
    requires w > 0.0
    ensures Times(w, Squared(x)) >= 0.0
    ensures Times(w, Squared(x)) == 0.0 ==> x == 0.0
  {
    hide Times;
    TimesSign(x, x);
    TimesSign(w, Squared(x));
  }

  /** The mean and the slope of the fit solve the normal equations. */
  lemma {:induction false} NormalEquations(pfl: seq<real>, i0: int, i1: int)
    requires Span(pfl, i0, i1)
    ensures var f, m := Fit(pfl, i0, i1), RangeMoments(pfl, i0, i1, i1 + 1);
            && m.t == 0.0 && m.n > 0.0 && m.tt > 0.0
            && m.y == Times(Over(f.0, f.1, Mid(i0, i1)), m.n) && m.ty == Times(f.1, m.tt)
  {
    hide AddSample, Weight, Line, Mid, RangeMoments, SumY, SumTY, Times, Over, Mean, Slope, Cubic;
    MomentsClosed(pfl, i0, i1);
    SolvesNormal(SumY(pfl, i0, i1), SumTY(pfl, i0, i1), (i1 - i0) as real, Mid(i0, i1));
  }

  lemma SolvesNormal(sy: real, sty: real, len: real, mid: real)
    requires len >= 1.0
    ensures var s := Slope(sty, len);
            sy == Times(Over(Over(Mean(sy, len), s, -mid), s, mid), len) && sty == Times(s, Cubic(len) / 12.0) && Cubic(len) > 0.0
  {
    hide Cubic;
    var d, s := Cubic(len), Slope(sty, len);
    assert s * d == sty * 12.0;
    assert s * (d / 12.0) == s * d / 12.0;
    OverBack(Mean(sy, len), s, mid);
  }

  /** The fitted line against any other: never worse, and equally good only when it is the same line. */
  lemma FitBeats(pfl: seq<real>, i0: int, i1: int, c: real, b: real)
    requires Span(pfl, i0, i1)
    ensures var f := Fit(pfl, i0, i1);
            && Ssr(pfl, i0, i1, f.0, f.1) <= Ssr(pfl, i0, i1, c, b)
            && (Ssr(pfl, i0, i1, f.0, f.1) == Ssr(pfl, i0, i1, c, b) ==> f == (c, b))
  {
    hide *;
    var f, mid, m := Fit(pfl, i0, i1), Mid(i0, i1), RangeMoments(pfl, i0, i1, i1 + 1);
    NormalEquations(pfl, i0, i1);
    SsrOfRange(pfl, i0, i1, f.0, f.1);
    SsrOfRange(pfl, i0, i1, c, b);
    var mean, a := Over(f.0, f.1, mid), Over(c, b, mid);
    CompleteSquares(m, mean, f.1, a, b);
    WeightedSquare(m.n, a - mean);
    WeightedSquare(m.tt, b - f.1);
    OverInjective(c, f.0, b, mid);
  }

  lemma OverBack(mean: real, s: real, mid: real)
    ensures Over(Over(mean, s, -mid), s, mid) == mean
  {
  }

  lemma OverInjective(c: real, c2: real, b: real, mid: real)
    ensures Over(c, b, mid) == Over(c2, b, mid) ==> c == c2
  {
  }

  lemma {:induction false} SsrOfRange(pfl: seq<real>, i0: int, i1: int, c: real, b: real)
    requires Span(pfl, i0, i1)
    ensures Ssr(pfl, i0, i1, c, b) == Residual(RangeMoments(pfl, i0, i1, i1 + 1), Over(c, b, Mid(i0, i1)), b)
  {
    hide Residual, Mid, AddSample, Over;
    SsrByMoments(pfl, i0, i1, i1 + 1, c, b);
  }

  lemma FitIsOptimal(pfl: seq<real>, i0: int, i1: int)
    requires Span(pfl, i0, i1)
    ensures var f := Fit(pfl, i0, i1); Optimal(pfl, i0, i1, f.0, f.1)
  {
    var f := Fit(pfl, i0, i1);
    forall c, b ensures Ssr(pfl, i0, i1, f.0, f.1) <= Ssr(pfl, i0, i1, c, b) {
      FitBeats(pfl, i0, i1, c, b);
    }
  }

  /** There is exactly one optimal line, so being optimal determines the result of the fit. */
  lemma OptimalIsFit(pfl: seq<real>, i0: int, i1: int, c: real, b: real)
    requires Span(pfl, i0, i1) && Optimal(pfl, i0, i1, c, b)
    ensures (c, b) == Fit(pfl, i0, i1)
  {
    var f := Fit(pfl, i0, i1);
    FitBeats(pfl, i0, i1, c, b);
    assert Ssr(pfl, i0, i1, c, b) <= Ssr(pfl, i0, i1, f.0, f.1);
  }

  // ---- how the fit follows its profile ----

  /** A profile that is straight over the chosen samples is reproduced exactly, and continued to both its ends. */
  lemma StraightReproduced(pfl: seq<real>, i0: int, i1: int, c: real, b: real)
    requires Span(pfl, i0, i1) && forall k :: i0 <= k <= i1 ==> Height(pfl, k) == Line(c, b, k)
    ensures Fit(pfl, i0, i1) == (c, b)
  {
    hide Fit, Line, Ssr;
    var f := Fit(pfl, i0, i1);
    FitBeats(pfl, i0, i1, c, b);
    SsrSigns(pfl, i0, i1, c, b);
    SsrSigns(pfl, i0, i1, f.0, f.1);
  }

  /** The sum of squares is never negative, and 0 for a line through all samples. */
  lemma SsrSigns(pfl: seq<real>, i0: int, i1: int, c: real, b: real)
    requires Span(pfl, i0, i1)
    ensures Ssr(pfl, i0, i1, c, b) >= 0.0
    ensures (forall k :: i0 <= k <= i1 ==> Height(pfl, k) == Line(c, b, k)) ==> Ssr(pfl, i0, i1, c, b) == 0.0
  {
    TermSumSigns(pfl, i0, i1, c, b, i1 + 1);
  }

  lemma {:induction false} TermSumSigns(pfl: seq<real>, i0: int, i1: int, c: real, b: real, hi: int)
    requires Span(pfl, i0, i1) && i0 <= hi <= i1 + 1
    ensures TermSum(pfl, i0, i1, c, b, i0, hi) >= 0.0
    ensures (forall k :: i0 <= k < hi ==> Height(pfl, k) == Line(c, b, k)) ==> TermSum(pfl, i0, i1, c, b, i0, hi) == 0.0
    decreases hi
  {
    hide Line, Height, Times;
    if hi > i0 {
      TermSumSigns(pfl, i0, i1, c, b, hi - 1);
      var x := Height(pfl, hi - 1) - Line(c, b, hi - 1);
      TimesSign(x, x);
      TimesSign(Weight(i0, i1, hi - 1), Squared(x));
    }
  }

  /** p and q have the same samples within a step of the distances xs and xe, which are in steps. */
  ghost predicate AlikeBetween(p: seq<real>, q: seq<real>, xs: real, xe: real) {
    && Packed(p) && Packed(q) && |p| == |q|
    && forall k :: 0 <= k <= Np(p) && xs - 1.0 <= k as real <= xe + 1.0 ==> Height(p, k) == Height(q, k)
  }

  /** Samples more than a step outside the distances do not change the fitted line. */
  lemma FitLocal(p: seq<real>, q: seq<real>, xs: real, xe: real)
    requires AlikeBetween(p, q, xs, xe) && 0.0 <= xs <= xe <= Np(p) as real
    ensures var r := FitRange(Np(p), xs, xe); Span(p, r.0, r.1) && Span(q, r.0, r.1) && Fit(p, r.0, r.1) == Fit(q, r.0, r.1)
  {
    FitRangeUsable(Np(p), xs, xe);
    FitRangeTight(Np(p), xs, xe);
    var r := FitRange(Np(p), xs, xe);
    forall k | r.0 <= k <= r.1 ensures Height(p, k) == Height(q, k) {
    }
    hide FitRange, Fit, Ssr, AlikeBetween;
    var f := Fit(p, r.0, r.1);
    FitIsOptimal(p, r.0, r.1);
    forall c, b ensures Ssr(q, r.0, r.1, c, b) == Ssr(p, r.0, r.1, c, b) {
      SsrAlike(p, q, r.0, r.1, c, b);
    }
    OptimalIsFit(q, r.0, r.1, f.0, f.1);
  }

  lemma SsrAlike(p: seq<real>, q: seq<real>, i0: int, i1: int, c: real, b: real)
    requires Span(p, i0, i1) && Span(q, i0, i1) && forall k :: i0 <= k <= i1 ==> Height(p, k) == Height(q, k)
    ensures Ssr(q, i0, i1, c, b) == Ssr(p, i0, i1, c, b)
  {
    TermSumAlike(p, q, i0, i1, c, b, i1 + 1);
  }

  lemma {:induction false} TermSumAlike(p: seq<real>, q: seq<real>, i0: int, i1: int, c: real, b: real, hi: int)
    requires Span(p, i0, i1) && Span(q, i0, i1) && forall k :: i0 <= k <= i1 ==> Height(p, k) == Height(q, k)
    requires i0 <= hi <= i1 + 1
    ensures TermSum(q, i0, i1, c, b, i0, hi) == TermSum(p, i0, i1, c, b, i0, hi)
    decreases hi
  {
    if hi > i0 {
      TermSumAlike(p, q, i0, i1, c, b, hi - 1);
      hide Times, Height, Line;
    }
  }

  /** So two profiles that differ further out give the same heights at their ends. */
  method FitBoth(p: seq<real>, q: seq<real>, dStart: real, dEnd: real) returns (alike: bool)
    requires Packed(p) && Packed(q) && p[1] == q[1] && AlikeBetween(p, q, dStart / p[1], dEnd / p[1])
    requires 0.0 <= dStart / p[1] <= dEnd / p[1] <= Np(p) as real
    ensures alike
  {
    ghost var xs, xe := dStart / p[1], dEnd / p[1];
    FitLocal(p, q, xs, xe);
    SameSize(p, q, xs, xe);
    hide FitRange, Fit, Optimal, AlikeBetween, Line, Packed, Span;
    var a1, a2 := LinearLeastSquaresFit(p, dStart, dEnd);
    var b1, b2 := LinearLeastSquaresFit(q, dStart, dEnd);
    alike := a1 == b1 && a2 == b2;
  }

  lemma SameSize(p: seq<real>, q: seq<real>, xs: real, xe: real)
    requires AlikeBetween(p, q, xs, xe)
    ensures Np(p) == Np(q)
  {
  }

  /** Seen from the other end, the same samples are selected. */
  lemma FitRangeMirrors(np: nat, xs: real, xe: real)
    ensures var r := FitRange(np, xs, xe); FitRange(np, np as real - xe, np as real - xs) == (np - r.1, np - r.0)
  {
    assert Fdim(np as real - xe, 0.0) == Fdim(np as real, xe);
    assert Fdim(np as real, np as real - xs) == Fdim(xs, 0.0);
    var i0, i1 := Trunc(Fdim(xs, 0.0)), np - Trunc(Fdim(np as real, xe));
    assert Fdim((np - i1) as real, 1.0) == Fdim(np as real, i1 as real + 1.0);
    assert Fdim(np as real, (np - i0) as real + 1.0) == Fdim(i0 as real, 1.0);
  }

  /** q is p with the straight line u + v * k added. */
  ghost predicate Tilted(p: seq<real>, q: seq<real>, u: real, v: real) {
    && Packed(p) && Packed(q) && |p| == |q|
    && forall k :: 0 <= k <= Np(p) ==> Height(q, k) == Height(p, k) + Line(u, v, k)
  }

  /** q is p scaled by g. */
  ghost predicate Scaled(p: seq<real>, q: seq<real>, g: real) {
    && Packed(p) && Packed(q) && |p| == |q|
    && forall k :: 0 <= k <= Np(p) ==> Height(q, k) == Times(g, Height(p, k))
  }

  /** q is p seen from its other end. */
  ghost predicate Mirrored(p: seq<real>, q: seq<real>) {
    && Packed(p) && Packed(q) && |p| == |q| && p[1] == q[1]
    && forall k :: 0 <= k <= Np(p) ==> Height(q, k) == Height(p, Np(p) - k)
  }

  /** Adding a straight line to the profile adds it to the fit. */
  lemma FitTilts(p: seq<real>, q: seq<real>, i0: int, i1: int, u: real, v: real)
    requires Tilted(p, q, u, v) && Span(p, i0, i1)
    ensures var f := Fit(p, i0, i1); Fit(q, i0, i1) == (f.0 + u, f.1 + v)
  {
    var f := Fit(p, i0, i1);
    FitIsOptimal(p, i0, i1);
    forall c, b ensures Ssr(q, i0, i1, f.0 + u, f.1 + v) <= Ssr(q, i0, i1, c, b) {
      TermSumTilts(p, q, i0, i1, f.0, f.1, u, v, i0, i1 + 1);
      TermSumTilts(p, q, i0, i1, c - u, b - v, u, v, i0, i1 + 1);
      assert Ssr(p, i0, i1, f.0, f.1) <= Ssr(p, i0, i1, c - u, b - v);
    }
    OptimalIsFit(q, i0, i1, f.0 + u, f.1 + v);
  }

  lemma {:induction false} TermSumTilts(p: seq<real>, q: seq<real>, i0: int, i1: int, c: real, b: real, u: real, v: real, lo: int, hi: int)
    requires Tilted(p, q, u, v) && 0 <= lo && hi <= Np(p) + 1
    ensures TermSum(q, i0, i1, c + u, b + v, lo, hi) == TermSum(p, i0, i1, c, b, lo, hi)
    decreases hi - lo
  {
    if lo < hi {
      hide Line, Times, Weight;
      TermSumTilts(p, q, i0, i1, c, b, u, v, lo, hi - 1);
      LineAdds(c, b, u, v, hi - 1);
      assert Height(q, hi - 1) == Height(p, hi - 1) + Line(u, v, hi - 1);
    }
  }

  lemma LineAdds(c: real, b: real, u: real, v: real, k: int)
    ensures Line(c + u, b + v, k) == Line(c, b, k) + Line(u, v, k)
  {
  }

  /** Scaling the profile scales the fit. */
  lemma FitScales(p: seq<real>, q: seq<real>, i0: int, i1: int, g: real)
    requires Scaled(p, q, g) && Span(p, i0, i1)
    ensures var f := Fit(p, i0, i1); Fit(q, i0, i1) == (Times(g, f.0), Times(g, f.1))
  {
    hide Times, Mean, Slope, Over, Mid;
    var len, mid := (i1 - i0) as real, Mid(i0, i1);
    InnerScales(p, q, g, i0 + 1, i1, mid);
    assert Height(q, i0) == Times(g, Height(p, i0)) && Height(q, i1) == Times(g, Height(p, i1));
    var sy, iy := 0.5 * (p[i0 + 2] + p[i1 + 2]), InnerY(p, i0 + 1, i1);
    TimesLinear(g, p[i0 + 2], p[i1 + 2]);
    TimesAdds(g, sy, iy);
    var sty, ity := Times(0.5 * (p[i0 + 2] - p[i1 + 2]), -0.5 * len), InnerTY(p, i0 + 1, i1, mid);
    TimesAssociates(g, 0.5 * (p[i0 + 2] - p[i1 + 2]), -0.5 * len);
    TimesAdds(g, sty, ity);
    LineScales(g, sy + iy, sty + ity, len, mid);
  }

  lemma TimesLinear(g: real, x: real, y: real)
    ensures 0.5 * (Times(g, x) + Times(g, y)) == Times(g, 0.5 * (x + y))
    ensures 0.5 * (Times(g, x) - Times(g, y)) == Times(g, 0.5 * (x - y))
  {
  }

  lemma TimesAdds(g: real, x: real, y: real)
    ensures Times(g, x) + Times(g, y) == Times(g, x + y)
  {
  }

  lemma TimesAssociates(g: real, x: real, y: real)
    ensures Times(Times(g, x), y) == Times(g, Times(x, y))
  {
  }

  lemma LineScales(g: real, sy: real, sty: real, len: real, mid: real)
    requires len >= 1.0
    ensures Slope(Times(g, sty), len) == Times(g, Slope(sty, len))
    ensures Over(Mean(Times(g, sy), len), Times(g, Slope(sty, len)), -mid) == Times(g, Over(Mean(sy, len), Slope(sty, len), -mid))
  {
    hide Cubic;
    var s, m := Slope(sty, len), sy / len;
    assert (g * sty) * 12.0 / Cubic(len) == g * (sty * 12.0 / Cubic(len));
    assert (g * sy) / len == g * m;
    assert g * m + (g * s) * (-mid) == g * (m + s * (-mid));
  }

  lemma {:induction false} InnerScales(p: seq<real>, q: seq<real>, g: real, lo: int, hi: int, mid: real)
    requires Scaled(p, q, g) && 0 <= lo && hi <= Np(p) + 1
    ensures InnerY(q, lo, hi) == Times(g, InnerY(p, lo, hi)) && InnerTY(q, lo, hi, mid) == Times(g, InnerTY(p, lo, hi, mid))
    decreases hi - lo
  {
    hide Times;
    if hi <= lo {
      TimesSign(g, 0.0);
    } else {
      InnerScales(p, q, g, lo, hi - 1, mid);
      var y, t := Height(p, hi - 1), (hi - 1) as real - mid;
      TimesAssociates(g, y, t);
      TimesAdds(g, InnerY(p, lo, hi - 1), y);
      TimesAdds(g, InnerTY(p, lo, hi - 1, mid), Times(y, t));
      assert Height(q, hi - 1) == Times(g, y);
    }
  }

  /** Seen from the other end, the fit is the same line. */
  lemma FitMirrors(p: seq<real>, q: seq<real>, i0: int, i1: int)
    requires Mirrored(p, q) && Span(p, i0, i1)
    ensures var f, np := Fit(p, i0, i1), Np(p); Fit(q, np - i1, np - i0) == (Line(f.0, f.1, np), -f.1)
  {
    var f, np := Fit(p, i0, i1), Np(p);
    FitIsOptimal(p, i0, i1);
    var j0, j1, c0, b0 := np - i1, np - i0, Line(f.0, f.1, np), -f.1;
    forall c, b ensures Ssr(q, j0, j1, c0, b0) <= Ssr(q, j0, j1, c, b) {
      SsrMirrors(p, q, i0, i1, f.0, f.1);
      SsrMirrors(p, q, i0, i1, Line(c, b, np), -b);
      LineTwice(c, b, np);
      assert Ssr(p, i0, i1, f.0, f.1) <= Ssr(p, i0, i1, Line(c, b, np), -b);
    }
    OptimalIsFit(q, j0, j1, c0, b0);
  }

  lemma LineTwice(c: real, b: real, np: nat)
    ensures Line(Line(c, b, np), -b, np) == c && -(-b) == b
  {
  }

  lemma SsrMirrors(p: seq<real>, q: seq<real>, i0: int, i1: int, c: real, b: real)
    requires Mirrored(p, q) && Span(p, i0, i1)
    ensures var np := Np(p); Ssr(q, np - i1, np - i0, Line(c, b, np), -b) == Ssr(p, i0, i1, c, b)
  {
    TermSumMirrors(p, q, i0, i1, c, b, i0, i1 + 1);
  }

  lemma {:induction false} TermSumMirrors(p: seq<real>, q: seq<real>, i0: int, i1: int, c: real, b: real, lo: int, hi: int)
    requires Mirrored(p, q) && 0 <= lo <= hi <= Np(p) + 1
    ensures var np := Np(p);
            TermSum(q, np - i1, np - i0, Line(c, b, np), -b, np + 1 - hi, np + 1 - lo) == TermSum(p, i0, i1, c, b, lo, hi)
    decreases hi - lo
  {
    if lo < hi {
      var np := Np(p);
      TermSumMirrors(p, q, i0, i1, c, b, lo, hi - 1);
      TermMirrors(p, q, i0, i1, c, b, hi - 1);
      TermSumFront(q, np - i1, np - i0, Line(c, b, np), -b, np + 1 - hi, np + 1 - lo);
    }
  }

  lemma TermMirrors(p: seq<real>, q: seq<real>, i0: int, i1: int, c: real, b: real, k: int)
    requires Mirrored(p, q) && 0 <= k <= Np(p)
    ensures var np := Np(p); Term(q, np - i1, np - i0, Line(c, b, np), -b, np - k) == Term(p, i0, i1, c, b, k)
  {
    hide Line, Times;
    var np := Np(p);
    LineFromEnd(c, b, np, k);
    assert Height(q, np - k) == Height(p, np - (np - k));
  }

  lemma LineFromEnd(c: real, b: real, np: nat, k: int)
    ensures Line(Line(c, b, np), -b, np - k) == Line(c, b, k)
  {
    assert (np - k) as real == np as real - k as real;
  }

  lemma {:induction false} TermSumFront(p: seq<real>, i0: int, i1: int, c: real, b: real, lo: int, hi: int)
    requires Packed(p) && 0 <= lo < hi <= Np(p) + 1
    ensures TermSum(p, i0, i1, c, b, lo, hi) == Term(p, i0, i1, c, b, lo) + TermSum(p, i0, i1, c, b, lo + 1, hi)
    decreases hi - lo
  {
    hide Term;
    if lo + 1 < hi {
      TermSumFront(p, i0, i1, c, b, lo, hi - 1);
    }
  }
}
