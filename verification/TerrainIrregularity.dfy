/** The terrain irregularity delta_h of internal/itm/compute_delta_h.go. */
module TerrainIrregularity {
  import opened GoMath
  import opened LeastSquares
  import opened OrderStatistics
  import opened Multisets

  /** The height at position x, in steps, linear between the samples. */
  function Interp(pfl: seq<real>, x: real): real
    requires Packed(pfl) && 0.0 <= x <= Np(pfl) as real
  {
    var i := if x.Floor == Np(pfl) then Np(pfl) - 1 else x.Floor;
    Between(Height(pfl, i), Height(pfl, i + 1), x - i as real)
  }

  function Between(y0: real, y1: real, f: real): real {
    y0 + Times(y1 - y0, f)
  }

  /** The number of samples in the upper decile of the resampled terrain. */
  function P10(xs: real, xe: real): (p: int)
    ensures 4 <= p <= 25
  {
    var p := Trunc(0.1 * (xe - xs + 8.0));
    if p < 4 then 4 else if p > 25 then 25 else p
  }

  function SampleCount(xs: real, xe: real): (n: nat)
    ensures 35 <= n <= 245
  {
    10 * P10(xs, xe) - 5
  }

  function Step(xs: real, xe: real): real {
    (xe - xs) / (SampleCount(xs, xe) - 1) as real
  }

  /** The position of resampled point j. */
  function Position(xs: real, xe: real, j: int): real {
    xs + Times(j as real, Step(xs, xe))
  }

  lemma PositionInRange(xs: real, xe: real, j: int)
    requires xs <= xe && 0 <= j < SampleCount(xs, xe)
    ensures xs <= Position(xs, xe, j) <= xe
    ensures Position(xs, xe, 0) == xs && Position(xs, xe, SampleCount(xs, xe) - 1) == xe
    ensures Position(xs, xe, j + 1) == Position(xs, xe, j) + Step(xs, xe) >= Position(xs, xe, j)
  {
    StepsInRange(xe - xs, (SampleCount(xs, xe) - 1) as real, j);
  }

  lemma StepsInRange(span: real, n: real, j: int)
    requires span >= 0.0 && n >= 1.0 && 0 <= j && j as real <= n
    ensures 0.0 <= Times(j as real, span / n) <= span
    ensures Times(0.0, span / n) == 0.0 && Times(n, span / n) == span
    ensures span / n >= 0.0 && Times((j + 1) as real, span / n) == Times(j as real, span / n) + span / n
  {
    var step := span / n;
    assert step * n == span && step >= 0.0;
    assert j as real * step <= n * step;
    assert (j + 1) as real == j as real + 1.0;
  }

  predicate OnProfile(pfl: seq<real>, xs: real, xe: real) {
    Packed(pfl) && 0.0 <= xs <= xe <= Np(pfl) as real
  }

  /** The terrain at evenly spaced positions, as a profile of its own with step 1. */
  function Resampled(pfl: seq<real>, xs: real, xe: real): (s: seq<real>)
    requires OnProfile(pfl, xs, xe)
    ensures Packed(s) && Np(s) == SampleCount(xs, xe) - 1 && s[1] == 1.0
  {
    var n := SampleCount(xs, xe);
    [(n - 1) as real, 1.0] + seq(n, j requires 0 <= j < n => (PositionInRange(xs, xe, j); Interp(pfl, Position(xs, xe, j))))
  }

  /** A profile less its fitted line. */
  function Detrended(s: seq<real>): (r: seq<real>)
    requires Packed(s)
    ensures |r| == Np(s) + 1
  {
    var f := Fit(s, 0, Np(s));
    seq(Np(s) + 1, j requires 0 <= j <= Np(s) => Height(s, j) - Line(f.0, f.1, j))
  }

  /** The spread between the p-th highest and the p-th lowest of the values. */
  function Spread(diffs: seq<real>, p: int): real
    requires 1 <= p <= |diffs|
  {
    var sorted := SortDown(diffs);
    sorted[p - 1] - sorted[|diffs| - p]
  }

  function PathFactor(lib: Libm, d: real): real {
    1.0 - 0.8 * lib.exp(-d / 50000.0)
  }

  lemma PathFactorPositive(lib: Libm, d: real)
    requires lib.Valid() && d >= 0.0
    ensures 0.2 <= PathFactor(lib, d) < 1.0
  {
  }

  predicate DistancesOnProfile(pfl: seq<real>, dStart: real, dEnd: real) {
    Packed(pfl) && 0.0 <= dStart <= dEnd && 0.0 <= dStart / pfl[1] <= dEnd / pfl[1] <= Np(pfl) as real
  }

  function DeltaH(pfl: seq<real>, dStart: real, dEnd: real, lib: Libm): real
    requires DistancesOnProfile(pfl, dStart, dEnd) && lib.Valid()
  {
    var xs, xe := dStart / pfl[1], dEnd / pfl[1];
    if xe - xs < 2.0 then 0.0
    else
      PathFactorPositive(lib, dEnd - dStart);
      Spread(Detrended(Resampled(pfl, xs, xe)), P10(xs, xe)) / PathFactor(lib, dEnd - dStart)
  }

  /** Any cell that contains x gives the same height. */
  lemma InterpCell(pfl: seq<real>, x: real, i: int)
    requires Packed(pfl) && 0 <= i < Np(pfl) && i as real <= x <= (i + 1) as real
    ensures Interp(pfl, x) == Between(Height(pfl, i), Height(pfl, i + 1), x - i as real)
  {
    hide Between;
    BetweenEnds(Height(pfl, i), Height(pfl, i + 1));
    if x == (i + 1) as real {
      assert x.Floor == i + 1 && x - (i + 1) as real == 0.0 && x - i as real == 1.0;
      if i + 1 < Np(pfl) {
        BetweenEnds(Height(pfl, i + 1), Height(pfl, i + 2));
      }
    } else {
      assert x.Floor == i;
    }
  }

  lemma BetweenEnds(y0: real, y1: real)
    ensures Between(y0, y1, 0.0) == y0 && Between(y0, y1, 1.0) == y1
  {
  }

  /** The source counts back from the upper end of the cell. */
  lemma BetweenFromAbove(y0: real, y1: real, f: real)
    ensures y1 + Times(y1 - y0, f - 1.0) == Between(y0, y1, f)
  {
  }

  method ComputeDeltaH(pfl: seq<real>, dStart: real, dEnd: real, lib: Libm) returns (deltaH: real)
    requires DistancesOnProfile(pfl, dStart, dEnd) && lib.Valid()
    ensures deltaH == DeltaH(pfl, dStart, dEnd, lib)
  {
    hide Times, Interp, Between, Fit, Line, FitRange, Resampled, Detrended;
    var np := Trunc(pfl[0]);
    var xStart, xEnd := dStart / pfl[1], dEnd / pfl[1];
    if xEnd - xStart < 2.0 {
      return 0.0;
    }
    var p10 := P10(xStart, xEnd);
    var n := 10 * p10 - 5;
    var p90 := n - p10;
    var s := ResampleLoop(pfl, xStart, xEnd, n);
    var diffs := Detrend(s, n);
    diffs := SortDown(diffs);
    var q10 := diffs[p10 - 1];
    var q90 := diffs[p90];
    PathFactorPositive(lib, dEnd - dStart);
    deltaH := (q10 - q90) / PathFactor(lib, dEnd - dStart);
  }

  /** Subtracts the fitted line, stepping down it from its start. */
  method Detrend(s: seq<real>, n: nat) returns (diffs: seq<real>)
    requires Packed(s) && n == Np(s) + 1 && s[1] == 1.0
    ensures diffs == Detrended(s)
  {
    hide Times, Fit, Line, FitRange;
    FitRangeWhole(n - 1);
    var fitY1, fitY2 := LinearLeastSquaresFit(s, 0.0, (n - 1) as real);
    ghost var f := Fit(s, 0, n - 1);
    LineEndsSlope(f.0, f.1, n - 1);
    var slope := (fitY2 - fitY1) / (n - 1) as real;
    diffs := [];
    for j := 0 to n
      invariant fitY1 == Line(f.0, f.1, j)
      invariant |diffs| == j && forall k :: 0 <= k < j ==> diffs[k] == Height(s, k) - Line(f.0, f.1, k)
    {
      assert s[j + 2] == Height(s, j);
      diffs := diffs + [s[j + 2] - fitY1];
      LineSteps(f.0, f.1, j);
      fitY1 := fitY1 + slope;
    }
    assert diffs == Detrended(s);
  }

  lemma FitRangeWhole(np: nat)
    requires np >= 1
    ensures FitRange(np, 0.0, np as real) == (0, np) && 0.0 / 1.0 == 0.0 && np as real / 1.0 == np as real
  {
  }

  lemma LineEndsSlope(c: real, b: real, np: nat)
    requires np >= 1
    ensures Line(c, b, 0) == c && (Line(c, b, np) - c) / np as real == b
  {
    assert b * np as real / np as real == b;
  }

  lemma LineSteps(c: real, b: real, k: int)
    ensures Line(c, b, k) + b == Line(c, b, k + 1)
  {
    assert (k + 1) as real == k as real + 1.0;
  }

  /** The resampling loop: xStart is kept relative to the sample above the current position. */
  method ResampleLoop(pfl: seq<real>, from: real, to: real, n: nat) returns (r: seq<real>)
    requires OnProfile(pfl, from, to) && to - from >= 2.0 && n == SampleCount(from, to)
    ensures r == Resampled(pfl, from, to)
  {
    hide Times, Between, Interp, SampleCount, Step, Resampled, Position;
    var np := Trunc(pfl[0]);
    var s := new real[n + 2];
    s[0] := (n - 1) as real;
    s[1] := 1.0;
    var xStart, xStep := from, (to - from) / (n - 1) as real;
    assert xStep == Step(from, to) by { StepIs(from, to, n); }
    var i := Trunc(xStart);
    xStart := xStart - (i + 1) as real;
    PositionInRange(from, to, 0);
    ghost var all := Resampled(pfl, from, to);
    ResampledHead(pfl, from, to);
    for j := 0 to n
      invariant 0 <= i < np && i as real <= Position(from, to, j)
      invariant xStart == Position(from, to, j) - (i + 1) as real
      invariant forall k :: 0 <= k < j + 2 ==> s[k] == all[k]
    {
      PositionInRange(from, to, j);
      xStart, i := Advance(xStart, i, np);
      s[j + 2] := pfl[i + 3] + Times(pfl[i + 3] - pfl[i + 2], xStart);
      SampleIs(pfl, from, to, j, i, xStart);
      xStart := xStart + xStep;
    }
    r := s[..];
  }

  lemma ResampledHead(pfl: seq<real>, from: real, to: real)
    requires OnProfile(pfl, from, to)
    ensures var all := Resampled(pfl, from, to);
      |all| == SampleCount(from, to) + 2 && all[0] == (SampleCount(from, to) - 1) as real && all[1] == 1.0
  {
  }

  /** The height at an offset from the sample above the cell that the position is in. */
  lemma SampleIs(pfl: seq<real>, from: real, to: real, j: int, i: int, x: real)
    requires OnProfile(pfl, from, to) && 0 <= j < SampleCount(from, to) && 0 <= i < Np(pfl)
    requires x == Position(from, to, j) - (i + 1) as real && i as real <= Position(from, to, j) <= (i + 1) as real
    ensures Resampled(pfl, from, to)[j + 2] == pfl[i + 3] + Times(pfl[i + 3] - pfl[i + 2], x)
  {
    hide Times, Between, Interp, SampleCount, Step, Position;
    InterpCell(pfl, Position(from, to, j), i);
    BetweenFromAbove(Height(pfl, i), Height(pfl, i + 1), x + 1.0);
  }

  /** Moves on to the cell that the offset is in, or the last one. */
  method Advance(x: real, start: int, np: int) returns (offset: real, i: int)
    requires 0 <= start < np && -1.0 <= x
    ensures start <= i < np && offset == x - (i - start) as real && -1.0 <= offset && (offset <= 0.0 || i + 1 == np)
  {
    offset, i := x, start;
    while offset > 0.0 && i + 1 < np
      invariant start <= i < np && offset == x - (i - start) as real && -1.0 <= offset
      decreases np - i
    {
      offset := offset - 1.0;
      i := i + 1;
    }
  }

  lemma StepIs(xs: real, xe: real, n: nat)
    requires n == SampleCount(xs, xe)
    ensures n >= 35 && (xe - xs) / (n - 1) as real == Step(xs, xe)
  {
  }

  // ---- the resampled heights ----

  /** Every resampled height lies between those of two neighbouring samples. */
  lemma ResampledBetween(pfl: seq<real>, xs: real, xe: real, j: int)
    requires OnProfile(pfl, xs, xe) && 0 <= j < SampleCount(xs, xe)
    ensures exists i :: (&& 0 <= i < Np(pfl)
                         && i as real <= Position(xs, xe, j) <= (i + 1) as real
                         && Min(Height(pfl, i), Height(pfl, i + 1)) <= Height(Resampled(pfl, xs, xe), j)
                         && Height(Resampled(pfl, xs, xe), j) <= Max(Height(pfl, i), Height(pfl, i + 1)))
  {
    hide Between, Times;
    PositionInRange(xs, xe, j);
    var x := Position(xs, xe, j);
    var i := if x.Floor == Np(pfl) then Np(pfl) - 1 else x.Floor;
    InterpCell(pfl, x, i);
    BetweenBounds(Height(pfl, i), Height(pfl, i + 1), x - i as real);
  }

  lemma BetweenBounds(y0: real, y1: real, f: real)
    requires 0.0 <= f <= 1.0
    ensures Min(y0, y1) <= Between(y0, y1, f) <= Max(y0, y1)
  {
    TimesMonotone(f, Max(y0, y1) - y0, y1 - y0);
    TimesMonotone(f, y1 - y0, Min(y0, y1) - y0);
    TimesMonotone(Max(y0, y1) - y0, 1.0, f);
    TimesMonotone(Min(y0, y1) - y0, 1.0, f);
  }

  // ---- only the deviation from a straight line counts ----

  lemma InterpTilts(p: seq<real>, q: seq<real>, u: real, v: real, x: real)
    requires Tilted(p, q, u, v) && 0.0 <= x <= Np(p) as real
    ensures Interp(q, x) == Interp(p, x) + Over(u, v, x)
  {
    hide Between, Times, Line, Over;
    var i := if x.Floor == Np(p) then Np(p) - 1 else x.Floor;
    InterpCell(p, x, i);
    InterpCell(q, x, i);
    BetweenTilts(Height(p, i), Height(p, i + 1), u, v, i, x);
    assert Height(q, i) == Height(p, i) + Line(u, v, i) && Height(q, i + 1) == Height(p, i + 1) + Line(u, v, i + 1);
  }

  lemma BetweenTilts(y0: real, y1: real, u: real, v: real, i: int, x: real)
    ensures Between(y0 + Line(u, v, i), y1 + Line(u, v, i + 1), x - i as real) == Between(y0, y1, x - i as real) + Over(u, v, x)
  {
    assert (i + 1) as real == i as real + 1.0;
    assert Line(u, v, i + 1) - Line(u, v, i) == v;
    TimesSum(y1 - y0, v, x - i as real);
    assert v * (x - i as real) == v * x - v * i as real;
  }

  lemma TimesSum(x: real, y: real, f: real)
    ensures Times(x + y, f) == Times(x, f) + Times(y, f)
  {
  }

  lemma ResampledTilts(p: seq<real>, q: seq<real>, u: real, v: real, xs: real, xe: real)
    requires Tilted(p, q, u, v) && OnProfile(p, xs, xe)
    ensures Tilted(Resampled(p, xs, xe), Resampled(q, xs, xe), Over(u, v, xs), Times(v, Step(xs, xe)))
  {
    hide Interp, Times, Line, Over, Step;
    var s, t := Resampled(p, xs, xe), Resampled(q, xs, xe);
    forall j | 0 <= j <= Np(s) ensures Height(t, j) == Height(s, j) + Line(Over(u, v, xs), Times(v, Step(xs, xe)), j) {
      PositionInRange(xs, xe, j);
      InterpTilts(p, q, u, v, Position(xs, xe, j));
      OverAlong(u, v, xs, j, Step(xs, xe));
    }
  }

  lemma OverAlong(u: real, v: real, xs: real, j: int, step: real)
    ensures Over(u, v, xs + Times(j as real, step)) == Line(Over(u, v, xs), Times(v, step), j)
  {
    assert v * (xs + j as real * step) == v * xs + v * step * j as real;
  }

  lemma DetrendedTilts(s: seq<real>, t: seq<real>, u: real, v: real)
    requires Tilted(s, t, u, v)
    ensures Detrended(t) == Detrended(s)
  {
    hide Line, Fit;
    var f := Fit(s, 0, Np(s));
    FitTilts(s, t, 0, Np(s), u, v);
    forall j | 0 <= j <= Np(s) ensures Detrended(t)[j] == Detrended(s)[j] {
      LineAdds(f.0, f.1, u, v, j);
      assert Height(t, j) == Height(s, j) + Line(u, v, j);
    }
  }

  /** Adding a straight line to the terrain does not change delta_h. */
  lemma DeltaHTilts(p: seq<real>, q: seq<real>, u: real, v: real, dStart: real, dEnd: real, lib: Libm)
    requires Tilted(p, q, u, v) && p[1] == q[1] && DistancesOnProfile(p, dStart, dEnd) && lib.Valid()
    ensures DeltaH(q, dStart, dEnd, lib) == DeltaH(p, dStart, dEnd, lib)
  {
    hide Resampled, Detrended, Spread, PathFactor, Times;
    var xs, xe := dStart / p[1], dEnd / p[1];
    ResampledTilts(p, q, u, v, xs, xe);
    DetrendedTilts(Resampled(p, xs, xe), Resampled(q, xs, xe), Over(u, v, xs), Times(v, Step(xs, xe)));
  }

  // ---- scaling ----

  lemma InterpScales(p: seq<real>, q: seq<real>, g: real, x: real)
    requires Scaled(p, q, g) && 0.0 <= x <= Np(p) as real
    ensures Interp(q, x) == Times(g, Interp(p, x))
  {
    hide Between, Times;
    var i := if x.Floor == Np(p) then Np(p) - 1 else x.Floor;
    assert Height(q, i) == Times(g, Height(p, i)) && Height(q, i + 1) == Times(g, Height(p, i + 1));
    BetweenScales(g, Height(p, i), Height(p, i + 1), x - i as real);
  }

  lemma BetweenScales(g: real, y0: real, y1: real, f: real)
    ensures Between(Times(g, y0), Times(g, y1), f) == Times(g, Between(y0, y1, f))
  {
    assert (g * y1 - g * y0) * f == g * ((y1 - y0) * f);
  }

  lemma ResampledScales(p: seq<real>, q: seq<real>, g: real, xs: real, xe: real)
    requires Scaled(p, q, g) && OnProfile(p, xs, xe)
    ensures Scaled(Resampled(p, xs, xe), Resampled(q, xs, xe), g)
  {
    hide Interp, Times;
    var s, t := Resampled(p, xs, xe), Resampled(q, xs, xe);
    forall j | 0 <= j <= Np(s) ensures Height(t, j) == Times(g, Height(s, j)) {
      PositionInRange(xs, xe, j);
      InterpScales(p, q, g, Position(xs, xe, j));
    }
  }

  lemma DetrendedScales(s: seq<real>, t: seq<real>, g: real)
    requires Scaled(s, t, g)
    ensures Detrended(t) == ScaledBy(g, Detrended(s))
  {
    hide Line, Fit, Times;
    var f := Fit(s, 0, Np(s));
    FitScales(s, t, 0, Np(s), g);
    forall j | 0 <= j <= Np(s) ensures Detrended(t)[j] == Times(g, Detrended(s)[j]) {
      LineOfScaled(g, f.0, f.1, j, Height(s, j));
      assert Height(t, j) == Times(g, Height(s, j));
    }
  }

  lemma LineOfScaled(g: real, c: real, b: real, k: int, y: real)
    ensures Times(g, y) - Line(Times(g, c), Times(g, b), k) == Times(g, y - Line(c, b, k))
  {
    assert g * b * k as real == g * (b * k as real);
    assert g * (y - (c + b * k as real)) == g * y - (g * c + g * (b * k as real));
  }

  /** Turning the terrain upside down exchanges both deciles. */
  lemma SpreadScales(g: real, diffs: seq<real>, p: int)
    requires 1 <= p <= |diffs|
    ensures Spread(ScaledBy(g, diffs), p) == Times(Abs(g), Spread(diffs, p))
  {
    hide Times;
    SortDownScaled(g, diffs);
    var t := SortDown(diffs);
    TimesDifference(g, t[p - 1], t[|t| - p]);
  }

  lemma TimesDifference(g: real, x: real, y: real)
    ensures Times(g, x) - Times(g, y) == Times(g, x - y)
    ensures Times(g, y) - Times(g, x) == Times(-g, x - y)
  {
  }

  /** Scaling the terrain by any factor, negative ones included, scales delta_h by its absolute value. */
  lemma DeltaHScales(p: seq<real>, q: seq<real>, g: real, dStart: real, dEnd: real, lib: Libm)
    requires Scaled(p, q, g) && p[1] == q[1] && DistancesOnProfile(p, dStart, dEnd) && lib.Valid()
    ensures DeltaH(q, dStart, dEnd, lib) == Times(Abs(g), DeltaH(p, dStart, dEnd, lib))
  {
    hide Resampled, Detrended, Spread, PathFactor, Times;
    var xs, xe := dStart / p[1], dEnd / p[1];
    TimesSign(Abs(g), 0.0);
    if xe - xs >= 2.0 {
      var s, t := Resampled(p, xs, xe), Resampled(q, xs, xe);
      ResampledScales(p, q, g, xs, xe);
      DetrendedScales(s, t, g);
      SpreadScales(g, Detrended(s), P10(xs, xe));
      PathFactorPositive(lib, dEnd - dStart);
      TimesDivides(Abs(g), Spread(Detrended(s), P10(xs, xe)), PathFactor(lib, dEnd - dStart));
    }
  }

  lemma TimesDivides(g: real, x: real, d: real)
    requires d > 0.0
    ensures Times(g, x) / d == Times(g, x / d)
  {
    assert g * x / d == g * (x / d);
  }

  lemma DeltaHNonNegative(pfl: seq<real>, dStart: real, dEnd: real, lib: Libm)
    requires DistancesOnProfile(pfl, dStart, dEnd) && lib.Valid()
    ensures DeltaH(pfl, dStart, dEnd, lib) >= 0.0
  {
    hide Resampled, Detrended, PathFactor;
    var xs, xe := dStart / pfl[1], dEnd / pfl[1];
    if xe - xs >= 2.0 {
      SortDownSorts(Detrended(Resampled(pfl, xs, xe)));
      PathFactorPositive(lib, dEnd - dStart);
      Quotient(Spread(Detrended(Resampled(pfl, xs, xe)), P10(xs, xe)), PathFactor(lib, dEnd - dStart));
    }
  }

  lemma Quotient(x: real, d: real)
    requires x >= 0.0 && d > 0.0
    ensures x / d >= 0.0
  {
  }

  /**
   * What delta_h is: over an infinite path, the height from the p-th lowest to the p-th highest residual, where p is a
   * tenth of the samples, at least 4 and at most 25.
   */
  lemma DeltaHIsInterdecile(pfl: seq<real>, dStart: real, dEnd: real, lib: Libm) returns (hi: real, lo: real)
    requires DistancesOnProfile(pfl, dStart, dEnd) && lib.Valid() && dEnd / pfl[1] - dStart / pfl[1] >= 2.0
    ensures var xs, xe := dStart / pfl[1], dEnd / pfl[1];
      var residuals, p := Detrended(Resampled(pfl, xs, xe)), P10(xs, xe);
      && |residuals| == 10 * p - 5 && 4 <= p <= 25 && Highest(residuals, p, hi) && Lowest(residuals, p, lo)
      && Times(DeltaH(pfl, dStart, dEnd, lib), PathFactor(lib, dEnd - dStart)) == hi - lo
  {
    hide Detrended, Resampled, Highest, Lowest, SortDown, Times;
    var xs, xe := dStart / pfl[1], dEnd / pfl[1];
    var residuals, p := Detrended(Resampled(pfl, xs, xe)), P10(xs, xe);
    SortDownSelects(residuals, p);
    hi, lo := SortDown(residuals)[p - 1], SortDown(residuals)[|residuals| - p];
    PathFactorPositive(lib, dEnd - dStart);
    Undivided(hi - lo, PathFactor(lib, dEnd - dStart));
  }

  lemma Undivided(x: real, f: real)
    requires f > 0.0
    ensures Times(x / f, f) == x
  {
  }

  /** p is a tenth of the range and of 8 samples more, within 4 and 25. */
  lemma TenthOfRange(xs: real, xe: real)
    ensures xe - xs < 42.0 ==> P10(xs, xe) == 4
    ensures xe - xs >= 242.0 ==> P10(xs, xe) == 25
    ensures 42.0 <= xe - xs < 242.0 ==> 10.0 * P10(xs, xe) as real <= xe - xs + 8.0 < 10.0 * P10(xs, xe) as real + 10.0
  {
  }

  /** A longer analysed path is scaled up the less: five times at first, and by the length of 50 km e-fold less. */
  lemma PathFactorGrows(lib: Libm, d: real, e: real)
    requires lib.Valid() && 0.0 <= d <= e && forall x, y :: x <= y ==> lib.exp(x) <= lib.exp(y)
    ensures 0.2 <= PathFactor(lib, d) <= PathFactor(lib, e) < 1.0
    ensures lib.exp(0.0) == 1.0 ==> 1.0 / PathFactor(lib, 0.0) == 5.0
    ensures 1.0 - PathFactor(lib, 50000.0) == 0.8 * lib.exp(-1.0)
  {
    assert -e / 50000.0 <= -d / 50000.0 <= 0.0;
    assert -0.0 / 50000.0 == 0.0 && -50000.0 / 50000.0 == -1.0;
  }

  // ---- from the other end ----

  lemma InterpMirrors(p: seq<real>, q: seq<real>, x: real)
    requires Mirrored(p, q) && 0.0 <= x <= Np(p) as real
    ensures Interp(q, Np(p) as real - x) == Interp(p, x)
  {
    hide Between, Times;
    var np := Np(p);
    var i := if x.Floor == np then np - 1 else x.Floor;
    InterpCell(p, x, i);
    InterpCell(q, np as real - x, np - 1 - i);
    assert Height(q, np - 1 - i) == Height(p, np - (np - 1 - i)) && Height(q, np - 1 - i + 1) == Height(p, np - (np - i));
    assert np as real - x - (np - 1 - i) as real == 1.0 - (x - i as real);
    BetweenMirrors(Height(p, i), Height(p, i + 1), x - i as real);
  }

  lemma BetweenMirrors(y0: real, y1: real, f: real)
    ensures Between(y1, y0, 1.0 - f) == Between(y0, y1, f)
  {
  }

  lemma ResampledMirrors(p: seq<real>, q: seq<real>, xs: real, xe: real)
    requires Mirrored(p, q) && OnProfile(p, xs, xe)
    ensures var np := Np(p) as real; Mirrored(Resampled(p, xs, xe), Resampled(q, np - xe, np - xs))
  {
    hide Interp, Times, P10;
    var np := Np(p) as real;
    assert xe - xs == (np - xs) - (np - xe);
    assert SampleCount(np - xe, np - xs) == SampleCount(xs, xe) by { SameSpan(xs, xe, np - xe, np - xs); }
    var s, t, n := Resampled(p, xs, xe), Resampled(q, np - xe, np - xs), SampleCount(xs, xe);
    forall j | 0 <= j <= Np(s) ensures Height(t, j) == Height(s, Np(s) - j) {
      SampleMirrors(p, q, xs, xe, j);
    }
  }

  lemma SampleMirrors(p: seq<real>, q: seq<real>, xs: real, xe: real, j: int)
    requires Mirrored(p, q) && OnProfile(p, xs, xe) && 0 <= j < SampleCount(xs, xe)
    ensures var np, n := Np(p) as real, SampleCount(xs, xe);
      && SampleCount(np - xe, np - xs) == n
      && Height(Resampled(q, np - xe, np - xs), j) == Height(Resampled(p, xs, xe), n - 1 - j)
  {
    hide Interp, Times, P10, Position;
    var np, n := Np(p) as real, SampleCount(xs, xe);
    SameSpan(xs, xe, np - xe, np - xs);
    PositionInRange(xs, xe, n - 1 - j);
    PositionInRange(np - xe, np - xs, j);
    PositionMirrors(xs, xe, np, j);
    InterpMirrors(p, q, Position(xs, xe, n - 1 - j));
  }

  lemma SameSpan(xs: real, xe: real, xs2: real, xe2: real)
    requires xe - xs == xe2 - xs2
    ensures P10(xs, xe) == P10(xs2, xe2)
  {
  }

  lemma PositionMirrors(xs: real, xe: real, np: real, j: int)
    requires xs <= xe
    ensures Position(np - xe, np - xs, j) == np - Position(xs, xe, SampleCount(xs, xe) - 1 - j)
  {
    SameSpan(xs, xe, np - xe, np - xs);
    var n := SampleCount(xs, xe);
    StepMirrors(xs, xe, (np - xs) - (np - xe), n - 1, j);
  }

  lemma StepMirrors(xs: real, xe: real, span: real, n: int, j: int)
    requires n >= 1 && span == xe - xs
    ensures Times(j as real, span / n as real) - xe == -(xs + Times((n - j) as real, span / n as real))
  {
    var step := span / n as real;
    assert step * n as real == span;
    assert (n - j) as real * step == n as real * step - j as real * step;
  }

  lemma DetrendedMirrors(s: seq<real>, t: seq<real>)
    requires Mirrored(s, t)
    ensures Detrended(t) == Reversed(Detrended(s))
  {
    hide Line, Fit;
    var np := Np(s);
    var f := Fit(s, 0, np);
    FitMirrors(s, t, 0, np);
    forall j | 0 <= j <= np ensures Detrended(t)[j] == Detrended(s)[np - j] {
      LineFromEnd(f.0, f.1, np, np - j);
      assert Height(t, j) == Height(s, np - j);
    }
  }

  lemma SpreadMirrors(p: seq<real>, q: seq<real>, xs: real, xe: real)
    requires Mirrored(p, q) && OnProfile(p, xs, xe)
    ensures var np := Np(p) as real;
            Spread(Detrended(Resampled(q, np - xe, np - xs)), P10(np - xe, np - xs)) == Spread(Detrended(Resampled(p, xs, xe)), P10(xs, xe))
  {
    hide Resampled, Detrended, P10, Packed;
    var np := Np(p) as real;
    ResampledMirrors(p, q, xs, xe);
    DetrendedMirrors(Resampled(p, xs, xe), Resampled(q, np - xe, np - xs));
    SortDownReversed(Detrended(Resampled(p, xs, xe)));
    SameSpan(xs, xe, np - xe, np - xs);
  }

  /** delta_h is the same from either end of the path. */
  lemma DeltaHMirrors(p: seq<real>, q: seq<real>, dStart: real, dEnd: real, d: real, lib: Libm)
    requires Mirrored(p, q) && DistancesOnProfile(p, dStart, dEnd) && d == Times(Np(p) as real, p[1]) && lib.Valid()
    ensures DistancesOnProfile(q, d - dEnd, d - dStart)
    ensures DeltaH(q, d - dEnd, d - dStart, lib) == DeltaH(p, dStart, dEnd, lib)
  {
    hide Resampled, Detrended, PathFactor, Times, P10, Spread;
    var xi := p[1];
    FromEnd(xi, Np(p) as real, dStart, d);
    FromEnd(xi, Np(p) as real, dEnd, d);
    assert DistancesOnProfile(q, d - dEnd, d - dStart);
    SpreadMirrors(p, q, dStart / xi, dEnd / xi);
    assert dEnd - dStart == (d - dStart) - (d - dEnd);
  }

  lemma FromEnd(xi: real, np: real, x: real, d: real)
    requires xi > 0.0 && d == Times(np, xi)
    ensures (d - x) / xi == np - x / xi && (x / xi <= np ==> x <= d)
  {
    assert d / xi == np;
    assert x / xi * xi == x;
    assert x / xi <= np ==> x / xi * xi <= np * xi;
  }
}
