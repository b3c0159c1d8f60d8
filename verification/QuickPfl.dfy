/** The path parameters of internal/itm/quick_pfl.go, and their reciprocity. */
module QuickPfl {
  import opened GoMath
  import opened LeastSquares
  import opened Horizons
  import opened TerrainIrregularity

  /** What the source returns, element 0 (transmitter) and 1 (receiver) of each pair apart. */
  datatype Path = Path(thetaTx: real, thetaRx: real, dHznTx: real, dHznRx: real, heTx: real, heRx: real,
                       deltaH: real, d: real, takeoffTx: real, takeoffRx: real)

  function Swapped(p: Path): Path {
    Path(p.thetaRx, p.thetaTx, p.dHznRx, p.dHznTx, p.heRx, p.heTx, p.deltaH, p.d, p.takeoffRx, p.takeoffTx)
  }

  /** The heights of the fitted line at both ends of the profile. */
  function FitEnds(pfl: seq<real>, dStart: real, dEnd: real): (real, real)
    requires Packed(pfl) && var r := FitRange(Np(pfl), dStart / pfl[1], dEnd / pfl[1]); Span(pfl, r.0, r.1)
  {
    var r := FitRange(Np(pfl), dStart / pfl[1], dEnd / pfl[1]);
    var f := Fit(pfl, r.0, r.1);
    (Line(f.0, f.1, 0), Line(f.0, f.1, Np(pfl)))
  }

  /** The antenna height over the fitted terrain. */
  function Effective(h: real, ground: real, fit: real): (he: real)
    ensures he >= h
  {
    h + Fdim(ground, fit)
  }

  /** The distance from a terminal to the start of the analysed terrain. */
  function Inset(h: real, dHzn: real): real {
    Min(15.0 * h, 0.1 * dHzn)
  }

  /** The horizon distance over terrain of irregularity deltaH. */
  function RoughHorizon(he: real, a: real, deltaH: real, lib: Libm): real {
    lib.sqrt(2.0 * he * a) * lib.exp(-0.07 * lib.sqrt(deltaH / Max(he, 5.0)))
  }

  function RoughTheta(he: real, dHzn: real, a: real, deltaH: real, lib: Libm): real
    requires he > 0.0 && a > 0.0 && dHzn > 0.0 && lib.Valid()
  {
    TwoHeAPositive(he, a);
    var q := lib.sqrt(2.0 * he * a);
    (0.65 * deltaH * (q / dHzn - 1.0) - 2.0 * he) / q
  }

  lemma TwoHeAPositive(he: real, a: real)
    requires he > 0.0 && a > 0.0
    ensures 2.0 * he * a > 0.0
  {
  }

  lemma RoughHorizonPositive(he: real, a: real, deltaH: real, lib: Libm)
    requires he > 0.0 && a > 0.0 && lib.Valid()
    ensures RoughHorizon(he, a, deltaH, lib) > 0.0
  {
    TwoHeAPositive(he, a);
    TimesSign(lib.sqrt(2.0 * he * a), lib.exp(-0.07 * lib.sqrt(deltaH / Max(he, 5.0))));
  }

  function Ratio(x: real, y: real): (q: real)
    requires x > 0.0 && y > 0.0
    ensures q > 0.0
  {
    TimesSign(x / y, x / y);
    Squared(x / y)
  }

  datatype RoughPath = RoughPath(heTx: real, heRx: real, dTx: real, dRx: real, thetaTx: real, thetaRx: real)

  /** The rough-terrain branch: effective heights, horizons and angles from the two fitted heights. */
  function Rough(heTx: real, heRx: real, a: real, d: real, deltaH: real, lib: Libm): RoughPath
    requires heTx > 0.0 && heRx > 0.0 && a > 0.0 && d > 0.0 && lib.Valid()
  {
    RoughHorizonPositive(heTx, a, deltaH, lib);
    RoughHorizonPositive(heRx, a, deltaH, lib);
    var sum := RoughHorizon(heTx, a, deltaH, lib) + RoughHorizon(heRx, a, deltaH, lib);
    var q := if sum <= d then Ratio(d, sum) else 1.0;
    TimesSign(heTx, q);
    TimesSign(heRx, q);
    var uTx, uRx := Times(heTx, q), Times(heRx, q);
    RoughHorizonPositive(uTx, a, deltaH, lib);
    RoughHorizonPositive(uRx, a, deltaH, lib);
    var dTx, dRx := RoughHorizon(uTx, a, deltaH, lib), RoughHorizon(uRx, a, deltaH, lib);
    RoughPath(uTx, uRx, dTx, dRx, RoughTheta(uTx, dTx, a, deltaH, lib), RoughTheta(uRx, dRx, a, deltaH, lib))
  }

  predicate Inputs(pfl: seq<real>, gammaE: real, hTx: real, hRx: real) {
    Packed(pfl) && gammaE > 0.0 && hTx > 0.0 && hRx > 0.0
  }

  /** The distances handed to the fit and to delta_h lie on the profile and in order, on every path. */
  lemma CallsInRange(pfl: seq<real>, hTx: real, hRx: real, i: int, j: int)
    requires Packed(pfl) && hTx > 0.0 && hRx > 0.0 && 1 <= i <= Np(pfl) && 1 <= j <= Np(pfl)
    ensures var d, xi, np := Dist(pfl, Np(pfl)), pfl[1], Np(pfl);
            var dTx, dRx := Dist(pfl, i), Dist(pfl, j);
            var dStart, dEnd := Inset(hTx, dTx), d - Inset(hRx, dRx);
            && d > 0.0 && DistancesOnProfile(pfl, dStart, dEnd)
            && (var r := FitRange(np, dStart / xi, dEnd / xi); Span(pfl, r.0, r.1))
            && (var r := FitRange(np, dStart / xi, 0.9 * dTx / xi); Span(pfl, r.0, r.1))
            && (var r := FitRange(np, (d - 0.9 * dRx) / xi, dEnd / xi); Span(pfl, r.0, r.1))
  {
    hide FitRange, Times, DistancesOnProfile;
    var d, np := Dist(pfl, Np(pfl)), Np(pfl);
    var dTx, dRx := Dist(pfl, i), Dist(pfl, j);
    DistSteps(pfl, i);
    DistSteps(pfl, j);
    DistSteps(pfl, np);
    DistIncreases(pfl, i, np);
    DistIncreases(pfl, j, np);
    hide Dist;
    CallInRange(pfl, d, Inset(hTx, dTx), d - Inset(hRx, dRx));
    CallInRange(pfl, d, Inset(hTx, dTx), 0.9 * dTx);
    CallInRange(pfl, d, d - 0.9 * dRx, d - Inset(hRx, dRx));
  }

  lemma CallInRange(pfl: seq<real>, d: real, from: real, to: real)
    requires Packed(pfl) && d == Dist(pfl, Np(pfl)) && 0.0 <= from <= to <= d
    ensures DistancesOnProfile(pfl, from, to)
    ensures var r := FitRange(Np(pfl), from / pfl[1], to / pfl[1]); Span(pfl, r.0, r.1)
  {
    hide FitRange, Times;
    InSteps(pfl[1], d, Np(pfl), from, to);
    FitRangeUsable(Np(pfl), from / pfl[1], to / pfl[1]);
  }

  lemma InSteps(xi: real, d: real, np: nat, x: real, y: real)
    requires xi > 0.0 && d == Times(np as real, xi) && 0.0 <= x <= y <= d
    ensures 0.0 <= x / xi <= y / xi <= np as real
  {
    assert d / xi == np as real;
    assert x / xi * xi == x && y / xi * xi == y;
  }

  /** The path parameters once the horizons are known: i and j samples away, seen at thetaTx and thetaRx. */
  function PathFrom(pfl: seq<real>, a: real, hTx: real, hRx: real, i: int, j: int, thetaTx: real, thetaRx: real, lib: Libm): Path
    requires Packed(pfl) && a > 0.0 && hTx > 0.0 && hRx > 0.0 && 1 <= i <= Np(pfl) && 1 <= j <= Np(pfl) && lib.Valid()
  {
    hide Times, FitRange, Fit, Line, Fdim, DistancesOnProfile, Inset, DeltaH, Rough, Effective;
    var np := Np(pfl);
    var d, dTx, dRx := Dist(pfl, np), Dist(pfl, i), Dist(pfl, j);
    CallsInRange(pfl, hTx, hRx, i, j);
    var dStart, dEnd := Inset(hTx, dTx), d - Inset(hRx, dRx);
    var deltaH := DeltaH(pfl, dStart, dEnd, lib);
    if dTx + dRx > 1.5 * d then
      var fit := FitEnds(pfl, dStart, dEnd);
      var r := Rough(Effective(hTx, Height(pfl, 0), fit.0), Effective(hRx, Height(pfl, np), fit.1), a, d, deltaH, lib);
      Path(r.thetaTx, r.thetaRx, r.dTx, r.dRx, r.heTx, r.heRx, deltaH, d, thetaTx, thetaRx)
    else
      var fitTx, fitRx := FitEnds(pfl, dStart, 0.9 * dTx).0, FitEnds(pfl, d - 0.9 * dRx, dEnd).1;
      Path(thetaTx, thetaRx, dTx, dRx, Effective(hTx, Height(pfl, 0), fitTx), Effective(hRx, Height(pfl, np), fitRx),
           deltaH, d, thetaTx, thetaRx)
  }

  function PathOf(pfl: seq<real>, gammaE: real, hTx: real, hRx: real, lib: Libm): Path
    requires Inputs(pfl, gammaE, hTx, hRx) && lib.Valid()
  {
    var a := 1.0 / gammaE;
    var k, l := TxHorizon(pfl, a, hTx, hRx), RxHorizon(pfl, a, hTx, hRx);
    PathFrom(pfl, a, hTx, hRx, k, Np(pfl) - l, TxAngle(pfl, a, hTx, hRx, k), RxAngle(pfl, a, hTx, hRx, l), lib)
  }

  method QuickPfl(pfl: seq<real>, gammaE: real, h: seq<real>, theta: array<real>, dHzn: array<real>, hE: array<real>, takeoff: array<real>, lib: Libm)
    returns (deltaH: real, d: real)
    requires |h| == 2 && Inputs(pfl, gammaE, h[0], h[1]) && lib.Valid()
    requires theta.Length == 2 && dHzn.Length == 2 && hE.Length == 2 && takeoff.Length == 2
    requires theta != dHzn && theta != hE && theta != takeoff && dHzn != hE && dHzn != takeoff && hE != takeoff
    modifies theta, dHzn, hE, takeoff
    ensures Path(theta[0], theta[1], dHzn[0], dHzn[1], hE[0], hE[1], deltaH, d, takeoff[0], takeoff[1])
            == PathOf(pfl, gammaE, h[0], h[1], lib)
  {
    hide Times, Rough, FitRange, Fit, Line, DeltaH, TxHorizon, RxHorizon, TxAngle, RxAngle, Fdim, Min, Optimal, DistancesOnProfile;
    d := Times(pfl[0], pfl[1]);
    var np := Trunc(pfl[0]);
    var aE := 1.0 / gammaE;
    theta[0], theta[1], dHzn[0], dHzn[1] := FindHorizons(pfl, aE, h[0], h[1]);
    takeoff[0], takeoff[1] := theta[0], theta[1];
    CallsInRange(pfl, h[0], h[1], TxHorizon(pfl, aE, h[0], h[1]), np - RxHorizon(pfl, aE, h[0], h[1]));
    var dStart := Min(15.0 * h[0], 0.1 * dHzn[0]);
    var dEnd := d - Min(15.0 * h[1], 0.1 * dHzn[1]);
    deltaH := ComputeDeltaH(pfl, dStart, dEnd, lib);
    assert pfl[2] == Height(pfl, 0) && pfl[np + 2] == Height(pfl, np);
    if dHzn[0] + dHzn[1] > 1.5 * d {
      var fitTx, fitRx := LinearLeastSquaresFit(pfl, dStart, dEnd);
      hE[0] := Effective(h[0], pfl[2], fitTx);
      hE[1] := Effective(h[1], pfl[np + 2], fitRx);
      RoughTerrain(aE, d, deltaH, theta, dHzn, hE, lib);
    } else {
      var fitTx, _ := LinearLeastSquaresFit(pfl, dStart, 0.9 * dHzn[0]);
      hE[0] := Effective(h[0], pfl[2], fitTx);
      var _, fitRx := LinearLeastSquaresFit(pfl, d - 0.9 * dHzn[1], dEnd);
      hE[1] := Effective(h[1], pfl[np + 2], fitRx);
    }
  }

  /** The branch over rough terrain, from the effective heights in hE. */
  method RoughTerrain(aE: real, d: real, deltaH: real, theta: array<real>, dHzn: array<real>, hE: array<real>, lib: Libm)
    requires theta.Length == 2 && dHzn.Length == 2 && hE.Length == 2 && theta != dHzn && theta != hE && dHzn != hE
    requires hE[0] > 0.0 && hE[1] > 0.0 && aE > 0.0 && d > 0.0 && lib.Valid()
    modifies theta, dHzn, hE
    ensures RoughPath(hE[0], hE[1], dHzn[0], dHzn[1], theta[0], theta[1]) == Rough(old(hE[0]), old(hE[1]), aE, d, deltaH, lib)
  {
    hide Times, RoughHorizon, RoughTheta, Squared;
    ghost var he0, he1 := hE[0], hE[1];
    RoughHorizonPositive(he0, aE, deltaH, lib);
    RoughHorizonPositive(he1, aE, deltaH, lib);
    for n := 0 to 2
      invariant hE[0] == he0 && hE[1] == he1
      invariant n > 0 ==> dHzn[0] == RoughHorizon(he0, aE, deltaH, lib)
      invariant n > 1 ==> dHzn[1] == RoughHorizon(he1, aE, deltaH, lib)
    {
      dHzn[n] := RoughHorizon(hE[n], aE, deltaH, lib);
    }
    var combined := dHzn[0] + dHzn[1];
    ghost var scale := if combined <= d then Ratio(d, combined) else 1.0;
    TimesOne(he0);
    TimesOne(he1);
    if combined <= d {
      var q := Ratio(d, combined);
      for n := 0 to 2
        invariant hE[0] == (if n > 0 then Times(he0, q) else he0) && hE[1] == (if n > 1 then Times(he1, q) else he1)
        invariant n > 0 ==> dHzn[0] == RoughHorizon(hE[0], aE, deltaH, lib)
        invariant n > 1 ==> dHzn[1] == RoughHorizon(hE[1], aE, deltaH, lib)
      {
        hE[n] := Times(hE[n], q);
        dHzn[n] := RoughHorizon(hE[n], aE, deltaH, lib);
      }
    }
    TimesSign(he0, scale);
    TimesSign(he1, scale);
    RoughHorizonPositive(hE[0], aE, deltaH, lib);
    RoughHorizonPositive(hE[1], aE, deltaH, lib);
    ghost var he2, he3, d0, d1 := hE[0], hE[1], dHzn[0], dHzn[1];
    for n := 0 to 2
      invariant hE[0] == he2 && hE[1] == he3 && dHzn[0] == d0 && dHzn[1] == d1
      invariant n > 0 ==> theta[0] == RoughTheta(hE[0], dHzn[0], aE, deltaH, lib)
      invariant n > 1 ==> theta[1] == RoughTheta(hE[1], dHzn[1], aE, deltaH, lib)
    {
      theta[n] := RoughTheta(hE[n], dHzn[n], aE, deltaH, lib);
    }
  }

  lemma TimesOne(x: real)
    ensures Times(x, 1.0) == x
  {
  }

  // ---- reciprocity ----

  lemma FitEndsMirror(p: seq<real>, q: seq<real>, dStart: real, dEnd: real, d: real)
    requires Mirrored(p, q) && d == Dist(p, Np(p))
    requires var r := FitRange(Np(p), dStart / p[1], dEnd / p[1]); Span(p, r.0, r.1)
    ensures var r := FitRange(Np(p), (d - dEnd) / q[1], (d - dStart) / q[1]); Span(q, r.0, r.1)
    ensures FitEnds(q, d - dEnd, d - dStart) == (FitEnds(p, dStart, dEnd).1, FitEnds(p, dStart, dEnd).0)
  {
    hide Times, Fit, FitRange, Line;
    var np, xs, xe := Np(p), dStart / p[1], dEnd / p[1];
    FromEnd(p[1], np as real, dStart, d);
    FromEnd(p[1], np as real, dEnd, d);
    FitRangeMirrors(np, xs, xe);
    var r := FitRange(np, xs, xe);
    var f := Fit(p, r.0, r.1);
    FitMirrors(p, q, r.0, r.1);
    LineFromEnd(f.0, f.1, np, 0);
    LineFromEnd(f.0, f.1, np, np);
  }

  lemma MirrorsBack(p: seq<real>, q: seq<real>)
    requires Mirrored(p, q)
    ensures Mirrored(q, p)
  {
    forall k | 0 <= k <= Np(q) ensures Height(p, k) == Height(q, Np(q) - k) {
      assert Height(q, Np(p) - k) == Height(p, Np(p) - (Np(p) - k));
    }
  }

  /** The takeoff angles and the distance swap on every path. */
  lemma TakeoffReciprocal(p: seq<real>, q: seq<real>, gammaE: real, hTx: real, hRx: real, lib: Libm)
    requires Mirrored(p, q) && Inputs(p, gammaE, hTx, hRx) && lib.Valid()
    ensures var a, b := PathOf(p, gammaE, hTx, hRx, lib), PathOf(q, gammaE, hRx, hTx, lib);
            b.takeoffTx == a.takeoffRx && b.takeoffRx == a.takeoffTx && b.d == a.d
  {
    hide TxAngle, RxAngle, TxHorizon, RxHorizon, DeltaH, FitEnds, Rough, Effective, Inset, UniqueHorizon, Times;
    MirrorsBack(p, q);
    HorizonMirrors(p, q, 1.0 / gammaE, hTx, hRx);
    HorizonMirrors(q, p, 1.0 / gammaE, hRx, hTx);
  }

  lemma RoughSwaps(heTx: real, heRx: real, a: real, d: real, deltaH: real, lib: Libm)
    requires heTx > 0.0 && heRx > 0.0 && a > 0.0 && d > 0.0 && lib.Valid()
    ensures var r := Rough(heTx, heRx, a, d, deltaH, lib);
            Rough(heRx, heTx, a, d, deltaH, lib) == RoughPath(r.heRx, r.heTx, r.dRx, r.dTx, r.thetaRx, r.thetaTx)
  {
    hide RoughHorizon, RoughTheta, Ratio, Times;
    RoughHorizonPositive(heTx, a, deltaH, lib);
    RoughHorizonPositive(heRx, a, deltaH, lib);
    var x, y := RoughHorizon(heTx, a, deltaH, lib), RoughHorizon(heRx, a, deltaH, lib);
    assert x + y == y + x;
  }

  lemma PathFromMirrors(p: seq<real>, q: seq<real>, a: real, hTx: real, hRx: real, i: int, j: int, thetaTx: real, thetaRx: real, lib: Libm)
    requires Mirrored(p, q) && a > 0.0 && hTx > 0.0 && hRx > 0.0 && 1 <= i <= Np(p) && 1 <= j <= Np(p) && lib.Valid()
    ensures PathFrom(q, a, hRx, hTx, j, i, thetaRx, thetaTx, lib) == Swapped(PathFrom(p, a, hTx, hRx, i, j, thetaTx, thetaRx, lib))
  {
    hide DeltaH, FitEnds, Times, FitRange, Rough, Inset, DistancesOnProfile, Span, Fdim;
    var np := Np(p);
    var d, dTx, dRx := Dist(p, np), Dist(p, i), Dist(p, j);
    CallsInRange(p, hTx, hRx, i, j);
    var dStart, dEnd := Inset(hTx, dTx), d - Inset(hRx, dRx);
    DeltaHMirrors(p, q, dStart, dEnd, d, lib);
    FitEndsMirror(p, q, dStart, dEnd, d);
    FitEndsMirror(p, q, dStart, 0.9 * dTx, d);
    FitEndsMirror(p, q, d - 0.9 * dRx, dEnd, d);
    assert Height(q, 0) == Height(p, np) && Height(q, np) == Height(p, np - np);
    assert d - dEnd == Inset(hRx, dRx) && d - dStart == d - Inset(hTx, dTx) && d - (d - 0.9 * dRx) == 0.9 * dRx;
    if dTx + dRx > 1.5 * d {
      var fit := FitEnds(p, dStart, dEnd);
      RoughSwaps(Effective(hTx, Height(p, 0), fit.0), Effective(hRx, Height(p, np), fit.1), a, d, DeltaH(p, dStart, dEnd, lib), lib);
    }
  }

  /**
   * The path parameters are reciprocal: over the same terrain seen from the other end, with the antennas exchanged,
   * everything belonging to one terminal moves to the other, and delta_h and the distance stay. Each terminal's
   * horizon has to be unique.
   */
  lemma Reciprocal(p: seq<real>, q: seq<real>, gammaE: real, hTx: real, hRx: real, lib: Libm)
    requires Mirrored(p, q) && Inputs(p, gammaE, hTx, hRx) && lib.Valid()
    requires UniqueHorizon(p, 1.0 / gammaE, hTx, hRx) && UniqueHorizon(q, 1.0 / gammaE, hRx, hTx)
    ensures PathOf(q, gammaE, hRx, hTx, lib) == Swapped(PathOf(p, gammaE, hTx, hRx, lib))
  {
    hide TxAngle, RxAngle, TxHorizon, RxHorizon, UniqueHorizon, PathFrom, Times, Height;
    var a, np := 1.0 / gammaE, Np(p);
    MirrorsBack(p, q);
    HorizonMirrors(p, q, a, hTx, hRx);
    HorizonMirrors(q, p, a, hRx, hTx);
    var k, l := TxHorizon(p, a, hTx, hRx), RxHorizon(p, a, hTx, hRx);
    SameSample(p, k, np - RxHorizon(q, a, hRx, hTx));
    SameSample(p, np - l, TxHorizon(q, a, hRx, hTx));
    PathFromMirrors(p, q, a, hTx, hRx, k, np - l, TxAngle(p, a, hTx, hRx, k), RxAngle(p, a, hTx, hRx, l), lib);
  }

  lemma SameSample(p: seq<real>, i: int, j: int)
    requires Packed(p) && Dist(p, i) == Dist(p, j)
    ensures i == j
  {
    DistIncreases(p, i, j);
    DistIncreases(p, j, i);
  }

  /** The horizons do not overlap by more than half the path, so that they are returned as found. */
  ghost predicate HorizonsApart(pfl: seq<real>, gammaE: real, hTx: real, hRx: real)
    requires Inputs(pfl, gammaE, hTx, hRx)
  {
    var a := 1.0 / gammaE;
    Dist(pfl, TxHorizon(pfl, a, hTx, hRx)) + Dist(pfl, Np(pfl) - RxHorizon(pfl, a, hTx, hRx)) <= 1.5 * Dist(pfl, Np(pfl))
  }

  /** There, unique horizons are exactly what reciprocity takes. */
  lemma ReciprocalExactly(p: seq<real>, q: seq<real>, gammaE: real, hTx: real, hRx: real, lib: Libm)
    requires Mirrored(p, q) && Inputs(p, gammaE, hTx, hRx) && lib.Valid()
    requires HorizonsApart(p, gammaE, hTx, hRx) && HorizonsApart(q, gammaE, hRx, hTx)
    ensures PathOf(q, gammaE, hRx, hTx, lib) == Swapped(PathOf(p, gammaE, hTx, hRx, lib))
            <==> UniqueHorizon(p, 1.0 / gammaE, hTx, hRx) && UniqueHorizon(q, 1.0 / gammaE, hRx, hTx)
  {
    hide TxAngle, RxAngle, TxHorizon, RxHorizon, UniqueHorizon, DeltaH, FitEnds, Effective, Times, Height;
    var a := 1.0 / gammaE;
    MirrorsBack(p, q);
    HorizonMirrors(p, q, a, hTx, hRx);
    HorizonMirrors(q, p, a, hRx, hTx);
    if UniqueHorizon(p, a, hTx, hRx) && UniqueHorizon(q, a, hRx, hTx) {
      Reciprocal(p, q, gammaE, hTx, hRx, lib);
    }
  }

  /** Over rough terrain the horizons found matter only by the insets taken from them. */
  ghost predicate RoughAlike(p: seq<real>, q: seq<real>, gammaE: real, hTx: real, hRx: real)
    requires Inputs(p, gammaE, hTx, hRx) && Inputs(q, gammaE, hRx, hTx)
  {
    var a := 1.0 / gammaE;
    && !HorizonsApart(p, gammaE, hTx, hRx) && !HorizonsApart(q, gammaE, hRx, hTx)
    && Inset(hTx, Dist(p, TxHorizon(p, a, hTx, hRx))) == Inset(hTx, Dist(q, Np(q) - RxHorizon(q, a, hRx, hTx)))
    && Inset(hRx, Dist(p, Np(p) - RxHorizon(p, a, hTx, hRx))) == Inset(hRx, Dist(q, TxHorizon(q, a, hRx, hTx)))
  }

  /** So a tie does no harm there as long as the insets come from the antenna heights, or agree. */
  lemma RoughReciprocal(p: seq<real>, q: seq<real>, gammaE: real, hTx: real, hRx: real, lib: Libm)
    requires Mirrored(p, q) && Inputs(p, gammaE, hTx, hRx) && Inputs(q, gammaE, hRx, hTx) && lib.Valid()
    requires RoughAlike(p, q, gammaE, hTx, hRx)
    ensures PathOf(q, gammaE, hRx, hTx, lib) == Swapped(PathOf(p, gammaE, hTx, hRx, lib))
  {
    hide TxAngle, RxAngle, TxHorizon, RxHorizon, UniqueHorizon, PathFrom, Times, Height, Dist;
    var a, np := 1.0 / gammaE, Np(p);
    MirrorsBack(p, q);
    HorizonMirrors(p, q, a, hTx, hRx);
    HorizonMirrors(q, p, a, hRx, hTx);
    SameDistance(p, q);
    var k, l := TxHorizon(p, a, hTx, hRx), RxHorizon(p, a, hTx, hRx);
    var i, j := TxHorizon(q, a, hRx, hTx), np - RxHorizon(q, a, hRx, hTx);
    var thetaTx, thetaRx := TxAngle(p, a, hTx, hRx, k), RxAngle(p, a, hTx, hRx, l);
    PathFromMirrors(p, q, a, hTx, hRx, k, np - l, thetaTx, thetaRx, lib);
    RoughByInsets(q, a, hRx, hTx, np - l, k, i, j, thetaRx, thetaTx, lib);
  }

  lemma SameDistance(p: seq<real>, q: seq<real>)
    requires Mirrored(p, q)
    ensures Np(p) == Np(q) && forall i :: Dist(p, i) == Dist(q, i)
  {
  }

  lemma RoughByInsets(p: seq<real>, a: real, hTx: real, hRx: real, i: int, j: int, k: int, l: int,
                      thetaTx: real, thetaRx: real, lib: Libm)
    requires Packed(p) && a > 0.0 && hTx > 0.0 && hRx > 0.0 && lib.Valid()
    requires 1 <= i <= Np(p) && 1 <= j <= Np(p) && 1 <= k <= Np(p) && 1 <= l <= Np(p)
    requires Dist(p, i) + Dist(p, j) > 1.5 * Dist(p, Np(p)) && Dist(p, k) + Dist(p, l) > 1.5 * Dist(p, Np(p))
    requires Inset(hTx, Dist(p, i)) == Inset(hTx, Dist(p, k)) && Inset(hRx, Dist(p, j)) == Inset(hRx, Dist(p, l))
    ensures PathFrom(p, a, hTx, hRx, i, j, thetaTx, thetaRx, lib) == PathFrom(p, a, hTx, hRx, k, l, thetaTx, thetaRx, lib)
  {
    hide DeltaH, FitEnds, Times, FitRange, Rough, Inset, DistancesOnProfile, Span, Fdim, Effective, Dist;
  }

  /** A path that is not reciprocal, over any earth. */
  lemma NotReciprocal(gammaE: real, lib: Libm)
    requires gammaE > 0.0 && lib.Valid()
    ensures Mirrored(Tie(gammaE), TieMirrored(gammaE))
    ensures PathOf(TieMirrored(gammaE), gammaE, 1.0, 1.0, lib) != Swapped(PathOf(Tie(gammaE), gammaE, 1.0, 1.0, lib))
  {
    hide TxHorizon, RxHorizon, TxAngle, RxAngle, UniqueHorizon, DeltaH, FitEnds, Effective;
    HorizonTie(gammaE);
    assert Dist(Tie(gammaE), 3) == 3.0 == Dist(TieMirrored(gammaE), 3);
  }
}
