/** Which terrain the effective antenna heights of internal/itm/quick_pfl.go are taken over, and what they are. */
module PathHeights {
  import opened GoMath
  import opened LeastSquares
  import opened OrderStatistics
  import opened Horizons
  import opened TerrainIrregularity
  import opened QuickPfl

  /** The samples within a step of the distances from and to lie on the line of height c at sample 0 and slope b. */
  ghost predicate StraightBetween(pfl: seq<real>, from: real, to: real, c: real, b: real) {
    && Packed(pfl)
    && forall k :: 0 <= k <= Np(pfl) && from / pfl[1] - 1.0 <= k as real <= to / pfl[1] + 1.0 ==> Height(pfl, k) == Line(c, b, k)
  }

  lemma FitOfStraight(pfl: seq<real>, from: real, to: real, c: real, b: real)
    requires StraightBetween(pfl, from, to, c, b) && 0.0 <= from / pfl[1] <= to / pfl[1] <= Np(pfl) as real
    ensures var r := FitRange(Np(pfl), from / pfl[1], to / pfl[1]); Span(pfl, r.0, r.1)
    ensures FitEnds(pfl, from, to) == (c, Line(c, b, Np(pfl)))
  {
    FitRangeUsable(Np(pfl), from / pfl[1], to / pfl[1]);
    FitRangeTight(Np(pfl), from / pfl[1], to / pfl[1]);
    var r := FitRange(Np(pfl), from / pfl[1], to / pfl[1]);
    hide FitRange, Fit;
    StraightReproduced(pfl, r.0, r.1, c, b);
    LineBegins(c, b);
  }

  lemma LineBegins(c: real, b: real)
    ensures Line(c, b, 0) == c
  {
  }

  /** The height of an antenna over a line, or over the ground where that is lower. */
  lemma EffectiveIs(h: real, ground: real, line: real)
    ensures Effective(h, ground, line) == ground + h - Min(ground, line)
  {
  }

  /**
   * Where the horizons are returned as found, the transmitter's height is that over the line along the terrain from 15
   * antenna heights, or a tenth of its horizon distance, to nine tenths of it; no other terrain matters.
   */
  lemma TransmitterHeight(pfl: seq<real>, a: real, hTx: real, hRx: real, i: int, j: int, thetaTx: real, thetaRx: real,
                          lib: Libm, c: real, b: real)
    requires Packed(pfl) && a > 0.0 && hTx > 0.0 && hRx > 0.0 && 1 <= i <= Np(pfl) && 1 <= j <= Np(pfl) && lib.Valid()
    requires Dist(pfl, i) + Dist(pfl, j) <= 1.5 * Dist(pfl, Np(pfl))
    requires StraightBetween(pfl, Min(15.0 * hTx, 0.1 * Dist(pfl, i)), 0.9 * Dist(pfl, i), c, b)
    ensures PathFrom(pfl, a, hTx, hRx, i, j, thetaTx, thetaRx, lib).heTx == Height(pfl, 0) + hTx - Min(Height(pfl, 0), c)
  {
    hide Times, FitRange, Fit, Line, DeltaH, Rough, FitEnds, Effective, DistancesOnProfile, Fdim, StraightBetween;
    CallsInRange(pfl, hTx, hRx, i, j);
    InsetsInSteps(pfl, hTx, i);
    FitOfStraight(pfl, Min(15.0 * hTx, 0.1 * Dist(pfl, i)), 0.9 * Dist(pfl, i), c, b);
    EffectiveIs(hTx, Height(pfl, 0), c);
  }

  /** And the receiver's likewise, from its own end. */
  lemma ReceiverHeight(pfl: seq<real>, a: real, hTx: real, hRx: real, i: int, j: int, thetaTx: real, thetaRx: real,
                       lib: Libm, c: real, b: real)
    requires Packed(pfl) && a > 0.0 && hTx > 0.0 && hRx > 0.0 && 1 <= i <= Np(pfl) && 1 <= j <= Np(pfl) && lib.Valid()
    requires Dist(pfl, i) + Dist(pfl, j) <= 1.5 * Dist(pfl, Np(pfl))
    requires var d := Dist(pfl, Np(pfl));
      StraightBetween(pfl, d - 0.9 * Dist(pfl, j), d - Min(15.0 * hRx, 0.1 * Dist(pfl, j)), c, b)
    ensures var ground := Height(pfl, Np(pfl));
      PathFrom(pfl, a, hTx, hRx, i, j, thetaTx, thetaRx, lib).heRx == ground + hRx - Min(ground, Line(c, b, Np(pfl)))
  {
    hide Times, FitRange, Fit, Line, DeltaH, Rough, FitEnds, Effective, DistancesOnProfile, Fdim, StraightBetween;
    var d := Dist(pfl, Np(pfl));
    CallsInRange(pfl, hTx, hRx, i, j);
    InsetsFromEnd(pfl, hRx, j);
    FitOfStraight(pfl, d - 0.9 * Dist(pfl, j), d - Min(15.0 * hRx, 0.1 * Dist(pfl, j)), c, b);
    EffectiveIs(hRx, Height(pfl, Np(pfl)), Line(c, b, Np(pfl)));
  }

  lemma InsetsInSteps(pfl: seq<real>, h: real, i: int)
    requires Packed(pfl) && h > 0.0 && 1 <= i <= Np(pfl)
    ensures 0.0 <= Min(15.0 * h, 0.1 * Dist(pfl, i)) / pfl[1] <= 0.9 * Dist(pfl, i) / pfl[1] <= Np(pfl) as real
  {
    hide Times;
    DistSteps(pfl, i);
    DistIncreases(pfl, i, Np(pfl));
    InSteps(pfl[1], Dist(pfl, Np(pfl)), Np(pfl), Min(15.0 * h, 0.1 * Dist(pfl, i)), 0.9 * Dist(pfl, i));
  }

  lemma InsetsFromEnd(pfl: seq<real>, h: real, j: int)
    requires Packed(pfl) && h > 0.0 && 1 <= j <= Np(pfl)
    ensures var d := Dist(pfl, Np(pfl));
      0.0 <= (d - 0.9 * Dist(pfl, j)) / pfl[1] <= (d - Min(15.0 * h, 0.1 * Dist(pfl, j))) / pfl[1] <= Np(pfl) as real
  {
    hide Times;
    var d := Dist(pfl, Np(pfl));
    DistSteps(pfl, j);
    DistIncreases(pfl, j, Np(pfl));
    InSteps(pfl[1], d, Np(pfl), d - 0.9 * Dist(pfl, j), d - Min(15.0 * h, 0.1 * Dist(pfl, j)));
  }

  /**
   * Over rough terrain both heights start from one line, along the terrain between the insets of both ends, and they are
   * raised only where the horizons fall short of each other.
   */
  lemma RoughHeights(pfl: seq<real>, a: real, hTx: real, hRx: real, i: int, j: int, thetaTx: real, thetaRx: real,
                     lib: Libm, c: real, b: real)
    requires Packed(pfl) && a > 0.0 && hTx > 0.0 && hRx > 0.0 && 1 <= i <= Np(pfl) && 1 <= j <= Np(pfl) && lib.Valid()
    requires Dist(pfl, i) + Dist(pfl, j) > 1.5 * Dist(pfl, Np(pfl))
    requires var d := Dist(pfl, Np(pfl));
      StraightBetween(pfl, Min(15.0 * hTx, 0.1 * Dist(pfl, i)), d - Min(15.0 * hRx, 0.1 * Dist(pfl, j)), c, b)
    ensures var p := PathFrom(pfl, a, hTx, hRx, i, j, thetaTx, thetaRx, lib);
      var uTx := Height(pfl, 0) + hTx - Min(Height(pfl, 0), c);
      var uRx := Height(pfl, Np(pfl)) + hRx - Min(Height(pfl, Np(pfl)), Line(c, b, Np(pfl)));
      uTx > 0.0 && uRx > 0.0 && Dist(pfl, Np(pfl)) > 0.0
      && var r := Rough(uTx, uRx, a, Dist(pfl, Np(pfl)), p.deltaH, lib); p.heTx == r.heTx && p.heRx == r.heRx
  {
    hide Times, FitRange, Fit, Line, DeltaH, Rough, FitEnds, Effective, DistancesOnProfile, Fdim, StraightBetween;
    var d := Dist(pfl, Np(pfl));
    var from, to := Min(15.0 * hTx, 0.1 * Dist(pfl, i)), d - Min(15.0 * hRx, 0.1 * Dist(pfl, j));
    CallsInRange(pfl, hTx, hRx, i, j);
    BothInsets(pfl, hTx, hRx, i, j);
    FitOfStraight(pfl, from, to, c, b);
    EffectiveIs(hTx, Height(pfl, 0), c);
    EffectiveIs(hRx, Height(pfl, Np(pfl)), Line(c, b, Np(pfl)));
  }

  lemma BothInsets(pfl: seq<real>, hTx: real, hRx: real, i: int, j: int)
    requires Packed(pfl) && hTx > 0.0 && hRx > 0.0 && 1 <= i <= Np(pfl) && 1 <= j <= Np(pfl)
    ensures var d := Dist(pfl, Np(pfl));
      0.0 <= Min(15.0 * hTx, 0.1 * Dist(pfl, i)) / pfl[1] <= (d - Min(15.0 * hRx, 0.1 * Dist(pfl, j))) / pfl[1] <= Np(pfl) as real
  {
    hide Times;
    var d := Dist(pfl, Np(pfl));
    DistSteps(pfl, i);
    DistSteps(pfl, j);
    DistIncreases(pfl, i, Np(pfl));
    DistIncreases(pfl, j, Np(pfl));
    InSteps(pfl[1], d, Np(pfl), Min(15.0 * hTx, 0.1 * Dist(pfl, i)), d - Min(15.0 * hRx, 0.1 * Dist(pfl, j)));
  }

  // ---- the irregularity ----

  lemma InterpOfStraight(pfl: seq<real>, xs: real, xe: real, x: real, c: real, b: real)
    requires OnProfile(pfl, xs, xe) && xs <= x <= xe
    requires forall k :: 0 <= k <= Np(pfl) && xs - 1.0 <= k as real <= xe + 1.0 ==> Height(pfl, k) == Line(c, b, k)
    ensures Interp(pfl, x) == Over(c, b, x)
  {
    var i := if x.Floor == Np(pfl) then Np(pfl) - 1 else x.Floor;
    assert Height(pfl, i) == Line(c, b, i) && Height(pfl, i + 1) == Line(c, b, i + 1);
    hide Height, Line;
    OnLine(c, b, i, x);
  }

  lemma OnLine(c: real, b: real, i: int, x: real)
    ensures Between(Line(c, b, i), Line(c, b, i + 1), x - i as real) == Over(c, b, x)
  {
    assert (i + 1) as real == i as real + 1.0;
  }

  /** Terrain that is straight between the distances is not irregular, whatever lies further out. */
  lemma StraightIsSmooth(pfl: seq<real>, dStart: real, dEnd: real, lib: Libm, c: real, b: real)
    requires DistancesOnProfile(pfl, dStart, dEnd) && lib.Valid() && StraightBetween(pfl, dStart, dEnd, c, b)
    ensures DeltaH(pfl, dStart, dEnd, lib) == 0.0
  {
    var xs, xe := dStart / pfl[1], dEnd / pfl[1];
    if xe - xs >= 2.0 {
      var s := Resampled(pfl, xs, xe);
      var u, v := Over(c, b, xs), Times(b, Step(xs, xe));
      forall j | 0 <= j <= Np(s) ensures Height(s, j) == Line(u, v, j) {
        PositionInRange(xs, xe, j);
        InterpOfStraight(pfl, xs, xe, Position(xs, xe, j), c, b);
        ResampledIs(pfl, xs, xe, j);
        OverAlong(c, b, xs, j, Step(xs, xe));
      }
      NoResiduals(s, u, v);
      var hi, lo := DeltaHIsInterdecile(pfl, dStart, dEnd, lib);
      hide DeltaH, Resampled, Detrended, Times, PathFactor, Highest, Lowest, StraightBetween;
      ZeroMembers(Detrended(s), P10(xs, xe), hi, lo);
      PathFactorPositive(lib, dEnd - dStart);
      ZeroFactor(DeltaH(pfl, dStart, dEnd, lib), PathFactor(lib, dEnd - dStart));
    }
  }

  lemma ResampledIs(pfl: seq<real>, xs: real, xe: real, j: int)
    requires OnProfile(pfl, xs, xe) && 0 <= j < SampleCount(xs, xe)
    ensures 0.0 <= Position(xs, xe, j) <= Np(pfl) as real && Height(Resampled(pfl, xs, xe), j) == Interp(pfl, Position(xs, xe, j))
  {
    PositionInRange(xs, xe, j);
  }

  lemma NoResiduals(s: seq<real>, u: real, v: real)
    requires Packed(s) && forall j :: 0 <= j <= Np(s) ==> Height(s, j) == Line(u, v, j)
    ensures forall j :: 0 <= j < |Detrended(s)| ==> Detrended(s)[j] == 0.0
  {
    hide Line, Fit;
    StraightReproduced(s, 0, Np(s), u, v);
  }

  lemma ZeroMembers(s: seq<real>, p: int, hi: real, lo: real)
    requires (forall j :: 0 <= j < |s| ==> s[j] == 0.0) && Highest(s, p, hi) && Lowest(s, p, lo)
    ensures hi == 0.0 && lo == 0.0
  {
  }

  lemma ZeroFactor(x: real, f: real)
    requires f > 0.0 && Times(x, f) == 0.0
    ensures x == 0.0
  {
    TimesSign(x, f);
  }

  /** The path's delta_h is that of the terrain between the insets of both ends. */
  lemma PathIrregularity(pfl: seq<real>, a: real, hTx: real, hRx: real, i: int, j: int, thetaTx: real, thetaRx: real,
                         lib: Libm, c: real, b: real)
    requires Packed(pfl) && a > 0.0 && hTx > 0.0 && hRx > 0.0 && 1 <= i <= Np(pfl) && 1 <= j <= Np(pfl) && lib.Valid()
    requires var d := Dist(pfl, Np(pfl));
      StraightBetween(pfl, Min(15.0 * hTx, 0.1 * Dist(pfl, i)), d - Min(15.0 * hRx, 0.1 * Dist(pfl, j)), c, b)
    ensures PathFrom(pfl, a, hTx, hRx, i, j, thetaTx, thetaRx, lib).deltaH == 0.0
  {
    hide Times, FitRange, Fit, Line, DeltaH, Rough, FitEnds, Effective, DistancesOnProfile, Fdim, StraightBetween;
    var d := Dist(pfl, Np(pfl));
    CallsInRange(pfl, hTx, hRx, i, j);
    StraightIsSmooth(pfl, Min(15.0 * hTx, 0.1 * Dist(pfl, i)), d - Min(15.0 * hRx, 0.1 * Dist(pfl, j)), lib, c, b);
  }

  // ---- angles and horizons ----

  /** Takeoff angles are the highest angles either terminal sees; apart horizons are returned as they are seen. */
  lemma TakeoffIsHighest(pfl: seq<real>, gammaE: real, hTx: real, hRx: real, lib: Libm) returns (k: int, l: int)
    requires Inputs(pfl, gammaE, hTx, hRx) && lib.Valid()
    ensures 1 <= k <= Np(pfl) && 0 <= l < Np(pfl)
    ensures var a, p := 1.0 / gammaE, PathOf(pfl, gammaE, hTx, hRx, lib);
      && TxHighest(pfl, a, hTx, hRx, k) && p.takeoffTx == TxAngle(pfl, a, hTx, hRx, k)
      && RxHighest(pfl, a, hTx, hRx, l) && p.takeoffRx == RxAngle(pfl, a, hTx, hRx, l)
      && p.d == Dist(pfl, Np(pfl))
      && (HorizonsApart(pfl, gammaE, hTx, hRx) ==>
            && p.thetaTx == p.takeoffTx && p.dHznTx == Dist(pfl, k)
            && p.thetaRx == p.takeoffRx && p.dHznRx == Dist(pfl, Np(pfl) - l))
  {
    var a := 1.0 / gammaE;
    k, l := TxHorizon(pfl, a, hTx, hRx), RxHorizon(pfl, a, hTx, hRx);
    TxScanFirst(pfl, a, hTx, hRx, Np(pfl));
    RxScanFirst(pfl, a, hTx, hRx, Np(pfl));
    hide TxAngle, RxAngle, Times, FitRange, Fit, Line, DeltaH, Rough, FitEnds, Effective, DistancesOnProfile, Fdim, Inset, Dist;
  }
}
