/** What the rough-terrain branch of internal/itm/quick_pfl.go does to heights, horizons and angles. */
module RoughPaths {
  import opened GoMath
  import opened LeastSquares
  import opened Horizons
  import opened TerrainIrregularity
  import opened QuickPfl

  /** What is used of math.Sqrt and math.Exp: both grow, and a square factor comes out of the root. */
  ghost predicate Laws(lib: Libm) {
    && lib.Valid() && lib.sqrt(0.0) == 0.0 && lib.exp(0.0) == 1.0
    && (forall x, y :: 0.0 <= x <= y ==> lib.sqrt(x) <= lib.sqrt(y))
    && (forall x, y :: x <= y ==> lib.exp(x) <= lib.exp(y))
    && (forall k, x :: k > 0.0 && x >= 0.0 ==> lib.sqrt(Times(Squared(k), x)) == Times(k, lib.sqrt(x)))
  }

  /** The loss of distance over irregular terrain. */
  function Shortening(he: real, deltaH: real, lib: Libm): real {
    lib.exp(-0.07 * lib.sqrt(deltaH / Max(he, 5.0)))
  }

  lemma HorizonIs(he: real, a: real, deltaH: real, lib: Libm)
    ensures RoughHorizon(he, a, deltaH, lib) == Times(lib.sqrt(2.0 * he * a), Shortening(he, deltaH, lib))
  {
  }

  /** Irregular terrain shortens the horizon the less, the higher the antenna is. */
  lemma ShorteningEases(he: real, u: real, deltaH: real, lib: Libm)
    requires Laws(lib) && 0.0 < he <= u && deltaH >= 0.0
    ensures 0.0 < Shortening(he, deltaH, lib) <= Shortening(u, deltaH, lib) <= 1.0
    ensures deltaH == 0.0 ==> Shortening(u, deltaH, lib) == 1.0
  {
    var m, n := Max(he, 5.0), Max(u, 5.0);
    Shares(deltaH, m, n);
    assert lib.sqrt(deltaH / n) <= lib.sqrt(deltaH / m);
    assert lib.sqrt(deltaH / n) >= lib.sqrt(0.0);
  }

  lemma Shares(x: real, m: real, n: real)
    requires x >= 0.0 && 0.0 < m <= n
    ensures 0.0 <= x / n <= x / m && (x == 0.0 ==> x / n == 0.0)
  {
    var p, q := x / n, x / m;
    assert p * n == x && q * m == x;
    ProductOrder(m, n, p + 1.0);
    TimesSign(x, n);
    if p > q {
      ProductOrder(q, p, m);
      ProductOrder(m, n, p);
      assert false;
    }
  }

  /** A height raised by the square of k sees at least k times as far. */
  lemma RaisedSeesFarther(he: real, k: real, a: real, deltaH: real, lib: Libm)
    requires Laws(lib) && he > 0.0 && k >= 1.0 && a > 0.0 && deltaH >= 0.0
    ensures var u := Times(he, Squared(k));
      && u >= he && RoughHorizon(u, a, deltaH, lib) >= Times(k, RoughHorizon(he, a, deltaH, lib))
      && (deltaH == 0.0 ==> RoughHorizon(u, a, deltaH, lib) == Times(k, RoughHorizon(he, a, deltaH, lib)))
  {
    hide *;
    var u := Times(he, Squared(k));
    Raised(he, k);
    RootOfRaised(he, k, a, u, lib);
    ShorteningEases(he, u, deltaH, lib);
    HorizonIs(u, a, deltaH, lib);
    HorizonIs(he, a, deltaH, lib);
    ShorteningEases(he, he, deltaH, lib);
    var root, e, f := lib.sqrt(2.0 * he * a), Shortening(he, deltaH, lib), Shortening(u, deltaH, lib);
    Combined(k, root, e, f);
    assert RoughHorizon(u, a, deltaH, lib) == Times(Times(k, root), f);
    assert RoughHorizon(he, a, deltaH, lib) == Times(root, e);
  }

  lemma Combined(k: real, root: real, e: real, f: real)
    requires k >= 1.0 && root > 0.0 && e <= f
    ensures Times(Times(k, root), f) >= Times(k, Times(root, e))
    ensures e == f ==> Times(Times(k, root), f) == Times(k, Times(root, e))
  {
    TimesSign(k, root);
    TimesMonotone(Times(k, root), f, e);
    Regrouped(k, root, e);
    hide Times;
  }

  lemma RootOfRaised(he: real, k: real, a: real, u: real, lib: Libm)
    requires Laws(lib) && he > 0.0 && k >= 1.0 && a > 0.0 && u == Times(he, Squared(k))
    ensures lib.sqrt(2.0 * u * a) == Times(k, lib.sqrt(2.0 * he * a))
    ensures lib.sqrt(2.0 * he * a) > 0.0
  {
    hide Times, Squared, Laws;
    TwoHeAPositive(he, a);
    Doubled(he, k, a, u);
    RootLaw(k, 2.0 * he * a, lib);
  }

  lemma RootLaw(k: real, x: real, lib: Libm)
    requires Laws(lib) && k > 0.0 && x > 0.0
    ensures lib.sqrt(Times(Squared(k), x)) == Times(k, lib.sqrt(x)) && lib.sqrt(x) > 0.0
  {
    hide Times, Squared;
  }

  lemma Raised(he: real, k: real)
    requires he > 0.0 && k >= 1.0
    ensures Times(he, Squared(k)) >= he
  {
    assert Squared(k) >= k >= 1.0;
    TimesMonotone(he, Squared(k), 1.0);
  }

  lemma Doubled(he: real, k: real, a: real, u: real)
    requires u == Times(he, Squared(k))
    ensures 2.0 * u * a == Times(Squared(k), 2.0 * he * a)
  {
    var s := Squared(k);
    hide Squared;
    assert 2.0 * (he * s) * a == s * (2.0 * he * a);
  }

  lemma Regrouped(k: real, r: real, e: real)
    ensures Times(Times(k, r), e) == Times(k, Times(r, e))
  {
  }

  lemma RatioIs(x: real, y: real)
    requires x > 0.0 && y > 0.0
    ensures Ratio(x, y) == Squared(x / y) && Times(x / y, y) == x && (y <= x ==> x / y >= 1.0)
  {
    var k := x / y;
    assert k * y == x;
    if y <= x && k < 1.0 {
      ProductOrder(k, 1.0, y);
      assert false;
    }
  }

  /**
   * The branch never lowers an effective height, and the horizons it returns together reach at least from one terminal
   * to the other; exactly that far when they fell short over smooth ground.
   */
  lemma RoughReaches(heTx: real, heRx: real, a: real, d: real, deltaH: real, lib: Libm)
    requires Laws(lib) && heTx > 0.0 && heRx > 0.0 && a > 0.0 && d > 0.0 && deltaH >= 0.0
    ensures var r, sum := Rough(heTx, heRx, a, d, deltaH, lib), RoughHorizon(heTx, a, deltaH, lib) + RoughHorizon(heRx, a, deltaH, lib);
      && r.heTx >= heTx && r.heRx >= heRx && r.dTx + r.dRx >= d
      && (sum > d ==> r.heTx == heTx && r.heRx == heRx)
      && (sum <= d && deltaH == 0.0 ==> r.dTx + r.dRx == d)
  {
    var x, y := RoughHorizon(heTx, a, deltaH, lib), RoughHorizon(heRx, a, deltaH, lib);
    RoughHorizonPositive(heTx, a, deltaH, lib);
    RoughHorizonPositive(heRx, a, deltaH, lib);
    if x + y <= d {
      var k := d / (x + y);
      RatioIs(d, x + y);
      RaisedSeesFarther(heTx, k, a, deltaH, lib);
      RaisedSeesFarther(heRx, k, a, deltaH, lib);
      hide Times, RoughHorizon, RoughTheta, Squared, Ratio, Laws;
      TimesAdds(k, x, y);
    } else {
      TimesOne(heTx);
      TimesOne(heRx);
      hide Times, RoughHorizon, RoughTheta;
    }
  }

  /** On every path, whichever branch it takes, the effective heights are no lower than the antennas. */
  lemma HeightsKept(pfl: seq<real>, gammaE: real, hTx: real, hRx: real, lib: Libm)
    requires Inputs(pfl, gammaE, hTx, hRx) && Laws(lib)
    ensures var p := PathOf(pfl, gammaE, hTx, hRx, lib); p.heTx >= hTx && p.heRx >= hRx
  {
    hide TxAngle, RxAngle, TxHorizon, RxHorizon, DeltaH, FitEnds, FitRange, Inset, Rough, Times, DistancesOnProfile, Fdim, Laws;
    var a, np := 1.0 / gammaE, Np(pfl);
    var i, j := TxHorizon(pfl, a, hTx, hRx), np - RxHorizon(pfl, a, hTx, hRx);
    var d, dTx, dRx := Dist(pfl, np), Dist(pfl, i), Dist(pfl, j);
    CallsInRange(pfl, hTx, hRx, i, j);
    LawsValid(lib);
    var dStart, dEnd := Inset(hTx, dTx), d - Inset(hRx, dRx);
    DeltaHNonNegative(pfl, dStart, dEnd, lib);
    if dTx + dRx > 1.5 * d {
      var fit := FitEnds(pfl, dStart, dEnd);
      RoughReaches(Effective(hTx, Height(pfl, 0), fit.0), Effective(hRx, Height(pfl, np), fit.1), a, d,
                   DeltaH(pfl, dStart, dEnd, lib), lib);
    }
  }

  lemma LawsValid(lib: Libm)
    requires Laws(lib)
    ensures lib.Valid()
  {
  }

  /** In the rough-terrain branch the horizons returned meet or overlap. */
  lemma HorizonsMeet(pfl: seq<real>, gammaE: real, hTx: real, hRx: real, lib: Libm)
    requires Inputs(pfl, gammaE, hTx, hRx) && Laws(lib) && !HorizonsApart(pfl, gammaE, hTx, hRx)
    ensures var p := PathOf(pfl, gammaE, hTx, hRx, lib); p.dHznTx + p.dHznRx >= p.d
  {
    hide TxAngle, RxAngle, TxHorizon, RxHorizon, DeltaH, FitEnds, FitRange, Inset, Rough, Times, DistancesOnProfile, Fdim, Laws;
    var a, np := 1.0 / gammaE, Np(pfl);
    var i, j := TxHorizon(pfl, a, hTx, hRx), np - RxHorizon(pfl, a, hTx, hRx);
    var d, dTx, dRx := Dist(pfl, np), Dist(pfl, i), Dist(pfl, j);
    CallsInRange(pfl, hTx, hRx, i, j);
    LawsValid(lib);
    var dStart, dEnd := Inset(hTx, dTx), d - Inset(hRx, dRx);
    DeltaHNonNegative(pfl, dStart, dEnd, lib);
    var fit := FitEnds(pfl, dStart, dEnd);
    RoughReaches(Effective(hTx, Height(pfl, 0), fit.0), Effective(hRx, Height(pfl, np), fit.1), a, d,
                 DeltaH(pfl, dStart, dEnd, lib), lib);
  }

  /** The angle below the horizontal of the horizon of a smooth earth, and its distance. */
  lemma SmoothHorizon(he: real, a: real, lib: Libm)
    requires Laws(lib) && he > 0.0 && a > 0.0
    ensures var q := lib.sqrt(2.0 * he * a);
      q > 0.0 && RoughHorizon(he, a, 0.0, lib) == q && RoughTheta(he, q, a, 0.0, lib) == -2.0 * he / q
  {
    TwoHeAPositive(he, a);
    ShorteningEases(he, he, 0.0, lib);
    HorizonIs(he, a, 0.0, lib);
    TimesOne(lib.sqrt(2.0 * he * a));
  }

  /** Irregular terrain brings the horizon nearer and raises it. */
  lemma RoughHorizonNearer(he: real, a: real, deltaH: real, lib: Libm)
    requires Laws(lib) && he > 0.0 && a > 0.0 && deltaH >= 0.0
    ensures var r := RoughHorizon(he, a, deltaH, lib);
      && 0.0 < r <= RoughHorizon(he, a, 0.0, lib)
      && RoughTheta(he, r, a, deltaH, lib) >= RoughTheta(he, RoughHorizon(he, a, 0.0, lib), a, 0.0, lib)
  {
    var q, r := lib.sqrt(2.0 * he * a), RoughHorizon(he, a, deltaH, lib);
    TwoHeAPositive(he, a);
    LawsValid(lib);
    assert q > 0.0;
    hide Laws, RoughHorizon, Shortening, Times;
    RoughHorizonPositive(he, a, deltaH, lib);
    SmoothHorizon(he, a, lib);
    ShorteningEases(he, he, deltaH, lib);
    HorizonIs(he, a, deltaH, lib);
    TimesMonotone(q, 1.0, Shortening(he, deltaH, lib));
    TimesOne(q);
    Tilt(q, r, deltaH, he);
  }

  lemma Tilt(q: real, r: real, deltaH: real, he: real)
    requires 0.0 < r <= q && deltaH >= 0.0
    ensures (0.65 * deltaH * (q / r - 1.0) - 2.0 * he) / q >= -2.0 * he / q
  {
    var t := q / r;
    assert t * r == q;
    if t < 1.0 {
      ProductOrder(t, 1.0, r);
      assert false;
    }
    TimesSign(0.65 * deltaH, t - 1.0);
    TimesSign(deltaH, t - 1.0);
    var x := 0.65 * deltaH * (t - 1.0);
    assert x >= 0.0;
    Over(x - 2.0 * he, -2.0 * he, q);
  }

  lemma Over(x: real, y: real, q: real)
    requires x >= y && q > 0.0
    ensures x / q >= y / q
  {
    var p, r := x / q, y / q;
    assert p * q == x && r * q == y;
    ProductOrder(p, r, q);
  }

  /**
   * Each terminal's horizon and angle are those of its own height, and both heights are raised by one factor.
   */
  lemma OwnHorizons(heTx: real, heRx: real, a: real, d: real, deltaH: real, lib: Libm)
    requires heTx > 0.0 && heRx > 0.0 && a > 0.0 && d > 0.0 && lib.Valid()
    ensures var r := Rough(heTx, heRx, a, d, deltaH, lib);
      && r.heTx > 0.0 && r.heRx > 0.0 && Times(r.heTx, heRx) == Times(r.heRx, heTx)
      && r.dTx == RoughHorizon(r.heTx, a, deltaH, lib) && r.dRx == RoughHorizon(r.heRx, a, deltaH, lib)
      && r.dTx > 0.0 && r.dRx > 0.0
      && r.thetaTx == RoughTheta(r.heTx, r.dTx, a, deltaH, lib) && r.thetaRx == RoughTheta(r.heRx, r.dRx, a, deltaH, lib)
  {
    hide RoughHorizon, RoughTheta, Ratio;
    RoughHorizonPositive(heTx, a, deltaH, lib);
    RoughHorizonPositive(heRx, a, deltaH, lib);
    var sum := RoughHorizon(heTx, a, deltaH, lib) + RoughHorizon(heRx, a, deltaH, lib);
    var q := if sum <= d then Ratio(d, sum) else 1.0;
    TimesSign(heTx, q);
    TimesSign(heRx, q);
    RoughHorizonPositive(Times(heTx, q), a, deltaH, lib);
    RoughHorizonPositive(Times(heRx, q), a, deltaH, lib);
    hide Times;
    OneFactor(heTx, heRx, q);
  }

  lemma OneFactor(x: real, y: real, q: real)
    ensures Times(Times(x, q), y) == Times(Times(y, q), x)
  {
  }

  /** In the path parameters these are each terminal's own. */
  lemma RoughPathIs(pfl: seq<real>, gammaE: real, hTx: real, hRx: real, lib: Libm)
    requires Inputs(pfl, gammaE, hTx, hRx) && lib.Valid() && !HorizonsApart(pfl, gammaE, hTx, hRx)
    ensures var a, p := 1.0 / gammaE, PathOf(pfl, gammaE, hTx, hRx, lib);
      && p.heTx > 0.0 && p.heRx > 0.0 && p.dHznTx > 0.0 && p.dHznRx > 0.0
      && p.dHznTx == RoughHorizon(p.heTx, a, p.deltaH, lib) && p.dHznRx == RoughHorizon(p.heRx, a, p.deltaH, lib)
      && p.thetaTx == RoughTheta(p.heTx, p.dHznTx, a, p.deltaH, lib) && p.thetaRx == RoughTheta(p.heRx, p.dHznRx, a, p.deltaH, lib)
  {
    hide TxAngle, RxAngle, TxHorizon, RxHorizon, DeltaH, FitEnds, FitRange, Inset, Rough, RoughTheta, RoughHorizon, Times, DistancesOnProfile, Fdim;
    var a, np := 1.0 / gammaE, Np(pfl);
    var i, j := TxHorizon(pfl, a, hTx, hRx), np - RxHorizon(pfl, a, hTx, hRx);
    var d, dTx, dRx := Dist(pfl, np), Dist(pfl, i), Dist(pfl, j);
    CallsInRange(pfl, hTx, hRx, i, j);
    var dStart, dEnd := Inset(hTx, dTx), d - Inset(hRx, dRx);
    var fit := FitEnds(pfl, dStart, dEnd);
    OwnHorizons(Effective(hTx, Height(pfl, 0), fit.0), Effective(hRx, Height(pfl, np), fit.1), a, d,
                DeltaH(pfl, dStart, dEnd, lib), lib);
  }
}
