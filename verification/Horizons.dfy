/**
 * The radio horizons of internal/itm/find_horizons.go. A horizon is named by its sample: the other terminal when no
 * sample between rises above the line to it.
 */
module Horizons {
  import opened GoMath
  import opened LeastSquares

  /** The distance of sample i from the start of the profile. */
  function Dist(pfl: seq<real>, i: int): real
    requires Packed(pfl)
  {
    Times(i as real, pfl[1])
  }

  /** The elevation angle at which a terminal at height z sees height e at distance d over an earth of radius a. */
  function Angle(z: real, e: real, d: real, a: real): real
    requires d > 0.0 && a > 0.0
  {
    (e - z) / d - d / (2.0 * a)
  }

  lemma DistSteps(pfl: seq<real>, i: int)
    requires Packed(pfl)
    ensures Dist(pfl, i) + pfl[1] == Dist(pfl, i + 1)
    ensures i > 0 ==> Dist(pfl, i) > 0.0
    ensures Dist(pfl, 0) == 0.0
  {
    TimesSign(i as real, pfl[1]);
    TimesSign(0.0, pfl[1]);
    NextMultiple(i, pfl[1]);
  }

  lemma NextMultiple(i: int, x: real)
    ensures Times(i as real, x) + x == Times((i + 1) as real, x)
  {
  }

  lemma DistSubtracts(pfl: seq<real>, n: int, i: int)
    requires Packed(pfl)
    ensures Dist(pfl, n) - Dist(pfl, i) == Dist(pfl, n - i)
  {
    MultipleDifference(n, i, pfl[1]);
  }

  lemma MultipleDifference(n: int, i: int, x: real)
    ensures Times(n as real, x) - Times(i as real, x) == Times((n - i) as real, x)
  {
    assert (n - i) as real == n as real - i as real;
  }

  lemma DistIncreases(pfl: seq<real>, i: int, j: int)
    requires Packed(pfl)
    ensures i < j ==> Dist(pfl, i) < Dist(pfl, j)
  {
    hide Times;
    DistSubtracts(pfl, j, i);
    DistSteps(pfl, j - i);
  }

  /** The angle at which the transmitter sees sample i, the receiver antenna at i == np. */
  function TxAngle(pfl: seq<real>, a: real, hTx: real, hRx: real, i: int): real
    requires Packed(pfl) && a > 0.0 && 1 <= i <= Np(pfl)
  {
    DistSteps(pfl, i);
    Angle(Height(pfl, 0) + hTx, if i == Np(pfl) then Height(pfl, i) + hRx else Height(pfl, i), Dist(pfl, i), a)
  }

  /** The angle at which the receiver sees sample i, the transmitter antenna at i == 0. */
  function RxAngle(pfl: seq<real>, a: real, hTx: real, hRx: real, i: int): real
    requires Packed(pfl) && a > 0.0 && 0 <= i < Np(pfl)
  {
    DistSteps(pfl, Np(pfl) - i);
    Angle(Height(pfl, Np(pfl)) + hRx, if i == 0 then Height(pfl, i) + hTx else Height(pfl, i), Dist(pfl, Np(pfl) - i), a)
  }

  /** The transmitter's horizon after the samples 1..n-1. */
  function TxScan(pfl: seq<real>, a: real, hTx: real, hRx: real, n: nat): (k: int)
    requires Packed(pfl) && a > 0.0 && n <= Np(pfl)
    ensures 1 <= k <= Np(pfl)
  {
    if n <= 1 then Np(pfl)
    else
      var k := TxScan(pfl, a, hTx, hRx, n - 1);
      if TxAngle(pfl, a, hTx, hRx, n - 1) > TxAngle(pfl, a, hTx, hRx, k) then n - 1 else k
  }

  /** The receiver's horizon after the samples 1..n-1. */
  function RxScan(pfl: seq<real>, a: real, hTx: real, hRx: real, n: nat): (k: int)
    requires Packed(pfl) && a > 0.0 && n <= Np(pfl)
    ensures 0 <= k < Np(pfl)
  {
    if n <= 1 then 0
    else
      var k := RxScan(pfl, a, hTx, hRx, n - 1);
      if RxAngle(pfl, a, hTx, hRx, n - 1) > RxAngle(pfl, a, hTx, hRx, k) then n - 1 else k
  }

  function TxHorizon(pfl: seq<real>, a: real, hTx: real, hRx: real): (k: int)
    requires Packed(pfl) && a > 0.0
    ensures 1 <= k <= Np(pfl)
  {
    TxScan(pfl, a, hTx, hRx, Np(pfl))
  }

  function RxHorizon(pfl: seq<real>, a: real, hTx: real, hRx: real): (k: int)
    requires Packed(pfl) && a > 0.0
    ensures 0 <= k < Np(pfl)
  {
    RxScan(pfl, a, hTx, hRx, Np(pfl))
  }

  /** Sample k is as high above the transmitter's horizontal as any. */
  ghost predicate TxHighest(pfl: seq<real>, a: real, hTx: real, hRx: real, k: int)
    requires Packed(pfl) && a > 0.0 && 1 <= k <= Np(pfl)
  {
    forall i :: 1 <= i <= Np(pfl) ==> TxAngle(pfl, a, hTx, hRx, i) <= TxAngle(pfl, a, hTx, hRx, k)
  }

  ghost predicate RxHighest(pfl: seq<real>, a: real, hTx: real, hRx: real, k: int)
    requires Packed(pfl) && a > 0.0 && 0 <= k < Np(pfl)
  {
    forall i :: 0 <= i < Np(pfl) ==> RxAngle(pfl, a, hTx, hRx, i) <= RxAngle(pfl, a, hTx, hRx, k)
  }

  method FindHorizons(pfl: seq<real>, aE: real, hTx: real, hRx: real)
    returns (thetaTx: real, thetaRx: real, dTx: real, dRx: real)
    requires Packed(pfl) && aE > 0.0
    ensures var k := TxHorizon(pfl, aE, hTx, hRx);
            thetaTx == TxAngle(pfl, aE, hTx, hRx, k) && dTx == Dist(pfl, k) && TxHighest(pfl, aE, hTx, hRx, k)
    ensures var k := RxHorizon(pfl, aE, hTx, hRx);
            thetaRx == RxAngle(pfl, aE, hTx, hRx, k) && dRx == Dist(pfl, Np(pfl) - k) && RxHighest(pfl, aE, hTx, hRx, k)
  {
    hide Times, Angle;
    var np := Trunc(pfl[0]);
    var xi := pfl[1];
    var d := Times(pfl[0], pfl[1]);
    DistSteps(pfl, np);
    DistSteps(pfl, 0);
    var zTx := pfl[2] + hTx;
    var zRx := pfl[np + 2] + hRx;
    assert pfl[2] == Height(pfl, 0) && pfl[np + 2] == Height(pfl, np);
    thetaTx := Angle(zTx, zRx, d, aE);
    thetaRx := Angle(zRx, zTx, d, aE);
    dTx, dRx := d, d;
    var toTx, toRx := 0.0, d;
    for i := 1 to np
      invariant toTx == Dist(pfl, i - 1) && toRx == Dist(pfl, np - (i - 1))
      invariant var k := TxScan(pfl, aE, hTx, hRx, i); thetaTx == TxAngle(pfl, aE, hTx, hRx, k) && dTx == Dist(pfl, k)
      invariant var k := RxScan(pfl, aE, hTx, hRx, i); thetaRx == RxAngle(pfl, aE, hTx, hRx, k) && dRx == Dist(pfl, np - k)
    {
      DistSteps(pfl, i - 1);
      DistSteps(pfl, np - i);
      DistSteps(pfl, i);
      toTx := toTx + xi;
      toRx := toRx - xi;
      assert pfl[i + 2] == Height(pfl, i);
      var angleTx := Angle(zTx, pfl[i + 2], toTx, aE);
      var angleRx := Angle(zRx, pfl[i + 2], toRx, aE);
      if angleTx > thetaTx {
        thetaTx, dTx := angleTx, toTx;
      }
      if angleRx > thetaRx {
        thetaRx, dRx := angleRx, toRx;
      }
    }
    TxScanFirst(pfl, aE, hTx, hRx, np);
    RxScanFirst(pfl, aE, hTx, hRx, np);
  }

  /** The scan returns the first highest sample, the far terminal before all others. */
  lemma {:induction false} TxScanFirst(pfl: seq<real>, a: real, hTx: real, hRx: real, n: nat)
    requires Packed(pfl) && a > 0.0 && 1 <= n <= Np(pfl)
    ensures var k := TxScan(pfl, a, hTx, hRx, n);
            && (k == Np(pfl) || k < n)
            && TxAngle(pfl, a, hTx, hRx, Np(pfl)) <= TxAngle(pfl, a, hTx, hRx, k)
            && (forall i :: 1 <= i < n ==> TxAngle(pfl, a, hTx, hRx, i) <= TxAngle(pfl, a, hTx, hRx, k))
            && (k != Np(pfl) ==> TxAngle(pfl, a, hTx, hRx, Np(pfl)) < TxAngle(pfl, a, hTx, hRx, k))
            && (k != Np(pfl) ==> forall i :: 1 <= i < k ==> TxAngle(pfl, a, hTx, hRx, i) < TxAngle(pfl, a, hTx, hRx, k))
  {
    hide TxAngle;
    if n > 1 {
      TxScanFirst(pfl, a, hTx, hRx, n - 1);
    }
  }

  lemma {:induction false} RxScanFirst(pfl: seq<real>, a: real, hTx: real, hRx: real, n: nat)
    requires Packed(pfl) && a > 0.0 && 1 <= n <= Np(pfl)
    ensures var k := RxScan(pfl, a, hTx, hRx, n);
            && k < n
            && RxAngle(pfl, a, hTx, hRx, 0) <= RxAngle(pfl, a, hTx, hRx, k)
            && (forall i :: 1 <= i < n ==> RxAngle(pfl, a, hTx, hRx, i) <= RxAngle(pfl, a, hTx, hRx, k))
            && (k != 0 ==> RxAngle(pfl, a, hTx, hRx, 0) < RxAngle(pfl, a, hTx, hRx, k))
            && (k != 0 ==> forall i :: 1 <= i < k ==> RxAngle(pfl, a, hTx, hRx, i) < RxAngle(pfl, a, hTx, hRx, k))
  {
    hide RxAngle;
    if n > 1 {
      RxScanFirst(pfl, a, hTx, hRx, n - 1);
    }
  }

  // ---- the profile from its other end ----

  lemma AngleMirrors(p: seq<real>, q: seq<real>, a: real, hTx: real, hRx: real, i: int)
    requires Mirrored(p, q) && a > 0.0 && 1 <= i <= Np(p)
    ensures RxAngle(q, a, hRx, hTx, Np(p) - i) == TxAngle(p, a, hTx, hRx, i)
  {
    hide Times, Angle;
    DistSteps(p, i);
    assert Height(q, Np(p)) == Height(p, Np(p) - Np(p)) && Height(q, Np(p) - i) == Height(p, Np(p) - (Np(p) - i));
    assert i == Np(p) ==> Height(q, 0) == Height(p, Np(p));
  }

  /** The transmitter's horizon is the receiver, or no two samples share the highest angle. */
  ghost predicate UniqueHorizon(pfl: seq<real>, a: real, hTx: real, hRx: real)
    requires Packed(pfl) && a > 0.0
  {
    || TxHighest(pfl, a, hTx, hRx, Np(pfl))
    || forall i, j :: 1 <= i <= Np(pfl) && 1 <= j <= Np(pfl) && TxHighest(pfl, a, hTx, hRx, i) && TxHighest(pfl, a, hTx, hRx, j) ==> i == j
  }

  /**
   * The same terminal sees its horizon at the same angle from either role, and at the same distance exactly when its
   * horizon is unique: a tie goes to the sample nearest the transmitter in both directions.
   */
  lemma HorizonMirrors(p: seq<real>, q: seq<real>, a: real, hTx: real, hRx: real)
    requires Mirrored(p, q) && a > 0.0
    ensures var k, l := TxHorizon(p, a, hTx, hRx), RxHorizon(q, a, hRx, hTx);
            && TxAngle(p, a, hTx, hRx, k) == RxAngle(q, a, hRx, hTx, l)
            && (Dist(p, k) == Dist(q, Np(q) - l) <==> UniqueHorizon(p, a, hTx, hRx))
  {
    hide Times, TxAngle, RxAngle;
    var np := Np(p);
    var k, l := TxHorizon(p, a, hTx, hRx), RxHorizon(q, a, hRx, hTx);
    TxScanFirst(p, a, hTx, hRx, np);
    RxScanFirst(q, a, hRx, hTx, np);
    forall i | 1 <= i <= np ensures RxAngle(q, a, hRx, hTx, np - i) == TxAngle(p, a, hTx, hRx, i) {
      AngleMirrors(p, q, a, hTx, hRx, i);
    }
    assert RxAngle(q, a, hRx, hTx, np - k) == TxAngle(p, a, hTx, hRx, k);
    assert RxAngle(q, a, hRx, hTx, np - (np - l)) == TxAngle(p, a, hTx, hRx, np - l);
    assert TxHighest(p, a, hTx, hRx, k);
    assert TxHighest(p, a, hTx, hRx, np - l);
    DistIncreases(p, k, np - l);
    DistIncreases(p, np - l, k);
    if k == np - l && k != np {
      forall i | 1 <= i <= np && TxHighest(p, a, hTx, hRx, i) ensures i == k {
        assert RxAngle(q, a, hRx, hTx, np - i) == TxAngle(p, a, hTx, hRx, i);
      }
    }
  }

  /**
   * Two hills seen at the same angle over an earth of curvature g: the distance to the transmitter's horizon is not the
   * one the receiver gets for it.
   */
  function Tie(g: real): (p: seq<real>)
    ensures Packed(p) && Np(p) == 3
  {
    [3.0, 1.0, -1.0, g / 2.0, 2.0 * g, -1.0]
  }

  function TieMirrored(g: real): (p: seq<real>)
    ensures Packed(p) && Np(p) == 3
  {
    [3.0, 1.0, -1.0, 2.0 * g, g / 2.0, -1.0]
  }

  lemma AngleFromZero(e: real, d: real, g: real)
    requires d > 0.0 && g > 0.0
    ensures Angle(0.0, e, d, 1.0 / g) == e / d - Times(d / 2.0, g)
  {
    var a := 1.0 / g;
    assert a * g == 1.0;
    Halves(a, d, g);
  }

  lemma Halves(a: real, d: real, g: real)
    requires a > 0.0 && a * g == 1.0
    ensures d / (2.0 * a) == Times(d / 2.0, g)
  {
    var q := d / (2.0 * a);
    assert q * (2.0 * a) == d;
    assert q * (2.0 * a) * g == q * 2.0 * (a * g);
  }

  lemma TieAngles(g: real)
    requires g > 0.0
    ensures var p, a := Tie(g), 1.0 / g;
      && TxAngle(p, a, 1.0, 1.0, 1) == 0.0 == TxAngle(p, a, 1.0, 1.0, 2) > TxAngle(p, a, 1.0, 1.0, 3)
      && RxAngle(p, a, 1.0, 1.0, 0) < RxAngle(p, a, 1.0, 1.0, 1) < RxAngle(p, a, 1.0, 1.0, 2)
    ensures var q, a := TieMirrored(g), 1.0 / g;
      && TxAngle(q, a, 1.0, 1.0, 3) < TxAngle(q, a, 1.0, 1.0, 2) < TxAngle(q, a, 1.0, 1.0, 1)
      && RxAngle(q, a, 1.0, 1.0, 1) == 0.0 == RxAngle(q, a, 1.0, 1.0, 2) > RxAngle(q, a, 1.0, 1.0, 0)
  {
    AngleFromZero(0.0, 3.0, g);
    AngleFromZero(g / 2.0, 1.0, g);
    AngleFromZero(g / 2.0, 2.0, g);
    AngleFromZero(2.0 * g, 1.0, g);
    AngleFromZero(2.0 * g, 2.0, g);
    hide Angle;
  }

  /** On every such profile both hills are at the transmitter's highest angle, and either direction takes the first. */
  lemma HorizonTie(g: real)
    requires g > 0.0
    ensures var p, q, a := Tie(g), TieMirrored(g), 1.0 / g;
            && Mirrored(p, q) && TxHighest(p, a, 1.0, 1.0, 1) && TxHighest(p, a, 1.0, 1.0, 2)
            && Dist(p, TxHorizon(p, a, 1.0, 1.0)) == 1.0 && Dist(p, Np(p) - RxHorizon(p, a, 1.0, 1.0)) == 1.0
            && Dist(q, TxHorizon(q, a, 1.0, 1.0)) == 1.0 && Dist(q, Np(q) - RxHorizon(q, a, 1.0, 1.0)) == 2.0
  {
    var p, q, a := Tie(g), TieMirrored(g), 1.0 / g;
    assert Mirrored(p, q);
    TieAngles(g);
    hide TxAngle, RxAngle;
    assert TxScan(p, a, 1.0, 1.0, 1) == 3 && TxScan(p, a, 1.0, 1.0, 2) == 1 && TxScan(p, a, 1.0, 1.0, 3) == 1;
    assert RxScan(p, a, 1.0, 1.0, 1) == 0 && RxScan(p, a, 1.0, 1.0, 2) == 1 && RxScan(p, a, 1.0, 1.0, 3) == 2;
    assert TxScan(q, a, 1.0, 1.0, 1) == 3 && TxScan(q, a, 1.0, 1.0, 2) == 1 && TxScan(q, a, 1.0, 1.0, 3) == 1;
    assert RxScan(q, a, 1.0, 1.0, 1) == 0 && RxScan(q, a, 1.0, 1.0, 2) == 1 && RxScan(q, a, 1.0, 1.0, 3) == 1;
  }

  // ---- in sight ----

  /** The bulge of the earth over the chord between the terminals, at distance x of D. */
  function Bulge(x: real, d: real, a: real): real
    requires a > 0.0
  {
    Times(x, d - x) / (2.0 * a)
  }

  /** The height of the straight line from z at 0 to e at d. */
  function Chord(z: real, e: real, x: real, d: real): real
    requires d > 0.0
  {
    z + Times(x, (e - z) / d)
  }

  /** The ray between the antennas clears sample i over the curved earth. */
  ghost predicate Clears(pfl: seq<real>, a: real, hTx: real, hRx: real, i: int)
    requires Packed(pfl) && a > 0.0 && 1 <= i < Np(pfl) && Dist(pfl, Np(pfl)) > 0.0
  {
    var d, x := Dist(pfl, Np(pfl)), Dist(pfl, i);
    Height(pfl, i) + Bulge(x, d, a) <= Chord(Height(pfl, 0) + hTx, Height(pfl, Np(pfl)) + hRx, x, d)
  }

  /** A point is no higher to see than the far terminal exactly when it is no higher than the ray, bulge included. */
  lemma AngleBelow(z: real, e: real, x: real, d: real, y: real, a: real)
    requires 0.0 < x < d && a > 0.0
    ensures Angle(z, y, x, a) <= Angle(z, e, d, a) <==> y + Bulge(x, d, a) <= Chord(z, e, x, d)
  {
    var t, g, h := (y - z) / x, (e - z) / d, 1.0 / (2.0 * a);
    assert t * x == y - z;
    HalfCurve(x, a, h);
    HalfCurve(d, a, h);
    HalfCurve(Times(x, d - x), a, h);
    hide Times;
    TimesSign(t - g + Times(d - x, h), x);
    Cleared(x, d, t, g, h, y, z);
  }

  lemma HalfCurve(x: real, a: real, h: real)
    requires a > 0.0 && h == 1.0 / (2.0 * a)
    ensures x / (2.0 * a) == Times(x, h)
  {
    var q := x / (2.0 * a);
    assert q * (2.0 * a) == x && h * (2.0 * a) == 1.0;
    assert q * (2.0 * a) * h == q * (h * (2.0 * a));
  }

  lemma Cleared(x: real, d: real, t: real, g: real, h: real, y: real, z: real)
    requires Times(t, x) == y - z
    ensures Times(t - g + Times(d - x, h), x) == y - z - Times(x, g) + Times(Times(x, d - x), h)
    ensures Times(d - x, h) == Times(d, h) - Times(x, h)
  {
  }

  /** Seen from the other end the chord and the bulge are the same. */
  lemma ChordBack(z: real, e: real, x: real, d: real, a: real)
    requires d > 0.0 && a > 0.0
    ensures Chord(e, z, d - x, d) == Chord(z, e, x, d) && Bulge(d - x, d, a) == Bulge(x, d, a)
  {
    var g, b := (e - z) / d, (z - e) / d;
    assert g * d == e - z && b * d == z - e;
    assert (g + b) * d == 0.0;
    assert b == -g;
    Backwards(x, d, g);
  }

  lemma Backwards(x: real, d: real, g: real)
    ensures Times(d - x, -g) == Times(x, g) - Times(d, g) && Times(d - x, d - (d - x)) == Times(x, d - x)
    ensures Times(d, g) == g * d
  {
  }

  /**
   * The transmitter has the receiver for its horizon exactly when the ray clears every sample, and so has the receiver
   * the transmitter: either both see each other or neither does.
   */
  lemma SightIsMutual(pfl: seq<real>, a: real, hTx: real, hRx: real)
    requires Packed(pfl) && a > 0.0
    ensures Dist(pfl, Np(pfl)) > 0.0
    ensures TxHorizon(pfl, a, hTx, hRx) == Np(pfl) <==> forall i :: 1 <= i < Np(pfl) ==> Clears(pfl, a, hTx, hRx, i)
    ensures RxHorizon(pfl, a, hTx, hRx) == 0 <==> forall i :: 1 <= i < Np(pfl) ==> Clears(pfl, a, hTx, hRx, i)
  {
    var np := Np(pfl);
    DistSteps(pfl, np);
    TxScanFirst(pfl, a, hTx, hRx, np);
    RxScanFirst(pfl, a, hTx, hRx, np);
    forall i | 1 <= i < np
      ensures TxAngle(pfl, a, hTx, hRx, i) <= TxAngle(pfl, a, hTx, hRx, np) <==> Clears(pfl, a, hTx, hRx, i)
      ensures RxAngle(pfl, a, hTx, hRx, i) <= RxAngle(pfl, a, hTx, hRx, 0) <==> Clears(pfl, a, hTx, hRx, i)
    {
      SampleClears(pfl, a, hTx, hRx, i);
    }
    hide TxAngle, RxAngle, Clears;
    var k, l := TxHorizon(pfl, a, hTx, hRx), RxHorizon(pfl, a, hTx, hRx);
    assert k != np ==> !Clears(pfl, a, hTx, hRx, k);
    assert l != 0 ==> !Clears(pfl, a, hTx, hRx, l);
  }

  lemma SampleClears(pfl: seq<real>, a: real, hTx: real, hRx: real, i: int)
    requires Packed(pfl) && a > 0.0 && 1 <= i < Np(pfl)
    ensures Dist(pfl, Np(pfl)) > 0.0
    ensures TxAngle(pfl, a, hTx, hRx, i) <= TxAngle(pfl, a, hTx, hRx, Np(pfl)) <==> Clears(pfl, a, hTx, hRx, i)
    ensures RxAngle(pfl, a, hTx, hRx, i) <= RxAngle(pfl, a, hTx, hRx, 0) <==> Clears(pfl, a, hTx, hRx, i)
  {
    hide Times, Angle, Chord, Bulge;
    var np := Np(pfl);
    var d, x, z, e := Dist(pfl, np), Dist(pfl, i), Height(pfl, 0) + hTx, Height(pfl, np) + hRx;
    DistSteps(pfl, i);
    DistSteps(pfl, np - i);
    DistSteps(pfl, np);
    DistIncreases(pfl, i, np);
    DistSubtracts(pfl, np, i);
    AngleBelow(z, e, x, d, Height(pfl, i), a);
    AngleBelow(e, z, d - x, d, Height(pfl, i), a);
    ChordBack(z, e, x, d, a);
  }
}
