/** The length of a path inside canopy near either end (internal/link/vegetation.go). */
module CanopyPath {
  import opened GoMath
  import opened Options

  datatype Sample = Sample(DistM: real, TerrainM: real, BulgeM: real, RayM: real, CanopyM: real) {
    /** How far the ray is above the canopy. */
    function Gap(): (g: real)
      ensures g < 0.0 <==> RayM < TerrainM + BulgeM + CanopyM
    {
      RayM - TerrainM - BulgeM - CanopyM
    }
  }

  /** Every profile: at least one sample, from distance 0 on. */
  ghost predicate Profile(p: seq<Sample>) {
    p != [] && p[0].DistM == 0.0 && forall i :: 1 <= i < |p| ==> p[i - 1].DistM <= p[i].DistM
  }

  function Distance(p: seq<Sample>): real
    requires p != []
  {
    p[|p| - 1].DistM
  }

  ghost predicate FullyBlocked(p: seq<Sample>) {
    forall i :: 0 <= i < |p| ==> p[i].Gap() < 0.0
  }

  // ---- one segment ----

  /** The part of a segment from lo to hi that lies in canopy. */
  datatype Stretch = Stretch(lo: real, hi: real)

  /** Where the straight line from a at x0 to b at x1 is zero. */
  function Root(a: real, b: real, x0: real, x1: real): real
    requires a != b
  {
    x0 + Times(a / (a - b), x1 - x0)
  }

  function InCanopy(a: real, b: real, x0: real, x1: real): Option<Stretch> {
    if a < 0.0 && b < 0.0 then Some(Stretch(x0, x1))
    else if a < 0.0 then Some(Stretch(x0, Root(a, b, x0, x1)))
    else if b < 0.0 then Some(Stretch(Root(a, b, x0, x1), x1))
    else None
  }

  function Interpolated(a: real, b: real, x0: real, x1: real, x: real): real
    requires x0 != x1
  {
    a + Times((x - x0) / (x1 - x0), b - a)
  }

  lemma Quotient(p: real, q: real)
    requires q != 0.0
    ensures Times(p / q, q) == p
  {
  }

  lemma Difference(p: real, r: real, q: real)
    ensures Times(p - r, q) == Times(p, q) - Times(r, q)
    ensures Times(1.0 - r, q) == q - Times(r, q)
    ensures Times(r - 1.0, q) == Times(r, q) - q
  {
  }

  lemma Opposite(p: real, q: real, r: real)
    requires r == -q
    ensures Times(p, r) == -Times(p, q)
  {
  }

  /** With only one end below zero the line has the sign of that end up to the root and that of the other beyond. */
  lemma CrossesAtRoot(a: real, b: real, x0: real, x1: real, x: real)
    requires x0 < x1 && a != b
    ensures a < b ==> (Interpolated(a, b, x0, x1, x) < 0.0 <==> x < Root(a, b, x0, x1))
    ensures a > b ==> (Interpolated(a, b, x0, x1, x) < 0.0 <==> x > Root(a, b, x0, x1))
  {
    hide Times;
    var t, z := (x - x0) / (x1 - x0), a / (a - b);
    Quotient(x - x0, x1 - x0);
    Quotient(a, a - b);
    Opposite(z, a - b, b - a);
    Difference(t, z, b - a);
    Difference(t, z, x1 - x0);
    TimesSign(t - z, x1 - x0);
    TimesSign(t - z, b - a);
  }

  /** The stretch is what it should be: the points of the segment where the interpolated gap is negative. */
  lemma StretchIs(a: real, b: real, x0: real, x1: real, x: real)
    requires x0 < x1 && x0 <= x <= x1
    ensures var s := InCanopy(a, b, x0, x1); var g := Interpolated(a, b, x0, x1, x);
      && (s.None? ==> g >= 0.0)
      && (s.Some? ==> x0 <= s.value.lo <= s.value.hi <= x1)
      && (s.Some? && s.value.lo < x < s.value.hi ==> g < 0.0)
      && (s.Some? && (x < s.value.lo || x > s.value.hi) ==> g >= 0.0)
  {
    hide Times;
    StretchInside(a, b, x0, x1);
    if (a < 0.0) == (b < 0.0) {
      var t := (x - x0) / (x1 - x0);
      Quotient(x - x0, x1 - x0);
      TimesSign(t, x1 - x0);
      Difference(t, 1.0, x1 - x0);
      Difference(0.0, t, x1 - x0);
      TimesSign(1.0 - t, x1 - x0);
      Difference(0.0, t, b - a);
      BetweenEnds(a, b, t);
    } else {
      CrossesAtRoot(a, b, x0, x1, x);
    }
  }

  lemma BetweenEnds(a: real, b: real, t: real)
    requires 0.0 <= t <= 1.0
    ensures a < 0.0 && b < 0.0 ==> a + Times(t, b - a) < 0.0
    ensures a >= 0.0 && b >= 0.0 ==> a + Times(t, b - a) >= 0.0
  {
    EndsWeighed(a, b, t);
    hide Times;
    TimesSign(t, b);
    TimesSign(1.0 - t, a);
  }

  lemma EndsWeighed(a: real, b: real, t: real)
    ensures a + Times(t, b - a) == Times(1.0 - t, a) + Times(t, b)
  {
  }

  lemma StretchInside(a: real, b: real, x0: real, x1: real)
    requires x0 <= x1
    ensures var s := InCanopy(a, b, x0, x1); s.Some? ==> x0 <= s.value.lo <= s.value.hi <= x1
  {
    hide Times;
    if (a < 0.0) != (b < 0.0) {
      var z := a / (a - b);
      RootFraction(a, b, z);
      TimesSign(z, x1 - x0);
      Difference(0.0, z, x1 - x0);
      TimesSign(1.0 - z, x1 - x0);
    }
  }

  lemma RootFraction(a: real, b: real, z: real)
    requires a < 0.0 <= b || b < 0.0 <= a
    requires z == a / (a - b)
    ensures 0.0 <= z <= 1.0
  {
    hide Times;
    Quotient(a, a - b);
    Difference(z, 1.0, a - b);
    TimesSign(z, a - b);
    TimesSign(z - 1.0, a - b);
  }

  /** Seen from the other end, the stretch is the mirror image. */
  lemma StretchMirrors(a: real, b: real, x0: real, x1: real, d: real)
    ensures var s, m := InCanopy(a, b, x0, x1), InCanopy(b, a, d - x1, d - x0);
      m == if s.None? then None else Some(Stretch(d - s.value.hi, d - s.value.lo))
  {
    hide Times;
    if (a < 0.0) != (b < 0.0) {
      var z, y := a / (a - b), b / (b - a);
      SumToOne(a, b);
      Difference(0.0, z, x1 - x0);
      assert (d - x0) - (d - x1) == x1 - x0;
    }
  }

  lemma SumToOne(a: real, b: real)
    requires a != b
    ensures b / (b - a) == 1.0 - a / (a - b)
  {
    hide Times;
    var z, y := a / (a - b), b / (b - a);
    Quotient(a, a - b);
    Quotient(b, b - a);
    Opposite(y, b - a, a - b);
    Difference(0.0, z, a - b);
    Difference(y, 1.0 - z, a - b);
    TimesSign(y - (1.0 - z), a - b);
  }

  // ---- sums over the segments ----

  function StretchAt(p: seq<Sample>, i: int): Option<Stretch>
    requires 1 <= i < |p|
  {
    InCanopy(p[i - 1].Gap(), p[i].Gap(), p[i - 1].DistM, p[i].DistM)
  }

  /** The length of a stretch before and after a point. */
  function LengthBefore(s: Option<Stretch>, mid: real): real {
    if s.None? then 0.0 else Max(0.0, Min(s.value.hi, mid) - s.value.lo)
  }

  function LengthAfter(s: Option<Stretch>, mid: real): real {
    if s.None? then 0.0 else Max(0.0, s.value.hi - Max(s.value.lo, mid))
  }

  function Length(s: Option<Stretch>): real {
    if s.None? then 0.0 else s.value.hi - s.value.lo
  }

  /** The stretches of the first n samples. */
  function Stretches(p: seq<Sample>, n: nat): (r: seq<Option<Stretch>>)
    requires 1 <= n <= |p|
    ensures |r| == n - 1 && forall i :: 1 <= i < n ==> r[i - 1] == StretchAt(p, i)
  {
    if n == 1 then [] else Stretches(p, n - 1) + [StretchAt(p, n - 1)]
  }

  function Before(ss: seq<Option<Stretch>>, mid: real): real {
    if ss == [] then 0.0 else Before(ss[..|ss| - 1], mid) + LengthBefore(ss[|ss| - 1], mid)
  }

  function After(ss: seq<Option<Stretch>>, mid: real): real {
    if ss == [] then 0.0 else After(ss[..|ss| - 1], mid) + LengthAfter(ss[|ss| - 1], mid)
  }

  function Total(ss: seq<Option<Stretch>>): real {
    if ss == [] then 0.0 else Total(ss[..|ss| - 1]) + Length(ss[|ss| - 1])
  }

  /** The length in canopy before and after mid-path; a fully blocked path counts completely towards A. */
  function Lengths(p: seq<Sample>, blocked: bool): (real, real)
    requires p != []
  {
    if blocked then (Distance(p), 0.0)
    else (Before(Stretches(p, |p|), Distance(p) / 2.0), After(Stretches(p, |p|), Distance(p) / 2.0))
  }

  // ---- the program ----

  method CanopyPath(p: seq<Sample>) returns (dA: real, dB: real)
    requires Profile(p)
    ensures (dA, dB) == Lengths(p, FullyBlocked(p))
  {
    var n := |p|;
    var d := p[n - 1].DistM;
    var clear := false;
    var i := 0;
    while i < n && !clear
      invariant 0 <= i <= n
      invariant clear <==> exists k :: 0 <= k < i && p[k].Gap() >= 0.0
    {
      clear := p[i].Gap() >= 0.0;
      i := i + 1;
    }
    if !clear {
      return d, 0.0;
    }
    dA, dB := SumStretches(p, d / 2.0);
  }

  method SumStretches(p: seq<Sample>, mid: real) returns (dA: real, dB: real)
    requires Profile(p)
    ensures dA == Before(Stretches(p, |p|), mid) && dB == After(Stretches(p, |p|), mid)
  {
    hide Before, After, Stretches, Times;
    dA, dB := 0.0, 0.0;
    SumsBegin(p, mid);
    for i := 1 to |p|
      invariant dA == Before(Stretches(p, i), mid) && dB == After(Stretches(p, i), mid)
    {
      SumsStep(p, i, mid);
      var a, b := p[i - 1].Gap(), p[i].Gap();
      var x0, x1 := p[i - 1].DistM, p[i].DistM;
      if a < 0.0 && b < 0.0 {
      } else if a < 0.0 {
        x1 := x0 + Times(a / (a - b), x1 - x0);
      } else if b < 0.0 {
        x0 := x0 + Times(a / (a - b), x1 - x0);
      } else {
        continue;
      }
      dA := dA + Max(0.0, Min(x1, mid) - x0);
      dB := dB + Max(0.0, x1 - Max(x0, mid));
    }
  }

  lemma {:induction false} SumsBegin(p: seq<Sample>, mid: real)
    requires p != []
    ensures Before(Stretches(p, 1), mid) == 0.0 && After(Stretches(p, 1), mid) == 0.0
  {
  }

  lemma SumsStep(p: seq<Sample>, i: nat, mid: real)
    requires 1 <= i < |p|
    ensures Before(Stretches(p, i + 1), mid) == Before(Stretches(p, i), mid) + LengthBefore(StretchAt(p, i), mid)
    ensures After(Stretches(p, i + 1), mid) == After(Stretches(p, i), mid) + LengthAfter(StretchAt(p, i), mid)
    ensures Total(Stretches(p, i + 1)) == Total(Stretches(p, i)) + Length(StretchAt(p, i))
  {
    hide StretchAt, LengthBefore, LengthAfter, Length;
    var ss := Stretches(p, i + 1);
    assert ss[..|ss| - 1] == Stretches(p, i) && ss[|ss| - 1] == StretchAt(p, i);
  }

  // ---- conservation ----

  /** The stretches lie in their segments, one after the other up to a distance. */
  lemma {:induction false} Conserved(p: seq<Sample>, n: nat, mid: real)
    requires Profile(p) && 1 <= n <= |p| && mid >= 0.0
    ensures var ss := Stretches(p, n);
      && Before(ss, mid) + After(ss, mid) == Total(ss)
      && 0.0 <= Before(ss, mid) <= Min(p[n - 1].DistM, mid)
      && 0.0 <= After(ss, mid) <= Max(0.0, p[n - 1].DistM - mid)
  {
    if n > 1 {
      Conserved(p, n - 1, mid);
      SumsStep(p, n - 1, mid);
      StretchInside(p[n - 2].Gap(), p[n - 1].Gap(), p[n - 2].DistM, p[n - 1].DistM);
      hide InCanopy, Stretches;
      OneConserved(StretchAt(p, n - 1), p[n - 2].DistM, p[n - 1].DistM, mid);
    }
  }

  lemma OneConserved(s: Option<Stretch>, x0: real, x1: real, mid: real)
    requires x0 <= x1 && (s.Some? ==> x0 <= s.value.lo <= s.value.hi <= x1)
    ensures LengthBefore(s, mid) + LengthAfter(s, mid) == Length(s)
    ensures 0.0 <= LengthBefore(s, mid) <= Min(x1, mid) - Min(x0, mid)
    ensures 0.0 <= LengthAfter(s, mid) <= Max(0.0, x1 - mid) - Max(0.0, x0 - mid)
  {
  }

  /** The length in canopy is split, not changed, and neither half is longer than half the path. */
  lemma {:induction false} LengthConserved(p: seq<Sample>)
    requires Profile(p)
    ensures var ss, d := Stretches(p, |p|), Distance(p);
      && Before(ss, d / 2.0) + After(ss, d / 2.0) == Total(ss)
      && 0.0 <= Before(ss, d / 2.0) <= d / 2.0 && 0.0 <= After(ss, d / 2.0) <= d / 2.0
  {
    FarEnough(p, |p| - 1);
    Conserved(p, |p|, Distance(p) / 2.0);
  }

  lemma {:induction false} FarEnough(p: seq<Sample>, i: nat)
    requires Profile(p) && i < |p|
    ensures p[i].DistM >= 0.0
  {
    if i > 0 {
      FarEnough(p, i - 1);
    }
  }

  /** A fully blocked path is in canopy all along, so its length is conserved too. */
  lemma {:induction false} BlockedLength(p: seq<Sample>, n: nat)
    requires Profile(p) && FullyBlocked(p) && 1 <= n <= |p|
    ensures Total(Stretches(p, n)) == p[n - 1].DistM
  {
    if n > 1 {
      BlockedLength(p, n - 1);
      SumsStep(p, n - 1, 0.0);
    }
  }

  /** A fully blocked path counts completely towards A, and nothing towards B. */
  lemma {:induction false} BlockedToA(p: seq<Sample>)
    requires Profile(p) && FullyBlocked(p)
    ensures Lengths(p, true) == (Total(Stretches(p, |p|)), 0.0)
  {
    BlockedLength(p, |p|);
  }

  // ---- seen from the other end ----

  /** The same path from the other end: samples in reverse, distances measured from there. */
  function Turned(p: seq<Sample>): (r: seq<Sample>)
    requires p != []
    ensures |r| == |p|
    ensures forall i :: 0 <= i < |p| ==> r[i] == p[|p| - 1 - i].(DistM := Distance(p) - p[|p| - 1 - i].DistM)
  {
    seq(|p|, i requires 0 <= i < |p| => p[|p| - 1 - i].(DistM := Distance(p) - p[|p| - 1 - i].DistM))
  }

  lemma TurnedProfile(p: seq<Sample>)
    requires Profile(p)
    ensures Profile(Turned(p)) && Distance(Turned(p)) == Distance(p)
    ensures FullyBlocked(Turned(p)) <==> FullyBlocked(p)
    ensures forall i :: 0 <= i < |p| ==> Turned(p)[i].Gap() == p[|p| - 1 - i].Gap()
  {
    hide Turned;
    var q, n := Turned(p), |p|;
    forall i | 1 <= i < n ensures q[i - 1].DistM <= q[i].DistM {
      var k := n - i;
      assert p[k - 1].DistM <= p[k].DistM;
    }
    assert q[0].DistM == Distance(p) - p[n - 1].DistM;
    assert q[n - 1].DistM == Distance(p) - p[0].DistM;
    forall i | 0 <= i < n ensures q[i].Gap() == p[n - 1 - i].Gap() {
    }
    forall i | 0 <= i < n ensures p[i].Gap() == q[n - 1 - i].Gap() {
    }
  }

  function Mirrored(s: Option<Stretch>, d: real): Option<Stretch> {
    if s.None? then None else Some(Stretch(d - s.value.hi, d - s.value.lo))
  }

  lemma TurnedStretch(p: seq<Sample>, i: nat)
    requires Profile(p) && 1 <= i < |p|
    ensures StretchAt(Turned(p), i) == Mirrored(StretchAt(p, |p| - i), Distance(p))
  {
    var n := |p|;
    TurnedProfile(p);
    StretchMirrors(p[n - i - 1].Gap(), p[n - i].Gap(), p[n - i - 1].DistM, p[n - i].DistM, Distance(p));
    hide InCanopy;
    assert Turned(p)[i - 1].Gap() == p[n - i].Gap() && Turned(p)[i].Gap() == p[n - i - 1].Gap();
  }

  lemma MirroredLengths(s: Option<Stretch>, d: real)
    ensures LengthBefore(Mirrored(s, d), d / 2.0) == LengthAfter(s, d / 2.0)
    ensures LengthAfter(Mirrored(s, d), d / 2.0) == LengthBefore(s, d / 2.0)
  {
  }

  lemma {:induction false} FrontSum(s: Option<Stretch>, ss: seq<Option<Stretch>>, mid: real)
    ensures Before([s] + ss, mid) == LengthBefore(s, mid) + Before(ss, mid)
    ensures After([s] + ss, mid) == LengthAfter(s, mid) + After(ss, mid)
  {
    hide LengthBefore, LengthAfter;
    var all := [s] + ss;
    if ss == [] {
      assert all[..0] == [] && all == [s];
    } else {
      assert all[..|all| - 1] == [s] + ss[..|ss| - 1];
      FrontSum(s, ss[..|ss| - 1], mid);
    }
  }

  function AllMirrored(ss: seq<Option<Stretch>>, d: real): (r: seq<Option<Stretch>>)
    ensures |r| == |ss| && forall i :: 0 <= i < |ss| ==> r[i] == Mirrored(ss[|ss| - 1 - i], d)
  {
    seq(|ss|, i requires 0 <= i < |ss| => Mirrored(ss[|ss| - 1 - i], d))
  }

  lemma {:induction false} TurnedStretches(p: seq<Sample>)
    requires Profile(p)
    ensures Stretches(Turned(p), |p|) == AllMirrored(Stretches(p, |p|), Distance(p))
  {
    hide Turned, Stretches, AllMirrored, StretchAt, Mirrored;
    var q, n := Turned(p), |p|;
    forall i | 0 <= i < n - 1 ensures Stretches(q, n)[i] == Mirrored(Stretches(p, n)[n - 2 - i], Distance(p)) {
      TurnedStretch(p, i + 1);
      assert Stretches(q, n)[i + 1 - 1] == StretchAt(q, i + 1);
      assert Stretches(p, n)[n - 1 - i - 1] == StretchAt(p, n - 1 - i);
    }
  }

  lemma {:induction false} MirroredSums(ss: seq<Option<Stretch>>, d: real)
    ensures Before(AllMirrored(ss, d), d / 2.0) == After(ss, d / 2.0)
    ensures After(AllMirrored(ss, d), d / 2.0) == Before(ss, d / 2.0)
  {
    if ss != [] {
      var n := |ss| - 1;
      MirroredSums(ss[..n], d);
      MirroredLengths(ss[n], d);
      hide AllMirrored, Mirrored, LengthBefore, LengthAfter;
      assert AllMirrored(ss, d) == [Mirrored(ss[n], d)] + AllMirrored(ss[..n], d);
      FrontSum(Mirrored(ss[n], d), AllMirrored(ss[..n], d), d / 2.0);
    }
  }

  /** Turning the path round exchanges the lengths at its ends exactly when it is not fully blocked, or has no length. */
  lemma TurnedLengths(p: seq<Sample>, blocked: bool)
    requires Profile(p) && (blocked <==> FullyBlocked(p))
    ensures FullyBlocked(Turned(p)) <==> blocked
    ensures var (a, b) := Lengths(p, blocked); Lengths(Turned(p), blocked) == (b, a) <==> !blocked || Distance(p) == 0.0
  {
    hide Before, After, Stretches, Turned;
    TurnedProfile(p);
    TurnedStretches(p);
    MirroredSums(Stretches(p, |p|), Distance(p));
  }
}
