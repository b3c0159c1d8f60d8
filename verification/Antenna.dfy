/** Antenna patterns of one attenuation per degree: resampling, sectors and lookup (internal/antenna/antenna.go). */
module Antenna {
  import opened GoMath
  import opened Options

  const STEPS: int := 360

  type Pattern = seq<real>

  // ---- angles ----

  /** math.Mod with 360: the remainder has the sign of the dividend. */
  function Mod360(x: real): real {
    x - 360.0 * Trunc(x / 360.0) as real
  }

  function Wrap(x: real): real {
    Mod360(Mod360(x) + 360.0)
  }

  lemma ModIs(x: real)
    ensures x >= 0.0 ==> Mod360(x) == x - 360.0 * (x / 360.0).Floor as real && 0.0 <= Mod360(x) < 360.0
    ensures x < 0.0 ==> Mod360(x) == x + 360.0 * (-x / 360.0).Floor as real && -360.0 < Mod360(x) <= 0.0
  {
    assert -(x / 360.0) == -x / 360.0;
  }

  /** Every angle is brought into [0, 360), by the whole turns in it. */
  lemma WrapIs(x: real)
    ensures 0.0 <= Wrap(x) < 360.0 && x == Wrap(x) + 360.0 * (x / 360.0).Floor as real
  {
    ModIs(x);
    var m := Mod360(x);
    ModIs(m + 360.0);
    var q, r := Trunc(x / 360.0), Trunc((m + 360.0) / 360.0);
    assert x == Wrap(x) + 360.0 * (q + r - 1) as real;
    WholeTurns(x, Wrap(x), q + r - 1);
  }

  lemma WholeTurns(x: real, w: real, n: int)
    requires 0.0 <= w < 360.0 && x == w + 360.0 * n as real
    ensures (x / 360.0).Floor == n
  {
    assert x / 360.0 == w / 360.0 + n as real;
  }

  // ---- resampling ----

  datatype Sample = Sample(ang: real, val: real)

  ghost predicate Sorted(ss: seq<Sample>) {
    forall i, j :: 0 <= i < j < |ss| ==> ss[i].ang <= ss[j].ang
  }

  ghost predicate InTurn(ss: seq<Sample>) {
    forall i :: 0 <= i < |ss| ==> 0.0 <= ss[i].ang < 360.0
  }

  /** The samples once round: the last one before the first, and the first one again after the last. */
  function Round(ss: seq<Sample>): (r: seq<Sample>)
    requires ss != []
    ensures |r| == |ss| + 2
  {
    var last := ss[|ss| - 1];
    [last.(ang := last.ang - 360.0)] + ss + [ss[0].(ang := ss[0].ang + 360.0)]
  }

  function Line(lo: Sample, hi: Sample, x: real): real
    requires lo.ang != hi.ang
  {
    var f := (x - lo.ang) / (hi.ang - lo.ang);
    Blend(lo.val, hi.val, f)
  }

  /** x is from the k-th sample round up to but not including the next one. */
  ghost predicate Between(ss: seq<Sample>, k: nat, x: real)
    requires ss != []
  {
    k <= |ss| && Round(ss)[k].ang <= x < Round(ss)[k + 1].ang
  }

  /** y is where the straight lines between neighbouring samples are at x. */
  ghost predicate OnLines(ss: seq<Sample>, x: real, y: real)
    requires ss != []
  {
    forall k: nat :: Between(ss, k, x) ==> y == Line(Round(ss)[k], Round(ss)[k + 1], x)
  }

  ghost predicate LowestOf(ss: seq<Sample>, best: real) {
    (exists i :: 0 <= i < |ss| && ss[i].val == best) && forall i :: 0 <= i < |ss| ==> best <= ss[i].val
  }

  lemma BetweenOnce(ss: seq<Sample>, k: nat, l: nat, x: real)
    requires ss != [] && Sorted(ss) && InTurn(ss) && Between(ss, k, x) && Between(ss, l, x)
    ensures k == l
  {
    NotLater(ss, k, l, x);
    NotLater(ss, l, k, x);
  }

  lemma NotLater(ss: seq<Sample>, k: nat, l: nat, x: real)
    requires ss != [] && Sorted(ss) && InTurn(ss) && Between(ss, k, x) && Between(ss, l, x)
    ensures l <= k
  {
    if k < l {
      RoundSorted(ss, k + 1, l);
    }
  }

  lemma RoundSorted(ss: seq<Sample>, i: nat, j: nat)
    requires ss != [] && Sorted(ss) && InTurn(ss) && i <= j < |Round(ss)|
    ensures Round(ss)[i].ang <= Round(ss)[j].ang
  {
    var n := |ss|;
    assert 0 < i <= n ==> Round(ss)[i] == ss[i - 1];
    assert 0 < j <= n ==> Round(ss)[j] == ss[j - 1];
  }

  /** sort.Search: the first sample beyond x. */
  method Search(ss: seq<Sample>, x: real) returns (i: nat)
    requires Sorted(ss)
    ensures i <= |ss|
    ensures forall k :: 0 <= k < i ==> ss[k].ang <= x
    ensures forall k :: i <= k < |ss| ==> ss[k].ang > x
  {
    var j := |ss|;
    i := 0;
    while i < j
      invariant 0 <= i <= j <= |ss|
      invariant forall k :: 0 <= k < i ==> ss[k].ang <= x
      invariant forall k :: j <= k < |ss| ==> ss[k].ang > x
    {
      var h := (i + j) / 2;
      if !(ss[h].ang > x) {
        i := h + 1;
      } else {
        j := h;
      }
    }
  }

  /** The samples by angle; samples of one angle may come in any order. */
  method SortByAngle(ss: seq<Sample>) returns (r: seq<Sample>)
    ensures Sorted(r) && multiset(r) == multiset(ss) && |r| == |ss|
  {
    r := [];
    for n := 0 to |ss|
      invariant |r| == n && Sorted(r) && multiset(r) == multiset(ss[..n])
    {
      var i := Search(r, ss[n].ang);
      assert ss[..n + 1] == ss[..n] + [ss[n]];
      assert r == r[..i] + r[i..];
      r := r[..i] + [ss[n]] + r[i..];
    }
    assert ss[..|ss|] == ss;
  }

  method At(ss: seq<Sample>, x: real) returns (y: real)
    requires ss != [] && Sorted(ss) && InTurn(ss) && 0.0 <= x < 360.0
    ensures OnLines(ss, x, y)
    ensures exists k: nat :: Between(ss, k, x)
  {
    var last := |ss| - 1;
    var lo, hi := ss[last], ss[0];
    ghost var k: nat;
    if x < ss[0].ang {
      lo := lo.(ang := lo.ang - 360.0);
      k := 0;
    } else if x >= ss[last].ang {
      hi := hi.(ang := hi.ang + 360.0);
      k := |ss|;
    } else {
      var i := Search(ss, x);
      lo, hi := ss[i - 1], ss[i];
      k := i;
    }
    assert lo == Round(ss)[k] && hi == Round(ss)[k + 1] && Between(ss, k, x);
    var f := 0.0;
    var span := hi.ang - lo.ang;
    if span > 0.0 {
      f := (x - lo.ang) / span;
    }
    y := Blend(lo.val, hi.val, f);
    forall l: nat | Between(ss, l, x) ensures y == Line(Round(ss)[l], Round(ss)[l + 1], x) {
      BetweenOnce(ss, k, l, x);
    }
  }

  /** The samples a file gives, wrapped into one turn. */
  function SamplesOf(angles: seq<real>, values: seq<Option<real>>): (r: seq<Sample>)
    requires |angles| == |values| && None !in values
    ensures |r| == |angles|
    ensures forall i :: 0 <= i < |r| ==> r[i] == Sample(Wrap(angles[i]), values[i].value)
  {
    seq(|angles|, i requires 0 <= i < |angles| =>
      assert values[i] in values;
      Sample(Wrap(angles[i]), values[i].value))
  }

  /** out is the pattern of the sorted samples ss, with best as the 0 dB reference. */
  ghost predicate Resampled(ss: seq<Sample>, best: real, out: Pattern)
    requires ss != []
  {
    |out| == STEPS && LowestOf(ss, best) && forall d :: 0 <= d < STEPS ==> OnLines(ss, d as real, out[d] + best)
  }

  /** Reads the samples and their lowest value, infinite being None; a value that is not finite is None and is refused. */
  method Read(angles: seq<real>, values: seq<Option<real>>) returns (read: Option<seq<Sample>>, best: Option<real>)
    requires |angles| == |values|
    ensures read.None? <==> None in values
    ensures read.Some? ==> read.value == SamplesOf(angles, values)
    ensures read.Some? ==> if best.None? then read.value == [] else LowestOf(read.value, best.value)
  {
    var ss: seq<Sample> := [];
    best := None;
    for i := 0 to |angles|
      invariant None !in values[..i] && ss == SamplesOf(angles[..i], values[..i])
      invariant if best.None? then ss == [] else LowestOf(ss, best.value)
    {
      if values[i].None? {
        return None, None;
      }
      var v := values[i].value;
      NextSample(angles, values, i);
      ss := ss + [Sample(Wrap(angles[i]), v)];
      if best.None? || v < best.value {
        best := Some(v);
      }
      assert best.value == v ==> ss[|ss| - 1].val == best.value;
    }
    assert values[..|values|] == values && angles[..|angles|] == angles;
    read := Some(ss);
  }

  lemma NextSample(angles: seq<real>, values: seq<Option<real>>, i: nat)
    requires i < |angles| == |values| && None !in values[..i] && values[i].Some?
    ensures None !in values[..i + 1]
    ensures SamplesOf(angles[..i + 1], values[..i + 1])
            == SamplesOf(angles[..i], values[..i]) + [Sample(Wrap(angles[i]), values[i].value)]
  {
    hide Wrap;
    assert values[..i + 1] == values[..i] + [values[i]] && angles[..i + 1] == angles[..i] + [angles[i]];
  }

  /** There is at least one sample. */
  method Resample(angles: seq<real>, values: seq<Option<real>>)
    returns (out: Option<Pattern>, ghost ss: seq<Sample>, ghost lowest: real)
    requires |angles| == |values| > 0
    ensures out.None? <==> None in values
    ensures out.Some? ==> SortedFrom(ss, angles, values) && Resampled(ss, lowest, out.value)
  {
    ss, lowest := [], 0.0;
    var read, best := Read(angles, values);
    if read.None? {
      return None, [], 0.0;
    }
    var sorted := SortByAngle(read.value);
    ss, lowest := sorted, best.value;
    SortedSamples(angles, values, sorted, best.value);
    hide OnLines, Between;
    var p: Pattern := [];
    for d := 0 to STEPS
      invariant |p| == d && forall e :: 0 <= e < d ==> OnLines(sorted, e as real, p[e] + best.value)
    {
      var y := At(sorted, d as real);
      p := p + [y - best.value];
    }
    out := Some(p);
  }

  ghost predicate SortedFrom(ss: seq<Sample>, angles: seq<real>, values: seq<Option<real>>)
    requires |angles| == |values|
  {
    None !in values && ss != [] && Sorted(ss) && InTurn(ss) && multiset(ss) == multiset(SamplesOf(angles, values))
  }

  lemma SortedSamples(angles: seq<real>, values: seq<Option<real>>, ss: seq<Sample>, best: real)
    requires |angles| == |values| > 0 && None !in values && Sorted(ss)
    requires multiset(ss) == multiset(SamplesOf(angles, values)) && LowestOf(SamplesOf(angles, values), best)
    ensures SortedFrom(ss, angles, values) && LowestOf(ss, best)
  {
    var read := SamplesOf(angles, values);
    assert |ss| == |multiset(ss)| == |multiset(read)| == |read|;
    forall i | 0 <= i < |ss| ensures 0.0 <= ss[i].ang < 360.0 && best <= ss[i].val {
      assert ss[i] in multiset(read);
      var k :| 0 <= k < |read| && read[k] == ss[i];
      WrapIs(angles[k]);
    }
    var i :| 0 <= i < |read| && read[i].val == best;
    assert read[i] in multiset(ss);
  }

  // ---- what resampling keeps ----

  /** Some pair of neighbours is on either side of every angle of the turn. */
  lemma Enclosed(ss: seq<Sample>, x: real) returns (k: nat)
    requires ss != [] && Sorted(ss) && InTurn(ss) && 0.0 <= x < 360.0
    ensures Between(ss, k, x)
  {
    k := 0;
    while k < |ss| && ss[k].ang <= x
      invariant k <= |ss|
      invariant Round(ss)[k].ang <= x
    {
      k := k + 1;
    }
  }

  lemma RoundValue(ss: seq<Sample>, k: nat) returns (i: nat)
    requires ss != [] && k < |Round(ss)|
    ensures i < |ss| && ss[i].val == Round(ss)[k].val
  {
    i := if k == 0 then |ss| - 1 else if k == |ss| + 1 then 0 else k - 1;
  }

  lemma LineBetween(lo: Sample, hi: Sample, x: real, a: real, b: real)
    requires lo.ang <= x < hi.ang && a <= lo.val <= b && a <= hi.val <= b
    ensures a <= Line(lo, hi, x) <= b
  {
    var w := hi.ang - lo.ang;
    var f := (x - lo.ang) / w;
    Fraction(x - lo.ang, w);
    hide Times;
    BlendBetween(lo.val, hi.val, f, a, b);
  }

  lemma Fraction(p: real, w: real)
    requires 0.0 <= p < w
    ensures 0.0 <= p / w < 1.0
  {
    var f := p / w;
    assert f * w == p;
    assert f >= 1.0 ==> f * w >= w;
    assert f < 0.0 ==> f * w < 0.0;
  }

  /** Every resampled value is between 0 and the spread of the samples. */
  lemma ResampledWithin(ss: seq<Sample>, best: real, out: Pattern, top: real, d: int)
    requires ss != [] && Sorted(ss) && InTurn(ss) && Resampled(ss, best, out) && 0 <= d < STEPS
    requires forall i :: 0 <= i < |ss| ==> ss[i].val <= top
    ensures 0.0 <= out[d] <= top - best
  {
    var k := Enclosed(ss, d as real);
    var i := RoundValue(ss, k);
    var j := RoundValue(ss, k + 1);
    var lo, hi := Round(ss)[k], Round(ss)[k + 1];
    assert OnLines(ss, d as real, out[d] + best);
    hide Round, Line;
    LineBetween(lo, hi, d as real, best, top);
  }

  /** At the angle of a sample, no other sample being at it, the pattern has the value of the sample. */
  lemma AtSample(ss: seq<Sample>, best: real, out: Pattern, i: nat, d: int)
    requires ss != [] && Sorted(ss) && InTurn(ss) && Resampled(ss, best, out) && 0 <= d < STEPS
    requires i < |ss| && ss[i].ang == d as real && forall j :: 0 <= j < |ss| && ss[j].ang == ss[i].ang ==> j == i
    ensures out[d] == ss[i].val - best
  {
    var x := d as real;
    assert Round(ss)[i + 1] == ss[i];
    assert i + 1 < |ss| ==> Round(ss)[i + 2] == ss[i + 1] && ss[i].ang <= ss[i + 1].ang;
    assert i + 1 == |ss| ==> Round(ss)[i + 2] == ss[0].(ang := ss[0].ang + 360.0);
    assert Between(ss, i + 1, x);
    assert OnLines(ss, x, out[d] + best);
    LineBegins(Round(ss)[i + 1], Round(ss)[i + 2]);
    hide Line, Round;
  }

  lemma LineBegins(lo: Sample, hi: Sample)
    requires lo.ang != hi.ang
    ensures Line(lo, hi, lo.ang) == lo.val
  {
    assert (lo.ang - lo.ang) / (hi.ang - lo.ang) == 0.0;
  }

  function Degrees(n: nat): (r: seq<real>)
    ensures |r| == n && forall i :: 0 <= i < n ==> r[i] == i as real
  {
    seq(n, i => i as real)
  }

  function Finite(p: Pattern): (r: seq<Option<real>>)
    ensures |r| == |p| && forall i :: 0 <= i < |p| ==> r[i] == Some(p[i])
  {
    seq(|p|, i requires 0 <= i < |p| => Some(p[i]))
  }

  ghost predicate Referenced(p: Pattern) {
    (exists i :: 0 <= i < |p| && p[i] == 0.0) && forall i :: 0 <= i < |p| ==> p[i] >= 0.0
  }

  lemma WrapOfDegree(x: real)
    requires 0.0 <= x < 360.0
    ensures Wrap(x) == x
  {
    WrapIs(x);
    WholeTurns(x, x, 0);
  }

  lemma SamplesOfPattern(p: Pattern)
    requires |p| == STEPS
    ensures None !in Finite(p)
    ensures var read := SamplesOf(Degrees(STEPS), Finite(p)); forall i :: 0 <= i < STEPS ==> read[i] == Sample(i as real, p[i])
  {
    forall i | 0 <= i < STEPS ensures Wrap(Degrees(STEPS)[i]) == i as real {
      WrapOfDegree(i as real);
    }
    hide Wrap;
  }

  /** Resampling a pattern with its 0 dB reference changes nothing. */
  lemma ResampleOwn(p: Pattern, ss: seq<Sample>, best: real, out: Pattern)
    requires |p| == STEPS && Referenced(p)
    requires SortedFrom(ss, Degrees(STEPS), Finite(p)) && Resampled(ss, best, out)
    ensures out == p
  {
    SamplesOfPattern(p);
    var read := SamplesOf(Degrees(STEPS), Finite(p));
    assert |ss| == |multiset(ss)| == |multiset(read)| == |read| == STEPS;
    LowestKept(p, ss, read, best);
    forall d | 0 <= d < STEPS ensures out[d] == p[d] {
      assert read[d] in multiset(ss);
      var i :| 0 <= i < |ss| && ss[i] == read[d];
      AloneAtAngle(ss, read, i, d);
      AtSample(ss, best, out, i, d);
    }
  }

  lemma LowestKept(p: Pattern, ss: seq<Sample>, read: seq<Sample>, best: real)
    requires |p| == |read| && Referenced(p) && multiset(ss) == multiset(read) && LowestOf(ss, best)
    requires forall i :: 0 <= i < |read| ==> read[i].val == p[i]
    ensures best == 0.0
  {
    var z :| 0 <= z < |p| && p[z] == 0.0;
    assert read[z] in multiset(ss);
    var i :| 0 <= i < |ss| && ss[i].val == best;
    assert ss[i] in multiset(read);
  }

  lemma AloneAtAngle(ss: seq<Sample>, read: seq<Sample>, i: nat, d: nat)
    requires multiset(ss) == multiset(read) && i < |ss| && d < |read| && ss[i] == read[d]
    requires forall k :: 0 <= k < |read| ==> read[k].ang == k as real
    ensures forall j :: 0 <= j < |ss| && ss[j].ang == ss[i].ang ==> j == i
  {
    forall j | 0 <= j < |ss| && ss[j].ang == ss[i].ang ensures j == i {
      assert ss[j] in multiset(read);
      var k :| 0 <= k < |read| && read[k] == ss[j];
      assert k == d;
      if j != i {
        TwiceIn(ss, i, j);
        OnceIn(read, d);
        assert false;
      }
    }
  }

  lemma TwiceIn(ss: seq<Sample>, i: nat, j: nat)
    requires i < |ss| && j < |ss| && i != j && ss[i] == ss[j]
    ensures multiset(ss)[ss[i]] >= 2
  {
    var a, b := if i < j then i else j, if i < j then j else i;
    assert ss == ss[..b] + ss[b..];
    assert ss[..b][a] in ss[..b] && ss[b..][0] in ss[b..];
  }

  lemma OnceIn(ss: seq<Sample>, d: nat)
    requires d < |ss| && forall k :: 0 <= k < |ss| ==> ss[k].ang == k as real
    ensures multiset(ss)[ss[d]] == 1
  {
    assert ss == ss[..d] + [ss[d]] + ss[d + 1..];
    assert ss[d] !in ss[..d] && ss[d] !in ss[d + 1..];
    assert multiset(ss[..d])[ss[d]] == 0 && multiset(ss[d + 1..])[ss[d]] == 0;
  }

  // ---- the front-to-back ratio and the lookup ----

  /** The largest attenuation, at least 0. */
  function Front(p: Pattern): (r: real)
    ensures r >= 0.0 && (forall i :: 0 <= i < |p| ==> p[i] <= r)
    ensures r > 0.0 ==> exists i :: 0 <= i < |p| && p[i] == r
  {
    if p == [] then 0.0
    else
      var n := |p| - 1;
      var r := Max(Front(p[..n]), p[n]);
      assert r == p[n] || (r == 0.0 || exists i :: 0 <= i < n && p[..n][i] == r);
      r
  }

  method FindFront(p: Pattern) returns (worst: real)
    ensures worst == Front(p)
  {
    worst := 0.0;
    for i := 0 to |p|
      invariant worst == Front(p[..i])
    {
      assert p[..i + 1][..i] == p[..i];
      worst := Max(worst, p[i]);
    }
    assert p[..|p|] == p;
  }

  /** The angle brought into [0, 360). */
  function Heading(x: real): real {
    var d := Mod360(x);
    if d < 0.0 then d + 360.0 else d
  }

  lemma HeadingIs(x: real)
    ensures 0.0 <= Heading(x) < 360.0 && x == Heading(x) + 360.0 * (x / 360.0).Floor as real
  {
    ModIs(x);
    var m := Mod360(x);
    var q := Trunc(x / 360.0);
    assert x == Heading(x) + 360.0 * (if m < 0.0 then q - 1 else q) as real;
    WholeTurns(x, Heading(x), if m < 0.0 then q - 1 else q);
  }

  /** The attenuation at an angle; an angle that is not a number is None. */
  function Attenuation(p: Pattern, rel: Option<real>): real {
    if |p| != STEPS || rel.None? then 0.0
    else
      var d := Heading(rel.value);
      HeadingIs(rel.value);
      var i := Trunc(d);
      var frac := d - i as real;
      Blend(p[i], p[(i + 1) % STEPS], frac)
  }

  /** The attenuation by the angle in [0, 360) that a whole number of turns leaves. */
  lemma AttenuationAt(p: Pattern, x: real, turns: int, d: int, frac: real)
    requires |p| == STEPS && 0 <= d < STEPS && 0.0 <= frac < 1.0 && x == d as real + frac + 360.0 * turns as real
    ensures Attenuation(p, Some(x)) == Blend(p[d], p[(d + 1) % STEPS], frac)
  {
    WholeTurns(x, d as real + frac, turns);
    HeadingIs(x);
    hide Times, Heading;
    assert Heading(x) == d as real + frac;
    assert (d as real + frac).Floor == d;
  }

  /** Between the degrees the attenuation is between its neighbours, so between 0 and the front-to-back ratio. */
  lemma {:induction false} AttenuationWithin(p: Pattern, rel: Option<real>)
    requires forall i :: 0 <= i < |p| ==> p[i] >= 0.0
    ensures 0.0 <= Attenuation(p, rel) <= Front(p)
  {
    if |p| == STEPS && rel.Some? {
      hide Times, Front, Heading;
      var d := Heading(rel.value);
      HeadingIs(rel.value);
      var i := Trunc(d);
      BlendBetween(p[i], p[(i + 1) % STEPS], d - i as real, 0.0, Front(p));
    }
  }

  /** Whole turns make no difference. */
  lemma AttenuationRepeats(p: Pattern, x: real, turns: int)
    ensures Attenuation(p, Some(x + 360.0 * turns as real)) == Attenuation(p, Some(x))
  {
    if |p| == STEPS {
      WrapIs(x);
      var w, n := Wrap(x), (x / 360.0).Floor;
      hide Wrap, Attenuation;
      var d, frac := w.Floor, w - w.Floor as real;
      AttenuationAt(p, x, n, d, frac);
      assert x + 360.0 * turns as real == d as real + frac + 360.0 * (n + turns) as real;
      AttenuationAt(p, x + 360.0 * turns as real, n + turns, d, frac);
    }
  }

  /** The sum of both patterns, limited to the worst front-to-back ratio. */
  function LobeAttenuation(h: Pattern, v: Pattern, az: Option<real>, el: Option<real>): real {
    var u := if |v| != STEPS then h else v;
    Min(Attenuation(h, az) + Attenuation(u, el), Max(Front(h), Front(u)))
  }

  /** A lobe attenuates no less than either of its patterns does alone, and no more than the worse of them can. */
  lemma LobeWithin(h: Pattern, v: Pattern, az: Option<real>, el: Option<real>)
    requires forall i :: 0 <= i < |h| ==> h[i] >= 0.0
    requires forall i :: 0 <= i < |v| ==> v[i] >= 0.0
    ensures var u := if |v| != STEPS then h else v;
      Max(Attenuation(h, az), Attenuation(u, el)) <= LobeAttenuation(h, v, az, el) <= Max(Front(h), Front(u))
  {
    var u := if |v| != STEPS then h else v;
    AttenuationWithin(h, az);
    AttenuationWithin(u, el);
    hide Attenuation, Front;
  }

  // ---- sectors ----

  /** 12 (t / bw)^2. */
  function Rise(t: real, bw: real): real
    requires bw != 0.0
  {
    Times(12.0 * (t / bw), t / bw)
  }

  function Offset(i: int): int {
    if i > 180 then i - 360 else i
  }

  predicate ValidSector(bw: real, fb: real) {
    !(bw <= 0.0 || bw >= 360.0 || fb <= 0.0)
  }

  function SectorAt(bw: real, fb: real, i: int): real {
    if ValidSector(bw, fb) then Min(Rise(Offset(i) as real, bw), fb) else 0.0
  }

  ghost predicate IsSector(p: Pattern, bw: real, fb: real) {
    |p| == STEPS && forall i :: 0 <= i < STEPS ==> p[i] == SectorAt(bw, fb, i)
  }

  method Sector(bw: real, fb: real) returns (p: Pattern)
    ensures IsSector(p, bw, fb)
  {
    hide Rise;
    p := seq(STEPS, _ => 0.0);
    if bw <= 0.0 || bw >= 360.0 || fb <= 0.0 {
      return;
    }
    for i := 0 to STEPS
      invariant |p| == STEPS && forall j :: 0 <= j < i ==> p[j] == SectorAt(bw, fb, j)
    {
      var t := i;
      if t > 180 {
        t := t - 360;
      }
      p := p[i := Min(Rise(t as real, bw), fb)];
    }
  }

  /** math.Round(x * 1000) / 1000; math.Round takes halves away from zero. */
  function Thousandths(x: real): real {
    (if x >= 0.0 then (x * 1000.0 + 0.5).Floor else -((-x * 1000.0 + 0.5).Floor)) as real / 1000.0
  }

  /** The widest offset at which the pattern is still below its front-to-back ratio, 0 for none. */
  ghost predicate Widest(p: Pattern, fb: real, t: int)
    requires |p| == STEPS
  {
    && 0 <= t <= 180
    && (t > 0 ==> 0.0 < p[t] < fb)
    && forall u :: t < u <= 180 ==> !(0.0 < p[u] < fb)
  }

  /** The parameters of a pattern before they are rounded. */
  ghost predicate IsParams(p: Pattern, libm: Libm, bw: real, fb: real) {
    if |p| != STEPS || Front(p) <= 0.0 then bw == 360.0 && fb == 0.0
    else
      && fb == Front(p)
      && (exists t :: Widest(p, fb, t) && bw == if t > 0 then Times(t as real, (libm.sqrt)(12.0 / p[t])) else 360.0)
  }

  method SectorParams(p: Pattern, libm: Libm) returns (bw: real, fb: real)
    ensures exists b, f :: IsParams(p, libm, b, f) && bw == Thousandths(b) && fb == Thousandths(f)
  {
    hide Front;
    var front := FindFront(p);
    if |p| != STEPS || front <= 0.0 {
      assert IsParams(p, libm, 360.0, 0.0);
      return 360.0, 0.0;
    }
    var t := 180;
    while t >= 1
      invariant 0 <= t <= 180 && forall u :: t < u <= 180 ==> !(0.0 < p[u] < front)
    {
      if p[t] < front && p[t] > 0.0 {
        var wide := Times(t as real, (libm.sqrt)(12.0 / p[t]));
        assert Widest(p, front, t);
        assert IsParams(p, libm, wide, front);
        return Thousandths(wide), Thousandths(front);
      }
      t := t - 1;
    }
    assert Widest(p, front, 0);
    assert IsParams(p, libm, 360.0, front);
    return 360.0, Thousandths(front);
  }

  /** Rounding moves a parameter by at most half a thousandth. */
  lemma ThousandthsClose(x: real)
    ensures -0.0005 <= Thousandths(x) - x <= 0.0005
  {
    var n := if x >= 0.0 then (x * 1000.0 + 0.5).Floor else -((-x * 1000.0 + 0.5).Floor);
    assert -0.5 <= n as real - x * 1000.0 <= 0.5;
  }

  // ---- the inverse ----

  ghost predicate SquareRoot(libm: Libm) {
    forall y :: y > 0.0 ==> (libm.sqrt)(Times(y, y)) == y
  }

  lemma RiseGrows(t: real, u: real, bw: real)
    requires 0.0 <= t < u && bw > 0.0
    ensures 0.0 <= Rise(t, bw) < Rise(u, bw) && (t > 0.0 ==> Rise(t, bw) > 0.0)
  {
    var a, b := t / bw, u / bw;
    assert a * bw == t && b * bw == u;
    assert (b - a) * bw > 0.0;
    assert 0.0 <= a < b;
    Squares(a, b);
  }

  lemma Squares(a: real, b: real)
    requires 0.0 <= a < b
    ensures 0.0 <= Times(12.0 * a, a) < Times(12.0 * b, b) && (a > 0.0 ==> Times(12.0 * a, a) > 0.0)
  {
    TwelveTimes(a);
    TwelveTimes(b);
    SquareOrder(a, b);
    TimesSign(a, a);
    hide Times;
  }

  lemma TwelveTimes(a: real)
    ensures Times(12.0 * a, a) == 12.0 * Times(a, a)
  {
  }

  /** 12 over the rise is the square of bw / t. */
  lemma RootOfRise(t: real, bw: real, libm: Libm)
    requires t > 0.0 && bw > 0.0 && SquareRoot(libm)
    ensures Rise(t, bw) > 0.0 && Times(t, (libm.sqrt)(12.0 / Rise(t, bw))) == bw
  {
    RiseGrows(0.0, t, bw);
    var a, y := t / bw, bw / t;
    assert a * bw == t && y * t == bw;
    Inverse(a, y, t, bw);
    assert (libm.sqrt)(Times(y, y)) == y;
  }

  lemma Inverse(a: real, y: real, t: real, bw: real)
    requires t > 0.0 && bw > 0.0 && a * bw == t && y * t == bw
    ensures y > 0.0 && a > 0.0 && Times(12.0 * a, a) != 0.0 && 12.0 / Times(12.0 * a, a) == Times(y, y)
  {
    assert y * a * bw == bw;
    assert (y * a - 1.0) * bw == 0.0;
    assert y * a == 1.0;
    Positive(y, t);
    Positive(a, bw);
    assert a * a > 0.0;
    var r := Times(12.0 * a, a);
    assert y * y * r == 12.0 * (y * a) * (y * a);
    assert y * y * r == 12.0;
    assert 12.0 / r == y * y;
  }

  lemma Positive(p: real, q: real)
    requires p * q > 0.0 && q > 0.0
    ensures p > 0.0
  {
  }

  lemma RiseEven(t: real, bw: real)
    requires bw > 0.0
    ensures Rise(-t, bw) == Rise(t, bw)
  {
    assert (-t) / bw == -(t / bw);
    var a := t / bw;
    assert Times(12.0 * -a, -a) == Times(12.0 * a, a);
  }

  lemma {:induction false} SectorFront(p: Pattern, bw: real, fb: real)
    requires ValidSector(bw, fb) && IsSector(p, bw, fb)
    ensures Front(p) == p[180] == Min(Rise(180.0, bw), fb) > 0.0
  {
    hide Rise, Front;
    RiseGrows(0.0, 180.0, bw);
    forall i | 0 <= i < STEPS ensures p[i] <= p[180] {
      var t := Offset(i);
      if t < 0 {
        RiseEven(-t as real, bw);
      }
      var u := if t < 0 then -t else t;
      assert p[i] == Min(Rise(u as real, bw), fb);
      if u < 180 {
        RiseGrows(u as real, 180.0, bw);
      }
    }
  }

  /**
   * Before they are rounded, the parameters of a sector are its own: the beamwidth exactly when the pattern rises above
   * one degree before it is cut off, the front-to-back ratio exactly when the pattern reaches it. Otherwise they are 360
   * degrees and the attenuation at the back.
   */
  lemma SectorInverse(p: Pattern, bw: real, fb: real, libm: Libm, b: real, f: real)
    requires ValidSector(bw, fb) && SquareRoot(libm) && IsSector(p, bw, fb) && IsParams(p, libm, b, f)
    ensures b == bw <==> fb > Rise(1.0, bw)
    ensures f == fb <==> fb <= Rise(180.0, bw)
    ensures b == bw || b == 360.0
    ensures f == fb || f == Rise(180.0, bw)
  {
    hide Rise, Front, SquareRoot;
    SectorFront(p, bw, fb);
    RiseGrows(1.0, 180.0, bw);
    var t :| Widest(p, f, t) && b == if t > 0 then Times(t as real, (libm.sqrt)(12.0 / p[t])) else 360.0;
    assert p[1] == Min(Rise(1.0, bw), fb);
    if t > 0 {
      assert p[t] == Min(Rise(t as real, bw), fb) == Rise(t as real, bw);
      RootOfRise(t as real, bw, libm);
      if t > 1 {
        RiseGrows(1.0, t as real, bw);
      }
    }
  }

  /** A sector is the same to either side of boresight. */
  lemma SectorMirrors(p: Pattern, bw: real, fb: real, i: int)
    requires IsSector(p, bw, fb) && 0 < i < STEPS
    ensures p[STEPS - i] == p[i]
  {
    hide Rise;
    if ValidSector(bw, fb) {
      var t := if i <= 180 then i else STEPS - i;
      RiseEven(t as real, bw);
    }
  }

  /** The beamwidth is that between the points 3 dB down. */
  lemma HalfPower(bw: real)
    requires bw > 0.0
    ensures Rise(bw / 2.0, bw) == 3.0 && Rise(-(bw / 2.0), bw) == 3.0 && Rise(0.0, bw) == 0.0
  {
    var h := bw / 2.0;
    assert h / bw == 0.5;
    RiseEven(h, bw);
    assert 0.0 / bw == 0.0;
  }

  /** A change in elevation changes the loss of a lobe by what it changes in the vertical pattern, up to the limit. */
  lemma LobeAdds(h: Pattern, v: Pattern, az: Option<real>, el: Option<real>, el2: Option<real>)
    requires var u := if |v| != STEPS then h else v; var worst := Max(Front(h), Front(u));
      Attenuation(h, az) + Attenuation(u, el) <= worst && Attenuation(h, az) + Attenuation(u, el2) <= worst
    ensures var u := if |v| != STEPS then h else v;
      LobeAttenuation(h, v, az, el) - LobeAttenuation(h, v, az, el2) == Attenuation(u, el) - Attenuation(u, el2)
    ensures Attenuation(if |v| != STEPS then h else v, el) == 0.0 ==> LobeAttenuation(h, v, az, el) == Attenuation(h, az)
  {
    hide Attenuation, Front;
  }
}
