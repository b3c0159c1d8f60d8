/**
 * Mode ranking and the signal/interferer split of internal/hf/circuit_reliability.go, and the control point choice of
 * internal/hf/median_skywave_field_strength_short.go.
 */
module HfModes {
  import opened GoMath
  import opened ExchangeSort

  const DOMINANT := 0
  const SOONEST := 1
  const NOT_INDEX := 99

  /** bmuf is 0 for a mode that does not exist. */
  datatype Mode = Mode(bmuf: real, ew: real, prw: real, tau: real, hr: real)

  predicate Exists(m: seq<Mode>, n: int) {
    0 <= n < |m| && m[n].bmuf != 0.0
  }

  /** The existing modes below n, ascending. */
  function Existing(m: seq<Mode>, n: nat): (r: seq<int>)
    requires n <= |m|
    ensures |r| <= n
  {
    if n == 0 then []
    else if Exists(m, n - 1) then Existing(m, n - 1) + [n - 1]
    else Existing(m, n - 1)
  }

  lemma {:induction false} ExistingModes(m: seq<Mode>, n: nat)
    requires n <= |m|
    ensures forall k :: k in Existing(m, n) <==> 0 <= k < n && Exists(m, k)
  {
    if n > 0 {
      ExistingModes(m, n - 1);
    }
  }

  function ByStrength(m: seq<Mode>): int -> real {
    n => if 0 <= n < |m| then m[n].ew else 0.0
  }

  function ByDelay(m: seq<Mode>): int -> real {
    n => if 0 <= n < |m| then -m[n].tau else 0.0
  }

  function Ascending(): int -> real {
    n => -(n as real)
  }

  /** The first cnt entries are the existing modes in some order, the others NOT_INDEX. */
  ghost predicate Ranks(m: seq<Mode>, s: seq<int>) {
    var e := Existing(m, |m|);
    && |s| == |m| && multiset(s[..|e|]) == multiset(e)
    && forall k :: |e| <= k < |s| ==> s[k] == NOT_INDEX
  }

  lemma {:induction false} RanksExist(m: seq<Mode>, s: seq<int>)
    requires Ranks(m, s) && |m| <= NOT_INDEX
    ensures forall k :: 0 <= k < |s| ==> (s[k] != NOT_INDEX <==> k < |Existing(m, |m|)|)
    ensures forall k :: 0 <= k < |Existing(m, |m|)| ==> Exists(m, s[k])
    ensures forall n :: Exists(m, n) ==> exists k :: 0 <= k < |Existing(m, |m|)| && s[k] == n
  {
    var e := Existing(m, |m|);
    ExistingModes(m, |m|);
    forall k | 0 <= k < |e| ensures Exists(m, s[k]) {
      assert s[..|e|][k] in multiset(e);
    }
    forall n | Exists(m, n) ensures exists k :: 0 <= k < |e| && s[k] == n {
      assert n in multiset(e);
      assert n in s[..|e|];
    }
  }

  /** Before round i, of which those on NOT_INDEX do nothing. */
  ghost predicate RankOuter(m: seq<Mode>, s: seq<int>, i: nat, key: int -> real) {
    var c := |Existing(m, |m|)|;
    Ranks(m, s) && Outer(s[..c], multiset(Existing(m, |m|)), if i < c then i else c, key)
  }

  /** Before step j of round i < c. */
  ghost predicate RankInner(m: seq<Mode>, s: seq<int>, i: nat, j: nat, key: int -> real) {
    var c := |Existing(m, |m|)|;
    Ranks(m, s) && i < c && Inner(s[..c], multiset(Existing(m, |m|)), i, if j < c then j else c, key)
  }

  lemma RankBegins(m: seq<Mode>, s: seq<int>, key: int -> real)
    requires Ranks(m, s)
    ensures RankOuter(m, s, 0, key)
  {
    SortBegins(s[..|Existing(m, |m|)|], key);
  }

  lemma RankRound(m: seq<Mode>, s: seq<int>, i: nat, key: int -> real)
    requires RankOuter(m, s, i, key) && i < |m| <= NOT_INDEX
    ensures s[i] != NOT_INDEX ==> Exists(m, s[i]) && RankInner(m, s, i, 0, key)
    ensures s[i] == NOT_INDEX ==> RankOuter(m, s, i + 1, key)
  {
    hide Inner, Outer;
    RanksExist(m, s);
    if s[i] != NOT_INDEX {
      RoundBegins(s[..|Existing(m, |m|)|], multiset(Existing(m, |m|)), i, key);
    }
  }

  lemma RankStep(m: seq<Mode>, s: seq<int>, i: nat, j: nat, key: int -> real)
    requires RankInner(m, s, i, j, key) && j < |m| <= NOT_INDEX
    ensures Exists(m, s[i])
    ensures s[j] != NOT_INDEX ==> Exists(m, s[j]) && RankInner(m, Exchanged(s, i, j, key), i, j + 1, key)
    ensures s[j] == NOT_INDEX ==> RankInner(m, s, i, j + 1, key)
  {
    hide Outer, DescendingTo, Lowest, Exchanged;
    var c := |Existing(m, |m|)|;
    RanksExist(m, s);
    if s[j] != NOT_INDEX {
      InnerStep(s[..c], multiset(Existing(m, |m|)), i, j, key);
      PrefixExchanged(s, c, i, j, key);
    }
  }

  lemma PrefixExchanged(s: seq<int>, c: nat, i: nat, j: nat, key: int -> real)
    requires i < c && j < c <= |s|
    ensures Exchanged(s, i, j, key)[..c] == Exchanged(s[..c], i, j, key)
    ensures forall k :: c <= k < |s| ==> Exchanged(s, i, j, key)[k] == s[k]
  {
  }

  lemma RankRoundEnds(m: seq<Mode>, s: seq<int>, i: nat, key: int -> real)
    requires RankInner(m, s, i, |m|, key)
    ensures RankOuter(m, s, i + 1, key)
  {
    hide Inner, Outer;
    RoundEnds(s[..|Existing(m, |m|)|], multiset(Existing(m, |m|)), i, key);
  }

  lemma {:induction false} RankEnds(m: seq<Mode>, s: seq<int>, key: int -> real)
    requires RankOuter(m, s, |m|, key)
    ensures Ranks(m, s) && DescendingTo(s, |Existing(m, |m|)|, key)
  {
    var c := |Existing(m, |m|)|;
    SortEnds(s[..c], multiset(Existing(m, |m|)), key);
    forall a, b | 0 <= a < b < c ensures key(s[a]) >= key(s[b]) {
      assert key(s[..c][a]) >= key(s[..c][b]);
    }
  }

  method ModeSort(m: seq<Mode>, order: array<int>, criteria: int)
    requires order.Length == |m| <= NOT_INDEX
    requires forall k :: 0 <= k < order.Length ==> order[k] == NOT_INDEX
    modifies order
    ensures Ranks(m, order[..])
    ensures criteria == DOMINANT ==> DescendingTo(order[..], |Existing(m, |m|)|, ByStrength(m))
    ensures criteria == SOONEST ==> DescendingTo(order[..], |Existing(m, |m|)|, ByDelay(m))
  {
    var cnt := 0;
    for n := 0 to |m|
      invariant cnt == |Existing(m, n)| && order[..cnt] == Existing(m, n)
      invariant forall k :: cnt <= k < order.Length ==> order[k] == NOT_INDEX
    {
      if m[n].bmuf != 0.0 {
        order[cnt] := n;
        cnt := cnt + 1;
      }
    }
    if criteria == DOMINANT {
      RankByStrength(m, order);
    } else if criteria == SOONEST {
      RankByDelay(m, order);
    }
  }

  method RankByStrength(m: seq<Mode>, order: array<int>)
    requires order.Length == |m| <= NOT_INDEX && Ranks(m, order[..])
    modifies order
    ensures Ranks(m, order[..]) && DescendingTo(order[..], |Existing(m, |m|)|, ByStrength(m))
  {
    hide RankOuter, RankInner, Ranks, Existing, DescendingTo;
    ghost var key := ByStrength(m);
    RankBegins(m, order[..], key);
    for n := 0 to |m|
      invariant RankOuter(m, order[..], n, key)
    {
      RankRound(m, order[..], n, key);
      if order[n] != NOT_INDEX {
        for k := 0 to |m|
          invariant RankInner(m, order[..], n, k, key)
        {
          ghost var before := order[..];
          RankStep(m, before, n, k, key);
          if order[k] != NOT_INDEX {
            if m[order[n]].ew > m[order[k]].ew {
              order[n], order[k] := order[k], order[n];
            }
            assert order[..] == Exchanged(before, n, k, key);
          }
        }
        RankRoundEnds(m, order[..], n, key);
      }
    }
    RankEnds(m, order[..], key);
  }

  method RankByDelay(m: seq<Mode>, order: array<int>)
    requires order.Length == |m| <= NOT_INDEX && Ranks(m, order[..])
    modifies order
    ensures Ranks(m, order[..]) && DescendingTo(order[..], |Existing(m, |m|)|, ByDelay(m))
  {
    hide RankOuter, RankInner, Ranks, Existing, DescendingTo;
    ghost var key := ByDelay(m);
    RankBegins(m, order[..], key);
    for n := 0 to |m|
      invariant RankOuter(m, order[..], n, key)
    {
      RankRound(m, order[..], n, key);
      if order[n] != NOT_INDEX {
        for k := 0 to |m|
          invariant RankInner(m, order[..], n, k, key)
        {
          ghost var before := order[..];
          RankStep(m, before, n, k, key);
          if order[k] != NOT_INDEX {
            if m[order[n]].bmuf != 0.0 && m[order[n]].tau < m[order[k]].tau {
              order[n], order[k] := order[k], order[n];
            }
            assert order[..] == Exchanged(before, n, k, key);
          }
        }
        RankRoundEnds(m, order[..], n, key);
      }
    }
    RankEnds(m, order[..], key);
  }

  method NumberOfModes(e: seq<Mode>, f2: seq<Mode>) returns (count: nat)
    ensures count == |Existing(e + f2, |e| + |f2|)|
  {
    count := 0;
    for n := 0 to |e|
      invariant count == |Existing(e + f2, n)|
    {
      assert (e + f2)[n] == e[n];
      if e[n].bmuf != 0.0 {
        count := count + 1;
      }
    }
    for n := 0 to |f2|
      invariant count == |Existing(e + f2, |e| + n)|
    {
      assert (e + f2)[|e| + n] == f2[n];
      if f2[n].bmuf != 0.0 {
        count := count + 1;
      }
    }
  }

  // ---- section 10.2.3 of ITU-R P.533 ----

  ghost predicate Dominant(m: seq<Mode>, d: int) {
    Exists(m, d) && forall n :: Exists(m, n) ==> m[n].ew <= m[d].ew
  }

  ghost predicate Earliest(m: seq<Mode>, t: int) {
    Exists(m, t) && forall n :: Exists(m, n) ==> m[n].tau >= m[t].tau
  }

  /** Within the amplitude ratio of the dominant mode and the time window of the earliest. */
  predicate Signal(m: seq<Mode>, n: int, deltaA: real, deltaT: real) {
    Exists(m, n) && m[n].prw >= deltaA && m[n].tau <= deltaT
  }

  predicate Interferer(m: seq<Mode>, n: int, deltaA: real, deltaT: real) {
    Exists(m, n) && !Signal(m, n, deltaA, deltaT)
  }

  function Signals(m: seq<Mode>, deltaA: real, deltaT: real): set<int> {
    set n | 0 <= n < |m| && Signal(m, n, deltaA, deltaT)
  }

  function Interferers(m: seq<Mode>, deltaA: real, deltaT: real): set<int> {
    set n | 0 <= n < |m| && Interferer(m, n, deltaA, deltaT)
  }

  /** Every existing mode is in exactly one of the two lists. */
  lemma {:induction false} Partition(m: seq<Mode>, deltaA: real, deltaT: real)
    ensures Signals(m, deltaA, deltaT) !! Interferers(m, deltaA, deltaT)
    ensures Signals(m, deltaA, deltaT) + Interferers(m, deltaA, deltaT) == set n | n in Existing(m, |m|)
  {
    ExistingModes(m, |m|);
  }

  /** s ascends, holds each mode of the set once and NOT_INDEX otherwise. */
  ghost predicate Lists(s: seq<int>, size: nat, chosen: set<int>) {
    && |s| == size
    && (forall a, b :: 0 <= a < b < |s| ==> s[a] <= s[b])
    && (forall k :: 0 <= k < |s| ==> s[k] in chosen || s[k] == NOT_INDEX)
    && (forall n :: n in chosen ==> multiset(s)[n] == 1)
  }

  // ---- delays and power ----

  const E_HEIGHT := 110.0
  const TINY_DB := -307.0

  /** The slant delay of the hops of mode n at a reflection height, and the functions of the decibel scale. */
  datatype Physics = Physics(delay: (real, int) -> real, pow10: real -> real, log10: real -> real, sqrt: real -> real) {
    ghost predicate Valid() {
      forall x :: pow10(x) > 0.0
    }
  }

  /** The modes with the delays of those that exist from n0 on; all at one height, or each at its own. */
  function Delayed(m: seq<Mode>, n0: nat, own: bool, ph: Physics): (r: seq<Mode>)
    ensures |r| == |m|
    ensures forall n :: 0 <= n < |m| ==> r[n] == m[n].(tau := r[n].tau)
  {
    seq(|m|, n requires 0 <= n < |m| =>
      if n >= n0 && m[n].bmuf != 0.0 then m[n].(tau := ph.delay(if own then m[n].hr else E_HEIGHT, n)) else m[n])
  }

  method SetDelays(m: seq<Mode>, n0: nat, own: bool, ph: Physics) returns (r: seq<Mode>)
    ensures r == Delayed(m, n0, own, ph)
  {
    r := m;
    var n := n0;
    while n < |m|
      invariant |r| == |m|
      invariant forall k :: 0 <= k < |m| ==> r[k] == if k < n then Delayed(m, n0, own, ph)[k] else m[k]
    {
      if r[n].bmuf != 0.0 {
        var hr := if own then r[n].hr else E_HEIGHT;
        r := r[n := r[n].(tau := ph.delay(hr, n))];
      }
      n := n + 1;
    }
  }

  function Power(ew: real, ph: Physics): real {
    Times((ph.pow10)(ew / 10.0), (ph.pow10)(ew / 10.0))
  }

  /** The power of the signals among the first n modes. */
  function PowerSum(m: seq<Mode>, n: nat, deltaA: real, deltaT: real, ph: Physics): real
    requires n <= |m|
  {
    if n == 0 then 0.0
    else PowerSum(m, n - 1, deltaA, deltaT, ph) + if Signal(m, n - 1, deltaA, deltaT) then Power(m[n - 1].ew, ph) else 0.0
  }

  /** There is power exactly when there is a signal. */
  lemma {:induction false} PowerOfSignals(m: seq<Mode>, n: nat, deltaA: real, deltaT: real, ph: Physics)
    requires n <= |m| && ph.Valid()
    ensures PowerSum(m, n, deltaA, deltaT, ph) >= 0.0
    ensures PowerSum(m, n, deltaA, deltaT, ph) > 0.0 <==> exists k :: 0 <= k < n && Signal(m, k, deltaA, deltaT)
  {
    if n > 0 {
      PowerOfSignals(m, n - 1, deltaA, deltaT, ph);
      var x := (ph.pow10)(m[n - 1].ew / 10.0);
      TimesSign(x, x);
    }
  }

  datatype Circuit = Circuit(distance: real, a: real, tw: real, pr: real, grw: real, frequency: real, n0E: nat, n0F2: nat)

  /** The signal of a number of modes with that sum of powers. */
  function Level(ssum: real, c: Circuit, ph: Physics): real {
    (if ssum > 0.0 then 10.0 * (ph.log10)((ph.sqrt)(ssum)) else TINY_DB)
    + c.grw - 20.0 * (ph.log10)(c.frequency) - 107.2
  }

  /** What is used of the functions of the decibel scale: two pairs of inverses, of which log10 and sqrt grow. */
  ghost predicate Laws(ph: Physics) {
    && ph.Valid()
    && (forall x :: (ph.log10)((ph.pow10)(x)) == x)
    && (forall x :: x > 0.0 ==> (ph.sqrt)(Times(x, x)) == x)
    && (forall x, y :: 0.0 < x <= y ==> 0.0 < (ph.sqrt)(x) <= (ph.sqrt)(y))
    && (forall x, y :: 0.0 < x <= y ==> (ph.log10)(x) <= (ph.log10)(y))
  }

  /** The level of one mode is its own strength. */
  lemma LevelOfOne(ew: real, c: Circuit, ph: Physics)
    requires Laws(ph)
    ensures Power(ew, ph) > 0.0 && Level(Power(ew, ph), c, ph) == ew + c.grw - 20.0 * (ph.log10)(c.frequency) - 107.2
  {
    var x := (ph.pow10)(ew / 10.0);
    TimesSign(x, x);
    assert (ph.sqrt)(Times(x, x)) == x && (ph.log10)(x) == ew / 10.0;
  }

  lemma {:induction false} PowerOfOne(m: seq<Mode>, n: nat, deltaA: real, deltaT: real, ph: Physics, k: int)
    requires n <= |m| && 0 <= k < |m| && forall j :: 0 <= j < |m| ==> (Signal(m, j, deltaA, deltaT) <==> j == k)
    ensures PowerSum(m, n, deltaA, deltaT, ph) == if k < n then Power(m[k].ew, ph) else 0.0
  {
    if n > 0 {
      PowerOfOne(m, n - 1, deltaA, deltaT, ph, k);
    }
  }

  /** With exactly one signal mode the signal is that mode's strength at the receiver. */
  lemma OneSignal(m: seq<Mode>, deltaA: real, deltaT: real, c: Circuit, ph: Physics, iS: seq<int>, iI: seq<int>, s: real, n: int)
    requires Laws(ph) && SplitAt(m, deltaA, deltaT, c, ph, iS, iI, s) && Signals(m, deltaA, deltaT) == {n}
    ensures 0 <= n < |m| && s == m[n].ew + c.grw - 20.0 * (ph.log10)(c.frequency) - 107.2
  {
    hide Laws, Lists, Level, Power;
    assert n in Signals(m, deltaA, deltaT);
    forall j | 0 <= j < |m| ensures Signal(m, j, deltaA, deltaT) <==> j == n {
      assert Signal(m, j, deltaA, deltaT) <==> j in Signals(m, deltaA, deltaT);
    }
    PowerOfOne(m, |m|, deltaA, deltaT, ph, n);
    LevelOfOne(m[n].ew, c, ph);
  }

  lemma LevelGrows(x: real, y: real, c: Circuit, ph: Physics)
    requires Laws(ph) && 0.0 < x <= y
    ensures Level(x, c, ph) <= Level(y, c, ph)
  {
    assert 0.0 < (ph.sqrt)(x) <= (ph.sqrt)(y);
    assert (ph.log10)((ph.sqrt)(x)) <= (ph.log10)((ph.sqrt)(y));
  }

  /** One more mode adds its power when it is a signal, and changes nothing otherwise. */
  lemma {:induction false} AddedMode(m: seq<Mode>, x: Mode, deltaA: real, deltaT: real, c: Circuit, ph: Physics)
    requires Laws(ph)
    ensures var p, q := PowerSum(m, |m|, deltaA, deltaT, ph), PowerSum(m + [x], |m| + 1, deltaA, deltaT, ph);
      && q == p + (if Signal([x], 0, deltaA, deltaT) then Power(x.ew, ph) else 0.0)
      && (Signals(m, deltaA, deltaT) != {} ==> Level(p, c, ph) <= Level(q, c, ph))
      && (Signals(m, deltaA, deltaT) == {} && Signal([x], 0, deltaA, deltaT) ==>
            (Level(q, c, ph) < Level(p, c, ph) <==> x.ew < TINY_DB))
  {
    SamePower(m, m + [x], |m|, deltaA, deltaT, ph);
    PowerOfSignals(m, |m|, deltaA, deltaT, ph);
    LevelOfOne(x.ew, c, ph);
    assert forall k :: 0 <= k < |m| && Signal(m, k, deltaA, deltaT) ==> k in Signals(m, deltaA, deltaT);
    var p, q := PowerSum(m, |m|, deltaA, deltaT, ph), PowerSum(m + [x], |m| + 1, deltaA, deltaT, ph);
    if Signals(m, deltaA, deltaT) != {} {
      var k :| k in Signals(m, deltaA, deltaT);
      assert p > 0.0;
      LevelGrows(p, q, c, ph);
    }
  }

  lemma {:induction false} SamePower(m: seq<Mode>, m': seq<Mode>, n: nat, deltaA: real, deltaT: real, ph: Physics)
    requires n <= |m| && m <= m'
    ensures PowerSum(m', n, deltaA, deltaT, ph) == PowerSum(m, n, deltaA, deltaT, ph)
  {
    if n > 0 {
      SamePower(m, m', n - 1, deltaA, deltaT, ph);
    }
  }

  /** Wider limits never take power away. */
  lemma {:induction false} WiderLimits(m: seq<Mode>, n: nat, deltaA: real, deltaT: real, deltaA': real, deltaT': real, ph: Physics)
    requires n <= |m| && ph.Valid() && deltaA' <= deltaA && deltaT <= deltaT'
    ensures PowerSum(m, n, deltaA, deltaT, ph) <= PowerSum(m, n, deltaA', deltaT', ph)
  {
    if n > 0 {
      WiderLimits(m, n - 1, deltaA, deltaT, deltaA', deltaT', ph);
      var x := (ph.pow10)(m[n - 1].ew / 10.0);
      TimesSign(x, x);
    }
  }

  /** Delays known from before play no part for the modes that exist from n0 on; the others keep theirs. */
  lemma DelaysAreNew(m: seq<Mode>, m': seq<Mode>, n0: nat, own: bool, ph: Physics, n: nat)
    requires |m| == |m'| && n < |m| && m'[n] == m[n].(tau := m'[n].tau)
    ensures n >= n0 && m[n].bmuf != 0.0 ==> Delayed(m', n0, own, ph)[n] == Delayed(m, n0, own, ph)[n]
    ensures n < n0 || m[n].bmuf == 0.0 ==> Delayed(m, n0, own, ph)[n] == m[n]
    ensures !own && n >= n0 && m[n].bmuf != 0.0 ==> Delayed(m, n0, own, ph)[n].tau == ph.delay(E_HEIGHT, n)
  {
  }

  /** The modes as the split sees them. */
  function ModesOf(e: seq<Mode>, f2: seq<Mode>, c: Circuit, ph: Physics): (m: seq<Mode>)
    ensures |m| == |e| + |f2|
  {
    if c.distance <= 9000.0 then Delayed(e, c.n0E, false, ph) + Delayed(f2, c.n0F2, true, ph) else e + f2
  }

  /** What the split promises: its lists and the signal, for some dominant and some earliest mode. */
  ghost predicate Splits(m: seq<Mode>, c: Circuit, ph: Physics, iS: seq<int>, iI: seq<int>, s: real) {
    exists d, t :: Dominant(m, d) && Earliest(m, t) && SplitAt(m, m[d].prw - c.a, m[t].tau + c.tw / 1000.0, c, ph, iS, iI, s)
  }

  ghost predicate SplitAt(m: seq<Mode>, deltaA: real, deltaT: real, c: Circuit, ph: Physics, iS: seq<int>, iI: seq<int>, s: real) {
    && Lists(iS, |m|, Signals(m, deltaA, deltaT)) && Lists(iI, |m|, Interferers(m, deltaA, deltaT))
    && s == Level(PowerSum(m, |m|, deltaA, deltaT, ph), c, ph)
    && (Signals(m, deltaA, deltaT) == {} ==> s == TINY_DB + c.grw - 20.0 * (ph.log10)(c.frequency) - 107.2)
  }

  method SignalAndInterferers(e: seq<Mode>, f2: seq<Mode>, c: Circuit, ph: Physics, iS: array<int>, iI: array<int>)
    returns (s: real, e': seq<Mode>, f2': seq<Mode>)
    requires iS.Length == iI.Length == |e| + |f2| <= NOT_INDEX && iS != iI && ph.Valid()
    modifies iS, iI
    ensures e' + f2' == ModesOf(e, f2, c, ph) && |e'| == |e|
    ensures var m := ModesOf(e, f2, c, ph);
            if c.distance <= 9000.0 && |Existing(m, |m|)| >= 2 then
              Splits(m, c, ph, iS[..], iI[..], s)
            else
              Lists(iS[..], |m|, {}) && Lists(iI[..], |m|, {}) && s == c.pr
  {
    hide Lists, Dominant, Earliest, DescendingTo, Existing, Level, SplitAt, Delayed, PowerSum;
    var n := |e| + |f2|;
    var iEw, iTau := new int[n], new int[n];
    for k := 0 to n
      invariant forall j :: 0 <= j < k ==> iEw[j] == iTau[j] == iI[j] == iS[j] == NOT_INDEX
    {
      iEw[k], iTau[k], iI[k], iS[k] := NOT_INDEX, NOT_INDEX, NOT_INDEX, NOT_INDEX;
    }
    e', f2' := e, f2;
    s := c.pr;
    if c.distance <= 9000.0 {
      e' := SetDelays(e, c.n0E, false, ph);
      f2' := SetDelays(f2, c.n0F2, true, ph);
      var count := NumberOfModes(e', f2');
      if count >= 2 {
        var m := e' + f2';
        ModeSort(m, iEw, DOMINANT);
        ModeSort(m, iTau, SOONEST);
        FirstRanks(m, iEw[..], iTau[..]);
        s := Split(m, iEw[0], iTau[0], c, ph, iS, iI);
        return;
      }
    }
    SortLists(iS, iI, {}, {});
  }

  /** Classifies the modes by the dominant and the earliest one and sorts both lists. */
  method Split(m: seq<Mode>, d: int, t: int, c: Circuit, ph: Physics, iS: array<int>, iI: array<int>) returns (s: real)
    requires iS.Length == iI.Length == |m| <= NOT_INDEX && iS != iI && ph.Valid() && Exists(m, d) && Exists(m, t)
    requires forall k :: 0 <= k < |m| ==> iS[k] == iI[k] == NOT_INDEX
    modifies iS, iI
    ensures SplitAt(m, m[d].prw - c.a, m[t].tau + c.tw / 1000.0, c, ph, iS[..], iI[..], s)
  {
    hide Lists, Spread;
    var deltaT := m[t].tau + c.tw / 1000.0;
    var deltaA := m[d].prw - c.a;
    var ssum := Classify(m, deltaA, deltaT, ph, iS, iI);
    var etw := if ssum > 0.0 then 10.0 * (ph.log10)((ph.sqrt)(ssum)) else TINY_DB;
    s := etw + c.grw - 20.0 * (ph.log10)(c.frequency) - 107.2;
    PowerOfSignals(m, |m|, deltaA, deltaT, ph);
    assert forall k :: 0 <= k < |m| && Signal(m, k, deltaA, deltaT) ==> k in Signals(m, deltaA, deltaT);
    SortLists(iS, iI, Signals(m, deltaA, deltaT), Interferers(m, deltaA, deltaT));
  }

  method SortLists(iS: array<int>, iI: array<int>, ghost sigs: set<int>, ghost ints: set<int>)
    requires iS.Length == iI.Length && iS != iI && Spread(iS[..], sigs) && Spread(iI[..], ints)
    modifies iS, iI
    ensures Lists(iS[..], iS.Length, sigs) && Lists(iI[..], iI.Length, ints)
  {
    hide Spread, Counted, Lists, DescendingTo;
    ghost var s0, i0 := iS[..], iI[..];
    SpreadCounts(s0, sigs);
    SpreadCounts(i0, ints);
    SortIndices(iS, iI);
    StillCounted(s0, iS[..], sigs);
    StillCounted(i0, iI[..], ints);
    SortedLists(iS[..], iS.Length, sigs);
    SortedLists(iI[..], iI.Length, ints);
  }

  method Classify(m: seq<Mode>, deltaA: real, deltaT: real, ph: Physics, iS: array<int>, iI: array<int>) returns (ssum: real)
    requires iS.Length == iI.Length == |m| <= NOT_INDEX && iS != iI
    requires forall k :: 0 <= k < |m| ==> iS[k] == iI[k] == NOT_INDEX
    modifies iS, iI
    ensures Spread(iS[..], Signals(m, deltaA, deltaT)) && Spread(iI[..], Interferers(m, deltaA, deltaT))
    ensures ssum == PowerSum(m, |m|, deltaA, deltaT, ph)
  {
    ssum := 0.0;
    for n := 0 to |m|
      invariant forall k :: 0 <= k < |m| ==> iS[k] == if k < n && Signal(m, k, deltaA, deltaT) then k else NOT_INDEX
      invariant forall k :: 0 <= k < |m| ==> iI[k] == if k < n && Interferer(m, k, deltaA, deltaT) then k else NOT_INDEX
      invariant ssum == PowerSum(m, n, deltaA, deltaT, ph)
    {
      if m[n].bmuf != 0.0 {
        if m[n].prw >= deltaA && m[n].tau <= deltaT {
          ssum := ssum + Power(m[n].ew, ph);
          iS[n] := n;
        } else {
          iI[n] := n;
        }
      }
    }
  }

  /** The first of each ranking. */
  lemma {:induction false} FirstRanks(m: seq<Mode>, iEw: seq<int>, iTau: seq<int>)
    requires |m| <= NOT_INDEX && |Existing(m, |m|)| >= 2
    requires Ranks(m, iEw) && DescendingTo(iEw, |Existing(m, |m|)|, ByStrength(m))
    requires Ranks(m, iTau) && DescendingTo(iTau, |Existing(m, |m|)|, ByDelay(m))
    ensures Dominant(m, iEw[0]) && Earliest(m, iTau[0]) && Exists(m, iEw[0]) && Exists(m, iTau[0])
  {
    var d, t := iEw[0], iTau[0];
    RanksExist(m, iEw);
    RanksExist(m, iTau);
    forall n | Exists(m, n) ensures m[n].ew <= m[d].ew && m[n].tau >= m[t].tau {
      var k :| 0 <= k < |Existing(m, |m|)| && iEw[k] == n;
      var l :| 0 <= l < |Existing(m, |m|)| && iTau[l] == n;
      assert ByStrength(m)(iEw[0]) >= ByStrength(m)(iEw[k]);
      assert ByDelay(m)(iTau[0]) >= ByDelay(m)(iTau[l]);
    }
  }

  /** Before the sort each chosen mode sits at its own place. */
  ghost predicate Spread(s: seq<int>, chosen: set<int>) {
    && (forall k :: 0 <= k < |s| ==> s[k] == if k in chosen then k else NOT_INDEX)
    && (forall n :: n in chosen ==> 0 <= n < |s|) && |s| <= NOT_INDEX
  }

  lemma {:induction false} SpreadCount(s: seq<int>, chosen: set<int>, hi: nat, n: int)
    requires Spread(s, chosen) && n in chosen && hi <= |s|
    ensures multiset(s[..hi])[n] == if n < hi then 1 else 0
  {
    if hi > 0 {
      SpreadCount(s, chosen, hi - 1, n);
      assert s[..hi] == s[..hi - 1] + [s[hi - 1]];
    }
  }

  lemma SpreadCounts(s: seq<int>, chosen: set<int>)
    requires Spread(s, chosen)
    ensures Counted(s, chosen)
  {
    forall n | n in chosen ensures multiset(s)[n] == 1 {
      SpreadCount(s, chosen, |s|, n);
      assert s[..|s|] == s;
    }
  }

  ghost predicate Counted(s: seq<int>, chosen: set<int>) {
    && (forall k :: 0 <= k < |s| ==> s[k] in chosen || s[k] == NOT_INDEX)
    && (forall n :: n in chosen ==> multiset(s)[n] == 1)
  }

  method ExchangeIfLess(a: array<int>, n: nat, k: nat)
    requires n < a.Length && k < a.Length
    modifies a
    ensures a[..] == Exchanged(old(a[..]), n, k, Ascending())
  {
    if a[n] < a[k] {
      a[n], a[k] := a[k], a[n];
    }
  }

  /** The final loops: both index lists are sorted in one pair of loops. */
  method SortIndices(iS: array<int>, iI: array<int>)
    requires iS.Length == iI.Length && iS != iI
    modifies iS, iI
    ensures multiset(iS[..]) == multiset(old(iS[..])) && DescendingTo(iS[..], iS.Length, Ascending())
    ensures multiset(iI[..]) == multiset(old(iI[..])) && DescendingTo(iI[..], iI.Length, Ascending())
  {
    hide Inner, Outer, DescendingTo, Exchanged, Ascending;
    ghost var key, s0, i0 := Ascending(), multiset(iS[..]), multiset(iI[..]);
    SortBegins(iS[..], key);
    SortBegins(iI[..], key);
    for n := 0 to iS.Length
      invariant Outer(iS[..], s0, n, key) && Outer(iI[..], i0, n, key)
    {
      RoundBegins(iS[..], s0, n, key);
      RoundBegins(iI[..], i0, n, key);
      for k := 0 to iS.Length
        invariant Inner(iS[..], s0, n, k, key) && Inner(iI[..], i0, n, k, key)
      {
        ghost var sBefore, iBefore := iS[..], iI[..];
        InnerStep(iBefore, i0, n, k, key);
        InnerStep(sBefore, s0, n, k, key);
        ExchangeIfLess(iI, n, k);
        ExchangeIfLess(iS, n, k);
      }
      RoundEnds(iS[..], s0, n, key);
      RoundEnds(iI[..], i0, n, key);
    }
    SortEnds(iS[..], s0, key);
    SortEnds(iI[..], i0, key);
  }

  lemma StillCounted(s: seq<int>, t: seq<int>, chosen: set<int>)
    requires multiset(s) == multiset(t) && Counted(s, chosen)
    ensures Counted(t, chosen)
  {
    forall k | 0 <= k < |t| ensures t[k] in chosen || t[k] == NOT_INDEX {
      assert t[k] in multiset(s);
    }
  }

  lemma SortedLists(s: seq<int>, size: nat, chosen: set<int>)
    requires |s| == size && DescendingTo(s, |s|, Ascending()) && Counted(s, chosen)
    ensures Lists(s, size, chosen)
  {
    forall a, b | 0 <= a < b < |s| ensures s[a] <= s[b] {
      assert Ascending()(s[a]) >= Ascending()(s[b]);
    }
  }

  // ---- the control point with the smallest foF2 ----

  function ByFoF2(foF2: seq<real>): int -> real {
    n => if 0 <= n < |foF2| then foF2[n] else 0.0
  }

  /** The values are the indices below n. */
  ghost predicate Indices(all: multiset<int>, n: nat) {
    forall v :: v in all <==> 0 <= v < n
  }

  lemma IdentityIndices(s: seq<int>)
    requires forall k :: 0 <= k < |s| ==> s[k] == k
    ensures Indices(multiset(s), |s|)
  {
    forall v ensures v in multiset(s) <==> 0 <= v < |s| {
      if 0 <= v < |s| {
        assert s[v] in multiset(s);
      }
    }
  }

  /** Index 0 takes part in the sort only. */
  method SmallestCPfoF2(foF2: seq<real>) returns (temp: int)
    requires |foF2| == 5
    ensures 1 <= temp < 5 && forall k :: 1 <= k < 5 ==> foF2[temp] <= foF2[k]
  {
    hide Inner, Outer, DescendingTo, Exchanged, LastAt, Indices;
    temp := 0;
    var idx := new int[5](i => i);
    ghost var key, all := ByFoF2(foF2), multiset(idx[..]);
    IdentityIndices(idx[..]);
    SortBegins(idx[..], key);
    for i := 0 to 5
      invariant Outer(idx[..], all, i, key)
    {
      RoundBegins(idx[..], all, i, key);
      for j := 0 to 5
        invariant Inner(idx[..], all, i, j, key)
      {
        ghost var before := idx[..];
        IndexInRange(before, all, i, j, key, 5);
        InnerStep(before, all, i, j, key);
        temp := ExchangeIfGreater(foF2, idx, i, j, temp);
      }
      RoundEnds(idx[..], all, i, key);
    }
    SortEnds(idx[..], all, key);
    ghost var pos;
    temp, pos := LastNonZero(idx[..], temp);
    LastIsLowest(idx[..], pos, temp, foF2);
  }

  lemma IndexInRange(s: seq<int>, all: multiset<int>, i: nat, j: nat, key: int -> real, n: nat)
    requires Inner(s, all, i, j, key) && Indices(all, n)
    ensures forall k :: 0 <= k < |s| ==> 0 <= s[k] < n
  {
    forall k | 0 <= k < |s| ensures 0 <= s[k] < n {
      assert s[k] in multiset(s);
    }
  }

  method ExchangeIfGreater(foF2: seq<real>, idx: array<int>, i: nat, j: nat, temp0: int) returns (temp: int)
    requires i < idx.Length && j < idx.Length && forall k :: 0 <= k < idx.Length ==> 0 <= idx[k] < |foF2|
    modifies idx
    ensures idx[..] == Exchanged(old(idx[..]), i, j, ByFoF2(foF2))
  {
    temp := temp0;
    if foF2[idx[i]] > foF2[idx[j]] {
      temp := idx[i];
      idx[i] := idx[j];
      idx[j] := temp;
    }
  }

  /** temp is the entry at pos, not 0, and only 0 follows below n; before the first such entry pos is -1. */
  ghost predicate LastAt(idx: seq<int>, n: nat, pos: int, temp: int)
    requires n <= |idx|
  {
    && -1 <= pos < n && (forall k :: pos < k < n ==> idx[k] == 0)
    && (pos >= 0 ==> idx[pos] == temp && temp != 0)
  }

  method LastNonZero(idx: seq<int>, temp0: int) returns (temp: int, ghost pos: int)
    ensures LastAt(idx, |idx|, pos, temp)
  {
    temp, pos := temp0, -1;
    for i := 0 to |idx|
      invariant LastAt(idx, i, pos, temp)
    {
      if idx[i] != 0 {
        temp, pos := idx[i], i;
      }
    }
  }

  lemma LastIsLowest(idx: seq<int>, pos: int, temp: int, foF2: seq<real>)
    requires |foF2| == 5 && Indices(multiset(idx), 5) && DescendingTo(idx, |idx|, ByFoF2(foF2)) && LastAt(idx, |idx|, pos, temp)
    ensures 1 <= temp < 5 && forall k :: 1 <= k < 5 ==> foF2[temp] <= foF2[k]
  {
    hide DescendingTo, LastAt;
    assert 1 in multiset(idx);
    LastAfter(idx, pos, temp, ByFoF2(foF2), 1);
    assert temp in multiset(idx);
    forall n | 1 <= n < 5 ensures foF2[temp] <= foF2[n] {
      assert n in multiset(idx);
      LastAfter(idx, pos, temp, ByFoF2(foF2), n);
      assert ByFoF2(foF2)(n) == foF2[n] && ByFoF2(foF2)(temp) == foF2[temp];
    }
  }

  lemma LastAfter(idx: seq<int>, pos: int, temp: int, key: int -> real, n: int)
    requires n in idx && n != 0 && DescendingTo(idx, |idx|, key) && LastAt(idx, |idx|, pos, temp)
    ensures temp in idx && temp != 0 && key(n) >= key(temp)
  {
    var k :| 0 <= k < |idx| && idx[k] == n;
    assert k <= pos;
    assert key(idx[k]) >= key(idx[pos]);
  }
}
