/** Margin legends: bins of a threshold in dB and a colour, from high to low (internal/plot/plot.go). */
module Legend {
  import opened GoMath
  import opened Multisets
  import opened Options

  datatype Color = Color(R: Byte, G: Byte, B: Byte, A: Byte)

  datatype Bin = Bin(MinDB: real, Colour: Color)

  const MAX_BINS := 8
  const MIN_LEGEND_DB := -127.0
  const MAX_LEGEND_DB := 127.0

  // ---- colours as #rrggbb ----

  function HexDigit(d: nat): char
    requires d < 16
  {
    if d < 10 then '0' + d as char else 'a' + (d - 10) as char
  }

  /** The value of a hexadecimal digit of either case. */
  function HexValue(c: char): (r: Option<nat>)
    ensures r.Some? ==> r.value < 16
  {
    if '0' <= c <= '9' then Some((c - '0') as nat)
    else if 'a' <= c <= 'f' then Some((c - 'a') as nat + 10)
    else if 'A' <= c <= 'F' then Some((c - 'A') as nat + 10)
    else None
  }

  function HexByte(b: Byte): string {
    [HexDigit(b / 16), HexDigit(b % 16)]
  }

  function ParseByte(hi: char, lo: char): Option<Byte> {
    var h, l := HexValue(hi), HexValue(lo);
    if h.Some? && l.Some? then Some(h.value * 16 + l.value) else None
  }

  function Hex(c: Color): string {
    "#" + HexByte(c.R) + HexByte(c.G) + HexByte(c.B)
  }

  function ParseHex(s: string): Option<Color> {
    if |s| != 7 || s[0] != '#' then None
    else
      var r, g, b := ParseByte(s[1], s[2]), ParseByte(s[3], s[4]), ParseByte(s[5], s[6]);
      if r.Some? && g.Some? && b.Some? then Some(Color(r.value, g.value, b.value, 255)) else None
  }

  lemma DigitReads(d: nat)
    requires d < 16
    ensures HexValue(HexDigit(d)) == Some(d)
  {
  }

  lemma ByteReads(b: Byte)
    ensures ParseByte(HexByte(b)[0], HexByte(b)[1]) == Some(b)
  {
    DigitReads(b / 16);
    DigitReads(b % 16);
    hide HexValue, HexDigit;
  }

  /** Every opaque colour reads back; alpha is not in the text and reads as opaque. */
  lemma ColourReads(c: Color)
    ensures ParseHex(Hex(c)) == Some(c.(A := 255))
  {
    ByteReads(c.R);
    ByteReads(c.G);
    ByteReads(c.B);
    hide ParseByte;
  }

  /** The text is # and six digits, none of them a capital. */
  lemma HexIsLower(c: Color)
    ensures |Hex(c)| == 7 && Hex(c)[0] == '#' && forall i :: 1 <= i < 7 ==> !('A' <= Hex(c)[i] <= 'F') && HexValue(Hex(c)[i]).Some?
  {
    ByteReads(c.R);
    ByteReads(c.G);
    ByteReads(c.B);
  }

  // ---- building a legend ----

  datatype Fault = Lengths | Size | OutOfRange | NotHex | Twice

  datatype Result = Ok(legend: seq<Bin>) | Err(fault: Fault)

  /** Strictly from high to low. */
  ghost predicate Descends(l: seq<Bin>) {
    forall i, j :: 0 <= i < j < |l| ==> l[i].MinDB > l[j].MinDB
  }

  ghost predicate DescendsWeakly(l: seq<Bin>) {
    forall i, j :: 0 <= i < j < |l| ==> l[i].MinDB >= l[j].MinDB
  }

  predicate InRange(min: real) {
    MIN_LEGEND_DB <= min <= MAX_LEGEND_DB
  }

  /** A NaN threshold is None. */
  predicate Accepts(min: Option<real>, color: string) {
    min.Some? && InRange(min.value) && ParseHex(color).Some?
  }

  function BinOf(min: Option<real>, color: string): Bin
    requires Accepts(min, color)
  {
    Bin(min.value, ParseHex(color).value)
  }

  ghost predicate AllAccepted(mins: seq<Option<real>>, colors: seq<string>)
    requires |mins| == |colors|
  {
    forall i :: 0 <= i < |mins| ==> Accepts(mins[i], colors[i])
  }

  function BinsOf(mins: seq<Option<real>>, colors: seq<string>): (r: seq<Bin>)
    requires |mins| == |colors| && AllAccepted(mins, colors)
    ensures |r| == |mins| && forall i :: 0 <= i < |r| ==> r[i] == BinOf(mins[i], colors[i])
  {
    seq(|mins|, i requires 0 <= i < |mins| => BinOf(mins[i], colors[i]))
  }

  ghost predicate NoneTwice(mins: seq<Option<real>>) {
    forall i, j :: 0 <= i < j < |mins| ==> mins[i] != mins[j]
  }

  /** What makes a legend of thresholds and colours. */
  ghost predicate Makes(mins: seq<Option<real>>, colors: seq<string>) {
    && |mins| == |colors| && 1 <= |mins| <= MAX_BINS && AllAccepted(mins, colors) && NoneTwice(mins)
  }

  /** A stable sort from high to low threshold. */
  function Insert(b: Bin, l: seq<Bin>): seq<Bin> {
    if l == [] || b.MinDB >= l[0].MinDB then [b] + l else [l[0]] + Insert(b, l[1..])
  }

  function Sorted(l: seq<Bin>): seq<Bin> {
    if l == [] then [] else Insert(l[0], Sorted(l[1..]))
  }

  lemma {:induction false} InsertAdds(b: Bin, l: seq<Bin>)
    ensures multiset(Insert(b, l)) == multiset(l) + multiset{b}
    ensures forall x :: x in Insert(b, l) <==> x in l || x == b
  {
    if l != [] && b.MinDB < l[0].MinDB {
      InsertAdds(b, l[1..]);
      assert l == [l[0]] + l[1..];
    }
  }

  lemma {:induction false} InsertSorts(b: Bin, l: seq<Bin>)
    requires DescendsWeakly(l)
    ensures DescendsWeakly(Insert(b, l)) && multiset(Insert(b, l)) == multiset(l) + multiset{b}
  {
    InsertAdds(b, l);
    if l != [] && b.MinDB < l[0].MinDB {
      InsertSorts(b, l[1..]);
      InsertAdds(b, l[1..]);
      FirstOfRest(l[0], Insert(b, l[1..]));
    }
  }

  lemma FirstOfRest(x: Bin, l: seq<Bin>)
    requires DescendsWeakly(l) && forall y :: y in l ==> y.MinDB <= x.MinDB
    ensures DescendsWeakly([x] + l)
  {
  }

  lemma {:induction false} SortedSorts(l: seq<Bin>)
    ensures DescendsWeakly(Sorted(l)) && multiset(Sorted(l)) == multiset(l) && |Sorted(l)| == |l|
  {
    if l != [] {
      SortedSorts(l[1..]);
      InsertSorts(l[0], Sorted(l[1..]));
      hide Insert, DescendsWeakly;
      assert l == [l[0]] + l[1..];
      SameLength(Sorted(l), l);
    }
  }

  /** l is the legend these thresholds and colours make. */
  ghost predicate IsLegendOf(l: seq<Bin>, mins: seq<Option<real>>, colors: seq<string>) {
    Makes(mins, colors) && Descends(l) && multiset(l) == multiset(BinsOf(mins, colors))
  }

  method NewLegend(mins: seq<Option<real>>, colors: seq<string>) returns (r: Result)
    ensures r.Ok? <==> Makes(mins, colors)
    ensures r.Ok? ==> IsLegendOf(r.legend, mins, colors)
    ensures r == Err(Lengths) <==> |mins| != |colors|
    ensures r == Err(Size) <==> |mins| == |colors| && !(1 <= |mins| <= MAX_BINS)
    ensures r == Err(Twice) ==> |mins| == |colors| && AllAccepted(mins, colors) && !NoneTwice(mins)
  {
    if |mins| != |colors| {
      return Err(Lengths);
    }
    if |mins| == 0 || |mins| > MAX_BINS {
      return Err(Size);
    }
    var l: seq<Bin> := [];
    for i := 0 to |mins|
      invariant AllAccepted(mins[..i], colors[..i])
      invariant l == BinsOf(mins[..i], colors[..i])
    {
      if mins[i].None? || !InRange(mins[i].value) {
        assert !Accepts(mins[i], colors[i]);
        return Err(OutOfRange);
      }
      var c := ParseHex(colors[i]);
      if c.None? {
        assert !Accepts(mins[i], colors[i]);
        return Err(NotHex);
      }
      l := l + [Bin(mins[i].value, c.value)];
      NextBin(mins, colors, i);
    }
    assert mins[..|mins|] == mins && colors[..|mins|] == colors;
    ghost var bins := l;
    SortedSorts(l);
    l := Sorted(l);
    for i := 1 to |l|
      invariant forall j :: 1 <= j < i ==> l[j].MinDB != l[j - 1].MinDB
    {
      if l[i].MinDB == l[i - 1].MinDB {
        RepeatedThreshold(bins, l, i);
        return Err(Twice);
      }
    }
    StrictOrder(l);
    DistinctThresholds(bins, l);
    r := Ok(l);
  }

  lemma NextBin(mins: seq<Option<real>>, colors: seq<string>, i: nat)
    requires i < |mins| == |colors| && AllAccepted(mins[..i], colors[..i]) && Accepts(mins[i], colors[i])
    ensures AllAccepted(mins[..i + 1], colors[..i + 1])
    ensures BinsOf(mins[..i + 1], colors[..i + 1]) == BinsOf(mins[..i], colors[..i]) + [BinOf(mins[i], colors[i])]
  {
    hide Accepts, BinOf;
    assert forall k :: 0 <= k < i ==> mins[..i + 1][k] == mins[..i][k] && colors[..i + 1][k] == colors[..i][k];
  }

  lemma StrictOrder(l: seq<Bin>)
    requires DescendsWeakly(l) && forall j :: 1 <= j < |l| ==> l[j].MinDB != l[j - 1].MinDB
    ensures Descends(l)
  {
    forall i, j | 0 <= i < j < |l| ensures l[i].MinDB > l[j].MinDB {
      assert l[j - 1].MinDB >= l[j].MinDB;
    }
  }

  function HasThreshold(t: real): Bin -> bool {
    (b: Bin) => b.MinDB == t
  }

  /** How often a threshold occurs. */
  function Occurs(l: seq<Bin>, t: real): nat {
    Count(l, HasThreshold(t))
  }

  lemma {:induction false} OccursTwice(l: seq<Bin>, i: nat, j: nat)
    requires i < j < |l| && l[i].MinDB == l[j].MinDB
    ensures Occurs(l, l[i].MinDB) >= 2
  {
    if i == 0 {
      OccursOnce(l[1..], j - 1);
    } else {
      OccursTwice(l[1..], i - 1, j - 1);
    }
  }

  lemma {:induction false} OccursOnce(l: seq<Bin>, i: nat)
    requires i < |l|
    ensures Occurs(l, l[i].MinDB) >= 1
  {
    if i > 0 {
      OccursOnce(l[1..], i - 1);
    }
  }

  lemma {:induction false} OccursWhere(l: seq<Bin>, t: real) returns (i: nat)
    requires Occurs(l, t) >= 1
    ensures i < |l| && l[i].MinDB == t
  {
    if l[0].MinDB == t {
      i := 0;
    } else {
      i := OccursWhere(l[1..], t);
      i := i + 1;
    }
  }

  lemma {:induction false} OccursTwiceWhere(l: seq<Bin>, t: real) returns (i: nat, j: nat)
    requires Occurs(l, t) >= 2
    ensures i < j < |l| && l[i].MinDB == t && l[j].MinDB == t
  {
    if l[0].MinDB == t {
      j := OccursWhere(l[1..], t);
      i, j := 0, j + 1;
    } else {
      i, j := OccursTwiceWhere(l[1..], t);
      i, j := i + 1, j + 1;
    }
  }

  lemma RepeatedThreshold(bins: seq<Bin>, l: seq<Bin>, i: nat)
    requires multiset(bins) == multiset(l) && 1 <= i < |l| && l[i].MinDB == l[i - 1].MinDB
    ensures exists a, b :: 0 <= a < b < |bins| && bins[a].MinDB == bins[b].MinDB
  {
    OccursTwice(l, i - 1, i);
    CountSame(l, bins, HasThreshold(l[i].MinDB));
    var a, b := OccursTwiceWhere(bins, l[i].MinDB);
  }

  lemma DistinctThresholds(bins: seq<Bin>, l: seq<Bin>)
    requires multiset(bins) == multiset(l) && Descends(l)
    ensures forall a, b :: 0 <= a < b < |bins| ==> bins[a].MinDB != bins[b].MinDB
  {
    forall a, b | 0 <= a < b < |bins| ensures bins[a].MinDB != bins[b].MinDB {
      if bins[a].MinDB == bins[b].MinDB {
        OccursTwice(bins, a, b);
        CountSame(bins, l, HasThreshold(bins[a].MinDB));
        var i, j := OccursTwiceWhere(l, bins[a].MinDB);
        assert false;
      }
    }
  }

  lemma {:induction false} DescendingUnique(l: seq<Bin>, m: seq<Bin>)
    requires Descends(l) && Descends(m) && multiset(l) == multiset(m)
    ensures l == m
  {
    if l == [] {
      assert |m| == |multiset(m)| == |multiset(l)| == 0;
    } else {
      FirstSame(l, m);
      TailOf(l);
      TailOf(m);
      hide Descends;
      DescendingUnique(l[1..], m[1..]);
      assert l == [l[0]] + l[1..] && m == [m[0]] + m[1..];
    }
  }

  lemma FirstSame(l: seq<Bin>, m: seq<Bin>)
    requires Descends(l) && Descends(m) && multiset(l) == multiset(m) && l != []
    ensures m != [] && l[0] == m[0]
  {
    var k := PositionIn(l, m, 0);
    var j := PositionIn(m, l, 0);
    assert j == 0 || k == 0;
  }

  lemma TailOf(s: seq<Bin>)
    requires Descends(s) && s != []
    ensures Descends(s[1..]) && multiset(s[1..]) == multiset(s) - multiset{s[0]}
  {
    RestDescends(s);
    TailMultiset(s);
    hide *;
  }

  lemma RestDescends(s: seq<Bin>)
    requires Descends(s) && s != []
    ensures Descends(s[1..])
  {
  }

  /** The legend does not depend on the order in which its bins are given. */
  lemma OrderOfBins(l: seq<Bin>, l2: seq<Bin>, mins: seq<Option<real>>, colors: seq<string>,
                    mins2: seq<Option<real>>, colors2: seq<string>)
    requires IsLegendOf(l, mins, colors) && IsLegendOf(l2, mins2, colors2)
    requires multiset(BinsOf(mins, colors)) == multiset(BinsOf(mins2, colors2))
    ensures l == l2
  {
    DescendingUnique(l, l2);
  }

  // ---- stored legends ----

  function Mins(l: seq<Bin>): (r: seq<Option<real>>)
    ensures |r| == |l| && forall i :: 0 <= i < |l| ==> r[i] == Some(l[i].MinDB)
  {
    seq(|l|, i requires 0 <= i < |l| => Some(l[i].MinDB))
  }

  function Hexes(l: seq<Bin>): (r: seq<string>)
    ensures |r| == |l| && forall i :: 0 <= i < |l| ==> r[i] == Hex(l[i].Colour)
  {
    seq(|l|, i requires 0 <= i < |l| => Hex(l[i].Colour))
  }

  const DEFAULT_LEGEND: seq<Bin> := [
    Bin(30.0, Color(0, 100, 0, 255)),
    Bin(20.0, Color(60, 180, 60, 255)),
    Bin(10.0, Color(230, 220, 40, 255)),
    Bin(0.0, Color(240, 140, 30, 255))
  ]

  /** Every legend there is: what NewLegend returns, and the default one. */
  ghost predicate IsLegend(l: seq<Bin>) {
    1 <= |l| <= MAX_BINS && Descends(l) && forall i :: 0 <= i < |l| ==> InRange(l[i].MinDB) && l[i].Colour.A == 255
  }

  lemma DefaultIsLegend()
    ensures IsLegend(DEFAULT_LEGEND)
  {
  }

  method LegendOr(mins: seq<Option<real>>, colors: seq<string>) returns (l: seq<Bin>)
    ensures IsLegend(l)
    ensures if Makes(mins, colors) then IsLegendOf(l, mins, colors) else l == DEFAULT_LEGEND
  {
    DefaultIsLegend();
    if |mins| == 0 {
      return DEFAULT_LEGEND;
    }
    var r := NewLegend(mins, colors);
    if r.Err? {
      return DEFAULT_LEGEND;
    }
    MadeIsLegend(r.legend, mins, colors);
    l := r.legend;
  }

  lemma MadeIsLegend(l: seq<Bin>, mins: seq<Option<real>>, colors: seq<string>)
    requires IsLegendOf(l, mins, colors)
    ensures IsLegend(l)
  {
    var bins := BinsOf(mins, colors);
    assert |l| == |multiset(l)| == |multiset(bins)| == |bins|;
    forall i | 0 <= i < |l| ensures InRange(l[i].MinDB) && l[i].Colour.A == 255 {
      assert l[i] in multiset(bins);
      var k :| 0 <= k < |bins| && bins[k] == l[i];
    }
  }

  /** A legend stored as thresholds and colours is read back as it was. */
  lemma StoredLegend(l: seq<Bin>)
    requires IsLegend(l)
    ensures IsLegendOf(l, Mins(l), Hexes(l))
    ensures forall l2 :: IsLegendOf(l2, Mins(l), Hexes(l)) ==> l2 == l
  {
    forall i | 0 <= i < |l| ensures Accepts(Mins(l)[i], Hexes(l)[i]) && BinOf(Mins(l)[i], Hexes(l)[i]) == l[i] {
      ColourReads(l[i].Colour);
    }
    assert BinsOf(Mins(l), Hexes(l)) == l;
    forall l2 | IsLegendOf(l2, Mins(l), Hexes(l)) ensures l2 == l {
      DescendingUnique(l2, l);
    }
  }

  // ---- the bin of a margin ----

  /** The first bin with a threshold at or below the margin, -1 for none or for NaN. */
  function BinIndex(l: seq<Bin>, m: Option<real>): (i: int)
    ensures -1 <= i < |l|
  {
    if m.None? then -1 else FirstReached(l, m.value, 0)
  }

  function FirstReached(l: seq<Bin>, m: real, k: nat): (i: int)
    requires k <= |l|
    ensures i == -1 || k <= i < |l|
    decreases |l| - k
  {
    if k == |l| then -1 else if m >= l[k].MinDB then k else FirstReached(l, m, k + 1)
  }

  method FindBin(l: seq<Bin>, m: Option<real>) returns (i: int)
    ensures i == BinIndex(l, m)
  {
    if m.None? {
      return -1;
    }
    for k := 0 to |l|
      invariant BinIndex(l, m) == FirstReached(l, m.value, k)
    {
      if m.value >= l[k].MinDB {
        return k;
      }
    }
    i := -1;
  }

  lemma {:induction false} FirstReachedIs(l: seq<Bin>, m: real, k: nat)
    requires k <= |l|
    ensures var i := FirstReached(l, m, k);
      && (i == -1 ==> forall j :: k <= j < |l| ==> m < l[j].MinDB)
      && (i >= 0 ==> m >= l[i].MinDB && forall j :: k <= j < i ==> m < l[j].MinDB)
    decreases |l| - k
  {
    if k < |l| && m < l[k].MinDB {
      FirstReachedIs(l, m, k + 1);
    }
  }

  /** A margin takes the colour of the highest threshold it reaches, and none below all of them. */
  lemma HighestReached(l: seq<Bin>, m: real)
    requires Descends(l)
    ensures var i := BinIndex(l, Some(m));
      && (i == -1 <==> forall b <- l :: m < b.MinDB)
      && (i >= 0 ==> m >= l[i].MinDB && forall b <- l :: m >= b.MinDB ==> b.MinDB <= l[i].MinDB)
  {
    FirstReachedIs(l, m, 0);
  }

  /** Two margins are in the same bin exactly when they reach the same thresholds. */
  lemma SameBin(l: seq<Bin>, m: real, n: real)
    requires Descends(l)
    ensures BinIndex(l, Some(m)) == BinIndex(l, Some(n)) <==> forall b <- l :: m >= b.MinDB <==> n >= b.MinDB
  {
    FirstReachedIs(l, m, 0);
    FirstReachedIs(l, n, 0);
    var i, j := BinIndex(l, Some(m)), BinIndex(l, Some(n));
    if i >= 0 { assert l[i] in l; }
    if j >= 0 { assert l[j] in l; }
    if i == j {
      forall b | b in l ensures m >= b.MinDB <==> n >= b.MinDB {
        var k :| 0 <= k < |l| && l[k] == b;
      }
    }
  }
}
