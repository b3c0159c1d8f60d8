/**
 * Coverage margins stored as a grey image, one dB per step, and painted in the colours of a legend
 * (internal/plot/plot.go). PNG encoding itself is taken to be invertible.
 */
module MarginRaster {
  import opened GoMath
  import opened Options
  import opened Legend
  import Merge

  type Pixels = seq<Byte>

  datatype Picture = Gray(w: nat, h: nat, pix: Pixels) | Paletted(w: nat, h: nat, pix: Pixels) | Other

  /** Margins row by row; NaN is None. */
  datatype Margins = Margins(w: nat, h: nat, at: seq<Option<real>>) {
    ghost predicate Valid() {
      |at| == w * h
    }
  }

  const MARGIN_OFFSET := 128

  function Clamp(n: int, lo: int, hi: int): int {
    if n < lo then lo else if n > hi then hi else n
  }

  /** The grey of a margin; 0 is no data. */
  function Grey(m: Option<real>): Byte {
    if m.None? then 0 else Clamp(m.value.Floor + MARGIN_OFFSET, 1, 255)
  }

  function MarginOfGrey(v: Byte): Option<real> {
    if v == 0 then None else Some((v - MARGIN_OFFSET) as real)
  }

  /** What is kept of a margin: whole dB, from -127 to 127. */
  function Stored(m: Option<real>): Option<real> {
    if m.None? then None else Some(Clamp(m.value.Floor, -127, 127) as real)
  }

  lemma GreyReads(m: Option<real>)
    ensures MarginOfGrey(Grey(m)) == Stored(m)
  {
  }

  lemma GreyWritten(v: Byte)
    ensures Grey(MarginOfGrey(v)) == v
  {
  }

  /** A picture written by this program before margins were stored holds the bins of the default legend. */
  function MarginOfIndex(i: Byte): Option<real> {
    if 1 <= i <= |DEFAULT_LEGEND| then Some(DEFAULT_LEGEND[i - 1].MinDB) else None
  }

  // ---- encoding and decoding ----

  function GreyOf(r: Margins): Picture {
    Gray(r.w, r.h, seq(|r.at|, k requires 0 <= k < |r.at| => Grey(r.at[k])))
  }

  /** The margins as an 8-bit grey picture. */
  method MarginPicture(r: Margins) returns (p: Picture)
    requires r.Valid()
    ensures p == GreyOf(r)
  {
    var a := new Byte[r.w * r.h](_ => 0);
    for y := 0 to r.h
      invariant 0 <= y * r.w <= a.Length
      invariant forall k :: 0 <= k < y * r.w ==> a[k] == Grey(r.at[k])
      invariant forall k :: y * r.w <= k < a.Length ==> a[k] == 0
    {
      Merge.NextRow(y, r.w, r.h);
      for x := 0 to r.w
        invariant forall k :: 0 <= k < y * r.w + x ==> a[k] == Grey(r.at[k])
        invariant forall k :: y * r.w + x <= k < a.Length ==> a[k] == 0
      {
        var m := r.at[y * r.w + x];
        if m.Some? {
          a[y * r.w + x] := Clamp(m.value.Floor + MARGIN_OFFSET, 1, 255);
        }
      }
    }
    p := Gray(r.w, r.h, a[..]);
  }

  /** The margin a decoded pixel stands for; a paletted picture only yields thresholds. */
  function PixelMargin(gray: bool, v: Byte): Option<real> {
    if gray then MarginOfGrey(v) else MarginOfIndex(v)
  }

  function Read(p: Picture): (r: Option<Margins>)
    ensures r.Some? <==> !p.Other?
  {
    if p.Other? then None
    else Some(Margins(p.w, p.h, seq(|p.pix|, k requires 0 <= k < |p.pix| => PixelMargin(p.Gray?, p.pix[k]))))
  }

  method DecodeRaster(p: Picture) returns (r: Option<Margins>)
    requires !p.Other? ==> |p.pix| == p.w * p.h
    ensures r == Read(p) && (r.Some? ==> r.value.Valid())
  {
    if p.Other? {
      return None;
    }
    var n := p.w * p.h;
    var a := new Option<real>[n](_ => None);
    assert DecodedTo(p, a[..], 0);
    hide DecodedTo, Read;
    for y := 0 to p.h
      invariant 0 <= y * p.w <= n
      invariant DecodedTo(p, a[..], y * p.w)
    {
      Merge.NextRow(y, p.w, p.h);
      for x := 0 to p.w
        invariant DecodedTo(p, a[..], y * p.w + x)
      {
        DecodePixel(p, a, y * p.w + x);
      }
    }
    DecodedAll(p, a[..], n);
    r := Some(Margins(p.w, p.h, a[..]));
  }

  method DecodePixel(p: Picture, a: array<Option<real>>, k: nat)
    requires !p.Other? && k < a.Length && DecodedTo(p, a[..], k)
    modifies a
    ensures DecodedTo(p, a[..], k + 1)
  {
    ghost var before := a[..];
    var v := p.pix[k];
    if p.Gray? && v != 0 {
      a[k] := Some((v - MARGIN_OFFSET) as real);
    } else if p.Paletted? && 1 <= v <= |DEFAULT_LEGEND| {
      a[k] := Some(DEFAULT_LEGEND[v - 1].MinDB);
    }
    assert a[..] == before[k := PixelMargin(p.Gray?, p.pix[k])];
  }

  lemma DecodedAll(p: Picture, at: seq<Option<real>>, n: int)
    requires !p.Other? && n == |p.pix| && DecodedTo(p, at, n)
    ensures Read(p) == Some(Margins(p.w, p.h, at)) && |at| == |p.pix|
  {
    hide PixelMargin;
    assert Read(p).value.at == at;
  }

  ghost predicate DecodedTo(p: Picture, at: seq<Option<real>>, n: int)
    requires !p.Other?
  {
    && |at| == |p.pix|
    && forall k :: 0 <= k < |at| ==> at[k] == if k < n then PixelMargin(p.Gray?, p.pix[k]) else None
  }

  function Kept(r: Margins): Margins {
    r.(at := seq(|r.at|, k requires 0 <= k < |r.at| => Stored(r.at[k])))
  }

  /** Storing margins keeps them to whole dB between -127 and 127, and keeps where there are none. */
  lemma StoredAndRead(r: Margins)
    ensures Read(GreyOf(r)) == Some(Kept(r))
  {
    forall k | 0 <= k < |r.at| ensures PixelMargin(true, Grey(r.at[k])) == Stored(r.at[k]) {
      GreyReads(r.at[k]);
    }
    assert Read(GreyOf(r)).value.at == Kept(r).at;
  }

  /** Storing what was read writes the same picture again. */
  lemma ReadAndStored(p: Picture)
    requires p.Gray?
    ensures GreyOf(Read(p).value) == p
  {
    forall k | 0 <= k < |p.pix| ensures Grey(PixelMargin(true, p.pix[k])) == p.pix[k] {
      GreyWritten(p.pix[k]);
    }
    assert GreyOf(Read(p).value).pix == p.pix;
  }

  // ---- painting ----

  /** The transmitter cross: four pixels each way from the centre. */
  predicate OnCross(x: int, y: int, w: int, h: int) {
    || (y == h / 2 && -4 <= x - w / 2 <= 4)
    || (x == w / 2 && -4 <= y - h / 2 <= 4)
  }

  predicate Crossed(w: nat, h: nat, k: nat) {
    w > 0 && OnCross(k % w, k / w, w, h)
  }

  /** Index 0 is transparent, then one per bin, and the last one is the cross. */
  function PaintIndex(r: Margins, l: seq<Bin>, cross: bool, k: nat): Byte
    requires k < |r.at| && |l| <= MAX_BINS
  {
    if cross && Crossed(r.w, r.h, k) then |l| + 1 else BinIndex(l, r.at[k]) + 1
  }

  function PaintOf(r: Margins, l: seq<Bin>, cross: bool): Picture
    requires |l| <= MAX_BINS
  {
    Paletted(r.w, r.h, seq(|r.at|, k requires 0 <= k < |r.at| => PaintIndex(r, l, cross, k)))
  }

  ghost predicate PaintedTo(r: Margins, l: seq<Bin>, pix: seq<Byte>, n: int)
    requires |l| <= MAX_BINS
  {
    |pix| == |r.at| && forall k :: 0 <= k < |pix| ==> pix[k] == if k < n then BinIndex(l, r.at[k]) + 1 else 0
  }

  /** The arms of the cross drawn so far, from -4 up to but not including d. */
  predicate OnArms(x: int, y: int, w: int, h: int, d: int) {
    || (y == h / 2 && -4 <= x - w / 2 < d)
    || (x == w / 2 && -4 <= y - h / 2 < d)
  }

  ghost predicate CrossedTo(r: Margins, l: seq<Bin>, pix: seq<Byte>, d: int)
    requires |l| <= MAX_BINS && r.w > 0
  {
    |pix| == |r.at| && forall k :: 0 <= k < |pix| ==>
      pix[k] == if OnArms(k % r.w, k / r.w, r.w, r.h, d) then |l| + 1 else BinIndex(l, r.at[k]) + 1
  }

  function Palette(l: seq<Bin>): seq<Color> {
    [Color(0, 0, 0, 0)] + seq(|l|, i requires 0 <= i < |l| => l[i].Colour) + [Color(0, 0, 0, 255)]
  }

  /** The colours the indices stand for. */
  lemma PaletteColours(r: Margins, l: seq<Bin>, cross: bool, k: nat)
    requires k < |r.at| && IsLegend(l)
    ensures var c := Palette(l)[PaintIndex(r, l, cross, k)];
      if cross && Crossed(r.w, r.h, k) then c == Color(0, 0, 0, 255)
      else var i := BinIndex(l, r.at[k]); if i == -1 then c.A == 0 else c == l[i].Colour
  {
  }

  method Paint(r: Margins, l: seq<Bin>, cross: bool) returns (p: Picture, palette: seq<Color>)
    requires r.Valid() && |l| <= MAX_BINS
    ensures p == PaintOf(r, l, cross) && palette == Palette(l)
  {
    palette := Palette(l);
    var a := new Byte[r.w * r.h](_ => 0);
    PaintBins(r, l, a);
    if cross && a.Length > 0 {
      PaintCross(r, l, a);
    }
    PaintedAll(r, l, cross, a[..]);
    p := Paletted(r.w, r.h, a[..]);
  }

  method PaintBins(r: Margins, l: seq<Bin>, a: array<Byte>)
    requires r.Valid() && |l| <= MAX_BINS && a.Length == |r.at| && forall k :: 0 <= k < a.Length ==> a[k] == 0
    modifies a
    ensures PaintedTo(r, l, a[..], |r.at|)
  {
    assert PaintedTo(r, l, a[..], 0);
    hide PaintedTo, BinIndex;
    for y := 0 to r.h
      invariant 0 <= y * r.w <= a.Length
      invariant PaintedTo(r, l, a[..], y * r.w)
    {
      Merge.NextRow(y, r.w, r.h);
      for x := 0 to r.w
        invariant PaintedTo(r, l, a[..], y * r.w + x)
      {
        PaintPixel(r, l, a, y * r.w + x);
      }
    }
  }

  method PaintPixel(r: Margins, l: seq<Bin>, a: array<Byte>, k: nat)
    requires |l| <= MAX_BINS && k < a.Length && PaintedTo(r, l, a[..], k)
    modifies a
    ensures PaintedTo(r, l, a[..], k + 1)
  {
    ghost var before := a[..];
    var i := FindBin(l, r.at[k]);
    if i >= 0 {
      a[k] := i + 1;
    }
    assert a[..] == before[k := (BinIndex(l, r.at[k]) + 1) as Byte];
  }

  method PaintCross(r: Margins, l: seq<Bin>, a: array<Byte>)
    requires |l| <= MAX_BINS && r.w > 0 && r.Valid() && PaintedTo(r, l, a[..], |r.at|)
    modifies a
    ensures CrossedTo(r, l, a[..], 5)
  {
    var cx, cy := r.w / 2, r.h / 2;
    assert CrossedTo(r, l, a[..], -4);
    hide PaintedTo, CrossedTo;
    for d := -4 to 5
      invariant CrossedTo(r, l, a[..], d)
    {
      ghost var before := a[..];
      SetIndex(r, a, cx + d, cy, |l| + 1);
      SetIndex(r, a, cx, cy + d, |l| + 1);
      CrossGrows(r, l, before, a[..], d);
    }
  }

  /** A pixel outside the picture is left alone. */
  method SetIndex(r: Margins, a: array<Byte>, x: int, y: int, v: Byte)
    requires r.Valid() && a.Length == |r.at| && r.w > 0
    modifies a
    ensures forall k :: 0 <= k < a.Length ==> a[k] == if k % r.w == x && k / r.w == y then v else old(a[k])
  {
    if 0 <= x < r.w && 0 <= y < r.h {
      Merge.PixelIndex(x, y, r.w, r.h);
      a[y * r.w + x] := v;
    }
    forall k | 0 <= k < a.Length ensures a[k] == if k % r.w == x && k / r.w == y then v else old(a[k]) {
      PlaceOf(k, r.w, r.h);
    }
  }

  lemma PlaceOf(k: nat, w: nat, h: nat)
    requires w > 0 && k < w * h
    ensures 0 <= k % w < w && 0 <= k / w < h && k == k / w * w + k % w
  {
    assert h == 0 ==> w * h == 0;
    var x, y := Merge.PixelOf(k, w, h);
    Merge.PixelIndex(x, y, w, h);
  }

  lemma CrossGrows(r: Margins, l: seq<Bin>, before: seq<Byte>, pix: seq<Byte>, d: int)
    requires |l| <= MAX_BINS && r.w > 0 && -4 <= d && CrossedTo(r, l, before, d) && |pix| == |before|
    requires forall k :: 0 <= k < |pix| ==>
               pix[k] == if (k % r.w == r.w / 2 + d && k / r.w == r.h / 2) || (k % r.w == r.w / 2 && k / r.w == r.h / 2 + d)
                         then |l| + 1 else before[k]
    ensures CrossedTo(r, l, pix, d + 1)
  {
    forall k | 0 <= k < |pix|
      ensures pix[k] == if OnArms(k % r.w, k / r.w, r.w, r.h, d + 1) then |l| + 1 else BinIndex(l, r.at[k]) + 1
    {
      var x, y := k % r.w, k / r.w;
      var reached := (x == r.w / 2 + d && y == r.h / 2) || (x == r.w / 2 && y == r.h / 2 + d);
      assert OnArms(x, y, r.w, r.h, d + 1) == (OnArms(x, y, r.w, r.h, d) || reached);
    }
  }

  lemma PaintedAll(r: Margins, l: seq<Bin>, cross: bool, pix: seq<Byte>)
    requires |l| <= MAX_BINS && r.Valid()
    requires if cross && |r.at| > 0 then r.w > 0 && CrossedTo(r, l, pix, 5) else PaintedTo(r, l, pix, |r.at|)
    ensures PaintOf(r, l, cross) == Paletted(r.w, r.h, pix)
  {
    forall k | 0 <= k < |pix| ensures pix[k] == PaintIndex(r, l, cross, k) {
    }
    assert PaintOf(r, l, cross).pix == pix;
  }

  // ---- rendering from what is stored ----

  /** A threshold that whole dB from -127 to 127 can tell. */
  predicate Whole(t: real) {
    t == t.Floor as real && t >= -126.0
  }

  ghost predicate AllWhole(l: seq<Bin>) {
    forall b: Bin :: b in l ==> Whole(b.MinDB)
  }

  lemma WholeIsKept(t: real, m: real)
    requires Whole(t) && t <= MAX_LEGEND_DB
    ensures m >= t <==> Stored(Some(m)).value >= t
  {
  }

  /** A margin that changes bins when it is stored: the threshold itself, or one far below all. */
  function Changed(t: real): real {
    if t == t.Floor as real then -200.0 else t
  }

  lemma ChangedBin(t: real)
    requires InRange(t) && !Whole(t)
    ensures var m := Changed(t); !(m >= t <==> Stored(Some(m)).value >= t)
  {
  }

  ghost predicate RendersAlike(l: seq<Bin>)
    requires |l| <= MAX_BINS
  {
    forall r: Margins, cross | r.Valid() :: PaintOf(Read(GreyOf(r)).value, l, cross) == PaintOf(r, l, cross)
  }

  lemma AlikeWhenWhole(l: seq<Bin>, r: Margins, cross: bool)
    requires IsLegend(l) && AllWhole(l)
    ensures PaintOf(Read(GreyOf(r)).value, l, cross) == PaintOf(r, l, cross)
  {
    StoredAndRead(r);
    forall k | 0 <= k < |r.at| ensures PaintIndex(Kept(r), l, cross, k) == PaintIndex(r, l, cross, k) {
      if r.at[k].Some? {
        KeptBin(l, r.at[k].value);
      }
    }
    assert PaintOf(Kept(r), l, cross).pix == PaintOf(r, l, cross).pix;
  }

  lemma KeptBin(l: seq<Bin>, m: real)
    requires IsLegend(l) && AllWhole(l)
    ensures BinIndex(l, Stored(Some(m))) == BinIndex(l, Some(m))
  {
    var n := Stored(Some(m)).value;
    forall b | b in l ensures m >= b.MinDB <==> n >= b.MinDB {
      var i :| 0 <= i < |l| && l[i] == b;
      WholeIsKept(b.MinDB, m);
    }
    SameBin(l, m, n);
  }

  /**
   * Margins in any coverage are rendered alike from memory and from storage exactly when every threshold of the legend
   * is a whole number of dB and none is the lowest one allowed.
   */
  lemma RenderingPreserved(l: seq<Bin>)
    requires IsLegend(l)
    ensures RendersAlike(l) <==> AllWhole(l)
  {
    if AllWhole(l) {
      forall r: Margins, cross | r.Valid() ensures PaintOf(Read(GreyOf(r)).value, l, cross) == PaintOf(r, l, cross) {
        AlikeWhenWhole(l, r, cross);
      }
    } else {
      var b :| b in l && !Whole(b.MinDB);
      var i :| 0 <= i < |l| && l[i] == b;
      RendersDifferently(l, b);
    }
  }

  lemma RendersDifferently(l: seq<Bin>, b: Bin)
    requires IsLegend(l) && b in l && InRange(b.MinDB) && !Whole(b.MinDB)
    ensures !RendersAlike(l)
  {
    var m := Changed(b.MinDB);
    var r := Margins(1, 1, [Some(m)]);
    var n := Stored(Some(m)).value;
    ChangedBin(b.MinDB);
    SameBin(l, m, n);
    StoredAndRead(r);
    var p, q := PaintOf(r, l, false), PaintOf(Kept(r), l, false);
    assert p.pix[0] == BinIndex(l, Some(m)) + 1 && q.pix[0] == BinIndex(l, Some(n)) + 1;
  }

  /** An old paletted picture renders to itself in the default legend. */
  lemma PalettedRenders(r: Margins, cross: bool)
    ensures PaintOf(Read(PaintOf(r, DEFAULT_LEGEND, cross)).value, DEFAULT_LEGEND, cross) == PaintOf(r, DEFAULT_LEGEND, cross)
  {
    var p := PaintOf(r, DEFAULT_LEGEND, cross);
    var q := Read(p).value;
    forall k | 0 <= k < |r.at| ensures PaintIndex(q, DEFAULT_LEGEND, cross, k) == PaintIndex(r, DEFAULT_LEGEND, cross, k) {
      if !(cross && Crossed(r.w, r.h, k)) {
        assert q.at[k] == MarginOfIndex(BinIndex(DEFAULT_LEGEND, r.at[k]) + 1);
        ThresholdBin(BinIndex(DEFAULT_LEGEND, r.at[k]));
      }
    }
    assert PaintOf(q, DEFAULT_LEGEND, cross).pix == p.pix;
  }

  lemma ThresholdBin(i: int)
    requires -1 <= i < |DEFAULT_LEGEND|
    ensures BinIndex(DEFAULT_LEGEND, MarginOfIndex(i + 1)) == i
  {
    if i >= 0 {
      DefaultIsLegend();
      var m := DEFAULT_LEGEND[i].MinDB;
      FirstReachedIs(DEFAULT_LEGEND, m, 0);
      var j := BinIndex(DEFAULT_LEGEND, Some(m));
      assert j >= 0 && !(j < i) && !(i < j);
    }
  }

  ghost predicate StoredAs(l: seq<Bin>, mins: seq<Option<real>>, colors: seq<string>) {
    IsLegend(l) && mins == Mins(l) && colors == Hexes(l)
  }

  /** The stored picture, or one painted from the stored margins in the stored legend. */
  method RenderRaster(margin: Option<Picture>, png: Picture, mins: seq<Option<real>>, colors: seq<string>)
    returns (p: Option<Picture>)
    requires margin.Some? && !margin.value.Other? ==> |margin.value.pix| == margin.value.w * margin.value.h
    ensures margin.None? ==> p == Some(png)
    ensures margin == Some(Other) <==> p.None?
    ensures forall r: Margins, l | margin == Some(GreyOf(r)) && StoredAs(l, mins, colors) ::
              p == Some(PaintOf(Kept(r), l, true))
    ensures forall r: Margins, l | margin == Some(GreyOf(r)) && StoredAs(l, mins, colors) ::
              AllWhole(l) ==> p == Some(PaintOf(r, l, true))
  {
    if margin.None? {
      return Some(png);
    }
    var m := DecodeRaster(margin.value);
    if m.None? {
      return None;
    }
    var legend := LegendOr(mins, colors);
    var painted, palette := Paint(m.value, legend, true);
    p := Some(painted);
    forall r: Margins, l | margin == Some(GreyOf(r)) && StoredAs(l, mins, colors)
      ensures p == Some(PaintOf(Kept(r), l, true))
      ensures AllWhole(l) ==> p == Some(PaintOf(r, l, true))
    {
      StoredAndRead(r);
      StoredLegend(l);
      if AllWhole(l) {
        AlikeWhenWhole(l, r, true);
      }
    }
  }

  /** A pixel of one of the nine marks the painting loop sets in each direction. */
  predicate Mark(x: int, y: int, w: int, h: int, d: int) {
    -4 <= d <= 4 && ((x, y) == (w / 2 + d, h / 2) || (x, y) == (w / 2, h / 2 + d))
  }

  /** The cross is the centre and the four pixels next to it each way, where they are in the picture. */
  lemma CrossIs(x: int, y: int, w: int, h: int)
    ensures OnCross(x, y, w, h) <==> exists d :: Mark(x, y, w, h, d)
  {
    if OnCross(x, y, w, h) {
      assert Mark(x, y, w, h, x - w / 2) || Mark(x, y, w, h, y - h / 2);
    }
  }
}
