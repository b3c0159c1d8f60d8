/** Merging coverage rasters of different grids onto one grid (internal/coverage/merge.go). A NaN margin is None. */
module Merge {
  import opened GoMath
  import opened Options

  datatype Raster = Raster(W: int, H: int, Margin: seq<Option<real>>, North: real, South: real, East: real, West: real) {
    /** What Merge checks of an input before using it. */
    predicate Usable() {
      W > 0 && H > 0 && |Margin| == W * H
    }

    /** The box of every computed raster. */
    predicate Boxed() {
      North > South && East > West
    }

    function At(x: int, y: int): Option<real>
      requires Usable() && 0 <= x < W && 0 <= y < H
    {
      PixelIndex(x, y, W, H);
      Margin[y * W + x]
    }

    /** The size of a cell; only usable rasters are asked. */
    function LatCell(): real {
      if H > 0 then (North - South) / H as real else 0.0
    }

    function LonCell(): real {
      if W > 0 then (East - West) / W as real else 0.0
    }

    /** The centre of output row y and of output column x. */
    function Lat(y: int): real
      requires H != 0
    {
      North - (y as real + 0.5) * (North - South) / H as real
    }

    function Lon(x: int): real
      requires W != 0
    {
      West + (x as real + 0.5) * (East - West) / W as real
    }

    predicate Covers(lat: real, lon: real) {
      !(lat > North || lat < South || lon < West || lon > East)
    }
  }

  const EMPTY := Raster(0, 0, [], 0.0, 0.0, 0.0, 0.0)
  const MAX_PIXELS: int := 9_000_000

  lemma PixelIndex(x: int, y: int, w: int, h: int)
    requires 0 <= x < w && 0 <= y < h
    ensures 0 <= y * w + x < w * h
    ensures (y * w + x) / w == y && (y * w + x) % w == x
  {
    RowInside(y, w, h);
    Remainder(y * w + x, w, y, x);
  }

  lemma RowInside(y: int, w: int, h: int)
    requires 0 <= y < h && w >= 0
    ensures 0 <= y * w && y * w + w <= w * h
  {
    assert (y + 1) * w <= h * w;
  }

  // ---- sampling ----

  /** The cell of a row of m cells over a span s that the offset u falls in. */
  function Cell(u: real, s: real, m: int): int
    requires s != 0.0
  {
    var k := Trunc(u / s * m as real);
    if k < m - 1 then k else m - 1
  }

  lemma CellIn(u: real, s: real, m: int)
    requires 0.0 <= u && 0.0 < s && m > 0
    ensures 0 <= Cell(u, s, m) < m
  {
    assert u / s >= 0.0;
    assert u / s * m as real >= 0.0;
  }

  /** What raster r says about the position. */
  function Sample(r: Raster, lat: real, lon: real): Option<real>
    requires r.Usable() && r.Boxed() && r.Covers(lat, lon)
  {
    CellIn(lon - r.West, r.East - r.West, r.W);
    CellIn(r.North - lat, r.North - r.South, r.H);
    r.At(Cell(lon - r.West, r.East - r.West, r.W), Cell(r.North - lat, r.North - r.South, r.H))
  }

  ghost predicate Good(rs: seq<Raster>) {
    forall i :: 0 <= i < |rs| ==> rs[i].Usable() && rs[i].Boxed()
  }

  ghost predicate Says(r: Raster, lat: real, lon: real, v: real)
    requires r.Usable() && r.Boxed()
  {
    r.Covers(lat, lon) && Sample(r, lat, lon) == Some(v)
  }

  /** best is the highest margin any of the rasters has at the position, None when none has one. */
  ghost predicate IsBest(rs: seq<Raster>, lat: real, lon: real, best: Option<real>)
    requires Good(rs)
  {
    && (forall r, v | r in rs && Says(r, lat, lon, v) :: best.Some? && v <= best.value)
    && (best.Some? ==> exists r <- rs :: Says(r, lat, lon, best.value))
  }

  // ---- the output grid ----

  /** v is the highest f of the rasters, as far as the first n of them can tell. */
  ghost predicate IsMaxOf(rs: seq<Raster>, n: nat, f: Raster -> real, v: real)
    requires n <= |rs|
  {
    (exists k :: 0 <= k < |rs| && f(rs[k]) == v) && forall k :: 0 <= k < n ==> f(rs[k]) <= v
  }

  ghost predicate IsMinOf(rs: seq<Raster>, n: nat, f: Raster -> real, v: real)
    requires n <= |rs|
  {
    (exists k :: 0 <= k < |rs| && f(rs[k]) == v) && forall k :: 0 <= k < n ==> v <= f(rs[k])
  }

  ghost predicate IsMax(rs: seq<Raster>, f: Raster -> real, v: real) {
    IsMaxOf(rs, |rs|, f, v)
  }

  ghost predicate IsMin(rs: seq<Raster>, f: Raster -> real, v: real) {
    IsMinOf(rs, |rs|, f, v)
  }

  lemma FirstIs(rs: seq<Raster>, f: Raster -> real, v: real)
    requires rs != [] && v == f(rs[0])
    ensures IsMaxOf(rs, 0, f, v) && IsMinOf(rs, 0, f, v)
  {
  }

  lemma MaxStep(rs: seq<Raster>, n: nat, f: Raster -> real, v: real, w: real)
    requires n < |rs| && IsMaxOf(rs, n, f, v) && w == Max(v, f(rs[n]))
    ensures IsMaxOf(rs, n + 1, f, w)
  {
    assert f(rs[n]) <= w;
  }

  lemma MinStep(rs: seq<Raster>, n: nat, f: Raster -> real, v: real, w: real)
    requires n < |rs| && IsMinOf(rs, n, f, v) && w == Min(v, f(rs[n]))
    ensures IsMinOf(rs, n + 1, f, w)
  {
    assert w <= f(rs[n]);
  }

  const NORTH_OF := (r: Raster) => r.North
  const SOUTH_OF := (r: Raster) => r.South
  const EAST_OF := (r: Raster) => r.East
  const WEST_OF := (r: Raster) => r.West
  const LAT_CELL_OF := (r: Raster) => r.LatCell()
  const LON_CELL_OF := (r: Raster) => r.LonCell()

  /** The number of cells of at most size d that fill the span. */
  function Cells(span: real, d: real): int
    requires d != 0.0
  {
    Ceil(span / d)
  }

  function Shrunk(n: int, f: real): int
    requires f != 0.0
  {
    Ceil(n as real / f)
  }

  /** The factor by which both sides of a grid over the cap are reduced. */
  function Factor(w: int, h: int, libm: Libm): real {
    (libm.sqrt)((w * h) as real / MAX_PIXELS as real)
  }

  function Side(n: int, w: int, h: int, libm: Libm): int
    requires w * h > MAX_PIXELS ==> Factor(w, h, libm) != 0.0
  {
    if w * h > MAX_PIXELS then Shrunk(n, Factor(w, h, libm)) else n
  }

  ghost predicate Bounds(rs: seq<Raster>, out: Raster) {
    && IsMax(rs, NORTH_OF, out.North) && IsMin(rs, SOUTH_OF, out.South)
    && IsMax(rs, EAST_OF, out.East) && IsMin(rs, WEST_OF, out.West)
  }

  /** The finest grid of the inputs over all their bounds has w by h cells. */
  ghost predicate Finest(rs: seq<Raster>, out: Raster, dLat: real, dLon: real, w: int, h: int)
    requires Good(rs)
  {
    && IsMin(rs, LAT_CELL_OF, dLat) && IsMin(rs, LON_CELL_OF, dLon) && dLat > 0.0 && dLon > 0.0
    && w == Cells(out.East - out.West, dLon) && h == Cells(out.North - out.South, dLat)
  }

  ghost predicate Filled(rs: seq<Raster>, out: Raster)
    requires Good(rs)
  {
    out.Usable() && forall x, y | 0 <= x < out.W && 0 <= y < out.H :: IsBest(rs, out.Lat(y), out.Lon(x), out.At(x, y))
  }

  /** out is the merge of two or more usable rasters. */
  ghost predicate Merged(rs: seq<Raster>, libm: Libm, out: Raster)
    requires Good(rs) && libm.Valid()
  {
    && Bounds(rs, out) && Filled(rs, out)
    && exists dLat, dLon, w, h :: Finest(rs, out, dLat, dLon, w, h) && w > 0 && h > 0
        && out.W == Side(w, w, h, libm) && out.H == Side(h, w, h, libm)
  }

  function UsableOf(rs: seq<Raster>): (r: seq<Raster>)
    ensures forall x :: x in r <==> x in rs && x.Usable()
  {
    if rs == [] then []
    else if rs[|rs| - 1].Usable() then UsableOf(rs[..|rs| - 1]) + [rs[|rs| - 1]]
    else UsableOf(rs[..|rs| - 1])
  }

  /** Two or more usable rasters have to have boxes, by whose spans Merge divides. */
  ghost predicate Mergeable(rs: seq<Raster>) {
    |UsableOf(rs)| >= 2 ==> Good(UsableOf(rs))
  }

  /** What Merge promises of its result. */
  ghost predicate MergeOf(rs: seq<Raster>, libm: Libm, out: Raster)
    requires Mergeable(rs) && libm.Valid()
  {
    var used := UsableOf(rs);
    if |used| == 0 then out == EMPTY else if |used| == 1 then out == used[0] else Merged(used, libm, out)
  }

  // ---- the program ----

  method Merge(rs: seq<Raster>, libm: Libm) returns (out: Raster)
    requires Mergeable(rs) && libm.Valid()
    ensures MergeOf(rs, libm, out)
  {
    var used := [];
    for i := 0 to |rs|
      invariant used == UsableOf(rs[..i])
    {
      assert rs[..i + 1][..i] == rs[..i];
      if rs[i].Usable() {
        used := used + [rs[i]];
      }
    }
    assert rs[..|rs|] == rs;
    if |used| == 0 {
      return EMPTY;
    }
    if |used| == 1 {
      return used[0];
    }
    out := MergeUsable(used, libm);
  }

  method MergeUsable(rs: seq<Raster>, libm: Libm) returns (out: Raster)
    requires Good(rs) && rs != [] && libm.Valid()
    ensures Merged(rs, libm, out)
  {
    var frame, dLat, dLon := Extent(rs);
    ExtentPositive(rs, frame, dLat, dLon);
    var w, h := Cells(frame.East - frame.West, dLon), Cells(frame.North - frame.South, dLat);
    CellsCover(frame.East - frame.West, dLon);
    CellsCover(frame.North - frame.South, dLat);
    ghost var fullW, fullH := w, h;
    if w * h > MAX_PIXELS {
      FactorPositive(w, h, libm);
      var f := Factor(w, h, libm);
      ShrunkPositive(w, f);
      ShrunkPositive(h, f);
      w, h := Shrunk(w, f), Shrunk(h, f);
    }
    var margin := Fill(rs, frame.(W := w, H := h));
    out := frame.(W := w, H := h, Margin := margin);
    assert Finest(rs, out, dLat, dLon, fullW, fullH);
    hide Filled, Good;
  }

  /** The bounds, in a raster without pixels, and the smallest cells, as far as the first n inputs tell. */
  ghost predicate ExtentOf(rs: seq<Raster>, n: nat, frame: Raster, dLat: real, dLon: real)
    requires n <= |rs|
  {
    && IsMaxOf(rs, n, NORTH_OF, frame.North) && IsMinOf(rs, n, SOUTH_OF, frame.South)
    && IsMaxOf(rs, n, EAST_OF, frame.East) && IsMinOf(rs, n, WEST_OF, frame.West)
    && IsMinOf(rs, n, LAT_CELL_OF, dLat) && IsMinOf(rs, n, LON_CELL_OF, dLon)
  }

  function Widened(frame: Raster, r: Raster): Raster {
    frame.(North := Max(frame.North, r.North), South := Min(frame.South, r.South),
           East := Max(frame.East, r.East), West := Min(frame.West, r.West))
  }

  lemma ExtentStep(rs: seq<Raster>, n: nat, frame: Raster, dLat: real, dLon: real)
    requires n < |rs| && ExtentOf(rs, n, frame, dLat, dLon)
    ensures var r := rs[n];
      ExtentOf(rs, n + 1, Widened(frame, r), Min(dLat, r.LatCell()), Min(dLon, r.LonCell()))
  {
    hide IsMaxOf, IsMinOf, Raster.LatCell, Raster.LonCell, Max, Min;
    var r := rs[n];
    MaxStep(rs, n, NORTH_OF, frame.North, Max(frame.North, r.North));
    MinStep(rs, n, SOUTH_OF, frame.South, Min(frame.South, r.South));
    MaxStep(rs, n, EAST_OF, frame.East, Max(frame.East, r.East));
    MinStep(rs, n, WEST_OF, frame.West, Min(frame.West, r.West));
    MinStep(rs, n, LAT_CELL_OF, dLat, Min(dLat, r.LatCell()));
    MinStep(rs, n, LON_CELL_OF, dLon, Min(dLon, r.LonCell()));
  }

  lemma ExtentBegins(rs: seq<Raster>, frame: Raster)
    requires rs != [] && frame == rs[0].(W := 0, H := 0, Margin := [])
    ensures ExtentOf(rs, 0, frame, rs[0].LatCell(), rs[0].LonCell())
  {
    FirstIs(rs, NORTH_OF, frame.North);
    FirstIs(rs, SOUTH_OF, frame.South);
    FirstIs(rs, EAST_OF, frame.East);
    FirstIs(rs, WEST_OF, frame.West);
    FirstIs(rs, LAT_CELL_OF, rs[0].LatCell());
    FirstIs(rs, LON_CELL_OF, rs[0].LonCell());
  }

  /** The loop over the inputs. */
  method Extent(rs: seq<Raster>) returns (frame: Raster, dLat: real, dLon: real)
    requires rs != []
    ensures ExtentOf(rs, |rs|, frame, dLat, dLon)
  {
    frame := rs[0].(W := 0, H := 0, Margin := []);
    dLat, dLon := rs[0].LatCell(), rs[0].LonCell();
    ExtentBegins(rs, frame);
    hide ExtentOf, Raster.LatCell, Raster.LonCell;
    for i := 0 to |rs|
      invariant ExtentOf(rs, i, frame, dLat, dLon)
    {
      var r := rs[i];
      ExtentStep(rs, i, frame, dLat, dLon);
      frame := Widened(frame, r);
      dLat, dLon := Min(dLat, r.LatCell()), Min(dLon, r.LonCell());
    }
  }

  lemma ExtentPositive(rs: seq<Raster>, out: Raster, dLat: real, dLon: real)
    requires Good(rs) && rs != [] && Bounds(rs, out) && IsMin(rs, LAT_CELL_OF, dLat) && IsMin(rs, LON_CELL_OF, dLon)
    ensures out.Boxed() && dLat > 0.0 && dLon > 0.0
  {
    forall r | r in rs ensures LAT_CELL_OF(r) > 0.0 && LON_CELL_OF(r) > 0.0 {
      OverPositive(r.North - r.South, r.H);
      OverPositive(r.East - r.West, r.W);
    }
    assert NORTH_OF(rs[0]) <= out.North && SOUTH_OF(rs[0]) >= out.South;
    assert EAST_OF(rs[0]) <= out.East && WEST_OF(rs[0]) >= out.West;
  }

  lemma OverPositive(s: real, m: int)
    requires s > 0.0 && m > 0
    ensures s / m as real > 0.0
  {
  }

  lemma CeilBounds(x: real)
    ensures x <= Ceil(x) as real < x + 1.0
  {
  }

  lemma CellsCover(span: real, d: real)
    requires span > 0.0 && d > 0.0
    ensures Cells(span, d) > 0 && span / Cells(span, d) as real <= d
  {
    assert span / d > 0.0;
    CeilBounds(span / d);
    var n := Cells(span, d) as real;
    assert span == span / d * d <= n * d;
  }

  lemma FactorPositive(w: int, h: int, libm: Libm)
    requires w * h > MAX_PIXELS && libm.Valid()
    ensures Factor(w, h, libm) > 0.0
  {
    assert (w * h) as real / MAX_PIXELS as real > 0.0;
  }

  lemma ShrunkPositive(n: int, f: real)
    requires n > 0 && f > 0.0
    ensures Shrunk(n, f) > 0
  {
    assert n as real / f > 0.0;
  }

  /** The margins row by row, each the best one at the centre of its pixel. */
  method Fill(rs: seq<Raster>, frame: Raster) returns (margin: seq<Option<real>>)
    requires Good(rs) && frame.W > 0 && frame.H > 0
    ensures |margin| == frame.W * frame.H
    ensures Filled(rs, frame.(Margin := margin))
  {
    hide IsBest, Good, Raster.Lat, Raster.Lon, Raster.Usable, Raster.At;
    var w, h := frame.W, frame.H;
    assert w * h > 0;
    var a := new Option<real>[w * h];
    for y := 0 to h
      invariant y * w <= w * h
      invariant forall k :: 0 <= k < y * w ==> PixelBest(rs, frame, k, a[k])
    {
      NextRow(y, w, h);
      var lat := frame.Lat(y);
      for x := 0 to w
        invariant forall k :: 0 <= k < y * w + x ==> PixelBest(rs, frame, k, a[k])
      {
        PixelIndex(x, y, w, h);
        a[y * w + x] := Best(rs, lat, frame.Lon(x));
        assert PixelBest(rs, frame, y * w + x, a[y * w + x]);
      }
    }
    margin := a[..];
    FilledByPixels(rs, frame, margin);
  }

  lemma NextRow(y: int, w: int, h: int)
    requires 0 <= y < h && w >= 0
    ensures y * w + w == (y + 1) * w <= w * h
  {
    assert (y + 1) * w <= h * w;
  }

  ghost predicate PixelBest(rs: seq<Raster>, frame: Raster, k: int, best: Option<real>)
    requires Good(rs) && frame.W > 0 && frame.H > 0
  {
    IsBest(rs, frame.Lat(k / frame.W), frame.Lon(k % frame.W), best)
  }

  lemma FilledByPixels(rs: seq<Raster>, frame: Raster, margin: seq<Option<real>>)
    requires Good(rs) && frame.W > 0 && frame.H > 0 && |margin| == frame.W * frame.H
    requires forall k :: 0 <= k < |margin| ==> PixelBest(rs, frame, k, margin[k])
    ensures Filled(rs, frame.(Margin := margin))
  {
    hide IsBest, Good, Raster.Lat, Raster.Lon, Raster.At;
    var full := frame.(Margin := margin);
    forall x, y | 0 <= x < full.W && 0 <= y < full.H ensures IsBest(rs, full.Lat(y), full.Lon(x), full.At(x, y)) {
      var k := AtIndex(full, x, y);
      assert PixelBest(rs, frame, k, margin[k]);
      SamePlace(full, frame, x, y);
    }
  }

  lemma AtIndex(r: Raster, x: int, y: int) returns (k: int)
    requires r.Usable() && 0 <= x < r.W && 0 <= y < r.H
    ensures 0 <= k < |r.Margin| && k / r.W == y && k % r.W == x && r.At(x, y) == r.Margin[k]
  {
    PixelIndex(x, y, r.W, r.H);
    k := y * r.W + x;
  }

  lemma SamePlace(r: Raster, r2: Raster, x: int, y: int)
    requires r.W != 0 && r.H != 0 && r2 == r.(Margin := r2.Margin)
    ensures r.Lat(y) == r2.Lat(y) && r.Lon(x) == r2.Lon(x)
  {
  }

  method Best(rs: seq<Raster>, lat: real, lon: real) returns (best: Option<real>)
    requires Good(rs)
    ensures IsBest(rs, lat, lon, best)
  {
    best := None;
    for i := 0 to |rs|
      invariant forall k, v | 0 <= k < i && Says(rs[k], lat, lon, v) :: best.Some? && v <= best.value
      invariant best.Some? ==> exists r <- rs :: Says(r, lat, lon, best.value)
    {
      var r := rs[i];
      if r.Covers(lat, lon) {
        var v := Sample(r, lat, lon);
        if v.Some? && (best.None? || v.value > best.value) {
          best := v;
          assert Says(r, lat, lon, best.value);
        }
      }
    }
  }

  // ---- no pixel is lost ----

  /** Where the k-th of n cells over a span has its centre. */
  function Centre(k: int, n: int, span: real): real
    requires n != 0
  {
    (k as real + 0.5) * span / n as real
  }

  /**
   * On one axis: m cells over [a, a + s] inside n cells over [0, span] that are no larger. Each of the m cells holds
   * the centre of one of the n.
   */
  lemma CellSampled(a: real, s: real, m: int, span: real, n: int, i: int) returns (k: int)
    requires 0.0 <= a && 0.0 < s && a + s <= span && m > 0 && n > 0 && 0 <= i < m
    requires span / n as real <= s / m as real
    ensures 0 <= k < n && a <= Centre(k, n, span) <= a + s && Cell(Centre(k, n, span) - a, s, m) == i
  {
    var c, d := span / n as real, s / m as real;
    OverPositive(span, n);
    var x := a + i as real * d;
    k := Ceil(x / c - 0.5);
    CentreWithin(x, c, k);
    EndsWithin(s, m, i, d);
    assert (k as real + 0.5) * c < span;
    CountBelow(k, n, c, span);
    CentreIs(k, n, span, c);
    CellIs(Centre(k, n, span) - a, s, m, i, d);
  }

  lemma CentreIs(k: int, n: int, span: real, c: real)
    requires n > 0 && c == span / n as real
    ensures Centre(k, n, span) == (k as real + 0.5) * c
  {
    OverTimes(k as real + 0.5, span, n as real);
  }

  lemma OverTimes(p: real, q: real, n: real)
    requires n > 0.0
    ensures p * q / n == p * (q / n)
  {
    assert q == q / n * n;
    assert p * q == p * (q / n) * n;
  }

  lemma CentreWithin(x: real, c: real, k: int)
    requires x >= 0.0 && c > 0.0 && k == Ceil(x / c - 0.5)
    ensures k >= 0
    ensures x <= (k as real + 0.5) * c < x + c
  {
    var q := x / c;
    assert q >= 0.0;
    CeilBounds(q - 0.5);
    assert Times(q, c) == x;
    WithinOne(q, k as real + 0.5, c, x);
  }

  lemma WithinOne(q: real, p: real, c: real, x: real)
    requires q <= p < q + 1.0 && c > 0.0 && Times(q, c) == x
    ensures x <= Times(p, c) < x + c
  {
    hide Times;
    PartOf(p - q, c);
    Difference(p, q, c);
  }

  lemma PartOf(d: real, c: real)
    requires 0.0 <= d < 1.0 && c > 0.0
    ensures 0.0 <= Times(d, c) < c
  {
    assert (1.0 - d) * c > 0.0;
  }

  lemma Difference(p: real, q: real, c: real)
    ensures Times(p - q, c) == Times(p, c) - Times(q, c)
  {
  }

  lemma EndsWithin(s: real, m: int, i: int, d: real)
    requires s > 0.0 && m > 0 && 0 <= i < m && d == s / m as real
    ensures d > 0.0 && 0.0 <= i as real * d && i as real * d + d <= s
  {
    assert d > 0.0;
    ProductOrder((i + 1) as real, m as real, d);
    assert m as real * d == s;
  }

  lemma CountBelow(k: int, n: int, c: real, span: real)
    requires n > 0 && c > 0.0 && c == span / n as real && (k as real + 0.5) * c < span
    ensures k < n
  {
    assert n as real * c == span;
    if k >= n {
      ProductOrder(n as real, k as real + 0.5, c);
      assert false;
    }
  }

  /** An offset within the i-th cell falls in cell i. */
  lemma CellIs(u: real, s: real, m: int, i: int, d: real)
    requires s > 0.0 && m > 0 && 0 <= i < m && d == s / m as real && d > 0.0
    requires i as real * d <= u < i as real * d + d
    ensures Cell(u, s, m) == i
  {
    var q := u / s * m as real;
    assert m as real * d == s;
    QuotientIs(u, s, m as real, d, q);
    if q < i as real {
      ProductOrder(q, i as real, d);
      assert false;
    }
    if q >= (i + 1) as real {
      ProductOrder((i + 1) as real, q, d);
      assert false;
    }
  }

  lemma QuotientIs(u: real, s: real, m: real, d: real, q: real)
    requires s > 0.0 && m > 0.0 && m * d == s && q == u / s * m
    ensures q * d == u
  {
    var t := u / s;
    assert t * s == u;
    assert t * m * d == t * (m * d);
  }

  ghost predicate Within(r: Raster, out: Raster) {
    out.West <= r.West && r.East <= out.East && out.South <= r.South && r.North <= out.North
  }

  lemma InsideBounds(rs: seq<Raster>, out: Raster, r: Raster)
    requires Bounds(rs, out) && r in rs
    ensures Within(r, out)
  {
    assert NORTH_OF(r) <= out.North && SOUTH_OF(r) >= out.South && EAST_OF(r) <= out.East && WEST_OF(r) >= out.West;
  }

  /** Output pixel (x2, y2) reads pixel (x, y) of r. */
  ghost predicate Reads(r: Raster, x: int, y: int, out: Raster, x2: int, y2: int)
    requires r.Boxed() && r.Usable() && out.Usable()
  {
    && 0 <= x < r.W && 0 <= y < r.H && 0 <= x2 < out.W && 0 <= y2 < out.H
    && r.Covers(out.Lat(y2), out.Lon(x2))
    && Cell(out.Lon(x2) - r.West, r.East - r.West, r.W) == x
    && Cell(r.North - out.Lat(y2), r.North - r.South, r.H) == y
  }

  /** On an output grid that is no coarser than the input's, every input pixel is read by some output pixel. */
  lemma EveryPixelRead(r: Raster, x: int, y: int, out: Raster) returns (x2: int, y2: int)
    requires r.Boxed() && r.Usable() && out.Usable() && Within(r, out)
    requires out.LonCell() <= r.LonCell() && out.LatCell() <= r.LatCell()
    requires 0 <= x < r.W && 0 <= y < r.H
    ensures Reads(r, x, y, out, x2, y2)
  {
    x2 := ColumnRead(r, x, out);
    y2 := RowRead(r, y, out);
    hide Cell, Raster.Lat, Raster.Lon;
  }

  lemma ColumnRead(r: Raster, x: int, out: Raster) returns (x2: int)
    requires r.East > r.West && out.W > 0 && out.LonCell() <= r.LonCell() && 0 <= x < r.W
    requires out.West <= r.West && r.East <= out.East
    ensures 0 <= x2 < out.W && r.West <= out.Lon(x2) <= r.East && Cell(out.Lon(x2) - r.West, r.East - r.West, r.W) == x
  {
    hide Cell;
    x2 := CellSampled(r.West - out.West, r.East - r.West, r.W, out.East - out.West, out.W, x);
    var c := Centre(x2, out.W, out.East - out.West);
    assert out.Lon(x2) == out.West + c;
    hide Centre, Raster.Lon;
    assert out.Lon(x2) - r.West == c - (r.West - out.West);
  }

  lemma RowRead(r: Raster, y: int, out: Raster) returns (y2: int)
    requires r.North > r.South && out.H > 0 && out.LatCell() <= r.LatCell() && 0 <= y < r.H
    requires out.South <= r.South && r.North <= out.North
    ensures 0 <= y2 < out.H && r.South <= out.Lat(y2) <= r.North && Cell(r.North - out.Lat(y2), r.North - r.South, r.H) == y
  {
    hide Cell;
    y2 := CellSampled(out.North - r.North, r.North - r.South, r.H, out.North - out.South, out.H, y);
    var c := Centre(y2, out.H, out.North - out.South);
    assert out.Lat(y2) == out.North - c;
    hide Centre, Raster.Lat;
    assert r.North - out.Lat(y2) == c - (out.North - r.North);
  }

  /** Merge loses no pixel: below the cap each margin of each input is at its place in the output, or a higher one. */
  lemma LosesNoPixel(rs: seq<Raster>, libm: Libm, out: Raster, dLat: real, dLon: real, w: int, h: int,
                     r: Raster, x: int, y: int) returns (x2: int, y2: int)
    requires Good(rs) && libm.Valid() && Merged(rs, libm, out) && Finest(rs, out, dLat, dLon, w, h)
    requires w * h <= MAX_PIXELS
    requires r in rs && 0 <= x < r.W && 0 <= y < r.H
    ensures r.Usable() && r.Boxed() && out.Usable() && Reads(r, x, y, out, x2, y2)
    ensures r.At(x, y).Some? ==> out.At(x2, y2).Some? && out.At(x2, y2).value >= r.At(x, y).value
  {
    FinestCell(rs, libm, out, dLat, dLon, w, h, r);
    InsideBounds(rs, out, r);
    x2, y2 := EveryPixelRead(r, x, y, out);
    hide Cell, Raster.Lat, Raster.Lon, Merged, Bounds, Raster.At;
    var lat, lon := out.Lat(y2), out.Lon(x2);
    assert IsBest(rs, lat, lon, out.At(x2, y2));
    assert Sample(r, lat, lon) == r.At(x, y);
    if r.At(x, y).Some? {
      assert Says(r, lat, lon, r.At(x, y).value);
    }
  }

  lemma FinestUnique(rs: seq<Raster>, out: Raster, dLat: real, dLon: real, w: int, h: int,
                     dLat2: real, dLon2: real, w2: int, h2: int)
    requires Good(rs) && Finest(rs, out, dLat, dLon, w, h) && Finest(rs, out, dLat2, dLon2, w2, h2)
    ensures dLat == dLat2 && dLon == dLon2 && w == w2 && h == h2
  {
  }

  lemma FinestCell(rs: seq<Raster>, libm: Libm, out: Raster, dLat: real, dLon: real, w: int, h: int, r: Raster)
    requires Good(rs) && libm.Valid() && Merged(rs, libm, out) && Finest(rs, out, dLat, dLon, w, h)
    requires w * h <= MAX_PIXELS && r in rs
    ensures out.W == w && out.H == h && out.LonCell() <= r.LonCell() && out.LatCell() <= r.LatCell()
  {
    var dLat2, dLon2, w2, h2 :| Finest(rs, out, dLat2, dLon2, w2, h2) && w2 > 0 && h2 > 0
      && out.W == Side(w2, w2, h2, libm) && out.H == Side(h2, w2, h2, libm);
    FinestUnique(rs, out, dLat, dLon, w, h, dLat2, dLon2, w2, h2);
    assert LAT_CELL_OF(r) >= dLat && LON_CELL_OF(r) >= dLon;
    InsideBounds(rs, out, r);
    CellsCover(out.East - out.West, dLon);
    CellsCover(out.North - out.South, dLat);
  }

  // ---- the order of the inputs ----

  ghost predicate SameSet(rs: seq<Raster>, rs2: seq<Raster>) {
    forall r :: r in rs <==> r in rs2
  }

  lemma MaxUnique(rs: seq<Raster>, rs2: seq<Raster>, f: Raster -> real, v: real, v2: real)
    requires SameSet(rs, rs2)
    ensures IsMax(rs, f, v) && IsMax(rs2, f, v2) ==> v == v2
    ensures IsMin(rs, f, v) && IsMin(rs2, f, v2) ==> v == v2
  {
    forall r | r in rs ensures r in rs2 {}
    forall r | r in rs2 ensures r in rs {}
    if IsMax(rs, f, v) && IsMax(rs2, f, v2) {
      var k :| 0 <= k < |rs| && f(rs[k]) == v;
      var k2 :| 0 <= k2 < |rs2| && f(rs2[k2]) == v2;
      assert rs[k] in rs2 && rs2[k2] in rs;
    }
    if IsMin(rs, f, v) && IsMin(rs2, f, v2) {
      var k :| 0 <= k < |rs| && f(rs[k]) == v;
      var k2 :| 0 <= k2 < |rs2| && f(rs2[k2]) == v2;
      assert rs[k] in rs2 && rs2[k2] in rs;
    }
  }

  lemma BestUnique(rs: seq<Raster>, rs2: seq<Raster>, lat: real, lon: real, b: Option<real>, b2: Option<real>)
    requires Good(rs) && Good(rs2) && SameSet(rs, rs2) && IsBest(rs, lat, lon, b) && IsBest(rs2, lat, lon, b2)
    ensures b == b2
  {
    hide Sample, Raster.Covers;
    if b.Some? {
      var r :| r in rs && Says(r, lat, lon, b.value);
      assert r in rs2;
    }
    if b2.Some? {
      var r :| r in rs2 && Says(r, lat, lon, b2.value);
      assert r in rs;
    }
  }

  /** The merge of two or more rasters depends on nothing but which rasters they are. */
  lemma MergedUnique(rs: seq<Raster>, rs2: seq<Raster>, libm: Libm, out: Raster, out2: Raster)
    requires Good(rs) && Good(rs2) && libm.Valid() && SameSet(rs, rs2)
    requires Merged(rs, libm, out) && Merged(rs2, libm, out2)
    ensures out == out2
  {
    BoundsUnique(rs, rs2, out, out2);
    SizeUnique(rs, rs2, libm, out, out2);
    FilledUnique(rs, rs2, out, out2);
  }

  lemma BoundsUnique(rs: seq<Raster>, rs2: seq<Raster>, out: Raster, out2: Raster)
    requires SameSet(rs, rs2) && Bounds(rs, out) && Bounds(rs2, out2)
    ensures out.North == out2.North && out.South == out2.South && out.East == out2.East && out.West == out2.West
  {
    hide SameSet;
    MaxUnique(rs, rs2, NORTH_OF, out.North, out2.North);
    MaxUnique(rs, rs2, SOUTH_OF, out.South, out2.South);
    MaxUnique(rs, rs2, EAST_OF, out.East, out2.East);
    MaxUnique(rs, rs2, WEST_OF, out.West, out2.West);
  }

  lemma SizeUnique(rs: seq<Raster>, rs2: seq<Raster>, libm: Libm, out: Raster, out2: Raster)
    requires Good(rs) && Good(rs2) && libm.Valid() && SameSet(rs, rs2)
    requires Merged(rs, libm, out) && Merged(rs2, libm, out2)
    requires out.North == out2.North && out.South == out2.South && out.East == out2.East && out.West == out2.West
    ensures out.W == out2.W && out.H == out2.H
  {
    hide Good, SameSet, Filled, Bounds, IsMin, Cells, Side;
    var dLat, dLon, w, h :| Finest(rs, out, dLat, dLon, w, h) && w > 0 && h > 0
      && out.W == Side(w, w, h, libm) && out.H == Side(h, w, h, libm);
    var dLat2, dLon2, w2, h2 :| Finest(rs2, out2, dLat2, dLon2, w2, h2) && w2 > 0 && h2 > 0
      && out2.W == Side(w2, w2, h2, libm) && out2.H == Side(h2, w2, h2, libm);
    MaxUnique(rs, rs2, LAT_CELL_OF, dLat, dLat2);
    MaxUnique(rs, rs2, LON_CELL_OF, dLon, dLon2);
  }

  lemma FilledUnique(rs: seq<Raster>, rs2: seq<Raster>, out: Raster, out2: Raster)
    requires Good(rs) && Good(rs2) && SameSet(rs, rs2) && Filled(rs, out) && Filled(rs2, out2)
    requires out2 == out.(Margin := out2.Margin)
    ensures out == out2
  {
    hide SameSet, IsBest, Good, Raster.Lat, Raster.Lon;
    forall k | 0 <= k < |out.Margin| ensures out.Margin[k] == out2.Margin[k] {
      var x, y := PixelOf(k, out.W, out.H);
      PixelAgrees(rs, rs2, out, out2, x, y);
    }
  }

  lemma PixelOf(k: int, w: int, h: int) returns (x: int, y: int)
    requires w > 0 && h > 0 && 0 <= k < w * h
    ensures 0 <= x < w && 0 <= y < h && k == y * w + x
  {
    x, y := k % w, k / w;
    assert k == k / w * w + k % w;
    assert y >= h ==> y * w >= h * w;
  }

  lemma PixelAgrees(rs: seq<Raster>, rs2: seq<Raster>, out: Raster, out2: Raster, x: int, y: int)
    requires Good(rs) && Good(rs2) && SameSet(rs, rs2) && Filled(rs, out) && Filled(rs2, out2)
    requires out2 == out.(Margin := out2.Margin) && 0 <= x < out.W && 0 <= y < out.H
    ensures out.At(x, y) == out2.At(x, y)
  {
    hide SameSet, IsBest, Good, Raster.At;
    var lat, lon := out.Lat(y), out.Lon(x);
    assert out2.Lat(y) == lat && out2.Lon(x) == lon;
    BestUnique(rs, rs2, lat, lon, out.At(x, y), out2.At(x, y));
  }

  lemma {:induction false} UsableCount(rs: seq<Raster>, r: Raster)
    ensures multiset(UsableOf(rs))[r] == if r.Usable() then multiset(rs)[r] else 0
  {
    if rs != [] {
      var n := |rs| - 1;
      UsableCount(rs[..n], r);
      assert rs == rs[..n] + [rs[n]];
    }
  }

  /** Merge does not depend on the order of its inputs, the usable and the skipped ones. */
  lemma OrderIndependent(rs: seq<Raster>, rs2: seq<Raster>, libm: Libm, out: Raster, out2: Raster)
    requires Mergeable(rs) && Mergeable(rs2) && libm.Valid() && multiset(rs) == multiset(rs2)
    requires MergeOf(rs, libm, out) && MergeOf(rs2, libm, out2)
    ensures out == out2
  {
    var used, used2 := UsableOf(rs), UsableOf(rs2);
    forall r ensures multiset(used)[r] == multiset(used2)[r] {
      UsableCount(rs, r);
      UsableCount(rs2, r);
    }
    assert multiset(used) == multiset(used2);
    assert |used| == |multiset(used)| == |used2|;
    forall r ensures r in used <==> r in used2 {
      assert r in used <==> r in multiset(used);
      assert r in used2 <==> r in multiset(used2);
    }
    if |used| >= 2 {
      MergedUnique(used, used2, libm, out, out2);
    }
  }

  // ---- rasters on one grid ----

  ghost predicate OneGrid(rs: seq<Raster>, g: Raster) {
    forall r <- rs :: r == g.(Margin := r.Margin)
  }

  lemma CellsOwn(span: real, m: int)
    requires span > 0.0 && m > 0
    ensures span / m as real > 0.0 && Cells(span, span / m as real) == m
  {
    var d := span / m as real;
    assert d > 0.0;
    assert m as real * d == span;
    QuotientOwn(span, d, m as real);
  }

  lemma QuotientOwn(p: real, d: real, m: real)
    requires d != 0.0 && m * d == p
    ensures p / d == m
  {
    var q := p / d;
    assert q * d == p;
    assert (q - m) * d == 0.0;
  }

  /** Rasters on one grid, one raster given twice among them, merge to that grid with the higher margin in each pixel. */
  lemma OneGridMerge(rs: seq<Raster>, libm: Libm, out: Raster, g: Raster)
    requires Good(rs) && libm.Valid() && Merged(rs, libm, out) && OneGrid(rs, g) && g in rs
    requires g.W * g.H <= MAX_PIXELS
    ensures out == g.(Margin := out.Margin) && out.Usable()
    ensures forall r, x, y | r in rs && 0 <= x < g.W && 0 <= y < g.H ::
              r.Usable() && (r.At(x, y).Some? ==> out.At(x, y).Some? && out.At(x, y).value >= r.At(x, y).value)
    ensures forall x, y | 0 <= x < g.W && 0 <= y < g.H ::
              out.At(x, y).Some? ==> exists r <- rs :: r.Usable() && r.At(x, y) == out.At(x, y)
  {
    OneGridSize(rs, libm, out, g);
    hide Merged, Raster.At, IsBest, Good;
    forall x, y | 0 <= x < g.W && 0 <= y < g.H
      ensures forall r <- rs :: r.Usable() && (r.At(x, y).Some? ==> out.At(x, y).Some? && out.At(x, y).value >= r.At(x, y).value)
      ensures out.At(x, y).Some? ==> exists r <- rs :: r.Usable() && r.At(x, y) == out.At(x, y)
    {
      OneGridPixel(rs, out, g, x, y);
    }
  }

  lemma OneGridSize(rs: seq<Raster>, libm: Libm, out: Raster, g: Raster)
    requires Good(rs) && libm.Valid() && Merged(rs, libm, out) && OneGrid(rs, g) && g in rs
    requires g.W * g.H <= MAX_PIXELS
    ensures out == g.(Margin := out.Margin) && g.Usable() && g.Boxed() && Filled(rs, out)
  {
    OneBounds(rs, out, g);
    hide Filled, IsBest, Raster.At, OneGrid;
    var dLat, dLon, w, h :| Finest(rs, out, dLat, dLon, w, h) && w > 0 && h > 0
      && out.W == Side(w, w, h, libm) && out.H == Side(h, w, h, libm);
    CellsOwn(g.East - g.West, g.W);
    CellsOwn(g.North - g.South, g.H);
    OneCellSize(rs, g, dLat, dLon);
    hide Good, Cells, Side;
  }

  lemma OneCellSize(rs: seq<Raster>, g: Raster, dLat: real, dLon: real)
    requires OneGrid(rs, g) && g in rs && IsMin(rs, LAT_CELL_OF, dLat) && IsMin(rs, LON_CELL_OF, dLon)
    ensures dLat == g.LatCell() && dLon == g.LonCell()
  {
    assert LAT_CELL_OF(g) >= dLat && LON_CELL_OF(g) >= dLon;
  }

  lemma OneBounds(rs: seq<Raster>, out: Raster, g: Raster)
    requires OneGrid(rs, g) && g in rs && Bounds(rs, out)
    ensures out.North == g.North && out.South == g.South && out.East == g.East && out.West == g.West
  {
    assert NORTH_OF(g) <= out.North && SOUTH_OF(g) >= out.South && EAST_OF(g) <= out.East && WEST_OF(g) >= out.West;
  }

  /** The centre of a cell of the grid is read from that cell. */
  lemma CentreCell(k: int, m: int, s: real)
    requires 0 <= k < m && s > 0.0
    ensures 0.0 <= Centre(k, m, s) <= s && Cell(Centre(k, m, s), s, m) == k
  {
    var d := s / m as real;
    EndsWithin(s, m, k, d);
    CentreIs(k, m, s, d);
    assert (k as real + 0.5) * d == k as real * d + 0.5 * d;
    CellIs(Centre(k, m, s), s, m, k, d);
  }

  lemma OneGridPixel(rs: seq<Raster>, out: Raster, g: Raster, x: int, y: int)
    requires Good(rs) && OneGrid(rs, g) && g.Usable() && g.Boxed() && out == g.(Margin := out.Margin) && Filled(rs, out)
    requires 0 <= x < g.W && 0 <= y < g.H
    ensures forall r <- rs :: r.Usable() && (r.At(x, y).Some? ==> out.At(x, y).Some? && out.At(x, y).value >= r.At(x, y).value)
    ensures out.At(x, y).Some? ==> exists r <- rs :: r.Usable() && r.At(x, y) == out.At(x, y)
  {
    var lat, lon := out.Lat(y), out.Lon(x);
    var best := out.At(x, y);
    GridCentre(out, x, y);
    assert IsBest(rs, lat, lon, best);
    hide Cell, Raster.Lat, Raster.Lon, Raster.At, Sample, Filled, Raster.Covers;
    forall r | r in rs
      ensures r.Usable() && r.Boxed() && r.Covers(lat, lon) && Sample(r, lat, lon) == r.At(x, y)
    {
      GridSample(r, g, out, x, y);
    }
    forall r | r in rs && r.At(x, y).Some? ensures best.Some? && best.value >= r.At(x, y).value {
      assert Says(r, lat, lon, r.At(x, y).value);
    }
    if best.Some? {
      var r :| r in rs && Says(r, lat, lon, best.value);
    }
  }

  lemma GridCentre(g: Raster, x: int, y: int)
    requires g.Boxed() && 0 <= x < g.W && 0 <= y < g.H
    ensures g.Covers(g.Lat(y), g.Lon(x))
    ensures Cell(g.Lon(x) - g.West, g.East - g.West, g.W) == x && Cell(g.North - g.Lat(y), g.North - g.South, g.H) == y
  {
    hide Cell;
    CentreCell(x, g.W, g.East - g.West);
    CentreCell(y, g.H, g.North - g.South);
    var u, v := Centre(x, g.W, g.East - g.West), Centre(y, g.H, g.North - g.South);
    CentresOf(g, x, y);
    hide Centre, Raster.Lat, Raster.Lon;
    assert g.Lon(x) - g.West == u && g.North - g.Lat(y) == v;
  }

  lemma CentresOf(g: Raster, x: int, y: int)
    requires g.W != 0 && g.H != 0
    ensures g.Lon(x) == g.West + Centre(x, g.W, g.East - g.West)
    ensures g.Lat(y) == g.North - Centre(y, g.H, g.North - g.South)
  {
  }

  lemma GridSample(r: Raster, g: Raster, out: Raster, x: int, y: int)
    requires r.Usable() && r.Boxed() && r == g.(Margin := r.Margin) && out == g.(Margin := out.Margin)
    requires 0 <= x < g.W && 0 <= y < g.H && out.Covers(out.Lat(y), out.Lon(x))
    requires Cell(out.Lon(x) - g.West, g.East - g.West, g.W) == x
    requires Cell(g.North - out.Lat(y), g.North - g.South, g.H) == y
    ensures r.Covers(out.Lat(y), out.Lon(x)) && Sample(r, out.Lat(y), out.Lon(x)) == r.At(x, y)
  {
    hide Cell, Raster.At, Raster.Lat, Raster.Lon;
  }

  // ---- the cap ----

  /** math.Sqrt is right about the factor of this grid. */
  ghost predicate Rooted(w: int, h: int, libm: Libm) {
    var f := Factor(w, h, libm);
    libm.Valid() && f * f == (w * h) as real / MAX_PIXELS as real
  }

  /** A grid over the cap is reduced to less than the cap, not counting its last row and column. */
  lemma CapNearlyKept(w: int, h: int, libm: Libm)
    requires w > 0 && h > 0 && w * h > MAX_PIXELS && Rooted(w, h, libm)
    ensures Factor(w, h, libm) != 0.0 && (Side(w, w, h, libm) - 1) * (Side(h, w, h, libm) - 1) < MAX_PIXELS
  {
    var f := Factor(w, h, libm);
    FactorPositive(w, h, libm);
    ShrunkPositive(w, f);
    ShrunkPositive(h, f);
    var p, q := w as real / f, h as real / f;
    CeilBounds(p);
    CeilBounds(q);
    assert p > 0.0 && q > 0.0;
    Areas(w as real, h as real, f, MAX_PIXELS as real);
    BelowProduct((Shrunk(w, f) - 1) as real, (Shrunk(h, f) - 1) as real, p, q);
  }

  /** A grid of p by q pixels fills the cap and has the proportions of w by h. */
  predicate FillsCap(p: int, q: int, w: int, h: int) {
    p > 0 && q > 0 && p * q == MAX_PIXELS && p * h == q * w
  }

  /** A grid over the cap is reduced to the cap exactly when a grid of its proportions fills the cap. */
  lemma CapKeptExactly(w: int, h: int, libm: Libm)
    requires w > 0 && h > 0 && w * h > MAX_PIXELS && Rooted(w, h, libm)
    ensures Factor(w, h, libm) != 0.0
    ensures Side(w, w, h, libm) * Side(h, w, h, libm) <= MAX_PIXELS <==> exists p, q :: FillsCap(p, q, w, h)
  {
    var f := Factor(w, h, libm);
    FactorPositive(w, h, libm);
    ShrunkPositive(w, f);
    ShrunkPositive(h, f);
    var x, y := w as real / f, h as real / f;
    Areas(w as real, h as real, f, MAX_PIXELS as real);
    Quotients(w, h, f, x, y);
    CeilBounds(x);
    CeilBounds(y);
    var p, q := Shrunk(w, f), Shrunk(h, f);
    hide Rooted, Factor, Shrunk;
    if p * q <= MAX_PIXELS {
      WholeFills(p, q, w, h, f, x, y);
    }
    if m, n :| FillsCap(m, n, w, h) {
      FilledWhole(m, n, w, h, f, x, y);
    }
  }

  lemma WholeFills(p: int, q: int, w: int, h: int, f: real, x: real, y: real)
    requires f > 0.0 && x > 0.0 && y > 0.0 && x * f == w as real && y * f == h as real && x * y == MAX_PIXELS as real
    requires x <= p as real && y <= q as real && p * q <= MAX_PIXELS
    ensures FillsCap(p, q, w, h)
  {
    assert (p * q) as real == p as real * q as real;
    AboveProduct(p as real, q as real, x, y);
    Proportions(p, q, w, h, f);
  }

  lemma FilledWhole(p: int, q: int, w: int, h: int, f: real, x: real, y: real)
    requires f > 0.0 && x > 0.0 && y > 0.0 && x * f == w as real && y * f == h as real && x * y == MAX_PIXELS as real
    requires FillsCap(p, q, w, h)
    ensures x == p as real && y == q as real
  {
    assert (p * q) as real == p as real * q as real;
    SameProportions(p, q, w, h, f, x, y);
    SameRectangle(p as real, q as real, x, y);
  }

  lemma Quotients(w: int, h: int, f: real, x: real, y: real)
    requires w > 0 && h > 0 && f > 0.0 && x == w as real / f && y == h as real / f
    ensures x > 0.0 && y > 0.0 && x * f == w as real && y * f == h as real
  {
  }

  lemma AboveProduct(a: real, b: real, p: real, q: real)
    requires 0.0 < p <= a && 0.0 < q <= b && a * b <= p * q
    ensures a == p && b == q
  {
    ProductOrder(p, a, b);
    ProductOrder(q, b, p);
    ProductOrder(q, b, a);
    ProductOrder(p, a, q);
  }

  lemma Proportions(p: int, q: int, w: int, h: int, f: real)
    requires p as real * f == w as real && q as real * f == h as real
    ensures p * h == q * w
  {
    assert p as real * (q as real * f) == q as real * (p as real * f);
    assert (p * h) as real == p as real * h as real && (q * w) as real == q as real * w as real;
  }

  lemma SameProportions(p: int, q: int, w: int, h: int, f: real, x: real, y: real)
    requires p * h == q * w && f > 0.0 && x * f == w as real && y * f == h as real
    ensures p as real * y == q as real * x
  {
    assert (p * h) as real == p as real * h as real && (q * w) as real == q as real * w as real;
    var a, b := p as real * y, q as real * x;
    assert a * f == p as real * (y * f) && b * f == q as real * (x * f);
    ProductOrder(a, b, f);
    ProductOrder(b, a, f);
  }

  /** Two rectangles of one area and one shape are the same. */
  lemma SameRectangle(p: real, q: real, x: real, y: real)
    requires p > 0.0 && q > 0.0 && x > 0.0 && y > 0.0 && p * q == x * y && p * y == q * x
    ensures p == x && q == y
  {
    ProductOrder(p, x, y);
    ProductOrder(x, p, y);
    ProductOrder(q, y, x);
    ProductOrder(y, q, x);
    ProductOrder(q, y, p);
    ProductOrder(y, q, p);
  }

  lemma Areas(w: real, h: real, f: real, cap: real)
    requires f > 0.0 && cap > 0.0 && f * f == w * h / cap && w * h > 0.0
    ensures (w / f) * (h / f) == cap
  {
    var p, q := w / f, h / f;
    assert p * f == w && q * f == h;
    assert p * f * (q * f) == p * q * (f * f);
    var a := f * f;
    assert a * cap == w * h;
    assert a > 0.0;
    assert p * q * a == cap * a;
    assert (p * q - cap) * a == 0.0;
  }

  lemma BelowProduct(a: real, b: real, p: real, q: real)
    requires 0.0 <= a < p && 0.0 <= b < q
    ensures a * b < p * q
  {
    assert a * b <= a * q;
    assert a * q < p * q;
  }

  const WIDE: int := 3001
  const TALL: int := 3000

  lemma StaysOver(libm: Libm)
    requires Rooted(WIDE, TALL, libm)
    ensures WIDE * TALL > MAX_PIXELS && Factor(WIDE, TALL, libm) != 0.0
    ensures Side(WIDE, WIDE, TALL, libm) == WIDE && Side(TALL, WIDE, TALL, libm) == TALL
  {
    var f := Factor(WIDE, TALL, libm);
    FactorPositive(WIDE, TALL, libm);
    SquareBetween(f, 3001.0 / 3000.0);
    Barely(3001, f);
    Barely(3000, f);
  }

  const BLANK: seq<Option<real>> := seq(2000 * 2000, _ => None)
  const SOUTH_WEST: Raster := Raster(2000, 2000, BLANK, 2.0, 0.0, 2.0, 0.0)
  const NORTH_EAST: Raster := Raster(2000, 2000, BLANK, 3.0, 1.0, 3.001, 1.001)

  /**
   * The cap is not always met: two rasters of 2000 by 2000 pixels, one 1000 rows and 1001 columns from the other, merge
   * to 3001 by 3000 pixels.
   */
  lemma CapExceeded(libm: Libm, out: Raster)
    requires Rooted(WIDE, TALL, libm) && Good([SOUTH_WEST, NORTH_EAST]) && Merged([SOUTH_WEST, NORTH_EAST], libm, out)
    ensures out.W == WIDE && out.H == TALL && out.W * out.H > MAX_PIXELS
  {
    var rs := [SOUTH_WEST, NORTH_EAST];
    var dLat, dLon, w, h :| Finest(rs, out, dLat, dLon, w, h) && w > 0 && h > 0
      && out.W == Side(w, w, h, libm) && out.H == Side(h, w, h, libm);
    hide Good, Filled;
    OffsetBounds(out, dLat, dLon);
    assert w == Cells(3.001, 0.001) && h == Cells(3.0, 0.001);
    assert 3.001 / 0.001 == 3001.0 && 3.0 / 0.001 == 3000.0;
    StaysOver(libm);
  }

  lemma OffsetBounds(out: Raster, dLat: real, dLon: real)
    requires Bounds([SOUTH_WEST, NORTH_EAST], out)
    requires IsMin([SOUTH_WEST, NORTH_EAST], LAT_CELL_OF, dLat) && IsMin([SOUTH_WEST, NORTH_EAST], LON_CELL_OF, dLon)
    ensures out.North == 3.0 && out.South == 0.0 && out.East == 3.001 && out.West == 0.0
    ensures dLat == 0.001 && dLon == 0.001
  {
    var rs := [SOUTH_WEST, NORTH_EAST];
    assert NORTH_OF(rs[0]) == 2.0 && NORTH_OF(rs[1]) == 3.0 && SOUTH_OF(rs[0]) == 0.0 && SOUTH_OF(rs[1]) == 1.0;
    assert EAST_OF(rs[0]) == 2.0 && EAST_OF(rs[1]) == 3.001 && WEST_OF(rs[0]) == 0.0 && WEST_OF(rs[1]) == 1.001;
    assert LAT_CELL_OF(rs[0]) == 0.001 == LAT_CELL_OF(rs[1]) && LON_CELL_OF(rs[0]) == 0.001 == LON_CELL_OF(rs[1]);
  }

  /** They are rasters Merge accepts, so it has such a result. */
  method OverCap(libm: Libm) returns (out: Raster)
    requires Rooted(WIDE, TALL, libm)
    ensures out.W == WIDE && out.H == TALL && out.W * out.H > MAX_PIXELS
  {
    BothUsable();
    UsableOfTwo(SOUTH_WEST, NORTH_EAST);
    hide UsableOf, Merged, Raster.Usable, Raster.Boxed;
    out := Merge([SOUTH_WEST, NORTH_EAST], libm);
    CapExceeded(libm, out);
  }

  lemma BothUsable()
    ensures SOUTH_WEST.Usable() && NORTH_EAST.Usable() && Good([SOUTH_WEST, NORTH_EAST])
  {
  }

  lemma UsableOfTwo(r: Raster, r2: Raster)
    requires r.Usable() && r2.Usable()
    ensures UsableOf([r, r2]) == [r, r2]
  {
    assert [r, r2][..1] == [r] && [r][..0] == [];
    assert UsableOf([r][..0]) == [] && UsableOf([r]) == [r];
  }

  lemma SquareBetween(f: real, limit: real)
    requires f > 0.0 && limit > 0.0 && 1.0 <= f * f < limit * limit
    ensures 1.0 <= f < limit
  {
    assert f >= limit ==> f * f >= limit * f && limit * f >= limit * limit;
    assert f < 1.0 ==> f * f < f;
  }

  lemma Barely(n: int, f: real)
    requires 3000 <= n <= 3001 && 1.0 <= f < 3001.0 / 3000.0
    ensures Shrunk(n, f) == n
  {
    var q, p := n as real / f, (n - 1) as real;
    assert q * f == n as real;
    assert q > 0.0;
    assert q * f >= q;
    assert p * f <= p * (3001.0 / 3000.0);
    assert (q - p) * f == q * f - p * f;
    assert (q - p) * f > 0.0;
    assert q - p > 0.0;
    CeilBounds(q);
  }

  // ---- which way up ----

  /** The first row is the northernmost and the first column the westernmost; the far edges belong to the last ones. */
  lemma CornersRead(r: Raster)
    requires r.Usable() && r.Boxed()
    ensures r.Covers(r.North, r.West) && Sample(r, r.North, r.West) == r.At(0, 0)
    ensures r.Covers(r.South, r.East) && Sample(r, r.South, r.East) == r.At(r.W - 1, r.H - 1)
  {
    EdgeCells(r.East - r.West, r.W);
    EdgeCells(r.North - r.South, r.H);
    hide Cell, Raster.At;
    assert r.West - r.West == 0.0 && r.North - r.North == 0.0;
  }

  lemma EdgeCells(s: real, m: int)
    requires s > 0.0 && m > 0
    ensures Cell(0.0, s, m) == 0 && Cell(s, s, m) == m - 1
  {
    assert 0.0 / s == 0.0 && s / s == 1.0;
  }

  /** Rows go south and columns east, a cell at a time. */
  lemma CentresAdvance(r: Raster, x: int, y: int)
    requires r.Usable() && r.Boxed()
    ensures r.Lat(y + 1) == r.Lat(y) - r.LatCell() && r.Lon(x + 1) == r.Lon(x) + r.LonCell()
    ensures r.Lat(0) == r.North - r.LatCell() / 2.0 && r.Lon(0) == r.West + r.LonCell() / 2.0
  {
    CentresOf(r, x, y);
    CentresOf(r, x + 1, y + 1);
    CentresOf(r, 0, 0);
    NextCentre(x, r.W, r.East - r.West);
    NextCentre(y, r.H, r.North - r.South);
  }

  lemma NextCentre(k: int, n: int, span: real)
    requires n > 0
    ensures Centre(k + 1, n, span) == Centre(k, n, span) + span / n as real
    ensures Centre(0, n, span) == span / n as real / 2.0
  {
    var c := span / n as real;
    CentreIs(k, n, span, c);
    CentreIs(k + 1, n, span, c);
    CentreIs(0, n, span, c);
    assert (k + 1) as real + 0.5 == (k as real + 0.5) + 1.0;
    assert ((k as real + 0.5) + 1.0) * c == (k as real + 0.5) * c + c;
  }
}
