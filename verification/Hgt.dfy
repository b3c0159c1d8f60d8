/** Terrain tiles: their names, their raw samples and the interpolation between them (internal/dem/hgt.go). */
module Hgt {
  import opened GoMath
  import opened Options
  import opened Decimals

  // ---- names ----

  /** Left padding with zeros up to the width, as fmt's %02d and %03d. */
  function Padded(s: string, width: nat): string
    decreases width - |s|
  {
    if |s| >= width then s else Padded("0" + s, width)
  }

  /** The name of the tile whose south-west corner is at la, lo. */
  function CornerName(la: int, lo: int): string {
    var ns, a := if la < 0 then "S" else "N", if la < 0 then -la else la;
    var ew, o := if lo < 0 then "W" else "E", if lo < 0 then -lo else lo;
    ns + Padded(Decimal(a), 2) + ew + Padded(Decimal(o), 3)
  }

  function TileName(lat: real, lon: real): string {
    CornerName(lat.Floor, lon.Floor)
  }

  lemma {:induction false} ZeroReads(s: string)
    requires IsDigits(s)
    ensures IsDigits("0" + s) && Number("0" + s) == Number(s)
  {
    var z := "0" + s;
    if s == [] {
      assert z == "0" && z[..0] == [];
      assert Number(z[..0]) == 0;
    } else {
      ZeroReads(s[..|s| - 1]);
      assert z[..|z| - 1] == "0" + s[..|s| - 1];
    }
  }

  lemma {:induction false} PaddedReads(s: string, width: nat)
    requires IsDigits(s)
    ensures IsDigits(Padded(s, width)) && Number(Padded(s, width)) == Number(s)
    decreases width - |s|
  {
    if |s| < width {
      ZeroReads(s);
      PaddedReads("0" + s, width);
    }
  }

  /** The digits a string begins with. */
  function Leading(s: string): (r: string)
    ensures IsDigits(r) && r <= s
  {
    if s == [] || !('0' <= s[0] <= '9') then [] else [s[0]] + Leading(s[1..])
  }

  lemma {:induction false} LeadingIs(d: string, rest: string)
    requires IsDigits(d) && (rest == [] || !('0' <= rest[0] <= '9'))
    ensures Leading(d + rest) == d
  {
    if d == [] {
      assert d + rest == rest;
    } else {
      assert (d + rest)[1..] == d[1..] + rest;
      LeadingIs(d[1..], rest);
    }
  }

  function WithSign(negative: bool, n: nat): int {
    if negative then -(n as int) else n
  }

  /** The corner a tile name stands for. */
  function NameCorner(name: string): (int, int) {
    if name == [] then (0, 0)
    else
      var a := Leading(name[1..]);
      var east := name[1 + |a|..];
      if east == [] then (0, 0)
      else
        var o := Leading(east[1..]);
        (WithSign(name[0] == 'S', Number(a)), WithSign(east[0] == 'W', Number(o)))
  }

  lemma CornerRead(la: int, lo: int)
    ensures NameCorner(CornerName(la, lo)) == (la, lo)
  {
    hide Padded, Decimal, Number, NameCorner, Leading, IsDigits;
    var a, o := if la < 0 then -la else la, if lo < 0 then -lo else lo;
    PaddedDecimalReads(a, 2);
    PaddedDecimalReads(o, 3);
    NameReads(if la < 0 then "S" else "N", Padded(Decimal(a), 2), if lo < 0 then "W" else "E", Padded(Decimal(o), 3));
  }

  lemma {:induction false} PaddedDecimalReads(n: nat, width: nat)
    ensures IsDigits(Padded(Decimal(n), width)) && Number(Padded(Decimal(n), width)) == n
  {
    DecimalReads(n);
    PaddedReads(Decimal(n), width);
    hide *;
  }

  lemma {:induction false} NameReads(ns: string, p: string, ew: string, q: string)
    requires |ns| == 1 && |ew| == 1 && !('0' <= ew[0] <= '9') && IsDigits(p) && IsDigits(q)
    ensures NameCorner(ns + p + ew + q) == (WithSign(ns[0] == 'S', Number(p)), WithSign(ew[0] == 'W', Number(q)))
  {
    hide Number;
    var name := ns + p + ew + q;
    assert name[1..] == p + (ew + q);
    LeadingIs(p, ew + q);
    assert name[1 + |p|..] == ew + q;
    assert (ew + q)[1..] == q + [];
    LeadingIs(q, []);
    assert q + [] == q;
  }

  /** Two positions have the same tile name exactly when they are in the same square degree. */
  lemma NamesSquareDegree(lat: real, lon: real, lat2: real, lon2: real)
    ensures TileName(lat, lon) == TileName(lat2, lon2) <==> lat.Floor == lat2.Floor && lon.Floor == lon2.Floor
  {
    CornerRead(lat.Floor, lon.Floor);
    CornerRead(lat2.Floor, lon2.Floor);
  }

  // ---- samples ----

  const VOID: int := -32768
  const METERS_PER_DEGREE: real := 111320.0

  /** A fraction of a degree in steps of n to the degree. */
  function Steps(f: real, n: int): real {
    f * n as real
  }

  /** size is the number of bytes of one sample. */
  datatype Tile = Tile(side: int, raw: seq<Byte>, size: int) {
    ghost predicate Valid() {
      side >= 2 && (size == 1 || size == 2) && |raw| == side * side * size
    }

    function Spacing(): real
      requires side != 1
    {
      METERS_PER_DEGREE / (side - 1) as real
    }

    /** The sample at row and column, None for a void. */
    function At(row: int, col: int): Option<real>
      requires Valid() && 0 <= row < side && 0 <= col < side
    {
      var i := (row * side + col) * size;
      SampleInRaw(row, col, side, size);
      if size == 1 then Some(raw[i] as real)
      else
        var u: int := raw[i] as int * 256 + raw[i + 1] as int;
        var v := if u >= 32768 then u - 65536 else u;
        if v == VOID then None else Some(v as real)
    }

    /** Where in the tile a position lies, in rows from the north and columns from the west. */
    function Row(lat: real): real {
      Steps(lat.Floor as real + 1.0 - lat, side - 1)
    }

    function Col(lon: real): real {
      Steps(lon - lon.Floor as real, side - 1)
    }

    /** The first row or column of the cell an index is in; the last one is in the last cell. */
    function CellStart(x: real): int {
      var k := Trunc(x);
      if k >= side - 1 then side - 2 else k
    }

    function Sample(lat: real, lon: real): Option<real>
      requires Valid()
    {
      var row, col := Row(lat), Col(lon);
      var r0, c0 := CellStart(row), CellStart(col);
      CellInside(this, lat, lon);
      var fr, fc := row - r0 as real, col - c0 as real;
      var a, b, c, d := At(r0, c0), At(r0, c0 + 1), At(r0 + 1, c0), At(r0 + 1, c0 + 1);
      if a.None? || b.None? || c.None? || d.None? then None
      else Some(Blend(Blend(a.value, b.value, fc), Blend(c.value, d.value, fc), fr))
    }
  }

  lemma SampleInRaw(row: int, col: int, side: int, size: int)
    requires 0 <= row < side && 0 <= col < side && (size == 1 || size == 2)
    ensures 0 <= (row * side + col) * size && (row * side + col) * size + size <= side * side * size
  {
    RowEnd(row, col, side);
  }

  lemma RowEnd(row: int, col: int, side: int)
    requires 0 <= row < side && 0 <= col < side
    ensures 0 <= row * side + col < side * side
  {
    assert (row + 1) * side <= side * side;
  }

  lemma FractionInside(f: real, n: int)
    requires 0.0 <= f <= 1.0 && n >= 0
    ensures 0.0 <= Steps(f, n) <= n as real
  {
    TimesSign(f, n as real);
    TimesSign(1.0 - f, n as real);
    var m := n as real;
    assert (1.0 - f) * m == m - f * m;
  }

  lemma CellInside(t: Tile, lat: real, lon: real)
    requires t.side >= 2
    ensures 0.0 <= t.Row(lat) <= (t.side - 1) as real && 0.0 <= t.Col(lon) <= (t.side - 1) as real
    ensures 0 <= t.CellStart(t.Row(lat)) <= t.side - 2 && 0 <= t.CellStart(t.Col(lon)) <= t.side - 2
    ensures 0.0 <= t.Row(lat) - t.CellStart(t.Row(lat)) as real <= 1.0
    ensures 0.0 <= t.Col(lon) - t.CellStart(t.Col(lon)) as real <= 1.0
  {
    hide Steps;
    FractionInside(lat.Floor as real + 1.0 - lat, t.side - 1);
    FractionInside(lon - lon.Floor as real, t.side - 1);
    hide Tile.Row, Tile.Col, Tile.CellStart;
    StartInside(t, t.Row(lat));
    StartInside(t, t.Col(lon));
  }

  lemma StartInside(t: Tile, x: real)
    requires t.side >= 2 && 0.0 <= x <= (t.side - 1) as real
    ensures 0 <= t.CellStart(x) <= t.side - 2 && 0.0 <= x - t.CellStart(x) as real <= 1.0
  {
  }

  // ---- parsing ----

  /** The data must be a square grid of at least two by two samples; root is math.Sqrt of the number of samples. */
  function ParseTile(raw: seq<Byte>, size: int, root: real): (r: Option<Tile>)
    requires size == 1 || size == 2
    requires root >= 0.0 && root * root == (|raw| / size) as real
    ensures r.Some? <==> exists side :: side >= 2 && |raw| == Grid(side, size)
    ensures r.Some? ==> r.value.Valid() && r.value.raw == raw && r.value.size == size
  {
    var side := Trunc(root);
    SideIsRoot(|raw|, size, root, side);
    if side < 2 || side * side * size != |raw| then None else Some(Tile(side, raw, size))
  }

  /** The length of a square grid of samples. */
  function Grid(side: int, size: int): int {
    side * side * size
  }

  lemma SideIsRoot(length: int, size: int, root: real, side: int)
    requires length >= 0 && (size == 1 || size == 2)
    requires root >= 0.0 && root * root == (length / size) as real && side == Trunc(root)
    ensures forall s :: s >= 2 && length == Grid(s, size) ==> s == side
    ensures Grid(side, size) == side * side * size
  {
    forall s | s >= 2 && length == Grid(s, size) ensures s == side {
      assert length / size == s * s;
      SquareRoot(root, s as real);
    }
  }

  lemma SquareRoot(r: real, s: real)
    requires r >= 0.0 && s > 0.0 && r * r == s * s
    ensures r == s
  {
    if r < s {
      SquareOrder(r, s);
      assert false;
    }
    if r > s {
      SquareOrder(s, r);
      assert false;
    }
  }

  // ---- interpolation ----

  /** The four samples around a position. */
  function Corners(t: Tile, lat: real, lon: real): (r: seq<Option<real>>)
    requires t.Valid()
    ensures |r| == 4
  {
    CellInside(t, lat, lon);
    var r0, c0 := t.CellStart(t.Row(lat)), t.CellStart(t.Col(lon));
    [t.At(r0, c0), t.At(r0, c0 + 1), t.At(r0 + 1, c0), t.At(r0 + 1, c0 + 1)]
  }

  /** A height is reported unless a corner is void, and lies between the corners. */
  lemma SampleBetween(t: Tile, lat: real, lon: real, lo: real, hi: real)
    requires t.Valid()
    ensures t.Sample(lat, lon).None? <==> None in Corners(t, lat, lon)
    ensures t.Sample(lat, lon).Some? && (forall c <- Corners(t, lat, lon) :: c.Some? && lo <= c.value <= hi)
            ==> lo <= t.Sample(lat, lon).value <= hi
  {
    var s, cs := t.Sample(lat, lon), Corners(t, lat, lon);
    CellInside(t, lat, lon);
    hide Tile.At, Tile.Row, Tile.Col, Tile.CellStart, Blend;
    assert None in cs <==> cs[0].None? || cs[1].None? || cs[2].None? || cs[3].None?;
    if s.Some? && forall c <- cs :: c.Some? && lo <= c.value <= hi {
      var fr := t.Row(lat) - t.CellStart(t.Row(lat)) as real;
      var fc := t.Col(lon) - t.CellStart(t.Col(lon)) as real;
      assert cs[0] in cs && cs[1] in cs && cs[2] in cs && cs[3] in cs;
      var a, b, c, d := cs[0].value, cs[1].value, cs[2].value, cs[3].value;
      BlendBetween(a, b, fc, lo, hi);
      BlendBetween(c, d, fc, lo, hi);
      BlendBetween(Blend(a, b, fc), Blend(c, d, fc), fr, lo, hi);
    }
  }

  function Affine(a: real, p: real, q: real, row: real, col: real): real {
    a + p * row + q * col
  }

  ghost predicate Plane(t: Tile, a: real, p: real, q: real)
    requires t.Valid()
  {
    forall r, c :: 0 <= r < t.side && 0 <= c < t.side ==> t.At(r, c) == Some(Affine(a, p, q, r as real, c as real))
  }

  /** A sloping plane is reproduced exactly everywhere. */
  lemma SamplePlane(t: Tile, lat: real, lon: real, a: real, p: real, q: real)
    requires t.Valid() && Plane(t, a, p, q)
    ensures t.Sample(lat, lon) == Some(Affine(a, p, q, t.Row(lat), t.Col(lon)))
  {
    hide Tile.At, Tile.Row, Tile.Col, Tile.CellStart, Blend, Plane, Affine, Tile.Sample;
    CellInside(t, lat, lon);
    var row, col := t.Row(lat), t.Col(lon);
    var r0, c0 := t.CellStart(row), t.CellStart(col);
    PlaneCorners(t, a, p, q, r0, c0);
    SampleIs(t, lat, lon, r0, c0);
    PlaneBlend(a, p, q, r0 as real, c0 as real, row - r0 as real, col - c0 as real);
    PlaneEnds(a, p, q, row, col, r0 as real, c0 as real);
  }

  lemma SampleIs(t: Tile, lat: real, lon: real, r: int, c: int)
    requires t.Valid() && r == t.CellStart(t.Row(lat)) && c == t.CellStart(t.Col(lon))
    requires 0 <= r <= t.side - 2 && 0 <= c <= t.side - 2
    requires t.At(r, c).Some? && t.At(r, c + 1).Some? && t.At(r + 1, c).Some? && t.At(r + 1, c + 1).Some?
    ensures t.Sample(lat, lon) == Some(Blend(Blend(t.At(r, c).value, t.At(r, c + 1).value, t.Col(lon) - c as real),
                                             Blend(t.At(r + 1, c).value, t.At(r + 1, c + 1).value, t.Col(lon) - c as real),
                                             t.Row(lat) - r as real))
  {
    hide Tile.At, Tile.Row, Tile.Col, Tile.CellStart, Blend;
  }

  lemma PlaneEnds(a: real, p: real, q: real, row: real, col: real, r0: real, c0: real)
    ensures Affine(a, p, q, r0 + (row - r0), c0 + (col - c0)) == Affine(a, p, q, row, col)
  {
    assert r0 + (row - r0) == row && c0 + (col - c0) == col;
  }

  lemma PlaneCorners(t: Tile, a: real, p: real, q: real, r: int, c: int)
    requires t.Valid() && Plane(t, a, p, q) && 0 <= r <= t.side - 2 && 0 <= c <= t.side - 2
    ensures t.At(r, c) == Some(Affine(a, p, q, r as real, c as real))
    ensures t.At(r, c + 1) == Some(Affine(a, p, q, r as real, c as real + 1.0))
    ensures t.At(r + 1, c) == Some(Affine(a, p, q, r as real + 1.0, c as real))
    ensures t.At(r + 1, c + 1) == Some(Affine(a, p, q, r as real + 1.0, c as real + 1.0))
  {
    hide Tile.At, Affine;
    assert (r + 1) as real == r as real + 1.0 && (c + 1) as real == c as real + 1.0;
  }

  lemma PlaneBlend(a: real, p: real, q: real, r: real, c: real, fr: real, fc: real)
    ensures Blend(Blend(Affine(a, p, q, r, c), Affine(a, p, q, r, c + 1.0), fc),
                  Blend(Affine(a, p, q, r + 1.0, c), Affine(a, p, q, r + 1.0, c + 1.0), fc), fr)
            == Affine(a, p, q, r + fr, c + fc)
  {
  }

  // ---- the layout of a tile ----

  /** A position in each quarter of the earth. */
  lemma NamesNorth()
    ensures TileName(47.5, 9.5) == "N47E009" && TileName(0.1, -0.1) == "N00W001"
  {
    assert Padded("9", 3) == Padded("09", 3) == "009" && Padded("1", 3) == Padded("01", 3) == "001";
    assert Padded("0", 2) == "00" && Decimal(47) == Decimal(4) + "7";
  }

  lemma NamesSouth()
    ensures TileName(-0.5, -1.5) == "S01W002" && TileName(-33.9, 151.2) == "S34E151"
  {
    assert Padded("2", 3) == Padded("02", 3) == "002" && Padded("1", 2) == "01" && Decimal(34) == Decimal(3) + "4";
    assert Decimal(151) == Decimal(15) + "1" && Decimal(15) == Decimal(1) + "5";
  }

  /** The two bytes of a sample, the high one first, in two's complement. */
  function BigEndian(v: int): (Byte, Byte)
    requires -32768 <= v < 32768
  {
    var u := if v < 0 then v + 65536 else v;
    (u / 256, u % 256)
  }

  /** A height written as two bytes reads back as itself, and the lowest one as a void. */
  lemma SampleReads(t: Tile, row: int, col: int, v: int)
    requires t.Valid() && t.size == 2 && 0 <= row < t.side && 0 <= col < t.side && -32768 <= v < 32768
    requires var i := (row * t.side + col) * 2; 0 <= i < i + 1 < |t.raw| && (t.raw[i], t.raw[i + 1]) == BigEndian(v)
    ensures t.At(row, col) == if v == VOID then None else Some(v as real)
  {
    var u := if v < 0 then v + 65536 else v;
    assert u / 256 * 256 + u % 256 == u;
  }

  /** North is row 0: the r-th row lies r steps of the side - 1 in a degree below its northern edge. */
  lemma RowsFromNorth(t: Tile, la: int, r: int)
    requires t.side >= 2 && 1 <= r < t.side
    ensures var lat := (la + 1) as real - r as real / (t.side - 1) as real; lat.Floor == la && t.Row(lat) == r as real
  {
    var n := (t.side - 1) as real;
    var x := r as real / n;
    assert x * n == r as real;
    PartOfWhole(x, r as real, n);
    WithinDegree((la + 1) as real - x, la);
    hide Steps;
    StepsOf(x, t.side - 1, r);
    assert la as real + 1.0 - ((la + 1) as real - x) == x;
  }

  /** West is column 0. */
  lemma ColumnsFromWest(t: Tile, lo: int, c: int)
    requires t.side >= 2 && 0 <= c < t.side - 1
    ensures var lon := lo as real + c as real / (t.side - 1) as real; lon.Floor == lo && t.Col(lon) == c as real
  {
    var n := (t.side - 1) as real;
    var x := c as real / n;
    assert x * n == c as real;
    PartOfWhole(x, c as real, n);
    WithinDegree(lo as real + x, lo);
    hide Steps;
    StepsOf(x, t.side - 1, c);
    assert lo as real + x - lo as real == x;
  }

  /** The spacing is that of the steps along a meridian. */
  lemma SpacingIs(t: Tile)
    requires t.side >= 2
    ensures Times(t.Spacing(), (t.side - 1) as real) == METERS_PER_DEGREE
  {
  }

  lemma StepsOf(x: real, n: int, r: int)
    requires x * n as real == r as real
    ensures Steps(x, n) == r as real
  {
  }

  lemma PartOfWhole(x: real, p: real, n: real)
    requires n > 0.0 && 0.0 <= p <= n && x * n == p
    ensures 0.0 <= x <= 1.0 && (p > 0.0 ==> x > 0.0) && (p < n ==> x < 1.0)
  {
    ProductOrder(1.0, x, n);
    ProductOrder(x, 1.0, n);
    ProductOrder(x, 0.0, n);
    ProductOrder(0.0, x, n);
  }

  lemma WithinDegree(x: real, n: int)
    requires n as real <= x < n as real + 1.0
    ensures x.Floor == n
  {
  }

  /** At a grid point the height is the sample there. */
  lemma SampleAtPoint(t: Tile, lat: real, lon: real, r: int, c: int)
    requires t.Valid() && t.Row(lat) == r as real && t.Col(lon) == c as real && t.Sample(lat, lon).Some?
    ensures 0 <= r < t.side && 0 <= c < t.side && t.Sample(lat, lon) == t.At(r, c)
  {
    hide Tile.At, Tile.Row, Tile.Col, Blend;
    CellInside(t, lat, lon);
    var r0, c0 := t.CellStart(t.Row(lat)), t.CellStart(t.Col(lon));
    SampleIs(t, lat, lon, r0, c0);
    var a, b := t.At(r0, c0).value, t.At(r0, c0 + 1).value;
    var d, e := t.At(r0 + 1, c0).value, t.At(r0 + 1, c0 + 1).value;
    BlendEnds(a, b);
    BlendEnds(d, e);
    BlendEnds(a, d);
    BlendEnds(b, e);
  }

  lemma BlendEnds(a: real, b: real)
    ensures Blend(a, b, 0.0) == a && Blend(a, b, 1.0) == b
  {
  }
}
