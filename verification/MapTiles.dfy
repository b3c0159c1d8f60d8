/** Map views in Web Mercator pixels and their stitching from tiles (internal/tiles/static.go). */
module MapTiles {
  import opened GoMath
  import opened Options

  const TILE_SIZE: int := 256
  const MAX_ZOOM: nat := 19

  datatype View = View(Zoom: nat, X0: real, Y0: real, W: int, H: int)

  function Pow2(n: nat): (r: nat)
    ensures r > 0
  {
    if n == 0 then 1 else 2 * Pow2(n - 1)
  }

  /** The side of the world in pixels. */
  function WorldSize(zoom: nat): (r: int)
    ensures r > 0
  {
    TILE_SIZE * Pow2(zoom)
  }

  /** A position as a fraction of the world; y is the Mercator projection, of which nothing is assumed. */
  datatype Mercator = Mercator(y: real -> real) {
    function X(lon: real): real {
      (lon + 180.0) / 360.0
    }

    function WorldX(lon: real, zoom: nat): real {
      X(lon) * WorldSize(zoom) as real
    }

    function WorldY(lat: real, zoom: nat): real {
      y(lat) * WorldSize(zoom) as real
    }
  }

  datatype Bounds = Bounds(south: real, west: real, north: real, east: real)

  function SpanX(m: Mercator, b: Bounds, zoom: nat): real {
    m.WorldX(b.east, zoom) - m.WorldX(b.west, zoom)
  }

  function SpanY(m: Mercator, b: Bounds, zoom: nat): real {
    m.WorldY(b.south, zoom) - m.WorldY(b.north, zoom)
  }

  predicate Fits(m: Mercator, b: Bounds, w: int, h: int, pad: int, zoom: nat) {
    SpanX(m, b, zoom) <= (w - 2 * pad) as real && SpanY(m, b, zoom) <= (h - 2 * pad) as real
  }

  function PixelX(m: Mercator, v: View, lon: real): real {
    m.WorldX(lon, v.Zoom) - v.X0
  }

  function PixelY(m: Mercator, v: View, lat: real): real {
    m.WorldY(lat, v.Zoom) - v.Y0
  }

  /** Both corners of the bounds are at least pad pixels inside the view. */
  predicate Inside(m: Mercator, b: Bounds, v: View, pad: int) {
    && pad as real <= PixelX(m, v, b.west) && PixelX(m, v, b.east) <= (v.W - pad) as real
    && pad as real <= PixelY(m, v, b.north) && PixelY(m, v, b.south) <= (v.H - pad) as real
  }

  /** The highest zoom at which the bounds fit, 0 when there is none; the bounds are in the middle of the view. */
  method Fit(m: Mercator, b: Bounds, w: int, h: int, pad: int) returns (v: View)
    ensures v.W == w && v.H == h && v.Zoom <= MAX_ZOOM
    ensures v.Zoom > 0 ==> Fits(m, b, w, h, pad, v.Zoom)
    ensures forall z: nat :: v.Zoom < z <= MAX_ZOOM ==> !Fits(m, b, w, h, pad, z)
    ensures PixelX(m, v, b.west) + PixelX(m, v, b.east) == w as real
    ensures PixelY(m, v, b.north) + PixelY(m, v, b.south) == h as real
    ensures Fits(m, b, w, h, pad, v.Zoom) <==> Inside(m, b, v, pad)
  {
    hide Mercator.WorldX, Mercator.WorldY;
    var z: nat := MAX_ZOOM;
    while true
      invariant z <= MAX_ZOOM
      invariant forall y: nat :: z < y <= MAX_ZOOM ==> !Fits(m, b, w, h, pad, y)
      decreases z
    {
      var x1, y1 := m.WorldX(b.west, z), m.WorldY(b.north, z);
      var x2, y2 := m.WorldX(b.east, z), m.WorldY(b.south, z);
      if z == 0 || (x2 - x1 <= (w - 2 * pad) as real && y2 - y1 <= (h - 2 * pad) as real) {
        return View(z, (x1 + x2) / 2.0 - w as real / 2.0, (y1 + y2) / 2.0 - h as real / 2.0, w, h);
      }
      z := z - 1;
    }
  }

  /** Bounds that fit at a zoom fit at every lower one, so the view Fit returns is the closest of all that hold them. */
  lemma {:induction false} FitsBelow(m: Mercator, b: Bounds, w: int, h: int, pad: int, zoom: nat, lower: nat)
    requires lower <= zoom && w >= 2 * pad && h >= 2 * pad && Fits(m, b, w, h, pad, zoom)
    ensures Fits(m, b, w, h, pad, lower)
    decreases zoom
  {
    if lower < zoom {
      Halved(m.X(b.west), zoom);
      Halved(m.X(b.east), zoom);
      Halved(m.y(b.north), zoom);
      Halved(m.y(b.south), zoom);
      hide Mercator.X, WorldSize;
      FitsBelow(m, b, w, h, pad, zoom - 1, lower);
    }
  }

  lemma Halved(x: real, zoom: nat)
    requires zoom > 0
    ensures x * WorldSize(zoom) as real == 2.0 * (x * WorldSize(zoom - 1) as real)
  {
    assert WorldSize(zoom) == 2 * WorldSize(zoom - 1);
    var n := WorldSize(zoom - 1) as real;
    assert x * (2.0 * n) == 2.0 * (x * n);
  }

  /** The world begins at longitude -180, grows eastward and repeats every 360 degrees. */
  lemma Eastward(m: Mercator, zoom: nat, lon: real, east: real)
    ensures m.WorldX(-180.0, zoom) == 0.0 && m.WorldX(lon + 360.0, zoom) == m.WorldX(lon, zoom) + WorldSize(zoom) as real
    ensures lon < east ==> m.WorldX(lon, zoom) < m.WorldX(east, zoom)
  {
    var n := WorldSize(zoom) as real;
    hide WorldSize;
    var x, y := m.X(lon), m.X(east);
    assert m.X(lon + 360.0) == x + 1.0;
    NextWorld(x, n);
    ProductOrder(x, y, n);
  }

  lemma NextWorld(x: real, n: real)
    ensures (x + 1.0) * n == x * n + n
  {
  }

  // ---- stitching ----

  datatype Color = Clear | Rgba(value: nat)

  /** A decoded tile of 256 by 256 pixels. */
  type Tile = (int, int) -> Color

  /** The tiles of one zoom, None when one cannot be fetched or decoded. */
  type Tiles = (int, int) -> Option<Tile>

  /** Go's remainder, which has the sign of the dividend. */
  function Rem(a: int, b: int): int
    requires b > 0
  {
    if a >= 0 then a % b else -((-a) % b)
  }

  /** Go's quotient, which is truncated. */
  function Quo(a: int, b: int): int
    requires b > 0
  {
    if a >= 0 then a / b else -((-a) / b)
  }

  lemma Wrapped(a: int, n: int)
    requires n > 0
    ensures Rem(Rem(a, n) + n, n) == a % n
  {
    var m := a % n;
    Remainder(m + n, n, 1, m);
    if a < 0 {
      NegativeMod(a, n);
      Remainder(n, n, 1, 0);
    }
  }

  lemma NegativeMod(a: int, n: int)
    requires n > 0 && a < 0
    ensures a % n == if (-a) % n == 0 then 0 else n - (-a) % n
  {
    var q, r := (-a) / n, (-a) % n;
    assert -a == q * n + r;
    NegatedProduct(q, n);
    Remainder(a, n, if r == 0 then -q else -q - 1, if r == 0 then 0 else n - r);
  }

  lemma NegatedProduct(q: int, n: int)
    ensures (-q) * n == -(q * n) && (-q - 1) * n == -(q * n) - n
  {
  }

  /** The map at a pixel of the world. */
  function World(tiles: Tiles, wx: int, wy: int): Option<Color> {
    var t := tiles(wx / TILE_SIZE, wy / TILE_SIZE);
    if t.None? then None else Some(t.value(wx % TILE_SIZE, wy % TILE_SIZE))
  }

  /** What a view shows at a pixel: the map, repeated sideways, and nothing above and below the world. */
  function Shown(tiles: Tiles, zoom: nat, x: int, y: int): Option<Color> {
    if 0 <= y < WorldSize(zoom) then World(tiles, x % WorldSize(zoom), y) else Some(Clear)
  }

  /** A column of the endless map is in one column of tiles, and the wrapped tile has the wrapped pixel. */
  lemma TileOfColumn(x: int, tx: int, n: int)
    requires n > 0 && tx == x / TILE_SIZE
    ensures x % (TILE_SIZE * n) / TILE_SIZE == tx % n
    ensures x % (TILE_SIZE * n) % TILE_SIZE == x - tx * TILE_SIZE
  {
    var i, q, r := x - tx * TILE_SIZE, tx / n, tx % n;
    assert tx == q * n + r;
    assert x == q * (TILE_SIZE * n) + (r * TILE_SIZE + i);
    assert r * TILE_SIZE + i < TILE_SIZE * n;
    Remainder(x, TILE_SIZE * n, q, r * TILE_SIZE + i);
    Remainder(r * TILE_SIZE + i, TILE_SIZE, r, i);
  }

  /** The view pixel (x, y) belongs to the tile in column tx and row ty of the endless map. */
  predicate InTile(x0: int, y0: int, x: int, y: int, tx: int, ty: int) {
    tx * TILE_SIZE <= x0 + x < tx * TILE_SIZE + TILE_SIZE && ty * TILE_SIZE <= y0 + y < ty * TILE_SIZE + TILE_SIZE
  }

  /** The tiles Static goes through. */
  predicate Visited(x0: int, y0: int, w: int, h: int, n: int, tx: int, ty: int) {
    && Quo(y0, TILE_SIZE) <= ty && ty * TILE_SIZE < y0 + h && 0 <= ty < n
    && x0 / TILE_SIZE <= tx && tx * TILE_SIZE < x0 + w
  }

  /** Every pixel inside the world is in exactly one of the tiles Static goes through, and the others are in none. */
  lemma InOneTile(x0: int, y0: int, w: int, h: int, n: int, x: int, y: int)
    requires 0 <= x < w && 0 <= y < h && n > 0
    ensures var tx, ty := (x0 + x) / TILE_SIZE, (y0 + y) / TILE_SIZE;
      && InTile(x0, y0, x, y, tx, ty)
      && (Visited(x0, y0, w, h, n, tx, ty) <==> 0 <= y0 + y < TILE_SIZE * n)
      && forall sx, sy :: InTile(x0, y0, x, y, sx, sy) ==> sx == tx && sy == ty
  {
  }

  /** All view pixels of tiles before row ty, and of row ty before column tx, are as they should be; the rest are clear. */
  ghost predicate DrawnTo(tiles: Tiles, zoom: nat, x0: int, y0: int, x: int, y: int, c: Color, tx: int, ty: int) {
    if (y0 + y) / TILE_SIZE < ty || ((y0 + y) / TILE_SIZE == ty && (x0 + x) / TILE_SIZE < tx)
    then Shown(tiles, zoom, x0 + x, y0 + y) == Some(c)
    else c == Clear
  }

  ghost predicate AllDrawnTo(tiles: Tiles, zoom: nat, x0: int, y0: int, img: array2<Color>, tx: int, ty: int)
    reads img
  {
    forall x, y :: 0 <= x < img.Length0 && 0 <= y < img.Length1 ==>
      DrawnTo(tiles, zoom, x0, y0, x, y, img[x, y], tx, ty)
  }

  /** Every tile Static goes through can be fetched and decoded. */
  ghost predicate Fetched(tiles: Tiles, x0: int, y0: int, w: int, h: int, n: int)
    requires n > 0
  {
    forall tx, ty :: Visited(x0, y0, w, h, n, tx, ty) ==> tiles(tx % n, ty).Some?
  }

  /** Stitches the tiles covering the view, unless one of them cannot be had. */
  method Static(tiles: Tiles, v: View) returns (ok: bool, img: array2<Color>)
    requires v.W >= 0 && v.H >= 0
    ensures fresh(img) && img.Length0 == v.W && img.Length1 == v.H
    ensures ok <==> Fetched(tiles, v.X0.Floor, v.Y0.Floor, v.W, v.H, Pow2(v.Zoom))
    ensures ok ==> forall x, y :: 0 <= x < v.W && 0 <= y < v.H ==>
      Shown(tiles, v.Zoom, v.X0.Floor + x, v.Y0.Floor + y) == Some(img[x, y])
  {
    img := new Color[v.W, v.H]((x, y) => Clear);
    var n := Pow2(v.Zoom);
    var x0, y0 := v.X0.Floor, v.Y0.Floor;
    var left := x0 / TILE_SIZE;
    var ty := Quo(y0, TILE_SIZE);
    Begun(tiles, v.Zoom, x0, y0, img);
    while ty * TILE_SIZE < y0 + v.H
      invariant AllDrawnTo(tiles, v.Zoom, x0, y0, img, left, ty) && Quo(y0, TILE_SIZE) <= ty
      invariant FetchedTo(tiles, x0, y0, v.W, v.H, n, left, ty)
      decreases y0 + v.H - ty * TILE_SIZE
    {
      if ty < 0 || ty >= n {
        RowSkipped(tiles, v.Zoom, x0, y0, img, ty);
        ty := ty + 1;
        continue;
      }
      var tx := left;
      while tx * TILE_SIZE < x0 + v.W
        invariant AllDrawnTo(tiles, v.Zoom, x0, y0, img, tx, ty) && left <= tx
        invariant FetchedTo(tiles, x0, y0, v.W, v.H, n, tx, ty)
        decreases x0 + v.W - tx * TILE_SIZE
      {
        Wrapped(tx, n);
        var t := tiles(Rem(Rem(tx, n) + n, n), ty);
        if t.None? {
          assert Visited(x0, y0, v.W, v.H, n, tx, ty);
          ok := false;
          return;
        }
        DrawNext(tiles, v.Zoom, x0, y0, img, t.value, tx, ty);
        tx := tx + 1;
      }
      RowDone(tiles, v.Zoom, x0, y0, img, tx, ty);
      ty := ty + 1;
    }
    ok := true;
    AllShown(tiles, v.Zoom, x0, y0, img, ty);
  }

  ghost predicate FetchedTo(tiles: Tiles, x0: int, y0: int, w: int, h: int, n: int, tx: int, ty: int)
    requires n > 0
  {
    forall sx, sy :: Visited(x0, y0, w, h, n, sx, sy) && (sy < ty || (sy == ty && sx < tx)) ==> tiles(sx % n, sy).Some?
  }

  lemma Begun(tiles: Tiles, zoom: nat, x0: int, y0: int, img: array2<Color>)
    requires forall x, y :: 0 <= x < img.Length0 && 0 <= y < img.Length1 ==> img[x, y] == Clear
    ensures AllDrawnTo(tiles, zoom, x0, y0, img, x0 / TILE_SIZE, Quo(y0, TILE_SIZE))
  {
    hide World, WorldSize;
  }

  lemma {:induction false} RowSkipped(tiles: Tiles, zoom: nat, x0: int, y0: int, img: array2<Color>, ty: int)
    requires AllDrawnTo(tiles, zoom, x0, y0, img, x0 / TILE_SIZE, ty) && (ty < 0 || ty >= Pow2(zoom))
    ensures AllDrawnTo(tiles, zoom, x0, y0, img, x0 / TILE_SIZE, ty + 1)
  {
    hide World;
    forall x, y | 0 <= x < img.Length0 && 0 <= y < img.Length1
      ensures DrawnTo(tiles, zoom, x0, y0, x, y, img[x, y], x0 / TILE_SIZE, ty + 1)
    {
      assert DrawnTo(tiles, zoom, x0, y0, x, y, img[x, y], x0 / TILE_SIZE, ty);
    }
  }

  lemma RowDone(tiles: Tiles, zoom: nat, x0: int, y0: int, img: array2<Color>, tx: int, ty: int)
    requires AllDrawnTo(tiles, zoom, x0, y0, img, tx, ty) && tx * TILE_SIZE >= x0 + img.Length0
    ensures AllDrawnTo(tiles, zoom, x0, y0, img, x0 / TILE_SIZE, ty + 1)
  {
    hide Shown;
    forall x, y | 0 <= x < img.Length0 && 0 <= y < img.Length1
      ensures DrawnTo(tiles, zoom, x0, y0, x, y, img[x, y], x0 / TILE_SIZE, ty + 1)
    {
      assert DrawnTo(tiles, zoom, x0, y0, x, y, img[x, y], tx, ty);
    }
  }

  lemma AllShown(tiles: Tiles, zoom: nat, x0: int, y0: int, img: array2<Color>, ty: int)
    requires AllDrawnTo(tiles, zoom, x0, y0, img, x0 / TILE_SIZE, ty) && ty * TILE_SIZE >= y0 + img.Length1
    ensures forall x, y :: 0 <= x < img.Length0 && 0 <= y < img.Length1 ==>
      Shown(tiles, zoom, x0 + x, y0 + y) == Some(img[x, y])
  {
    hide Shown;
    forall x, y | 0 <= x < img.Length0 && 0 <= y < img.Length1
      ensures Shown(tiles, zoom, x0 + x, y0 + y) == Some(img[x, y])
    {
      assert DrawnTo(tiles, zoom, x0, y0, x, y, img[x, y], x0 / TILE_SIZE, ty);
    }
  }

  method DrawNext(tiles: Tiles, zoom: nat, x0: int, y0: int, img: array2<Color>, t: Tile, tx: int, ty: int)
    requires 0 <= ty < Pow2(zoom) && tiles(tx % Pow2(zoom), ty) == Some(t)
    requires AllDrawnTo(tiles, zoom, x0, y0, img, tx, ty)
    modifies img
    ensures AllDrawnTo(tiles, zoom, x0, y0, img, tx + 1, ty)
  {
    hide DrawnTo;
    Draw(img, t, tx * TILE_SIZE - x0, ty * TILE_SIZE - y0);
    forall x, y | 0 <= x < img.Length0 && 0 <= y < img.Length1
      ensures DrawnTo(tiles, zoom, x0, y0, x, y, img[x, y], tx + 1, ty)
    {
      PixelDrawn(tiles, zoom, x0, y0, x, y, old(img[x, y]), img[x, y], t, tx, ty);
    }
  }

  lemma {:induction false} PixelDrawn(tiles: Tiles, zoom: nat, x0: int, y0: int, x: int, y: int, before: Color, c: Color, t: Tile, tx: int, ty: int)
    requires 0 <= ty < Pow2(zoom) && tiles(tx % Pow2(zoom), ty) == Some(t)
    requires DrawnTo(tiles, zoom, x0, y0, x, y, before, tx, ty)
    requires c == if InTile(x0, y0, x, y, tx, ty) then t(x0 + x - tx * TILE_SIZE, y0 + y - ty * TILE_SIZE) else before
    ensures DrawnTo(tiles, zoom, x0, y0, x, y, c, tx + 1, ty)
  {
    if InTile(x0, y0, x, y, tx, ty) {
      assert (x0 + x) / TILE_SIZE == tx && (y0 + y) / TILE_SIZE == ty;
      TileOfColumn(x0 + x, tx, Pow2(zoom));
    } else {
      hide Shown;
    }
  }

  /** draw.Draw: the tile at (ax, ay), cut off at the edges of the picture. */
  method Draw(img: array2<Color>, t: Tile, ax: int, ay: int)
    modifies img
    ensures forall x, y :: 0 <= x < img.Length0 && 0 <= y < img.Length1 ==>
      img[x, y] == if ax <= x < ax + TILE_SIZE && ay <= y < ay + TILE_SIZE then t(x - ax, y - ay) else old(img[x, y])
  {
    var x1, y1 := if ax > 0 then ax else 0, if ay > 0 then ay else 0;
    var x2 := if ax + TILE_SIZE < img.Length0 then ax + TILE_SIZE else img.Length0;
    var y2 := if ay + TILE_SIZE < img.Length1 then ay + TILE_SIZE else img.Length1;
    forall x, y | x1 <= x < x2 && y1 <= y < y2 {
      img[x, y] := t(x - ax, y - ay);
    }
  }

  // ---- cutting and stitching ----

  /** A picture of the world cut into tiles. */
  function Cut(picture: (int, int) -> Color): Tiles {
    (tx, ty) => Some((i, j) => picture(tx * TILE_SIZE + i, ty * TILE_SIZE + j))
  }

  /** Stitching what was cut shows the picture again, repeated sideways. */
  lemma CutAndStitched(picture: (int, int) -> Color, zoom: nat, x: int, y: int)
    ensures Shown(Cut(picture), zoom, x, y)
            == Some(if 0 <= y < WorldSize(zoom) then picture(x % WorldSize(zoom), y) else Clear)
  {
    var wx := x % WorldSize(zoom);
    assert wx / TILE_SIZE * TILE_SIZE + wx % TILE_SIZE == wx;
    assert y / TILE_SIZE * TILE_SIZE + y % TILE_SIZE == y;
  }
}
