/** Tile space, pixel space and the draw_rect arithmetic between them. */
module Geometry {

  /** Tiles per region, horizontally and vertically (MAPX, MAPY). */
  const MAPX: int := 180
  const MAPY: int := 180
  /** Pixels per tile side (SCALE). */
  const SCALE: int := 2
  /** Pixels per region side (xo = MAPX * SCALE, yo = MAPY * SCALE). */
  const XO: int := MAPX * SCALE
  const YO: int := MAPY * SCALE

  /** An integer pair: a region coordinate, or a tile inside a region. */
  datatype Point = Point(x: int, y: int)

  /** A rectangle of tiles in one region's local tile space, corners inclusive.
      Nothing forces x0 <= x1 or y0 <= y1: draw_rect accepts any four integers. */
  datatype TileRect = TileRect(x0: int, y0: int, x1: int, y1: int)

  /** An image.Rectangle: Min inclusive, Max exclusive. */
  datatype PixelRect = PixelRect(minX: int, minY: int, maxX: int, maxY: int)

  predicate Contains(r: PixelRect, px: int, py: int)
  {
    r.minX <= px < r.maxX && r.minY <= py < r.maxY
  }

  function Min(a: int, b: int): int { if a <= b then a else b }
  function Max(a: int, b: int): int { if a <= b then b else a }

  /** image.Rect: the rectangle with the given corners, swapped where
      necessary so that Min <= Max. */
  function Rect(x0: int, y0: int, x1: int, y1: int): (r: PixelRect)
    ensures r.minX <= r.maxX && r.minY <= r.maxY
    ensures {r.minX, r.maxX} == {x0, x1} && {r.minY, r.maxY} == {y0, y1}
  {
    PixelRect(Min(x0, x1), Min(y0, y1), Max(x0, x1), Max(y0, y1))
  }

  /** draw_rect: tile rectangle t of the region drawn at grid index (ix, iy)
      as a pixel rectangle with exclusive upper corner. */
  function ToPixels(ix: int, iy: int, t: TileRect): PixelRect
  {
    Rect(ix * XO + t.x0 * SCALE, iy * YO + t.y0 * SCALE,
         ix * XO + (t.x1 + 1) * SCALE, iy * YO + (t.y1 + 1) * SCALE)
  }

  /** The tiles an inclusive range a..b selects once image.Rect has
      canonicalised it: a..b itself, or the tiles strictly between b and a
      when the corners come reversed. */
  predicate Spans(a: int, b: int, t: int)
  {
    if a <= b then a <= t <= b else b < t < a
  }

  /** Tile (tx, ty) is one of the tiles that drawing t paints. */
  predicate TileIn(t: TileRect, tx: int, ty: int)
  {
    Spans(t.x0, t.x1, tx) && Spans(t.y0, t.y1, ty)
  }

  /** The local tile column of pixel column px in the region at grid column ix
      (floor division: Dafny's / is Euclidean and SCALE is positive). */
  function TileX(ix: int, px: int): int { (px - ix * XO) / SCALE }
  function TileY(iy: int, py: int): int { (py - iy * YO) / SCALE }

  lemma AxisCover(o: int, a: int, b: int, p: int)
    ensures (Min(o + a * SCALE, o + (b + 1) * SCALE) <= p < Max(o + a * SCALE, o + (b + 1) * SCALE))
            <==> Spans(a, b, (p - o) / SCALE)
  {
    var q := (p - o) / SCALE;
    assert p - o == q * SCALE + (p - o) % SCALE;
  }

  /** Pixel (px, py) is painted by draw_rect(ix, iy, t) exactly when the tile
      it belongs to, counted from the region's corner, is one of t's tiles. */
  lemma {:induction false} PixelCoverage(ix: int, iy: int, t: TileRect, px: int, py: int)
    ensures Contains(ToPixels(ix, iy, t), px, py) <==> TileIn(t, TileX(ix, px), TileY(iy, py))
  {
    AxisCover(ix * XO, t.x0, t.x1, px);
    AxisCover(iy * YO, t.y0, t.y1, py);
  }

  /** The worked example: tile (0,0)-(0,0) at grid (1,1) is pixels (360,360)-(362,362). */
  lemma ToPixelsExample()
    ensures ToPixels(1, 1, TileRect(0, 0, 0, 0)) == PixelRect(360, 360, 362, 362)
  {
  }

  /** A pixel lies in region block (ix, iy) when its local tile lies in 0..MAPX-1 x 0..MAPY-1. */
  predicate InBlock(ix: int, iy: int, px: int, py: int)
  {
    ix * XO <= px < ix * XO + XO && iy * YO <= py < iy * YO + YO
  }

  lemma {:induction false} LocalTileInRange(ix: int, iy: int, px: int, py: int)
    ensures InBlock(ix, iy, px, py)
        <==> (0 <= TileX(ix, px) < MAPX && 0 <= TileY(iy, py) < MAPY)
  {
    var qx := (px - ix * XO) / SCALE;
    var qy := (py - iy * YO) / SCALE;
    assert px - ix * XO == qx * SCALE + (px - ix * XO) % SCALE;
    assert py - iy * YO == qy * SCALE + (py - iy * YO) % SCALE;
  }
}
