/** What Map.Draw paints, as the list of draw.Draw calls it makes: the
    background, then for each region cell in row-major order its runs, its
    notes and its four borders. */
module Compositing {
  import opened Wrappers
  import opened Geometry
  import opened Raster
  import opened Decoding

  /** The file system Draw reads from: the lines of each file that opens.
      A path that is not here fails to open. */
  type Files = map<string, FileContent>

  /** What each file decodes to. */
  type Contents = map<string, Result<Decoded, Error>>

  /** What each file of fs decodes to, built one file at a time; ReadAt
      states the entry of each path. */
  ghost function Read(fs: Files): (cs: Contents)
    ensures cs.Keys == fs.Keys
    decreases |fs.Keys|
  {
    if fs.Keys == {} then map[]
    else
      var path :| path in fs.Keys;
      Read(fs - {path})[path := Decode(fs[path])]
  }

  lemma {:induction false} ReadAt(fs: Files, path: string)
    requires path in fs
    ensures Read(fs)[path] == Decode(fs[path])
    decreases |fs.Keys|
  {
    var p :| p in fs.Keys && Read(fs) == Read(fs - {p})[p := Decode(fs[p])];
    if p != path {
      ReadAt(fs - {p}, path);
    }
  }

  /** The fields of a Map that Draw reads: the region of each coordinate,
      the west and south bounds and the grid's size in regions. */
  datatype Layout = Layout(maps: map<Point, string>, w: int, s: int, width: nat, height: nat)

  /** draw_rect(img, c, mode, ix, iy, t.x0, t.y0, t.x1, t.y1). */
  function TileOp(ix: int, iy: int, t: TileRect, c: Colour, mode: Mode): DrawOp
  {
    DrawOp(ToPixels(ix, iy, t), c, mode)
  }

  /** draw_rect for each rectangle of ts in turn. */
  function TileOps(ix: int, iy: int, ts: seq<TileRect>, c: Colour, mode: Mode): seq<DrawOp>
  {
    seq(|ts|, i requires 0 <= i < |ts| => TileOp(ix, iy, ts[i], c, mode))
  }

  /** The one-tile rectangle a note marks. */
  function NoteRect(p: Point): TileRect
  {
    TileRect(p.x, p.y, p.x, p.y)
  }

  function NoteRects(notes: seq<Point>): seq<TileRect>
  {
    seq(|notes|, i requires 0 <= i < |notes| => NoteRect(notes[i]))
  }

  /** The run loop's draws (CFG, draw.Src) followed by the note loop's
      (CNOTE, draw.Over). */
  function ContentOps(ix: int, iy: int, d: Decoded): seq<DrawOp>
  {
    TileOps(ix, iy, RunRects(d.runs), Fg, Src) + TileOps(ix, iy, NoteRects(d.notes), Note, Over)
  }

  /** The top, bottom, left and right edges of a region, in drawing order. */
  const EDGES: seq<TileRect> := [
    TileRect(0, 0, MAPX - 1, 0),
    TileRect(0, MAPY - 1, MAPX - 1, MAPY - 1),
    TileRect(0, 0, 0, MAPY - 1),
    TileRect(MAPX - 1, 0, MAPX - 1, MAPY - 1)
  ]

  /** CORIGIN for the region at coordinate (0, 0), CGRID for every other cell. */
  function BorderColour(x: int, y: int): Colour
  {
    if x == 0 && y == 0 then Origin else Grid
  }

  function BorderOps(ix: int, iy: int, x: int, y: int): seq<DrawOp>
  {
    TileOps(ix, iy, EDGES, BorderColour(x, y), Over)
  }

  /** What the cell at grid index (ix, iy) holds: no region, or the decoded
      file of the region at coordinate (w + ix, s + iy); opening or reading
      that file can fail. */
  function CellContent(l: Layout, cs: Contents, ix: int, iy: int): Result<Option<Decoded>, Error>
  {
    var p := Point(l.w + ix, l.s + iy);
    if p !in l.maps then Ok(None)
    else if l.maps[p] !in cs then Err(OpenFailure)
    else
      match cs[l.maps[p]]
      case Err(e) => Err(e)
      case Ok(d) => Ok(Some(d))
  }

  /** The draws of one cell: its content, if any, then its borders. */
  function CellOps(l: Layout, cs: Contents, ix: int, iy: int): (r: Result<seq<DrawOp>, Error>)
    ensures Point(l.w + ix, l.s + iy) !in l.maps ==> r.Ok?
  {
    match CellContent(l, cs, ix, iy)
    case Err(e) => Err(e)
    case Ok(None) => Ok(BorderOps(ix, iy, l.w + ix, l.s + iy))
    case Ok(Some(d)) => Ok(ContentOps(ix, iy, d) + BorderOps(ix, iy, l.w + ix, l.s + iy))
  }

  /** Every cell that does not fail ends with its four border edges, drawn
      after whatever content it has. */
  lemma CellBorders(l: Layout, cs: Contents, ix: int, iy: int)
    requires CellOps(l, cs, ix, iy).Ok?
    ensures var ops := CellOps(l, cs, ix, iy).value;
      |ops| >= 4 && ops[|ops| - 4..] == BorderOps(ix, iy, l.w + ix, l.s + iy)
  {
  }

  /** A cell without a region draws only its borders. */
  lemma CellEmpty(l: Layout, cs: Contents, ix: int, iy: int)
    requires Point(l.w + ix, l.s + iy) !in l.maps
    ensures CellOps(l, cs, ix, iy) == Ok(BorderOps(ix, iy, l.w + ix, l.s + iy))
  {
  }

  /** A cell whose region's file does not open fails with the open error. */
  lemma CellMissing(l: Layout, cs: Contents, ix: int, iy: int)
    requires Point(l.w + ix, l.s + iy) in l.maps && l.maps[Point(l.w + ix, l.s + iy)] !in cs
    ensures CellOps(l, cs, ix, iy) == Err(OpenFailure)
  {
  }

  /** A cell whose region's file decodes as r fails with r's error, or
      draws r's content and then its borders. */
  lemma CellRegion(l: Layout, cs: Contents, ix: int, iy: int, r: Result<Decoded, Error>)
    requires Point(l.w + ix, l.s + iy) in l.maps && l.maps[Point(l.w + ix, l.s + iy)] in cs
    requires cs[l.maps[Point(l.w + ix, l.s + iy)]] == r
    ensures r.Err? ==> CellOps(l, cs, ix, iy) == Err(r.error)
    ensures r.Ok? ==> CellOps(l, cs, ix, iy) == Ok(ContentOps(ix, iy, r.value) + BorderOps(ix, iy, l.w + ix, l.s + iy))
  {
  }

  /** Draws a, then, if a did not fail, draws b. */
  function Then(a: Result<seq<DrawOp>, Error>, b: Result<seq<DrawOp>, Error>): Result<seq<DrawOp>, Error>
  {
    match a
    case Err(e) => Err(e)
    case Ok(x) =>
      match b
      case Err(e) => Err(e)
      case Ok(y) => Ok(x + y)
  }

  /** The draws of every cell, row by row: cells[iy][ix] belongs to the
      region at coordinate (w + ix, s + iy). */
  function Cells(l: Layout, cs: Contents): (g: seq<seq<Result<seq<DrawOp>, Error>>>)
    ensures |g| == l.height
    ensures forall iy :: 0 <= iy < l.height ==> |g[iy]| == l.width
    ensures forall iy, ix {:trigger CellOps(l, cs, ix, iy)} :: 0 <= iy < l.height && 0 <= ix < l.width ==> g[iy][ix] == CellOps(l, cs, ix, iy)
  {
    CellRows(l, cs, l.height)
  }

  /** The first k rows of the grid. */
  function CellRows(l: Layout, cs: Contents, k: nat): (g: seq<seq<Result<seq<DrawOp>, Error>>>)
    ensures |g| == k
    ensures forall iy :: 0 <= iy < k ==> |g[iy]| == l.width
    ensures forall iy, ix {:trigger CellOps(l, cs, ix, iy)} :: 0 <= iy < k && 0 <= ix < l.width ==> g[iy][ix] == CellOps(l, cs, ix, iy)
  {
    if k == 0 then [] else CellRows(l, cs, k - 1) + [CellRow(l, cs, k - 1, l.width)]
  }

  /** The first k cells of row iy. */
  function CellRow(l: Layout, cs: Contents, iy: int, k: nat): (row: seq<Result<seq<DrawOp>, Error>>)
    ensures |row| == k
    ensures forall ix {:trigger CellOps(l, cs, ix, iy)} :: 0 <= ix < k ==> row[ix] == CellOps(l, cs, ix, iy)
  {
    if k == 0 then [] else CellRow(l, cs, iy, k - 1) + [CellOps(l, cs, k - 1, iy)]
  }

  /** The first k cells of a row, west to east, stopping at the first failure. */
  function Row(cells: seq<Result<seq<DrawOp>, Error>>, k: nat): Result<seq<DrawOp>, Error>
    requires k <= |cells|
  {
    if k == 0 then Ok([]) else Then(Row(cells, k - 1), cells[k - 1])
  }

  /** The first k rows, south to north. */
  function Rows(g: seq<seq<Result<seq<DrawOp>, Error>>>, k: nat): Result<seq<DrawOp>, Error>
    requires k <= |g|
  {
    if k == 0 then Ok([]) else Then(Rows(g, k - 1), Row(g[k - 1], |g[k - 1]|))
  }

  /** The draw.Src fill of the whole image with CBG. */
  function Background(l: Layout): DrawOp
  {
    DrawOp(Rect(0, 0, l.width * XO, l.height * YO), Bg, Src)
  }

  /** Everything Draw paints, or the error it returns. */
  function Render(l: Layout, cs: Contents): (r: Result<seq<DrawOp>, Error>)
    ensures r.Ok? ==> |r.value| >= 1 && r.value[0] == Background(l)
  {
    Then(Ok([Background(l)]), Rows(Cells(l, cs), l.height))
  }

  /** Some op of the list paints pixel (px, py) exactly when one of the
      rectangles covers the pixel's tile. */
  lemma TouchesTiles(ix: int, iy: int, ts: seq<TileRect>, c: Colour, mode: Mode, px: int, py: int)
    ensures Touches(TileOps(ix, iy, ts, c, mode), px, py) <==> Covered(ts, TileX(ix, px), TileY(iy, py))
  {
    var ops := TileOps(ix, iy, ts, c, mode);
    var tx, ty := TileX(ix, px), TileY(iy, py);
    if Touches(ops, px, py) {
      var op :| op in ops && Contains(op.r, px, py);
      var i :| 0 <= i < |ops| && ops[i] == op;
      PixelCoverage(ix, iy, ts[i], px, py);
      assert ts[i] in ts;
    }
    if Covered(ts, tx, ty) {
      var t :| t in ts && TileIn(t, tx, ty);
      var i :| 0 <= i < |ts| && ts[i] == t;
      PixelCoverage(ix, iy, t, px, py);
      assert ops[i] in ops;
    }
  }

  lemma TileOpsConcat(ix: int, iy: int, a: seq<TileRect>, b: seq<TileRect>, c: Colour, mode: Mode)
    ensures TileOps(ix, iy, a + b, c, mode) == TileOps(ix, iy, a, c, mode) + TileOps(ix, iy, b, c, mode)
  {
  }

  /** A note's rectangle is the note's own tile. */
  lemma NoteRectsCover(notes: seq<Point>, tx: int, ty: int)
    ensures Covered(NoteRects(notes), tx, ty) <==> Point(tx, ty) in notes
  {
    var ts := NoteRects(notes);
    if Covered(ts, tx, ty) {
      var t :| t in ts && TileIn(t, tx, ty);
      var i :| 0 <= i < |ts| && ts[i] == t;
      assert notes[i] == Point(tx, ty);
    }
    if Point(tx, ty) in notes {
      var i :| 0 <= i < |notes| && notes[i] == Point(tx, ty);
      assert ts[i] in ts && TileIn(ts[i], tx, ty);
    }
  }

  /** Then succeeds exactly when both parts do, with the draws of both. */
  lemma ThenOk(a: Result<seq<DrawOp>, Error>, b: Result<seq<DrawOp>, Error>)
    ensures Then(a, b).Ok? <==> a.Ok? && b.Ok?
    ensures Then(a, b).Ok? ==> Then(a, b).value == a.value + b.value
  {
  }
}
