/** The picture Map.Draw produces, pixel by pixel: every pixel of the image
    takes the colour its region cell gives its tile, with the cell's border
    blended over it. */
module Picture {
  import opened Wrappers
  import opened Geometry
  import opened Raster
  import opened Decoding
  import opened Compositing

  /** A region file that describes at most one region's tiles: positive run
      lengths that add up to at most MAPX * MAPY, and notes on tiles of the
      region. */
  predicate Fits(d: Decoded)
  {
    && Positive(d.runs) && Position(d.runs) <= MAPX * MAPY
    && forall i :: 0 <= i < |d.notes| ==> 0 <= d.notes[i].x < MAPX && 0 <= d.notes[i].y < MAPY
  }

  /** The file of cell (ix, iy), if the cell has one and it decodes,
      describes at most one region. */
  predicate CellFits(l: Layout, cs: Contents, ix: int, iy: int)
  {
    var p := Point(l.w + ix, l.s + iy);
    p in l.maps && l.maps[p] in cs && cs[l.maps[p]].Ok? ==> Fits(cs[l.maps[p]].value)
  }

  /** Every file the map names that decodes describes at most one region;
      files the map does not name are never opened and do not matter. */
  predicate WellFormed(l: Layout, cs: Contents)
  {
    forall p :: p in l.maps && l.maps[p] in cs && cs[l.maps[p]].Ok? ==> Fits(cs[l.maps[p]].value)
  }

  /** The run lengths of a cell's content, when it has one, are positive. */
  predicate PositiveRuns(content: Option<Decoded>)
  {
    content.Some? ==> Positive(content.value.runs)
  }

  /** Colour c blended n times over colour u. */
  function Layer(c: Colour, n: nat, u: Colour): Colour
  {
    if n == 0 then u else Composite(c, Layer(c, n - 1, u))
  }

  /** How many of a region's four edges pass through local tile (tx, ty):
      two at a corner, one elsewhere on the rim, none inside. */
  function EdgeCount(tx: int, ty: int): nat
  {
    (if ty == 0 then 1 else 0) + (if ty == MAPY - 1 then 1 else 0)
    + (if tx == 0 then 1 else 0) + (if tx == MAPX - 1 then 1 else 0)
  }

  /** The colour the content of a cell gives local tile (tx, ty): CNOTE on
      a note's tile, CFG on a tile of a visited run, CBG otherwise. */
  function ContentColour(content: Option<Decoded>, tx: int, ty: int): Colour
  {
    match content
    case None => Bg
    case Some(d) =>
      if Point(tx, ty) in d.notes then Note
      else if Visited(d.runs, ty * MAPX + tx) then Fg
      else Bg
  }

  /** Every pixel the ops paint lies in the block of region cell (ix, iy). */
  ghost predicate Stays(ops: seq<DrawOp>, ix: int, iy: int)
  {
    forall op, px, py :: op in ops && Contains(op.r, px, py) ==> InBlock(ix, iy, px, py)
  }

  /** Every tile the rectangles cover lies inside a region. */
  ghost predicate InRegion(ts: seq<TileRect>)
  {
    forall t, tx, ty :: t in ts && TileIn(t, tx, ty) ==> 0 <= tx < MAPX && 0 <= ty < MAPY
  }

  lemma TileOpsStay(ix: int, iy: int, ts: seq<TileRect>, c: Colour, mode: Mode)
    requires InRegion(ts)
    ensures Stays(TileOps(ix, iy, ts, c, mode), ix, iy)
  {
    var ops := TileOps(ix, iy, ts, c, mode);
    forall op, px, py | op in ops && Contains(op.r, px, py) ensures InBlock(ix, iy, px, py) {
      var i :| 0 <= i < |ops| && ops[i] == op;
      PixelCoverage(ix, iy, ts[i], px, py);
      assert ts[i] in ts;
      LocalTileInRange(ix, iy, px, py);
    }
  }

  lemma RunRectsInside(runs: seq<Run>)
    requires Positive(runs) && Position(runs) <= MAPX * MAPY
    ensures InRegion(RunRects(runs))
  {
    forall t, tx, ty | t in RunRects(runs) && TileIn(t, tx, ty) ensures 0 <= tx < MAPX && 0 <= ty < MAPY {
      RunRectsInRegion(runs, tx, ty);
    }
  }

  lemma NoteRectsInside(notes: seq<Point>)
    requires forall i :: 0 <= i < |notes| ==> 0 <= notes[i].x < MAPX && 0 <= notes[i].y < MAPY
    ensures InRegion(NoteRects(notes))
  {
    forall t, tx, ty | t in NoteRects(notes) && TileIn(t, tx, ty) ensures 0 <= tx < MAPX && 0 <= ty < MAPY {
      NoteRectsCover(notes, tx, ty);
      assert Covered(NoteRects(notes), tx, ty);
    }
  }

  lemma EdgesInside()
    ensures InRegion(EDGES)
  {
    forall t, tx, ty | t in EDGES && TileIn(t, tx, ty) ensures 0 <= tx < MAPX && 0 <= ty < MAPY {
      assert t == EDGES[0] || t == EDGES[1] || t == EDGES[2] || t == EDGES[3];
    }
  }

  /** When its own file fits, a cell paints only inside its own block. */
  lemma CellStays(l: Layout, cs: Contents, ix: int, iy: int)
    requires CellFits(l, cs, ix, iy) && CellOps(l, cs, ix, iy).Ok?
    ensures Stays(CellOps(l, cs, ix, iy).value, ix, iy)
  {
    var border := BorderOps(ix, iy, l.w + ix, l.s + iy);
    EdgesInside();
    TileOpsStay(ix, iy, EDGES, BorderColour(l.w + ix, l.s + iy), Over);
    var content := CellContent(l, cs, ix, iy).value;
    if content.Some? {
      var d := content.value;
      assert Fits(d);
      RunRectsInside(d.runs);
      NoteRectsInside(d.notes);
      TileOpsStay(ix, iy, RunRects(d.runs), Fg, Src);
      TileOpsStay(ix, iy, NoteRects(d.notes), Note, Over);
    }
  }

  /** A file whose runs run past the region's last tile paints outside its
      own cell: a visited run over the last tile and one more paints the
      first pixel of the block of the cell above. */
  lemma RunPastRegion(ix: int, iy: int)
    ensures var px, py := ix * XO, (iy + 1) * YO;
      && Touches(TileOps(ix, iy, SplitRun(MAPX * MAPY - 1, 2), Fg, Src), px, py)
      && InBlock(ix, iy + 1, px, py) && !InBlock(ix, iy, px, py)
  {
    var px, py := ix * XO, (iy + 1) * YO;
    assert TileX(ix, px) == 0;
    assert py - iy * YO == YO;
    assert TileY(iy, py) == MAPY;
    SplitRunCovers(MAPX * MAPY - 1, 2, 0, MAPY);
    TouchesTiles(ix, iy, SplitRun(MAPX * MAPY - 1, 2), Fg, Src, px, py);
  }

  /** Blocks of different cells do not overlap. */
  lemma Away(ops: seq<DrawOp>, ix: int, iy: int, cx: int, cy: int, px: int, py: int)
    requires Stays(ops, ix, iy) && InBlock(cx, cy, px, py) && (ix != cx || iy != cy)
    ensures !Touches(ops, px, py)
  {
    forall op | op in ops ensures !Contains(op.r, px, py) {
      if Contains(op.r, px, py) {
        BlocksDisjoint(ix, iy, cx, cy, px, py);
      }
    }
  }

  lemma BlocksDisjoint(ix: int, iy: int, cx: int, cy: int, px: int, py: int)
    requires InBlock(ix, iy, px, py) && InBlock(cx, cy, px, py)
    ensures ix == cx && iy == cy
  {
  }

  /** Ops that all blend the same translucent colour c lay it over the
      pixel once for each op that covers the pixel. */
  lemma {:induction false} PaintLayers(u: Colour, ops: seq<DrawOp>, c: Colour, px: int, py: int)
    requires !Opaque(c) && c != Transparent
    requires forall op :: op in ops ==> op.c == c && op.mode == Over
    ensures PaintOver(u, ops, px, py) == Layer(c, Hits(ops, px, py), u)
    decreases |ops|
  {
    if ops != [] {
      var init := ops[..|ops| - 1];
      assert ops[|ops| - 1] in ops;
      forall op | op in init ensures op.c == c && op.mode == Over { assert op in ops; }
      PaintLayers(u, init, c, px, py);
    }
  }

  /** The number of ops that cover pixel (px, py). */
  function Hits(ops: seq<DrawOp>, px: int, py: int): nat
    decreases |ops|
  {
    if ops == [] then 0
    else Hits(ops[..|ops| - 1], px, py) + if Contains(ops[|ops| - 1].r, px, py) then 1 else 0
  }

  /** The four edges blend the border colour over a tile once per edge
      through it. */
  lemma BorderPaint(u: Colour, ix: int, iy: int, x: int, y: int, px: int, py: int)
    requires InBlock(ix, iy, px, py)
    ensures PaintOver(u, BorderOps(ix, iy, x, y), px, py)
         == Layer(BorderColour(x, y), EdgeCount(TileX(ix, px), TileY(iy, py)), u)
  {
    var c := BorderColour(x, y);
    var ops := BorderOps(ix, iy, x, y);
    forall op | op in ops ensures op.c == c && op.mode == Over {
      var i :| 0 <= i < |ops| && ops[i] == op;
    }
    PaintLayers(u, ops, c, px, py);
    BorderHits(ops, ix, iy, c, px, py);
  }

  lemma BorderHits(ops: seq<DrawOp>, ix: int, iy: int, c: Colour, px: int, py: int)
    requires ops == TileOps(ix, iy, EDGES, c, Over) && InBlock(ix, iy, px, py)
    ensures Hits(ops, px, py) == EdgeCount(TileX(ix, px), TileY(iy, py))
  {
    var tx, ty := TileX(ix, px), TileY(iy, py);
    LocalTileInRange(ix, iy, px, py);
    PixelCoverage(ix, iy, EDGES[0], px, py);
    PixelCoverage(ix, iy, EDGES[1], px, py);
    PixelCoverage(ix, iy, EDGES[2], px, py);
    PixelCoverage(ix, iy, EDGES[3], px, py);
    assert ops[..3][..2] == ops[..2] && ops[..2][..1] == ops[..1] && ops[..1][..0] == [];
    assert Hits(ops[..1], px, py) == if ty == 0 && 0 <= tx < MAPX then 1 else 0;
    assert Hits(ops[..2], px, py) == Hits(ops[..1], px, py) + if ty == MAPY - 1 && 0 <= tx < MAPX then 1 else 0;
    assert Hits(ops[..3], px, py) == Hits(ops[..2], px, py) + if tx == 0 && 0 <= ty < MAPY then 1 else 0;
    assert Hits(ops, px, py) == Hits(ops[..3], px, py) + if tx == MAPX - 1 && 0 <= ty < MAPY then 1 else 0;
  }

  /** A region's content over the CBG fill: the visited runs' CFG, then the
      notes' CNOTE on top. */
  lemma ContentPaint(ix: int, iy: int, d: Decoded, px: int, py: int)
    requires Positive(d.runs) && InBlock(ix, iy, px, py)
    ensures PaintOver(Bg, ContentOps(ix, iy, d), px, py) == ContentColour(Some(d), TileX(ix, px), TileY(iy, py))
  {
    var runOps := TileOps(ix, iy, RunRects(d.runs), Fg, Src);
    var noteOps := TileOps(ix, iy, NoteRects(d.notes), Note, Over);
    PaintConcat(Bg, runOps, noteOps, px, py);
    RunPaint(ix, iy, d.runs, px, py);
    NotePaint(ix, iy, d.notes, PaintOver(Bg, runOps, px, py), px, py);
  }

  /** The run loop's draws turn the tile CFG exactly when a visited run covers it. */
  lemma RunPaint(ix: int, iy: int, runs: seq<Run>, px: int, py: int)
    requires Positive(runs) && InBlock(ix, iy, px, py)
    ensures var tx, ty := TileX(ix, px), TileY(iy, py);
      PaintOver(Bg, TileOps(ix, iy, RunRects(runs), Fg, Src), px, py)
      == if Visited(runs, ty * MAPX + tx) then Fg else Bg
  {
    var ops := TileOps(ix, iy, RunRects(runs), Fg, Src);
    forall op | op in ops ensures Leaves(op, Fg) {
      var i :| 0 <= i < |ops| && ops[i] == op;
    }
    PaintUniform(Bg, ops, Fg, px, py);
    TouchesTiles(ix, iy, RunRects(runs), Fg, Src, px, py);
    LocalTileInRange(ix, iy, px, py);
    RunRectsCover(runs, TileX(ix, px), TileY(iy, py));
  }

  /** The note loop's draws turn the tile CNOTE exactly when a note is on it. */
  lemma NotePaint(ix: int, iy: int, notes: seq<Point>, u: Colour, px: int, py: int)
    ensures PaintOver(u, TileOps(ix, iy, NoteRects(notes), Note, Over), px, py)
      == if Point(TileX(ix, px), TileY(iy, py)) in notes then Note else u
  {
    var ops := TileOps(ix, iy, NoteRects(notes), Note, Over);
    forall op | op in ops ensures Leaves(op, Note) {
      var i :| 0 <= i < |ops| && ops[i] == op;
    }
    PaintUniform(u, ops, Note, px, py);
    TouchesTiles(ix, iy, NoteRects(notes), Note, Over, px, py);
    NoteRectsCover(notes, TileX(ix, px), TileY(iy, py));
  }

  /** One cell's draws over the CBG fill: the content's colour with the
      border blended over it once per edge through the tile. */
  lemma CellPaint(l: Layout, cs: Contents, ix: int, iy: int, px: int, py: int)
    requires CellOps(l, cs, ix, iy).Ok? && InBlock(ix, iy, px, py)
    requires CellContent(l, cs, ix, iy).Ok? ==> PositiveRuns(CellContent(l, cs, ix, iy).value)
    ensures CellContent(l, cs, ix, iy).Ok?
    ensures var tx, ty := TileX(ix, px), TileY(iy, py);
      PaintOver(Bg, CellOps(l, cs, ix, iy).value, px, py)
      == Layer(BorderColour(l.w + ix, l.s + iy), EdgeCount(tx, ty), ContentColour(CellContent(l, cs, ix, iy).value, tx, ty))
  {
    var border := BorderOps(ix, iy, l.w + ix, l.s + iy);
    var content := CellContent(l, cs, ix, iy).value;
    var tx, ty := TileX(ix, px), TileY(iy, py);
    match content
    case None =>
      BorderPaint(Bg, ix, iy, l.w + ix, l.s + iy, px, py);
    case Some(d) =>
      ContentPaint(ix, iy, d, px, py);
      PaintConcat(Bg, ContentOps(ix, iy, d), border, px, py);
      BorderPaint(ContentColour(content, tx, ty), ix, iy, l.w + ix, l.s + iy, px, py);
  }

  /** The first k cells of row iy leave a pixel of block (cx, cy) as it was
      unless its own cell is among them, and then paint it as that cell alone
      does. */
  lemma {:induction false} RowPaint(cells: seq<Result<seq<DrawOp>, Error>>, iy: int, k: nat, base: Colour, cx: int, cy: int, px: int, py: int)
    requires k <= |cells| && Row(cells, k).Ok? && InBlock(cx, cy, px, py)
    requires forall ix :: 0 <= ix < |cells| && cells[ix].Ok? ==> Stays(cells[ix].value, ix, iy)
    ensures iy == cy && 0 <= cx < k ==> cells[cx].Ok?
    ensures PaintOver(base, Row(cells, k).value, px, py)
         == if iy == cy && 0 <= cx < k then PaintOver(base, cells[cx].value, px, py) else base
    decreases k
  {
    if k > 0 {
      ThenOk(Row(cells, k - 1), cells[k - 1]);
      var before, cell := Row(cells, k - 1).value, cells[k - 1].value;
      RowPaint(cells, iy, k - 1, base, cx, cy, px, py);
      PaintConcat(base, before, cell, px, py);
      if k - 1 != cx || iy != cy {
        Away(cell, k - 1, iy, cx, cy, px, py);
        PaintUntouched(PaintOver(base, before, px, py), cell, px, py);
      }
    }
  }

  /** The same for the first k rows of the grid. */
  lemma {:induction false} GridPaint(g: seq<seq<Result<seq<DrawOp>, Error>>>, k: nat, base: Colour, cx: int, cy: int, px: int, py: int)
    requires k <= |g| && Rows(g, k).Ok? && InBlock(cx, cy, px, py)
    requires forall iy, ix :: 0 <= iy < |g| && 0 <= ix < |g[iy]| && g[iy][ix].Ok? ==> Stays(g[iy][ix].value, ix, iy)
    ensures 0 <= cy < k && 0 <= cx < |g[cy]| ==> g[cy][cx].Ok?
    ensures PaintOver(base, Rows(g, k).value, px, py)
         == if 0 <= cy < k && 0 <= cx < |g[cy]| then PaintOver(base, g[cy][cx].value, px, py) else base
    decreases k
  {
    if k > 0 {
      ThenOk(Rows(g, k - 1), Row(g[k - 1], |g[k - 1]|));
      var before, row := Rows(g, k - 1).value, Row(g[k - 1], |g[k - 1]|).value;
      GridPaint(g, k - 1, base, cx, cy, px, py);
      PaintConcat(base, before, row, px, py);
      RowPaint(g[k - 1], k - 1, |g[k - 1]|, PaintOver(base, before, px, py), cx, cy, px, py);
    }
  }

  /** Under well-formed files every cell paints inside its own block only. */
  lemma CellsStay(l: Layout, cs: Contents)
    requires WellFormed(l, cs)
    ensures var g := Cells(l, cs);
      forall iy, ix :: 0 <= iy < |g| && 0 <= ix < |g[iy]| && g[iy][ix].Ok? ==> Stays(g[iy][ix].value, ix, iy)
  {
    var g: seq<seq<Result<seq<DrawOp>, Error>>> := Cells(l, cs);
    forall iy: int, ix: int | 0 <= iy < |g| && 0 <= ix < |g[iy]| && g[iy][ix].Ok? ensures Stays(g[iy][ix].value, ix, iy) {
      assert g[iy][ix] == CellOps(l, cs, ix, iy);
      assert CellFits(l, cs, ix, iy);
      CellStays(l, cs, ix, iy);
    }
  }

  /** The picture: each pixel of a drawn map lies in the block of one region
      cell, and takes the colour that cell's content gives its tile (CNOTE,
      CFG or CBG), with the cell's border colour (CORIGIN at coordinate
      (0, 0), CGRID elsewhere) blended over it once per edge through the
      tile. */
  lemma RenderPixel(l: Layout, cs: Contents, px: int, py: int)
    requires WellFormed(l, cs) && Render(l, cs).Ok?
    requires 0 <= px < l.width * XO && 0 <= py < l.height * YO
    ensures var cx, cy := px / XO, py / YO;
      && 0 <= cx < l.width && 0 <= cy < l.height && InBlock(cx, cy, px, py)
      && CellContent(l, cs, cx, cy).Ok?
      && var tx, ty := TileX(cx, px), TileY(cy, py);
         Paint(Render(l, cs).value, px, py)
         == Layer(BorderColour(l.w + cx, l.s + cy), EdgeCount(tx, ty), ContentColour(CellContent(l, cs, cx, cy).value, tx, ty))
  {
    var cx, cy := px / XO, py / YO;
    PixelBlock(l, px, py);
    var g := Cells(l, cs);
    CellsStay(l, cs);
    ThenOk(Ok([Background(l)]), Rows(g, l.height));
    assert Contains(Background(l).r, px, py);
    PicturePaint(Background(l), g, px, py, cx, cy);
    CellPositive(l, cs, cx, cy);
    CellPaint(l, cs, cx, cy, px, py);
  }

  /** Under well-formed files the content of every cell has positive run lengths. */
  lemma CellPositive(l: Layout, cs: Contents, ix: int, iy: int)
    requires WellFormed(l, cs)
    ensures CellContent(l, cs, ix, iy).Ok? ==> PositiveRuns(CellContent(l, cs, ix, iy).value)
  {
    assert CellFits(l, cs, ix, iy);
  }

  /** Pixel (px, py) of the image lies in the block of grid cell (px / XO, py / YO). */
  lemma PixelBlock(l: Layout, px: int, py: int)
    requires 0 <= px < l.width * XO && 0 <= py < l.height * YO
    ensures 0 <= px / XO < l.width && 0 <= py / YO < l.height && InBlock(px / XO, py / YO, px, py)
  {
  }

  /** The CBG fill under the rows of cells: a pixel of cell (cx, cy)'s
      block ends as that cell alone paints it over CBG. */
  lemma PicturePaint(bg: DrawOp, g: seq<seq<Result<seq<DrawOp>, Error>>>, px: int, py: int, cx: int, cy: int)
    requires bg.c == Bg && bg.mode == Src && Contains(bg.r, px, py)
    requires Rows(g, |g|).Ok? && InBlock(cx, cy, px, py) && 0 <= cy < |g| && 0 <= cx < |g[cy]|
    requires forall iy, ix :: 0 <= iy < |g| && 0 <= ix < |g[iy]| && g[iy][ix].Ok? ==> Stays(g[iy][ix].value, ix, iy)
    ensures g[cy][cx].Ok?
    ensures Paint([bg] + Rows(g, |g|).value, px, py) == PaintOver(Bg, g[cy][cx].value, px, py)
  {
    PaintConcat(Transparent, [bg], Rows(g, |g|).value, px, py);
    assert [bg][..0] == [];
    GridPaint(g, |g|, Bg, cx, cy, px, py);
  }
}
