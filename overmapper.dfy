/** The Map of overmapper.go: NewMap fills one in from a directory walk,
    Draw paints it onto a new image. */
module Overmapper {
  import opened Wrappers
  import opened Geometry
  import opened Raster
  import opened Scanning
  import opened Regions
  import opened Decoding
  import opened Compositing

  /** The map: the grid's size in regions, the bounds on region coordinates
      (north, south, west, east) and the seen file of each coordinate. */
  class Map {
    var width: int
    var height: int
    var n: int
    var s: int
    var w: int
    var e: int
    var maps: map<Point, string>

    /** A map as NewMap returns it: the bounds contain the origin and every
        recorded coordinate, the size spans the bounds, and at least one
        region is recorded. */
    ghost predicate Valid()
      reads this
    {
      && w <= 0 <= e && s <= 0 <= n
      && width == e - w + 1 && height == n - s + 1
      && |maps| > 0
      && forall k :: k in maps ==> w <= k.x <= e && s <= k.y <= n
    }

    /** The fields as the state of the walk callback, with identity id. */
    ghost predicate Holds(st: Found)
      reads this
    {
      maps == st.maps && w == st.w && e == st.e && s == st.s && n == st.n
    }

    /** &Map{maps: make(map[image.Point]string)}: zero bounds, no regions. */
    constructor ()
      ensures Holds(START) && width == 0 && height == 0
    {
      width, height := 0, 0;
      n, s, w, e := 0, 0, 0, 0;
      maps := map[];
    }

    /** NewMap's walk callback on one entry that it matched or passed over,
        with id the identity captured so far: capture the entry's identity if
        none is captured, fail with ErrMultiChars on a different one or on a
        number strconv.Atoi rejects, else record the path under its
        coordinate and widen the bounds to include it. */
    method Record(id: string, sighting: Sighting) returns (id': string, err: Option<Error>)
      modifies this
      ensures Visit(Found(id, old(maps), old(w), old(e), old(s), old(n)), sighting)
           == if err.Some? then Err(err.value) else Ok(Found(id', maps, w, e, s, n))
      ensures width == old(width) && height == old(height)
    {
      id', err := id, None;
      match sighting.seen {
        case None =>
        case Some(named) =>
          if id' == "" {
            id' := named.id;
          }
          if id' != named.id {
            return id', Some(MultipleCharacters);
          }
          if !InIntRange(named.x) || !InIntRange(named.y) {
            return id', Some(NumberOutOfRange);
          }
          var x, y := named.x, named.y;
          maps := maps[Point(x, y) := sighting.path];
          if x < w {
            w := x;
          }
          if x > e {
            e := x;
          }
          if y > n {
            n := y;
          }
          if y < s {
            s := y;
          }
      }
    }

    /** What Draw reads of the map. */
    function Plan(): Layout
      requires Valid()
      reads this
    {
      Layout(maps, w, s, width, height)
    }

    /** Draw: a new width * XO by height * YO image filled with CBG, then
        each cell in row-major order, south to north and west to east; the
        first failing cell's error is returned instead of the image. */
    method Draw(fs: Files) returns (r: Result<Canvas, Error>)
      requires Valid()
      ensures r.Ok? ==> fresh(r.value) && fresh(r.value.pixels) && r.value.Valid()
      ensures r.Ok? ==> r.value.width == width * XO && r.value.height == height * YO
      ensures Render(Plan(), Read(fs)) == if r.Ok? then Ok(r.value.history) else Err(r.error)
    {
      var img := new Canvas(width * XO, height * YO);
      img.Draw(Rect(0, 0, width * XO, height * YO), Bg, Src);
      ghost var bg := [Background(Plan())];
      ghost var g := Cells(Plan(), Read(fs));
      var iy := 0;
      var y := s;
      while y <= n
        invariant s <= y <= n + 1 && iy == y - s
        invariant img.Valid() && fresh(img) && fresh(img.pixels)
        invariant img.width == width * XO && img.height == height * YO
        invariant Rows(g, iy).Ok? && img.history == bg + Rows(g, iy).value
      {
        ghost var before := img.history;
        var err := DrawRow(img, fs, g, iy, y);
        if err.Some? {
          RowFails(g, iy);
          return Err(err.value);
        }
        RowStep(g, iy, bg, before, img.history);
        iy, y := iy + 1, y + 1;
      }
      ThenOk(Ok(bg), Rows(g, iy));
      return Ok(img);
    }

    /** Draw's inner loop for the row of grid index iy, whose coordinate is
        y: the cells west to east, stopping at the first that fails. */
    method DrawRow(img: Canvas, fs: Files, ghost g: seq<seq<Result<seq<DrawOp>, Error>>>, iy: int, y: int)
      returns (err: Option<Error>)
      requires Valid() && img.Valid() && g == Cells(Plan(), Read(fs))
      requires 0 <= iy < height && y == s + iy
      modifies img, img.pixels
      ensures img.Valid()
      ensures Row(g[iy], |g[iy]|).Ok? <==> err.None?
      ensures err.Some? ==> Row(g[iy], |g[iy]|) == Err(err.value)
      ensures err.None? ==> img.history == old(img.history) + Row(g[iy], |g[iy]|).value
    {
      var ix := 0;
      var x := w;
      while x <= e
        invariant w <= x <= e + 1 && ix == x - w
        invariant img.Valid()
        invariant Row(g[iy], ix).Ok? && img.history == old(img.history) + Row(g[iy], ix).value
      {
        ghost var before := img.history;
        err := DrawCell(img, fs, ix, iy, x, y);
        if err.Some? {
          RowStops(g[iy], ix + 1, |g[iy]|);
          return;
        }
        CellStep(g[iy], ix, old(img.history), before, img.history);
        ix, x := ix + 1, x + 1;
      }
      return None;
    }

    /** The body of Draw's inner loop for the cell at coordinate (x, y),
        grid index (ix, iy): its region, if it has one, then its borders. */
    method DrawCell(img: Canvas, fs: Files, ix: int, iy: int, x: int, y: int) returns (err: Option<Error>)
      requires Valid() && img.Valid() && x == w + ix && y == s + iy
      modifies img, img.pixels
      ensures img.Valid()
      ensures CellOps(Plan(), Read(fs), ix, iy).Ok? <==> err.None?
      ensures err.Some? ==> CellOps(Plan(), Read(fs), ix, iy) == Err(err.value)
      ensures err.None? ==> img.history == old(img.history) + CellOps(Plan(), Read(fs), ix, iy).value
    {
      var p := Point(x, y);
      if p in maps {
        var path := maps[p];
        if path !in fs {
          CellMissing(Plan(), Read(fs), ix, iy);
          return Some(OpenFailure);
        }
        err := DrawRegion(img, fs, path, ix, iy);
        CellRegion(Plan(), Read(fs), ix, iy, Read(fs)[path]);
        if err.Some? {
          return;
        }
        ghost var content := ContentOps(ix, iy, Read(fs)[path].value);
        DrawBorders(img, ix, iy, x, y);
        AppendAssoc(old(img.history), content, BorderOps(ix, iy, x, y));
        return None;
      }
      CellEmpty(Plan(), Read(fs), ix, iy);
      DrawBorders(img, ix, iy, x, y);
      return None;
    }
  }

  /** The four edges of the cell at grid index (ix, iy), in CORIGIN when
      the cell's coordinate (x, y) is the origin, in CGRID otherwise. */
  method DrawBorders(img: Canvas, ix: int, iy: int, x: int, y: int)
    requires img.Valid()
    modifies img, img.pixels
    ensures img.Valid()
    ensures img.history == old(img.history) + BorderOps(ix, iy, x, y)
  {
    var c := if x == 0 && y == 0 then Origin else Grid;
    DrawRect(img, c, Over, ix, iy, 0, 0, MAPX - 1, 0);
    DrawRect(img, c, Over, ix, iy, 0, MAPY - 1, MAPX - 1, MAPY - 1);
    DrawRect(img, c, Over, ix, iy, 0, 0, 0, MAPY - 1);
    DrawRect(img, c, Over, ix, iy, MAPX - 1, 0, MAPX - 1, MAPY - 1);
  }

  /** The part of Draw's inner loop that reads a region's seen file: scan
      to the LEVEL line, paint the runs of the line after it, skip two lines,
      then paint the note positions. */
  method DrawRegion(img: Canvas, fs: Files, path: string, ix: int, iy: int) returns (err: Option<Error>)
    requires img.Valid() && path in fs
    modifies img, img.pixels
    ensures img.Valid()
    ensures Read(fs)[path].Ok? <==> err.None?
    ensures err.Some? ==> Read(fs)[path] == Err(err.value)
    ensures err.None? ==> img.history == old(img.history) + ContentOps(ix, iy, Read(fs)[path].value)
  {
    ReadAt(fs, path);
    err := DrawFile(img, fs[path], ix, iy);
  }

  /** The reading of one opened seen file f and the draws it makes. */
  method DrawFile(img: Canvas, f: FileContent, ix: int, iy: int) returns (err: Option<Error>)
    requires img.Valid()
    modifies img, img.pixels
    ensures img.Valid()
    ensures Decode(f).Ok? <==> err.None?
    ensures err.Some? ==> Decode(f) == Err(err.value)
    ensures err.None? ==> img.history == old(img.history) + ContentOps(ix, iy, Decode(f).value)
  {
    var lines := f.lines;
    var next, found := SkipToLevel(lines);
    if !found && f.readFailed {
      return Some(ReadFailure);
    }
    err := DrawLevel(img, lines, next, ix, iy);
  }

  /** The rest of the region's body once the scanner has handed out the
      first c lines: the run line, the E line and the line after it, then
      the notes. */
  method DrawLevel(img: Canvas, lines: seq<string>, c: nat, ix: int, iy: int) returns (err: Option<Error>)
    requires img.Valid() && c <= |lines|
    modifies img, img.pixels
    ensures img.Valid()
    ensures DecodeFrom(lines, c).Ok? <==> err.None?
    ensures err.Some? ==> DecodeFrom(lines, c) == Err(err.value)
    ensures err.None? ==> img.history == old(img.history) + ContentOps(ix, iy, DecodeFrom(lines, c).value)
  {
    var next := c;
    var data := "";
    if next < |lines| {
      data := lines[next];
      next := next + 1;
    }
    assert data == LineAt(lines, c);
    err := DrawRuns(img, data, ix, iy);
    if err.Some? {
      return;
    }
    // the E line and the line after it
    next := Min(next + 1, |lines|);
    next := Min(next + 1, |lines|);
    assert next == Min(c + 3, |lines|);
    ghost var runOps := TileOps(ix, iy, RunRects(ScanRuns(data).value), Fg, Src);
    DrawNotes(img, lines, next, ix, iy);
    AppendAssoc(old(img.history), runOps, TileOps(ix, iy, NoteRects(Notes(NoteScans(lines), next)), Note, Over));
  }

  /** The scanner loop that looks for the LEVEL line: the number of lines
      it hands out, and whether the last of them was LEVEL. */
  method SkipToLevel(lines: seq<string>) returns (next: nat, found: bool)
    ensures next <= |lines|
    ensures found ==> 1 <= next && FindLevel(lines, 0) == Some(next - 1)
    ensures !found ==> next == |lines| && FindLevel(lines, 0).None?
  {
    next, found := 0, false;
    while next < |lines| && !found
      invariant next <= |lines|
      invariant found ==> 1 <= next && lines[next - 1] == LEVEL
      invariant forall i :: 0 <= i < next - (if found then 1 else 0) ==> lines[i] != LEVEL
    {
      var line := lines[next];
      next := next + 1;
      if line == LEVEL {
        found := true;
      }
    }
    if found {
      FindLevelAt(lines, next - 1);
    }
  }

  /** The run loop: fmt.Fscanf(data, "%d %d") again and again, painting each
      visited run at the position the lengths before it add up to, until
      io.EOF; any other error is returned. */
  method DrawRuns(img: Canvas, line: string, ix: int, iy: int) returns (err: Option<Error>)
    requires img.Valid()
    modifies img, img.pixels
    ensures img.Valid()
    ensures ScanRuns(line).Ok? <==> err.None?
    ensures err.Some? ==> ScanRuns(line) == Err(err.value)
    ensures err.None? ==> img.history == old(img.history) + TileOps(ix, iy, RunRects(ScanRuns(line).value), Fg, Src)
  {
    var data := line;
    ghost var runs: seq<Run> := [];
    var position := 0;
    PrependNone(ScanRuns(data));
    while true
      invariant img.Valid()
      invariant ScanRuns(line) == Prepend(runs, ScanRuns(data))
      invariant position == Position(runs)
      invariant img.history == old(img.history) + TileOps(ix, iy, RunRects(runs), Fg, Src)
      decreases |data|
    {
      var done, run, rest;
      done, err, run, rest := DrawNextRun(img, data, position, ix, iy);
      if done {
        if err.None? {
          assert runs + [] == runs;
        }
        return;
      }
      RunLoopStep(ix, iy, runs, run, ScanRuns(line), ScanRuns(data), ScanRuns(rest), old(img.history));
      runs := runs + [run];
      position := position + run.length;
      data := rest;
    }
  }

  /** The run loop's invariant survives one more run: the runs still to
      read lose their first, which joins the runs read so far, and the
      history gains that run's rectangles. */
  lemma RunLoopStep(ix: int, iy: int, runs: seq<Run>, run: Run, whole: Result<seq<Run>, Error>,
                    ahead: Result<seq<Run>, Error>, rest: Result<seq<Run>, Error>, h: seq<DrawOp>)
    requires whole == Prepend(runs, ahead) && ahead == Prepend([run], rest)
    ensures whole == Prepend(runs + [run], rest)
    ensures h + TileOps(ix, iy, RunRects(runs), Fg, Src)
              + TileOps(ix, iy, if run.visited == 1 then SplitRun(Position(runs), run.length) else [], Fg, Src)
         == h + TileOps(ix, iy, RunRects(runs + [run]), Fg, Src)
  {
    RunsSnoc(ix, iy, runs, run);
    PrependSnoc(runs, run, rest);
    AppendAssoc(h, TileOps(ix, iy, RunRects(runs), Fg, Src),
      TileOps(ix, iy, if run.visited == 1 then SplitRun(Position(runs), run.length) else [], Fg, Src));
  }

  lemma AppendAssoc(h: seq<DrawOp>, a: seq<DrawOp>, b: seq<DrawOp>)
    ensures h + a + b == h + (a + b)
  {
  }

  /** One pass of the run loop: one Fscanf call on the unread data, and the
      rectangles of the run it reads when that run is visited. */
  method DrawNextRun(img: Canvas, data: string, position: int, ix: int, iy: int)
    returns (done: bool, err: Option<Error>, run: Run, rest: string)
    requires img.Valid()
    modifies img, img.pixels
    ensures img.Valid()
    ensures done ==> img.history == old(img.history)
    ensures done ==> ScanRuns(data) == if err.Some? then Err(err.value) else Ok([])
    ensures !done ==> |rest| < |data| && ScanRuns(data) == Prepend([run], ScanRuns(rest))
    ensures !done ==> img.history == old(img.history)
                      + TileOps(ix, iy, if run.visited == 1 then SplitRun(position, run.length) else [], Fg, Src)
  {
    match ScanPair(data) {
      case Stopped(_, atEnd) =>
        RunsStop(data);
        done, run, rest := true, Run(0, 0), data;
        err := if atEnd then None else Some(ScanFailure);
      case Pair(visited, length, r) =>
        RunsStep(data);
        done, err, run, rest := false, None, Run(visited, length), r;
        if visited == 1 {
          DrawRun(img, ix, iy, position, length);
        } else {
          assert TileOps(ix, iy, [], Fg, Src) == [];
        }
    }
  }

  /** The note loop from line start: each line that reads as "N x y" marks
      tile (x, y) in CNOTE and the line after it is skipped; the first other
      line, or the end of the file, ends the loop. */
  method DrawNotes(img: Canvas, lines: seq<string>, start: nat, ix: int, iy: int)
    requires img.Valid() && start <= |lines|
    modifies img, img.pixels
    ensures img.Valid()
    ensures img.history == old(img.history) + TileOps(ix, iy, NoteRects(Notes(NoteScans(lines), start)), Note, Over)
  {
    ghost var scans := NoteScans(lines);
    var next := start;
    ghost var notes: seq<Point> := [];
    while next < |lines|
      invariant start <= next <= |lines| && img.Valid()
      invariant Notes(scans, start) == notes + Notes(scans, next)
      invariant img.history == old(img.history) + TileOps(ix, iy, NoteRects(notes), Note, Over)
      decreases |lines| - next
    {
      ghost var at := next;
      var line := lines[next];
      next := next + 1;
      NoteScansAt(lines, at);
      var note := ScanNote(line);
      if note.None? {
        assert notes + Notes(scans, at) == notes;
        break;
      }
      var p := note.value;
      ghost var before := img.history;
      DrawRect(img, Note, Over, ix, iy, p.x, p.y, p.x, p.y);
      // the note's text
      next := Min(next + 1, |lines|);
      NoteLoopStep(ix, iy, scans, start, at, notes, p, old(img.history), before, img.history);
      notes := notes + [p];
    }
    assert Notes(scans, start) == notes;
  }

  /** The note loop's invariant survives one more note p, read at line at:
      the notes still to read lose their first, which joins the notes read
      so far, and the history gains its rectangle. */
  lemma NoteLoopStep(ix: int, iy: int, scans: seq<Option<Point>>, start: nat, at: nat, notes: seq<Point>, p: Point,
                     h: seq<DrawOp>, h0: seq<DrawOp>, h1: seq<DrawOp>)
    requires start <= at < |scans| && scans[at] == Some(p)
    requires Notes(scans, start) == notes + Notes(scans, at)
    requires h0 == h + TileOps(ix, iy, NoteRects(notes), Note, Over)
    requires h1 == h0 + [TileOp(ix, iy, NoteRect(p), Note, Over)]
    ensures Notes(scans, start) == notes + [p] + Notes(scans, Min(at + 2, |scans|))
    ensures h1 == h + TileOps(ix, iy, NoteRects(notes + [p]), Note, Over)
  {
    var rest := Notes(scans, Min(at + 2, |scans|));
    assert Notes(scans, at) == [p] + rest;
    assert notes + ([p] + rest) == notes + [p] + rest;
    assert NoteRects(notes + [p]) == NoteRects(notes) + [NoteRect(p)];
    var a := TileOps(ix, iy, NoteRects(notes), Note, Over);
    var b := TileOps(ix, iy, [NoteRect(p)], Note, Over);
    TileOpsConcat(ix, iy, NoteRects(notes), [NoteRect(p)], Note, Over);
    AppendAssoc(h, a, b);
  }

  /** Prefixing the runs read so far to the result of reading the rest. */
  function Prepend(acc: seq<Run>, r: Result<seq<Run>, Error>): Result<seq<Run>, Error>
  {
    match r
    case Err(e) => Err(e)
    case Ok(rest) => Ok(acc + rest)
  }

  lemma PrependNone(r: Result<seq<Run>, Error>)
    ensures Prepend([], r) == r
  {
    if r.Ok? {
      assert [] + r.value == r.value;
    }
  }

  /** One Fscanf call of the run loop: a pair read is the first run. */
  lemma RunsStep(data: string)
    requires ScanPair(data).Pair?
    ensures ScanRuns(data) == Prepend([Run(ScanPair(data).a, ScanPair(data).b)], ScanRuns(ScanPair(data).rest))
  {
  }

  /** Fewer than two numbers read ends the run loop, at io.EOF with the
      runs read so far, otherwise with the scan error. */
  lemma RunsStop(data: string)
    requires ScanPair(data).Stopped?
    ensures ScanRuns(data) == if ScanPair(data).atEnd then Ok([]) else Err(ScanFailure)
  {
  }

  lemma PrependSnoc(acc: seq<Run>, run: Run, r: Result<seq<Run>, Error>)
    ensures Prepend(acc, Prepend([run], r)) == Prepend(acc + [run], r)
  {
    if r.Ok? {
      assert acc + ([run] + r.value) == acc + [run] + r.value;
    }
  }

  /** One more run adds the rectangles of its split when it is visited. */
  lemma RunsSnoc(ix: int, iy: int, runs: seq<Run>, run: Run)
    ensures TileOps(ix, iy, RunRects(runs + [run]), Fg, Src)
         == TileOps(ix, iy, RunRects(runs), Fg, Src)
          + TileOps(ix, iy, if run.visited == 1 then SplitRun(Position(runs), run.length) else [], Fg, Src)
  {
    assert (runs + [run])[..|runs|] == runs;
    TileOpsConcat(ix, iy, RunRects(runs), if run.visited == 1 then SplitRun(Position(runs), run.length) else [], Fg, Src);
  }

  /** The body of the run loop for a visited run of length tiles starting at
      row-major position: one rectangle when the run starts and ends on the
      same row, otherwise the rest of its first row, the full rows between,
      and the start of its last row. */
  method DrawRun(img: Canvas, ix: int, iy: int, position: int, length: int)
    requires img.Valid()
    modifies img, img.pixels
    ensures img.Valid()
    ensures img.history == old(img.history) + TileOps(ix, iy, SplitRun(position, length), Fg, Src)
  {
    var x0 := GoMod(position, MAPX);
    var y0 := GoDiv(position, MAPX);
    var x1 := GoMod(position + length - 1, MAPX);
    var y1 := GoDiv(position + length - 1, MAPX);
    if y0 == y1 {
      DrawRect(img, Fg, Src, ix, iy, x0, y0, x1, y1);
    } else {
      DrawRect(img, Fg, Src, ix, iy, x0, y0, MAPX - 1, y0);
      if y0 + 1 != y1 {
        DrawRect(img, Fg, Src, ix, iy, 0, y0 + 1, MAPX - 1, y1 - 1);
      }
      DrawRect(img, Fg, Src, ix, iy, 0, y1, x1, y1);
    }
  }

  /** draw_rect: draw colour c with the given mode over tiles (x0, y0) to
      (x1, y1) of the region at grid index (ix, iy); a pixel of the image
      changes exactly when its tile is one the rectangle selects. */
  method DrawRect(img: Canvas, c: Colour, mode: Mode, ix: int, iy: int, x0: int, y0: int, x1: int, y1: int)
    requires img.Valid()
    modifies img, img.pixels
    ensures img.Valid()
    ensures img.history == old(img.history) + [TileOp(ix, iy, TileRect(x0, y0, x1, y1), c, mode)]
    ensures forall px, py :: 0 <= px < img.width && 0 <= py < img.height ==>
              img.pixels[px, py] == if TileIn(TileRect(x0, y0, x1, y1), TileX(ix, px), TileY(iy, py))
                                    then Apply(mode, c, old(img.pixels[px, py])) else old(img.pixels[px, py])
  {
    var px0 := ix * XO + x0 * SCALE;
    var py0 := iy * YO + y0 * SCALE;
    var px1 := ix * XO + (x1 + 1) * SCALE;
    var py1 := iy * YO + (y1 + 1) * SCALE;
    img.Draw(Rect(px0, py0, px1, py1), c, mode);
    forall px, py | 0 <= px < img.width && 0 <= py < img.height
      ensures img.pixels[px, py] == if TileIn(TileRect(x0, y0, x1, y1), TileX(ix, px), TileY(iy, py))
                                    then Apply(mode, c, old(img.pixels[px, py])) else old(img.pixels[px, py])
    {
      PixelCoverage(ix, iy, TileRect(x0, y0, x1, y1), px, py);
    }
  }

  /** A row that fails makes the whole drawing fail with its error. */
  lemma RowFails(g: seq<seq<Result<seq<DrawOp>, Error>>>, iy: nat)
    requires iy < |g| && Rows(g, iy).Ok? && Row(g[iy], |g[iy]|).Err?
    ensures Then(Ok([]), Rows(g, |g|)) == Err(Row(g[iy], |g[iy]|).error)
  {
    RowsStop(g, iy + 1, |g|);
  }

  /** Draw's inner loop invariant survives a cell that succeeds. */
  lemma CellStep(cells: seq<Result<seq<DrawOp>, Error>>, ix: nat, h: seq<DrawOp>, h0: seq<DrawOp>, h1: seq<DrawOp>)
    requires ix < |cells| && cells[ix].Ok? && Row(cells, ix).Ok?
    requires h0 == h + Row(cells, ix).value && h1 == h0 + cells[ix].value
    ensures Row(cells, ix + 1).Ok? && h1 == h + Row(cells, ix + 1).value
  {
  }

  /** Draw's outer loop invariant survives a row whose cells all succeed. */
  lemma RowStep(g: seq<seq<Result<seq<DrawOp>, Error>>>, iy: nat, bg: seq<DrawOp>, h0: seq<DrawOp>, h1: seq<DrawOp>)
    requires iy < |g| && Rows(g, iy).Ok? && Row(g[iy], |g[iy]|).Ok?
    requires h0 == bg + Rows(g, iy).value && h1 == h0 + Row(g[iy], |g[iy]|).value
    ensures Rows(g, iy + 1).Ok? && h1 == bg + Rows(g, iy + 1).value
  {
  }

  lemma {:induction false} RowStops(cells: seq<Result<seq<DrawOp>, Error>>, i: nat, k: nat)
    requires i <= k <= |cells| && Row(cells, i).Err?
    ensures Row(cells, k) == Row(cells, i)
    decreases k - i
  {
    if i < k {
      RowStops(cells, i + 1, k);
    }
  }

  lemma {:induction false} RowsStop(g: seq<seq<Result<seq<DrawOp>, Error>>>, i: nat, k: nat)
    requires i <= k <= |g| && Rows(g, i).Err?
    ensures Rows(g, k) == Rows(g, i)
    decreases k - i
  {
    if i < k {
      RowsStop(g, i + 1, k);
    }
  }

  /** NewMap: walk the entries under root, recording each seen file under
      the coordinate its name carries; fail with the callback's first error,
      or with ErrNotFound when nothing was recorded. */
  method NewMap(root: string, entries: seq<Entry>) returns (r: Result<Map, Error>)
    ensures Discover(root, entries).Err? <==> r.Err?
    ensures r.Err? ==> Discover(root, entries) == Err(r.error)
    ensures r.Ok? ==> fresh(r.value) && r.value.Valid() && r.value.Holds(Discover(root, entries).value)
  {
    var m, id, err := WalkEntries(root, entries);
    ghost var ss := Sightings(root, entries);
    if err.Some? {
      return Err(err.value);
    }
    if |m.maps| == 0 {
      return Err(NoSeenFiles);
    }
    m.width := m.e - m.w + 1;
    m.height := m.n - m.s + 1;
    WalkBounds(ss);
    return Ok(m);
  }

  /** filepath.Walk with NewMap's callback: a fresh Map that has recorded
      every entry, or the first error the callback returned. */
  method WalkEntries(root: string, entries: seq<Entry>) returns (m: Map, id: string, err: Option<Error>)
    ensures fresh(m)
    ensures Walk(Sightings(root, entries)) == if err.Some? then Err(err.value) else Ok(Found(id, m.maps, m.w, m.e, m.s, m.n))
  {
    ghost var ss := Sightings(root, entries);
    id, err := "", None;
    m := new Map();
    var i := 0;
    while i < |entries|
      invariant 0 <= i <= |entries| && fresh(m) && err.None?
      invariant Walk(ss[..i]) == Ok(Found(id, m.maps, m.w, m.e, m.s, m.n))
    {
      var sighting := Look(root, entries[i]);
      WalkStep(ss, i);
      id, err := m.Record(id, sighting);
      if err.Some? {
        WalkStops(ss, i + 1);
        return;
      }
      i := i + 1;
    }
    assert ss[..i] == ss;
  }
}
