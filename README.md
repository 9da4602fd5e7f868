# overmapper, modelled in Dafny

overmapper turns a Cataclysm save directory into a single picture of the
overmap tiles a character has seen. It does this in two steps:

- `NewMap` walks the directory and keeps every file whose path ends in
  `#<identity>.seen.<x>.<y>`; the identity starts at the leftmost `#` of
  the path. It records the file's path under the region
  coordinate `(x, y)`, and it widens the west, east, south and north bounds
  of the map, which start at 0. It fails with `ErrMultiChars` when a
  file's identity differs from the first non-empty identity found before
  it (an empty identity is never captured, so it can be followed by any
  other, but not follow a non-empty one), and with `ErrNotFound` when no file
  matched.
- `Map.Draw` builds an image of `width * 360` by `height * 360` pixels and
  fills it with the background colour. It then visits each region cell of
  the bounding box, south to north and west to east. For a cell that has
  a seen file, it paints that file's contents:
  - it finds the `L 10` line;
  - it reads the run-length line of `visited length` pairs that follows,
    and paints each visited run as one to three tile rectangles;
  - it skips two lines;
  - it paints each `N x y` note line as one tile, skipping the note text
    after it.

  Every cell, present or not, gets four translucent border edges. The
  border is green at the origin and red everywhere else. `draw_rect` turns
  a tile rectangle into pixels at two pixels per tile.

The model has these modules:

- `Geometry`: the constants, `image.Rect`, and the `draw_rect` arithmetic.
- `Raster`: the RGBA image as a `Canvas` class. It holds a 2-D array of
  colour tags, its `draw.Draw` method, and the ghost list of the draws made
  so far.
- `Scanning`: `fmt.Fscanf` with `"%d %d"` and `"N %d %d"`, over characters.
- `Regions`: the file-name pattern as a hand-written matcher, and the walk
  callback as a fold over the walk's entries.
- `Decoding`: the level search, the run loop, the run split and the note
  loop, as functions of one file's lines.
- `Compositing`: the list of `draw.Draw` calls that `Draw` makes, as a
  function of the map and the files.
- `Picture`: the colour of every pixel of the finished image.
- `Overmapper`: the `Map` class, with `NewMap` and `Draw` as methods whose
  loops are proved against the functions above.

Colours are tags. `draw.Src` overwrites. With `draw.Over`, the opaque
colours overwrite, and the translucent border colours produce a
`Composite(top, under)` tag. Integers are Go's 64-bit `int` where the code
parses them (`strconv.Atoi` and `%d` reject out-of-range values). Go's
truncating `/` and `%` are written out as `GoDiv` and `GoMod`.

## Model

| member | source | states |
|---|---|---|
| Geometry.Rect | overmapper.go:224 | `image.Rect` puts the smaller corner first; the result has the same two x values and the same two y values as its arguments |
| Geometry.ToPixels | overmapper.go:219-224 | `draw_rect`'s arithmetic, scaled tile corners offset by the cell's block with the upper corner one tile further; it has no contract of its own, and Geometry.PixelCoverage states which pixels it covers |
| Geometry.PixelCoverage | overmapper.go:219-224 | a pixel lies in `draw_rect`'s pixel rectangle exactly when its local tile, `(px - ix*360)/2` by `(py - iy*360)/2`, is one of the tiles the tile rectangle selects, with the upper bounds exclusive |
| Geometry.ToPixelsExample | overmapper.go:219-224 | tile (0,0)-(0,0) at grid (1,1) is pixels (360,360)-(362,362) |
| Geometry.LocalTileInRange | overmapper.go:28-29 | a pixel lies in the 360x360 block of grid cell (ix, iy) exactly when its local tile lies in 0..MAPX-1 x 0..MAPY-1 |
| Geometry.AxisCover | overmapper.go:220-224 | on one axis, pixel p lies between the two scaled ends exactly when its tile lies in the range, or strictly between reversed ends |
| Raster.Canvas.constructor | overmapper.go:118 | `image.NewRGBA`: a width x height canvas with every pixel transparent and no draws made |
| Raster.Canvas.Draw | overmapper.go:119 | `draw.Draw`: each pixel inside both the rectangle and the image takes the colour the mode gives it; every other pixel keeps its colour; the draw is appended to the history |
| Raster.Apply | overmapper.go:43-47 | `draw.Src` and the opaque colours overwrite; `draw.Over` with a transparent colour leaves the pixel as it was; otherwise the result is the colour, the old pixel, or the colour blended over the old pixel |
| Raster.PaintOver | overmapper.go:117-224 | the colour of one pixel after a list of `draw.Draw` calls in order; each call that covers the pixel applies its mode and colour to what the earlier ones left |
| Raster.PaintConcat | overmapper.go:117-217 | drawing `a + b` is drawing `b` over the result of drawing `a` |
| Raster.PaintUntouched | overmapper.go:117-217 | draws that do not cover a pixel leave it unchanged |
| Raster.PaintUniform | overmapper.go:158-175 | when every draw leaves colour k, a pixel ends up k if a draw covers it, and keeps its colour otherwise |
| Scanning.ScanInt | overmapper.go:150 | a `%d` that succeeds consumes input, yields a value within Go's int range, and stops before a digit |
| Scanning.ScanNumber | overmapper.go:150 | the digits of a `%d` after its sign: a number that is read consumes input, lies in Go's int range and stops before a digit |
| Scanning.FormatSpace | overmapper.go:185 | a blank in a `Fscanf` format: it fails exactly when the input starts with a non-blank; otherwise it consumes only blanks and leaves input that does not start with one |
| Scanning.ScanPair | overmapper.go:150 | `Fscanf("%d %d")` either stores two in-range values and consumes at least three characters (two digits and the blank between them), or stops having stored fewer than two |
| Scanning.ScanNote | overmapper.go:185 | a line read as a note starts with `N` and a blank and is at least five characters long, as `N 1 2` is |
| Scanning.NatTextValue | overmapper.go:150 | the decimal digits written for n read back as n |
| Scanning.ScanIntText | overmapper.go:150 | `%d` reads back any in-range integer written in decimal, after any blanks, leaving the rest of the input |
| Scanning.ScanIntBlanks | overmapper.go:150-151 | `%d` on blanks alone reports io.EOF |
| Scanning.ScanPairText | overmapper.go:150 | `Fscanf("%d %d")` reads back a written pair and stops at the blank after it |
| Scanning.NoteTextRoundTrip | overmapper.go:185 | `Fscanf("N %d %d")` reads back a written note line as its two coordinates |
| Decoding.SplitRun | overmapper.go:158-174 | a visited run is drawn as one, two or three rectangles |
| Decoding.GoDiv | overmapper.go:160-162 | Go's truncating `/`; no contract of its own, Decoding.GoDivMod states its meaning |
| Decoding.GoMod | overmapper.go:159-161 | Go's `%`, whose sign follows the dividend; no contract of its own, Decoding.GoDivMod states its meaning |
| Decoding.GoDivMod | overmapper.go:159-162 | quotient times divisor plus remainder is the dividend; the remainder has the dividend's sign and magnitude below the divisor; on a non-negative position both agree with the Euclidean `/` and `%` |
| Decoding.SplitRunCovers | overmapper.go:158-174 | a run with position >= 0 and length >= 1 paints exactly the tiles with column in 0..MAPX-1 and row-major index in position .. position+length-1 |
| Decoding.SplitRunCount | overmapper.go:164-174 | the number of rectangles is the number of rows the run spans, capped at three: one in a single row, two over two rows, three with a middle block |
| Decoding.ZeroRunAtRowStart | overmapper.go:158-174 | a visited run of length 0 at position k*MAPX paints the whole of rows k-1 and k, because `image.Rect` swaps the middle block's reversed corners |
| Decoding.RunRects | overmapper.go:148-177 | the run loop's rectangles: at most three per run, and none when no run has `visited == 1` |
| Decoding.Position | overmapper.go:148-176 | the position of a run is the sum of the lengths before it, visited or not; with positive lengths it is at least the number of runs |
| Decoding.RunRectsCover | overmapper.go:148-177 | with positive lengths, the run loop paints exactly the tiles that lie in a run with `visited == 1` |
| Decoding.VisitedSnoc | overmapper.go:158-176 | a tile is in a visited run exactly when it is in an earlier run or in the last run, if that run is visited |
| Decoding.RunRectsInRegion | overmapper.go:158-174 | when the lengths add up to at most MAPX*MAPY, every painted tile lies inside the region |
| Decoding.PositionPrefix | overmapper.go:176 | each run ends no later than the total length |
| Decoding.ScanRunsText | overmapper.go:148-156 | the run loop reads back a written run line as its runs, ending at io.EOF |
| Decoding.ScanRuns | overmapper.go:148-156 | the run line's pairs read by `Fscanf("%d %d")` until fewer than two are read; a non-EOF scan error is ScanFailure, the only error, and every value read is in Go's int range |
| Decoding.ScanRunsEmpty | overmapper.go:149-156 | a run line holding only blanks yields no runs |
| Decoding.FindLevel | overmapper.go:134-140 | the level search finds the first line equal to `L 10`, and no such line comes before it; when it finds none, no line is `L 10` |
| Decoding.NoteScans | overmapper.go:183-185 | one note scan per line |
| Decoding.LevelCursor | overmapper.go:134-145 | the scanner position after the level search lies within the file |
| Decoding.NoLevelNothing | overmapper.go:134-145 | a file without an `L 10` line contributes no runs and no notes, unless the reader failed, in which case it fails |
| Decoding.NotesText | overmapper.go:182-193 | the note loop reads back the notes, each followed by one skipped line, up to the end of the file or a line that is not `N x y` |
| Decoding.NotesOfLines | overmapper.go:182-193 | written note lines from line c on are read back as their notes |
| Decoding.Notes | overmapper.go:182-193 | the note loop from line c: each note comes from a line read as `N x y`, and each takes two lines, the note and its skipped text |
| Decoding.DecodeText | overmapper.go:134-193 | a file of lines without `L 10`, then the `L 10` line, a run line, two more lines, note lines and an ending, decodes to exactly those runs and notes |
| Decoding.DecodeWritten | overmapper.go:134-193 | the same, for a file whose lines are given by position |
| Decoding.DecodeParts | overmapper.go:134-193 | with `L 10` at line i, the file decodes to the runs of line i+1 and the notes from line i+4 |
| Decoding.DecodeFrom | overmapper.go:145-193 | what follows the `L 10` line: the run line, two skipped lines and the notes; it fails only with ScanFailure, and its notes take two lines each |
| Decoding.Decode | overmapper.go:134-193 | one file's runs and notes; it fails with ReadFailure exactly when the file has no `L 10` line and the reader failed, and otherwise only with ScanFailure |
| Regions.DigitsStart | overmapper.go:42 | the start of the maximal run of digits that ends at a given index |
| Regions.IntTextStart | overmapper.go:42 | where an integer group `-?\d+` that ends at a given index starts |
| Regions.SeenTail | overmapper.go:42 | when the name ends in `.seen.<int>.<int>`, the tail found is one that the name really has |
| Regions.FirstHash | overmapper.go:42 | the leftmost `#` that can start a match ending at a given index |
| Regions.MatchSeen | overmapper.go:42 | both captured coordinates are integer texts |
| Regions.MatchSeenSound | overmapper.go:42 | a match that is found is an occurrence of the pattern `#(.*?)\.seen\.(-?\d+)\.(-?\d+)$` in the name |
| Regions.MatchSeenLeftmost | overmapper.go:42 | every occurrence of the pattern means a match is found, starting no later than that occurrence, with the same submatches when it starts at the same place (leftmost, lazy identity) |
| Regions.SeenTailUnique | overmapper.go:42 | the tail `.seen.<x>.<y>` of a name is unique |
| Regions.SeenAt | overmapper.go:42 | an occurrence with no `#` before it is the match |
| Regions.Look | overmapper.go:59-68 | the callback reads submatches exactly for an entry that has no error, is not a skipped subdirectory, and matches the pattern |
| Regions.Visit | overmapper.go:68-98 | one callback step: a name that does not match changes nothing; errors are ErrMultiChars or the Atoi range error; a match stores its path under its coordinate, keeps the earlier keys, and widens the bounds to contain it |
| Regions.Walk | overmapper.go:59-105 | the callback over the walk's entries in order from the zero state, stopping at the first error, which is ErrMultiChars or the Atoi range error |
| Regions.Discover | overmapper.go:54-109 | NewMap's outcome: the walk's error, ErrNotFound when no name matched, and otherwise a non-empty map |
| Regions.WalkStops | overmapper.go:103-105 | the first error from the callback ends the walk and is its result |
| Regions.WalkKeys | overmapper.go:85 | after a successful walk, the map's keys are exactly the coordinates of the matched names |
| Regions.WalkLast | overmapper.go:85 | after a successful walk, each key holds the path of the last matched name with that coordinate, so a repeated coordinate overwrites |
| Regions.WalkBounds | overmapper.go:87-98 | the bounds contain the origin and every key, and each bound is 0 or the coordinate of some key: w = min(0, min x), e = max(0, max x), s = min(0, min y), n = max(0, max y) |
| Regions.WalkIdentity | overmapper.go:69-74 | with in-range numbers, the walk fails exactly when some matched name has a non-empty identity and a later matched name has a different identity, empty or not; the failure is ErrMultiChars, and on success the identity is the first non-empty one |
| Regions.FirstIdEmpty | overmapper.go:69-71 | when no non-empty identity is captured, every matched name has the empty identity |
| Regions.ClashAgrees | overmapper.go:72-74 | without a conflict, every non-empty identity is the captured one |
| Regions.EmptyIdentityOrder | overmapper.go:69-74 | `#.seen.0.0` followed by `#a.seen.1.1` is accepted, and the reverse order is ErrMultiChars |
| Regions.DiscoverOrder | overmapper.go:69-74 | an empty identity does not capture: NewMap's result depends on the order of an empty and a named identity |
| Regions.WalkOrder | overmapper.go:69-74 | the same order dependence, stated on the callback's inputs |
| Regions.LookUnnamed | overmapper.go:68-70 | `#.seen.0.0` is matched with the empty identity at (0, 0) |
| Regions.LookNamed | overmapper.go:68-70 | `#a.seen.1.1` is matched with identity `a` at (1, 1) |
| Compositing.Read | overmapper.go:129-193 | every file that opens has a decoded entry |
| Compositing.ReadAt | overmapper.go:129-193 | a file's entry is the decoding of its lines |
| Compositing.CellContent | overmapper.go:126-133 | the map lookup at the cell's coordinate and the `os.Open` of its path, with the file's decoded content or its error; no contract of its own, Picture.CellPaint states what the content paints |
| Compositing.ContentOps | overmapper.go:148-193 | the run loop's CFG draws with `draw.Src`, then the note loop's CNOTE draws with `draw.Over`; no contract of its own, Picture.ContentPaint states the colours they leave |
| Compositing.BorderColour | overmapper.go:198-204 | CORIGIN at coordinate (0, 0) and CGRID everywhere else; no contract of its own, Picture.BorderPaint states its use |
| Compositing.BorderOps | overmapper.go:206-209 | the top, bottom, left and right edges with `draw.Over`; no contract of its own, Picture.BorderPaint and Picture.BorderHits state which tiles they cross |
| Compositing.Background | overmapper.go:118-119 | the `draw.Src` fill of the whole image with CBG; no contract of its own, Picture.PicturePaint states its effect |
| Compositing.CellOps | overmapper.go:127-209 | one cell's draws, its content if it has a file and then its borders; a cell with no file cannot fail |
| Compositing.CellBorders | overmapper.go:198-209 | every cell that does not fail ends with its four border edges, top, bottom, left, right, drawn after its content, present or not |
| Compositing.Render | overmapper.go:117-217 | Draw's list of draws: the CBG fill comes first, then every cell's draws row by row, or the first failing cell's error |
| Compositing.Cells | overmapper.go:121-124 | the grid has height rows of width cells, and cell (ix, iy) is the cell at coordinate (w+ix, s+iy) |
| Compositing.TouchesTiles | overmapper.go:219-224 | the `draw_rect` calls for some rectangles cover a pixel exactly when one of the rectangles holds the pixel's tile |
| Compositing.TileOpsConcat | overmapper.go:166-190 | drawing two lists of rectangles is drawing one after the other |
| Compositing.NoteRectsCover | overmapper.go:182-193 | the note rectangles cover exactly the tiles of the notes |
| Picture.RenderPixel | overmapper.go:117-217 | in a successful drawing, each pixel lies in the block of cell (px/360, py/360). Its colour is the cell's content colour for its tile, with the cell's border colour blended over it once per edge through that tile. The content colour is CNOTE on a note tile, CFG on a tile of a visited run, and CBG otherwise or when the cell has no region. The border colour is CORIGIN at coordinate (0,0) and CGRID everywhere else |
| Picture.CellPaint | overmapper.go:127-209 | the same, for the draws of one cell over the background |
| Picture.BorderPaint | overmapper.go:198-209 | the four edges blend the border colour over a tile once per edge through it, with CORIGIN exactly when x == 0 && y == 0 |
| Picture.BorderHits | overmapper.go:206-209 | a tile is crossed by two edges at a corner, by one elsewhere on the rim, and by none inside |
| Picture.ContentPaint | overmapper.go:145-193 | a region's runs and notes paint CNOTE on note tiles, CFG on visited tiles and leave CBG elsewhere |
| Picture.RunPaint | overmapper.go:148-177 | over CBG, the run loop's draws make a tile of the block CFG exactly when it lies in a visited run, and leave it CBG otherwise |
| Picture.NotePaint | overmapper.go:182-193 | the note loop's draws make a tile CNOTE exactly when a note is on it, and leave it as it was otherwise |
| Picture.PaintLayers | overmapper.go:198-209 | translucent draws of one colour blend it once per draw that covers the pixel |
| Picture.CellStays | overmapper.go:219-224 | a cell whose own file, if it opens and decodes, has positive run lengths adding up to at most MAPX*MAPY and notes inside the region paints only pixels of its own block; other files play no part |
| Picture.BlocksDisjoint | overmapper.go:219-224 | no pixel lies in the blocks of two different cells |
| Picture.Away | overmapper.go:121-124 | the draws of one cell leave every other cell's block untouched |
| Picture.RowPaint | overmapper.go:123-124 | the first k cells of a row leave a pixel as it was unless its own cell is among them, and then paint it as that cell alone does |
| Picture.GridPaint | overmapper.go:121-124 | the whole grid paints a pixel as that pixel's own cell alone would |
| Picture.PicturePaint | overmapper.go:118-124 | the background fill followed by the grid paints a pixel as its own cell over CBG |
| Picture.PixelBlock | overmapper.go:118 | every pixel of the image lies in the block of a cell of the grid |
| Overmapper.Map.constructor | overmapper.go:57 | a new map has zero bounds and no regions |
| Overmapper.Map.Record | overmapper.go:68-98 | one callback step on the fields: the new identity, map and bounds are the callback function's result, or its error |
| Overmapper.WalkEntries | overmapper.go:59-105 | the walk loop ends in the state, or with the error, that the callback fold over the entries gives |
| Overmapper.NewMap | overmapper.go:54-115 | fails exactly when the walk fails or finds no file, with that error. On success the fields hold the walk's map and bounds, with width e-w+1 and height n-s+1, the origin and every key in the box, and at least one region |
| Overmapper.Map.Draw | overmapper.go:117-217 | the image is width*360 by height*360 and filled with CBG first. Its draws are exactly the specified list over all cells in row-major order, or the first failing cell's error. Picture.RenderPixel states the resulting colour of each pixel |
| Overmapper.Map.DrawRow | overmapper.go:123-212 | one row of cells west to east, x = w+ix: its draws, or the first failure in it |
| Overmapper.Map.DrawCell | overmapper.go:127-209 | one cell: its content if the coordinate has a file, then its borders, or the error of opening or reading that file |
| Overmapper.DrawRegion | overmapper.go:129-193 | one file's draws, or its open or read error |
| Overmapper.DrawFile | overmapper.go:134-193 | the draws of a file's decoded content, or its read error |
| Overmapper.SkipToLevel | overmapper.go:134-140 | the scanner stops just past the first `L 10` line, or at the end of a file without one |
| Overmapper.DrawLevel | overmapper.go:145-193 | reads the run line, skips two lines, reads the notes; the draws are the runs' rectangles then the notes' tiles, or the scan error |
| Overmapper.DrawRuns | overmapper.go:146-177 | the run loop draws the rectangles of the visited runs the line reads as, and aborts with ScanFailure on a non-EOF scan error |
| Overmapper.DrawNextRun | overmapper.go:150-176 | one run-loop iteration: it stops on fewer than two integers, or reads one pair and draws it when visited == 1 |
| Overmapper.DrawNotes | overmapper.go:182-193 | the note loop draws one CNOTE tile per note and stops at the first line that is not a note |
| Overmapper.DrawRun | overmapper.go:158-174 | draws the rectangles of the run split, with Go's truncating `/` and `%` |
| Overmapper.DrawRect | overmapper.go:219-225 | a pixel of the image changes exactly when its tile is one the rectangle selects, and then takes the colour the mode gives |
| Overmapper.DrawBorders | overmapper.go:198-209 | the four edges top, bottom, left, right, in CORIGIN at (0,0) and CGRID elsewhere |
| Overmapper.RowFails | overmapper.go:129-152 | a failing cell makes the whole drawing fail with its error |
| Overmapper.RowStops | overmapper.go:123-212 | after a failure no later cell of the row changes the outcome |
| Overmapper.RowsStop | overmapper.go:121-214 | after a failure no later row changes the outcome |

## Left out

- The file system is an input. The walk is a sequence of `(path, isDir, failed)` entries in walk order. `filepath.SkipDir` becomes "this entry is passed over". The children of a skipped directory are not modelled; they are simply absent from the sequence.
- The files are a map from path to lines plus a flag that says the reader failed. A path missing from the map is an `os.Open` failure.
- A read error that `bufio.Scanner` reports after the `L 10` line, and `file.Close` (overmapper.go:195), are not modelled. Only the error check at overmapper.go:141-143 is.
- `bufio.Scanner`'s 64 KiB token limit is not modelled: lines have any length.
- Colour arithmetic is not modelled. The five colours are tags, and blending a translucent colour is the `Composite(top, under)` tag. Two blends of the same colour are not merged.
- Integer overflow of `width * 360`, `height * 360`, and of the sums in `position` and `draw_rect` is not modelled. The run lengths, the run positions, the bounds and the pixel coordinates are unbounded integers.
- `strconv.Atoi`'s range check on the coordinates in a file name is modelled as the `NumberOutOfRange` error. The exact error values that Go passes through (`*PathError`, `*NumError`, fmt's errors) are collapsed to one value per source.
- PNG encoding, `os.Create`, `main`, `panic`, the progress `fmt.Printf` and `Map.String` are left out because they are output plumbing.
- The `VERSION` constant is left out; nothing reads it.
- The command-line wrapper in cmd/overmapper/main.go is not part of this model.
- Decoding.RunRectsCover: stated for positive run lengths only. Zero and negative lengths make `position` go back or stay put, and the split then depends on `image.Rect` swapping corners. Decoding.ZeroRunAtRowStart states the zero-length case at a row start.
- Picture.RenderPixel: stated when every file the map names and that decodes has positive run lengths adding up to at most MAPX*MAPY tiles, and notes inside the region. Other files paint outside their own cell's block, into the neighbouring cells' blocks, or depend on `image.Rect` swapping corners; the model does not state a pixel's colour for them. Files the map does not name play no part.
- Picture.CellPaint: stated for a cell whose file, if it has one, has positive run lengths, for the same reason as Decoding.RunRectsCover.
- Picture.ContentPaint: stated for positive run lengths only, for the same reason as Decoding.RunRectsCover.
- Picture.RunPaint: stated for positive run lengths only, for the same reason as Decoding.RunRectsCover.
- Raster.Canvas: the pixels are kept consistent with a ghost list of the draws made. Aliasing between two images is not modelled, because Draw creates the only one.
- Three behaviours of the code are modelled as written:
  - a malformed number in a run line makes `Fscanf` return an error other than io.EOF, and `Draw` returns it (overmapper.go:150-153);
  - the bounding box always contains the origin, because its fields start at 0 (overmapper.go:57, 87-98);
  - a name with an empty identity does not capture the identity, so the outcome depends on the walk order (overmapper.go:69-74).
