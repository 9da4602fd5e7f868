/** Reading one region's seen file: the level marker, the run-length line
    of visited tiles and the note lines, and the tile rectangles a run
    becomes. */
module Decoding {
  import opened Wrappers
  import opened Geometry
  import opened Scanning

  /** The line that opens the ground level's block (LEVEL). */
  const LEVEL: string := "L 10"

  /** Go's integer division, which truncates toward zero (divisor positive). */
  function GoDiv(a: int, b: int): int
    requires b > 0
  {
    if a >= 0 then a / b else -((-a) / b)
  }

  /** Go's remainder, whose sign follows the dividend (divisor positive). */
  function GoMod(a: int, b: int): int
    requires b > 0
  {
    a - GoDiv(a, b) * b
  }

  /** Go's / and % on a positive divisor: the quotient times the divisor
      plus the remainder gives back the dividend, the remainder takes the
      dividend's sign and is smaller than the divisor in magnitude, and on a
      non-negative dividend both agree with Dafny's Euclidean / and %. */
  lemma GoDivMod(a: int, b: int)
    requires b > 0
    ensures GoDiv(a, b) * b + GoMod(a, b) == a
    ensures a >= 0 ==> GoDiv(a, b) == a / b && GoMod(a, b) == a % b && 0 <= GoMod(a, b) < b
    ensures a < 0 ==> -b < GoMod(a, b) <= 0 && GoDiv(a, b) <= 0
  {
  }

  /** One `visited length` pair of the run line. */
  datatype Run = Run(visited: int, length: int)

  /** The tile rectangles the run of `len` tiles that starts at row-major
      position pos is drawn as: one rectangle when it starts and ends on the
      same row, otherwise the rest of its first row, the full rows between
      (when there are any) and the start of its last row. */
  function SplitRun(pos: int, len: int): (rs: seq<TileRect>)
    ensures 1 <= |rs| <= 3
  {
    var x0, y0 := GoMod(pos, MAPX), GoDiv(pos, MAPX);
    var x1, y1 := GoMod(pos + len - 1, MAPX), GoDiv(pos + len - 1, MAPX);
    if y0 == y1 then [TileRect(x0, y0, x1, y1)]
    else
      [TileRect(x0, y0, MAPX - 1, y0)]
      + (if y0 + 1 != y1 then [TileRect(0, y0 + 1, MAPX - 1, y1 - 1)] else [])
      + [TileRect(0, y1, x1, y1)]
  }

  /** Some rectangle of rs paints tile (tx, ty). */
  predicate Covered(rs: seq<TileRect>, tx: int, ty: int)
  {
    exists r :: r in rs && TileIn(r, tx, ty)
  }

  lemma CoveredConcat(a: seq<TileRect>, b: seq<TileRect>, tx: int, ty: int)
    ensures Covered(a + b, tx, ty) <==> Covered(a, tx, ty) || Covered(b, tx, ty)
  {
    if Covered(a + b, tx, ty) {
      var r :| r in a + b && TileIn(r, tx, ty);
      assert r in a || r in b;
    }
    if Covered(a, tx, ty) {
      var r :| r in a && TileIn(r, tx, ty);
      assert r in a + b;
    }
    if Covered(b, tx, ty) {
      var r :| r in b && TileIn(r, tx, ty);
      assert r in a + b;
    }
  }

  /** A run of positive length from a non-negative position paints exactly
      the tiles whose row-major index lies in pos .. pos + len - 1. */
  lemma {:induction false} SplitRunCovers(pos: int, len: int, tx: int, ty: int)
    requires pos >= 0 && len >= 1
    ensures Covered(SplitRun(pos, len), tx, ty) <==> 0 <= tx < MAPX && pos <= ty * MAPX + tx < pos + len
  {
    var end := pos + len - 1;
    var x0, y0 := pos % MAPX, pos / MAPX;
    var x1, y1 := end % MAPX, end / MAPX;
    assert pos == y0 * MAPX + x0 && 0 <= x0 < MAPX;
    assert end == y1 * MAPX + x1 && 0 <= x1 < MAPX;
    assert y0 <= y1;
    var rs := SplitRun(pos, len);
    var t := ty * MAPX + tx;
    if y0 == y1 {
      assert rs == [TileRect(x0, y0, x1, y1)];
      if 0 <= tx < MAPX && pos <= t <= end {
        assert ty == y0;
        assert TileRect(x0, y0, x1, y1) in rs;
      }
    } else {
      var a, c := TileRect(x0, y0, MAPX - 1, y0), TileRect(0, y1, x1, y1);
      var mid := if y0 + 1 != y1 then [TileRect(0, y0 + 1, MAPX - 1, y1 - 1)] else [];
      assert rs == [a] + mid + [c];
      if 0 <= tx < MAPX && pos <= t <= end {
        if ty == y0 {
          assert a in rs;
        } else if ty == y1 {
          assert c in rs;
        } else {
          assert y0 < ty < y1;
          assert mid[0] in rs;
        }
      }
    }
  }

  /** How many rectangles a run becomes: one per row it spans, at most three. */
  lemma SplitRunCount(pos: int, len: int)
    requires pos >= 0 && len >= 1
    ensures |SplitRun(pos, len)| == Min(3, (pos + len - 1) / MAPX - pos / MAPX + 1)
  {
  }

  /** A zero-length visited run that starts a row (a position k * MAPX)
      paints the whole of rows k - 1 and k: the middle rectangle's corners
      come reversed and image.Rect swaps them. */
  lemma {:induction false} ZeroRunAtRowStart(k: int, tx: int, ty: int)
    requires k >= 1 && 0 <= tx < MAPX
    ensures Covered(SplitRun(k * MAPX, 0), tx, ty) <==> ty == k - 1 || ty == k
  {
    var rs := SplitRun(k * MAPX, 0);
    assert k * MAPX - 1 == (k - 1) * MAPX + (MAPX - 1);
    assert GoDiv(k * MAPX - 1, MAPX) == k - 1;
    assert GoMod(k * MAPX - 1, MAPX) == MAPX - 1;
    assert GoDiv(k * MAPX, MAPX) == k && GoMod(k * MAPX, MAPX) == 0;
    var a, b, c := TileRect(0, k, MAPX - 1, k), TileRect(0, k + 1, MAPX - 1, k - 2), TileRect(0, k - 1, MAPX - 1, k - 1);
    assert rs == [a, b, c];
    if ty == k {
      assert a in rs && TileIn(a, tx, ty);
    } else if ty == k - 1 {
      assert c in rs && TileIn(c, tx, ty);
    }
  }

  /** The row-major position where run i starts: the sum of the lengths
      before it. */
  function Position(runs: seq<Run>): (p: int)
    ensures Positive(runs) ==> p >= |runs|
    decreases |runs|
  {
    if runs == [] then 0
    else
      assert Positive(runs) ==> Positive(runs[..|runs| - 1]);
      Position(runs[..|runs| - 1]) + runs[|runs| - 1].length
  }

  /** Every run has a positive length. */
  predicate Positive(runs: seq<Run>)
  {
    forall i :: 0 <= i < |runs| ==> runs[i].length >= 1
  }

  /** The rectangles the run loop draws: those of the visited runs, each
      split at its own position. */
  function RunRects(runs: seq<Run>): (ts: seq<TileRect>)
    ensures |ts| <= 3 * |runs|
    ensures (forall i :: 0 <= i < |runs| ==> runs[i].visited != 1) ==> ts == []
    decreases |runs|
  {
    if runs == [] then []
    else
      var init, last := runs[..|runs| - 1], runs[|runs| - 1];
      RunRects(init) + if last.visited == 1 then SplitRun(Position(init), last.length) else []
  }

  /** Row-major tile index t falls in a run whose visited flag is 1. */
  predicate Visited(runs: seq<Run>, t: int)
  {
    exists i :: 0 <= i < |runs| && runs[i].visited == 1
      && Position(runs[..i]) <= t < Position(runs[..i]) + runs[i].length
  }

  /** The run loop paints exactly the tiles that lie in a visited run. */
  lemma {:induction false} RunRectsCover(runs: seq<Run>, tx: int, ty: int)
    requires Positive(runs)
    ensures Covered(RunRects(runs), tx, ty) <==> 0 <= tx < MAPX && Visited(runs, ty * MAPX + tx)
    decreases |runs|
  {
    var t := ty * MAPX + tx;
    if runs == [] {
      assert !Covered([], tx, ty);
    } else {
      var n := |runs| - 1;
      var init, last := runs[..n], runs[n];
      assert Positive(init) by {
        forall i | 0 <= i < n ensures init[i].length >= 1 { assert init[i] == runs[i]; }
      }
      RunRectsCover(init, tx, ty);
      var own := if last.visited == 1 then SplitRun(Position(init), last.length) else [];
      CoveredConcat(RunRects(init), own, tx, ty);
      if last.visited == 1 {
        SplitRunCovers(Position(init), last.length, tx, ty);
      } else {
        assert !Covered(own, tx, ty);
      }
      VisitedSnoc(runs, t);
    }
  }

  /** A tile is in a visited run of runs exactly when it is in one of the
      earlier runs or in the last run, if that run is visited. */
  lemma VisitedSnoc(runs: seq<Run>, t: int)
    requires |runs| > 0
    ensures var n := |runs| - 1;
      Visited(runs, t) <==> (Visited(runs[..n], t)
        || (runs[n].visited == 1 && Position(runs[..n]) <= t < Position(runs[..n]) + runs[n].length))
  {
    var n := |runs| - 1;
    var init := runs[..n];
    if Visited(runs, t) {
      var i :| 0 <= i < |runs| && runs[i].visited == 1
        && Position(runs[..i]) <= t < Position(runs[..i]) + runs[i].length;
      if i < n {
        assert runs[..i] == init[..i];
        assert init[i] == runs[i];
      }
    }
    if Visited(init, t) {
      var i :| 0 <= i < |init| && init[i].visited == 1
        && Position(init[..i]) <= t < Position(init[..i]) + init[i].length;
      assert runs[..i] == init[..i];
      assert init[i] == runs[i];
    }
  }

  /** When the lengths add up to at most a region's tile count, every painted
      tile lies inside the region. */
  lemma RunRectsInRegion(runs: seq<Run>, tx: int, ty: int)
    requires Positive(runs) && Position(runs) <= MAPX * MAPY
    requires Covered(RunRects(runs), tx, ty)
    ensures 0 <= tx < MAPX && 0 <= ty < MAPY
  {
    RunRectsCover(runs, tx, ty);
    var i :| 0 <= i < |runs| && runs[i].visited == 1
      && Position(runs[..i]) <= ty * MAPX + tx < Position(runs[..i]) + runs[i].length;
    PositionPrefix(runs, i);
  }

  /** A run ends no later than the runs it begins. */
  lemma {:induction false} PositionPrefix(runs: seq<Run>, i: nat)
    requires Positive(runs) && i < |runs|
    ensures Position(runs[..i]) + runs[i].length <= Position(runs)
    decreases |runs|
  {
    var n := |runs| - 1;
    assert runs[..n][..i] == runs[..i];
    if i < n {
      assert Positive(runs[..n]) by {
        forall k | 0 <= k < n ensures runs[..n][k].length >= 1 { assert runs[..n][k] == runs[k]; }
      }
      PositionPrefix(runs[..n], i);
      assert runs[..n][i] == runs[i];
    }
  }

  /** fmt.Fscanf(data, "%d %d", &visited, &length) called again and again on
      the unread part of the run line: one run per pair, until io.EOF ends
      the loop; any other error aborts. */
  function ScanRuns(data: string): (r: Result<seq<Run>, Error>)
    ensures r.Err? ==> r.error == ScanFailure
    ensures r.Ok? ==> RunsFit(r.value)
    decreases |data|
  {
    match ScanPair(data)
    case Stopped(_, atEnd) => if atEnd then Ok([]) else Err(ScanFailure)
    case Pair(a, b, rest) =>
      match ScanRuns(rest)
      case Err(e) => Err(e)
      case Ok(rest) => Ok([Run(a, b)] + rest)
  }

  /** The run line as a writer puts it: the pairs separated by single spaces. */
  function RunsText(runs: seq<Run>): string
    decreases |runs|
  {
    if runs == [] then ""
    else if |runs| == 1 then PairText(runs[0].visited, runs[0].length)
    else PairText(runs[0].visited, runs[0].length) + " " + RunsText(runs[1..])
  }

  /** Every number of the runs fits Go's int. */
  predicate RunsFit(runs: seq<Run>)
  {
    forall i :: 0 <= i < |runs| ==> InIntRange(runs[i].visited) && InIntRange(runs[i].length)
  }

  /** The run loop reads back a written run line, with any blanks before it. */
  lemma {:induction false} ScanRunsText(bl: string, runs: seq<Run>)
    requires AllBlanks(bl) && RunsFit(runs)
    ensures ScanRuns(bl + RunsText(runs)) == Ok(runs)
    decreases |runs|
  {
    if runs == [] {
      ScanRunsEmpty(bl);
    } else if |runs| == 1 {
      ScanRunsSingle(bl, runs);
    } else {
      RunsFitRest(runs);
      ScanRunsText(" ", runs[1..]);
      ScanRunsFirst(bl, runs);
    }
  }

  lemma ScanRunsEmpty(bl: string)
    requires AllBlanks(bl)
    ensures ScanRuns(bl + RunsText([])) == Ok([])
  {
    ScanIntBlanks(bl);
    assert bl + RunsText([]) == bl;
  }

  lemma ScanRunsSingle(bl: string, runs: seq<Run>)
    requires AllBlanks(bl) && RunsFit(runs) && |runs| == 1
    ensures ScanRuns(bl + RunsText(runs)) == Ok(runs)
  {
    var r := runs[0];
    var p := PairText(r.visited, r.length);
    ScanPairText(bl, r.visited, r.length, []);
    ScanIntBlanks([]);
    assert bl + RunsText(runs) == bl + p + [];
    ScanRunsCons(bl + p + [], runs, []);
  }

  lemma ScanRunsFirst(bl: string, runs: seq<Run>)
    requires AllBlanks(bl) && RunsFit(runs) && |runs| > 1
    requires ScanRuns(" " + RunsText(runs[1..])) == Ok(runs[1..])
    ensures ScanRuns(bl + RunsText(runs)) == Ok(runs)
  {
    var r := runs[0];
    var p := PairText(r.visited, r.length);
    var t := " " + RunsText(runs[1..]);
    TextStartNotBlank(0);
    ScanPairText(bl, r.visited, r.length, t);
    assert RunsText(runs) == p + " " + RunsText(runs[1..]);
    Regroup(bl, p, " ", RunsText(runs[1..]));
    ScanRunsCons(bl + p + t, runs, t);
  }

  lemma Regroup<T>(a: seq<T>, b: seq<T>, c: seq<T>, d: seq<T>)
    ensures a + (b + c + d) == a + b + (c + d)
  {
  }

  lemma RunsFitRest(runs: seq<Run>)
    requires |runs| > 0 && RunsFit(runs)
    ensures InIntRange(runs[0].visited) && InIntRange(runs[0].length) && RunsFit(runs[1..])
  {
    forall k | 0 <= k < |runs| - 1 ensures InIntRange(runs[1..][k].visited) && InIntRange(runs[1..][k].length) {
      assert runs[1..][k] == runs[k + 1];
    }
  }

  /** One pair read, then the rest of the runs. */
  lemma ScanRunsCons(s: string, runs: seq<Run>, t: string)
    requires |runs| > 0
    requires ScanPair(s) == Pair(runs[0].visited, runs[0].length, t)
    requires ScanRuns(t) == Ok(runs[1..])
    ensures ScanRuns(s) == Ok(runs)
  {
    assert [Run(runs[0].visited, runs[0].length)] + runs[1..] == runs;
  }


  /** A seen file as bufio.Scanner delivers it: its lines, and whether
      reading stopped with an error after them. */
  datatype FileContent = FileContent(lines: seq<string>, readFailed: bool)

  /** What a region file contributes to the picture. */
  datatype Decoded = Decoded(runs: seq<Run>, notes: seq<Point>)

  /** The index of the first LEVEL line at or after k. */
  function FindLevel(lines: seq<string>, k: nat): (r: Option<nat>)
    requires k <= |lines|
    ensures r.Some? ==> k <= r.value < |lines| && lines[r.value] == LEVEL
    ensures r.Some? ==> forall i :: k <= i < r.value ==> lines[i] != LEVEL
    ensures r.None? ==> forall i :: k <= i < |lines| ==> lines[i] != LEVEL
    decreases |lines| - k
  {
    if k == |lines| then None
    else if lines[k] == LEVEL then Some(k)
    else FindLevel(lines, k + 1)
  }

  /** The line scanner.Text() holds after a Scan that reads index c: the line,
      or "" once the lines are used up. */
  function LineAt(lines: seq<string>, c: nat): string
  {
    if c < |lines| then lines[c] else ""
  }

  /** What fmt.Fscanf(reader, "N %d %d", ...) makes of each line. */
  function NoteScans(lines: seq<string>): (r: seq<Option<Point>>)
    ensures |r| == |lines|
    decreases |lines|
  {
    if lines == [] then [] else [ScanNote(lines[0])] + NoteScans(lines[1..])
  }

  lemma {:induction false} NoteScansAt(lines: seq<string>, j: nat)
    requires j < |lines|
    ensures NoteScans(lines)[j] == ScanNote(lines[j])
    decreases j
  {
    if j > 0 {
      NoteScansAt(lines[1..], j - 1);
    }
  }

  /** The note loop from line c, given what each line scans as: a line that
      reads as "N x y" is a note and the line after it (the note's text) is
      skipped; the first line that does not, or the end of the file, stops
      the loop. */
  function Notes(scans: seq<Option<Point>>, c: nat): (ns: seq<Point>)
    requires c <= |scans|
    ensures 2 * |ns| <= |scans| - c + 1
    ensures forall p :: p in ns ==> Some(p) in scans[c..]
    decreases |scans| - c
  {
    if c == |scans| then []
    else
      match scans[c]
      case None => []
      case Some(p) => [p] + Notes(scans, Min(c + 2, |scans|))
  }

  /** The body of the region loop after the level search, with the scanner
      about to read line c: the run line, two skipped lines, then the notes. */
  function DecodeFrom(lines: seq<string>, c: nat): (r: Result<Decoded, Error>)
    requires c <= |lines|
    ensures r.Err? ==> r.error == ScanFailure
    ensures r.Ok? ==> RunsFit(r.value.runs) && 2 * |r.value.notes| <= |lines| - c
  {
    match ScanRuns(LineAt(lines, c))
    case Err(e) => Err(e)
    case Ok(runs) => Ok(Decoded(runs, Notes(NoteScans(lines), Min(c + 3, |lines|))))
  }

  /** One region file: the scan for LEVEL, failing only when the reader
      failed before a LEVEL line was found; without a LEVEL line the rest
      runs on an exhausted scanner. */
  function Decode(f: FileContent): (r: Result<Decoded, Error>)
    ensures r.Err? ==> r.error == ReadFailure || r.error == ScanFailure
    ensures r == Err(ReadFailure) <==> f.readFailed && FindLevel(f.lines, 0).None?
  {
    match LevelCursor(f)
    case None => Err(ReadFailure)
    case Some(c) => DecodeFrom(f.lines, c)
  }

  /** Where the level search leaves the scanner: just past the LEVEL line,
      at the end of a file without one, or nowhere when the reader failed
      before a LEVEL line was found. */
  function LevelCursor(f: FileContent): (r: Option<nat>)
    ensures r.Some? ==> r.value <= |f.lines|
  {
    match FindLevel(f.lines, 0)
    case None => if f.readFailed then None else Some(|f.lines|)
    case Some(i) => Some(i + 1)
  }

  /** A file without a LEVEL line contributes nothing, or fails with the
      reader's error. */
  lemma NoLevelNothing(f: FileContent)
    requires forall i :: 0 <= i < |f.lines| ==> f.lines[i] != LEVEL
    ensures Decode(f) == if f.readFailed then Err(ReadFailure) else Ok(Decoded([], []))
  {
    assert FindLevel(f.lines, 0).None?;
    ScanIntBlanks("");
  }

  /** The note lines as a writer puts them: each position followed by the
      note's text. */
  function NoteLines(notes: seq<Point>, texts: seq<string>): seq<string>
    requires |texts| == |notes|
  {
    Interleave(NoteHeads(notes), texts)
  }

  /** The position line of each note. */
  function NoteHeads(notes: seq<Point>): (hs: seq<string>)
    ensures |hs| == |notes|
  {
    seq(|notes|, i requires 0 <= i < |notes| => NoteText(notes[i].x, notes[i].y))
  }

  /** a[0], b[0], a[1], b[1], ... */
  function Interleave<T>(a: seq<T>, b: seq<T>): seq<T>
    requires |a| == |b|
    decreases |a|
  {
    if a == [] then [] else [a[0], b[0]] + Interleave(a[1..], b[1..])
  }

  lemma {:induction false} InterleaveAt<T>(a: seq<T>, b: seq<T>)
    requires |a| == |b|
    ensures var r := Interleave(a, b);
      |r| == 2 * |a| && forall i :: 0 <= i < |a| ==> r[2 * i] == a[i] && r[2 * i + 1] == b[i]
    decreases |a|
  {
    if a != [] {
      var rest := Interleave(a[1..], b[1..]);
      InterleaveAt(a[1..], b[1..]);
      var r := Interleave(a, b);
      forall i | 0 <= i < |a| ensures r[2 * i] == a[i] && r[2 * i + 1] == b[i] {
        if i > 0 {
          assert r[2 * i] == rest[2 * (i - 1)] && r[2 * i + 1] == rest[2 * (i - 1) + 1];
        }
      }
    }
  }

  /** Every note position fits Go's int. */
  predicate NotesFit(notes: seq<Point>)
  {
    forall i :: 0 <= i < |notes| ==> InIntRange(notes[i].x) && InIntRange(notes[i].y)
  }

  /** The note loop reads every position line back as its note. */
  lemma NoteHeadsScan(notes: seq<Point>)
    requires NotesFit(notes)
    ensures forall i :: 0 <= i < |notes| ==> ScanNote(NoteHeads(notes)[i]) == Some(notes[i])
  {
    forall i | 0 <= i < |notes| ensures ScanNote(NoteHeads(notes)[i]) == Some(notes[i]) {
      NoteTextRoundTrip(notes[i].x, notes[i].y);
    }
  }

  /** From index c on, every other scan is the next note. */
  predicate NotesAt(scans: seq<Option<Point>>, c: nat, notes: seq<Point>)
    decreases |notes|
  {
    if notes == [] then c <= |scans|
    else c + 2 <= |scans| && scans[c] == Some(notes[0]) && NotesAt(scans, c + 2, notes[1..])
  }

  /** Scan c + 2i is note i, for every note. */
  lemma {:induction false} NotesAtEvery(scans: seq<Option<Point>>, c: nat, notes: seq<Point>)
    requires c + 2 * |notes| <= |scans|
    requires forall i :: 0 <= i < |notes| ==> scans[c + 2 * i] == Some(notes[i])
    ensures NotesAt(scans, c, notes)
    decreases |notes|
  {
    if notes != [] {
      var rest := notes[1..];
      forall i | 0 <= i < |rest| ensures scans[c + 2 + 2 * i] == Some(rest[i]) {
        assert rest[i] == notes[i + 1];
        assert c + 2 + 2 * i == c + 2 * (i + 1);
      }
      NotesAtEvery(scans, c + 2, rest);
      assert scans[c + 2 * 0] == Some(notes[0]);
    }
  }

  /** The note loop reads back note lines, stopping at the end of the file
      or at a line that is not a note position. */
  lemma {:induction false} NotesText(scans: seq<Option<Point>>, c: nat, notes: seq<Point>)
    requires NotesAt(scans, c, notes) && NotesEnd(scans, c + 2 * |notes|)
    ensures Notes(scans, c) == notes
    decreases |notes|
  {
    if notes != [] {
      NotesText(scans, c + 2, notes[1..]);
      assert [notes[0]] + notes[1..] == notes;
    }
  }

  /** The note loop stops at index k: the file ends there or the line is
      not a note position. */
  predicate NotesEnd(scans: seq<Option<Point>>, k: nat)
  {
    k >= |scans| || scans[k].None?
  }

  /** A whole seen file read back: lines without LEVEL, the LEVEL line, the
      run line, two further lines, and the note lines, ended by the end of
      the file or a line that is not a note position. */
  lemma DecodeText(pre: seq<string>, runs: seq<Run>, e1: string, e2: string,
                   notes: seq<Point>, texts: seq<string>, post: seq<string>, failed: bool)
    requires forall i :: 0 <= i < |pre| ==> pre[i] != LEVEL
    requires RunsFit(runs) && NotesFit(notes) && |texts| == |notes|
    requires post == [] || ScanNote(post[0]).None?
    ensures Decode(FileContent(pre + [LEVEL, RunsText(runs), e1, e2] + NoteLines(notes, texts) + post, failed))
            == Ok(Decoded(runs, notes))
  {
    var lines := pre + [LEVEL, RunsText(runs), e1, e2] + NoteLines(notes, texts) + post;
    LevelLayout(pre, runs, e1, e2, NoteLines(notes, texts), post);
    NotesLayout(pre + [LEVEL, RunsText(runs), e1, e2], notes, texts, post);
    DecodeWritten(lines, |pre|, runs, notes, texts, failed);
  }

  /** Line i is the first LEVEL line and the run line follows it. */
  ghost predicate LevelLines(lines: seq<string>, i: nat, runs: seq<Run>)
  {
    && i + 1 < |lines| && RunsFit(runs)
    && lines[i] == LEVEL && lines[i + 1] == RunsText(runs)
    && (forall k :: 0 <= k < i ==> lines[k] != LEVEL)
  }

  /** The note lines start at line c and are followed by the end of the
      file or a line that is not a note position. */
  ghost predicate NoteLinesAt(lines: seq<string>, c: nat, notes: seq<Point>, texts: seq<string>)
  {
    && NotesFit(notes) && |texts| == |notes|
    && Placed(lines, c, NoteLines(notes, texts))
    && NotesEnd(NoteScans(lines), c + |NoteLines(notes, texts)|)
  }

  lemma LevelLayout(pre: seq<string>, runs: seq<Run>, e1: string, e2: string, nl: seq<string>, post: seq<string>)
    requires forall i :: 0 <= i < |pre| ==> pre[i] != LEVEL
    requires RunsFit(runs)
    ensures LevelLines(pre + [LEVEL, RunsText(runs), e1, e2] + nl + post, |pre|, runs)
  {
    var mid := [LEVEL, RunsText(runs), e1, e2];
    Concat4(pre, mid, nl, post);
    var lines := pre + mid + nl + post;
    assert lines[|pre| + 0] == LEVEL && lines[|pre| + 1] == RunsText(runs);
  }

  lemma NotesLayout(head: seq<string>, notes: seq<Point>, texts: seq<string>, post: seq<string>)
    requires NotesFit(notes) && |texts| == |notes|
    requires post == [] || ScanNote(post[0]).None?
    ensures NoteLinesAt(head + NoteLines(notes, texts) + post, |head|, notes, texts)
  {
    var lines := head + NoteLines(notes, texts) + post;
    Concat3(head, NoteLines(notes, texts), post);
    if post != [] {
      NoteLineEnd(lines, |head| + |NoteLines(notes, texts)|, post[0]);
    }
  }

  /** A line that is not a note position ends the note loop. */
  lemma NoteLineEnd(lines: seq<string>, j: nat, h: string)
    requires j < |lines| && lines[j] == h && ScanNote(h).None?
    ensures NotesEnd(NoteScans(lines), j)
  {
    NoteScansAt(lines, j);
  }

  /** The lines from c on start with part. */
  ghost predicate Placed<T>(lines: seq<T>, c: nat, part: seq<T>)
  {
    c + |part| <= |lines| && forall k :: 0 <= k < |part| ==> lines[c + k] == part[k]
  }

  /** The layout of a concatenation of three sequences. */
  lemma Concat3<T>(a: seq<T>, b: seq<T>, c: seq<T>)
    ensures var all := a + b + c;
      && |all| == |a| + |b| + |c| && Placed(all, |a|, b)
      && (c != [] ==> all[|a| + |b|] == c[0])
  {
    var all := a + b + c;
    assert all == a + (b + c);
    assert forall k :: 0 <= k < |b| ==> all[|a| + k] == (b + c)[k];
  }

  lemma DecodeWritten(lines: seq<string>, i: nat, runs: seq<Run>, notes: seq<Point>, texts: seq<string>, failed: bool)
    requires LevelLines(lines, i, runs) && NoteLinesAt(lines, i + 4, notes, texts)
    ensures Decode(FileContent(lines, failed)) == Ok(Decoded(runs, notes))
  {
    LevelAndRuns(lines, i, runs);
    NotesOfLines(lines, i + 4, notes, texts);
    DecodeParts(lines, i, runs, notes, failed);
  }

  /** The first LEVEL line at i, followed by a written run line. */
  lemma LevelAndRuns(lines: seq<string>, i: nat, runs: seq<Run>)
    requires LevelLines(lines, i, runs)
    ensures FindLevel(lines, 0) == Some(i) && ScanRuns(lines[i + 1]) == Ok(runs)
  {
    FindLevelAt(lines, i);
    RunsTextScans(runs);
  }

  /** A written run line reads back as its runs. */
  lemma RunsTextScans(runs: seq<Run>)
    requires RunsFit(runs)
    ensures ScanRuns(RunsText(runs)) == Ok(runs)
  {
    ScanRunsText([], runs);
    assert [] + RunsText(runs) == RunsText(runs);
  }

  /** Written note lines from line c on, followed by the end of the file or
      a line that is not a note position, are read back as the notes. */
  lemma NotesOfLines(lines: seq<string>, c: nat, notes: seq<Point>, texts: seq<string>)
    requires NoteLinesAt(lines, c, notes, texts)
    ensures c <= |lines| && Notes(NoteScans(lines), c) == notes
  {
    NoteLinesScan(lines, c, notes, texts);
    NotesText(NoteScans(lines), c, notes);
  }

  lemma NoteLinesScan(lines: seq<string>, c: nat, notes: seq<Point>, texts: seq<string>)
    requires NoteLinesAt(lines, c, notes, texts)
    ensures NotesAt(NoteScans(lines), c, notes) && NotesEnd(NoteScans(lines), c + 2 * |notes|)
  {
    WrittenNotes(lines, c, notes, texts);
  }

  /** Written note lines from line c on scan as the notes, every other line. */
  lemma WrittenNotes(lines: seq<string>, c: nat, notes: seq<Point>, texts: seq<string>)
    requires NotesFit(notes) && |texts| == |notes|
    requires Placed(lines, c, NoteLines(notes, texts))
    ensures |NoteLines(notes, texts)| == 2 * |notes| && NotesAt(NoteScans(lines), c, notes)
  {
    NoteHeadsScan(notes);
    InterleavedNotes(lines, c, notes, NoteHeads(notes), texts);
    NotesAtEvery(NoteScans(lines), c, notes);
  }

  /** Interleaved lines whose every other line scans as the next note. */
  lemma InterleavedNotes(lines: seq<string>, c: nat, notes: seq<Point>, hs: seq<string>, texts: seq<string>)
    requires |hs| == |notes| && |texts| == |notes|
    requires forall i :: 0 <= i < |notes| ==> ScanNote(hs[i]) == Some(notes[i])
    requires Placed(lines, c, Interleave(hs, texts))
    ensures |Interleave(hs, texts)| == 2 * |notes| && forall k :: 0 <= k < |notes| ==> NoteScans(lines)[c + 2 * k] == Some(notes[k])
  {
    InterleavedLines(lines, c, hs, texts);
    forall k | 0 <= k < |notes| ensures NoteScans(lines)[c + 2 * k] == Some(notes[k]) {
      NoteLineScan(lines, c + 2 * k, hs[k], notes[k]);
    }
  }

  /** Lines holding an interleaving hold its first sequence every other line. */
  lemma InterleavedLines<T>(lines: seq<T>, c: nat, hs: seq<T>, texts: seq<T>)
    requires |hs| == |texts|
    requires Placed(lines, c, Interleave(hs, texts))
    ensures |Interleave(hs, texts)| == 2 * |hs| && forall k :: 0 <= k < |hs| ==> lines[c + 2 * k] == hs[k]
  {
    InterleaveAt(hs, texts);
    forall k | 0 <= k < |hs| ensures lines[c + 2 * k] == hs[k] {
      assert lines[c + 2 * k] == Interleave(hs, texts)[2 * k];
    }
  }

  /** A line that reads as note p gives p in the note scans. */
  lemma NoteLineScan(lines: seq<string>, j: nat, h: string, p: Point)
    requires j < |lines| && lines[j] == h && ScanNote(h) == Some(p)
    ensures NoteScans(lines)[j] == Some(p)
  {
    NoteScansAt(lines, j);
  }

  /** The layout of a concatenation of four sequences. */
  lemma Concat4<T>(a: seq<T>, b: seq<T>, c: seq<T>, d: seq<T>)
    ensures var all := a + b + c + d;
      && |all| == |a| + |b| + |c| + |d|
      && (forall k :: 0 <= k < |a| ==> all[k] == a[k])
      && (forall k :: 0 <= k < |b| ==> all[|a| + k] == b[k])
      && (forall k :: 0 <= k < |c| ==> all[|a| + |b| + k] == c[k])
      && (d != [] ==> all[|a| + |b| + |c|] == d[0])
  {
    var all := a + b + c + d;
    assert all == a + (b + (c + d));
  }

  /** The first LEVEL line is the one at i when none comes before it. */
  lemma {:induction false} FindLevelAt(lines: seq<string>, i: nat)
    requires i < |lines| && lines[i] == LEVEL
    requires forall k :: 0 <= k < i ==> lines[k] != LEVEL
    ensures FindLevel(lines, 0) == Some(i)
  {
  }

  /** The level search found line i, the run line reads as runs and the
      note loop from line i + 4 reads the notes. */
  lemma DecodeParts(lines: seq<string>, i: nat, runs: seq<Run>, notes: seq<Point>, failed: bool)
    requires i + 4 <= |lines| && FindLevel(lines, 0) == Some(i)
    requires ScanRuns(lines[i + 1]) == Ok(runs) && Notes(NoteScans(lines), i + 4) == notes
    ensures Decode(FileContent(lines, failed)) == Ok(Decoded(runs, notes))
  {
    DecodeFromParts(lines, i + 1, runs, notes);
    DecodeLevel(FileContent(lines, failed), i);
  }

  lemma DecodeFromParts(lines: seq<string>, c: nat, runs: seq<Run>, notes: seq<Point>)
    requires c + 3 <= |lines| && ScanRuns(lines[c]) == Ok(runs) && Notes(NoteScans(lines), c + 3) == notes
    ensures DecodeFrom(lines, c) == Ok(Decoded(runs, notes))
  {
    assert LineAt(lines, c) == lines[c];
  }

  lemma DecodeLevel(f: FileContent, i: nat)
    requires FindLevel(f.lines, 0) == Some(i)
    ensures Decode(f) == DecodeFrom(f.lines, i + 1)
  {
    assert LevelCursor(f) == Some(i + 1);
  }
}
