/** Region discovery: which directory entries NewMap records, under which
    coordinates, and the state its walk callback builds up. */
module Regions {
  import opened Wrappers
  import opened Geometry
  import opened Scanning

  /** The text `-?\d+` matches. */
  predicate IsIntText(t: string)
  {
    if |t| > 0 && t[0] == '-' then |t| >= 2 && AllDigits(t[1..]) else |t| >= 1 && AllDigits(t)
  }

  /** strconv.Atoi's value of such a text, before its range check. */
  function IntValue(t: string): int
    requires IsIntText(t)
  {
    if t[0] == '-' then 0 - DigitsValue(t[1..]) else DigitsValue(t)
  }

  /** Text t occurs in s at index j. */
  predicate At(s: string, j: nat, t: string)
  {
    j + |t| <= |s| && forall k :: 0 <= k < |t| ==> s[j + k] == t[k]
  }

  const SEEN: string := ".seen."

  /** The three submatches of the seen-file pattern: identity, x text, y text. */
  datatype SeenMatch = SeenMatch(id: string, xText: string, yText: string)

  /** The pattern `\#(.*?)\.seen\.(-?\d+)\.(-?\d+)$` matches p from index i
      with submatches m (`.` matches any character but a newline): a '#',
      the identity, `.seen.`, the x text, `.`, and the y text up to the end. */
  predicate MatchAt(p: string, i: nat, m: SeenMatch)
  {
    && i < |p| && p[i] == '#' && At(p, i + 1, m.id) && '\n' !in m.id
    && TailAt(p, Tail(i + 1 + |m.id|, m.xText, m.yText))
  }

  /** The `.seen.<x>.<y>` suffix of a name: where it starts and its two numbers. */
  datatype Tail = Tail(start: nat, xText: string, yText: string)

  /** p ends with t laid out from t.start: `.seen.`, the x text, `.`, the y text. */
  predicate TailAt(p: string, t: Tail)
  {
    var xs := t.start + |SEEN|;
    var dot := xs + |t.xText|;
    && dot + 1 + |t.yText| == |p|
    && At(p, t.start, SEEN) && At(p, xs, t.xText) && p[dot] == '.' && At(p, dot + 1, t.yText)
    && IsIntText(t.xText) && IsIntText(t.yText)
  }

  /** A slice of s is found in s where it was cut. */
  lemma AtSlice(s: string, i: nat, j: nat)
    requires i <= j <= |s|
    ensures At(s, i, s[i..j])
  {
    forall k | 0 <= k < j - i ensures s[i + k] == s[i..j][k] { }
  }

  /** Text found in s at j is the slice of s from j. */
  lemma SliceAt(s: string, j: nat, t: string)
    requires At(s, j, t)
    ensures s[j..j + |t|] == t
  {
    forall k | 0 <= k < |t| ensures s[j..j + |t|][k] == t[k] {
      assert s[j + k] == t[k];
    }
  }

  /** The first index d such that p[d..end] is all digits. */
  function DigitsStart(p: string, end: nat): (d: nat)
    requires end <= |p|
    ensures d <= end && forall k :: d <= k < end ==> IsDigit(p[k])
    ensures d == 0 || !IsDigit(p[d - 1])
    decreases end
  {
    if end > 0 && IsDigit(p[end - 1]) then DigitsStart(p, end - 1) else end
  }

  /** Where the `-?\d+` text that ends at index end starts, if one does. */
  function IntTextStart(p: string, end: nat): (r: Option<nat>)
    requires end <= |p|
    ensures r.Some? ==> r.value < end && IsIntText(p[r.value..end])
  {
    var d := DigitsStart(p, end);
    if d == end then None
    else if d > 0 && p[d - 1] == '-' then
      assert p[d - 1..end][1..] == p[d..end];
      Some(d - 1)
    else Some(d)
  }

  /** The `.seen.<x>.<y>` suffix the anchored pattern needs, if p has one:
      the y text ends the name and follows a '.'. */
  function SeenTail(p: string): (r: Option<Tail>)
    ensures r.Some? ==> TailAt(p, r.value)
  {
    match IntTextStart(p, |p|)
    case None => None
    case Some(b) => if b == 0 || p[b - 1] != '.' then None else TailBefore(p, b)
  }

  /** The rest of the suffix before the y text at b: the x text, and `.seen.` before it. */
  function TailBefore(p: string, b: nat): (r: Option<Tail>)
    requires 0 < b < |p| && p[b - 1] == '.' && IsIntText(p[b..])
    ensures r.Some? ==> TailAt(p, r.value)
  {
    match IntTextStart(p, b - 1)
    case None => None
    case Some(a) =>
      if a < |SEEN| || p[a - |SEEN|..a] != SEEN then None
      else
        AtSlice(p, a - |SEEN|, a);
        AtSlice(p, a, b - 1);
        AtSlice(p, b, |p|);
        Some(Tail(a - |SEEN|, p[a..b - 1], p[b..]))
  }

  /** A '#' at index i that no newline separates from index end. */
  predicate HashBefore(p: string, i: nat, end: nat)
    requires i < end <= |p|
  {
    p[i] == '#' && '\n' !in p[i + 1..end]
  }

  /** The first such '#' at or after index from. */
  function FirstHash(p: string, from: nat, end: nat): (r: Option<nat>)
    requires from <= end <= |p|
    ensures r.Some? ==> from <= r.value < end && HashBefore(p, r.value, end)
    ensures forall i :: from <= i < end && HashBefore(p, i, end) ==> r.Some? && r.value <= i
    decreases end - from
  {
    if from == end then None
    else if HashBefore(p, from, end) then Some(from)
    else FirstHash(p, from + 1, end)
  }

  /** rxpSeenFile.FindStringSubmatch(p), written out: the suffix is fixed by
      the anchor, and the leftmost '#' before it with no newline in between
      opens the match. */
  function MatchSeen(p: string): (r: Option<SeenMatch>)
    ensures r.Some? ==> IsIntText(r.value.xText) && IsIntText(r.value.yText)
  {
    match SeenTail(p)
    case None => None
    case Some(t) =>
      match FirstHash(p, 0, t.start)
      case None => None
      case Some(i) => Some(SeenMatch(p[i + 1..t.start], t.xText, t.yText))
  }

  lemma {:induction false} DigitsStartAt(p: string, d: nat, end: nat)
    requires d <= end <= |p|
    requires forall k :: d <= k < end ==> IsDigit(p[k])
    requires d == 0 || !IsDigit(p[d - 1])
    ensures DigitsStart(p, end) == d
    decreases end
  {
    if end > d {
      DigitsStartAt(p, d, end - 1);
    }
  }

  /** An integer text that ends at index end and follows a '.' is found by IntTextStart. */
  lemma {:induction false} IntTextStartAt(p: string, a: nat, end: nat)
    requires 0 < a <= end <= |p| && p[a - 1] == '.'
    requires IsIntText(p[a..end])
    ensures IntTextStart(p, end) == Some(a)
  {
    var t := p[a..end];
    if t[0] == '-' {
      forall k | a + 1 <= k < end ensures IsDigit(p[k]) {
        assert p[k] == t[1..][k - a - 1];
      }
      DigitsStartAt(p, a + 1, end);
    } else {
      forall k | a <= k < end ensures IsDigit(p[k]) {
        assert p[k] == t[k - a];
      }
      DigitsStartAt(p, a, end);
    }
  }

  /** The anchored suffix is unique: whatever tail a name has, SeenTail finds it. */
  lemma {:induction false} SeenTailUnique(p: string, t: Tail)
    requires TailAt(p, t)
    ensures SeenTail(p) == Some(t)
  {
    var b := t.start + |SEEN| + |t.xText| + 1;
    TailBeforeAt(p, t);
    assert p[b..|p|] == p[b..];
    IntTextStartAt(p, b, |p|);
    SeenTailSteps(p, b, t);
  }

  lemma SeenTailSteps(p: string, b: nat, t: Tail)
    requires 0 < b < |p| && IntTextStart(p, |p|) == Some(b) && p[b - 1] == '.' && IsIntText(p[b..])
    requires TailBefore(p, b) == Some(t)
    ensures SeenTail(p) == Some(t)
  {
  }

  lemma {:induction false} TailBeforeAt(p: string, t: Tail)
    requires TailAt(p, t)
    ensures var b := t.start + |SEEN| + |t.xText| + 1;
      0 < b < |p| && p[b - 1] == '.' && IsIntText(p[b..]) && TailBefore(p, b) == Some(t)
  {
    var xs := t.start + |SEEN|;
    var dot := xs + |t.xText|;
    var b := dot + 1;
    SliceAt(p, t.start, SEEN);
    SliceAt(p, xs, t.xText);
    SliceAt(p, b, t.yText);
    assert p[b..] == p[b..b + |t.yText|];
    assert p[xs - 1] == '.' by {
      assert p[t.start..xs][|SEEN| - 1] == '.';
    }
    IntTextStartAt(p, xs, dot);
    assert IsIntText(p[b..]);
    assert p[b - 1] == '.';
    assert p[xs..b - 1] == t.xText;
    TailBeforeSteps(p, b, xs, t);
  }

  lemma TailBeforeSteps(p: string, b: nat, a: nat, t: Tail)
    requires 0 < b < |p| && p[b - 1] == '.' && IsIntText(p[b..])
    requires IntTextStart(p, b - 1) == Some(a) && |SEEN| <= a && p[a - |SEEN|..a] == SEEN
    requires t == Tail(a - |SEEN|, p[a..b - 1], p[b..])
    ensures TailBefore(p, b) == Some(t)
  {
  }

  /** Where the match MatchSeen reports opens. */
  function MatchStart(p: string): nat
    requires MatchSeen(p).Some?
  {
    FirstHash(p, 0, SeenTail(p).value.start).value
  }

  /** What MatchSeen reports is a match of the pattern. */
  lemma {:induction false} MatchSeenSound(p: string)
    requires MatchSeen(p).Some?
    ensures MatchAt(p, MatchStart(p), MatchSeen(p).value)
  {
    var t := SeenTail(p).value;
    var i := FirstHash(p, 0, t.start).value;
    MatchSeenSteps(p, t, i);
    AtSlice(p, i + 1, t.start);
  }

  /** No match opens further left than the reported one, and at that opening
      the submatches are the reported ones. */
  lemma {:induction false} MatchSeenLeftmost(p: string, j: nat, m: SeenMatch)
    requires MatchAt(p, j, m)
    ensures MatchSeen(p).Some? && MatchStart(p) <= j
    ensures MatchStart(p) == j ==> m == MatchSeen(p).value
  {
    var e := j + 1 + |m.id|;
    MatchHash(p, j, m);
    var f := FirstHashAt(p, j, e);
    var t := Tail(e, m.xText, m.yText);
    SeenTailUnique(p, t);
    LeftmostSteps(p, j, m, t, f);
  }

  /** A '#' no newline separates from end bounds the first such '#'. */
  lemma FirstHashAt(p: string, j: nat, e: nat) returns (f: nat)
    requires j < e <= |p| && HashBefore(p, j, e)
    ensures FirstHash(p, 0, e) == Some(f) && f <= j
  {
    f := FirstHash(p, 0, e).value;
  }

  /** The reported match, once the tail and the first '#' before it are known. */
  lemma LeftmostSteps(p: string, j: nat, m: SeenMatch, t: Tail, f: nat)
    requires SeenTail(p) == Some(t) && t.start == j + 1 + |m.id| && t.xText == m.xText && t.yText == m.yText
    requires FirstHash(p, 0, t.start) == Some(f) && f <= j && p[j + 1..t.start] == m.id
    ensures MatchSeen(p).Some? && MatchStart(p) <= j
    ensures MatchStart(p) == j ==> m == MatchSeen(p).value
  {
    MatchSeenSteps(p, t, f);
  }

  /** A match opens at a '#' that no newline separates from its tail. */
  lemma MatchHash(p: string, j: nat, m: SeenMatch)
    requires MatchAt(p, j, m)
    ensures var e := j + 1 + |m.id|; e < |p| && p[j + 1..e] == m.id && HashBefore(p, j, e)
  {
    SliceAt(p, j + 1, m.id);
  }

  /** MatchSeen's result once the tail and the opening '#' are known. */
  lemma MatchSeenSteps(p: string, t: Tail, i: nat)
    requires SeenTail(p) == Some(t) && i < t.start && FirstHash(p, 0, t.start) == Some(i)
    ensures MatchSeen(p) == Some(SeenMatch(p[i + 1..t.start], t.xText, t.yText)) && MatchStart(p) == i
  {
  }

  /** One call of the filepath.Walk callback: the path, whether it is a
      directory, and whether the walk passed an error instead of file info. */
  datatype Entry = Entry(path: string, isDir: bool, failed: bool)

  /** A matched name's identity and its two numbers as strconv.Atoi reads
      them, before its range check. */
  datatype Named = Named(id: string, x: int, y: int)

  /** What the callback sees of an entry: its path and, if it reads them,
      the submatches. */
  datatype Sighting = Sighting(path: string, seen: Option<Named>)

  /** An entry that came with an error is passed over, a directory other
      than the root is skipped (filepath.SkipDir), and any other path is
      matched against the pattern. */
  function Look(root: string, e: Entry): (s: Sighting)
    ensures s.path == e.path
    ensures s.seen.Some? <==> !e.failed && (e.path == root || !e.isDir) && MatchSeen(e.path).Some?
  {
    if e.failed || (e.path != root && e.isDir) then Sighting(e.path, None)
    else match MatchSeen(e.path)
      case None => Sighting(e.path, None)
      case Some(m) => Sighting(e.path, Some(Named(m.id, IntValue(m.xText), IntValue(m.yText))))
  }

  function Sightings(root: string, entries: seq<Entry>): seq<Sighting>
  {
    seq(|entries|, i requires 0 <= i < |entries| => Look(root, entries[i]))
  }

  /** The coordinate the callback records for a sighting, when it records one. */
  function Coord(s: Sighting): Option<Point>
  {
    match s.seen
    case None => None
    case Some(m) => if InIntRange(m.x) && InIntRange(m.y) then Some(Point(m.x, m.y)) else None
  }

  /** The state NewMap's callback updates: the captured identity, the map
      from region coordinate to path, and the w, e, s, n fields. */
  datatype Found = Found(id: string, maps: map<Point, string>, w: int, e: int, s: int, n: int)

  const START := Found("", map[], 0, 0, 0, 0)

  /** The callback on one sighting: capture the identity if none is
      captured, fail on a different one, convert both numbers, record the
      path and widen the bounds. */
  function Visit(st: Found, s: Sighting): (r: Result<Found, Error>)
    ensures s.seen.None? ==> r == Ok(st)
    ensures r.Err? ==> r.error == MultipleCharacters || r.error == NumberOutOfRange
    ensures r.Ok? ==> r.value.w <= st.w && st.e <= r.value.e && r.value.s <= st.s && st.n <= r.value.n
    ensures r.Ok? ==> st.maps.Keys <= r.value.maps.Keys
    ensures r.Ok? && s.seen.Some? ==> Coord(s).Some? && var k := Coord(s).value;
      k in r.value.maps && r.value.maps[k] == s.path
      && r.value.w <= k.x <= r.value.e && r.value.s <= k.y <= r.value.n
  {
    match s.seen
    case None => Ok(st)
    case Some(m) =>
      var id := if st.id == "" then m.id else st.id;
      if id != m.id then Err(MultipleCharacters)
      else
        if !InIntRange(m.x) || !InIntRange(m.y) then Err(NumberOutOfRange)
        else Ok(Found(id, st.maps[Point(m.x, m.y) := s.path], Min(st.w, m.x), Max(st.e, m.x), Min(st.s, m.y), Max(st.n, m.y)))
  }

  /** The walk: the callback over the sightings in order, from the zero
      state, stopping at the first error. */
  function Walk(ss: seq<Sighting>): (r: Result<Found, Error>)
    ensures r.Err? ==> r.error == MultipleCharacters || r.error == NumberOutOfRange
    decreases |ss|
  {
    if ss == [] then Ok(START)
    else
      match Walk(ss[..|ss| - 1])
      case Err(e) => Err(e)
      case Ok(st) => Visit(st, ss[|ss| - 1])
  }

  /** NewMap's outcome: the walk's error, ErrNotFound when nothing was
      recorded, or the recorded state. */
  function Discover(root: string, entries: seq<Entry>): (r: Result<Found, Error>)
    ensures r.Err? ==> r.error == MultipleCharacters || r.error == NumberOutOfRange || r.error == NoSeenFiles
    ensures r.Ok? ==> |r.value.maps| > 0
  {
    match Walk(Sightings(root, entries))
    case Err(e) => Err(e)
    case Ok(st) => if |st.maps| == 0 then Err(NoSeenFiles) else Ok(st)
  }

  /** The walk over one more entry: the callback's verdict on it. */
  lemma WalkStep(ss: seq<Sighting>, i: nat)
    requires i < |ss| && Walk(ss[..i]).Ok?
    ensures Walk(ss[..i + 1]) == Visit(Walk(ss[..i]).value, ss[i])
  {
    assert ss[..i + 1][..i] == ss[..i];
  }

  /** The walk stops at the first error: a failing prefix fails the whole walk the same way. */
  lemma {:induction false} WalkStops(ss: seq<Sighting>, i: nat)
    requires i <= |ss| && Walk(ss[..i]).Err?
    ensures Walk(ss) == Walk(ss[..i])
    decreases |ss| - i
  {
    if i < |ss| {
      assert ss[..i + 1][..i] == ss[..i];
      WalkStops(ss, i + 1);
    } else {
      assert ss[..i] == ss;
    }
  }

  /** Sighting i is the last one recorded under coordinate k. */
  predicate LastAt(ss: seq<Sighting>, i: int, k: Point)
  {
    0 <= i < |ss| && Coord(ss[i]) == Some(k)
    && forall j :: i < j < |ss| ==> Coord(ss[j]) != Some(k)
  }

  /** After a successful walk every matched name was recorded, and the
      map's keys are exactly the recorded coordinates. */
  lemma {:induction false} WalkKeys(ss: seq<Sighting>)
    requires Walk(ss).Ok?
    ensures forall i :: 0 <= i < |ss| && ss[i].seen.Some? ==> Coord(ss[i]).Some?
    ensures forall k :: k in Walk(ss).value.maps <==> exists i :: 0 <= i < |ss| && Coord(ss[i]) == Some(k)
    decreases |ss|
  {
    if ss != [] {
      var n := |ss| - 1;
      var init := ss[..n];
      WalkKeys(init);
      var st' := Walk(ss).value;
      assert forall i :: 0 <= i < n ==> ss[i] == init[i];
      forall k ensures k in st'.maps <==> exists i :: 0 <= i < |ss| && Coord(ss[i]) == Some(k) {
        if k in st'.maps && Coord(ss[n]) != Some(k) {
          var i :| 0 <= i < n && Coord(init[i]) == Some(k);
          assert Coord(ss[i]) == Some(k);
        }
        if exists i :: 0 <= i < |ss| && Coord(ss[i]) == Some(k) {
          var i :| 0 <= i < |ss| && Coord(ss[i]) == Some(k);
          if i < n {
            assert Coord(init[i]) == Some(k);
          }
        }
      }
    }
  }

  /** After a successful walk each key holds the path of the last name
      recorded under it: a repeated coordinate is overwritten. */
  lemma {:induction false} WalkLast(ss: seq<Sighting>)
    requires Walk(ss).Ok?
    ensures forall k :: k in Walk(ss).value.maps ==>
              exists i :: LastAt(ss, i, k) && Walk(ss).value.maps[k] == ss[i].path
    decreases |ss|
  {
    if ss != [] {
      var n := |ss| - 1;
      var init := ss[..n];
      WalkLast(init);
      var st := Walk(init).value;
      var st' := Walk(ss).value;
      forall k | k in st'.maps
        ensures exists i :: LastAt(ss, i, k) && st'.maps[k] == ss[i].path
      {
        if Coord(ss[n]) == Some(k) {
          assert LastAt(ss, n, k);
        } else {
          var i :| LastAt(init, i, k) && st.maps[k] == init[i].path;
          assert forall j :: i < j < n ==> ss[j] == init[j];
          assert LastAt(ss, i, k);
        }
      }
    }
  }

  /** The bounds always contain the origin and every recorded coordinate,
      and each is 0 or reached by a recorded coordinate. */
  lemma {:induction false} WalkBounds(ss: seq<Sighting>)
    requires Walk(ss).Ok?
    ensures var st := Walk(ss).value;
      && st.w <= 0 <= st.e && st.s <= 0 <= st.n
      && (forall k :: k in st.maps ==> st.w <= k.x <= st.e && st.s <= k.y <= st.n)
      && (st.w == 0 || exists k :: k in st.maps && k.x == st.w)
      && (st.e == 0 || exists k :: k in st.maps && k.x == st.e)
      && (st.s == 0 || exists k :: k in st.maps && k.y == st.s)
      && (st.n == 0 || exists k :: k in st.maps && k.y == st.n)
    decreases |ss|
  {
    if ss != [] {
      var init := ss[..|ss| - 1];
      WalkBounds(init);
      var st := Walk(init).value;
      var st' := Walk(ss).value;
      match ss[|ss| - 1].seen
      case None =>
      case Some(m) =>
        var k := Point(m.x, m.y);
        assert k in st'.maps;
        assert st'.maps.Keys == st.maps.Keys + {k};
    }
  }

  /** The first non-empty identity the callback read, or "" if none. */
  function FirstId(ss: seq<Sighting>): string
    decreases |ss|
  {
    if ss == [] then ""
    else
      var before := FirstId(ss[..|ss| - 1]);
      if before != "" then before
      else match ss[|ss| - 1].seen
        case None => ""
        case Some(m) => m.id
  }

  /** A matched name with a non-empty identity followed by a matched name
      with a different one. */
  predicate Conflict(ss: seq<Sighting>)
  {
    exists i, j :: 0 <= i < j < |ss| && Clash(ss[i].seen, ss[j].seen)
  }

  predicate Clash(a: Option<Named>, b: Option<Named>)
  {
    a.Some? && b.Some? && a.value.id != "" && a.value.id != b.value.id
  }

  /** Every matched name has numbers that strconv.Atoi accepts. */
  predicate NumbersFit(ss: seq<Sighting>)
  {
    forall i :: 0 <= i < |ss| && ss[i].seen.Some? ==> Coord(ss[i]).Some?
  }

  lemma {:induction false} FirstIdWitness(ss: seq<Sighting>)
    requires FirstId(ss) != ""
    ensures exists k :: 0 <= k < |ss| && ss[k].seen.Some? && ss[k].seen.value.id == FirstId(ss)
    decreases |ss|
  {
    var n := |ss| - 1;
    var init := ss[..n];
    if FirstId(init) != "" {
      FirstIdWitness(init);
      var k :| 0 <= k < |init| && init[k].seen.Some? && init[k].seen.value.id == FirstId(init);
      assert ss[k] == init[k];
    } else {
      assert ss[n].seen.Some?;
    }
  }

  lemma {:induction false} ConflictPrefix(ss: seq<Sighting>, n: nat)
    requires n <= |ss| && Conflict(ss[..n])
    ensures Conflict(ss)
  {
    var i, j :| 0 <= i < j < n && Clash(ss[..n][i].seen, ss[..n][j].seen);
    assert ss[..n][i] == ss[i] && ss[..n][j] == ss[j];
  }

  /** The identity check: when every matched name carries numbers in range,
      the walk fails exactly when a matched name disagrees with an earlier
      non-empty identity, it then fails with ErrMultiChars, and on success it
      has captured the first non-empty identity. */
  lemma {:induction false} WalkIdentity(ss: seq<Sighting>)
    requires NumbersFit(ss)
    ensures Walk(ss).Ok? <==> !Conflict(ss)
    ensures Walk(ss).Err? ==> Walk(ss).error == MultipleCharacters
    ensures Walk(ss).Ok? ==> Walk(ss).value.id == FirstId(ss)
    decreases |ss|
  {
    if ss != [] {
      var n := |ss| - 1;
      var init := ss[..n];
      assert forall i :: 0 <= i < n ==> ss[i] == init[i];
      assert NumbersFit(init);
      WalkIdentity(init);
      if Conflict(init) {
        ConflictPrefix(ss, n);
      } else {
        var first := FirstId(init);
        if ss[n].seen.Some? && first != "" && first != ss[n].seen.value.id {
          FirstIdWitness(init);
          var k :| 0 <= k < n && init[k].seen.Some? && init[k].seen.value.id == first;
          assert Clash(ss[k].seen, ss[n].seen);
        } else {
          assert !Conflict(ss) by {
            if Conflict(ss) {
              var i, j :| 0 <= i < j < |ss| && Clash(ss[i].seen, ss[j].seen);
              if j == n {
                if first == "" {
                  FirstIdEmpty(init, i);
                } else {
                  ClashAgrees(init, i);
                }
              }
            }
          }
        }
      }
    }
  }

  /** With no identity captured, no name read so far had one. */
  lemma {:induction false} FirstIdEmpty(ss: seq<Sighting>, i: nat)
    requires FirstId(ss) == "" && i < |ss| && ss[i].seen.Some?
    ensures ss[i].seen.value.id == ""
    decreases |ss|
  {
    var n := |ss| - 1;
    if i < n {
      assert ss[i] == ss[..n][i];
      FirstIdEmpty(ss[..n], i);
    }
  }

  /** Without a conflict, every non-empty identity read is the captured one. */
  lemma {:induction false} ClashAgrees(ss: seq<Sighting>, i: nat)
    requires !Conflict(ss) && i < |ss| && ss[i].seen.Some? && ss[i].seen.value.id != ""
    ensures ss[i].seen.value.id == FirstId(ss)
    decreases |ss|
  {
    var n := |ss| - 1;
    var init := ss[..n];
    assert !Conflict(init) by {
      if Conflict(init) {
        ConflictPrefix(ss, n);
      }
    }
    if i < n {
      assert ss[i] == init[i];
      ClashAgrees(init, i);
    } else if FirstId(init) != "" {
      FirstIdWitness(init);
      var k :| 0 <= k < n && init[k].seen.Some? && init[k].seen.value.id == FirstId(init);
      assert ss[k] == init[k];
      assert !Clash(ss[k].seen, ss[n].seen);
    }
  }

  /** A name with an empty identity does not capture one: an empty identity
      followed by a named one is accepted, the reverse order is ErrMultiChars. */
  lemma EmptyIdentityOrder()
    ensures var a, b := Entry("s/#.seen.0.0", false, false), Entry("s/#a.seen.1.1", false, false);
      Discover("s", [a, b]).Ok? && Discover("s", [b, a]) == Err(MultipleCharacters)
  {
    LookUnnamed();
    LookNamed();
    DiscoverOrder("s", Entry("s/#.seen.0.0", false, false), Entry("s/#a.seen.1.1", false, false));
  }

  lemma DiscoverOrder(root: string, a: Entry, b: Entry)
    requires Look(root, a).seen == Some(Named("", 0, 0)) && Look(root, b).seen == Some(Named("a", 1, 1))
    ensures Discover(root, [a, b]).Ok? && Discover(root, [b, a]) == Err(MultipleCharacters)
  {
    SightingsPair(root, a, b);
    SightingsPair(root, b, a);
    WalkOrder(Look(root, a), Look(root, b));
  }

  lemma SightingsPair(root: string, a: Entry, b: Entry)
    ensures Sightings(root, [a, b]) == [Look(root, a), Look(root, b)]
  {
  }

  lemma WalkOrder(sa: Sighting, sb: Sighting)
    requires sa.seen == Some(Named("", 0, 0)) && sb.seen == Some(Named("a", 1, 1))
    ensures Walk([sa, sb]).Ok? && |Walk([sa, sb]).value.maps| != 0 && Walk([sb, sa]) == Err(MultipleCharacters)
  {
    assert [sa, sb][..1] == [sa] && [sb, sa][..1] == [sb];
    assert [sa][..0] == [] && [sb][..0] == [];
    assert Walk([sa]) == Visit(START, sa);
    assert Walk([sb]) == Visit(START, sb);
    assert Walk([sa]).value.id == "";
    assert Walk([sb]).value.id == "a";
    assert Walk([sa, sb]) == Visit(Walk([sa]).value, sb);
    assert Walk([sb, sa]) == Visit(Walk([sb]).value, sa);
  }

  lemma LookUnnamed()
    ensures Look("s", Entry("s/#.seen.0.0", false, false)) == Sighting("s/#.seen.0.0", Some(Named("", 0, 0)))
  {
    var p := "s/#.seen.0.0";
    assert MatchAt(p, 2, SeenMatch("", "0", "0"));
    SeenAt(p, 2, SeenMatch("", "0", "0"));
    assert IntValue("0") == 0;
  }

  lemma LookNamed()
    ensures Look("s", Entry("s/#a.seen.1.1", false, false)) == Sighting("s/#a.seen.1.1", Some(Named("a", 1, 1)))
  {
    var p := "s/#a.seen.1.1";
    assert MatchAt(p, 2, SeenMatch("a", "1", "1"));
    SeenAt(p, 2, SeenMatch("a", "1", "1"));
    assert IntValue("1") == 1;
  }

  /** A match at the only '#' of a name is the one MatchSeen reports. */
  lemma SeenAt(p: string, j: nat, m: SeenMatch)
    requires MatchAt(p, j, m)
    requires forall i :: 0 <= i < j ==> p[i] != '#'
    ensures MatchSeen(p) == Some(m)
  {
    MatchSeenLeftmost(p, j, m);
    MatchSeenSound(p);
  }
}
