/** The parts of Go's fmt and strconv packages that overmapper.go relies on,
    at the level of characters: fmt.Fscanf with the formats "%d %d" and
    "N %d %d" on one line of text, and the decimal value of a digit string. */
module Scanning {
  import opened Wrappers
  import opened Geometry

  /** The range of Go's 64-bit int. */
  const INT_MIN: int := -0x8000_0000_0000_0000
  const INT_MAX: int := 0x7FFF_FFFF_FFFF_FFFF

  predicate InIntRange(v: int) { INT_MIN <= v <= INT_MAX }

  /** fmt's table of space characters: sorted, inclusive ranges. */
  const SPACE_TABLE: seq<(char, char)> := [
    ('\t', '\r'), (' ', ' '), ('\U{0085}', '\U{0085}'), ('\U{00A0}', '\U{00A0}'),
    ('\U{1680}', '\U{1680}'), ('\U{2000}', '\U{200A}'), ('\U{2028}', '\U{2029}'),
    ('\U{202F}', '\U{202F}'), ('\U{205F}', '\U{205F}'), ('\U{3000}', '\U{3000}')]

  /** fmt's isSpace: the ranges from index i on are tried in order, and the
      search stops at the first range that starts above c. */
  predicate InSpaceTable(c: char, i: nat)
    decreases |SPACE_TABLE| - i
  {
    if i >= |SPACE_TABLE| then false
    else if c < SPACE_TABLE[i].0 then false
    else if c <= SPACE_TABLE[i].1 then true
    else InSpaceTable(c, i + 1)
  }

  predicate IsSpace(c: char) { InSpaceTable(c, 0) }

  /** A space that a scan may skip within one line (fmt never skips a newline under Fscanf). */
  predicate IsBlank(c: char) { IsSpace(c) && c != '\n' }

  predicate IsDigit(c: char) { '0' <= c <= '9' }

  predicate AllDigits(s: string) { forall k :: 0 <= k < |s| ==> IsDigit(s[k]) }

  function DigitValue(c: char): nat
    requires IsDigit(c)
  {
    (c as int) - ('0' as int)
  }

  /** The decimal value of a string of digits, leading zeros allowed. */
  function DigitsValue(s: string): nat
    requires AllDigits(s)
    decreases |s|
  {
    if s == [] then 0 else DigitsValue(s[..|s| - 1]) * 10 + DigitValue(s[|s| - 1])
  }

  function DigitChar(d: nat): char
    requires d < 10
  {
    ('0' as int + d) as char
  }

  /** The shortest decimal text of n, as strconv.Itoa writes it. */
  function NatText(n: nat): (t: string)
    ensures |t| >= 1 && AllDigits(t)
    decreases n
  {
    if n < 10 then [DigitChar(n)] else NatText(n / 10) + [DigitChar(n % 10)]
  }

  function IntText(v: int): (t: string)
    ensures |t| >= 1 && (IsDigit(t[0]) || t[0] == '-')
  {
    if v < 0 then "-" + NatText(-v) else NatText(v)
  }

  lemma {:induction false} NatTextValue(n: nat)
    ensures DigitsValue(NatText(n)) == n
    decreases n
  {
    if n >= 10 {
      NatTextValue(n / 10);
      var t := NatText(n);
      assert t[..|t| - 1] == NatText(n / 10);
    }
  }

  /** The input with its leading blanks removed. */
  function SkipBlanks(s: string): (t: string)
    ensures |t| <= |s| && t == s[|s| - |t|..]
    ensures t == [] || !IsBlank(t[0])
    ensures AllBlanks(s[..|s| - |t|])
  {
    if s != [] && IsBlank(s[0]) then SkipBlanks(s[1..]) else s
  }

  /** The number of leading digits of s. */
  function DigitsEnd(s: string): (n: nat)
    ensures n <= |s| && AllDigits(s[..n])
    ensures n < |s| ==> !IsDigit(s[n])
  {
    if s != [] && IsDigit(s[0]) then
      var n := 1 + DigitsEnd(s[1..]);
      assert forall k :: 1 <= k < n ==> s[..n][k] == s[1..][..n - 1][k - 1];
      n
    else 0
  }

  /** The outcome of scanning one %d: a value and the input after its digits,
      io.EOF (input ended before a digit), or any other error. */
  datatype IntScan = Got(value: int, rest: string) | AtEnd | Malformed

  /** One %d verb of fmt.Fscanf on the unread input s: skip blanks, then read
      a number. */
  function ScanInt(s: string): (r: IntScan)
    ensures r.Got? ==> |r.rest| < |s| && InIntRange(r.value)
    ensures r.Got? ==> r.rest == [] || !IsDigit(r.rest[0])
  {
    if s != [] && IsBlank(s[0]) then ScanInt(s[1..]) else ScanNumber(s)
  }

  /** The number of a %d verb, blanks already skipped: a newline is an error,
      one optional sign is accepted, a digit must follow, all digits are
      taken, and a value outside Go's 64-bit int is an error. */
  function ScanNumber(s: string): (r: IntScan)
    ensures r.Got? ==> |r.rest| < |s| && InIntRange(r.value)
    ensures r.Got? ==> r.rest == [] || !IsDigit(r.rest[0])
  {
    if s == [] then AtEnd
    else if s[0] == '\n' then Malformed
    else
      var t := if s[0] == '+' || s[0] == '-' then s[1..] else s;
      if t == [] then AtEnd
      else if !IsDigit(t[0]) then Malformed
      else
        var n := DigitsEnd(t);
        var magnitude: int := DigitsValue(t[..n]);
        var v: int := if s[0] == '-' then -magnitude else magnitude;
        if InIntRange(v) then Got(v, t[n..]) else Malformed
  }

  /** A space in the format after a verb: the input must hold a blank or have
      ended; then all blanks are skipped. None is fmt's "expected space" error. */
  function FormatSpace(s: string): (r: Option<string>)
    ensures r.None? <==> s != [] && !IsBlank(s[0])
    ensures r.Some? ==> |r.value| <= |s| && r.value == s[|s| - |r.value|..]
    ensures r.Some? ==> AllBlanks(s[..|s| - |r.value|]) && (r.value == [] || !IsBlank(r.value[0]))
  {
    if s != [] && !IsBlank(s[0]) then None else Some(SkipBlanks(s))
  }

  /** The outcome of fmt.Fscanf with two %d verbs: both values and the input
      after them, or the count of values stored with whether the error was io.EOF. */
  datatype PairScan = Pair(a: int, b: int, rest: string) | Stopped(count: nat, atEnd: bool)

  /** fmt.Fscanf(reader, "%d %d", &a, &b) with s the reader's unread input. */
  function ScanPair(s: string): (r: PairScan)
    ensures r.Pair? ==> |r.rest| + 3 <= |s| && InIntRange(r.a) && InIntRange(r.b)
    ensures r.Stopped? ==> r.count < 2
  {
    match ScanInt(s)
    case AtEnd => Stopped(0, true)
    case Malformed => Stopped(0, false)
    case Got(a, t) =>
      match FormatSpace(t)
      case None => Stopped(1, false)
      case Some(u) =>
        match ScanInt(u)
        case AtEnd => Stopped(1, true)
        case Malformed => Stopped(1, false)
        case Got(b, w) => Pair(a, b, w)
  }

  /** fmt.Fscanf(reader, "N %d %d", &nx, &ny) on a whole line, successful when
      it stores both values: a literal N, a space, two integers. */
  function ScanNote(s: string): (r: Option<Point>)
    ensures r.Some? ==> |s| >= 5 && s[0] == 'N' && IsBlank(s[1])
  {
    if |s| == 0 || s[0] != 'N' then None
    else
      match FormatSpace(s[1..])
      case None => None
      case Some(t) =>
        match ScanPair(t)
        case Pair(x, y, _) => Some(Point(x, y))
        case Stopped(_, _) => None
  }

  /** The text of a pair as a writer puts it: two decimal integers and a space. */
  function PairText(a: int, b: int): string
  {
    IntText(a) + " " + IntText(b)
  }

  /** The text of a note position line. */
  function NoteText(x: int, y: int): string
  {
    "N " + PairText(x, y)
  }

  /** A string of blanks only. */
  predicate AllBlanks(s: string) { forall k :: 0 <= k < |s| ==> IsBlank(s[k]) }

  /** Blanks in front of t are skipped up to t when t does not start with one. */
  lemma {:induction false} SkipBlanksOver(bl: string, t: string)
    requires AllBlanks(bl) && (t == [] || !IsBlank(t[0]))
    ensures SkipBlanks(bl + t) == t
    decreases |bl|
  {
    if bl != [] {
      assert (bl + t)[1..] == bl[1..] + t;
      SkipBlanksOver(bl[1..], t);
    } else {
      assert bl + t == t;
    }
  }

  /** The leading digits of d + t are d when t does not start with a digit. */
  lemma {:induction false} DigitsEndOver(d: string, t: string)
    requires AllDigits(d) && (t == [] || !IsDigit(t[0]))
    ensures DigitsEnd(d + t) == |d|
    decreases |d|
  {
    if d != [] {
      assert (d + t)[1..] == d[1..] + t;
      DigitsEndOver(d[1..], t);
    } else {
      assert d + t == t;
    }
  }

  /** The decimal text of v, followed by the end or a non-digit, reads back as v. */
  lemma ScanNumberText(v: int, t: string)
    requires InIntRange(v) && (t == [] || !IsDigit(t[0]))
    ensures ScanNumber(IntText(v) + t) == Got(v, t)
  {
    if v < 0 {
      ScanNegativeText(-v, t);
    } else {
      ScanNaturalText(v, t);
    }
  }

  lemma ScanNaturalText(n: nat, t: string)
    requires InIntRange(n) && (t == [] || !IsDigit(t[0]))
    ensures ScanNumber(NatText(n) + t) == Got(n, t)
  {
    DigitsRead(NatText(n), t);
    NatTextValue(n);
  }

  lemma ScanNegativeText(m: nat, t: string)
    requires m > 0 && InIntRange(-(m as int)) && (t == [] || !IsDigit(t[0]))
    ensures ScanNumber(IntText(-(m as int)) + t) == Got(-(m as int), t)
  {
    DigitsRead(NatText(m), t);
    NegativeText(m, t);
    NatTextValue(m);
  }

  /** The digits of n followed by a non-digit: all of them are read, and their value is n. */
  lemma DigitsRead(d: string, t: string)
    requires d != [] && AllDigits(d) && (t == [] || !IsDigit(t[0]))
    ensures var s := d + t; DigitsEnd(s) == |d| && s[..|d|] == d && s[|d|..] == t
  {
    DigitsEndOver(d, t);
    assert (d + t)[..|d|] == d;
  }

  lemma NegativeText(m: nat, t: string)
    requires m > 0
    ensures IntText(-(m as int)) + t == "-" + (NatText(m) + t) && ("-" + (NatText(m) + t))[1..] == NatText(m) + t
  {
  }

  /** Scanning %d over blanks and the decimal text of v gives back v and leaves
      what follows the text, whatever non-digit that is. */
  lemma {:induction false} ScanIntText(bl: string, v: int, t: string)
    requires AllBlanks(bl) && InIntRange(v) && (t == [] || !IsDigit(t[0]))
    ensures ScanInt(bl + (IntText(v) + t)) == Got(v, t)
    decreases |bl|
  {
    if bl != [] {
      assert (bl + (IntText(v) + t))[1..] == bl[1..] + (IntText(v) + t);
      ScanIntText(bl[1..], v, t);
    } else {
      assert bl + (IntText(v) + t) == IntText(v) + t;
      TextStartNotBlank(v);
      ScanNumberText(v, t);
    }
  }

  /** %d on blanks alone meets the end of the input: io.EOF. */
  lemma {:induction false} ScanIntBlanks(bl: string)
    requires AllBlanks(bl)
    ensures ScanInt(bl) == AtEnd
    decreases |bl|
  {
    if bl != [] {
      ScanIntBlanks(bl[1..]);
    }
  }

  /** fmt.Fscanf "%d %d" reads back a pair written as text, after any blanks,
      when a blank or the end of the input follows it. */
  lemma ScanPairText(bl: string, a: int, b: int, t: string)
    requires AllBlanks(bl) && InIntRange(a) && InIntRange(b)
    requires t == [] || IsBlank(t[0])
    ensures ScanPair(bl + PairText(a, b) + t) == Pair(a, b, t)
  {
    var tb := IntText(b) + t;
    PairTextSplit(bl, a, b, t);
    ScanIntText(bl, a, " " + tb);
    SpaceBeforeText(b, t);
    ScanIntText([], b, t);
    assert [] + tb == tb;
    ScanPairSteps(bl + (IntText(a) + (" " + tb)), a, " " + tb, tb, b, t);
  }

  lemma PairTextSplit(bl: string, a: int, b: int, t: string)
    ensures bl + PairText(a, b) + t == bl + (IntText(a) + (" " + (IntText(b) + t)))
  {
    Regroup5(bl, IntText(a), " ", IntText(b), t);
  }

  lemma Regroup5<T>(a: seq<T>, b: seq<T>, c: seq<T>, d: seq<T>, e: seq<T>)
    ensures a + (b + c + d) + e == a + (b + (c + (d + e)))
  {
  }

  /** The format space after the first %d skips the one space before the second number. */
  lemma SpaceBeforeText(b: int, t: string)
    ensures FormatSpace(" " + (IntText(b) + t)) == Some(IntText(b) + t)
  {
    TextStartNotBlank(b);
    SkipBlanksOver(" ", IntText(b) + t);
    assert (" " + (IntText(b) + t))[0] == ' ';
  }

  /** The steps of "%d %d": a number, a format space, a number. */
  lemma ScanPairSteps(s: string, a: int, t: string, u: string, b: int, w: string)
    requires ScanInt(s) == Got(a, t) && FormatSpace(t) == Some(u) && ScanInt(u) == Got(b, w)
    ensures ScanPair(s) == Pair(a, b, w)
  {
  }

  lemma TextStartNotBlank(v: int)
    ensures !IsBlank(IntText(v)[0]) && IsBlank(' ') && !IsDigit(' ')
  {
  }

  /** A note position line written as "N x y" reads back as (x, y). */
  lemma NoteTextRoundTrip(x: int, y: int)
    requires InIntRange(x) && InIntRange(y)
    ensures ScanNote(NoteText(x, y)) == Some(Point(x, y))
  {
    var p := PairText(x, y);
    NoteTextSplit(x, y);
    TextStartNotBlank(x);
    NoteSpace(p);
    ScanPairText([], x, y, []);
  }

  lemma NoteTextSplit(x: int, y: int)
    ensures var s := NoteText(x, y); s != [] && s[0] == 'N' && s[1..] == " " + ([] + PairText(x, y) + [])
  {
  }

  /** The format space after N skips the one space before the pair. */
  lemma NoteSpace(p: string)
    requires p != [] && !IsBlank(p[0])
    ensures FormatSpace(" " + ([] + p + [])) == Some([] + p + [])
  {
    SkipBlanksOver(" ", [] + p + []);
  }
}
