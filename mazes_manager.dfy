/**
 * The server's mazes manager: reading a maze file into a game::maze
 * (load_maze) and listing the maze or save files of a directory
 * (list_directory). The file system is not modelled: a maze file is its text,
 * or None when it cannot be opened, and a directory is the list of its
 * entries.
 *
 * A maze file reads
 *
 *   version=<anything>
 *   size=<rows>x<cols>
 *   <one separator line>
 *   <rows lines of 2*cols-1 characters: cells at even columns, separators between>
 */
module MazesManager {
  import opened Wrappers
  import opened Text
  import opened Board
  import opened GameMaze

  // ---------------------------------------------------------------------------
  // std::getline followed by good()

  /** What one getline leaves: the line, the rest of the stream, and whether the stream is still good. */
  datatype LineRead = LineRead(line: string, rest: string, good: bool)

  /**
   * getline on the unread text. The stream stays good exactly when a newline
   * ended the line; at the end of the text without one, eof is set and the
   * partial line is lost to the caller (the loader returns NULL).
   */
  function GetLine(s: string): (r: LineRead)
    ensures |r.line| + |r.rest| <= |s|
  {
    if s == [] then LineRead("", "", false)
    else if s[0] == '\n' then LineRead("", s[1..], true)
    else
      var r := GetLine(s[1..]);
      LineRead([s[0]] + r.line, r.rest, r.good)
  }

  /** A good read splits the text at its first newline; a failed one had no newline to find. */
  lemma {:induction false} GetLineSplits(s: string)
    ensures var r := GetLine(s);
      (r.good ==> NoneOf(r.line, {'\n'}) && s == r.line + "\n" + r.rest) &&
      (!r.good ==> NoneOf(s, {'\n'}) && r.line == s && r.rest == "")
  {
    if s != [] && s[0] != '\n' {
      GetLineSplits(s[1..]);
      assert s == [s[0]] + s[1..];
    }
  }

  /** Reading a newline-terminated line gives that line back and leaves the rest. */
  lemma {:induction false} GetLineAppend(line: string, rest: string)
    requires NoneOf(line, {'\n'})
    ensures GetLine(line + "\n" + rest) == LineRead(line, rest, true)
  {
    if line != [] {
      assert (line + "\n" + rest)[1..] == line[1..] + "\n" + rest;
      GetLineAppend(line[1..], rest);
    }
  }

  // ---------------------------------------------------------------------------
  // boost::split with is_any_of

  /** The number of characters of `s` that are in `d`. */
  function CountIn(s: string, d: set<char>): nat {
    if s == [] then 0 else (if s[0] in d then 1 else 0) + CountIn(s[1..], d)
  }

  /**
   * boost::split(tokens, s, is_any_of(d)): the pieces between delimiters,
   * empty pieces included, so there is always one more token than delimiters.
   */
  function Split(s: string, d: set<char>): (r: seq<string>)
    ensures |r| == CountIn(s, d) + 1
  {
    if s == [] then [""]
    else
      var rest := Split(s[1..], d);
      if s[0] in d then [""] + rest else [[s[0]] + rest[0]] + rest[1..]
  }

  /** The tokens glued back together with one separator between neighbours. */
  function Join(tokens: seq<string>, sep: char): string
    requires |tokens| >= 1
  {
    if |tokens| == 1 then tokens[0] else tokens[0] + [sep] + Join(tokens[1..], sep)
  }

  /** Splitting on one separator and joining with it gives the text back. */
  lemma {:induction false} SplitJoin(s: string, sep: char)
    ensures Join(Split(s, {sep}), sep) == s
  {
    if s != [] {
      SplitJoin(s[1..], sep);
      var rest := Split(s[1..], {sep});
      if s[0] != sep && |rest| > 1 {
        assert Join(rest, sep) == rest[0] + [sep] + Join(rest[1..], sep);
      }
    }
  }

  /** A piece free of delimiters followed by a delimiter is split off as the first token. */
  lemma {:induction false} SplitCons(a: string, sep: char, b: string, d: set<char>)
    requires sep in d && NoneOf(a, d)
    ensures Split(a + [sep] + b, d) == [a] + Split(b, d)
  {
    if a == [] {
      assert a + [sep] + b == [sep] + b;
      assert ([sep] + b)[1..] == b;
    } else {
      assert (a + [sep] + b)[1..] == a[1..] + [sep] + b;
      SplitCons(a[1..], sep, b, d);
      assert [a[0]] + a[1..] == a;
    }
  }

  /** Text without delimiters is a single token. */
  lemma {:induction false} SplitNone(a: string, d: set<char>)
    requires NoneOf(a, d)
    ensures Split(a, d) == [a]
  {
    if a != [] {
      SplitNone(a[1..], d);
      assert [a[0]] + a[1..] == a;
    }
  }

  // ---------------------------------------------------------------------------
  // std::stoul(token, nullptr, 0)

  /**
   * The unsigned part of stoul with base 0: a "0x"/"0X" prefix selects base
   * 16, a leading "0" base 8, anything else base 10, and the longest run of
   * digits is read (the rest is ignored). No digits at all is None
   * (invalid_argument); "0x" without hex digits reads as 0.
   */
  function ParseMagnitude(u: string): (r: Option<nat>)
  {
    var hex := |u| >= 2 && u[0] == '0' && (u[1] == 'x' || u[1] == 'X');
    var base := if hex then 16 else if u != [] && u[0] == '0' then 8 else 10;
    var digits := if hex then u[2..] else u;
    var n := DigitRun(digits, base);
    if n == 0 then
      if hex then Some(0) else None
    else
      Some(DigitsValue(digits[..n], base))
  }

  /**
   * stoul(s, nullptr, 0): leading white space, an optional sign, then the
   * magnitude. A value of 2^64 or more throws out_of_range (None here); a
   * minus sign negates modulo 2^64.
   */
  function ParseUlong(s: string): (r: Option<nat>)
    ensures r.Some? ==> r.value < ULONG_LIMIT
  {
    var t := SkipSpace(s);
    var v := ParseMagnitude(Unsigned(t));
    if v.None? || v.value >= ULONG_LIMIT then None
    else if Negated(t) && v.value > 0 then Some(ULONG_LIMIT - v.value)
    else v
  }

  /** A decimal numeral without leading zeros: what std::to_string writes for a count. */
  predicate Numeral(s: string) {
    |s| >= 1 && AllDigits(s) && (|s| > 1 ==> s[0] != '0')
  }

  lemma ParseMagnitudeNumeral(s: string)
    requires Numeral(s)
    ensures ParseMagnitude(s) == Some(DecimalValue(s))
  {
    if s[0] == '0' {
      assert s == "0";
      assert DigitValue(s[0]) == 0;
      DigitRunAll(s, 8);
      assert s[..1] == s && s[..0] == [];
      assert DigitsValue(s, 8) == DigitsValue([], 8) * 8 + 0;
    } else {
      DigitRunAll(s, 10);
      assert s[..|s|] == s;
      DigitsValueDecimal(s);
    }
  }

  /** A numeral within range reads back, through stoul, as its value. */
  lemma ParseUlongNumeral(s: string)
    requires Numeral(s) && DecimalValue(s) < ULONG_LIMIT
    ensures ParseUlong(s) == Some(DecimalValue(s))
  {
    assert IsDigit(s[0]);
    assert SkipSpace(s) == s;
    assert Unsigned(s) == s && !Negated(s);
    ParseMagnitudeNumeral(s);
  }

  /** A count written in decimal, as a maze file states its size, reads back as that count. */
  lemma ParseUlongDecimal(n: nat)
    requires n < ULONG_LIMIT
    ensures ParseUlong(NatToDecimal(n)) == Some(n)
  {
    DecimalRoundTrip(n);
    ParseUlongNumeral(NatToDecimal(n));
  }


  // ---------------------------------------------------------------------------
  // The header and the grid lines

  /** What the three header lines give: the version, the size and the text after them. */
  datatype Header = Header(version: string, rows: nat, cols: nat, rest: string)

  /**
   * The first three lines: "version=<v>" (exactly one '='), "size=<r>x<c>"
   * (split on '=', 'x' and 'X' into exactly three tokens, the first "size",
   * both sizes within [minSize, maxSize]) and a separator line that is
   * skipped. Each line must end in a newline.
   */
  function ReadHeader(text: string, minSize: nat, maxSize: nat): (r: Option<Header>)
    ensures r.Some? ==> minSize <= r.value.rows <= maxSize && minSize <= r.value.cols <= maxSize
    ensures r.Some? ==> GetLine(text).good && Split(GetLine(text).line, {'='}) == ["version", r.value.version]
    ensures r.Some? ==> ReadSize(GetLine(text).rest, r.value.version, minSize, maxSize) == r
  {
    var l1 := GetLine(text);
    if !l1.good then None else
    var t1 := Split(l1.line, {'='});
    if |t1| != 2 || t1[0] != "version" then None else ReadSize(l1.rest, t1[1], minSize, maxSize)
  }

  /** The size line and the separator line that follows it, once the version is known. */
  function ReadSize(text: string, version: string, minSize: nat, maxSize: nat): (r: Option<Header>)
    ensures r.Some? ==> minSize <= r.value.rows <= maxSize && minSize <= r.value.cols <= maxSize
    ensures r.Some? ==>
      var l2 := GetLine(text);
      var t2 := Split(l2.line, {'=', 'x', 'X'});
      && r.value.version == version
      && l2.good && |t2| == 3 && t2[0] == "size"
      && ParseUlong(t2[1]) == Some(r.value.rows) && ParseUlong(t2[2]) == Some(r.value.cols)
      && GetLine(l2.rest).good && r.value.rest == GetLine(l2.rest).rest
  {
    var l2 := GetLine(text);
    if !l2.good then None else
    var t2 := Split(l2.line, {'=', 'x', 'X'});
    if |t2| != 3 || t2[0] != "size" then None else
    var rows := ParseUlong(t2[1]);
    var cols := ParseUlong(t2[2]);
    if rows.None? || cols.None? then None
    else if rows.value < minSize || rows.value > maxSize || cols.value < minSize || cols.value > maxSize then None
    else
      var l3 := GetLine(l2.rest);
      if !l3.good then None else Some(Header(version, rows.value, cols.value, l3.rest))
  }

  function VersionLine(version: string): string {
    "version" + ['='] + version
  }

  function SizeLine(rows: nat, cols: nat): string {
    "size" + ['='] + (NatToDecimal(rows) + ['x'] + NatToDecimal(cols))
  }

  /** The header as a maze file writes it. */
  function HeaderText(version: string, rows: nat, cols: nat, separator: string): string {
    VersionLine(version) + "\n" + SizeLine(rows, cols) + "\n" + separator + "\n"
  }

  /** No character of `a` is in `d`. */
  predicate NoneOf(a: string, d: set<char>) {
    forall i :: 0 <= i < |a| ==> a[i] !in d
  }

  lemma VersionTokens(version: string)
    requires NoneOf(version, {'='})
    ensures Split(VersionLine(version), {'='}) == ["version", version]
  {
    SplitCons("version", '=', version, {'='});
    SplitNone(version, {'='});
  }

  lemma SizeTokens(rows: nat, cols: nat)
    ensures Split(SizeLine(rows, cols), {'=', 'x', 'X'}) == ["size", NatToDecimal(rows), NatToDecimal(cols)]
  {
    var r, c := NatToDecimal(rows), NatToDecimal(cols);
    var d := {'=', 'x', 'X'};
    SplitCons("size", '=', r + ['x'] + c, d);
    SplitCons(r, 'x', c, d);
    SplitNone(c, d);
  }

  lemma SizeLineOneLine(rows: nat, cols: nat)
    ensures NoneOf(SizeLine(rows, cols), {'\n'})
  {
    var r, c := NatToDecimal(rows), NatToDecimal(cols);
  }

  lemma SizeRoundTrip(version: string, rows: nat, cols: nat, separator: string, rest: string, minSize: nat, maxSize: nat)
    requires NoneOf(separator, {'\n'})
    requires minSize <= rows <= maxSize && minSize <= cols <= maxSize && maxSize < ULONG_LIMIT
    ensures ReadSize(SizeLine(rows, cols) + "\n" + (separator + "\n" + rest), version, minSize, maxSize)
         == Some(Header(version, rows, cols, rest))
  {
    SizeLineOneLine(rows, cols);
    GetLineAppend(SizeLine(rows, cols), separator + "\n" + rest);
    GetLineAppend(separator, rest);
    SizeTokens(rows, cols);
    ParseUlongDecimal(rows);
    ParseUlongDecimal(cols);
  }

  /** A header written in the documented form is read back with its version and size. */
  lemma HeaderRoundTrip(version: string, rows: nat, cols: nat, separator: string, rest: string, minSize: nat, maxSize: nat)
    requires NoneOf(version, {'=', '\n'}) && NoneOf(separator, {'\n'})
    requires minSize <= rows <= maxSize && minSize <= cols <= maxSize && maxSize < ULONG_LIMIT
    ensures ReadHeader(HeaderText(version, rows, cols, separator) + rest, minSize, maxSize)
         == Some(Header(version, rows, cols, rest))
  {
    var line1 := VersionLine(version);
    var after1 := SizeLine(rows, cols) + "\n" + (separator + "\n" + rest);
    assert HeaderText(version, rows, cols, separator) + rest == line1 + "\n" + after1;
    assert NoneOf(line1, {'\n'});
    GetLineAppend(line1, after1);
    VersionTokens(version);
    SizeRoundTrip(version, rows, cols, separator, rest, minSize, maxSize);
  }

  /**
   * The grid lines: `rows` lines, each of exactly 2*cols-1 characters and
   * ended by a newline, gathered with their newlines into the scheme text.
   */
  function ReadRows(s: string, rows: nat, cols: nat): (r: Option<string>)
    requires cols >= 1
    ensures r.Some? ==> |r.value| == rows * cols * 2
    decreases rows
  {
    if rows == 0 then Some("")
    else
      var l := GetLine(s);
      if !l.good || |l.line| != cols * 2 - 1 then None
      else
        var more := ReadRows(l.rest, rows - 1, cols);
        if more.None? then None
        else
          assert (rows - 1) * cols * 2 + cols * 2 == rows * cols * 2;
          Some(l.line + "\n" + more.value)
  }

  /** The accepted grid lines are the text's own first characters. */
  lemma {:induction false} ReadRowsPrefix(s: string, rows: nat, cols: nat)
    requires cols >= 1 && ReadRows(s, rows, cols).Some?
    ensures var t := ReadRows(s, rows, cols).value; |t| <= |s| && t == s[..|t|]
    decreases rows
  {
    if rows > 0 {
      var l := GetLine(s);
      GetLineSplits(s);
      ReadRowsPrefix(l.rest, rows - 1, cols);
      var more := ReadRows(l.rest, rows - 1, cols).value;
      assert ReadRows(s, rows, cols).value == (l.line + "\n") + more;
      assert s == (l.line + "\n") + l.rest;
    }
  }

  /** Where line k of lines w characters wide starts: k lines before it. */
  function LineStart(k: nat, w: nat): nat {
    if k == 0 then 0 else LineStart(k - 1, w) + w
  }

  /** Line k of `t` has w-1 characters without a newline, then a newline. */
  predicate LineAt(t: string, w: nat, k: nat) {
    var at := LineStart(k, w);
    && 1 <= w && at + w <= |t|
    && NoneOf(t[at..at + w - 1], {'\n'})
    && t[at + w - 1] == '\n'
  }

  /** A line in front of the text moves every line of the text down by one. */
  lemma LineAtConcat(line: string, more: string, w: nat, k: nat)
    requires |line| + 1 == w && NoneOf(line, {'\n'})
    requires k > 0 ==> LineAt(more, w, k - 1)
    ensures LineAt(line + "\n" + more, w, k)
  {
    var t := line + "\n" + more;
    if k == 0 {
      assert t[..w - 1] == line;
    } else {
      var at := LineStart(k - 1, w);
      assert t[at + w..at + w + w - 1] == more[at..at + w - 1];
    }
  }

  /**
   * Line k of the accepted grid lines: 2*cols-1 characters without a newline,
   * then the newline that ended it.
   */
  lemma {:induction false} ReadRowsLines(s: string, rows: nat, cols: nat, k: nat)
    requires cols >= 1 && ReadRows(s, rows, cols).Some? && k < rows
    ensures LineAt(ReadRows(s, rows, cols).value, cols * 2, k)
    decreases rows
  {
    var l := GetLine(s);
    GetLineSplits(s);
    var more := ReadRows(l.rest, rows - 1, cols).value;
    assert ReadRows(s, rows, cols).value == l.line + "\n" + more;
    if k > 0 {
      ReadRowsLines(l.rest, rows - 1, cols, k - 1);
    }
    LineAtConcat(l.line, more, cols * 2, k);
  }

  /** `p` in front of an optional text. */
  function Prefixed(p: string, o: Option<string>): Option<string> {
    if o.None? then None else Some(p + o.value)
  }

  /** The grid-line loop: reads the lines one getline at a time, stopping at the first bad one. */
  method ReadScheme(body: string, rows: nat, cols: nat) returns (scheme: Option<string>)
    requires cols >= 1
    ensures scheme == ReadRows(body, rows, cols)
  {
    var acc := "";
    var rest := body;
    var i := 0;
    assert ReadRows(body, rows, cols) == Prefixed(acc, ReadRows(rest, rows, cols)) by {
      if ReadRows(body, rows, cols).Some? {
        assert acc + ReadRows(body, rows, cols).value == ReadRows(body, rows, cols).value;
      }
    }
    while i < rows
      invariant 0 <= i <= rows
      invariant ReadRows(body, rows, cols) == Prefixed(acc, ReadRows(rest, rows - i, cols))
    {
      var l := GetLine(rest);
      if !l.good || |l.line| != cols * 2 - 1 {
        return None;
      }
      var more := ReadRows(l.rest, rows - i - 1, cols);
      assert ReadRows(rest, rows - i, cols) == Prefixed(l.line + "\n", more);
      if more.Some? {
        assert acc + (l.line + "\n" + more.value) == (acc + l.line + "\n") + more.value;
      }
      acc := acc + l.line + "\n";
      rest := l.rest;
      i := i + 1;
    }
    assert acc + "" == acc;
    scheme := Some(acc);
  }

  // ---------------------------------------------------------------------------
  // The cell loop

  /** The character at position p of the text; NUL past its end. */
  function CharAt(s: string, p: int): char {
    if 0 <= p < |s| then s[p] else 0 as char
  }

  /** Where the character of cell (i, j) sits in the scheme text. */
  function Pos(i: int, j: int, cols: int): int {
    2 * (i * cols + j)
  }

  lemma PosBounds(i: int, j: int, rows: int, cols: int)
    requires 0 <= i < rows && 0 <= j < cols
    ensures 0 <= Pos(i, j, cols) && Pos(i, j, cols) + 2 <= rows * cols * 2
  {
    assert i * cols + cols == (i + 1) * cols;
    assert (i + 1) * cols <= rows * cols;
  }

  lemma PosRowEnd(i: int, cols: int)
    ensures Pos(i, cols, cols) == Pos(i + 1, 0, cols)
  {
    assert i * cols + cols == (i + 1) * cols;
  }

  /** The state the cell loop builds up: the maze's lists and grid, and the scheme text being blanked. */
  datatype Scan = Scan(
    grid: seq<seq<Block>>,
    gates: seq<Coord>,
    keys: seq<Coord>,
    guardians: seq<Coord>,
    starts: seq<Coord>,
    text: string)

  /** The characters a maze file may hold in a cell. */
  predicate KnownCell(ch: char) {
    ch in {' ', 'X', '~', '*', 'G', '1', '2', '3', '4', '@'}
  }

  /** The block a cell character denotes; start positions and guardians stand on empty cells. */
  function CellBlock(ch: char): Block {
    match ch
    case 'X' => Wall
    case '~' => GateClosed
    case '*' => Key
    case 'G' => Target
    case _ => Empty
  }

  /** Start positions and guardians, which are blanked out of the scheme. */
  predicate IsMarker(ch: char) {
    ch in {'1', '2', '3', '4', '@'}
  }

  /** One turn of the switch on the character at `pos`, for cell (i, j); None where an unknown character makes the loader give up. */
  function Visit(st: Scan, i: nat, j: nat, pos: nat): (r: Option<Scan>)
    requires i < |st.grid| && j < |st.grid[i]| && pos < |st.text| && |st.starts| == 4
    ensures r.Some? <==> KnownCell(st.text[pos])
    ensures r.Some? ==> |r.value.grid| == |st.grid| && |r.value.text| == |st.text| && |r.value.starts| == 4
    ensures r.Some? ==> forall k :: 0 <= k < |st.grid| ==> |r.value.grid[k]| == |st.grid[k]|
  {
    var c := Coord(i, j);
    match st.text[pos]
    case ' ' => Some(st.(grid := SetAt(st.grid, c, Empty)))
    case 'X' => Some(st.(grid := SetAt(st.grid, c, Wall)))
    case '~' => Some(st.(grid := SetAt(st.grid, c, GateClosed), gates := st.gates + [c]))
    case '*' => Some(st.(grid := SetAt(st.grid, c, Key), keys := st.keys + [c]))
    case 'G' => Some(st.(grid := SetAt(st.grid, c, Target)))
    case '1' => Some(st.(starts := st.starts[0 := c], text := st.text[pos := ' ']))
    case '2' => Some(st.(starts := st.starts[1 := c], text := st.text[pos := ' ']))
    case '3' => Some(st.(starts := st.starts[2 := c], text := st.text[pos := ' ']))
    case '4' => Some(st.(starts := st.starts[3 := c], text := st.text[pos := ' ']))
    case '@' => Some(st.(guardians := st.guardians + [c], text := st.text[pos := ' ']))
    case _ => None
  }

  /** Where the row-major cell loop may stand: inside a row, or just past the last row. */
  predicate ScanPoint(rows: nat, cols: nat, i: nat, j: nat) {
    (i < rows && j <= cols) || (i == rows && j == 0)
  }

  /** Cell (r, c) comes before (i, j) in row-major order. */
  predicate Before(r: int, c: int, i: int, j: int) {
    r < i || (r == i && c < j)
  }

  /** The state after the loop has visited every cell before (i, j); None once it has given up. */
  function Scanned(s: string, rows: nat, cols: nat, i: nat, j: nat): (r: Option<Scan>)
    requires |s| == rows * cols * 2 && ScanPoint(rows, cols, i, j)
    ensures r.Some? ==> Shaped(r.value.grid, rows, cols) && |r.value.text| == |s| && |r.value.starts| == 4
    decreases i, j
  {
    if j > 0 then
      var prev := Scanned(s, rows, cols, i, j - 1);
      if prev.None? then None
      else
        PosBounds(i, j - 1, rows, cols);
        Visit(prev.value, i, j - 1, Pos(i, j - 1, cols))
    else if i > 0 then Scanned(s, rows, cols, i - 1, cols)
    else Some(Scan(seq(rows, _ => seq(cols, _ => Empty)), [], [], [], seq(GAME_MAX_PLAYERS, _ => Coord(0, 0)), s))
  }

  /** The scheme text with the markers before `limit` replaced by blanks. */
  function BlankedAt(s: string, p: nat, limit: int): char
    requires p < |s|
  {
    if p < limit && p % 2 == 0 && IsMarker(s[p]) then ' ' else s[p]
  }

  /** `t` is the text `s` with the markers before `limit` blanked. */
  predicate Blanked(s: string, t: string, limit: int) {
    |t| == |s| && forall p :: 0 <= p < |s| ==> t[p] == BlankedAt(s, p, limit)
  }

  /** A visit blanks the visited character when it is a marker and leaves the rest of the text alone. */
  lemma VisitText(st: Scan, i: nat, j: nat, pos: nat)
    requires i < |st.grid| && j < |st.grid[i]| && pos < |st.text| && |st.starts| == 4
    requires Visit(st, i, j, pos).Some?
    ensures var t := Visit(st, i, j, pos).value.text;
      && t[pos] == (if IsMarker(st.text[pos]) then ' ' else st.text[pos])
      && forall p :: 0 <= p < |t| && p != pos ==> t[p] == st.text[p]
  {
  }

  /**
   * A visit keeps the key list exact when the visited cell holds no key yet
   * and every listed key comes before it: it lists the cell exactly when it
   * puts a key there, so the list stays in row-major order.
   */
  lemma VisitKeys(st: Scan, rows: nat, cols: nat, i: nat, j: nat, pos: nat)
    requires i < rows && j < cols && pos < |st.text| && |st.starts| == 4
    requires KeysListed(st.grid, rows, cols, st.keys)
    requires forall k :: 0 <= k < |st.keys| ==> Before(st.keys[k].row, st.keys[k].col, i, j)
    requires RowMajor(st.keys)
    requires !HoldsKey(st.grid[i][j])
    requires Visit(st, i, j, pos).Some?
    ensures var r := Visit(st, i, j, pos).value;
      && KeysListed(r.grid, rows, cols, r.keys)
      && RowMajor(r.keys)
      && forall k :: 0 <= k < |r.keys| ==> Before(r.keys[k].row, r.keys[k].col, i, j + 1)
  {
    var r := Visit(st, i, j, pos).value;
    assert Coord(i, j) !in st.keys;
    if st.text[pos] == '*' {
      assert r.keys == st.keys + [Coord(i, j)];
      AppendRowMajor(st.keys, Coord(i, j));
    }
  }

  /** A cell after every listed one extends a row-major list. */
  lemma AppendRowMajor(cs: seq<Coord>, c: Coord)
    requires RowMajor(cs)
    requires forall k :: 0 <= k < |cs| ==> Before(cs[k].row, cs[k].col, c.row, c.col)
    ensures RowMajor(cs + [c])
  {
    var cs' := cs + [c];
    forall k, l | 0 <= k < l < |cs'|
      ensures Before(cs'[k].row, cs'[k].col, cs'[l].row, cs'[l].col)
    {
      if l < |cs| {
        assert cs'[k] == cs[k] && cs'[l] == cs[l];
      } else {
        assert cs'[k] == cs[k] && cs'[l] == c;
      }
    }
  }

  /** Visiting the cell at an even position moves the blanking limit past it. */
  lemma VisitBlanks(s: string, st: Scan, i: nat, j: nat, at: nat)
    requires i < |st.grid| && j < |st.grid[i]| && at < |st.text| && |st.starts| == 4
    requires |st.text| == |s| && at % 2 == 0
    requires Blanked(s, st.text, at)
    requires Visit(st, i, j, at).Some?
    ensures Blanked(s, Visit(st, i, j, at).value.text, at + 2)
  {
    VisitText(st, i, j, at);
    var t := Visit(st, i, j, at).value.text;
    forall p | 0 <= p < |s|
      ensures t[p] == BlankedAt(s, p, at + 2)
    {
      if p != at {
        assert t[p] == st.text[p] == BlankedAt(s, p, at);
      }
    }
  }

  /** A visit puts the block its character denotes in the visited cell, which was still EMPTY, and no other. */
  lemma VisitGrid(st: Scan, i: nat, j: nat, pos: nat)
    requires i < |st.grid| && j < |st.grid[i]| && pos < |st.text| && |st.starts| == 4
    requires st.grid[i][j] == Empty && Visit(st, i, j, pos).Some?
    ensures var g := Visit(st, i, j, pos).value.grid;
      forall r, c :: 0 <= r < |st.grid| && 0 <= c < |st.grid[r]| ==>
        g[r][c] == if r == i && c == j then CellBlock(st.text[pos]) else st.grid[r][c]
  {
  }

  /** The visit of the cell before (i, j) moves the blanking limit to (i, j). */
  lemma ScannedTextStep(s: string, rows: nat, cols: nat, i: nat, j: nat)
    requires |s| == rows * cols * 2 && ScanPoint(rows, cols, i, j) && j > 0
    requires Scanned(s, rows, cols, i, j).Some? && Scanned(s, rows, cols, i, j - 1).Some?
    requires Blanked(s, Scanned(s, rows, cols, i, j - 1).value.text, Pos(i, j - 1, cols))
    ensures Blanked(s, Scanned(s, rows, cols, i, j).value.text, Pos(i, j, cols))
  {
    var at := Pos(i, j - 1, cols);
    var prev := Scanned(s, rows, cols, i, j - 1).value;
    PosBounds(i, j - 1, rows, cols);
    assert Scanned(s, rows, cols, i, j) == Visit(prev, i, j - 1, at);
    VisitBlanks(s, prev, i, j - 1, at);
    assert Pos(i, j, cols) == at + 2;
  }

  /** The loop blanks exactly the start and guardian markers it has passed, and touches nothing else. */
  lemma {:induction false} ScannedText(s: string, rows: nat, cols: nat, i: nat, j: nat)
    requires |s| == rows * cols * 2 && ScanPoint(rows, cols, i, j)
    requires Scanned(s, rows, cols, i, j).Some?
    ensures Blanked(s, Scanned(s, rows, cols, i, j).value.text, Pos(i, j, cols))
  {
    if j > 0 {
      assert Scanned(s, rows, cols, i, j - 1).Some?;
      ScannedText(s, rows, cols, i, j - 1);
      ScannedTextStep(s, rows, cols, i, j);
    } else if i > 0 {
      assert Scanned(s, rows, cols, i, 0) == Scanned(s, rows, cols, i - 1, cols);
      ScannedText(s, rows, cols, i - 1, cols);
      PosRowEnd(i - 1, cols);
    }
  }

  /** A cell character read by the loop is the file's own character there. */
  lemma ScannedReads(s: string, rows: nat, cols: nat, i: nat, j: nat)
    requires |s| == rows * cols * 2 && i < rows && j < cols
    requires Scanned(s, rows, cols, i, j).Some?
    ensures 0 <= Pos(i, j, cols) < |s|
    ensures Scanned(s, rows, cols, i, j).value.text[Pos(i, j, cols)] == s[Pos(i, j, cols)]
  {
    PosBounds(i, j, rows, cols);
    ScannedText(s, rows, cols, i, j);
  }

  /** The loop gets past (i, j) exactly when every cell before it holds a known character. */
  lemma {:induction false} ScannedSome(s: string, rows: nat, cols: nat, i: nat, j: nat)
    requires |s| == rows * cols * 2 && ScanPoint(rows, cols, i, j)
    ensures Scanned(s, rows, cols, i, j).Some? <==>
      forall r, c :: 0 <= r < rows && 0 <= c < cols && Before(r, c, i, j) ==> KnownCell(CharAt(s, Pos(r, c, cols)))
  {
    if j > 0 {
      var at := Pos(i, j - 1, cols);
      var prev := Scanned(s, rows, cols, i, j - 1);
      PosBounds(i, j - 1, rows, cols);
      ScannedSome(s, rows, cols, i, j - 1);
      if prev.Some? {
        ScannedReads(s, rows, cols, i, j - 1);
        assert Scanned(s, rows, cols, i, j) == Visit(prev.value, i, j - 1, at);
        assert CharAt(s, at) == s[at];
      } else {
        assert Scanned(s, rows, cols, i, j).None?;
      }
    } else if i > 0 {
      assert Scanned(s, rows, cols, i, 0) == Scanned(s, rows, cols, i - 1, cols);
      ScannedSome(s, rows, cols, i - 1, cols);
    }
  }

  /** Each visited cell holds the block its character denotes; the cells ahead are still EMPTY. */
  lemma {:induction false} ScannedGrid(s: string, rows: nat, cols: nat, i: nat, j: nat)
    requires |s| == rows * cols * 2 && ScanPoint(rows, cols, i, j)
    requires Scanned(s, rows, cols, i, j).Some?
    ensures var g := Scanned(s, rows, cols, i, j).value.grid;
      forall r, c :: 0 <= r < rows && 0 <= c < cols ==>
        g[r][c] == if Before(r, c, i, j) then CellBlock(CharAt(s, Pos(r, c, cols))) else Empty
  {
    if j > 0 {
      var at := Pos(i, j - 1, cols);
      var prev := Scanned(s, rows, cols, i, j - 1).value;
      PosBounds(i, j - 1, rows, cols);
      assert Scanned(s, rows, cols, i, j) == Visit(prev, i, j - 1, at);
      ScannedGrid(s, rows, cols, i, j - 1);
      ScannedReads(s, rows, cols, i, j - 1);
      VisitGrid(prev, i, j - 1, at);
    } else if i > 0 {
      assert Scanned(s, rows, cols, i, 0) == Scanned(s, rows, cols, i - 1, cols);
      ScannedGrid(s, rows, cols, i - 1, cols);
    }
  }

  /** The key list the loop builds lists every key cell visited so far, once each, in row-major order. */
  lemma {:induction false} ScannedKeys(s: string, rows: nat, cols: nat, i: nat, j: nat)
    requires |s| == rows * cols * 2 && ScanPoint(rows, cols, i, j)
    requires Scanned(s, rows, cols, i, j).Some?
    ensures var st := Scanned(s, rows, cols, i, j).value;
      && KeysListed(st.grid, rows, cols, st.keys)
      && RowMajor(st.keys)
      && forall k :: 0 <= k < |st.keys| ==> Before(st.keys[k].row, st.keys[k].col, i, j)
  {
    if j > 0 {
      var at := Pos(i, j - 1, cols);
      var prev := Scanned(s, rows, cols, i, j - 1).value;
      PosBounds(i, j - 1, rows, cols);
      assert prev.grid[i][j - 1] == Empty by {
        ScannedGrid(s, rows, cols, i, j - 1);
      }
      ScannedKeys(s, rows, cols, i, j - 1);
      assert Scanned(s, rows, cols, i, j) == Visit(prev, i, j - 1, at);
      VisitKeys(prev, rows, cols, i, j - 1, at);
    } else if i > 0 {
      assert Scanned(s, rows, cols, i, 0) == Scanned(s, rows, cols, i - 1, cols);
      ScannedKeys(s, rows, cols, i - 1, cols);
    }
  }

  // ---------------------------------------------------------------------------
  // The gate, key and guardian lists and the start coordinates, in terms of the file

  /** The coordinates are in strictly increasing row-major order (so each appears once). */
  ghost predicate RowMajor(cs: seq<Coord>) {
    forall k, l :: 0 <= k < l < |cs| ==> Before(cs[k].row, cs[k].col, cs[l].row, cs[l].col)
  }

  /** Cell (r, c) of the grid comes before (i, j) and holds `ch` in the file's scheme `s`. */
  ghost predicate MarkedBefore(s: string, rows: nat, cols: nat, ch: char, r: int, c: int, i: nat, j: nat) {
    0 <= r < rows && 0 <= c < cols && Before(r, c, i, j) && CharAt(s, Pos(r, c, cols)) == ch
  }

  /** `cs` lists exactly the cells before (i, j) that hold `ch`, in row-major order. */
  ghost predicate CellsOf(cs: seq<Coord>, s: string, rows: nat, cols: nat, ch: char, i: nat, j: nat) {
    && RowMajor(cs)
    && (forall k :: 0 <= k < |cs| ==> MarkedBefore(s, rows, cols, ch, cs[k].row, cs[k].col, i, j))
    && (forall r, c :: MarkedBefore(s, rows, cols, ch, r, c, i, j) ==> Coord(r, c) in cs)
  }

  /**
   * `c` is where the start of the player marked `ch` stands once the loop has
   * reached (i, j): the last cell before (i, j) holding `ch`, or (0, 0) when
   * no cell does.
   */
  ghost predicate StartOf(c: Coord, s: string, rows: nat, cols: nat, ch: char, i: nat, j: nat) {
    if exists r, cc :: MarkedBefore(s, rows, cols, ch, r, cc, i, j) then
      && MarkedBefore(s, rows, cols, ch, c.row, c.col, i, j)
      && forall r, cc :: MarkedBefore(s, rows, cols, ch, r, cc, i, j) ==> !Before(c.row, c.col, r, cc)
    else c == Coord(0, 0)
  }

  /** The character that marks the start of player slot k. */
  function StartMark(k: nat): char
    requires k < GAME_MAX_PLAYERS
  {
    "1234"[k]
  }

  /** Everything the loop has listed by (i, j), described by the file alone. */
  ghost predicate ListsFound(st: Scan, s: string, rows: nat, cols: nat, i: nat, j: nat) {
    && CellsOf(st.gates, s, rows, cols, '~', i, j)
    && CellsOf(st.keys, s, rows, cols, '*', i, j)
    && CellsOf(st.guardians, s, rows, cols, '@', i, j)
    && |st.starts| == GAME_MAX_PLAYERS
    && forall k :: 0 <= k < GAME_MAX_PLAYERS ==> StartOf(st.starts[k], s, rows, cols, StartMark(k), i, j)
  }

  /** Visiting cell (i, j) extends a list exactly when the cell holds its character. */
  lemma CellsOfStep(cs: seq<Coord>, s: string, rows: nat, cols: nat, ch: char, i: nat, j: nat)
    requires i < rows && j < cols && CellsOf(cs, s, rows, cols, ch, i, j)
    ensures CellsOf(if CharAt(s, Pos(i, j, cols)) == ch then cs + [Coord(i, j)] else cs, s, rows, cols, ch, i, j + 1)
  {
    var cs' := if CharAt(s, Pos(i, j, cols)) == ch then cs + [Coord(i, j)] else cs;
    forall r, c | MarkedBefore(s, rows, cols, ch, r, c, i, j + 1)
      ensures Coord(r, c) in cs'
    {
      if Before(r, c, i, j) {
        assert MarkedBefore(s, rows, cols, ch, r, c, i, j);
      }
    }
  }

  /** Two points of the loop that have passed the same marked cells describe the same lists. */
  lemma SamePassed(cs: seq<Coord>, c: Coord, s: string, rows: nat, cols: nat, ch: char, i: nat, j: nat, i': nat, j': nat)
    requires forall r, cc :: MarkedBefore(s, rows, cols, ch, r, cc, i, j) == MarkedBefore(s, rows, cols, ch, r, cc, i', j')
    ensures CellsOf(cs, s, rows, cols, ch, i, j) ==> CellsOf(cs, s, rows, cols, ch, i', j')
    ensures StartOf(c, s, rows, cols, ch, i, j) ==> StartOf(c, s, rows, cols, ch, i', j')
  {
  }

  /** Visiting cell (i, j) moves a start to it exactly when the cell holds the start's mark. */
  lemma StartOfStep(c: Coord, s: string, rows: nat, cols: nat, ch: char, i: nat, j: nat)
    requires i < rows && j < cols && StartOf(c, s, rows, cols, ch, i, j)
    ensures StartOf(if CharAt(s, Pos(i, j, cols)) == ch then Coord(i, j) else c, s, rows, cols, ch, i, j + 1)
  {
    if CharAt(s, Pos(i, j, cols)) != ch {
      forall r, cc
        ensures MarkedBefore(s, rows, cols, ch, r, cc, i, j) == MarkedBefore(s, rows, cols, ch, r, cc, i, j + 1)
      {
      }
      SamePassed([], c, s, rows, cols, ch, i, j, i, j + 1);
    } else {
      assert MarkedBefore(s, rows, cols, ch, i, j, i, j + 1);
    }
  }

  /** The end of a row and the start of the next are the same point of the loop. */
  lemma PassedRowEnd(cs: seq<Coord>, c: Coord, s: string, rows: nat, cols: nat, ch: char, i: nat)
    ensures CellsOf(cs, s, rows, cols, ch, i, cols) ==> CellsOf(cs, s, rows, cols, ch, i + 1, 0)
    ensures StartOf(c, s, rows, cols, ch, i, cols) ==> StartOf(c, s, rows, cols, ch, i + 1, 0)
  {
    forall r, cc
      ensures MarkedBefore(s, rows, cols, ch, r, cc, i, cols) == MarkedBefore(s, rows, cols, ch, r, cc, i + 1, 0)
    {
    }
    SamePassed(cs, c, s, rows, cols, ch, i, cols, i + 1, 0);
  }

  lemma ListsFoundRowEnd(st: Scan, s: string, rows: nat, cols: nat, i: nat)
    requires ListsFound(st, s, rows, cols, i, cols)
    ensures ListsFound(st, s, rows, cols, i + 1, 0)
  {
    PassedRowEnd(st.gates, Coord(0, 0), s, rows, cols, '~', i);
    PassedRowEnd(st.keys, Coord(0, 0), s, rows, cols, '*', i);
    PassedRowEnd(st.guardians, Coord(0, 0), s, rows, cols, '@', i);
    forall k | 0 <= k < GAME_MAX_PLAYERS
      ensures StartOf(st.starts[k], s, rows, cols, StartMark(k), i + 1, 0)
    {
      PassedRowEnd([], st.starts[k], s, rows, cols, StartMark(k), i);
    }
  }

  /** One visit, as far as the lists and starts go. */
  lemma VisitLists(st: Scan, i: nat, j: nat, pos: nat)
    requires i < |st.grid| && j < |st.grid[i]| && pos < |st.text| && |st.starts| == 4
    requires Visit(st, i, j, pos).Some?
    ensures var r := Visit(st, i, j, pos).value; var ch := st.text[pos];
      && r.gates == (if ch == '~' then st.gates + [Coord(i, j)] else st.gates)
      && r.keys == (if ch == '*' then st.keys + [Coord(i, j)] else st.keys)
      && r.guardians == (if ch == '@' then st.guardians + [Coord(i, j)] else st.guardians)
      && forall k :: 0 <= k < GAME_MAX_PLAYERS ==>
           r.starts[k] == if ch == StartMark(k) then Coord(i, j) else st.starts[k]
  {
  }

  /** The step of ScannedLists: the visit of the cell before (i, j). */
  lemma ScannedListsStep(s: string, rows: nat, cols: nat, i: nat, j: nat)
    requires |s| == rows * cols * 2 && ScanPoint(rows, cols, i, j) && j > 0
    requires Scanned(s, rows, cols, i, j).Some? && Scanned(s, rows, cols, i, j - 1).Some?
    requires ListsFound(Scanned(s, rows, cols, i, j - 1).value, s, rows, cols, i, j - 1)
    ensures ListsFound(Scanned(s, rows, cols, i, j).value, s, rows, cols, i, j)
  {
    var at := Pos(i, j - 1, cols);
    var prev := Scanned(s, rows, cols, i, j - 1).value;
    PosBounds(i, j - 1, rows, cols);
    ScannedReads(s, rows, cols, i, j - 1);
    assert Scanned(s, rows, cols, i, j) == Visit(prev, i, j - 1, at);
    assert CharAt(s, at) == prev.text[at];
    VisitLists(prev, i, j - 1, at);
    CellsOfStep(prev.gates, s, rows, cols, '~', i, j - 1);
    CellsOfStep(prev.keys, s, rows, cols, '*', i, j - 1);
    CellsOfStep(prev.guardians, s, rows, cols, '@', i, j - 1);
    forall k | 0 <= k < GAME_MAX_PLAYERS
      ensures StartOf(Scanned(s, rows, cols, i, j).value.starts[k], s, rows, cols, StartMark(k), i, j)
    {
      StartOfStep(prev.starts[k], s, rows, cols, StartMark(k), i, j - 1);
    }
  }

  /**
   * The loop lists the closed gates, keys and guardians it has passed, each
   * once and in row-major order, and leaves each start at the last cell
   * marked with its number (or at (0, 0)).
   */
  lemma {:induction false} ScannedLists(s: string, rows: nat, cols: nat, i: nat, j: nat)
    requires |s| == rows * cols * 2 && ScanPoint(rows, cols, i, j)
    requires Scanned(s, rows, cols, i, j).Some?
    ensures ListsFound(Scanned(s, rows, cols, i, j).value, s, rows, cols, i, j)
    decreases i, j
  {
    if j > 0 {
      assert Scanned(s, rows, cols, i, j - 1).Some?;
      ScannedLists(s, rows, cols, i, j - 1);
      ScannedListsStep(s, rows, cols, i, j);
    } else if i > 0 {
      assert Scanned(s, rows, cols, i, 0) == Scanned(s, rows, cols, i - 1, cols);
      ScannedLists(s, rows, cols, i - 1, cols);
      ListsFoundRowEnd(Scanned(s, rows, cols, i - 1, cols).value, s, rows, cols, i - 1);
    } else {
      var st := Scanned(s, rows, cols, 0, 0).value;
      forall k | 0 <= k < GAME_MAX_PLAYERS
        ensures StartOf(st.starts[k], s, rows, cols, StartMark(k), 0, 0)
      {
        assert !exists r, cc :: MarkedBefore(s, rows, cols, StartMark(k), r, cc, 0, 0);
      }
    }
  }

  /** The switch of the cell loop on one cell: sets its block, records it, or blanks a marker in the text. */
  method VisitCell(st: Scan, i: nat, j: nat, pos: nat) returns (r: Option<Scan>)
    requires i < |st.grid| && j < |st.grid[i]| && pos < |st.text| && |st.starts| == 4
    ensures r == Visit(st, i, j, pos)
  {
    var grid, gates, keys, guardians, starts, input := st.grid, st.gates, st.keys, st.guardians, st.starts, st.text;
    var c := Coord(i, j);
    match input[pos] {
      case ' ' =>
        grid := SetAt(grid, c, Empty);
      case 'X' =>
        grid := SetAt(grid, c, Wall);
      case '~' =>
        grid := SetAt(grid, c, GateClosed);
        gates := gates + [c];
      case '*' =>
        grid := SetAt(grid, c, Key);
        keys := keys + [c];
      case 'G' =>
        grid := SetAt(grid, c, Target);
      case '1' =>
        starts := starts[0 := c];
        input := input[pos := ' '];
      case '2' =>
        starts := starts[1 := c];
        input := input[pos := ' '];
      case '3' =>
        starts := starts[2 := c];
        input := input[pos := ' '];
      case '4' =>
        starts := starts[3 := c];
        input := input[pos := ' '];
      case '@' =>
        guardians := guardians + [c];
        input := input[pos := ' '];
      case _ =>
        return None;
    }
    r := Some(Scan(grid, gates, keys, guardians, starts, input));
  }

  /** The cell loop of load_maze: every cell in row-major order, giving up at the first unknown character. */
  method ScanCells(s: string, rows: nat, cols: nat) returns (r: Option<Scan>)
    requires |s| == rows * cols * 2
    ensures r == Scanned(s, rows, cols, rows, 0)
  {
    var st := Scan(seq(rows, _ => seq(cols, _ => Empty)), [], [], [], seq(GAME_MAX_PLAYERS, _ => Coord(0, 0)), s);
    var i := 0;
    while i < rows
      invariant 0 <= i <= rows
      invariant Scanned(s, rows, cols, i, 0) == Some(st)
    {
      var j := 0;
      while j < cols
        invariant 0 <= j <= cols
        invariant Scanned(s, rows, cols, i, j) == Some(st)
      {
        PosBounds(i, j, rows, cols);
        var pos := i * cols * 2 + j * 2;
        assert pos == Pos(i, j, cols);
        assert Scanned(s, rows, cols, i, j + 1) == Visit(st, i, j, pos);
        var next := VisitCell(st, i, j, pos);
        if next.None? {
          ScannedSome(s, rows, cols, i, j + 1);
          ScannedSome(s, rows, cols, rows, 0);
          return None;
        }
        st := next.value;
        j := j + 1;
      }
      assert Scanned(s, rows, cols, i + 1, 0) == Scanned(s, rows, cols, i, cols);
      i := i + 1;
    }
    r := Some(st);
  }

  // ---------------------------------------------------------------------------
  // load_maze

  /** A maze file as far as the text goes: header values and the grid lines. */
  datatype MazeText = MazeText(version: string, rows: nat, cols: nat, scheme: string)

  /** The file read up to the cell loop; None where load_maze returns NULL before it. */
  function ReadMazeFile(file: Option<string>, minSize: nat, maxSize: nat): (r: Option<MazeText>)
    requires minSize >= 1
    ensures r.Some? ==> minSize <= r.value.rows <= maxSize && minSize <= r.value.cols <= maxSize
    ensures r.Some? ==> |r.value.scheme| == r.value.rows * r.value.cols * 2
  {
    if file.None? then None
    else
      var h := ReadHeader(file.value, minSize, maxSize);
      if h.None? then None
      else
        var body := ReadRows(h.value.rest, h.value.rows, h.value.cols);
        if body.None? then None else Some(MazeText(h.value.version, h.value.rows, h.value.cols, body.value))
  }

  /** The whole file is accepted: it reads, and every cell holds a known character. */
  predicate Loads(file: Option<string>, minSize: nat, maxSize: nat)
    requires minSize >= 1
  {
    var t := ReadMazeFile(file, minSize, maxSize);
    t.Some? && Scanned(t.value.scheme, t.value.rows, t.value.cols, t.value.rows, 0).Some?
  }

  /** A loaded scheme ends in a blank where the text ends in the last line's newline. */
  function ShownScheme(text: string): string
    requires |text| >= 1
  {
    text[..|text| - 1] + " "
  }

  /** What the cell loop made of an accepted file. */
  function LoadedScan(file: Option<string>, minSize: nat, maxSize: nat): Scan
    requires minSize >= 1 && Loads(file, minSize, maxSize)
  {
    var t := ReadMazeFile(file, minSize, maxSize).value;
    Scanned(t.scheme, t.rows, t.cols, t.rows, 0).value
  }

  /**
   * load_maze. The size limits must fit the signed char the maze stores its
   * size in. Returns null for a file that cannot be opened or read, or that
   * breaks the format; otherwise a fresh, not yet running maze whose grid,
   * gates, keys, guardians and start coordinates are those the cell loop found,
   * and whose key list satisfies the maze invariant. Those lists hold exactly
   * the file's closed gates, keys and guardians in row-major order, and each
   * start is the last cell marked with its player's number, else (0, 0).
   */
  method LoadMaze(file: Option<string>, minSize: nat, maxSize: nat) returns (m: Maze?)
    requires 1 <= minSize && maxSize <= 127
    ensures m == null <==> !Loads(file, minSize, maxSize)
    ensures m != null ==> fresh(m) && m.Valid() && !m.gameRun && !m.gameFinished
    ensures m != null ==>
      var t := ReadMazeFile(file, minSize, maxSize).value;
      var st := LoadedScan(file, minSize, maxSize);
      && m.rows == t.rows && m.cols == t.cols && m.version == t.version
      && m.grid == st.grid && m.gates == st.gates && m.keys == st.keys
      && m.guardians == st.guardians && m.startCoords == st.starts
      && |st.text| >= 1 && m.scheme == ShownScheme(st.text)
    ensures m != null ==>
      var t := ReadMazeFile(file, minSize, maxSize).value;
      ListsFound(LoadedScan(file, minSize, maxSize), t.scheme, t.rows, t.cols, t.rows, 0)
  {
    if file.None? {
      return null;
    }
    var h := ReadHeader(file.value, minSize, maxSize);
    if h.None? {
      return null;
    }
    var rows, cols := h.value.rows, h.value.cols;
    var scheme := ReadScheme(h.value.rest, rows, cols);
    if scheme.None? {
      return null;
    }
    var input := scheme.value;
    ghost var t := MazeText(h.value.version, rows, cols, input);
    assert ReadMazeFile(file, minSize, maxSize) == Some(t);
    m := new Maze(rows, cols, input);
    var r := ScanCells(input, rows, cols);
    if r.None? {
      return null;
    }
    var st := r.value;
    assert st == LoadedScan(file, minSize, maxSize);
    ScannedKeys(input, rows, cols, rows, 0);
    PosBounds(0, 0, rows, cols);
    Install(m, st, h.value.version);
    LoadedLists(file, minSize, maxSize);
  }

  /** Hands the cell loop's findings to the new maze, with its version and the shown scheme. */
  method Install(m: Maze, st: Scan, version: string)
    requires KeysListed(st.grid, m.rows, m.cols, st.keys) && |st.text| >= 1
    modifies m`grid, m`gates, m`keys, m`guardians, m`startCoords, m`version, m`scheme
    ensures m.Valid()
    ensures m.grid == st.grid && m.gates == st.gates && m.keys == st.keys
    ensures m.guardians == st.guardians && m.startCoords == st.starts
    ensures m.version == version && m.scheme == ShownScheme(st.text)
  {
    m.grid, m.gates, m.keys := st.grid, st.gates, st.keys;
    m.guardians, m.startCoords := st.guardians, st.starts;
    m.version := version;
    m.scheme := ShownScheme(st.text);
  }

  /** A loaded maze's grid holds exactly the blocks its file's cell characters denote. */
  lemma LoadedGrid(file: Option<string>, minSize: nat, maxSize: nat)
    requires 1 <= minSize && Loads(file, minSize, maxSize)
    ensures var t := ReadMazeFile(file, minSize, maxSize).value;
      var g := Scanned(t.scheme, t.rows, t.cols, t.rows, 0).value.grid;
      forall r, c :: 0 <= r < t.rows && 0 <= c < t.cols ==>
        g[r][c] == CellBlock(CharAt(t.scheme, Pos(r, c, t.cols)))
  {
    var t := ReadMazeFile(file, minSize, maxSize).value;
    ScannedGrid(t.scheme, t.rows, t.cols, t.rows, 0);
  }

  /**
   * A loaded maze lists exactly its file's closed gates, keys and guardians,
   * each once and in row-major order, and starts each player at the last cell
   * marked with the player's number, or at (0, 0) when no cell is.
   */
  lemma LoadedLists(file: Option<string>, minSize: nat, maxSize: nat)
    requires 1 <= minSize && Loads(file, minSize, maxSize)
    ensures var t := ReadMazeFile(file, minSize, maxSize).value;
      ListsFound(LoadedScan(file, minSize, maxSize), t.scheme, t.rows, t.cols, t.rows, 0)
  {
    var t := ReadMazeFile(file, minSize, maxSize).value;
    ScannedLists(t.scheme, t.rows, t.cols, t.rows, 0);
  }

  /** A file loads exactly when its text reads and every cell character is known. */
  lemma LoadsIff(file: Option<string>, minSize: nat, maxSize: nat)
    requires 1 <= minSize
    ensures Loads(file, minSize, maxSize) <==>
      var t := ReadMazeFile(file, minSize, maxSize);
      t.Some? && forall r, c :: 0 <= r < t.value.rows && 0 <= c < t.value.cols ==>
        KnownCell(CharAt(t.value.scheme, Pos(r, c, t.value.cols)))
  {
    var t := ReadMazeFile(file, minSize, maxSize);
    if t.Some? {
      ScannedSome(t.value.scheme, t.value.rows, t.value.cols, t.value.rows, 0);
    }
  }

  /** The shown scheme has every marker blanked and the final newline replaced by a blank. */
  lemma LoadedSchemeText(file: Option<string>, minSize: nat, maxSize: nat)
    requires 1 <= minSize && Loads(file, minSize, maxSize)
    ensures var t := ReadMazeFile(file, minSize, maxSize).value;
      var shown := ShownScheme(Scanned(t.scheme, t.rows, t.cols, t.rows, 0).value.text);
      |shown| == |t.scheme| && shown[|shown| - 1] == ' ' &&
      forall p :: 0 <= p < |shown| - 1 ==> shown[p] == if p % 2 == 0 && IsMarker(t.scheme[p]) then ' ' else t.scheme[p]
  {
    var t := ReadMazeFile(file, minSize, maxSize).value;
    ScannedText(t.scheme, t.rows, t.cols, t.rows, 0);
    assert Pos(t.rows, 0, t.cols) == |t.scheme|;
  }

  // ---------------------------------------------------------------------------
  // list_directory

  /** A directory entry: its file name and whether it is a regular file. */
  datatype DirEntry = DirEntry(name: string, regular: bool)

  predicate EndsWith(s: string, suffix: string) {
    |suffix| <= |s| && s[|s| - |suffix|..] == suffix
  }

  /** std::string::find(t, pos): the first position at or after `pos` where `t` occurs. */
  function FindFrom(s: string, t: string, pos: nat): (r: Option<nat>)
    ensures r.Some? ==> pos <= r.value && r.value + |t| <= |s| && s[r.value..r.value + |t|] == t
    decreases |s| - pos
  {
    if pos + |t| > |s| then None
    else if s[pos..pos + |t|] == t then Some(pos)
    else FindFrom(s, t, pos + 1)
  }

  /** Searching from the last position the extension fits at is a suffix test. */
  lemma FindAtEnd(s: string, t: string)
    requires |t| <= |s|
    ensures FindFrom(s, t, |s| - |t|).Some? <==> EndsWith(s, t)
  {
  }

  /** The names list_directory keeps, in directory order: regular files ending in the extension. */
  function Selected(entries: seq<DirEntry>, ext: string): (r: seq<string>)
    ensures |r| <= |entries|
    ensures forall n :: n in r ==> EndsWith(n, ext)
    ensures forall n :: n in r ==> exists k :: 0 <= k < |entries| && entries[k].regular && entries[k].name == n
    ensures forall k :: 0 <= k < |entries| && entries[k].regular && EndsWith(entries[k].name, ext) ==> entries[k].name in r
  {
    if entries == [] then []
    else
      var e := entries[|entries| - 1];
      Selected(entries[..|entries| - 1], ext) + (if e.regular && EndsWith(e.name, ext) then [e.name] else [])
  }

  /** std::string operator<=: lexicographic by character code, a prefix first. */
  predicate LexLeq(a: string, b: string) {
    a == [] || (b != [] && (a[0] < b[0] || (a[0] == b[0] && LexLeq(a[1..], b[1..]))))
  }

  lemma {:induction false} LexLeqTotal(a: string, b: string)
    ensures LexLeq(a, b) || LexLeq(b, a)
  {
    if a != [] && b != [] && a[0] == b[0] {
      LexLeqTotal(a[1..], b[1..]);
    }
  }

  lemma {:induction false} LexLeqTrans(a: string, b: string, c: string)
    requires LexLeq(a, b) && LexLeq(b, c)
    ensures LexLeq(a, c)
  {
    if a != [] && a[0] == b[0] && b[0] == c[0] {
      LexLeqTrans(a[1..], b[1..], c[1..]);
    }
  }

  predicate Sorted(xs: seq<string>) {
    forall i, j :: 0 <= i < j < |xs| ==> LexLeq(xs[i], xs[j])
  }

  /** Put `x` before the first element it does not exceed. */
  function Insert(x: string, xs: seq<string>): (r: seq<string>)
    ensures multiset(r) == multiset(xs) + multiset{x}
  {
    if xs == [] || LexLeq(x, xs[0]) then [x] + xs
    else
      assert xs == [xs[0]] + xs[1..];
      [xs[0]] + Insert(x, xs[1..])
  }

  lemma {:induction false} InsertSorted(x: string, xs: seq<string>)
    requires Sorted(xs)
    ensures Sorted(Insert(x, xs))
    ensures xs != [] ==> Insert(x, xs)[0] == x || Insert(x, xs)[0] == xs[0]
  {
    if xs == [] || LexLeq(x, xs[0]) {
      var r := [x] + xs;
      forall i, j | 0 <= i < j < |r|
        ensures LexLeq(r[i], r[j])
      {
        if i == 0 && j > 1 {
          LexLeqTrans(x, xs[0], xs[j - 1]);
        }
      }
    } else {
      InsertSorted(x, xs[1..]);
      LexLeqTotal(x, xs[0]);
      var t := Insert(x, xs[1..]);
      var r := [xs[0]] + t;
      assert multiset(t) == multiset(xs[1..]) + multiset{x};
      forall i, j | 0 <= i < j < |r|
        ensures LexLeq(r[i], r[j])
      {
        if i == 0 {
          assert r[j] in multiset(t);
          assert r[j] == x || r[j] in xs[1..];
        }
      }
    }
  }

  /** std::list::sort on the kept names. */
  function SortNames(xs: seq<string>): (r: seq<string>)
    ensures multiset(r) == multiset(xs)
  {
    if xs == [] then []
    else
      assert xs == [xs[0]] + xs[1..];
      Insert(xs[0], SortNames(xs[1..]))
  }

  lemma {:induction false} SortNamesSorted(xs: seq<string>)
    ensures Sorted(SortNames(xs))
  {
    if xs != [] {
      SortNamesSorted(xs[1..]);
      InsertSorted(xs[0], SortNames(xs[1..]));
    }
  }

  /**
   * list_directory: the regular files of the directory whose name ends with
   * the extension (all of them for an empty extension), sorted.
   */
  method ListDirectory(entries: seq<DirEntry>, ext: string) returns (files: seq<string>)
    ensures Sorted(files)
    ensures multiset(files) == multiset(Selected(entries, ext))
  {
    var kept: seq<string> := [];
    for k := 0 to |entries|
      invariant kept == Selected(entries[..k], ext)
    {
      assert entries[..k + 1][..k] == entries[..k];
      var e := entries[k];
      if e.regular {
        if |e.name| < |ext| {
          continue;
        }
        FindAtEnd(e.name, ext);
        if |ext| == 0 || FindFrom(e.name, ext, |e.name| - |ext|).Some? {
          kept := kept + [e.name];
        }
      }
    }
    assert entries[..|entries|] == entries;
    files := SortNames(kept);
    SortNamesSorted(kept);
  }
}
