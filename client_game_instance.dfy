/**
 * The client's view of a running game (client::game_instance): the maze scheme
 * received when joining, and the output string redrawn from every update by
 * stamping gates, keys, players and guardians onto a copy of the scheme.
 */
module ClientGameInstance {
  import opened Board
  import opened Text

  /** static_cast<signed char>: the value reduced into [-128, 128) modulo 256. */
  function SignedChar(v: int): (r: int)
    ensures -128 <= r < 128
    ensures (v - r) % 256 == 0
    ensures -128 <= v < 128 ==> r == v
  {
    (v + 128) % 256 - 128
  }

  /** The coordinate lists of one update that the overlay reads. */
  datatype ViewUpdate = ViewUpdate(openedGates: seq<Coord>, keys: seq<Coord>, players: seq<Coord>, guardians: seq<Coord>)

  /** Index of cell (row, col) in the scheme: two characters per cell, a row is cols*2 long. */
  function Pos(c: Coord, cols: int): int {
    c.row * cols * 2 + c.col * 2
  }

  /** Every coordinate lands inside a string of length `n`. */
  predicate Fits(cs: seq<Coord>, cols: int, n: int) {
    forall k :: 0 <= k < |cs| ==> 0 <= Pos(cs[k], cols) < n
  }

  /** Every player coordinate lands before the end of the string (negative ones are skipped). */
  predicate PlayersFit(cs: seq<Coord>, cols: int, n: int) {
    forall k :: 0 <= k < |cs| ==> Pos(cs[k], cols) < n
  }

  /** The overlay writes only inside the scheme. */
  predicate Drawable(u: ViewUpdate, cols: int, n: int) {
    && Fits(u.openedGates, cols, n)
    && Fits(u.keys, cols, n)
    && PlayersFit(u.players, cols, n)
    && Fits(u.guardians, cols, n)
  }

  /** The last entry of `cs` that lands on index `p`, or -1 when none does. */
  function LastHit(cs: seq<Coord>, cols: int, p: int): (k: int)
    ensures -1 <= k < |cs|
    ensures k >= 0 ==> Pos(cs[k], cols) == p
    ensures forall j :: k < j < |cs| ==> Pos(cs[j], cols) != p
  {
    if cs == [] then -1
    else if Pos(cs[|cs| - 1], cols) == p then |cs| - 1
    else LastHit(cs[..|cs| - 1], cols, p)
  }

  /** Writes `ch` at the index of every coordinate, in list order. */
  function Stamped(s: string, cs: seq<Coord>, cols: int, ch: char): (r: string)
    requires Fits(cs, cols, |s|)
    ensures |r| == |s|
  {
    if cs == [] then s
    else Stamped(s, cs[..|cs| - 1], cols, ch)[Pos(cs[|cs| - 1], cols) := ch]
  }

  /** The character '0' + n, truncated to a byte as the char conversion does. */
  function PlayerMark(n: nat): char {
    (('0' as int + n) % 256) as char
  }

  /**
   * Writes the digit of the k-th player (1-based) at its index; an entry with a
   * negative index is skipped but still takes its number.
   */
  function PlayersStamped(s: string, cs: seq<Coord>, cols: int): (r: string)
    requires PlayersFit(cs, cols, |s|)
    ensures |r| == |s|
  {
    if cs == [] then s
    else
      var prev := PlayersStamped(s, cs[..|cs| - 1], cols);
      var p := Pos(cs[|cs| - 1], cols);
      if p < 0 then prev else prev[p := PlayerMark(|cs|)]
  }

  /** The output string: the scheme with gates, keys, players and guardians stamped in that order. */
  function Overlay(scheme: string, u: ViewUpdate, cols: int): (r: string)
    requires Drawable(u, cols, |scheme|)
    ensures |r| == |scheme|
  {
    var gates := Stamped(scheme, u.openedGates, cols, ' ');
    var keys := Stamped(gates, u.keys, cols, '*');
    var players := PlayersStamped(keys, u.players, cols);
    Stamped(players, u.guardians, cols, '@')
  }

  /** A stamped index holds `ch` exactly when some coordinate lands on it; others keep the original. */
  lemma {:induction false} StampedAt(s: string, cs: seq<Coord>, cols: int, ch: char, p: int)
    requires Fits(cs, cols, |s|) && 0 <= p < |s|
    ensures Stamped(s, cs, cols, ch)[p] == if LastHit(cs, cols, p) >= 0 then ch else s[p]
  {
    if cs != [] && Pos(cs[|cs| - 1], cols) != p {
      StampedAt(s, cs[..|cs| - 1], cols, ch, p);
    }
  }

  /** An index holds the number of the last player landing on it, counting skipped entries too. */
  lemma {:induction false} PlayersAt(s: string, cs: seq<Coord>, cols: int, p: int)
    requires PlayersFit(cs, cols, |s|) && 0 <= p < |s|
    ensures PlayersStamped(s, cs, cols)[p] == if LastHit(cs, cols, p) >= 0 then PlayerMark(LastHit(cs, cols, p) + 1) else s[p]
  {
    if cs != [] && Pos(cs[|cs| - 1], cols) != p {
      PlayersAt(s, cs[..|cs| - 1], cols, p);
    }
  }

  /**
   * Layer order of the overlay: a guardian wins over a player, a player over a
   * key, a key over an opened gate, and an untouched index keeps the scheme.
   */
  lemma OverlayAt(scheme: string, u: ViewUpdate, cols: int, p: int)
    requires Drawable(u, cols, |scheme|) && 0 <= p < |scheme|
    ensures Overlay(scheme, u, cols)[p] ==
      if LastHit(u.guardians, cols, p) >= 0 then '@'
      else if LastHit(u.players, cols, p) >= 0 then PlayerMark(LastHit(u.players, cols, p) + 1)
      else if LastHit(u.keys, cols, p) >= 0 then '*'
      else if LastHit(u.openedGates, cols, p) >= 0 then ' '
      else scheme[p]
  {
    var gates := Stamped(scheme, u.openedGates, cols, ' ');
    var keys := Stamped(gates, u.keys, cols, '*');
    var players := PlayersStamped(keys, u.players, cols);
    StampedAt(scheme, u.openedGates, cols, ' ', p);
    StampedAt(gates, u.keys, cols, '*', p);
    PlayersAt(keys, u.players, cols, p);
    StampedAt(players, u.guardians, cols, '@', p);
  }

  /**
   * A first player entry with a negative index draws nothing, yet the second
   * entry is still drawn as '2' where nothing later covers it.
   */
  lemma SkippedPlayerKeepsNumbering(scheme: string, u: ViewUpdate, cols: int, p: int)
    requires Drawable(u, cols, |scheme|) && |u.players| == 2 && 0 <= p < |scheme|
    requires Pos(u.players[0], cols) < 0 && Pos(u.players[1], cols) == p
    requires LastHit(u.guardians, cols, p) < 0
    ensures Overlay(scheme, u, cols)[p] == '2'
  {
    OverlayAt(scheme, u, cols, p);
  }

  class GameInstance {
    const mazeScheme: string
    const mazeRows: int
    const mazeCols: int
    /** The last update received from the server (written by the connection). */
    var updateIn: ViewUpdate
    var outputString: string

    /**
     * The row and column counts arrive as decimal strings; their std::stoi
     * values are given here and narrowed to signed char.
     */
    constructor (scheme: string, rowsValue: int, colsValue: int)
      ensures mazeScheme == scheme && outputString == scheme
      ensures mazeRows == SignedChar(rowsValue) && mazeCols == SignedChar(colsValue)
      ensures updateIn == ViewUpdate([], [], [], [])
    {
      mazeScheme := scheme;
      mazeRows := SignedChar(rowsValue);
      mazeCols := SignedChar(colsValue);
      outputString := scheme;
      updateIn := ViewUpdate([], [], [], []);
    }

    /** Redraws the output string from the scheme and the last update. */
    method UpdateOutputString()
      requires Drawable(updateIn, mazeCols, |mazeScheme|)
      modifies this
      ensures updateIn == old(updateIn)
      ensures outputString == Overlay(mazeScheme, updateIn, mazeCols)
    {
      var u := updateIn;
      var out := mazeScheme;
      for i := 0 to |u.openedGates|
        invariant out == Stamped(mazeScheme, u.openedGates[..i], mazeCols, ' ')
      {
        assert u.openedGates[..i + 1][..i] == u.openedGates[..i];
        out := out[Pos(u.openedGates[i], mazeCols) := ' '];
      }
      assert u.openedGates[..|u.openedGates|] == u.openedGates;
      ghost var gates := out;
      for i := 0 to |u.keys|
        invariant out == Stamped(gates, u.keys[..i], mazeCols, '*')
      {
        assert u.keys[..i + 1][..i] == u.keys[..i];
        out := out[Pos(u.keys[i], mazeCols) := '*'];
      }
      assert u.keys[..|u.keys|] == u.keys;
      ghost var keys := out;
      var playerNum: nat := 0;
      for i := 0 to |u.players|
        invariant playerNum == i
        invariant out == PlayersStamped(keys, u.players[..i], mazeCols)
      {
        assert u.players[..i + 1][..i] == u.players[..i];
        var linearPos := Pos(u.players[i], mazeCols);
        playerNum := playerNum + 1;
        if linearPos < 0 {
          continue;
        }
        out := out[linearPos := PlayerMark(playerNum)];
      }
      assert u.players[..|u.players|] == u.players;
      ghost var players := out;
      for i := 0 to |u.guardians|
        invariant out == Stamped(players, u.guardians[..i], mazeCols, '@')
      {
        assert u.guardians[..i + 1][..i] == u.guardians[..i];
        out := out[Pos(u.guardians[i], mazeCols) := '@'];
      }
      assert u.guardians[..|u.guardians|] == u.guardians;
      outputString := out;
    }

    /** get_rows: the row count in decimal. */
    function GetRows(): (s: string)
      ensures |s| >= 1
      ensures mazeRows >= 0 ==> AllDigits(s) && DecimalValue(s) == mazeRows
      ensures mazeRows < 0 ==> s[0] == '-' && AllDigits(s[1..]) && DecimalValue(s[1..]) == -mazeRows
    {
      DecimalRoundTrip(if mazeRows < 0 then -mazeRows else mazeRows);
      IntToDecimal(mazeRows)
    }

    /** get_cols: the width of a row in characters (two per cell), in decimal. */
    function GetCols(): (s: string)
      ensures |s| >= 1
      ensures mazeCols >= 0 ==> AllDigits(s) && DecimalValue(s) == mazeCols * 2
      ensures mazeCols < 0 ==> s[0] == '-' && AllDigits(s[1..]) && DecimalValue(s[1..]) == -mazeCols * 2
    {
      DecimalRoundTrip(if mazeCols < 0 then -mazeCols * 2 else mazeCols * 2);
      IntToDecimal(mazeCols * 2)
    }
  }
}
