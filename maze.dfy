/**
 * The server's maze (game::maze): a rows x cols grid of cells, the lists of gate
 * and key coordinates, start coordinates per slot, guardians, and the run flags.
 * Players mutate the grid and the key list in place (see GamePlayer).
 */
module GameMaze {
  import opened Board

  /** Capacity of a game (GAME_MAX_PLAYERS). */
  const GAME_MAX_PLAYERS: nat := 4

  class Maze {
    const rows: int
    const cols: int
    var gameOwner: string
    var gameSpeed: int
    var gameRun: bool
    var gameFinished: bool
    var scheme: string
    var version: string
    var startCoords: seq<Coord>
    var guardians: seq<Coord>
    var gates: seq<Coord>
    var keys: seq<Coord>
    var grid: seq<seq<Block>>
    var playersAlive: int

    /** The grid has the maze's dimensions and `keys` lists exactly its key cells. */
    ghost predicate Valid()
      reads this
    {
      KeysListed(grid, rows, cols, keys)
    }

    /** A fresh maze: all cells EMPTY, no gates or keys, speed 1000 ms, neither running nor finished. */
    constructor (rowNum: int, colNum: int, mazeScheme: string)
      requires rowNum >= 0 && colNum >= 0
      ensures rows == rowNum && cols == colNum && scheme == mazeScheme
      ensures Shaped(grid, rows, cols)
      ensures forall r, k :: 0 <= r < rows && 0 <= k < cols ==> grid[r][k] == Empty
      ensures gates == [] && keys == [] && guardians == []
      ensures gameSpeed == 1000 && !gameRun && !gameFinished && gameOwner == ""
      ensures startCoords == seq(GAME_MAX_PLAYERS, _ => Coord(0, 0))
      ensures Valid()
    {
      rows, cols := rowNum, colNum;
      scheme := mazeScheme;
      version := "";
      grid := seq(rowNum, _ => seq(colNum, _ => Empty));
      gates, keys, guardians := [], [], [];
      gameSpeed, gameRun, gameFinished := 1000, false, false;
      gameOwner := "";
      startCoords := seq(GAME_MAX_PLAYERS, _ => Coord(0, 0));
    }

    /**
     * is_move_possible: STOP is always legal, any other non-direction is not,
     * and a direction is legal exactly when the cell it leads to is neither a
     * wall nor a closed gate. Coordinates are taken by value: nothing changes.
     */
    function IsMovePossible(c: Coord, m: Command): (r: bool)
      reads this
      requires Shaped(grid, rows, cols) && StepInGrid(c, m, rows, cols)
      ensures m == Stop ==> r
      ensures !IsDirection(m) && m != Stop ==> !r
      ensures IsDirection(m) ==> (r <==> !Blocking(At(grid, Step(c, m, rows, cols))))
    {
      match m
      case Stop => true
      case Left | Right | Up | Down =>
        var b := At(grid, Step(c, m, rows, cols));
        !(b == Wall || b == GateClosed)
      case _ => false
    }
  }

  /** A cell holding a key, a target or an open gate never blocks a move onto it. */
  lemma MoveOntoOpenCells(m: Maze, c: Coord, d: Command)
    requires Shaped(m.grid, m.rows, m.cols) && IsDirection(d) && StepInGrid(c, d, m.rows, m.cols)
    requires At(m.grid, Step(c, d, m.rows, m.cols)) in {Empty, Key, Target, GateOpen, GateDroppedKey}
    ensures m.IsMovePossible(c, d)
  {
  }
}
