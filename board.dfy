/**
 * Shared vocabulary of the game engine: cell kinds, coordinates, player commands,
 * and the one-step neighbour of a cell computed with C++'s truncating `%`.
 */
module Board {

  /** Cell kinds of basic_block, with GATE_DROPPED_KEY that the server code adds. */
  datatype Block = Empty | Player | PlayerOnGate | Wall | Target | GateClosed | GateOpen | Key | GateDroppedKey

  /** A (row, column) pair, signed as the source's pair<signed char, signed char>. */
  datatype Coord = Coord(row: int, col: int)

  /**
   * Player commands and moves. The server code uses one set of names for both
   * E_user_command and E_move, including STOP and NONE (NoCommand here).
   */
  datatype Command = Left | Right | Up | Down | Stop | TakeOpen | StartContinue | Pause | NoCommand

  datatype MoveResult = Possible | NotPossible

  predicate IsDirection(m: Command) {
    m.Left? || m.Right? || m.Up? || m.Down?
  }

  /** A cell that holds a key lying in the world. */
  predicate HoldsKey(b: Block) {
    b == Key || b == GateDroppedKey
  }

  /** A cell a player cannot enter. */
  predicate Blocking(b: Block) {
    b == Wall || b == GateClosed
  }

  /**
   * C++ `a % n` on signed operands: the remainder takes the sign of `a`
   * (Dafny's own `%` is Euclidean and never negative).
   */
  function TruncRem(a: int, n: int): (r: int)
    requires n > 0
    ensures -n < r < n
    ensures a >= 0 ==> r >= 0
    ensures a <= 0 ==> r <= 0
    ensures -n < a < n ==> r == a
    ensures a == n ==> r == 0
  {
    if a >= 0 then a % n else -((-a) % n)
  }

  /**
   * The cell one step from `c` in direction `m`, both coordinates reduced with
   * C++ `%` by the maze's dimensions. A non-direction leaves `c` unchanged.
   */
  function Step(c: Coord, m: Command, rows: int, cols: int): Coord
    requires rows > 0 && cols > 0
  {
    match m
    case Left => Coord(TruncRem(c.row, rows), TruncRem(c.col - 1, cols))
    case Right => Coord(TruncRem(c.row, rows), TruncRem(c.col + 1, cols))
    case Up => Coord(TruncRem(c.row - 1, rows), TruncRem(c.col, cols))
    case Down => Coord(TruncRem(c.row + 1, rows), TruncRem(c.col, cols))
    case _ => c
  }

  predicate InGrid(c: Coord, rows: int, cols: int) {
    0 <= c.row < rows && 0 <= c.col < cols
  }

  /**
   * The cell that `m` probes from `c` lies in the grid. The source indexes the
   * grid at that cell unchecked, so this is what its callers must ensure.
   */
  predicate StepInGrid(c: Coord, m: Command, rows: int, cols: int) {
    IsDirection(m) ==> rows > 0 && cols > 0 && InGrid(Step(c, m, rows, cols), rows, cols)
  }

  /** The grid is rows x cols. */
  predicate Shaped(g: seq<seq<Block>>, rows: int, cols: int) {
    |g| == rows && forall r :: 0 <= r < |g| ==> |g[r]| == cols
  }

  function At(g: seq<seq<Block>>, c: Coord): Block
    requires 0 <= c.row < |g| && 0 <= c.col < |g[c.row]|
  {
    g[c.row][c.col]
  }

  function SetAt(g: seq<seq<Block>>, c: Coord, b: Block): (g': seq<seq<Block>>)
    requires 0 <= c.row < |g| && 0 <= c.col < |g[c.row]|
    ensures |g'| == |g|
    ensures forall r :: 0 <= r < |g| ==> |g'[r]| == |g[r]|
    ensures At(g', c) == b
    ensures forall r, k :: 0 <= r < |g| && 0 <= k < |g[r]| && (r != c.row || k != c.col) ==> g'[r][k] == g[r][k]
  {
    g[c.row := g[c.row][c.col := b]]
  }

  /**
   * The maze invariant the server relies on: `keys` lists, without repetition,
   * exactly the cells that hold a key (KEY or GATE_DROPPED_KEY).
   */
  ghost predicate KeysListed(g: seq<seq<Block>>, rows: int, cols: int, keys: seq<Coord>) {
    && Shaped(g, rows, cols)
    && (forall i :: 0 <= i < |keys| ==> InGrid(keys[i], rows, cols) && HoldsKey(g[keys[i].row][keys[i].col]))
    && (forall r, k :: 0 <= r < rows && 0 <= k < cols && HoldsKey(g[r][k]) ==> Coord(r, k) in keys)
    && (forall i, j :: 0 <= i < j < |keys| ==> keys[i] != keys[j])
  }

  /**
   * From a cell of the grid, a step stays in the grid except LEFT from column 0
   * and UP from row 0 (when that dimension exceeds 1): there C++ `%` yields -1.
   */
  lemma StepInGridIff(c: Coord, m: Command, rows: int, cols: int)
    requires InGrid(c, rows, cols) && IsDirection(m)
    ensures InGrid(Step(c, m, rows, cols), rows, cols)
        <==> !(m == Left && c.col == 0 && cols > 1) && !(m == Up && c.row == 0 && rows > 1)
  {
  }

  /**
   * Where a step stays in the grid, it changes exactly one coordinate by one,
   * and RIGHT/DOWN from the last column/row wrap to 0.
   */
  lemma StepNeighbour(c: Coord, m: Command, rows: int, cols: int)
    requires InGrid(c, rows, cols) && IsDirection(m) && InGrid(Step(c, m, rows, cols), rows, cols)
    ensures var d := Step(c, m, rows, cols);
      match m
      case Left => d == Coord(c.row, if cols == 1 then 0 else c.col - 1)
      case Right => d == Coord(c.row, if c.col + 1 == cols then 0 else c.col + 1)
      case Up => d == Coord(if rows == 1 then 0 else c.row - 1, c.col)
      case Down => d == Coord(if c.row + 1 == rows then 0 else c.row + 1, c.col)
      case _ => false
  {
  }

  /** The grid is not a torus at its low edge: LEFT from column 0 gives column -1. */
  lemma LowEdgeLeavesGrid(row: int, rows: int, cols: int)
    requires 0 <= row < rows && cols > 1
    ensures Step(Coord(row, 0), Left, rows, cols).col == -1
    ensures !InGrid(Step(Coord(row, 0), Left, rows, cols), rows, cols)
  {
  }
}
