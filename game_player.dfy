/**
 * The server-side player (game::player) acting on the shared maze: taking in a
 * command, one game step (update), taking a key or opening a gate, and being
 * killed. The maze's grid and key list are changed in place.
 */
module GamePlayer {
  import opened Board
  import opened GameMaze
  import opened Text
  import BasicPlayer

  /** The value the player-side counter starts from. */
  const PLAYER_COUNTER_START: nat := 1

  /** The nickname a player gets when it connects without one. */
  function AnonymousNick(n: nat): string {
    "player-" + NatToDecimal(n)
  }

  // ---------------------------------------------------------------------------
  // The key list

  /** keys_.erase at the first position that holds `c`, as found by a linear search. */
  function RemoveFirst(keys: seq<Coord>, c: Coord): (r: seq<Coord>)
    ensures c in keys ==> |r| == |keys| - 1
    ensures c !in keys ==> r == keys
  {
    if keys == [] then []
    else if keys[0] == c then keys[1..]
    else [keys[0]] + RemoveFirst(keys[1..], c)
  }

  /** RemoveFirst takes away one occurrence of `c` and nothing else. */
  lemma {:induction false} RemoveFirstCount(keys: seq<Coord>, c: Coord)
    ensures multiset(RemoveFirst(keys, c)) == multiset(keys) - multiset{c}
  {
    if keys != [] {
      assert keys == [keys[0]] + keys[1..];
      RemoveFirstCount(keys[1..], c);
    }
  }

  /** The linear search of get_key: the first position holding `c`, or |keys| when there is none. */
  method FindFirst(keys: seq<Coord>, c: Coord) returns (i: nat)
    ensures i <= |keys| && (i < |keys| <==> c in keys)
    ensures i < |keys| ==> keys[i] == c
    ensures forall j :: 0 <= j < i ==> keys[j] != c
  {
    i := 0;
    while i < |keys| && keys[i] != c
      invariant i <= |keys|
      invariant forall j :: 0 <= j < i ==> keys[j] != c
    {
      i := i + 1;
    }
  }

  /** When `i` is the first position holding `c`, RemoveFirst cuts out exactly that position. */
  lemma {:induction false} RemoveFirstAt(keys: seq<Coord>, c: Coord, i: nat)
    requires i < |keys| && keys[i] == c
    requires forall j :: 0 <= j < i ==> keys[j] != c
    ensures RemoveFirst(keys, c) == keys[..i] + keys[i + 1..]
  {
    if i > 0 {
      RemoveFirstAt(keys[1..], c, i - 1);
      assert keys[1..][..i - 1] == keys[1..i];
      assert keys[1..][i..] == keys[i + 1..];
      assert keys[..i] == [keys[0]] + keys[1..i];
    }
  }

  /** Position j of a sequence with position i cut out comes from this position of the original. */
  function Skip(i: nat, j: nat): nat {
    if j < i then j else j + 1
  }

  /** Cutting out position i: every later position moves down by one. */
  lemma CutPositions(keys: seq<Coord>, i: nat)
    requires i < |keys|
    ensures |keys[..i] + keys[i + 1..]| == |keys| - 1
    ensures forall j :: 0 <= j < |keys| - 1 ==> (keys[..i] + keys[i + 1..])[j] == keys[Skip(i, j)]
  {
  }

  /** Emptying the cell of the i-th listed key and cutting that entry out keeps the listing exact. */
  lemma ClearKeyCell(g: seq<seq<Block>>, rows: int, cols: int, keys: seq<Coord>, i: nat, b: Block)
    requires KeysListed(g, rows, cols, keys) && i < |keys| && !HoldsKey(b)
    ensures KeysListed(SetAt(g, keys[i], b), rows, cols, keys[..i] + keys[i + 1..])
  {
    var a := keys[i];
    var g' := SetAt(g, a, b);
    var k' := keys[..i] + keys[i + 1..];
    CutPositions(keys, i);
    forall j | 0 <= j < |k'|
      ensures InGrid(k'[j], rows, cols) && HoldsKey(g'[k'[j].row][k'[j].col])
    {
      assert k'[j] == keys[Skip(i, j)] && Skip(i, j) != i;
    }
    forall r, k | 0 <= r < rows && 0 <= k < cols && HoldsKey(g'[r][k])
      ensures Coord(r, k) in k'
    {
      assert Coord(r, k) != a;
      assert HoldsKey(g[r][k]);
      var t :| 0 <= t < |keys| && keys[t] == Coord(r, k);
      var j := if t < i then t else t - 1;
      assert k'[j] == keys[Skip(i, j)];
    }
    forall j1, j2 | 0 <= j1 < j2 < |k'|
      ensures k'[j1] != k'[j2]
    {
      assert k'[j1] == keys[Skip(i, j1)] && k'[j2] == keys[Skip(i, j2)];
    }
  }

  // ---------------------------------------------------------------------------
  // TAKE_OPEN: taking a key (get_key) and opening a gate (open_gate)

  /** What TAKE_OPEN changes: its result, the player's key flag, the grid and the key list. */
  datatype TakeOutcome = TakeOutcome(result: MoveResult, hasKey: bool, grid: seq<seq<Block>>, keys: seq<Coord>)

  /** The grid is rows x cols and the cell ahead of `c` facing `dir` lies in it. */
  predicate AheadInGrid(g: seq<seq<Block>>, rows: int, cols: int, c: Coord, dir: Command) {
    Shaped(g, rows, cols) && StepInGrid(c, dir, rows, cols)
  }

  /** `g'` has the shape of `g` and differs from it at most in cell `a`. */
  predicate ChangesOnly(g: seq<seq<Block>>, g': seq<seq<Block>>, a: Coord) {
    && |g'| == |g|
    && (forall r :: 0 <= r < |g| ==> |g'[r]| == |g[r]|)
    && forall r, k :: 0 <= r < |g| && 0 <= k < |g[r]| && Coord(r, k) != a ==> g'[r][k] == g[r][k]
  }

  /** The cell in front of a player at `c` facing direction `dir`. */
  function CellAhead(g: seq<seq<Block>>, rows: int, cols: int, c: Coord, dir: Command): Block
    requires AheadInGrid(g, rows, cols, c, dir) && IsDirection(dir)
  {
    At(g, Step(c, dir, rows, cols))
  }

  /**
   * get_key: facing a direction with a key ahead (KEY, or a key dropped in an
   * open gate), the player takes it: the cell is left EMPTY or GATE_OPEN
   * respectively and one entry for it leaves the key list. Otherwise, and when
   * the player faces no direction, NOT_POSSIBLE and nothing changes.
   */
  function PickUpOutcome(g: seq<seq<Block>>, rows: int, cols: int, keys: seq<Coord>,
                         c: Coord, dir: Command, holding: bool): (o: TakeOutcome)
    requires AheadInGrid(g, rows, cols, c, dir)
    ensures o.result == Possible <==> IsDirection(dir) && HoldsKey(CellAhead(g, rows, cols, c, dir))
    ensures o.result == NotPossible ==> o == TakeOutcome(NotPossible, holding, g, keys)
    ensures o.result == Possible ==>
      && o.hasKey && AheadInGrid(o.grid, rows, cols, c, dir)
      && CellAhead(o.grid, rows, cols, c, dir) == (if CellAhead(g, rows, cols, c, dir) == Key then Empty else GateOpen)
      && ChangesOnly(g, o.grid, Step(c, dir, rows, cols))
      && multiset(o.keys) == multiset(keys) - multiset{Step(c, dir, rows, cols)}
  {
    if IsDirection(dir) && HoldsKey(CellAhead(g, rows, cols, c, dir)) then
      var a := Step(c, dir, rows, cols);
      RemoveFirstCount(keys, a);
      TakeOutcome(Possible, true, SetAt(g, a, if At(g, a) == Key then Empty else GateOpen), RemoveFirst(keys, a))
    else
      TakeOutcome(NotPossible, holding, g, keys)
  }

  /**
   * open_gate: facing a closed gate, the player opens it and uses up its key.
   * Otherwise NOT_POSSIBLE and nothing changes. The key list is never touched.
   */
  function OpenGateOutcome(g: seq<seq<Block>>, rows: int, cols: int, keys: seq<Coord>,
                           c: Coord, dir: Command, holding: bool): (o: TakeOutcome)
    requires AheadInGrid(g, rows, cols, c, dir)
    ensures o.result == Possible <==> IsDirection(dir) && CellAhead(g, rows, cols, c, dir) == GateClosed
    ensures o.keys == keys
    ensures o.result == NotPossible ==> o == TakeOutcome(NotPossible, holding, g, keys)
    ensures o.result == Possible ==>
      && !o.hasKey && AheadInGrid(o.grid, rows, cols, c, dir)
      && CellAhead(o.grid, rows, cols, c, dir) == GateOpen
      && ChangesOnly(g, o.grid, Step(c, dir, rows, cols))
  {
    if IsDirection(dir) && CellAhead(g, rows, cols, c, dir) == GateClosed then
      TakeOutcome(Possible, false, SetAt(g, Step(c, dir, rows, cols), GateOpen), keys)
    else
      TakeOutcome(NotPossible, holding, g, keys)
  }

  /** Clearing a key cell and removing its first entry keeps the listing exact; the cell was listed once. */
  lemma TakeKeyListed(g: seq<seq<Block>>, rows: int, cols: int, keys: seq<Coord>, a: Coord, b: Block)
    requires KeysListed(g, rows, cols, keys) && InGrid(a, rows, cols) && HoldsKey(At(g, a)) && !HoldsKey(b)
    ensures KeysListed(SetAt(g, a, b), rows, cols, RemoveFirst(keys, a))
    ensures a in keys && a !in RemoveFirst(keys, a)
  {
    assert HoldsKey(g[a.row][a.col]);
    assert a in keys;
    var i :| 0 <= i < |keys| && keys[i] == a;
    RemoveFirstAt(keys, a, i);
    ClearKeyCell(g, rows, cols, keys, i, b);
  }

  /** Taking a key keeps the key list exact: the taken key was listed and no longer is. */
  lemma PickUpKeepsKeysListed(g: seq<seq<Block>>, rows: int, cols: int, keys: seq<Coord>,
                              c: Coord, dir: Command, holding: bool)
    requires KeysListed(g, rows, cols, keys) && AheadInGrid(g, rows, cols, c, dir)
    ensures var o := PickUpOutcome(g, rows, cols, keys, c, dir, holding);
      && KeysListed(o.grid, rows, cols, o.keys)
      && (o.result == Possible ==> Step(c, dir, rows, cols) in keys && Step(c, dir, rows, cols) !in o.keys)
  {
    if IsDirection(dir) && HoldsKey(CellAhead(g, rows, cols, c, dir)) {
      var a := Step(c, dir, rows, cols);
      var b := if At(g, a) == Key then Empty else GateOpen;
      assert PickUpOutcome(g, rows, cols, keys, c, dir, holding) == TakeOutcome(Possible, true, SetAt(g, a, b), RemoveFirst(keys, a));
      TakeKeyListed(g, rows, cols, keys, a, b);
    }
  }

  /** Opening a gate keeps the key list exact. */
  lemma OpenGateKeepsKeysListed(g: seq<seq<Block>>, rows: int, cols: int, keys: seq<Coord>,
                                c: Coord, dir: Command, holding: bool)
    requires KeysListed(g, rows, cols, keys) && AheadInGrid(g, rows, cols, c, dir)
    ensures KeysListed(OpenGateOutcome(g, rows, cols, keys, c, dir, holding).grid, rows, cols, keys)
  {
    var o := OpenGateOutcome(g, rows, cols, keys, c, dir, holding);
    if o.result == Possible {
      var a := Step(c, dir, rows, cols);
      forall j | 0 <= j < |keys|
        ensures HoldsKey(o.grid[keys[j].row][keys[j].col])
      {
        assert keys[j] != a;
      }
    }
  }

  // ---------------------------------------------------------------------------
  // kill: dropping a held key

  /** The cell a dropped key leaves: a gate with a dropped key on an open gate, else a KEY. */
  function KeyDropped(b: Block): (r: Block)
    ensures HoldsKey(r)
  {
    if b == GateOpen then GateDroppedKey else Key
  }

  /** kill's key drop: the player's cell shows the key and its coordinate is appended to the key list. */
  function Drop(g: seq<seq<Block>>, keys: seq<Coord>, c: Coord): (r: (seq<seq<Block>>, seq<Coord>))
    requires 0 <= c.row < |g| && 0 <= c.col < |g[c.row]|
    ensures r.1 == keys + [c] && |r.1| == |keys| + 1
    ensures |r.0| == |g| && (forall row :: 0 <= row < |g| ==> |r.0[row]| == |g[row]|)
    ensures At(r.0, c) == KeyDropped(At(g, c)) && HoldsKey(At(r.0, c))
    ensures forall row, k :: 0 <= row < |g| && 0 <= k < |g[row]| && Coord(row, k) != c ==> r.0[row][k] == g[row][k]
  {
    (SetAt(g, c, KeyDropped(At(g, c))), keys + [c])
  }

  /** Dropping a key on a cell without one keeps the key list exact. */
  lemma DropKeepsKeysListed(g: seq<seq<Block>>, rows: int, cols: int, keys: seq<Coord>, c: Coord)
    requires KeysListed(g, rows, cols, keys) && InGrid(c, rows, cols) && !HoldsKey(At(g, c))
    ensures KeysListed(Drop(g, keys, c).0, rows, cols, Drop(g, keys, c).1)
  {
    var (g', k') := Drop(g, keys, c);
    assert c !in keys;
    forall j | 0 <= j < |k'|
      ensures InGrid(k'[j], rows, cols) && HoldsKey(g'[k'[j].row][k'[j].col])
    {
      if j < |keys| {
        assert k'[j] == keys[j] && keys[j] != c;
      }
    }
    forall r, k | 0 <= r < rows && 0 <= k < cols && HoldsKey(g'[r][k])
      ensures Coord(r, k) in k'
    {
      if Coord(r, k) != c {
        assert HoldsKey(g[r][k]);
        var t :| 0 <= t < |keys| && keys[t] == Coord(r, k);
        assert k'[t] == keys[t];
      } else {
        assert k'[|keys|] == c;
      }
    }
  }

  /**
   * Dropping a key on a cell that already holds one lists that cell twice: kill
   * does not check the cell, so the listing stops being exact.
   */
  lemma DropOnKeyCellRepeatsKey(g: seq<seq<Block>>, rows: int, cols: int, keys: seq<Coord>, c: Coord)
    requires KeysListed(g, rows, cols, keys) && InGrid(c, rows, cols) && HoldsKey(At(g, c))
    ensures !KeysListed(Drop(g, keys, c).0, rows, cols, Drop(g, keys, c).1)
  {
    var k' := Drop(g, keys, c).1;
    assert HoldsKey(g[c.row][c.col]);
    var t :| 0 <= t < |keys| && keys[t] == c;
    assert k'[t] == k'[|keys|];
  }

  /**
   * A drop that keeps the key list exact: on a cell that already holds a key
   * the grid and the list stay as they are, elsewhere it is Drop.
   */
  function DropChecked(g: seq<seq<Block>>, keys: seq<Coord>, c: Coord): (r: (seq<seq<Block>>, seq<Coord>))
    requires 0 <= c.row < |g| && 0 <= c.col < |g[c.row]|
    ensures |r.0| == |g| && (forall row :: 0 <= row < |g| ==> |r.0[row]| == |g[row]|)
    ensures HoldsKey(At(r.0, c))
    ensures HoldsKey(At(g, c)) <==> r.1 == keys
    ensures forall row, k :: 0 <= row < |g| && 0 <= k < |g[row]| && Coord(row, k) != c ==> r.0[row][k] == g[row][k]
  {
    if HoldsKey(At(g, c)) then (g, keys) else Drop(g, keys, c)
  }

  /** The checked drop keeps the key invariant on every cell of the grid. */
  lemma DropCheckedKeepsKeysListed(g: seq<seq<Block>>, rows: int, cols: int, keys: seq<Coord>, c: Coord)
    requires KeysListed(g, rows, cols, keys) && InGrid(c, rows, cols)
    ensures KeysListed(DropChecked(g, keys, c).0, rows, cols, DropChecked(g, keys, c).1)
  {
    if !HoldsKey(At(g, c)) {
      DropKeepsKeysListed(g, rows, cols, keys, c);
    }
  }

  // ---------------------------------------------------------------------------
  // Command intake (the command block of async_receive_handler)

  /** What taking in a command changes: the command buffer, the last result and the maze's run flag. */
  datatype IntakeOutcome = IntakeOutcome(buffer: Command, lastResult: MoveResult, gameRun: bool)

  /**
   * A finished game ignores commands. While paused only the owner's
   * START_CONTINUE starts the game (others get NOT_POSSIBLE) and any other
   * command replaces the buffered one. While running only the owner, not yet
   * game over, can PAUSE, and any other command is buffered only when the buffer
   * is empty and the player is not game over.
   */
  function Intake(finished: bool, running: bool, isOwner: bool, gameOver: bool,
                  buffer: Command, last: MoveResult, cmd: Command): (o: IntakeOutcome)
    ensures finished ==> o == IntakeOutcome(buffer, last, running)
    ensures !finished && !running ==> (o.gameRun <==> cmd == StartContinue && isOwner)
    ensures !finished && !running && cmd == StartContinue ==>
      o.buffer == NoCommand && (o.lastResult == Possible <==> isOwner)
    ensures !finished && !running && cmd != StartContinue ==> o.buffer == cmd && o.lastResult == last
    ensures !finished && running ==> (!o.gameRun <==> cmd == Pause && isOwner && !gameOver)
    ensures !finished && running && cmd == Pause ==>
      o.buffer == NoCommand && (o.lastResult == Possible <==> isOwner && !gameOver)
    ensures !finished && running && cmd != Pause ==>
      && o.lastResult == last
      && (buffer != NoCommand || gameOver ==> o.buffer == buffer)
      && (buffer == NoCommand && !gameOver ==> o.buffer == cmd)
  {
    if finished then IntakeOutcome(buffer, last, running)
    else if !running then
      if cmd == StartContinue then
        if isOwner then IntakeOutcome(NoCommand, Possible, true)
        else IntakeOutcome(NoCommand, NotPossible, false)
      else IntakeOutcome(cmd, last, false)
    else if cmd == Pause then
      if isOwner && !gameOver then IntakeOutcome(NoCommand, Possible, false)
      else IntakeOutcome(NoCommand, NotPossible, true)
    else if buffer == NoCommand && !gameOver then IntakeOutcome(cmd, last, true)
    else IntakeOutcome(buffer, last, true)
  }

  // ---------------------------------------------------------------------------
  // One game step (update)

  /** The player fields one game step reads and writes. */
  datatype Mover = Mover(coords: Coord, direction: Command, nextMove: Command, buffer: Command,
                         lastResult: MoveResult, hasKey: bool, invulnerable: bool)

  /** What one game step leaves behind: the player fields, the grid and the key list. */
  datatype StepOutcome = StepOutcome(mover: Mover, grid: seq<seq<Block>>, keys: seq<Coord>)

  /** The move whose target cell a step reads, given the buffered command. */
  function Probe(p: Mover): Command {
    match p.buffer
    case Left | Right | Up | Down => p.buffer
    case TakeOpen => p.direction
    case NoCommand => p.nextMove
    case _ => Stop
  }

  /** A directional command: one cell on when possible, else only a turn (POSSIBLE if the facing changes). */
  function Steered(q: Mover, act: Command, m: Maze): (r: Mover)
    reads m
    requires Shaped(m.grid, m.rows, m.cols) && InGrid(q.coords, m.rows, m.cols)
    requires IsDirection(act) && StepInGrid(q.coords, act, m.rows, m.cols)
    ensures r.direction == act && r.buffer == q.buffer && r.hasKey == q.hasKey
    ensures InGrid(r.coords, m.rows, m.cols)
    ensures m.IsMovePossible(q.coords, act) ==>
      && r.coords == Step(q.coords, act, m.rows, m.cols)
      && r.lastResult == Possible && r.nextMove == act && !r.invulnerable
    ensures !m.IsMovePossible(q.coords, act) ==>
      && r.coords == q.coords && r.nextMove == q.nextMove && r.invulnerable == q.invulnerable
      && (q.direction != act ==> r.lastResult == Possible)
      && (q.direction == act ==> r.lastResult == q.lastResult)
  {
    if m.IsMovePossible(q.coords, act) then
      q.(coords := Step(q.coords, act, m.rows, m.cols), invulnerable := false,
         lastResult := Possible, nextMove := act, direction := act)
    else
      q.(lastResult := if q.direction != act then Possible else q.lastResult, direction := act)
  }

  /** TAKE_OPEN: take the key ahead when holding none, else open the gate ahead. */
  function TookOrOpened(q: Mover, m: Maze): (o: StepOutcome)
    reads m
    requires AheadInGrid(m.grid, m.rows, m.cols, q.coords, q.direction)
    ensures o.mover == q.(lastResult := o.mover.lastResult, hasKey := o.mover.hasKey)
  {
    var t := if q.hasKey then OpenGateOutcome(m.grid, m.rows, m.cols, m.keys, q.coords, q.direction, true)
             else PickUpOutcome(m.grid, m.rows, m.cols, m.keys, q.coords, q.direction, false);
    StepOutcome(q.(lastResult := t.result, hasKey := t.hasKey), t.grid, t.keys)
  }

  /** No command: repeat the next move while possible, else stop; POSSIBLE either way. */
  function KeptGoing(q: Mover, m: Maze): (r: Mover)
    reads m
    requires Shaped(m.grid, m.rows, m.cols) && InGrid(q.coords, m.rows, m.cols)
    requires StepInGrid(q.coords, q.nextMove, m.rows, m.cols)
    ensures r.lastResult == Possible && InGrid(r.coords, m.rows, m.cols)
    ensures r.direction == q.direction && r.buffer == q.buffer && r.hasKey == q.hasKey
    ensures m.IsMovePossible(q.coords, q.nextMove) ==>
      r.coords == Step(q.coords, q.nextMove, m.rows, m.cols) && r.nextMove == q.nextMove
    ensures !m.IsMovePossible(q.coords, q.nextMove) ==> r.coords == q.coords && r.nextMove == Stop
  {
    if m.IsMovePossible(q.coords, q.nextMove) then
      var inv := if IsDirection(q.nextMove) then false else q.invulnerable;
      q.(coords := Step(q.coords, q.nextMove, m.rows, m.cols), invulnerable := inv, lastResult := Possible)
    else
      q.(nextMove := Stop, lastResult := Possible)
  }

  /**
   * update: the buffered command is consumed (the buffer is left NONE).
   * A direction moves the player one cell when possible (POSSIBLE, and it
   * becomes the next move); a blocked one only turns the player, POSSIBLE
   * exactly when that changes the facing. STOP ends the running move. TAKE_OPEN
   * takes a key or, holding one, opens a gate. START_CONTINUE and PAUSE do
   * nothing here (NOT_POSSIBLE). With no command the player keeps going with its
   * next move, or stops when that is blocked.
   */
  function Advance(p: Mover, m: Maze): (o: StepOutcome)
    reads m
    requires Shaped(m.grid, m.rows, m.cols) && InGrid(p.coords, m.rows, m.cols)
    requires StepInGrid(p.coords, Probe(p), m.rows, m.cols)
    ensures o.mover.buffer == NoCommand
    ensures InGrid(o.mover.coords, m.rows, m.cols)
    ensures p.buffer != TakeOpen ==> o.grid == m.grid && o.keys == m.keys && o.mover.hasKey == p.hasKey
    ensures p.buffer == Stop ==>
      o.mover == p.(buffer := NoCommand, lastResult := Possible, nextMove := Stop)
    ensures p.buffer == StartContinue || p.buffer == Pause ==>
      o == StepOutcome(p.(buffer := NoCommand, lastResult := NotPossible), m.grid, m.keys)
  {
    var q := p.(buffer := NoCommand, lastResult := NotPossible);
    match p.buffer
    case Left | Right | Up | Down => StepOutcome(Steered(q, p.buffer, m), m.grid, m.keys)
    case Stop => StepOutcome(q.(lastResult := Possible, nextMove := Stop), m.grid, m.keys)
    case TakeOpen => TookOrOpened(q, m)
    case StartContinue | Pause => StepOutcome(q, m.grid, m.keys)
    case NoCommand => StepOutcome(KeptGoing(q, m), m.grid, m.keys)
  }

  /** No game step breaks the key listing of the maze. */
  lemma AdvanceKeepsKeysListed(p: Mover, m: Maze)
    requires KeysListed(m.grid, m.rows, m.cols, m.keys) && InGrid(p.coords, m.rows, m.cols)
    requires StepInGrid(p.coords, Probe(p), m.rows, m.cols)
    ensures var o := Advance(p, m); KeysListed(o.grid, m.rows, m.cols, o.keys)
  {
    if p.buffer == TakeOpen {
      if p.hasKey {
        OpenGateKeepsKeysListed(m.grid, m.rows, m.cols, m.keys, p.coords, p.direction, true);
      } else {
        PickUpKeepsKeysListed(m.grid, m.rows, m.cols, m.keys, p.coords, p.direction, false);
      }
    }
  }

  // ---------------------------------------------------------------------------
  // The player

  class Player {
    const uid: string
    const authKey: string
    var nick: string
    var maze: Maze?
    var coords: Coord
    var startCoords: Coord
    var direction: Command
    var nextMove: Command
    var commandBuffer: Command
    var lastMoveResult: MoveResult
    var hasKey: bool
    var lifes: int
    var invulnerability: bool
    var gameOver: bool

    /** The player is in a maze whose key list is exact, on a cell of its grid. */
    ghost predicate Placed()
      reads this, maze
    {
      maze != null && maze.Valid() && InGrid(coords, maze.rows, maze.cols)
    }

    /** The fields one game step reads and writes. */
    function Snapshot(): Mover
      reads this
    {
      Mover(coords, direction, nextMove, commandBuffer, lastMoveResult, hasKey, invulnerability)
    }

    /**
     * A new player: the base part starts with three lives and no key and bumps
     * the base counter; without a nick it is named "player-" and the player
     * counter, which then advances.
     */
    constructor (puid: string, key: string, name: string,
                 counter: BasicPlayer.PlayersCounter, baseCounter: BasicPlayer.PlayersCounter)
      requires counter != baseCounter
      modifies counter, baseCounter
      ensures uid == puid && authKey == key && maze == null
      ensures lifes == 3 && !hasKey
      ensures baseCounter.value == old(baseCounter.value) + 1
      ensures name == "" ==> nick == AnonymousNick(old(counter.value)) && counter.value == old(counter.value) + 1
      ensures name != "" ==> nick == name && counter.value == old(counter.value)
    {
      uid, authKey := puid, key;
      maze := null;
      baseCounter.value := baseCounter.value + 1;
      lifes, hasKey := 3, false;
      new;
      if |name| == 0 {
        nick := AnonymousNick(counter.value);
        counter.value := counter.value + 1;
      } else {
        nick := name;
      }
    }

    method SetMaze(m: Maze)
      modifies this`maze
      ensures maze == m
    {
      maze := m;
    }

    /** The respawn point and the current position both become `c`. */
    method SetStartCoords(c: Coord)
      modifies this`startCoords, this`coords
      ensures startCoords == c && coords == c
    {
      startCoords := c;
      coords := c;
    }

    method GetCoords() returns (c: Coord)
      ensures c == coords
    {
      c := coords;
    }

    /** Command intake: the buffer, the last result and the run flag change as Intake says. */
    method ReceiveCommand(cmd: Command)
      requires maze != null
      modifies this`commandBuffer, this`lastMoveResult, maze`gameRun
      ensures IntakeOutcome(commandBuffer, lastMoveResult, maze.gameRun)
           == old(Intake(maze.gameFinished, maze.gameRun, maze.gameOwner == uid, gameOver,
                         commandBuffer, lastMoveResult, cmd))
    {
      if !maze.gameFinished {
        if !maze.gameRun {
          if cmd == StartContinue {
            if maze.gameOwner == uid {
              maze.gameRun := true;
              lastMoveResult := Possible;
            } else {
              lastMoveResult := NotPossible;
            }
            commandBuffer := NoCommand;
          } else {
            commandBuffer := cmd;
          }
        } else {
          if cmd == Pause {
            if maze.gameOwner == uid && !gameOver {
              maze.gameRun := false;
              lastMoveResult := Possible;
            } else {
              lastMoveResult := NotPossible;
            }
            commandBuffer := NoCommand;
          } else if commandBuffer == NoCommand && !gameOver {
            commandBuffer := cmd;
          }
        }
      }
    }

    /** update_coords: one cell in the direction of `move`; any move but STOP/NONE ends invulnerability. */
    method UpdateCoords(move: Command)
      requires Placed() && StepInGrid(coords, move, maze.rows, maze.cols)
      modifies this`coords, this`invulnerability
      ensures Placed()
      ensures coords == Step(old(coords), move, maze.rows, maze.cols)
      ensures invulnerability == if move == Stop || move == NoCommand then old(invulnerability) else false
    {
      if move == Stop || move == NoCommand {
        return;
      }
      match move {
        case Left => coords := coords.(col := TruncRem(coords.col - 1, maze.cols));
        case Right => coords := coords.(col := TruncRem(coords.col + 1, maze.cols));
        case Up => coords := coords.(row := TruncRem(coords.row - 1, maze.rows));
        case Down => coords := coords.(row := TruncRem(coords.row + 1, maze.rows));
        case _ =>
      }
      invulnerability := false;
    }

    /** get_key, as PickUpOutcome says; the key is searched for in the key list. */
    method GetKey() returns (r: MoveResult)
      requires Placed() && StepInGrid(coords, direction, maze.rows, maze.cols)
      modifies this`hasKey, maze`grid, maze`keys
      ensures TakeOutcome(r, hasKey, maze.grid, maze.keys)
           == old(PickUpOutcome(maze.grid, maze.rows, maze.cols, maze.keys, coords, direction, hasKey))
    {
      ghost var o := PickUpOutcome(maze.grid, maze.rows, maze.cols, maze.keys, coords, direction, hasKey);
      if !IsDirection(direction) {
        return NotPossible;
      }
      var ahead := Step(coords, direction, maze.rows, maze.cols);
      var cell := At(maze.grid, ahead);
      if cell == Key || cell == GateDroppedKey {
        assert ahead in maze.keys && o.grid == SetAt(maze.grid, ahead, if cell == Key then Empty else GateOpen);
        maze.grid := SetAt(maze.grid, ahead, if cell == Key then Empty else GateOpen);
        hasKey := true;
        var i := FindFirst(maze.keys, ahead);
        RemoveFirstAt(maze.keys, ahead, i);
        maze.keys := maze.keys[..i] + maze.keys[i + 1..];
        assert maze.keys == o.keys;
        return Possible;
      }
      return NotPossible;
    }

    /** open_gate, as OpenGateOutcome says. */
    method OpenGate() returns (r: MoveResult)
      requires Placed() && StepInGrid(coords, direction, maze.rows, maze.cols)
      modifies this`hasKey, maze`grid
      ensures TakeOutcome(r, hasKey, maze.grid, maze.keys)
           == old(OpenGateOutcome(maze.grid, maze.rows, maze.cols, maze.keys, coords, direction, hasKey))
    {
      if !IsDirection(direction) {
        return NotPossible;
      }
      var ahead := Step(coords, direction, maze.rows, maze.cols);
      if At(maze.grid, ahead) == GateClosed {
        maze.grid := SetAt(maze.grid, ahead, GateOpen);
        hasKey := false;
        return Possible;
      }
      return NotPossible;
    }

    /**
     * A directional command (one of update's four alike cases): move one cell
     * when possible, which reports POSSIBLE and makes it the next move; when
     * blocked only turn, which reports POSSIBLE exactly when the facing changes.
     */
    method Steer(act: Command)
      requires Placed() && IsDirection(act) && StepInGrid(coords, act, maze.rows, maze.cols)
      modifies this`coords, this`invulnerability, this`lastMoveResult, this`nextMove, this`direction
      ensures Placed()
      ensures Snapshot() == old(Steered(Snapshot(), act, maze))
    {
      if maze.IsMovePossible(coords, act) {
        UpdateCoords(act);
        lastMoveResult := Possible;
        nextMove := act;
      } else if direction != act {
        lastMoveResult := Possible;
      }
      direction := act;
    }

    /** TAKE_OPEN: without a key take the one ahead, with a key open the gate ahead. */
    method TakeOrOpen()
      requires Placed() && StepInGrid(coords, direction, maze.rows, maze.cols)
      modifies this`hasKey, this`lastMoveResult, maze`grid, maze`keys
      ensures Placed()
      ensures StepOutcome(Snapshot(), maze.grid, maze.keys) == old(TookOrOpened(Snapshot(), maze))
    {
      if !hasKey {
        PickUpKeepsKeysListed(maze.grid, maze.rows, maze.cols, maze.keys, coords, direction, hasKey);
        lastMoveResult := GetKey();
      } else {
        OpenGateKeepsKeysListed(maze.grid, maze.rows, maze.cols, maze.keys, coords, direction, hasKey);
        lastMoveResult := OpenGate();
      }
    }

    /** No new command: repeat the next move while it is possible, else stop; either way POSSIBLE. */
    method KeepGoing()
      requires Placed() && StepInGrid(coords, nextMove, maze.rows, maze.cols)
      modifies this`coords, this`invulnerability, this`lastMoveResult, this`nextMove
      ensures Placed()
      ensures Snapshot() == old(KeptGoing(Snapshot(), maze))
    {
      if maze.IsMovePossible(coords, nextMove) {
        UpdateCoords(nextMove);
      } else {
        nextMove := Stop;
      }
      lastMoveResult := Possible;
    }

    /** update: one game step as Advance says; the result tells whether the player now stands on the target. */
    method Update() returns (won: bool)
      requires Placed() && StepInGrid(coords, Probe(Snapshot()), maze.rows, maze.cols)
      modifies this`coords, this`direction, this`nextMove, this`commandBuffer, this`lastMoveResult
      modifies this`hasKey, this`invulnerability, maze`grid, maze`keys
      ensures Placed()
      ensures Snapshot() == old(Advance(Snapshot(), maze)).mover
      ensures maze.grid == old(Advance(Snapshot(), maze)).grid && maze.keys == old(Advance(Snapshot(), maze)).keys
      ensures won <==> At(maze.grid, coords) == Target
    {
      var act := commandBuffer;
      commandBuffer := NoCommand;
      lastMoveResult := NotPossible;
      if IsDirection(act) {
        Steer(act);
      } else if act == Stop {
        lastMoveResult := Possible;
        nextMove := Stop;
      } else if act == TakeOpen {
        TakeOrOpen();
      } else if act == NoCommand {
        KeepGoing();
      }
      won := At(maze.grid, coords) == Target;
    }

    /** kill's key drop: a held key is left on the player's cell and listed again. */
    method DropKey()
      requires maze != null && Shaped(maze.grid, maze.rows, maze.cols) && InGrid(coords, maze.rows, maze.cols)
      modifies this`hasKey, maze`grid, maze`keys
      ensures !hasKey
      ensures old(hasKey) ==> (maze.grid, maze.keys) == old(Drop(maze.grid, maze.keys, coords))
      ensures !old(hasKey) ==> maze.grid == old(maze.grid) && maze.keys == old(maze.keys)
    {
      if hasKey {
        if At(maze.grid, coords) == GateOpen {
          maze.grid := SetAt(maze.grid, coords, GateDroppedKey);
        } else {
          maze.grid := SetAt(maze.grid, coords, Key);
        }
        maze.keys := maze.keys + [coords];
        hasKey := false;
      }
    }

    /**
     * kill: an invulnerable player survives untouched. Otherwise a held key is
     * dropped on the player's cell, one life goes (an unsigned byte, so 0 wraps
     * to 255), the player respawns at its start while lives remain or else is
     * game over and leaves the count of living players, and it stops moving.
     */
    method Kill() returns (killed: bool)
      requires Placed() && 0 <= lifes < 256
      modifies this`hasKey, this`lifes, this`coords, this`gameOver, this`nextMove
      modifies maze`grid, maze`keys, maze`playersAlive
      ensures killed == !old(invulnerability)
      ensures !killed ==> unchanged(this) && unchanged(maze)
      ensures killed && old(hasKey) ==> (maze.grid, maze.keys) == old(Drop(maze.grid, maze.keys, coords))
      ensures killed && !old(hasKey) ==> maze.grid == old(maze.grid) && maze.keys == old(maze.keys)
      ensures killed ==> !hasKey && nextMove == Stop && lifes == (old(lifes) + 255) % 256
      ensures killed && lifes > 0 ==>
        coords == startCoords && gameOver == old(gameOver) && maze.playersAlive == old(maze.playersAlive)
      ensures killed && lifes == 0 ==>
        coords == old(coords) && gameOver && maze.playersAlive == old(maze.playersAlive) - 1
      ensures 0 <= lifes < 256
      ensures !(old(hasKey) && HoldsKey(old(At(maze.grid, coords)))) ==> maze.Valid()
      ensures InGrid(startCoords, maze.rows, maze.cols) ==> InGrid(coords, maze.rows, maze.cols)
    {
      if invulnerability {
        return false;
      }
      if hasKey && !HoldsKey(At(maze.grid, coords)) {
        DropKeepsKeysListed(maze.grid, maze.rows, maze.cols, maze.keys, coords);
      }
      DropKey();
      lifes := (lifes + 255) % 256;
      if lifes > 0 {
        coords := startCoords;
      } else {
        gameOver := true;
        maze.playersAlive := maze.playersAlive - 1;
      }
      nextMove := Stop;
      return true;
    }
  }
}
