# Maze game server and client: a Dafny model of the core

This project models the core of a networked maze game. A server holds mazes
loaded from text files. Players move through the maze, pick up keys, open
gates and are killed by guardians. Clients connect over TCP, complete a
handshake, and exchange serialized messages in frames that start with an
8-character hexadecimal length header.

The model follows the C++ sources file by file. Each file below becomes one
Dafny module:

- `board.dfy` (Board) holds the shared vocabulary: cell kinds, coordinates,
  commands, C++ truncating `%` and the one-step neighbour of a cell. It also
  holds the maze invariant `KeysListed`: the key list names exactly the cells
  that hold a key, each once.
- `maze.dfy` (GameMaze) is `game::maze` as a class, with `is_move_possible`.
- `players_list.dfy` (PlayersList) is the four-slot player table as a class
  over an array.
- `basic_player.dfy` (BasicPlayer) is the player base record and its static
  counter.
- `game_player.dfy` (GamePlayer) is the server player. It covers command
  intake, one game step (`update`), taking keys, opening gates and `kill`.
  These change the shared maze in place.
- `mazes_manager.dfy` (MazesManager) reads a maze file into a maze and lists
  a directory.
- `text.dfy` (Text) holds decimal rendering (`std::to_string`) and the C
  library's number reading: white space, sign, digit runs.
- `protocol.dfy` (Protocol) holds the message structures and the field order
  of their serialization, with round trips.
- `connection.dfy` (Connection) is the TCP framing: header writing with
  `setw(8) << hex`, header reading with `>> hex`, and the read and write
  handlers.
- `cl_handler.dfy` (ClHandler) is the server's per-client handler: the
  handshake check, the reply chosen for each message, and receive
  classification.
- `client_connections.dfy` (ClientConnections) is the client's connection:
  the prepared packets, the handshake handlers, the inbound timer, and what a
  completed read hands to the client.
- `client_game_instance.dfy` (ClientGameInstance) is the client's view of a
  game: the output string redrawn from each update.

Inputs the core does not compute are parameters of the model:

- a maze file is its text, or `None` when it cannot be opened;
- a directory is the list of its entries;
- an error code is an `ErrorCode` value;
- an operating-system error text is a `description` string;
- a received batch is a `seq<Message>`;
- `MAZE_MIN_SIZE`/`MAZE_MAX_SIZE` are the `minSize`/`maxSize` parameters of
  `LoadMaze`. Their values are not in the files this model follows.

Message codes:

- Protocol enumerations are integer codes, since the handlers range-check raw
  values.
- The client code uses three codes that `src/protocol.hh` does not declare:
  error types HANDSHAKE and CLOSED_CONNECTION, and status LOCAL. They take the
  next free values: 6, 7 and 5.
- `message::data` is modelled as a list of strings (`seq<string>`), because
  the `.cc` files index `data[0]` as a string. `src/protocol.hh` declares it
  as a single `std::string`; that header is older than the code that uses it.

Two views of a game update:

- `Protocol.Update` is `protocol::update` as `src/protocol.hh:16-32` declares
  and serializes it: the update number, last move, counts and one coordinate
  list. `Protocol.UpdateRoundTrip` is about that form.
- `ClientGameInstance.ViewUpdate` holds the four coordinate lists that
  `update_output_string` reads from `update_in_`
  (`src/client/client_game_instance.cc:115-134`): opened gates, keys, players
  and guardians. The protocol header does not declare these lists, so their
  serialization is not part of this model. The overlay takes them as given.

## Model

| member | source | states |
|---|---|---|
| Board.TruncRem | src/server/mazed_game_player.cc:338 | C++ `%`: the remainder lies strictly between -n and n and has the sign of the dividend; small values are unchanged and n gives 0 |
| Board.SetAt | src/server/mazed_game_player.cc:393 | writing one cell of the grid changes that cell only and keeps the grid's shape |
| Board.StepInGridIff | src/server/mazed_game_player.cc:336-355 | from a cell of the grid, a step stays in the grid unless it is LEFT from column 0 or UP from row 0, when that dimension exceeds 1 |
| Board.StepNeighbour | src/server/mazed_game_player.cc:336-355 | a step that stays in the grid changes one coordinate by one; RIGHT and DOWN from the last column or row wrap to 0 |
| Board.LowEdgeLeavesGrid | src/server/mazed_game_player.cc:338 | LEFT from column 0 gives column -1 (outside the grid) because C++ `%` truncates |
| GameMaze.Maze.constructor | src/server/mazed_game_maze.hh:66-68 | a new maze: all cells EMPTY, no gates, keys or guardians, speed 1000, neither running nor finished, start coordinates zero; the key invariant holds |
| GameMaze.Maze.IsMovePossible | src/server/mazed_game_maze.hh:102-133 | STOP is always possible and other non-directions never are; a direction is possible exactly when the target cell is neither a wall nor a closed gate |
| GameMaze.MoveOntoOpenCells | src/server/mazed_game_maze.hh:130-132 | a move onto an empty, key, target, open-gate or dropped-key cell is always possible |
| PlayersList.Occupancy | src/server/mazed_game_players_list.hh:42-44 | the occupancy is at most the capacity, and zero exactly when every slot is empty |
| PlayersList.OccupancyUpdate | src/server/mazed_game_players_list.hh:112-113 | filling or clearing one slot changes the occupancy by exactly that slot's change |
| PlayersList.LowestFreeUnique | src/server/mazed_game_players_list.hh:43 | the lowest free slot is unique, so `first_empty_` is determined by the slots |
| PlayersList.PlayersList.constructor | src/server/mazed_game_players_list.hh:48-52 | four empty slots, no used slots, the first free slot is 0 |
| PlayersList.PlayersList.Add | src/server/mazed_game_players_list.hh:107-123 | returns the previous lowest free slot; if a slot was free the player goes there and the count grows by one, otherwise nothing changes; the count and the lowest free slot stay exact |
| PlayersList.PlayersList.Remove | src/server/mazed_game_players_list.hh:127-139 | the checked slot is emptied, the count drops by one, the lowest free slot becomes the smaller of the two; the table stays exact |
| PlayersList.PlayersList.RemoveUnchecked | src/server/mazed_game_players_list.hh:141-151 | the release build: the count wraps as an unsigned char, and the table stays exact only when the slot was occupied |
| BasicPlayer.PlayersCounter.constructor | src/basic_player.hh:87 | the class-wide counter starts at its given value |
| BasicPlayer.DefaultNicksDistinct | src/basic_player.hh:42-43 | two default constructions never receive the same nickname |
| BasicPlayer.BasicPlayer.Default | src/basic_player.hh:40-46 | three lives, slot 0, no key; the counter is incremented first and then names the player "player_N" |
| BasicPlayer.BasicPlayer.WithNick | src/basic_player.hh:48-52 | the given nick is kept and the counter still advances |
| BasicPlayer.BasicPlayer.GetNick | src/basic_player.hh:61-64 | returns the nick |
| BasicPlayer.BasicPlayer.SetNick | src/basic_player.hh:66-70 | replaces the nick |
| BasicPlayer.BasicPlayer.GetLifes | src/basic_player.hh:72-75 | returns the lives |
| BasicPlayer.BasicPlayer.DecrLifes | src/basic_player.hh:77-84 | one life fewer, never below zero |
| BasicPlayer.SetThenGetNick | src/basic_player.hh:61-70 | after `set_nick(n)`, `get_nick` returns n |
| GamePlayer.RemoveFirst | src/server/mazed_game_player.cc:396-405 | erasing the first match shortens the list by one when the key is listed and leaves it alone otherwise |
| GamePlayer.RemoveFirstCount | src/server/mazed_game_player.cc:396-405 | the erase takes away exactly one occurrence of the coordinate |
| GamePlayer.FindFirst | src/server/mazed_game_player.cc:398-400 | the linear search finds the first position that holds the coordinate, or the end exactly when there is none |
| GamePlayer.RemoveFirstAt | src/server/mazed_game_player.cc:398-405 | erasing at the found position is erasing the first match |
| GamePlayer.CutPositions | src/server/mazed_game_player.cc:405 | after `erase`, each later element moves down one place |
| GamePlayer.ClearKeyCell | src/server/mazed_game_player.cc:392-405 | clearing a listed key's cell and erasing its entry keeps the key invariant |
| GamePlayer.PickUpOutcome | src/server/mazed_game_player.cc:364-428 | get_key: POSSIBLE exactly when the player faces a direction with a KEY or a dropped key ahead; then the player holds a key, a KEY ahead becomes EMPTY and a GATE_DROPPED_KEY becomes GATE_OPEN, no other cell changes, and exactly one copy of that coordinate leaves the key list; otherwise nothing changes |
| GamePlayer.OpenGateOutcome | src/server/mazed_game_player.cc:431-466 | open_gate: POSSIBLE exactly when facing a closed gate; then the key is used up, that cell becomes GATE_OPEN and no other cell changes; otherwise nothing changes; the key list is never touched |
| GamePlayer.TakeKeyListed | src/server/mazed_game_player.cc:392-424 | clearing a key cell and erasing the first entry for it keeps the key invariant; the cell was listed and no longer is |
| GamePlayer.PickUpKeepsKeysListed | src/server/mazed_game_player.cc:392-424 | taking a key keeps the key invariant; the taken cell was listed and no longer is |
| GamePlayer.OpenGateKeepsKeysListed | src/server/mazed_game_player.cc:431-466 | opening a gate keeps the key invariant |
| GamePlayer.KeyDropped | src/server/mazed_game_player.cc:582-587 | a dropped key always leaves a key on the cell (GATE_DROPPED_KEY on an open gate, else KEY) |
| GamePlayer.Drop | src/server/mazed_game_player.cc:580-593 | kill's drop: the player's cell becomes GATE_DROPPED_KEY on an open gate and KEY otherwise (KeyDropped of its old block), its coordinate is appended to the key list, and no other cell changes |
| GamePlayer.DropKeepsKeysListed | src/server/mazed_game_player.cc:580-593 | dropping a key on a cell without one keeps the key invariant |
| GamePlayer.DropOnKeyCellRepeatsKey | src/server/mazed_game_player.cc:580-590 | dropping a key on a cell that already holds one lists that cell twice, which breaks the key invariant |
| GamePlayer.DropChecked | src/server/mazed_game_player.cc:580-590 | a drop that leaves the list alone exactly when the cell already holds a key; the cell holds a key afterwards and no other cell changes |
| GamePlayer.DropCheckedKeepsKeysListed | src/server/mazed_game_player.cc:580-590 | the checked drop keeps the key invariant for every cell |
| GamePlayer.Intake | src/server/mazed_game_player.cc:229-264 | a finished game ignores commands; while paused only the owner's START_CONTINUE starts the game and other commands replace the buffer; while running only the owner, not yet game over, can PAUSE, and other commands are buffered only into an empty buffer of a live player |
| GamePlayer.Steered | src/server/mazed_game_player.cc:484-534 | a direction moves one cell when possible (POSSIBLE, it becomes the next move, invulnerability ends); when blocked it only turns, POSSIBLE exactly when the facing changes |
| GamePlayer.TookOrOpened | src/server/mazed_game_player.cc:541-548 | TAKE_OPEN changes only the result and the key flag of the player |
| GamePlayer.KeptGoing | src/server/mazed_game_player.cc:556-565 | with no command the player repeats its next move when possible, else stops; POSSIBLE either way |
| GamePlayer.Advance | src/server/mazed_game_player.cc:474-566 | a step empties the buffer and keeps the player in the grid; only TAKE_OPEN touches the grid and the key list; STOP stops the move; START_CONTINUE and PAUSE give NOT_POSSIBLE and change nothing else |
| GamePlayer.AdvanceKeepsKeysListed | src/server/mazed_game_player.cc:470-569 | no game step breaks the key invariant |
| GamePlayer.Player.constructor | src/server/mazed_game_player.cc:36-52 | three lives and no key; the base counter advances; without a nick the player is named "player-" plus the player counter, which then advances; a given nick is kept |
| GamePlayer.Player.SetMaze | src/server/mazed_game_player.cc:81-85 | stores the maze |
| GamePlayer.Player.SetStartCoords | src/server/mazed_game_player.cc:88-94 | both the respawn point and the position become the given cell |
| GamePlayer.Player.GetCoords | src/server/mazed_game_player.cc:97-100 | returns the position |
| GamePlayer.Player.ReceiveCommand | src/server/mazed_game_player.cc:226-270 | the buffer, the last result and the maze's run flag change as Intake says |
| GamePlayer.Player.UpdateCoords | src/server/mazed_game_player.cc:328-361 | one cell in the direction of the move; any move but STOP or NONE ends invulnerability |
| GamePlayer.Player.GetKey | src/server/mazed_game_player.cc:364-428 | the result, key flag, grid and key list are those PickUpOutcome gives |
| GamePlayer.Player.OpenGate | src/server/mazed_game_player.cc:431-466 | the result, key flag and grid are those OpenGateOutcome gives |
| GamePlayer.Player.Steer | src/server/mazed_game_player.cc:484-534 | the player's step fields become those Steered gives |
| GamePlayer.Player.TakeOrOpen | src/server/mazed_game_player.cc:541-548 | without a key, take the key ahead; with one, open the gate ahead; as TookOrOpened |
| GamePlayer.Player.KeepGoing | src/server/mazed_game_player.cc:556-565 | the player's fields become those KeptGoing gives |
| GamePlayer.Player.Update | src/server/mazed_game_player.cc:470-569 | one step as Advance gives; the result is true exactly when the player now stands on the target |
| GamePlayer.Player.DropKey | src/server/mazed_game_player.cc:578-593 | a held key is dropped as Drop gives; afterwards the player holds none |
| GamePlayer.Player.Kill | src/server/mazed_game_player.cc:572-619 | an invulnerable player is untouched; otherwise the key is dropped, one life goes (an unsigned byte), the player respawns while lives remain or else is game over and leaves the count of living players, and it stops; the key invariant survives unless the key was dropped on a key cell |
| MazesManager.GetLine | src/server/mazed_mazes_manager.cc:91-95 | `getline` never reads more than the text holds |
| MazesManager.GetLineSplits | src/server/mazed_mazes_manager.cc:91-95 | a good read splits the text at its first newline; a failed read found no newline |
| MazesManager.GetLineAppend | src/server/mazed_mazes_manager.cc:104-108 | reading a newline-terminated line gives that line back and leaves the rest |
| MazesManager.Split | src/server/mazed_mazes_manager.cc:97 | `boost::split` gives one more token than there are delimiters |
| MazesManager.SplitJoin | src/server/mazed_mazes_manager.cc:97 | joining the tokens with the delimiter gives the line back |
| MazesManager.ParseUlong | src/server/mazed_mazes_manager.cc:116-117 | `stoul(s, nullptr, 0)`: an accepted value is below 2^64 |
| MazesManager.ParseUlongNumeral | src/server/mazed_mazes_manager.cc:116-117 | a decimal numeral without leading zeros reads back as its value |
| MazesManager.ParseUlongDecimal | src/server/mazed_mazes_manager.cc:116-117 | a count written in decimal reads back as that count |
| MazesManager.ReadHeader | src/server/mazed_mazes_manager.cc:91-127 | an accepted header has a first line that splits at '=' into exactly `version` and the version it returns, and the rest is what ReadSize accepts; both sizes are within the limits |
| MazesManager.ReadSize | src/server/mazed_mazes_manager.cc:104-127 | an accepted size line splits at '=', 'x' and 'X' into exactly `size` and two numbers that read as the rows and columns, is followed by one more line, and both sizes are within the limits |
| MazesManager.VersionTokens | src/server/mazed_mazes_manager.cc:97-103 | "version=v" splits into exactly "version" and v |
| MazesManager.SizeTokens | src/server/mazed_mazes_manager.cc:110-114 | "size=RxC" splits into "size" and the two numerals |
| MazesManager.SizeRoundTrip | src/server/mazed_mazes_manager.cc:104-127 | a size line written as "size=RxC" within the limits reads back as those sizes, skipping the separator line |
| MazesManager.HeaderRoundTrip | src/server/mazed_mazes_manager.cc:91-127 | a header written in the documented form reads back with its version and size |
| MazesManager.ReadRows | src/server/mazed_mazes_manager.cc:130-138 | the accepted grid lines give a scheme of rows*cols*2 characters |
| MazesManager.ReadRowsPrefix | src/server/mazed_mazes_manager.cc:130-138 | the scheme is the text's own first characters: the lines are taken as they stand |
| MazesManager.ReadRowsLines | src/server/mazed_mazes_manager.cc:130-138 | line k of the scheme is cols*2 characters long: cols*2-1 characters without a newline, then the newline |
| MazesManager.ReadScheme | src/server/mazed_mazes_manager.cc:130-138 | the line loop returns what ReadRows specifies: it stops at the first short, long or unterminated line |
| MazesManager.Visit | src/server/mazed_mazes_manager.cc:151-206 | one cell character is accepted exactly when it is known; the grid and text keep their shapes |
| MazesManager.VisitText | src/server/mazed_mazes_manager.cc:174-201 | a visit blanks the visited character when it is a start or guardian marker and leaves the rest of the text alone |
| MazesManager.VisitKeys | src/server/mazed_mazes_manager.cc:165-168 | a visit lists a cell exactly when it puts a key there, so the key list stays exact, stays in strictly increasing row-major order, and lies before the next cell |
| MazesManager.VisitGrid | src/server/mazed_mazes_manager.cc:151-206 | a visit sets the block of the visited cell only |
| MazesManager.ScannedText | src/server/mazed_mazes_manager.cc:146-208 | the loop blanks exactly the markers it has passed |
| MazesManager.ScannedSome | src/server/mazed_mazes_manager.cc:146-208 | the loop gets past a cell exactly when every earlier cell holds a known character |
| MazesManager.ScannedGrid | src/server/mazed_mazes_manager.cc:146-208 | each visited cell holds the block its character denotes, and later cells are still EMPTY |
| MazesManager.ScannedKeys | src/server/mazed_mazes_manager.cc:165-168 | the key list built so far satisfies the key invariant, is in strictly increasing row-major order, and lies before the loop's position |
| MazesManager.AppendRowMajor | src/server/mazed_mazes_manager.cc:146-208 | appending a cell after every listed one keeps a list in row-major order |
| MazesManager.CellsOfStep | src/server/mazed_mazes_manager.cc:151-206 | visiting a cell appends it to the gate, key or guardian list exactly when it holds that list's character |
| MazesManager.StartOfStep | src/server/mazed_mazes_manager.cc:174-197 | visiting a cell moves a player's start to it exactly when it holds the player's number |
| MazesManager.VisitLists | src/server/mazed_mazes_manager.cc:151-206 | one visit appends the cell to the gates on '~', to the keys on '*', to the guardians on '@', and sets start k on the digit k+1, changing nothing else in the lists |
| MazesManager.ScannedLists | src/server/mazed_mazes_manager.cc:146-208 | the gates, keys and guardians listed so far are exactly the cells passed holding '~', '*' and '@', each once and in row-major order; each start is the last cell passed holding its number, or (0, 0) |
| MazesManager.VisitCell | src/server/mazed_mazes_manager.cc:151-206 | the switch on one cell does what Visit specifies |
| MazesManager.ScanCells | src/server/mazed_mazes_manager.cc:144-208 | the nested cell loop does what Scanned specifies for the whole grid |
| MazesManager.ReadMazeFile | src/server/mazed_mazes_manager.cc:76-138 | an accepted file has sizes within the limits and a scheme of rows*cols*2 characters |
| MazesManager.LoadMaze | src/server/mazed_mazes_manager.cc:70-222 | null exactly when the file fails to load; otherwise a fresh maze, neither running nor finished, whose grid, gates, keys, guardians, start coordinates and version come from the file, with the key invariant and the shown scheme; the gate, key and guardian lists are exactly the file's '~', '*' and '@' cells in row-major order, and each start is the last cell holding its player's number, or (0, 0) |
| MazesManager.Install | src/server/mazed_mazes_manager.cc:210-212 | the maze receives the loop's findings and the scheme with its last character blanked |
| MazesManager.LoadedGrid | src/server/mazed_mazes_manager.cc:151-172 | a loaded grid holds exactly the blocks its file's cell characters denote |
| MazesManager.LoadedLists | src/server/mazed_mazes_manager.cc:146-208 | a loaded maze's gates, keys and guardians are exactly its file's '~', '*' and '@' cells, each once and in row-major order; each start is the last cell holding its player's number, or (0, 0) |
| MazesManager.LoadsIff | src/server/mazed_mazes_manager.cc:70-222 | a file loads exactly when its text reads and every cell character is known |
| MazesManager.LoadedSchemeText | src/server/mazed_mazes_manager.cc:174-212 | the shown scheme has every marker blanked and ends in a blank instead of the last newline |
| MazesManager.FindFrom | src/server/mazed_mazes_manager.cc:250 | `find` reports a position at or after the start where the extension really occurs |
| MazesManager.FindAtEnd | src/server/mazed_mazes_manager.cc:246-250 | searching from the last place the extension fits is a suffix test |
| MazesManager.Selected | src/server/mazed_mazes_manager.cc:240-255 | a name is kept only when it is the name of a regular file and ends in the extension, and every regular file with one is kept |
| MazesManager.LexLeqTotal | src/server/mazed_mazes_manager.cc:257 | string order is total |
| MazesManager.LexLeqTrans | src/server/mazed_mazes_manager.cc:257 | string order is transitive |
| MazesManager.Insert | src/server/mazed_mazes_manager.cc:257 | insertion adds exactly one element |
| MazesManager.InsertSorted | src/server/mazed_mazes_manager.cc:257 | insertion keeps a list sorted |
| MazesManager.SortNames | src/server/mazed_mazes_manager.cc:257 | sorting is a permutation |
| MazesManager.SortNamesSorted | src/server/mazed_mazes_manager.cc:257 | sorting gives a sorted list |
| MazesManager.ListDirectory | src/server/mazed_mazes_manager.cc:226-264 | the result is sorted and is a permutation of the regular files that end in the extension |
| Text.NatToDecimal | src/client/client_game_instance.cc:145 | `to_string` of a count: at least one digit, digits only |
| Text.IntToDecimal | src/client/client_game_instance.cc:145 | `to_string` of a signed value starts with a minus sign exactly when it is negative; the digits are the decimal form of its magnitude and read back as it |
| Text.DecimalRoundTrip | src/client/client_game_instance.cc:145 | a rendered count reads back as itself |
| Text.NatToDecimalInjective | src/basic_player.hh:43 | distinct counts render differently |
| Text.SkipSpace | src/connection.hh:132 | skipping white space drops only white space and leaves a suffix that does not start with it |
| Text.DigitRun | src/connection.hh:132 | the digit run is the longest prefix of digits in the base |
| Protocol.CtrlCode | src/protocol.hh:92-108 | each control subtype's code is below E_CTRL_TYPE_SIZE and indexes that subtype |
| Protocol.CtrlOf | src/protocol.hh:92-108 | a code names a control subtype exactly when it is below 13, and it is the inverse of CtrlCode |
| Protocol.CtrlTypeCount | src/protocol.hh:92-108 | there are exactly 13 distinct control subtypes and no others |
| Protocol.ReadStrings | src/protocol.hh:176 | a decoded string list is exactly the fields that writing it gives, followed by the rest |
| Protocol.StrItemsRoundTrip | src/protocol.hh:176 | saved string items load back unchanged, leaving what follows |
| Protocol.StringsRoundTrip | src/protocol.hh:176 | a saved string list loads back unchanged |
| Protocol.EncodeMessage | src/protocol.hh:153-177 | a message saves exactly when its kind is CTRL, INFO or ERROR |
| Protocol.DecodeMessage | src/protocol.hh:153-177 | a loaded message has a known kind |
| Protocol.MessageRoundTrip | src/protocol.hh:153-177 | loading a saved message restores every field and leaves what follows |
| Protocol.MessageDecodeCanonical | src/protocol.hh:153-177 | a successful load read exactly the fields that saving the loaded message writes |
| Protocol.EncodeBatch | src/protocol.hh:140-178 | a batch saves exactly when every message in it does |
| Protocol.ItemsRoundTrip | src/protocol.hh:140-178 | the saved items of a batch load back in order |
| Protocol.BatchRoundTrip | src/protocol.hh:140-178 | a saved batch loads back as the same messages, in order, with nothing added |
| Protocol.CommandRoundTrip | src/protocol.hh:46-55 | a saved command loads back unchanged |
| Protocol.PairItemsRoundTrip | src/protocol.hh:22 | saved coordinate pairs load back unchanged |
| Protocol.UpdateRoundTrip | src/protocol.hh:16-32 | a saved update loads back unchanged |
| Protocol.GameInfoRoundTrip | src/protocol.hh:66-82 | a saved game description loads back unchanged |
| Connection.HexDigit | src/connection.hh:77 | a lowercase hexadecimal digit reads back as its value |
| Connection.NatToHex | src/connection.hh:77 | `<< hex` writes lowercase hexadecimal digits with no leading zero |
| Connection.HexLength | src/connection.hh:77-79 | the hexadecimal form has at most k digits exactly when the number is below 16^k |
| Connection.HexValue | src/connection.hh:77 | the hexadecimal form reads back as the number |
| Connection.FormatHeader | src/connection.hh:77 | `setw(8)` right-aligns the hexadecimal length in spaces and does not cut a longer one |
| Connection.HeaderFits | src/connection.hh:79 | the header is 8 characters long exactly when the payload is shorter than 2^32 |
| Connection.ExtractHex | src/connection.hh:129-132 | after white space and an optional sign, extraction fails exactly when the magnitude scan reads no digit or a value of 2^64 or more; otherwise it gives that value, or its negation modulo 2^64 after a minus sign |
| Connection.HexPrefix | src/connection.hh:132 | the prefix scan consumes nothing, a lone leading '0' (kept as a digit seen), or one "0x"/"0X" and no more |
| Connection.DoublePrefixReadsZero | src/connection.hh:132 | "0x0x5" extracts as 0: the prefix is skipped once, and the second zero is the only digit read |
| Connection.HexMagnitudeRoundTrip | src/connection.hh:132 | a hexadecimal form reads back, through the prefix and digit scan, as its number |
| Connection.ExtractUnsigned | src/connection.hh:132 | text that starts, after white space, with an unsigned hexadecimal number below 2^64 extracts as that number |
| Connection.HeaderRoundTrip | src/connection.hh:77-87 | a header written for a payload shorter than 2^32 is 8 characters long and reads back as the payload length |
| Connection.NoDigitFails | src/connection.hh:132-137 | without a hexadecimal digit after the white space and sign, extraction fails |
| Connection.BarePrefixFails | src/connection.hh:132-137 | a bare "0x" makes extraction fail |
| Connection.NegativeHeaderWraps | src/connection.hh:132 | a header "-1" is accepted and wraps to 2^64-1 |
| Connection.Resized | src/connection.hh:140 | `resize` keeps the common prefix and pads with NUL |
| Connection.FrameRoundTrip | src/connection.hh:87-93 | a frame's first 8 characters read back as the payload length and the rest is the payload |
| Connection.TcpConnection.constructor | src/connection.hh:46-53 | an 8-character inbound header buffer and empty data buffers |
| Connection.TcpConnection.AsyncWrite | src/connection.hh:66-96 | the payload is kept; the write is refused exactly when the header would exceed 8 characters; otherwise header and payload are sent as one frame |
| Connection.TcpConnection.HandleReadHeader | src/connection.hh:122-150 | an error is passed on; a header that does not extract gives invalid_argument; otherwise the data buffer is resized to the length and the payload read follows |
| Connection.TcpConnection.HandleReadData | src/connection.hh:157-180 | an error is passed on; otherwise the text is decoded, and success is reported exactly when it decodes |
| ClHandler.Classify | src/server/mazed_cl_handler.cc:225-268 | delivered exactly on success with one message (that message); refused on success with EMPTY_MESSAGE exactly for an empty batch and with MULTIPLE_MESSAGES for a batch of more than one; closed exactly on an error |
| ClHandler.ReplyCases | src/server/mazed_cl_handler.cc:80-109 | an unexpected message is answered with WRONG_PROTOCOL; an unimplemented control request leaves the reply unchanged; anything else is acknowledged with its own kind and subtype |
| ClHandler.ReplyIgnoresPrevious | src/server/mazed_cl_handler.cc:80-109 | apart from unimplemented requests, the reply depends on the inbound message only, and it is never a NACK or a control message |
| ClHandler.ClientHandler.constructor | src/server/mazed_cl_handler.cc:14-35 | the handler runs, nothing is sent, and both messages start as the zero message |
| ClHandler.ClientHandler.MessagePrepare | src/server/mazed_cl_handler.cc:481-515 | the outbound message gets the kind, subtype and status, with one empty data item |
| ClHandler.ClientHandler.AsyncSend | src/server/mazed_cl_handler.cc:346-357 | the message is appended to what was sent |
| ClHandler.ClientHandler.Terminate | src/server/mazed_cl_handler.cc:124-134 | the handler stops running |
| ClHandler.ClientHandler.HandshakeSuccess | src/server/mazed_cl_handler.cc:138-167 | succeeds exactly when running and the first message is CTRL/SYN/QUERY, preparing CTRL/SYN/ACK; otherwise sends CTRL/SYN/NACK and WRONG_PROTOCOL and fails |
| ClHandler.ClientHandler.SynHandler | src/server/mazed_cl_handler.cc:372-377 | a second SYN is answered with WRONG_PROTOCOL |
| ClHandler.ClientHandler.ErrorMessageHandler | src/server/mazed_cl_handler.cc:439-477 | the error types a client may report are acknowledged; others are answered with WRONG_PROTOCOL |
| ClHandler.ClientHandler.CtrlHandler | src/server/mazed_cl_handler.cc:372-437 | SYN is refused and the other control handlers change nothing |
| ClHandler.ClientHandler.Route | src/server/mazed_cl_handler.cc:80-109 | one pass of the switch leaves the reply that ReplyCases characterizes |
| ClHandler.ClientHandler.ReceiveHandler | src/server/mazed_cl_handler.cc:225-268 | an error terminates the handler; an empty or multiple batch is answered and not forwarded; a single message becomes the inbound message |
| ClientConnections.SetFirst | src/client/client_connections.cc:132 | `data[0] = text` on data that holds an item: that item is replaced and the others are kept |
| ClientConnections.Reserved | src/client/client_connections.cc:54 | `reserve` leaves the items as they are |
| ClientConnections.ReserveLeavesNoFirstItem | src/client/client_connections.cc:54 | data that was empty is still empty after reserving room for one item |
| ClientConnections.ErrorText | src/client/client_connections.cc:132 | the first item becomes the text, created when missing; on non-empty data this agrees with SetFirst |
| ClientConnections.ErrorTextKeepsRest | src/client/client_connections.cc:132 | the items after the first are kept |
| ClientConnections.LocalError | src/client/client_connections.cc:128-133 | a local event gives an ERROR message with status LOCAL, the event's type, and the text as first item |
| ClientConnections.ReceiveOutcome | src/client/client_connections.cc:346-388 | one message read without an error is forwarded unchanged; otherwise eof gives CLOSED_CONNECTION, operation_aborted gives TIMEOUT, other errors give UNKNOWN_ERROR with the error text, an empty batch gives EMPTY_MESSAGE and a multiple batch gives MULTIPLE_MESSAGES, all LOCAL |
| ClientConnections.LocalMarksClientEvents | src/client/client_connections.cc:346-388 | if the server never sends status LOCAL, the client's message is LOCAL exactly when the read did not deliver a message |
| ClientConnections.ReceiveAgreesWithServer | src/client/client_connections.cc:373-388 | the client delivers and refuses batches exactly as the server's handler does, and a failed read becomes one of the three connection errors |
| ClientConnections.ReceiveKeepsLaterItems | src/client/client_connections.cc:350-385 | a local event keeps the data items after the first |
| ClientConnections.TimerOutcome | src/client/client_connections.cc:201-241 | a cancelled wait reports nothing; an expiry reports TIMEOUT; any other error reports UNKNOWN_ERROR with the error text; all LOCAL |
| ClientConnections.TimeoutsShareType | src/client/client_connections.cc:211-217 | an expired timer and an aborted read both report TIMEOUT, with different texts |
| ClientConnections.TcpConnection.constructor | src/client/client_connections.cc:39-62 | the handshake request is CTRL/SYN/QUERY, the heartbeat is INFO/HELLO/UPDATE, and the client's message keeps its data |
| ClientConnections.TcpConnection.Notify | src/client/client_connections.cc:126-139 | the client's message becomes the local error and the client is signalled |
| ClientConnections.TcpConnection.StartTimeoutInTimer | src/client/client_connections.cc:181-186 | the inbound deadline moves to infinity and a handler waits on it |
| ClientConnections.TcpConnection.TimeoutInSet | src/client/client_connections.cc:188-192 | the inbound deadline is MAX_PING milliseconds away |
| ClientConnections.TcpConnection.TimeoutInStop | src/client/client_connections.cc:195-199 | the inbound deadline moves to infinity |
| ClientConnections.TcpConnection.HandshakeSendHandler | src/client/client_connections.cc:124-147 | a failed send is reported as a HANDSHAKE error; otherwise the deadline is armed and the reply is awaited |
| ClientConnections.TcpConnection.HandshakeReceiveHandler | src/client/client_connections.cc:154-178 | the deadline is stopped; a failed read is reported as a HANDSHAKE error; any completed read starts the loops without looking at the reply |
| ClientConnections.TcpConnection.AsioLoopsStart | src/client/client_connections.cc:399-404 | the receive loop starts |
| ClientConnections.TcpConnection.TimeoutInHandler | src/client/client_connections.cc:201-241 | a cancelled wait waits again and tells the client nothing; an expiry or other error is reported as TimerOutcome gives |
| ClientConnections.TcpConnection.AsyncReceiveHandler | src/client/client_connections.cc:346-397 | the client's message becomes ReceiveOutcome; the client is always signalled and the next read is requested |
| ClientGameInstance.SignedChar | src/client/client_game_instance.cc:32-33 | `static_cast<signed char>` gives a value in [-128, 128) congruent modulo 256, unchanged when already in range |
| ClientGameInstance.LastHit | src/client/client_game_instance.cc:115-136 | the last entry landing on an index, or -1 when none does |
| ClientGameInstance.StampedAt | src/client/client_game_instance.cc:115-121 | a stamped index holds the stamp exactly when some coordinate lands on it; other indices keep the original |
| ClientGameInstance.PlayersAt | src/client/client_game_instance.cc:123-132 | an index holds the number of the last player landing on it, counting skipped entries too |
| ClientGameInstance.OverlayAt | src/client/client_game_instance.cc:108-139 | layer order: a guardian wins over a player, a player over a key, a key over an opened gate; an untouched index keeps the scheme |
| ClientGameInstance.SkippedPlayerKeepsNumbering | src/client/client_game_instance.cc:123-132 | a player entry off the grid draws nothing, yet the next player is still drawn as '2' |
| ClientGameInstance.GameInstance.constructor | src/client/client_game_instance.cc:26-39 | the scheme is kept and shown; rows and columns are narrowed to signed char |
| ClientGameInstance.GameInstance.UpdateOutputString | src/client/client_game_instance.cc:108-139 | the output string becomes the scheme with gates, keys, players and guardians stamped as Overlay gives |
| ClientGameInstance.GameInstance.GetRows | src/client/client_game_instance.cc:143-146 | the row count in decimal, with a minus sign when negative |
| ClientGameInstance.GameInstance.GetCols | src/client/client_game_instance.cc:149-152 | twice the column count in decimal, with a minus sign when negative |

## Left out

- Threads, mutexes, condition variables and the asio event loop are not modelled. Each handler is one atomic step on the object's state.
- Lock misuse is not modelled. `kill` locks the player's mutex twice instead of unlocking it (src/server/mazed_game_player.cc:595,613). The client's `async_send` locks its output mutex twice (src/client/client_connections.cc:292,298).
- The outbound heartbeat timer is not modelled: `timeout_out_handler`, `async_send` and `async_send_handler` of src/client/client_connections.cc. `timeout_out_handler` also re-arms the inbound timer (src/client/client_connections.cc:261,268).
- The per-cell player lists of `game::block` (add_player/remove_player) are not modelled. The grid holds only the cell kind.
- Guardians, the game instance, the server and the main programs are not part of this model.
- `udp_connection` in src/connection.hh is not part of this model.
- The Boost text archive is abstract. A value is written as a list of integer and string fields. Integer widths of the archived fields (unsigned char, long long) are not checked.
- Protocol.EncodeMessage: a message of unknown kind gives None, which models the assertion in `serialize`. The release build, where the assertion is compiled out and only status and data are written, is not modelled.
- Protocol.DecodeMessage: the subtype is not range-checked against its enumeration, because the code does not check it either. The handlers do.
- ClHandler.ClientHandler.constructor: the source leaves the messages' fields uninitialized. The model starts them as the zero message.
- ClHandler.ClientHandler.MessagePrepare: `data` is modelled as a list. The prepared text is stored as its single item.
- Connection.ErrorCode: the operating system's error categories are folded into five cases. asio's `operation_aborted` and `errc::operation_canceled` are the same value, `OperationAborted`.
- Connection.TcpConnection.HandleReadHeader: resizing the buffer to a wrapped negative length (near 2^64) is modelled as an ordinary resize. The allocation failure it would cause is not modelled.
- Connection.TcpConnection: the socket transfers are the caller's. A read is modelled as the buffer contents it leaves.
- MazesManager: the file system is not modelled. A file is its text, and a directory is its list of entries. Exceptions thrown by `current_path` give the same NULL or empty result as an unreadable file.
- MazesManager.LoadMaze requires `maxSize <= 127`, so that the size fits the signed char the maze stores. MAZE_MIN_SIZE and MAZE_MAX_SIZE are parameters because their values are not in the files this model follows.
- ClientGameInstance.GameInstance.constructor: the rows and columns arrive as strings parsed with `std::stoi`. The parsed values are given, and the parsing errors are not modelled.
- Several members require the grid index they use to be in range: GameMaze.Maze.IsMovePossible, GamePlayer.Player.Update, GetKey, OpenGate, UpdateCoords, Steer, TakeOrOpen and KeepGoing. The source indexes the grid there without a check, so an index of -1 (Board.LowEdgeLeavesGrid) is undefined behaviour and is not modelled.
- ClientGameInstance.GameInstance.UpdateOutputString requires every drawn index to be inside the scheme. The source writes out of range otherwise.
- GamePlayer.Player.Kill requires the lives to fit an unsigned char. It states the key invariant only when the dropped key does not land on a key cell (GamePlayer.DropOnKeyCellRepeatsKey shows the other case). Kill drops the key as the source does (Drop), not through the corrected GamePlayer.DropChecked of the Findings table, so that the model keeps the source's behaviour.
- GamePlayer.Advance states the grid and key list changes for TAKE_OPEN through TookOrOpened, PickUpOutcome and OpenGateOutcome, not in its own ensures.
- ClientConnections.LocalError writes its text as the first data item through the corrected ErrorText, which creates that item when the data is empty. The source assigns `data[0]`, which is out of range on empty data (see Findings). On data that holds an item the two agree (ErrorText equals SetFirst there).
- ClientConnections.ReceiveOutcome uses LocalError, so it writes the error text through the corrected ErrorText, not the source's out-of-range `data[0]` on empty data.
- ClientConnections.TimerOutcome uses LocalError, so it writes the error text through the corrected ErrorText, not the source's out-of-range `data[0]` on empty data.
- ClientConnections.TcpConnection.Notify uses LocalError, so it writes the error text through the corrected ErrorText, not the source's out-of-range `data[0]` on empty data.
- ClientConnections.TcpConnection.HandshakeSendHandler uses LocalError, so it writes the error text through the corrected ErrorText, not the source's out-of-range `data[0]` on empty data.
- ClientConnections.TcpConnection.HandshakeReceiveHandler uses LocalError, so it writes the error text through the corrected ErrorText, not the source's out-of-range `data[0]` on empty data.
- ClientConnections.TcpConnection.TimeoutInHandler uses LocalError, so it writes the error text through the corrected ErrorText, not the source's out-of-range `data[0]` on empty data.
- ClientConnections.TcpConnection.AsyncReceiveHandler uses LocalError, so it writes the error text through the corrected ErrorText, not the source's out-of-range `data[0]` on empty data.
- ClientGameInstance.ViewUpdate: how the four lists travel over the wire is not modelled, because `src/protocol.hh` declares an update with one coordinate list.
- ClientConnections.TcpConnection: `message_in_` refers to the client's message storage. The model holds that message as a field, so aliasing with the client is not modelled.
- ClientConnections: the client's messages_out_ vector is modelled as its first slot, the handshake request.
- The text of an operating-system error is the `description` parameter.
- Header files that disagree with their .cc files (client_connection.hh, client_connections.hh, mazed_game_player.hh) are not followed; the .cc files are.

## Findings

| source | as written | input that shows it | evidently intended | confidence | as-written member | corrected member |
|---|---|---|---|---|---|---|
| src/client/client_connections.cc:54 | `message_in_.data.reserve(1)` only reserves capacity. The error paths then assign `message_in_.data[0]` (lines 132, 164, 217, 232, 357, 362, 367, 379, 383), which indexes an empty vector. | A client message storage whose `data` is empty, followed by any local event, such as a read that ends with eof | The comment at line 53 asks for room for the error text, so `data[0]` should exist before it is written, for example through `resize(1)` | not executed; high for the constructor path, medium overall because the client's headers do not match its .cc files | ClientConnections.SetFirst, ClientConnections.ReserveLeavesNoFirstItem | ClientConnections.ErrorText |
| src/server/mazed_game_player.cc:580-590 | `kill` sets the player's cell to KEY (or GATE_DROPPED_KEY) and appends the cell to `keys_` without looking at what the cell held | A player holding a key who stands on a KEY cell (moves only stop at walls and closed gates) and is killed: that cell is listed twice | The key list names each key cell once, as `load_maze` builds it and as taking a key (which removes one entry) assumes | not executed; medium, because where the second key should go is not evident | GamePlayer.DropOnKeyCellRepeatsKey | GamePlayer.DropCheckedKeepsKeysListed |
