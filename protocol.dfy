/**
 * The messages exchanged between client and server and the order in which
 * their fields are archived. The archive itself is abstract here: a value is
 * written as a sequence of integer and string fields, enumerations as their
 * integer codes, a vector as its length followed by its items, a pair as its
 * first then its second member.
 */
module Protocol {
  import opened Wrappers

  // Message kinds (E_type).
  const CTRL: int := 0
  const INFO: int := 1
  const ERROR: int := 2

  // Control subtypes (E_ctrl_type) used by name elsewhere; the full list is CtrlType below.
  const SYN: int := 0
  const E_CTRL_TYPE_SIZE: int := 13

  // Information subtypes (E_info_type).
  const HELLO: int := 0
  const E_INFO_TYPE_SIZE: int := 10

  // Error subtypes (E_error_type); HANDSHAKE and CLOSED_CONNECTION are the two
  // values the client code adds after UNKNOWN_ERROR.
  const WRONG_PROTOCOL: int := 0
  const EMPTY_MESSAGE: int := 1
  const MULTIPLE_MESSAGES: int := 2
  const TIMEOUT: int := 3
  const ALREADY_PLAYED: int := 4
  const UNKNOWN_ERROR: int := 5
  const HANDSHAKE: int := 6
  const CLOSED_CONNECTION: int := 7

  // Statuses (E_status); LOCAL marks a message made up by the client itself.
  const ACK: int := 0
  const NACK: int := 1
  const QUERY: int := 2
  const UPDATE: int := 3
  const SET: int := 4
  const LOCAL: int := 5

  /** The control subtypes in declaration order; a handler table is indexed by their codes. */
  datatype CtrlType =
    | Syn | Fin | LoginOrCreateUser | SetNick | ListSaves | ListGames | CreateGame
    | LoadGame | SaveGame | JoinGame | LeaveGame | RestartGame | TerminateGame

  const CtrlTypes: seq<CtrlType> :=
    [Syn, Fin, LoginOrCreateUser, SetNick, ListSaves, ListGames, CreateGame,
     LoadGame, SaveGame, JoinGame, LeaveGame, RestartGame, TerminateGame]

  /** The integer code of a control subtype: its position in the declaration. */
  function CtrlCode(t: CtrlType): (n: int)
    ensures 0 <= n < E_CTRL_TYPE_SIZE && CtrlTypes[n] == t
  {
    match t
    case Syn => 0
    case Fin => 1
    case LoginOrCreateUser => 2
    case SetNick => 3
    case ListSaves => 4
    case ListGames => 5
    case CreateGame => 6
    case LoadGame => 7
    case SaveGame => 8
    case JoinGame => 9
    case LeaveGame => 10
    case RestartGame => 11
    case TerminateGame => 12
  }

  /** The control subtype with code `n`, if `n` is below E_CTRL_TYPE_SIZE. */
  function CtrlOf(n: int): (r: Option<CtrlType>)
    ensures r.Some? <==> 0 <= n < E_CTRL_TYPE_SIZE
    ensures r.Some? ==> CtrlCode(r.value) == n
  {
    if 0 <= n < |CtrlTypes| then Some(CtrlTypes[n]) else None
  }

  /** E_CTRL_TYPE_SIZE counts the control subtypes: exactly 13 distinct ones, no more. */
  lemma CtrlTypeCount()
    ensures |CtrlTypes| == E_CTRL_TYPE_SIZE
    ensures forall i, j :: 0 <= i < j < |CtrlTypes| ==> CtrlTypes[i] != CtrlTypes[j]
    ensures forall t: CtrlType :: t in CtrlTypes
  {
    forall t: CtrlType ensures t in CtrlTypes {
      assert CtrlTypes[CtrlCode(t)] == t;
    }
  }

  /** A message: its kind, the one subtype that kind selects, a status and string data. */
  datatype Message = Message(kind: int, subtype: int, status: int, data: seq<string>)

  /** Game commands sent by a player (command). */
  datatype Command = Command(playerNum: int, cmd: int)

  /** A game state update (update). */
  datatype Update = Update(updateNum: int, lastMove: int, playersCount: int, guardiansCount: int, coords: seq<(int, int)>)

  /** The description of a game in a listing (game_info). */
  datatype GameInfo = GameInfo(usedSlots: int, status: int, uid: string, mazeName: string, players: seq<string>)

  /** One archived field. */
  datatype Field = IntField(value: int) | StrField(text: string)

  predicate KnownKind(kind: int) {
    kind == CTRL || kind == INFO || kind == ERROR
  }

  function ReadInt(fs: seq<Field>): (r: Option<(int, seq<Field>)>)
    ensures r.Some? ==> fs == [IntField(r.value.0)] + r.value.1
  {
    if fs != [] && fs[0].IntField? then Some((fs[0].value, fs[1..])) else None
  }

  function ReadStr(fs: seq<Field>): (r: Option<(string, seq<Field>)>)
    ensures r.Some? ==> fs == [StrField(r.value.0)] + r.value.1
  {
    if fs != [] && fs[0].StrField? then Some((fs[0].text, fs[1..])) else None
  }

  function StrItems(ss: seq<string>): (fs: seq<Field>)
    ensures |fs| == |ss|
  {
    if ss == [] then [] else [StrField(ss[0])] + StrItems(ss[1..])
  }

  /** A vector of strings: its length, then its items. */
  function WriteStrings(ss: seq<string>): seq<Field> {
    [IntField(|ss|)] + StrItems(ss)
  }

  function ReadStrItems(fs: seq<Field>, n: nat): (r: Option<(seq<string>, seq<Field>)>)
    ensures r.Some? ==> |r.value.0| == n && fs == StrItems(r.value.0) + r.value.1
    decreases n
  {
    if n == 0 then Some(([], fs))
    else
      var head := ReadStr(fs);
      if head.None? then None
      else
        var tail := ReadStrItems(head.value.1, n - 1);
        if tail.None? then None else Some(([head.value.0] + tail.value.0, tail.value.1))
  }

  function ReadStrings(fs: seq<Field>): (r: Option<(seq<string>, seq<Field>)>)
    ensures r.Some? ==> fs == WriteStrings(r.value.0) + r.value.1
  {
    match ReadInt(fs)
    case None => None
    case Some((n, rest)) => if n < 0 then None else ReadStrItems(rest, n)
  }

  lemma {:induction false} StrItemsRoundTrip(ss: seq<string>, rest: seq<Field>)
    ensures ReadStrItems(StrItems(ss) + rest, |ss|) == Some((ss, rest))
  {
    if ss != [] {
      var tail := StrItems(ss[1..]) + rest;
      assert StrItems(ss) + rest == [StrField(ss[0])] + tail;
      assert ReadStr(StrItems(ss) + rest) == Some((ss[0], tail));
      StrItemsRoundTrip(ss[1..], rest);
      assert [ss[0]] + ss[1..] == ss;
    } else {
      assert StrItems(ss) + rest == rest;
    }
  }

  lemma StringsRoundTrip(ss: seq<string>, rest: seq<Field>)
    ensures ReadStrings(WriteStrings(ss) + rest) == Some((ss, rest))
  {
    assert WriteStrings(ss) + rest == [IntField(|ss|)] + (StrItems(ss) + rest);
    StrItemsRoundTrip(ss, rest);
  }

  /**
   * message::serialize: the kind, the subtype of that kind, the status and the
   * data. A kind other than CTRL, INFO or ERROR stops at the assertion.
   */
  function EncodeMessage(m: Message): (r: Option<seq<Field>>)
    ensures r.Some? <==> KnownKind(m.kind)
  {
    if KnownKind(m.kind) then Some([IntField(m.kind), IntField(m.subtype), IntField(m.status)] + WriteStrings(m.data))
    else None
  }

  /** The loading direction of message::serialize; what follows the message is returned. */
  function DecodeMessage(fs: seq<Field>): (r: Option<(Message, seq<Field>)>)
    ensures r.Some? ==> KnownKind(r.value.0.kind)
  {
    match ReadInt(fs)
    case None => None
    case Some((kind, r1)) =>
      if !KnownKind(kind) then None
      else match ReadInt(r1)
        case None => None
        case Some((subtype, r2)) =>
          match ReadInt(r2)
          case None => None
          case Some((status, r3)) =>
            match ReadStrings(r3)
            case None => None
            case Some((data, r4)) => Some((Message(kind, subtype, status, data), r4))
  }

  /** Loading what was saved restores every field and leaves what follows untouched. */
  lemma MessageRoundTrip(m: Message, rest: seq<Field>)
    requires KnownKind(m.kind)
    ensures DecodeMessage(EncodeMessage(m).value + rest) == Some((m, rest))
  {
    var fs := EncodeMessage(m).value + rest;
    assert fs == [IntField(m.kind)] + ([IntField(m.subtype)] + ([IntField(m.status)] + (WriteStrings(m.data) + rest)));
    StringsRoundTrip(m.data, rest);
  }

  /** A successful load read exactly the fields that saving the loaded message writes. */
  lemma MessageDecodeCanonical(fs: seq<Field>)
    requires DecodeMessage(fs).Some?
    ensures EncodeMessage(DecodeMessage(fs).value.0).Some?
    ensures fs == EncodeMessage(DecodeMessage(fs).value.0).value + DecodeMessage(fs).value.1
  {
    var (kind, r1) := ReadInt(fs).value;
    var (subtype, r2) := ReadInt(r1).value;
    var (status, r3) := ReadInt(r2).value;
    var (data, r4) := ReadStrings(r3).value;
    assert DecodeMessage(fs) == Some((Message(kind, subtype, status, data), r4));
    assert fs == [IntField(kind)] + ([IntField(subtype)] + ([IntField(status)] + (WriteStrings(data) + r4)));
  }

  /** A batch of messages (std::vector<message>): its length, then each message. */
  function EncodeBatch(ms: seq<Message>): (r: Option<seq<Field>>)
    ensures r.Some? <==> forall i :: 0 <= i < |ms| ==> KnownKind(ms[i].kind)
  {
    var items := EncodeItems(ms);
    if items.Some? then Some([IntField(|ms|)] + items.value) else None
  }

  function EncodeItems(ms: seq<Message>): (r: Option<seq<Field>>)
    ensures r.Some? <==> forall i :: 0 <= i < |ms| ==> KnownKind(ms[i].kind)
  {
    if ms == [] then Some([])
    else
      var head := EncodeMessage(ms[0]);
      var tail := EncodeItems(ms[1..]);
      assert forall i :: 1 <= i < |ms| ==> ms[i] == ms[1..][i - 1];
      if head.Some? && tail.Some? then Some(head.value + tail.value) else None
  }

  function DecodeItems(fs: seq<Field>, n: nat): Option<(seq<Message>, seq<Field>)>
    decreases n
  {
    if n == 0 then Some(([], fs))
    else
      var head := DecodeMessage(fs);
      if head.None? then None
      else
        var tail := DecodeItems(head.value.1, n - 1);
        if tail.None? then None else Some(([head.value.0] + tail.value.0, tail.value.1))
  }

  function DecodeBatch(fs: seq<Field>): Option<(seq<Message>, seq<Field>)> {
    match ReadInt(fs)
    case None => None
    case Some((n, rest)) => if n < 0 then None else DecodeItems(rest, n)
  }

  lemma {:induction false} ItemsRoundTrip(ms: seq<Message>, rest: seq<Field>)
    requires EncodeItems(ms).Some?
    ensures DecodeItems(EncodeItems(ms).value + rest, |ms|) == Some((ms, rest))
  {
    if ms != [] {
      var head := EncodeMessage(ms[0]).value;
      var tail := EncodeItems(ms[1..]).value;
      assert EncodeItems(ms).value + rest == head + (tail + rest);
      MessageRoundTrip(ms[0], tail + rest);
      assert DecodeMessage(EncodeItems(ms).value + rest) == Some((ms[0], tail + rest));
      ItemsRoundTrip(ms[1..], rest);
      assert [ms[0]] + ms[1..] == ms;
    } else {
      assert EncodeItems(ms).value + rest == rest;
    }
  }

  /** Loading a saved batch gives back the same messages, in order and with nothing added. */
  lemma BatchRoundTrip(ms: seq<Message>, rest: seq<Field>)
    requires EncodeBatch(ms).Some?
    ensures DecodeBatch(EncodeBatch(ms).value + rest) == Some((ms, rest))
  {
    assert EncodeBatch(ms).value + rest == [IntField(|ms|)] + (EncodeItems(ms).value + rest);
    ItemsRoundTrip(ms, rest);
  }

  /** command::serialize: player_num, then cmd. */
  function EncodeCommand(c: Command): seq<Field> {
    [IntField(c.playerNum), IntField(c.cmd)]
  }

  function DecodeCommand(fs: seq<Field>): Option<(Command, seq<Field>)> {
    match ReadInt(fs)
    case None => None
    case Some((p, r1)) =>
      match ReadInt(r1)
      case None => None
      case Some((c, r2)) => Some((Command(p, c), r2))
  }

  lemma CommandRoundTrip(c: Command, rest: seq<Field>)
    ensures DecodeCommand(EncodeCommand(c) + rest) == Some((c, rest))
  {
    assert EncodeCommand(c) + rest == [IntField(c.playerNum)] + ([IntField(c.cmd)] + rest);
  }

  function PairItems(ps: seq<(int, int)>): (fs: seq<Field>)
    ensures |fs| == 2 * |ps|
  {
    if ps == [] then [] else [IntField(ps[0].0), IntField(ps[0].1)] + PairItems(ps[1..])
  }

  function ReadPairItems(fs: seq<Field>, n: nat): Option<(seq<(int, int)>, seq<Field>)>
    decreases n
  {
    if n == 0 then Some(([], fs))
    else if |fs| < 2 || !(fs[0].IntField? && fs[1].IntField?) then None
    else
      var tail := ReadPairItems(fs[2..], n - 1);
      if tail.None? then None else Some(([(fs[0].value, fs[1].value)] + tail.value.0, tail.value.1))
  }

  lemma {:induction false} PairItemsRoundTrip(ps: seq<(int, int)>, rest: seq<Field>)
    ensures ReadPairItems(PairItems(ps) + rest, |ps|) == Some((ps, rest))
  {
    if ps != [] {
      var tail := PairItems(ps[1..]) + rest;
      assert PairItems(ps) + rest == [IntField(ps[0].0)] + ([IntField(ps[0].1)] + tail);
      assert (PairItems(ps) + rest)[2..] == tail;
      PairItemsRoundTrip(ps[1..], rest);
      assert [ps[0]] + ps[1..] == ps;
    } else {
      assert PairItems(ps) + rest == rest;
    }
  }

  /** update::serialize: update_num, last_move, players_count, guardians_count, coords. */
  function EncodeUpdate(u: Update): seq<Field> {
    [IntField(u.updateNum), IntField(u.lastMove), IntField(u.playersCount), IntField(u.guardiansCount), IntField(|u.coords|)]
      + PairItems(u.coords)
  }

  function DecodeUpdate(fs: seq<Field>): Option<(Update, seq<Field>)> {
    if |fs| < 5 || !(fs[0].IntField? && fs[1].IntField? && fs[2].IntField? && fs[3].IntField? && fs[4].IntField?) then None
    else if fs[4].value < 0 then None
    else match ReadPairItems(fs[5..], fs[4].value)
      case None => None
      case Some((coords, rest)) =>
        Some((Update(fs[0].value, fs[1].value, fs[2].value, fs[3].value, coords), rest))
  }

  lemma UpdateRoundTrip(u: Update, rest: seq<Field>)
    ensures DecodeUpdate(EncodeUpdate(u) + rest) == Some((u, rest))
  {
    var fs := EncodeUpdate(u) + rest;
    assert fs[5..] == PairItems(u.coords) + rest;
    PairItemsRoundTrip(u.coords, rest);
  }

  /** game_info::serialize: used_slots, status, UID, maze_name, players. */
  function EncodeGameInfo(g: GameInfo): seq<Field> {
    [IntField(g.usedSlots), IntField(g.status), StrField(g.uid), StrField(g.mazeName)] + WriteStrings(g.players)
  }

  function DecodeGameInfo(fs: seq<Field>): Option<(GameInfo, seq<Field>)> {
    if |fs| < 4 || !(fs[0].IntField? && fs[1].IntField? && fs[2].StrField? && fs[3].StrField?) then None
    else match ReadStrings(fs[4..])
      case None => None
      case Some((players, rest)) =>
        Some((GameInfo(fs[0].value, fs[1].value, fs[2].text, fs[3].text, players), rest))
  }

  lemma GameInfoRoundTrip(g: GameInfo, rest: seq<Field>)
    ensures DecodeGameInfo(EncodeGameInfo(g) + rest) == Some((g, rest))
  {
    var fs := EncodeGameInfo(g) + rest;
    assert fs[4..] == WriteStrings(g.players) + rest;
    StringsRoundTrip(g.players, rest);
  }
}
