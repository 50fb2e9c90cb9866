/**
 * The player base record (game::basic_player): nickname, slot number, lives and
 * the key flag, with a class-wide construction counter that numbers default nicks.
 */
module BasicPlayer {
  import opened Text

  /** A class-wide counter (a static member in the source), shared by every construction. */
  class PlayersCounter {
    var value: nat

    constructor (initial: nat)
      ensures value == initial
    {
      value := initial;
    }
  }

  /** The nickname given to a player constructed without one. */
  function DefaultNick(n: nat): string {
    "player_" + NatToDecimal(n)
  }

  /** Two constructions never receive the same default nickname. */
  lemma DefaultNicksDistinct(a: nat, b: nat)
    requires a != b
    ensures DefaultNick(a) != DefaultNick(b)
  {
    if DefaultNick(a) == DefaultNick(b) {
      assert NatToDecimal(a) == DefaultNick(a)[7..];
      assert NatToDecimal(b) == DefaultNick(b)[7..];
      NatToDecimalInjective(a, b);
    }
  }

  class BasicPlayer {
    var nick: string
    var playerNum: nat
    var lifes: nat
    var hasKey: bool

    /** Default construction: three lives, slot 0, no key, nick "player_" and the counter after its increment. */
    constructor Default(counter: PlayersCounter)
      modifies counter
      ensures counter.value == old(counter.value) + 1
      ensures nick == DefaultNick(counter.value)
      ensures lifes == 3 && playerNum == 0 && !hasKey
    {
      counter.value := counter.value + 1;
      nick := DefaultNick(counter.value);
      playerNum, lifes, hasKey := 0, 3, false;
    }

    /** Construction with a nickname: stored unchanged; the counter still advances by one. */
    constructor WithNick(name: string, counter: PlayersCounter)
      modifies counter
      ensures counter.value == old(counter.value) + 1
      ensures nick == name
      ensures lifes == 3 && playerNum == 0 && !hasKey
    {
      counter.value := counter.value + 1;
      nick := name;
      playerNum, lifes, hasKey := 0, 3, false;
    }

    method GetNick() returns (name: string)
      ensures name == nick
    {
      name := nick;
    }

    method SetNick(name: string)
      modifies this`nick
      ensures nick == name
    {
      nick := name;
    }

    method GetLifes() returns (n: nat)
      ensures n == lifes
    {
      n := lifes;
    }

    /** One life fewer, but never below zero. */
    method DecrLifes()
      modifies this`lifes
      ensures lifes == if old(lifes) > 0 then old(lifes) - 1 else 0
      ensures lifes <= old(lifes)
    {
      if lifes > 0 {
        lifes := lifes - 1;
      }
    }
  }

  /** After set_nick(n), get_nick returns n. */
  method SetThenGetNick(p: BasicPlayer, name: string) returns (got: string)
    modifies p
    ensures got == name
  {
    p.SetNick(name);
    got := p.GetNick();
  }
}
