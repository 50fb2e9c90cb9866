/**
 * The fixed table of player slots of one game (game::players_list): four slots,
 * the number of used slots and the lowest free slot, kept in step by add/remove.
 */
module PlayersList {
  import opened Wrappers

  const GAME_MAX_PLAYERS: nat := 4

  /** Number of occupied slots. */
  function Occupancy<T>(s: seq<Option<T>>): (n: nat)
    ensures n <= |s|
    ensures n == 0 <==> forall i :: 0 <= i < |s| ==> s[i].None?
  {
    if s == [] then 0 else Occupancy(s[..|s| - 1]) + (if s[|s| - 1].Some? then 1 else 0)
  }

  /** Filling or clearing one slot changes the occupancy by exactly that slot's change. */
  lemma {:induction false} OccupancyUpdate<T>(s: seq<Option<T>>, i: int, v: Option<T>)
    requires 0 <= i < |s|
    ensures Occupancy(s[i := v]) == Occupancy(s) - (if s[i].Some? then 1 else 0) + (if v.Some? then 1 else 0)
  {
    var t := s[i := v];
    if i == |s| - 1 {
      assert t[..|t| - 1] == s[..|s| - 1];
    } else {
      assert t[..|t| - 1] == s[..|s| - 1][i := v];
      OccupancyUpdate(s[..|s| - 1], i, v);
    }
  }

  /** `k` is the lowest free slot, or the capacity when every slot is taken. */
  ghost predicate IsLowestFree<T>(s: seq<Option<T>>, k: int) {
    && 0 <= k <= |s|
    && (forall j :: 0 <= j < k ==> s[j].Some?)
    && (k < |s| ==> s[k].None?)
  }

  /** The lowest free slot is unique, so first_empty_ is determined by the slots. */
  lemma LowestFreeUnique<T>(s: seq<Option<T>>, k1: int, k2: int)
    requires IsLowestFree(s, k1) && IsLowestFree(s, k2)
    ensures k1 == k2
  {
  }

  class PlayersList<T(==)> {
    const slots: array<Option<T>>
    var firstEmpty: nat
    var usedSlots: nat

    /** used_slots_ counts the occupied slots and first_empty_ is the lowest free one. */
    ghost predicate Valid()
      reads this, slots
    {
      && slots.Length == GAME_MAX_PLAYERS
      && usedSlots == Occupancy(slots[..])
      && IsLowestFree(slots[..], firstEmpty)
    }

    constructor ()
      ensures Valid() && fresh(slots)
      ensures slots[..] == [None, None, None, None]
      ensures firstEmpty == 0 && usedSlots == 0
    {
      slots := new Option<T>[GAME_MAX_PLAYERS](_ => None);
      firstEmpty, usedSlots := 0, 0;
    }

    /**
     * add: returns the slot that was lowest free before the call. When a slot is
     * free the player goes there and the count grows by one; when the table is
     * full nothing changes and the capacity is returned.
     */
    method Add(p: T) returns (slot: nat)
      requires Valid()
      modifies this, slots
      ensures Valid()
      ensures slot == old(firstEmpty)
      ensures old(firstEmpty) < GAME_MAX_PLAYERS ==>
        && slots[..] == old(slots[..])[slot := Some(p)]
        && usedSlots == old(usedSlots) + 1
      ensures old(firstEmpty) == GAME_MAX_PLAYERS ==>
        && slots[..] == old(slots[..])
        && usedSlots == old(usedSlots)
        && firstEmpty == GAME_MAX_PLAYERS
    {
      slot := firstEmpty;
      if firstEmpty < GAME_MAX_PLAYERS {
        OccupancyUpdate(slots[..], firstEmpty, Some(p));
        slots[firstEmpty] := Some(p);
        firstEmpty := firstEmpty + 1;
        usedSlots := usedSlots + 1;
        while firstEmpty < GAME_MAX_PLAYERS && slots[firstEmpty].Some?
          invariant slot < firstEmpty <= GAME_MAX_PLAYERS
          invariant forall j :: 0 <= j < firstEmpty ==> slots[j].Some?
          invariant slots[..] == old(slots[..])[slot := Some(p)]
          invariant usedSlots == Occupancy(slots[..])
        {
          firstEmpty := firstEmpty + 1;
        }
      }
    }

    /**
     * remove (debug build): the slot must hold exactly `p`; it is emptied, the
     * count drops by one and the lowest free slot becomes min(first_empty_, n).
     */
    method Remove(n: nat, p: T)
      requires Valid()
      requires n < GAME_MAX_PLAYERS && slots[n] == Some(p)
      modifies this, slots
      ensures Valid()
      ensures slots[..] == old(slots[..])[n := None]
      ensures usedSlots == old(usedSlots) - 1
      ensures firstEmpty == if n < old(firstEmpty) then n else old(firstEmpty)
    {
      OccupancyUpdate(slots[..], n, None);
      usedSlots := usedSlots - 1;
      slots[n] := None;
      if n < firstEmpty {
        firstEmpty := n;
      }
    }

    /**
     * remove (release build): no check of the slot's content. The unsigned char
     * count wraps when it was 0. The table stays consistent only when the slot
     * was occupied.
     */
    method RemoveUnchecked(n: nat)
      requires Valid()
      requires n < GAME_MAX_PLAYERS
      modifies this, slots
      ensures slots[..] == old(slots[..])[n := None]
      ensures usedSlots == (old(usedSlots) + 255) % 256
      ensures firstEmpty == if n < old(firstEmpty) then n else old(firstEmpty)
      ensures old(slots[n]).Some? ==> Valid()
    {
      OccupancyUpdate(slots[..], n, None);
      slots[n] := None;
      usedSlots := (usedSlots + 255) % 256;
      if n < firstEmpty {
        firstEmpty := n;
      }
    }
  }
}
